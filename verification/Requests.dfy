/** The reads and writes that the built modules issue, and their limits on a Modbus client. */
module Requests {
  import opened Codec
  import opened Options
  import opened ConfigSchema

  datatype Request =
    | Read(transport: string, table: RegisterType, start: int, count: int)
    | Write(transport: string, table: RegisterType, start: int, count: int)

  /**
   The quantity limits of sections 6.1 to 6.4, 6.11 and 6.12 of the MODBUS
   Application Protocol Specification V1.1b3, and its address space.
   */
  predicate ProtocolLegal(r: Request)
  {
    && 0 <= r.start && 1 <= r.count && r.start + r.count <= 65536
    && match r
       case Read(_, table, _, count) => count <= if table.Coils? || table.DiscreteInputs? then 2000 else 125
       case Write(_, table, _, count) =>
         (table.Coils? && count <= 1968) || (table.HoldingRegisters? && count <= 123)
  }

  predicate Built(s: Schema, transport: string)
  {
    FindTransport(s.transports, transport).Some?
  }

  function PollRequest(p: Poll): Request { Read(p.transport, TableFromString(p.table), p.start, p.count) }

  function WindowRequest(w: SinkWindow): Request { Write(w.transport, TableFromString(w.table), w.start, w.size) }

  function HeartbeatRequest(h: Heartbeat): Request
  {
    Write(h.transport, TableFromString(h.table), h.address, |h.values|)
  }

  function CommandRequest(c: Command, w: RegisterWrite): Request
  {
    Write(c.transport, TableFromString(w.table), w.address, 1)
  }

  function ForwardRequest(b: Bridge): Request
  {
    Write(b.plc, HoldingRegisters, b.writeStart - b.offset, b.writeCount)
  }

  /** The module that a request comes from is configured, and its transport exists. */
  ghost predicate Issued(s: Schema, r: Request)
  {
    || (exists i :: 0 <= i < |s.polls| && Built(s, s.polls[i].transport) && r == PollRequest(s.polls[i]))
    || (exists i :: 0 <= i < |s.windows| && Built(s, s.windows[i].transport) && r == WindowRequest(s.windows[i]))
    || (exists i :: 0 <= i < |s.heartbeats| && Built(s, s.heartbeats[i].transport) && r == HeartbeatRequest(s.heartbeats[i]))
    || (exists i, k :: 0 <= i < |s.commands| && 0 <= k < |s.commands[i].writes| && Built(s, s.commands[i].transport)
                       && r == CommandRequest(s.commands[i], s.commands[i].writes[k]))
    || (exists i :: 0 <= i < |s.bridges| && s.bridges[i].writeCount > 0 && Built(s, s.bridges[i].plc)
                    && r == ForwardRequest(s.bridges[i]))
  }

  // ---------------------------------------------------------------- builders

  method BuildPollRanges(s: Schema) returns (out: set<Request>)
    ensures forall r :: r in out <==>
              exists i :: 0 <= i < |s.polls| && Built(s, s.polls[i].transport) && r == PollRequest(s.polls[i])
  {
    hide Built, PollRequest;
    out := {};
    for k := 0 to |s.polls|
      invariant forall r :: r in out <==>
                  exists i :: 0 <= i < k && Built(s, s.polls[i].transport) && r == PollRequest(s.polls[i])
    {
      if Built(s, s.polls[k].transport) { out := out + {PollRequest(s.polls[k])}; }
    }
  }

  method BuildSinkWindows(s: Schema) returns (out: set<Request>)
    ensures forall r :: r in out <==>
              exists i :: 0 <= i < |s.windows| && Built(s, s.windows[i].transport) && r == WindowRequest(s.windows[i])
  {
    hide Built, WindowRequest;
    out := {};
    for k := 0 to |s.windows|
      invariant forall r :: r in out <==>
                  exists i :: 0 <= i < k && Built(s, s.windows[i].transport) && r == WindowRequest(s.windows[i])
    {
      if Built(s, s.windows[k].transport) { out := out + {WindowRequest(s.windows[k])}; }
    }
  }

  method BuildHeartbeats(s: Schema) returns (out: set<Request>)
    ensures forall r :: r in out <==>
              exists i :: 0 <= i < |s.heartbeats| && Built(s, s.heartbeats[i].transport) && r == HeartbeatRequest(s.heartbeats[i])
  {
    hide Built, HeartbeatRequest;
    out := {};
    for k := 0 to |s.heartbeats|
      invariant forall r :: r in out <==>
                  exists i :: 0 <= i < k && Built(s, s.heartbeats[i].transport) && r == HeartbeatRequest(s.heartbeats[i])
    {
      if Built(s, s.heartbeats[k].transport) { out := out + {HeartbeatRequest(s.heartbeats[k])}; }
    }
  }

  method BuildCommand(c: Command) returns (out: set<Request>)
    ensures forall r :: r in out <==> exists k :: 0 <= k < |c.writes| && r == CommandRequest(c, c.writes[k])
  {
    hide CommandRequest;
    out := {};
    for w := 0 to |c.writes|
      invariant forall r :: r in out <==> exists k :: 0 <= k < w && r == CommandRequest(c, c.writes[k])
    {
      out := out + {CommandRequest(c, c.writes[w])};
    }
  }

  method BuildCommands(s: Schema) returns (out: set<Request>)
    ensures forall r :: r in out <==>
              exists i, k :: 0 <= i < |s.commands| && 0 <= k < |s.commands[i].writes| && Built(s, s.commands[i].transport)
                             && r == CommandRequest(s.commands[i], s.commands[i].writes[k])
  {
    hide Built, CommandRequest;
    out := {};
    for n := 0 to |s.commands|
      invariant forall r :: r in out <==>
                  exists i, k :: 0 <= i < n && 0 <= k < |s.commands[i].writes| && Built(s, s.commands[i].transport)
                                 && r == CommandRequest(s.commands[i], s.commands[i].writes[k])
    {
      if Built(s, s.commands[n].transport) {
        var more := BuildCommand(s.commands[n]);
        out := out + more;
      }
    }
  }

  method BuildForwards(s: Schema) returns (out: set<Request>)
    ensures forall r :: r in out <==>
              exists i :: 0 <= i < |s.bridges| && s.bridges[i].writeCount > 0 && Built(s, s.bridges[i].plc)
                          && r == ForwardRequest(s.bridges[i])
  {
    hide Built, ForwardRequest;
    out := {};
    for k := 0 to |s.bridges|
      invariant forall r :: r in out <==>
                  exists i :: 0 <= i < k && s.bridges[i].writeCount > 0 && Built(s, s.bridges[i].plc)
                              && r == ForwardRequest(s.bridges[i])
    {
      if s.bridges[k].writeCount > 0 && Built(s, s.bridges[k].plc) { out := out + {ForwardRequest(s.bridges[k])}; }
    }
  }

  /** The builders produce exactly the requests of the configured modules whose transport exists. */
  method BuildAll(s: Schema) returns (out: set<Request>)
    ensures forall r :: r in out <==> Issued(s, r)
  {
    hide Built, PollRequest, WindowRequest, HeartbeatRequest, CommandRequest, ForwardRequest;
    var polls := BuildPollRanges(s);
    var windows := BuildSinkWindows(s);
    var heartbeats := BuildHeartbeats(s);
    var commands := BuildCommands(s);
    var forwards := BuildForwards(s);
    out := polls + windows + heartbeats + commands + forwards;
  }

  // ---------------------------------------------------------------- legality

  lemma PollLegal(s: Schema, p: Poll)
    requires PollValues(p) && PollRefs(s, p) && OnClient(s, p.transport)
    ensures ProtocolLegal(PollRequest(p))
  {
    hide Blank, FindTransport;
  }

  lemma WindowLegal(s: Schema, w: SinkWindow)
    requires WindowValues(w) && WindowRefs(s, w) && OnClient(s, w.transport)
    ensures ProtocolLegal(WindowRequest(w))
  {
    hide Blank, FindTransport;
  }

  lemma HeartbeatLegal(s: Schema, h: Heartbeat)
    requires HeartbeatValues(h) && HeartbeatRefs(s, h) && OnClient(s, h.transport) && h.values != []
    ensures ProtocolLegal(HeartbeatRequest(h))
  {
    hide Blank, FindTransport;
  }

  lemma CommandLegal(c: Command, k: nat)
    requires CommandValues(c) && k < |c.writes|
    ensures ProtocolLegal(CommandRequest(c, c.writes[k]))
  {
    assert WriteValues(c.writes[k]);
    hide Blank;
  }

  lemma ForwardLegal(b: Bridge)
    requires BridgeValues(b) && b.writeCount > 0
    ensures ProtocolLegal(ForwardRequest(b))
  {
  }

  /** Every heartbeat on a Modbus client has something to write. */
  predicate ClientHeartbeatsFilled(s: Schema)
  {
    forall i :: 0 <= i < |s.heartbeats| && OnClient(s, s.heartbeats[i].transport) ==> s.heartbeats[i].values != []
  }

  lemma IssuedLegal(s: Schema, r: Request)
    requires Values(s) && Limits(s) && ClientHeartbeatsFilled(s) && Issued(s, r) && OnClient(s, r.transport)
    ensures ProtocolLegal(r)
  {
    hide ProtocolLegal, TransportValues, PollValues, WindowValues, HeartbeatValues, CommandValues, DatapointValues, BridgeValues,
      PollRefs, WindowRefs, HeartbeatRefs, FindTransport;
    if i :| 0 <= i < |s.polls| && Built(s, s.polls[i].transport) && r == PollRequest(s.polls[i]) {
      PollLegal(s, s.polls[i]);
    } else if i :| 0 <= i < |s.windows| && Built(s, s.windows[i].transport) && r == WindowRequest(s.windows[i]) {
      WindowLegal(s, s.windows[i]);
    } else if i :| 0 <= i < |s.heartbeats| && Built(s, s.heartbeats[i].transport) && r == HeartbeatRequest(s.heartbeats[i]) {
      HeartbeatLegal(s, s.heartbeats[i]);
    } else if i, k :| 0 <= i < |s.commands| && 0 <= k < |s.commands[i].writes| && Built(s, s.commands[i].transport)
                      && r == CommandRequest(s.commands[i], s.commands[i].writes[k]) {
      CommandLegal(s.commands[i], k);
    } else {
      var i :| 0 <= i < |s.bridges| && s.bridges[i].writeCount > 0 && Built(s, s.bridges[i].plc)
               && r == ForwardRequest(s.bridges[i]);
      ForwardLegal(s.bridges[i]);
    }
  }

  /**
   Validation alone makes every request on a Modbus client legal exactly when no
   heartbeat there is empty, which only the loader checks.
   */
  lemma ValidRequestsLegal(s: Schema)
    requires Valid(s)
    ensures (forall r :: Issued(s, r) && OnClient(s, r.transport) ==> ProtocolLegal(r)) <==> ClientHeartbeatsFilled(s)
  {
    ValidParts(s);
    hide Valid, Values, Limits;
    if ClientHeartbeatsFilled(s) {
      forall r | Issued(s, r) && OnClient(s, r.transport) ensures ProtocolLegal(r) { IssuedLegal(s, r); }
    }
    if forall r :: Issued(s, r) && OnClient(s, r.transport) ==> ProtocolLegal(r) {
      forall i | 0 <= i < |s.heartbeats| && OnClient(s, s.heartbeats[i].transport) ensures s.heartbeats[i].values != [] {
        var r := HeartbeatRequest(s.heartbeats[i]);
        assert Issued(s, r) && ProtocolLegal(r);
      }
    }
  }

  const EMPTY_BEAT: Schema :=
    Schema([Transport("plc", ModbusTcpClient, [])], [], [], [Heartbeat("beat", "plc", "HR", 0, [])], [], [], [], [])

  lemma EmptyBeatParts()
    ensures var s := EMPTY_BEAT;
            && FindTransport(s.transports, "plc") == Some(s.transports[0])
            && !Blank("plc") && !Blank("beat")
            && ModuleIds(s) == ["beat"] && TransportIds(s) == ["plc"]
  {
    assert Space("plc"[0]) == false && Space("beat"[0]) == false;
  }

  lemma EmptyBeatValid()
    ensures Valid(EMPTY_BEAT)
  {
    EmptyBeatParts();
    hide Blank, FindTransport, ModuleIds, TransportIds, CanonicalTable, RangesOverlap;
    var s := EMPTY_BEAT;
    assert Values(s) && Limits(s);
    assert Apart(s) && Graph(s);
  }

  /** A valid schema with an empty heartbeat on a client, whose write of no registers is illegal. */
  lemma EmptyHeartbeatPasses()
    ensures Valid(EMPTY_BEAT) && !Accepted(EMPTY_BEAT) && !ClientHeartbeatsFilled(EMPTY_BEAT)
    ensures exists r :: Issued(EMPTY_BEAT, r) && OnClient(EMPTY_BEAT, r.transport) && !ProtocolLegal(r)
  {
    var s := EMPTY_BEAT;
    EmptyBeatValid();
    EmptyBeatParts();
    hide Valid, FindTransport, TableFromString;
    var r := HeartbeatRequest(s.heartbeats[0]);
    assert Issued(s, r) by { assert Built(s, s.heartbeats[0].transport); }
    assert OnClient(s, r.transport) && !ProtocolLegal(r);
    assert s.heartbeats[0].values == [];
  }

  /** Every request that an accepted configuration leads to on a Modbus client is legal in the protocol. */
  lemma RequestsLegal(s: Schema, r: Request)
    requires Accepted(s) && Issued(s, r) && OnClient(s, r.transport)
    ensures ProtocolLegal(r)
  {
    hide Valid, Issued, ProtocolLegal, FindTransport;
    ValidRequestsLegal(s);
  }

  /** The bounds are tight: a poll on a client is accepted only up to its limit. */
  lemma LimitExact(s: Schema, p: Poll)
    requires PollValues(p) && Refers(s, p.transport) && OnClient(s, p.transport)
    ensures PollRefs(s, p) <==> ProtocolLegal(PollRequest(p))
  {
    hide Blank, FindTransport;
  }

  /** The same for a window and for a heartbeat with a payload: the write limit is the protocol's. */
  lemma WriteLimitExact(s: Schema, w: SinkWindow, h: Heartbeat)
    ensures WindowValues(w) && OnClient(s, w.transport) ==> (WindowRefs(s, w) <==> ProtocolLegal(WindowRequest(w)))
    ensures HeartbeatValues(h) && OnClient(s, h.transport) && h.values != [] ==>
              (HeartbeatRefs(s, h) <==> ProtocolLegal(HeartbeatRequest(h)))
  {
    hide Blank, FindTransport;
  }

  lemma ValidParts(s: Schema)
    requires Valid(s)
    ensures Values(s) && Limits(s)
  {
    hide Values, Limits, Apart, Graph, Distinct, ModuleIds, TransportIds;
  }
}
