/** What acceptance says about every section: references, transports, forward ids. */
module ConfigAccepted {
  import opened Codec
  import opened Options
  import opened ConfigSchema
  import opened ConfigExact
  import opened ConfigSections
  import BridgeConfig
  import Requests

  // ---------------------------------------------------------------- transports

  /** The transport that an id means: the first of that id. */
  predicate Means(ts: seq<Transport>, id: string, i: nat)
  {
    i < |ts| && ts[i].id == id && forall j :: 0 <= j < i ==> ts[j].id != id
  }

  lemma {:induction false} FirstFound(ts: seq<Transport>, id: string, i: nat)
    requires Means(ts, id, i)
    ensures FindTransport(ts, id) == Some(ts[i])
    decreases i
  {
    if i > 0 {
      FirstFound(ts[1..], id, i - 1);
    }
  }

  /** A transport counts as a Modbus client exactly when the id means a TCP client or a serial line. */
  lemma ClientExact(s: Schema, id: string)
    ensures OnClient(s, id) <==>
      exists i: nat :: Means(s.transports, id, i) && s.transports[i].kind in {ModbusTcpClient, ModbusRtu}
  {
    FoundExact(s.transports, id);
    hide FindTransport;
    forall i: nat | Means(s.transports, id, i) ensures FindTransport(s.transports, id) == Some(s.transports[i]) {
      FirstFound(s.transports, id, i);
    }
    if FindTransport(s.transports, id).Some? {
      var i :| 0 <= i < |s.transports| && FindTransport(s.transports, id) == Some(s.transports[i]) && s.transports[i].id == id
               && forall j :: 0 <= j < i ==> s.transports[j].id != id;
      assert Means(s.transports, id, i);
    }
  }

  /** Elsewhere a request may have any size: only the reference is checked. */
  lemma ElsewhereUnlimited(s: Schema, p: Poll, w: SinkWindow, h: Heartbeat)
    ensures !OnClient(s, p.transport) ==> (PollRefs(s, p) <==> Refers(s, p.transport))
    ensures !OnClient(s, w.transport) ==> (WindowRefs(s, w) <==> Refers(s, w.transport))
    ensures !OnClient(s, h.transport) ==> (HeartbeatRefs(s, h) <==> Refers(s, h.transport))
  {
  }

  /** A transport's values: a written id, and listen ranges of addresses. */
  lemma TransportExact(t: Transport)
    ensures TransportValues(t) <==> !Blank(t.id) && forall k :: 0 <= k < |t.listen| ==> Addresses(t.listen[k].start, t.listen[k].size)
  {
    hide Blank, Addresses;
    forall k | 0 <= k < |t.listen|
      ensures ValidRange(t.listen[k].start, t.listen[k].size, 65536) <==> Addresses(t.listen[k].start, t.listen[k].size)
    {
      AddressesExact(t.listen[k].start, t.listen[k].size, 0);
    }
    hide ValidRange;
  }

  /** In an accepted configuration every transport is the one that its id means, and listens on addresses only. */
  lemma TransportsReached(s: Schema, i: nat)
    requires Accepted(s) && i < |s.transports|
    ensures FindTransport(s.transports, s.transports[i].id) == Some(s.transports[i]) && !Blank(s.transports[i].id)
    ensures forall k :: 0 <= k < |s.transports[i].listen| ==> Addresses(s.transports[i].listen[k].start, s.transports[i].listen[k].size)
  {
    IdsOf(s);
    BridgeConfig.ValuesOf(s);
    hide Accepted;
    assert TransportValues(s.transports[i]);
    hide Values;
    TransportExact(s.transports[i]);
    var ids := TransportIds(s);
    forall j | 0 <= j < i ensures s.transports[j].id != s.transports[i].id {
      assert ids[j] == s.transports[j].id && ids[i] == s.transports[i].id;
    }
    FirstFound(s.transports, s.transports[i].id, i);
  }

  lemma IdsOf(s: Schema)
    requires Accepted(s)
    ensures Distinct(TransportIds(s)) && Limits(s)
  {
    hide Values, Limits, Apart, Graph, Distinct, ModuleIds, TransportIds;
  }

  // ---------------------------------------------------------------- references

  /** A reference that is empty or names a transport. */
  ghost predicate Known(s: Schema, id: string)
  {
    id == "" || exists i :: 0 <= i < |s.transports| && s.transports[i].id == id
  }

  /** In an accepted configuration every module's and every bridge's transport is known, and every datapoint takes registers. */
  lemma NothingDangles(s: Schema)
    requires Accepted(s)
    ensures forall i :: 0 <= i < |s.polls| ==> Known(s, s.polls[i].transport)
    ensures forall i :: 0 <= i < |s.windows| ==> Known(s, s.windows[i].transport)
    ensures forall i :: 0 <= i < |s.heartbeats| ==> Known(s, s.heartbeats[i].transport)
    ensures forall i :: 0 <= i < |s.commands| ==> Known(s, s.commands[i].transport)
    ensures forall i :: 0 <= i < |s.bridges| ==> Known(s, s.bridges[i].server) && Known(s, s.bridges[i].plc)
    ensures forall i :: 0 <= i < |s.datapoints| && s.datapoints[i].sink.Some? ==> Known(s, s.datapoints[i].sink.value.port)
    ensures forall i :: 0 <= i < |s.datapoints| ==> RegisterCount(s.datapoints[i].kind) > 0
  {
    IdsOf(s);
    BridgeConfig.GraphOf(s);
    BridgeConfig.ValuesOf(s);
    hide Accepted, Distinct;
    forall id: string ensures Refers(s, id) <==> Known(s, id) { RefersExact(s, id); }
    hide Known, Refers, BridgeApart;
    forall i | 0 <= i < |s.bridges| ensures Known(s, s.bridges[i].server) && Known(s, s.bridges[i].plc) {
      EndsKnown(s, s.bridges[i]);
    }
    forall i | 0 <= i < |s.datapoints| && s.datapoints[i].sink.Some? ensures Known(s, s.datapoints[i].sink.value.port) {
      PortKnown(s, s.datapoints[i]);
    }
    forall i | 0 <= i < |s.datapoints| ensures RegisterCount(s.datapoints[i].kind) > 0 {
      assert DatapointValues(s.datapoints[i]);
    }
  }

  lemma EndsKnown(s: Schema, b: Bridge)
    requires BridgeRefs(s, b)
    ensures Refers(s, b.server) && Refers(s, b.plc)
  {
    hide Refers, ClearOfWindows, ClearOfHeartbeats, ClearOfCommands, CoveredByPoll, RangesOverlap, Listened, FindTransport;
  }

  lemma PortKnown(s: Schema, d: Datapoint)
    requires DatapointRefs(s, d) && d.sink.Some?
    ensures Refers(s, d.sink.value.port)
  {
    hide Refers, MaskInWidth, ShiftInWidth, FindWindow, Covers;
  }

  // ---------------------------------------------------------------- ids

  function Trimmed(id: string): string
    decreases |id|
  {
    if id != "" && Space(id[0]) then Trimmed(id[1..])
    else if id != "" && Space(id[|id| - 1]) then Trimmed(id[..|id| - 1])
    else id
  }

  /** An id is blank exactly when trimming leaves nothing of it. */
  lemma {:induction false} BlankExact(id: string)
    ensures Blank(id) <==> Trimmed(id) == ""
    decreases |id|
  {
    hide Space;
    if id != "" && Space(id[0]) {
      BlankExact(id[1..]);
      assert id == [id[0]] + id[1..];
    } else if id != "" && Space(id[|id| - 1]) {
      assert !Blank(id[..|id| - 1]) by { assert !Space(id[..|id| - 1][0]); }
      BlankExact(id[..|id| - 1]);
    }
  }


  predicate Digit(c: char)
  {
    '0' <= c <= '9'
  }

  /** The number that a run of digits prints. */
  function Printed(d: string): int
  {
    if d == "" then 0 else 10 * Printed(d[..|d| - 1]) + (d[|d| - 1] as int - '0' as int)
  }

  /** The printed index reads back, is made of digits, and starts with 0 only if it is 0. */
  lemma {:induction false} DecimalExact(n: nat)
    ensures var d := Decimal(n); |d| > 0 && Printed(d) == n && (forall k :: 0 <= k < |d| ==> Digit(d[k])) && (d[0] == '0' ==> n == 0)
    decreases n
  {
    var d := Decimal(n);
    if n < 10 {
      assert d[..0] == "";
    } else {
      DecimalExact(n / 10);
      assert d[..|d| - 1] == Decimal(n / 10);
    }
  }

  /** No two forward windows have the same id, also when one server's id continues another's. */
  lemma ForwardIdsDiffer(a: Bridge, i: nat, b: Bridge, j: nat)
    requires i != j
    ensures ForwardId(a, i) != ForwardId(b, j)
  {
    DecimalExact(i);
    DecimalExact(j);
    var d, e := Decimal(i), Decimal(j);
    hide Decimal, Printed;
    if ForwardId(a, i) == ForwardId(b, j) {
      SameTail("bridge.fwd." + a.server, d, "bridge.fwd." + b.server, e);
    }
  }

  lemma SameTail(p: string, d: string, q: string, e: string)
    requires p + "." + d == q + "." + e
    requires (forall k :: 0 <= k < |d| ==> Digit(d[k])) && forall k :: 0 <= k < |e| ==> Digit(e[k])
    ensures d == e
  {
    NoDotLater(p, d, q, e);
    NoDotLater(q, e, p, d);
    assert d == (p + "." + d)[|p| + 1..] && e == (q + "." + e)[|q| + 1..];
  }

  lemma NoDotLater(p: string, d: string, q: string, e: string)
    requires p + "." + d == q + "." + e && forall k :: 0 <= k < |d| ==> Digit(d[k])
    ensures |q| <= |p|
  {
    assert (q + "." + e)[|q|] == '.';
    if |p| < |q| { DigitsAfter(p, d, |q|); }
  }

  lemma DigitsAfter(p: string, d: string, k: nat)
    requires |p| < k < |p| + 1 + |d| && forall j :: 0 <= j < |d| ==> Digit(d[j])
    ensures Digit((p + "." + d)[k])
  {
    assert (p + "." + d)[k] == d[k - |p| - 1];
  }
}
