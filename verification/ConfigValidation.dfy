/** Configuration validation: the loops that append to an error list, each proved against its condition. */
module ConfigValidation {
  import opened Codec
  import opened Options
  import opened ConfigSchema
  import ScalarCodec

  datatype Section = TransportSec(i: nat) | PollSec(i: nat) | WindowSec(i: nat) | HeartbeatSec(i: nat)
                   | CommandSec(i: nat) | WriteSec(i: nat, k: nat) | DatapointSec(i: nat) | BridgeSec(i: nat)
                   | IdSec(name: string)

  datatype Error = Error(section: Section, field: string)

  type Errors = seq<Error>

  /** Nothing was found before, and the condition checked now holds. */
  ghost predicate Clean(after: Errors, before: Errors, ok: bool)
  {
    before <= after && (after == before <==> ok)
  }

  method Require(ok: bool, sec: Section, field: string, errs: Errors) returns (r: Errors)
    ensures Clean(r, errs, ok)
  {
    r := if ok then errs else errs + [Error(sec, field)];
  }

  method RequireId(id: string, sec: Section, field: string, errs: Errors) returns (r: Errors)
    ensures Clean(r, errs, !Blank(id))
  {
    var blank := true;
    for k := 0 to |id|
      invariant blank == Blank(id[..k])
    {
      assert Blank(id[..k + 1]) == (Blank(id[..k]) && Space(id[k])) by { BlankSnoc(id, k); }
      if !Space(id[k]) { blank := false; }
    }
    assert id[..|id|] == id;
    r := Require(!blank, sec, field, errs);
  }

  lemma BlankSnoc(id: string, k: nat)
    requires k < |id|
    ensures Blank(id[..k + 1]) == (Blank(id[..k]) && Space(id[k]))
  {
    hide Space;
    var longer, shorter := id[..k + 1], id[..k];
    if Blank(longer) {
      assert Space(longer[k]);
      forall j | 0 <= j < k ensures Space(shorter[j]) { assert shorter[j] == longer[j]; }
    }
    if Blank(shorter) && Space(id[k]) {
      forall j | 0 <= j < k + 1 ensures Space(longer[j]) { if j < k { assert longer[j] == shorter[j]; } }
    }
  }

  method ValidateRange(sec: Section, field: string, start: int, count: int, maxCount: int, errs: Errors) returns (r: Errors)
    ensures Clean(r, errs, ValidRange(start, count, maxCount))
  {
    r := errs;
    if start < 0 || start > 65535 { r := r + [Error(sec, field)]; }
    if count <= 0 || count > maxCount { r := r + [Error(sec, field)]; }
    if start >= 0 && count > 0 && start + count > 65536 { r := r + [Error(sec, field)]; }
  }

  // ---------------------------------------------------------------- values

  method TransportCheck(t: Transport, sec: Section, errs: Errors) returns (r: Errors)
    ensures Clean(r, errs, TransportValues(t))
  {
    r := RequireId(t.id, sec, "id", errs);
    for k := 0 to |t.listen|
      invariant Clean(r, errs, !Blank(t.id) && forall j :: 0 <= j < k ==> ValidRange(t.listen[j].start, t.listen[j].size, 65536))
    {
      r := ValidateRange(sec, "range", t.listen[k].start, t.listen[k].size, 65536, r);
    }
  }

  method PollCheck(p: Poll, sec: Section, errs: Errors) returns (r: Errors)
    ensures Clean(r, errs, PollValues(p))
  {
    r := RequireId(p.moduleId, sec, "module_id", errs);
    if !KnownTable(p.table) {
      r := r + [Error(sec, "table")];
    } else {
      r := ValidateRange(sec, "range", p.start, p.count, 65536, r);
    }
  }

  method WindowCheck(w: SinkWindow, sec: Section, errs: Errors) returns (r: Errors)
    ensures Clean(r, errs, WindowValues(w))
  {
    hide Blank;
    r := RequireId(w.moduleId, sec, "module_id", errs);
    if !WritableTable(w.table) {
      r := r + [Error(sec, "table")];
    } else {
      r := ValidateRange(sec, "range", w.start, w.size, 65536, r);
    }
    r := Require(w.debounceMs >= 0, sec, "debounce_ms", r);
    r := Require(w.keepAliveMs >= 0, sec, "keepalive_ms", r);
    r := Require(|w.initial| <= w.size, sec, "initial", r);
  }

  method HeartbeatCheck(h: Heartbeat, sec: Section, errs: Errors) returns (r: Errors)
    ensures Clean(r, errs, HeartbeatValues(h))
  {
    hide Blank;
    r := RequireId(h.moduleId, sec, "module_id", errs);
    if !WritableTable(h.table) {
      r := r + [Error(sec, "table")];
    } else if h.values != [] {
      r := ValidateRange(sec, "values", h.address, |h.values|, 65536, r);
    }
  }

  method CommandCheck(c: Command, i: nat, errs: Errors) returns (r: Errors)
    ensures Clean(r, errs, CommandValues(c))
  {
    hide Blank;
    r := RequireId(c.moduleId, CommandSec(i), "module_id", errs);
    for k := 0 to |c.writes|
      invariant Clean(r, errs, !Blank(c.moduleId) && forall j :: 0 <= j < k ==> WriteValues(c.writes[j]))
    {
      r := Require(WritableTable(c.writes[k].table), WriteSec(i, k), "table", r);
      r := ValidateRange(WriteSec(i, k), "address", c.writes[k].address, 1, 1, r);
    }
  }

  method SinkCheck(t: ScalarType, p: Sink, sec: Section, errs: Errors) returns (r: Errors)
    ensures Clean(r, errs, SinkValues(t, p))
  {
    hide KnownTable, KnownWordOrder, ValidRange, Untransformed, SinkWords;
    r := Require(p.table == "" || KnownTable(p.table), sec, "table", errs);
    r := ValidateRange(sec, "addr", p.address, SinkWords(t), 65536, r);
    r := Require(-1 <= p.bit <= 15, sec, "bit", r);
    r := Require(!(p.bit >= 0 && !t.Bool?), sec, "bit", r);
    r := Require(0 <= p.shift <= 63, sec, "shift", r);
    r := Require(!(!t.Bool? && p.mask == 0), sec, "mask", r);
    r := Require(KnownWordOrder(p.wordOrder), sec, "wordOrder", r);
    r := TransformCheck(t, p, sec, r);
  }

  method TransformCheck(t: ScalarType, p: Sink, sec: Section, errs: Errors) returns (r: Errors)
    ensures Clean(r, errs, (t.Bool? ==> Untransformed(p) && p.wordOrder == "")
                           && (t.F32? || t.F64? || SinkWords(t) > 1 ==> Untransformed(p)))
  {
    hide Untransformed;
    r := errs;
    if t.Bool? { r := Require(Untransformed(p) && p.wordOrder == "", sec, "transform", r); }
    if t.F32? || t.F64? { r := Require(Untransformed(p), sec, "transform", r); }
    if SinkWords(t) > 1 { r := Require(Untransformed(p), sec, "transform", r); }
  }

  method DatapointCheck(d: Datapoint, sec: Section, errs: Errors) returns (r: Errors)
    ensures Clean(r, errs, DatapointValues(d))
  {
    hide Blank, SinkValues;
    r := RequireId(d.id, sec, "id", errs);
    r := Require(!d.kind.Text?, sec, "type", r);
    if d.sink.Some? { r := SinkCheck(d.kind, d.sink.value, sec, r); }
  }

  method BridgeCheck(b: Bridge, sec: Section, errs: Errors) returns (r: Errors)
    ensures Clean(r, errs, BridgeValues(b))
  {
    r := errs;
    if b.writeCount > 0 {
      r := ValidateRange(sec, "write", b.writeStart, b.writeCount, 123, r);
      var plcStart := b.writeStart - b.offset;
      r := Require(!(plcStart < 0 || plcStart + b.writeCount > 65536), sec, "offset", r);
    }
    if b.mirrorCount > 0 {
      r := ValidateRange(sec, "mirror", b.mirrorStart, b.mirrorCount, 65536, r);
      var serverStart := b.mirrorStart + b.offset;
      r := Require(!(serverStart < 0 || serverStart + b.mirrorCount > 65536), sec, "offset", r);
    }
  }

  method ValidateModules(s: Schema, errs: Errors) returns (r: Errors)
    ensures Clean(r, errs, (forall i :: 0 <= i < |s.transports| ==> TransportValues(s.transports[i]))
                           && (forall i :: 0 <= i < |s.polls| ==> PollValues(s.polls[i]))
                           && (forall i :: 0 <= i < |s.windows| ==> WindowValues(s.windows[i])))
  {
    hide TransportValues, PollValues, WindowValues;
    r := errs;
    for i := 0 to |s.transports|
      invariant Clean(r, errs, forall j :: 0 <= j < i ==> TransportValues(s.transports[j]))
    {
      r := TransportCheck(s.transports[i], TransportSec(i), r);
    }
    ghost var e1 := r;
    for i := 0 to |s.polls|
      invariant Clean(r, e1, forall j :: 0 <= j < i ==> PollValues(s.polls[j]))
    {
      r := PollCheck(s.polls[i], PollSec(i), r);
    }
    ghost var e2 := r;
    for i := 0 to |s.windows|
      invariant Clean(r, e2, forall j :: 0 <= j < i ==> WindowValues(s.windows[j]))
    {
      r := WindowCheck(s.windows[i], WindowSec(i), r);
    }
  }

  method ValidateWriters(s: Schema, errs: Errors) returns (r: Errors)
    ensures Clean(r, errs, (forall i :: 0 <= i < |s.heartbeats| ==> HeartbeatValues(s.heartbeats[i]))
                           && (forall i :: 0 <= i < |s.commands| ==> CommandValues(s.commands[i])))
  {
    hide HeartbeatValues, CommandValues;
    r := errs;
    for i := 0 to |s.heartbeats|
      invariant Clean(r, errs, forall j :: 0 <= j < i ==> HeartbeatValues(s.heartbeats[j]))
    {
      r := HeartbeatCheck(s.heartbeats[i], HeartbeatSec(i), r);
    }
    ghost var e1 := r;
    for i := 0 to |s.commands|
      invariant Clean(r, e1, forall j :: 0 <= j < i ==> CommandValues(s.commands[j]))
    {
      r := CommandCheck(s.commands[i], i, r);
    }
  }

  method ValidateValues(s: Schema, errs: Errors) returns (r: Errors)
    ensures Clean(r, errs, Values(s))
  {
    hide TransportValues, PollValues, WindowValues, HeartbeatValues, CommandValues, DatapointValues, BridgeValues;
    var e0 := ValidateModules(s, errs);
    var e1 := ValidateWriters(s, e0);
    r := e1;
    for i := 0 to |s.datapoints|
      invariant Clean(r, e1, forall j :: 0 <= j < i ==> DatapointValues(s.datapoints[j]))
    {
      r := DatapointCheck(s.datapoints[i], DatapointSec(i), r);
    }
    ghost var e2 := r;
    for i := 0 to |s.bridges|
      invariant Clean(r, e2, forall j :: 0 <= j < i ==> BridgeValues(s.bridges[j]))
    {
      r := BridgeCheck(s.bridges[i], BridgeSec(i), r);
    }
  }

  // ---------------------------------------------------------------- identifiers

  method CheckUnique(ids: seq<string>, name: string, errs: Errors) returns (r: Errors)
    ensures Clean(r, errs, Distinct(ids))
  {
    r := errs;
    var seen: set<string> := {};
    for i := 0 to |ids|
      invariant forall id :: id in seen <==> exists j :: 0 <= j < i && ids[j] == id
      invariant Clean(r, errs, Distinct(ids[..i]))
    {
      ghost var before := ids[..i];
      if ids[i] in seen {
        r := r + [Error(IdSec(name), "id")];
        var j :| 0 <= j < i && ids[j] == ids[i];
        assert ids[..i + 1][j] == ids[..i + 1][i];
      } else {
        seen := seen + {ids[i]};
        assert ids[..i + 1] == before + [ids[i]];
        assert forall j :: 0 <= j < i ==> before[j] == ids[j];
      }
      assert Distinct(ids[..i + 1]) ==> Distinct(before) by {
        assert forall j :: 0 <= j < i ==> before[j] == ids[..i + 1][j];
      }
    }
    assert ids[..|ids|] == ids;
  }

  method CollectModuleIds(s: Schema) returns (ids: seq<string>)
    ensures ids == ModuleIds(s)
  {
    var fwd: seq<string> := [];
    for i := 0 to |s.bridges|
      invariant fwd == ForwardIds(s.bridges, i)
    {
      if s.bridges[i].writeCount > 0 { fwd := fwd + [ForwardId(s.bridges[i], i)]; }
    }
    ids := seq(|s.polls|, i requires 0 <= i < |s.polls| => s.polls[i].moduleId)
      + seq(|s.windows|, i requires 0 <= i < |s.windows| => s.windows[i].moduleId)
      + seq(|s.heartbeats|, i requires 0 <= i < |s.heartbeats| => s.heartbeats[i].moduleId)
      + s.ackWatches
      + seq(|s.commands|, i requires 0 <= i < |s.commands| => s.commands[i].moduleId)
      + fwd;
  }

  // ---------------------------------------------------------------- references

  /** The index of transports by id; the first of two equal ids is kept. */
  method IndexTransports(ts: seq<Transport>) returns (byId: map<string, Transport>)
    ensures forall id :: FindTransport(ts, id) == if id in byId then Some(byId[id]) else None
  {
    byId := map[];
    for i := 0 to |ts|
      invariant forall id :: FindTransport(ts[..i], id) == if id in byId then Some(byId[id]) else None
    {
      forall id ensures FindTransport(ts[..i + 1], id)
                        == if FindTransport(ts[..i], id).Some? then FindTransport(ts[..i], id)
                           else if ts[i].id == id then Some(ts[i]) else None
      {
        assert ts[..i + 1] == ts[..i] + [ts[i]];
        FindSnoc(ts[..i], ts[i], id);
      }
      if ts[i].id !in byId { byId := byId[ts[i].id := ts[i]]; }
    }
    assert ts[..|ts|] == ts;
  }

  lemma {:induction false} FindSnoc(ts: seq<Transport>, t: Transport, id: string)
    ensures FindTransport(ts + [t], id)
            == if FindTransport(ts, id).Some? then FindTransport(ts, id) else if t.id == id then Some(t) else None
    decreases |ts|
  {
    if ts != [] {
      assert (ts + [t])[1..] == ts[1..] + [t];
      FindSnoc(ts[1..], t, id);
    }
  }

  /** The index answers for the schema's transports. */
  ghost predicate Indexes(s: Schema, byId: map<string, Transport>)
  {
    forall id :: FindTransport(s.transports, id) == if id in byId then Some(byId[id]) else None
  }

  method CheckPollLimits(s: Schema, byId: map<string, Transport>, errs: Errors) returns (r: Errors)
    requires Indexes(s, byId)
    ensures Clean(r, errs, forall i :: 0 <= i < |s.polls| ==> PollRefs(s, s.polls[i]))
  {
    hide FindTransport, MaxReadCount, MaxWriteCount, ModbusClient;
    r := errs;
    for i := 0 to |s.polls|
      invariant Clean(r, errs, forall j :: 0 <= j < i ==> PollRefs(s, s.polls[j]))
    {
      var p := s.polls[i];
      r := Require(p.transport == "" || p.transport in byId, PollSec(i), "transport", r);
      if p.transport in byId && ModbusClient(byId[p.transport].kind) {
        r := Require(p.count <= MaxReadCount(p.table), PollSec(i), "range", r);
      }
    }
  }

  method CheckWindowLimits(s: Schema, byId: map<string, Transport>, errs: Errors) returns (r: Errors)
    requires Indexes(s, byId)
    ensures Clean(r, errs, forall i :: 0 <= i < |s.windows| ==> WindowRefs(s, s.windows[i]))
  {
    hide FindTransport, MaxReadCount, MaxWriteCount, ModbusClient;
    r := errs;
    for i := 0 to |s.windows|
      invariant Clean(r, errs, forall j :: 0 <= j < i ==> WindowRefs(s, s.windows[j]))
    {
      var w := s.windows[i];
      r := Require(w.transport == "" || w.transport in byId, WindowSec(i), "transport", r);
      if w.transport in byId && ModbusClient(byId[w.transport].kind) {
        r := Require(w.size <= MaxWriteCount(w.table), WindowSec(i), "range", r);
      }
    }
  }

  method CheckHeartbeatLimits(s: Schema, byId: map<string, Transport>, errs: Errors) returns (r: Errors)
    requires Indexes(s, byId)
    ensures Clean(r, errs, forall i :: 0 <= i < |s.heartbeats| ==> HeartbeatRefs(s, s.heartbeats[i]))
  {
    hide FindTransport, MaxReadCount, MaxWriteCount, ModbusClient;
    r := errs;
    for i := 0 to |s.heartbeats|
      invariant Clean(r, errs, forall j :: 0 <= j < i ==> HeartbeatRefs(s, s.heartbeats[j]))
    {
      var h := s.heartbeats[i];
      r := Require(h.transport == "" || h.transport in byId, HeartbeatSec(i), "transport", r);
      if h.transport in byId && ModbusClient(byId[h.transport].kind) {
        r := Require(|h.values| <= MaxWriteCount(h.table), HeartbeatSec(i), "values", r);
      }
    }
  }

  method CheckLimits(s: Schema, errs: Errors) returns (r: Errors)
    ensures Clean(r, errs, Limits(s))
  {
    hide FindTransport, PollRefs, WindowRefs, HeartbeatRefs;
    var byId := IndexTransports(s.transports);
    var e0 := CheckPollLimits(s, byId, errs);
    var e1 := CheckWindowLimits(s, byId, e0);
    var e2 := CheckHeartbeatLimits(s, byId, e1);
    r := e2;
    for i := 0 to |s.commands|
      invariant Clean(r, e2, forall j :: 0 <= j < i ==> Refers(s, s.commands[j].transport))
    {
      var id := s.commands[i].transport;
      r := Require(id == "" || id in byId, CommandSec(i), "transport", r);
    }
  }

  method CheckClearOfWindows(s: Schema, c: Claim, sec: Section, errs: Errors) returns (r: Errors)
    ensures Clean(r, errs, ClearOfWindows(s, c))
  {
    hide CanonicalTable, RangesOverlap;
    r := errs;
    for j := 0 to |s.windows|
      invariant Clean(r, errs, forall k :: 0 <= k < j ==> !Clash(c, WindowClaim(s.windows[k])))
    {
      var w := s.windows[j];
      if c.transport == w.transport && CanonicalTable(c.table) == CanonicalTable(w.table)
         && RangesOverlap(c.start, c.count, w.start, w.size) {
        r := r + [Error(sec, "address")];
      }
    }
  }

  method CheckClearOfHeartbeats(s: Schema, c: Claim, n: nat, sec: Section, errs: Errors) returns (r: Errors)
    requires n <= |s.heartbeats|
    ensures Clean(r, errs, ClearOfHeartbeats(s, c, n))
  {
    hide CanonicalTable, RangesOverlap;
    r := errs;
    for j := 0 to n
      invariant Clean(r, errs, forall k :: 0 <= k < j ==> !Clash(c, HeartbeatClaim(s.heartbeats[k])))
    {
      var h := s.heartbeats[j];
      if c.transport == h.transport && CanonicalTable(c.table) == CanonicalTable(h.table)
         && RangesOverlap(c.start, c.count, h.address, |h.values|) {
        r := r + [Error(sec, "address")];
      }
    }
  }

  method CheckWindowPairs(s: Schema, errs: Errors) returns (r: Errors)
    ensures Clean(r, errs, forall i :: 0 <= i < |s.windows| ==> WindowApart(s, i))
  {
    hide CanonicalTable, RangesOverlap;
    r := errs;
    for i := 0 to |s.windows|
      invariant Clean(r, errs, forall k :: 0 <= k < i ==> WindowApart(s, k))
    {
      ghost var e := r;
      for j := i + 1 to |s.windows|
        invariant Clean(r, e, forall k :: i < k < j ==> !Clash(WindowClaim(s.windows[i]), WindowClaim(s.windows[k])))
      {
        var a, b := s.windows[i], s.windows[j];
        if a.transport == b.transport && CanonicalTable(a.table) == CanonicalTable(b.table)
           && RangesOverlap(a.start, a.size, b.start, b.size) {
          r := r + [Error(WindowSec(j), "range")];
        }
      }
      assert Clean(r, e, WindowApart(s, i));
    }
  }

  method CheckHeartbeatPairs(s: Schema, errs: Errors) returns (r: Errors)
    ensures Clean(r, errs, forall i :: 0 <= i < |s.heartbeats| ==> HeartbeatApart(s, i))
  {
    hide ClearOfWindows, ClearOfHeartbeats;
    r := errs;
    for i := 0 to |s.heartbeats|
      invariant Clean(r, errs, forall k :: 0 <= k < i ==> HeartbeatApart(s, k))
    {
      var c := HeartbeatClaim(s.heartbeats[i]);
      ghost var e := r;
      r := CheckClearOfWindows(s, c, HeartbeatSec(i), r);
      r := CheckClearOfHeartbeats(s, c, i, HeartbeatSec(i), r);
      assert Clean(r, e, HeartbeatApart(s, i));
    }
  }

  method CheckCommand(s: Schema, i: nat, errs: Errors) returns (r: Errors)
    requires i < |s.commands|
    ensures Clean(r, errs, CommandApart(s, s.commands[i]))
  {
    hide ClearOfWindows, ClearOfHeartbeats;
    var c := s.commands[i];
    r := errs;
    for w := 0 to |c.writes|
      invariant Clean(r, errs, forall k :: 0 <= k < w ==>
                        ClearOfWindows(s, WriteClaim(c, c.writes[k]))
                        && ClearOfHeartbeats(s, WriteClaim(c, c.writes[k]), |s.heartbeats|))
    {
      r := CheckClearOfWindows(s, WriteClaim(c, c.writes[w]), WriteSec(i, w), r);
      r := CheckClearOfHeartbeats(s, WriteClaim(c, c.writes[w]), |s.heartbeats|, WriteSec(i, w), r);
    }
  }

  method CheckApart(s: Schema, errs: Errors) returns (r: Errors)
    ensures Clean(r, errs, Apart(s))
  {
    hide WindowApart, HeartbeatApart, CommandApart;
    var e0 := CheckWindowPairs(s, errs);
    var e1 := CheckHeartbeatPairs(s, e0);
    r := e1;
    for i := 0 to |s.commands|
      invariant Clean(r, e1, forall k :: 0 <= k < i ==> CommandApart(s, s.commands[k]))
    {
      r := CheckCommand(s, i, r);
    }
  }

  /** A sink without a named window counts the windows that hold it. */
  method CountCovering(t: ScalarType, p: Sink, ws: seq<SinkWindow>) returns (matches: nat)
    ensures matches == 0 <==> forall j :: 0 <= j < |ws| ==> !Covers(t, p, ws[j])
  {
    hide Covers;
    matches := 0;
    for j := 0 to |ws|
      invariant matches == 0 <==> forall k :: 0 <= k < j ==> !Covers(t, p, ws[k])
    {
      if Covers(t, p, ws[j]) { matches := matches + 1; }
    }
  }

  method CheckNamedSink(t: ScalarType, p: Sink, w: SinkWindow, sec: Section, errs: Errors) returns (r: Errors)
    ensures Clean(r, errs, SinkInside(t, p, w) && (p.port != "" ==> p.port == w.transport)
                           && (p.table != "" ==> CanonicalTable(p.table) == CanonicalTable(w.table)))
  {
    hide CanonicalTable;
    r := Require(!(p.address < w.start || p.address + SinkWords(t) > w.start + w.size), sec, "addr", errs);
    r := Require(!(p.port != "" && p.port != w.transport), sec, "port", r);
    r := Require(!(p.table != "" && CanonicalTable(p.table) != CanonicalTable(w.table)), sec, "table", r);
  }

  method CheckSink(s: Schema, t: ScalarType, p: Sink, sec: Section, errs: Errors) returns (r: Errors)
    ensures Clean(r, errs, SinkRefs(s, t, p))
  {
    hide FindTransport, FindWindow, SinkInside, CanonicalTable, Covers;
    r := Require(Refers(s, p.port), sec, "port", errs);
    if p.window != "" {
      var w := FindWindow(s.windows, p.window);
      if w.None? {
        r := r + [Error(sec, "window")];
      } else {
        r := CheckNamedSink(t, p, w.value, sec, r);
      }
    } else {
      var matches := CountCovering(t, p, s.windows);
      r := Require(matches != 0, sec, "window", r);
    }
  }

  method CheckMask(t: ScalarType, p: Sink, sec: Section, errs: Errors) returns (r: Errors)
    ensures Clean(r, errs, MaskInWidth(t, p) && ShiftInWidth(t, p))
  {
    hide ScalarCodec.AndNot, ScalarCodec.Down, ScalarCodec.AtMost, WidthLimit, BitWidth;
    r := errs;
    var limit := WidthLimit(t);
    if p.mask != FULL_MASK && ScalarCodec.AndNot(p.mask, limit) != 0 { r := r + [Error(sec, "mask")]; }
    if !t.Bool? && !t.F32? && !t.F64? {
      var effective := if p.mask == FULL_MASK then limit else p.mask;
      if p.shift < 0 || p.shift >= BitWidth(t) || !ScalarCodec.AtMost(effective, ScalarCodec.Down(limit, p.shift)) {
        r := r + [Error(sec, "shift")];
      }
    }
  }

  method CheckListened(t: Transport, start: int, count: int) returns (covered: bool)
    ensures covered == Listened(t, start, count)
  {
    if count <= 0 { return true; }
    for k := 0 to |t.listen|
      invariant forall j :: 0 <= j < k ==> !(t.listen[j].table == HoldingRegisters
                                             && t.listen[j].start <= start && start + count <= t.listen[j].start + t.listen[j].size)
    {
      if t.listen[k].table == HoldingRegisters && start >= t.listen[k].start
         && start + count <= t.listen[k].start + t.listen[k].size {
        return true;
      }
    }
    return false;
  }

  method CheckCoveredByPoll(s: Schema, b: Bridge) returns (covered: bool)
    ensures covered == CoveredByPoll(s, b)
  {
    hide PollHolds;
    for k := 0 to |s.polls|
      invariant forall j :: 0 <= j < k ==> !PollHolds(s.polls[j], b)
    {
      if PollHolds(s.polls[k], b) { return true; }
    }
    return false;
  }

  method CheckBridgeEnds(s: Schema, b: Bridge, sec: Section, errs: Errors) returns (r: Errors)
    ensures Clean(r, errs, BridgeEnds(s, b))
  {
    hide FindTransport, Listened, ModbusClient;
    var server, plc := FindTransport(s.transports, b.server), FindTransport(s.transports, b.plc);
    r := Require(Refers(s, b.server), sec, "server", errs);
    r := Require(Refers(s, b.plc), sec, "plc", r);
    if server.Some? { r := Require(server.value.kind.ModbusTcpServer?, sec, "server", r); }
    if plc.Some? { r := Require(ModbusClient(plc.value.kind), sec, "plc", r); }
    r := Require(!(b.writeCount < 0 || b.mirrorCount < 0), sec, "count", r);
    if server.Some? && server.value.kind.ModbusTcpServer? {
      var writes := CheckListened(server.value, b.writeStart, b.writeCount);
      r := Require(writes, sec, "write", r);
      var mirror := CheckListened(server.value, b.mirrorStart + b.offset, b.mirrorCount);
      r := Require(mirror, sec, "mirror", r);
    }
  }

  method CheckClearOfCommands(s: Schema, c: Claim, sec: Section, errs: Errors) returns (r: Errors)
    ensures Clean(r, errs, ClearOfCommands(s, c))
  {
    hide Clash;
    r := errs;
    for j := 0 to |s.commands|
      invariant Clean(r, errs, forall k :: 0 <= k < j ==> ClearOfWrites(s.commands[k], c))
    {
      ghost var e := r;
      var m := s.commands[j];
      for w := 0 to |m.writes|
        invariant Clean(r, e, forall k :: 0 <= k < w ==> !Clash(c, WriteClaim(m, m.writes[k])))
      {
        r := Require(!Clash(c, WriteClaim(m, m.writes[w])), sec, "write", r);
      }
    }
  }

  method CheckBridge(s: Schema, b: Bridge, sec: Section, errs: Errors) returns (r: Errors)
    ensures Clean(r, errs, BridgeRefs(s, b))
  {
    hide BridgeEnds, ClearOfWindows, ClearOfHeartbeats, ClearOfCommands, CoveredByPoll, FindTransport, RangesOverlap;
    r := CheckBridgeEnds(s, b, sec, errs);
    r := Require(!RangesOverlap(b.writeStart, b.writeCount, b.mirrorStart + b.offset, b.mirrorCount), sec, "range", r);
    r := CheckClearOfWindows(s, ForwardClaim(b), sec, r);
    r := CheckClearOfHeartbeats(s, ForwardClaim(b), |s.heartbeats|, sec, r);
    r := CheckClearOfCommands(s, ForwardClaim(b), sec, r);
    if b.mirrorCount > 0 && FindTransport(s.transports, b.plc).Some? {
      var covered := CheckCoveredByPoll(s, b);
      r := Require(covered, sec, "mirror", r);
    }
  }

  method CheckBridgePair(a: Bridge, b: Bridge, sec: Section, errs: Errors) returns (r: Errors)
    ensures Clean(r, errs, BridgePair(a, b))
  {
    hide ServerWindowsApart, Clash;
    r := Require(!(a.server == b.server && !ServerWindowsApart(a, b)), sec, "range", errs);
    r := Require(!Clash(ForwardClaim(a), ForwardClaim(b)), sec, "write", r);
  }

  method CheckBridgePairs(s: Schema, errs: Errors) returns (r: Errors)
    ensures Clean(r, errs, forall i :: 0 <= i < |s.bridges| ==> BridgeApart(s, i))
  {
    hide BridgePair;
    r := errs;
    for i := 0 to |s.bridges|
      invariant Clean(r, errs, forall k :: 0 <= k < i ==> BridgeApart(s, k))
    {
      ghost var e := r;
      for j := i + 1 to |s.bridges|
        invariant Clean(r, e, forall k :: i < k < j ==> BridgePair(s.bridges[i], s.bridges[k]))
      {
        r := CheckBridgePair(s.bridges[i], s.bridges[j], BridgeSec(j), r);
      }
      assert Clean(r, e, BridgeApart(s, i));
    }
  }

  method CheckGraph(s: Schema, errs: Errors) returns (r: Errors)
    ensures Clean(r, errs, Graph(s))
  {
    hide SinkRefs, BridgeRefs, BridgeApart, MaskInWidth, ShiftInWidth;
    r := errs;
    for i := 0 to |s.datapoints|
      invariant Clean(r, errs, forall k :: 0 <= k < i ==> DatapointRefs(s, s.datapoints[k]))
    {
      if s.datapoints[i].sink.Some? {
        r := CheckSink(s, s.datapoints[i].kind, s.datapoints[i].sink.value, DatapointSec(i), r);
        r := CheckMask(s.datapoints[i].kind, s.datapoints[i].sink.value, DatapointSec(i), r);
      }
    }
    ghost var e1 := r;
    for i := 0 to |s.bridges|
      invariant Clean(r, e1, forall k :: 0 <= k < i ==> BridgeRefs(s, s.bridges[k]))
    {
      r := CheckBridge(s, s.bridges[i], BridgeSec(i), r);
    }
    r := CheckBridgePairs(s, r);
  }

  /** Validation finds no error exactly in a valid schema. */
  method Validate(s: Schema) returns (errs: Errors)
    ensures errs == [] <==> Valid(s)
  {
    hide Values, Limits, Apart, Graph, Distinct, ModuleIds;
    errs := ValidateValues(s, []);
    errs := CheckUnique(TransportIds(s), "transport", errs);
    var ids := CollectModuleIds(s);
    errs := CheckUnique(ids, "module", errs);
    errs := CheckLimits(s, errs);
    errs := CheckApart(s, errs);
    errs := CheckGraph(s, errs);
  }

  /** The loader adds its own refusal of heartbeats without a payload. */
  method Load(s: Schema) returns (errs: Errors)
    ensures errs == [] <==> Accepted(s)
  {
    hide Valid;
    errs := [];
    for i := 0 to |s.heartbeats|
      invariant errs == [] <==> forall k :: 0 <= k < i ==> s.heartbeats[k].values != []
    {
      if s.heartbeats[i].values == [] { errs := errs + [Error(HeartbeatSec(i), "values")]; }
    }
    var found := Validate(s);
    errs := errs + found;
  }
}
