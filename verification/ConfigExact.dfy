/** Validation's conditions in terms of registers, transports and modules. */
module ConfigExact {
  import opened Codec
  import opened Options
  import opened ConfigSchema

  /** A range is valid exactly when it is not empty, within its limit, and all its registers are addresses. */
  lemma RangeExact(start: int, count: int, maxCount: int)
    ensures ValidRange(start, count, maxCount)
            <==> 1 <= count <= maxCount && forall a :: InRange(start, count, a) ==> 0 <= a <= 65535
  {
    if 1 <= count && forall a :: InRange(start, count, a) ==> 0 <= a <= 65535 {
      assert InRange(start, count, start) && InRange(start, count, start + count - 1);
    }
  }

  /** The known names are two for each table, and the writable ones those of the holding registers and the coils. */
  lemma TablesExact(t: string)
    ensures KnownTable(t) <==> CanonicalTable(t) in {"HR", "IR", "Coil", "DI"}
    ensures WritableTable(t) <==> KnownTable(t) && (TableFromString(t) == HoldingRegisters || TableFromString(t) == Coils)
  {
  }

  /** A sink takes as many registers as its type has bits; a Bool takes one. */
  lemma WordsExact(t: ScalarType)
    ensures 16 * SinkWords(t) == if t.Bool? || t.Text? then 16 else BitWidth(t)
  {
  }

  /** A transport is found exactly when some transport has that id, and it is the first of that id. */
  lemma {:induction false} FoundExact(ts: seq<Transport>, id: string)
    ensures FindTransport(ts, id).Some? <==> exists i :: 0 <= i < |ts| && ts[i].id == id
    ensures FindTransport(ts, id).Some? ==>
              exists i :: 0 <= i < |ts| && FindTransport(ts, id) == Some(ts[i]) && ts[i].id == id
                          && forall j :: 0 <= j < i ==> ts[j].id != id
    decreases |ts|
  {
    if ts != [] && ts[0].id != id {
      var rest := ts[1..];
      FoundExact(rest, id);
      if FindTransport(rest, id).Some? {
        var i :| 0 <= i < |rest| && FindTransport(rest, id) == Some(rest[i]) && rest[i].id == id
                 && forall j :: 0 <= j < i ==> rest[j].id != id;
        assert ts[i + 1] == rest[i];
        forall j | 0 <= j < i + 1 ensures ts[j].id != id { if j > 0 { assert ts[j] == rest[j - 1]; } }
      }
      if i :| 0 <= i < |ts| && ts[i].id == id { assert rest[i - 1] == ts[i]; }
    }
  }

  /** A reference is good exactly when it is empty or some transport has that id. */
  lemma RefersExact(s: Schema, id: string)
    ensures Refers(s, id) <==> id == "" || exists i :: 0 <= i < |s.transports| && s.transports[i].id == id
  {
    FoundExact(s.transports, id);
    hide FindTransport;
  }

  /** A range is listened to exactly when it is empty or one holding-register range of the server has all its registers. */
  lemma ListenedExact(t: Transport, start: int, count: int)
    ensures Listened(t, start, count) <==>
      count <= 0 || exists k :: 0 <= k < |t.listen| && t.listen[k].table == HoldingRegisters && HoldsAll(t.listen[k], start, count)
  {
    if count > 0 {
      forall k | 0 <= k < |t.listen|
        ensures HoldsAll(t.listen[k], start, count)
                <==> t.listen[k].start <= start && start + count <= t.listen[k].start + t.listen[k].size
      {
        HoldsExact(t.listen[k], start, count);
      }
    }
  }

  ghost predicate HoldsAll(r: ListenRange, start: int, count: int)
  {
    forall a :: InRange(start, count, a) ==> InRange(r.start, r.size, a)
  }

  lemma HoldsExact(r: ListenRange, start: int, count: int)
    requires count > 0
    ensures HoldsAll(r, start, count) <==> r.start <= start && start + count <= r.start + r.size
  {
    if HoldsAll(r, start, count) {
      assert InRange(start, count, start) && InRange(start, count, start + count - 1);
    }
  }

  // ---------------------------------------------------------------- module ids

  datatype Module = PollM(i: nat) | WindowM(i: nat) | HeartbeatM(i: nat) | AckM(i: nat) | CommandM(i: nat) | ForwardM(i: nat)

  /** The modules that are built: those of the sections, and a forward window for each bridge that writes. */
  predicate IsModule(s: Schema, m: Module)
  {
    match m
    case PollM(i) => i < |s.polls|
    case WindowM(i) => i < |s.windows|
    case HeartbeatM(i) => i < |s.heartbeats|
    case AckM(i) => i < |s.ackWatches|
    case CommandM(i) => i < |s.commands|
    case ForwardM(i) => i < |s.bridges| && s.bridges[i].writeCount > 0
  }

  function IdOf(s: Schema, m: Module): string
    requires IsModule(s, m)
  {
    match m
    case PollM(i) => s.polls[i].moduleId
    case WindowM(i) => s.windows[i].moduleId
    case HeartbeatM(i) => s.heartbeats[i].moduleId
    case AckM(i) => s.ackWatches[i]
    case CommandM(i) => s.commands[i].moduleId
    case ForwardM(i) => "bridge.fwd." + s.bridges[i].server + "." + Decimal(i)
  }

  function Forwards(bs: seq<Bridge>, n: nat): seq<Module>
    requires n <= |bs|
  {
    if n == 0 then [] else Forwards(bs, n - 1) + if bs[n - 1].writeCount > 0 then [ForwardM(n - 1)] else []
  }

  function PollModules(s: Schema): seq<Module>
  {
    seq(|s.polls|, i requires 0 <= i < |s.polls| => PollM(i))
  }

  function WindowModules(s: Schema): seq<Module>
  {
    seq(|s.windows|, i requires 0 <= i < |s.windows| => WindowM(i))
  }

  function HeartbeatModules(s: Schema): seq<Module>
  {
    seq(|s.heartbeats|, i requires 0 <= i < |s.heartbeats| => HeartbeatM(i))
  }

  function AckModules(s: Schema): seq<Module>
  {
    seq(|s.ackWatches|, i requires 0 <= i < |s.ackWatches| => AckM(i))
  }

  function CommandModules(s: Schema): seq<Module>
  {
    seq(|s.commands|, i requires 0 <= i < |s.commands| => CommandM(i))
  }

  function Modules(s: Schema): seq<Module>
  {
    PollModules(s) + WindowModules(s) + HeartbeatModules(s) + AckModules(s) + CommandModules(s)
    + Forwards(s.bridges, |s.bridges|)
  }

  lemma {:induction false} ForwardsExact(s: Schema, n: nat)
    requires n <= |s.bridges|
    ensures var ms := Forwards(s.bridges, n);
      && |ms| == |ForwardIds(s.bridges, n)|
      && (forall k :: 0 <= k < |ms| ==> ms[k].ForwardM? && ms[k].i < n && IsModule(s, ms[k]) && IdOf(s, ms[k]) == ForwardIds(s.bridges, n)[k])
      && (forall j, k :: 0 <= j < k < |ms| ==> ms[j] != ms[k])
      && (forall i :: 0 <= i < n && s.bridges[i].writeCount > 0 ==> ForwardM(i) in ms)
    decreases n
  {
    hide Decimal;
    if n > 0 {
      ForwardsExact(s, n - 1);
    }
  }

  function Rank(m: Module): nat
  {
    match m
    case PollM(_) => 0
    case WindowM(_) => 1
    case HeartbeatM(_) => 2
    case AckM(_) => 3
    case CommandM(_) => 4
    case ForwardM(_) => 5
  }

  /** Modules of ranks below `r`, each once, with their ids. */
  ghost predicate Listed(s: Schema, ms: seq<Module>, ids: seq<string>, r: nat)
  {
    && |ms| == |ids|
    && (forall k :: 0 <= k < |ms| ==> IsModule(s, ms[k]) && IdOf(s, ms[k]) == ids[k] && Rank(ms[k]) < r)
    && (forall j, k :: 0 <= j < k < |ms| ==> ms[j] != ms[k])
  }

  lemma Append(s: Schema, ms: seq<Module>, ids: seq<string>, ns: seq<Module>, more: seq<string>, r: nat)
    requires Listed(s, ms, ids, r) && Listed(s, ns, more, r + 1) && forall k :: 0 <= k < |ns| ==> Rank(ns[k]) == r
    ensures Listed(s, ms + ns, ids + more, r + 1)
  {
    hide IdOf, IsModule, Rank;
  }

  function PollIds(s: Schema): seq<string>
  {
    seq(|s.polls|, i requires 0 <= i < |s.polls| => s.polls[i].moduleId)
  }

  function WindowIds(s: Schema): seq<string>
  {
    seq(|s.windows|, i requires 0 <= i < |s.windows| => s.windows[i].moduleId)
  }

  function HeartbeatIds(s: Schema): seq<string>
  {
    seq(|s.heartbeats|, i requires 0 <= i < |s.heartbeats| => s.heartbeats[i].moduleId)
  }

  function CommandIds(s: Schema): seq<string>
  {
    seq(|s.commands|, i requires 0 <= i < |s.commands| => s.commands[i].moduleId)
  }

  lemma SectionsListed(s: Schema)
    ensures Listed(s, PollModules(s), PollIds(s), 1) && Listed(s, WindowModules(s), WindowIds(s), 2)
    ensures Listed(s, HeartbeatModules(s), HeartbeatIds(s), 3) && Listed(s, AckModules(s), s.ackWatches, 4)
    ensures Listed(s, CommandModules(s), CommandIds(s), 5)
    ensures ModuleIds(s) == PollIds(s) + WindowIds(s) + HeartbeatIds(s) + s.ackWatches + CommandIds(s) + ForwardIds(s.bridges, |s.bridges|)
  {
    hide Decimal, ForwardIds;
  }

  lemma ForwardsListed(s: Schema)
    ensures Listed(s, Forwards(s.bridges, |s.bridges|), ForwardIds(s.bridges, |s.bridges|), 6)
  {
    ForwardsExact(s, |s.bridges|);
    hide Decimal, Forwards, ForwardIds;
  }

  lemma RanksOf(s: Schema)
    ensures forall k :: 0 <= k < |WindowModules(s)| ==> Rank(WindowModules(s)[k]) == 1
    ensures forall k :: 0 <= k < |HeartbeatModules(s)| ==> Rank(HeartbeatModules(s)[k]) == 2
    ensures forall k :: 0 <= k < |AckModules(s)| ==> Rank(AckModules(s)[k]) == 3
    ensures forall k :: 0 <= k < |CommandModules(s)| ==> Rank(CommandModules(s)[k]) == 4
    ensures var fs := Forwards(s.bridges, |s.bridges|); forall k :: 0 <= k < |fs| ==> Rank(fs[k]) == 5
  {
    ForwardsExact(s, |s.bridges|);
    hide Decimal, Forwards, ForwardIds, IdOf;
  }

  lemma ModulesExact(s: Schema)
    ensures Listed(s, Modules(s), ModuleIds(s), 6)
  {
    SectionsListed(s);
    ForwardsListed(s);
    RanksOf(s);
    hide Listed, PollModules, WindowModules, HeartbeatModules, AckModules, CommandModules, Forwards, ForwardIds,
      PollIds, WindowIds, HeartbeatIds, CommandIds, Rank, ModuleIds;
    var m1, i1 := PollModules(s) + WindowModules(s), PollIds(s) + WindowIds(s);
    Append(s, PollModules(s), PollIds(s), WindowModules(s), WindowIds(s), 1);
    var m2, i2 := m1 + HeartbeatModules(s), i1 + HeartbeatIds(s);
    Append(s, m1, i1, HeartbeatModules(s), HeartbeatIds(s), 2);
    var m3, i3 := m2 + AckModules(s), i2 + s.ackWatches;
    Append(s, m2, i2, AckModules(s), s.ackWatches, 3);
    var m4, i4 := m3 + CommandModules(s), i3 + CommandIds(s);
    Append(s, m3, i3, CommandModules(s), CommandIds(s), 4);
    Append(s, m4, i4, Forwards(s.bridges, |s.bridges|), ForwardIds(s.bridges, |s.bridges|), 5);
  }

  lemma EveryModule(s: Schema, m: Module)
    requires IsModule(s, m)
    ensures m in Modules(s)
  {
    ForwardsExact(s, |s.bridges|);
    hide Decimal, Forwards, ForwardIds, IdOf;
    var a, b, c := |s.polls|, |s.windows|, |s.heartbeats|;
    var d := |s.ackWatches|;
    var ms := Modules(s);
    if m.PollM? {
      assert ms[m.i] == m;
    } else if m.WindowM? {
      assert ms[a + m.i] == m;
    } else if m.HeartbeatM? {
      assert ms[a + b + m.i] == m;
    } else if m.AckM? {
      assert ms[a + b + c + m.i] == m;
    } else if m.CommandM? {
      assert ms[a + b + c + d + m.i] == m;
    } else {
      assert m in Forwards(s.bridges, |s.bridges|);
    }
  }

  /** The id check passes exactly when no two modules that are built have the same id. */
  lemma ModuleIdsExact(s: Schema)
    ensures Distinct(ModuleIds(s)) <==>
      forall m, o :: IsModule(s, m) && IsModule(s, o) && m != o ==> IdOf(s, m) != IdOf(s, o)
  {
    ModulesExact(s);
    var ms, ids := Modules(s), ModuleIds(s);
    hide Modules, ModuleIds, IdOf, Rank;
    if Distinct(ids) {
      forall m, o | IsModule(s, m) && IsModule(s, o) && m != o ensures IdOf(s, m) != IdOf(s, o) {
        EveryModule(s, m);
        EveryModule(s, o);
        var j :| 0 <= j < |ms| && ms[j] == m;
        var k :| 0 <= k < |ms| && ms[k] == o;
        assert ids[j] == IdOf(s, m) && ids[k] == IdOf(s, o);
        if j < k { assert ids[j] != ids[k]; } else { assert ids[k] != ids[j]; }
      }
    }
    if forall m, o :: IsModule(s, m) && IsModule(s, o) && m != o ==> IdOf(s, m) != IdOf(s, o) {
      forall j, k | 0 <= j < k < |ids| ensures ids[j] != ids[k] {
        assert ms[j] != ms[k];
        assert IdOf(s, ms[j]) == ids[j] && IdOf(s, ms[k]) == ids[k];
      }
    }
  }
}
