/** Bridges forward what is written to a server into windows on the PLC side, at a shifted address. */
module Forwarding {
  import opened Codec
  import opened Options
  import opened ConfigSchema
  import opened ConfigTheorems
  import FieldLens
  import W = SinkWindow

  datatype ServerWrite = ServerWrite(transportId: string, table: RegisterType, start: int, values: seq<bv16>)

  predicate Wrote(e: ServerWrite, a: int)
  {
    e.start <= a < e.start + |e.values|
  }

  /** The image of a bridge's forward window after a server write. */
  function Forwarded(b: Bridge, e: ServerWrite, image: seq<bv16>): (r: seq<bv16>)
    ensures |r| == |image|
  {
    seq(|image|, k requires 0 <= k < |image| =>
      if e.table.HoldingRegisters? && b.server == e.transportId && Wrote(e, b.writeStart + k)
      then e.values[b.writeStart + k - e.start] else image[k])
  }

  // ---------------------------------------------------------------- the windows

  /** Each bridge that writes has its own window over its mapped range, or none. */
  ghost predicate Wired(bridges: seq<Bridge>, sinks: seq<W.Window?>)
    reads set i | 0 <= i < |sinks| && sinks[i] != null :: sinks[i]
  {
    && |sinks| == |bridges|
    && (forall i :: 0 <= i < |sinks| && sinks[i] != null ==>
          sinks[i].Valid() && sinks[i].cfg.startAddress == bridges[i].writeStart - bridges[i].offset
          && sinks[i].cfg.size == bridges[i].writeCount)
    && (forall i, j :: 0 <= i < j < |sinks| && sinks[i] != null ==> sinks[i] != sinks[j])
  }

  method BuildBridges(s: Schema) returns (sinks: seq<W.Window?>)
    ensures Wired(s.bridges, sinks)
    ensures forall i :: 0 <= i < |sinks| ==>
              (sinks[i] != null <==> s.bridges[i].writeCount > 0 && FindTransport(s.transports, s.bridges[i].plc).Some?)
    ensures forall i :: 0 <= i < |sinks| && sinks[i] != null ==>
              fresh(sinks[i]) && sinks[i].snapshot == seq(s.bridges[i].writeCount, k => 0)
              && !sinks[i].dirty && !sinks[i].force && sinks[i].cfg.debounceMs == 0 && sinks[i].cfg.keepAliveMs == 0
  {
    hide FindTransport;
    sinks := [];
    for n := 0 to |s.bridges|
      invariant Wired(s.bridges[..n], sinks)
      invariant forall i :: 0 <= i < n ==>
                  (sinks[i] != null <==> s.bridges[i].writeCount > 0 && FindTransport(s.transports, s.bridges[i].plc).Some?)
      invariant forall i :: 0 <= i < n && sinks[i] != null ==>
                  fresh(sinks[i]) && sinks[i].snapshot == seq(s.bridges[i].writeCount, k => 0)
                  && !sinks[i].dirty && !sinks[i].force && sinks[i].cfg.debounceMs == 0 && sinks[i].cfg.keepAliveMs == 0
    {
      var b := s.bridges[n];
      var sink: W.Window? := null;
      if b.writeCount > 0 && FindTransport(s.transports, b.plc).Some? {
        sink := new W.Window(W.Config(b.writeStart - b.offset, b.writeCount, 0, 0, []));
        assert sink.snapshot == seq(b.writeCount, k => 0);
      }
      sinks := sinks + [sink];
    }
    assert s.bridges[..|s.bridges|] == s.bridges;
  }

  method Stage(sink: W.Window, address: int, value: bv16, now: nat)
    requires sink.Valid() && W.InWindow(sink.cfg, address)
    modifies sink
    ensures sink.Valid()
    ensures sink.snapshot == old(sink.snapshot)[address - sink.cfg.startAddress := value]
    ensures FieldLens.Since(sink.View(), old(sink.View()))
  {
    hide W.Merge;
    FieldLens.MergeLaws(sink.snapshot[address - sink.cfg.startAddress], value, 0);
    var changed := sink.StageRegisterLocked(address, value, 0xFFFF, now);
  }

  /** The values staged so far, for server addresses below `a`. */
  ghost predicate Reached(b: Bridge, e: ServerWrite, image: seq<bv16>, now: seq<bv16>, a: int)
  {
    |now| == |image| && forall k :: 0 <= k < |image| ==>
      now[k] == if Wrote(e, b.writeStart + k) && b.writeStart + k < a then e.values[b.writeStart + k - e.start] else image[k]
  }

  /** Changes since the start of a loop, while every position is staged at most once. */
  ghost predicate Marked(now: W.Image, was: W.Image)
  {
    now.force == was.force && now.generation >= was.generation
    && (was.dirty ==> now.dirty) && (now.snapshot != was.snapshot ==> now.dirty && now.generation > was.generation)
  }

  method ForwardOne(b: Bridge, sink: W.Window, e: ServerWrite, clock: int -> nat)
    requires sink.Valid() && sink.cfg.startAddress == b.writeStart - b.offset && sink.cfg.size == b.writeCount
    requires e.table.HoldingRegisters? && b.server == e.transportId
    modifies sink
    ensures sink.Valid() && sink.snapshot == Forwarded(b, e, old(sink.snapshot))
    ensures Marked(sink.View(), old(sink.View()))
  {
    hide W.StageRegister;
    ghost var was := sink.View();
    var eEnd := e.start + |e.values|;
    var s := if e.start > b.writeStart then e.start else b.writeStart;
    var en := if eEnd < b.writeStart + b.writeCount then eEnd else b.writeStart + b.writeCount;
    var a := s;
    while a < en
      invariant s <= a && (a <= en || a == s)
      invariant sink.Valid() && Reached(b, e, was.snapshot, sink.snapshot, a) && Marked(sink.View(), was)
      decreases en - a
    {
      Stage(sink, a - b.offset, e.values[a - e.start], clock(a));
      a := a + 1;
    }
  }

  method ForwardBridges(bridges: seq<Bridge>, sinks: seq<W.Window?>, e: ServerWrite, clock: int -> nat)
    requires Wired(bridges, sinks)
    modifies set i | 0 <= i < |sinks| && sinks[i] != null :: sinks[i]
    ensures Wired(bridges, sinks)
    ensures forall i :: 0 <= i < |sinks| && sinks[i] != null ==>
              sinks[i].snapshot == Forwarded(bridges[i], e, old(sinks[i].snapshot))
              && Marked(sinks[i].View(), old(sinks[i].View()))
  {
    hide W.StageRegister;
    if !e.table.HoldingRegisters? {
      assert forall i :: 0 <= i < |sinks| && sinks[i] != null ==> Forwarded(bridges[i], e, sinks[i].snapshot) == sinks[i].snapshot;
      return;
    }
    for n := 0 to |bridges|
      invariant Wired(bridges, sinks)
      invariant forall i :: 0 <= i < n && sinks[i] != null ==>
                  sinks[i].snapshot == Forwarded(bridges[i], e, old(sinks[i].snapshot))
                  && Marked(sinks[i].View(), old(sinks[i].View()))
      invariant forall i :: n <= i < |sinks| && sinks[i] != null ==> sinks[i].View() == old(sinks[i].View())
    {
      if bridges[n].server == e.transportId && sinks[n] != null {
        ForwardOne(bridges[n], sinks[n], e, clock);
      } else if sinks[n] != null {
        assert Forwarded(bridges[n], e, sinks[n].snapshot) == sinks[n].snapshot;
      }
    }
  }

  method ZeroOne(b: Bridge, sink: W.Window, clock: int -> nat)
    requires sink.Valid() && sink.cfg.startAddress == b.writeStart - b.offset && sink.cfg.size == b.writeCount
    modifies sink
    ensures sink.Valid() && sink.snapshot == seq(b.writeCount, k => 0)
    ensures sink.force && sink.generation > old(sink.generation)
  {
    hide W.StageRegister;
    ghost var was := sink.View();
    var a := b.writeStart;
    while a < b.writeStart + b.writeCount
      invariant b.writeStart <= a <= b.writeStart + b.writeCount && sink.Valid()
      invariant forall k :: 0 <= k < a - b.writeStart ==> sink.snapshot[k] == 0
      invariant sink.generation >= was.generation
    {
      Stage(sink, a - b.offset, 0, clock(a));
      a := a + 1;
    }
    sink.ForceFlushLocked();
  }

  /** Turning forwarding off stages zeros over the whole range and forces a write, changed or not. */
  method ZeroBridgeForward(bridges: seq<Bridge>, sinks: seq<W.Window?>, server: string, clock: int -> nat)
    requires Wired(bridges, sinks)
    modifies set i | 0 <= i < |sinks| && sinks[i] != null :: sinks[i]
    ensures Wired(bridges, sinks)
    ensures forall i :: 0 <= i < |sinks| && sinks[i] != null && bridges[i].server == server ==>
              sinks[i].snapshot == seq(bridges[i].writeCount, k => 0)
              && forall now: nat :: W.FlushDue(sinks[i].cfg, sinks[i].View(), now)
    ensures forall i :: 0 <= i < |sinks| && sinks[i] != null && bridges[i].server != server ==>
              sinks[i].View() == old(sinks[i].View())
  {
    for n := 0 to |bridges|
      invariant Wired(bridges, sinks)
      invariant forall i :: 0 <= i < n && sinks[i] != null && bridges[i].server == server ==>
                  sinks[i].snapshot == seq(bridges[i].writeCount, k => 0) && sinks[i].force
      invariant forall i :: 0 <= i < |sinks| && sinks[i] != null && (i >= n || bridges[i].server != server) ==>
                  sinks[i].View() == old(sinks[i].View())
    {
      if bridges[n].server == server && sinks[n] != null {
        ZeroOne(bridges[n], sinks[n], clock);
      }
    }
  }

  // ---------------------------------------------------------------- the PLC's registers

  /** The bridge stages the register at an address of the PLC's holding registers. */
  predicate Reaches(b: Bridge, e: ServerWrite, plc: string, a: int)
  {
    && e.table.HoldingRegisters? && b.server == e.transportId
    && InForward(b, plc, a) && Wrote(e, a + b.offset)
  }

  /** The value of one PLC register after the bridges have staged a server write in turn. */
  function StagedValue(bridges: seq<Bridge>, e: ServerWrite, plc: string, a: int, cur: bv16): bv16
  {
    if bridges == [] then cur
    else
      var b := bridges[0];
      StagedValue(bridges[1..], e, plc, a, if Reaches(b, e, plc, a) then e.values[a + b.offset - e.start] else cur)
  }

  lemma {:induction false} StagedByOnly(bridges: seq<Bridge>, e: ServerWrite, plc: string, a: int, cur: bv16, w: Bridge)
    requires Reaches(w, e, plc, a)
    requires forall b :: b in bridges && Reaches(b, e, plc, a) ==> b == w
    ensures StagedValue(bridges, e, plc, a, cur)
            == if w in bridges then e.values[a + w.offset - e.start] else cur
    decreases |bridges|
  {
    if bridges != [] {
      hide Reaches;
      var b := bridges[0];
      assert forall x :: x in bridges[1..] ==> x in bridges;
      assert w in bridges <==> w == b || w in bridges[1..];
      assert 0 <= a + w.offset - e.start < |e.values| by { ReachesIn(w, e, plc, a); }
      if Reaches(b, e, plc, a) {
        assert b in bridges;
        StagedByOnly(bridges[1..], e, plc, a, e.values[a + w.offset - e.start], w);
      } else {
        StagedByOnly(bridges[1..], e, plc, a, cur, w);
      }
    }
  }

  lemma ReachesIn(w: Bridge, e: ServerWrite, plc: string, a: int)
    requires Reaches(w, e, plc, a)
    ensures 0 <= a + w.offset - e.start < |e.values|
  {
  }

  lemma {:induction false} StagedByNone(bridges: seq<Bridge>, e: ServerWrite, plc: string, a: int, cur: bv16)
    requires forall b :: b in bridges ==> !Reaches(b, e, plc, a)
    ensures StagedValue(bridges, e, plc, a, cur) == cur
    decreases |bridges|
  {
    if bridges != [] {
      assert bridges[0] in bridges;
      assert forall x :: x in bridges[1..] ==> x in bridges;
      StagedByNone(bridges[1..], e, plc, a, cur);
    }
  }

  predicate InForward(b: Bridge, plc: string, a: int)
  {
    b.plc == plc && InRange(b.writeStart - b.offset, b.writeCount, a)
  }

  lemma ForwardsShare(b: Bridge, c: Bridge, plc: string, a: int)
    requires InForward(b, plc, a) && InForward(c, plc, a)
    ensures Share(ForwardClaim(b), ForwardClaim(c))
  {
    assert Holds(ForwardClaim(b), plc, HoldingRegisters, a) && Holds(ForwardClaim(c), plc, HoldingRegisters, a);
  }

  lemma ForwardsApart(s: Schema, i: nat, j: nat)
    requires Accepted(s) && i < |s.bridges| && j < |s.bridges|
    ensures i != j ==> !Share(ForwardClaim(s.bridges[i]), ForwardClaim(s.bridges[j]))
  {
    SingleOwner(s);
    hide Accepted, CommandsOutside, Share;
    assert IsOwner(s, OfBridge(i)) && IsOwner(s, OfBridge(j));
    assert OfBridge(i) != OfBridge(j) ==> !Share(ClaimOf(s, OfBridge(i)), ClaimOf(s, OfBridge(j)));
  }

  /** Two bridges of an accepted configuration over the same PLC register are the same. */
  lemma OneWindow(s: Schema, plc: string, a: int, i: nat, j: nat)
    requires Accepted(s) && i < |s.bridges| && j < |s.bridges|
    requires InForward(s.bridges[i], plc, a) && InForward(s.bridges[j], plc, a)
    ensures i == j
  {
    hide Accepted, Share;
    ForwardsApart(s, i, j);
    ForwardsShare(s.bridges[i], s.bridges[j], plc, a);
  }

  /**
   Forwarding is an exact translated overlay: in an accepted configuration a PLC
   register becomes the event's value at its shifted address if some bridge reaches it,
   and keeps its value otherwise.
   */
  lemma ExactOverlay(s: Schema, e: ServerWrite, bridges: seq<Bridge>, plc: string, a: int, cur: bv16)
    requires Accepted(s) && multiset(bridges) == multiset(s.bridges)
    ensures forall i :: 0 <= i < |s.bridges| && Reaches(s.bridges[i], e, plc, a) ==>
              StagedValue(bridges, e, plc, a, cur) == e.values[a + s.bridges[i].offset - e.start]
    ensures (forall i :: 0 <= i < |s.bridges| ==> !Reaches(s.bridges[i], e, plc, a)) ==>
              StagedValue(bridges, e, plc, a, cur) == cur
  {
    hide Accepted;
    forall b ensures b in bridges <==> b in s.bridges {
      assert b in bridges <==> b in multiset(bridges);
      assert b in s.bridges <==> b in multiset(s.bridges);
    }
    forall i | 0 <= i < |s.bridges| && Reaches(s.bridges[i], e, plc, a)
      ensures StagedValue(bridges, e, plc, a, cur) == e.values[a + s.bridges[i].offset - e.start]
    {
      var w := s.bridges[i];
      assert w in s.bridges;
      forall b | b in bridges && Reaches(b, e, plc, a) ensures b == w {
        var j :| 0 <= j < |s.bridges| && s.bridges[j] == b;
        OneWindow(s, plc, a, i, j);
      }
      StagedByOnly(bridges, e, plc, a, cur, w);
    }
    if forall i :: 0 <= i < |s.bridges| ==> !Reaches(s.bridges[i], e, plc, a) {
      StagedByNone(bridges, e, plc, a, cur);
    }
  }

  /** The order in which the bridges are served does not matter. */
  lemma OrderIrrelevant(s: Schema, e: ServerWrite, bridges: seq<Bridge>, plc: string, a: int, cur: bv16)
    requires Accepted(s) && multiset(bridges) == multiset(s.bridges)
    ensures StagedValue(bridges, e, plc, a, cur) == StagedValue(s.bridges, e, plc, a, cur)
  {
    ExactOverlay(s, e, bridges, plc, a, cur);
    ExactOverlay(s, e, s.bridges, plc, a, cur);
    hide Accepted, Reaches, StagedValue;
  }

  /** Each bridge's own window shows exactly what all the bridges together do to its registers. */
  lemma WindowShowsPlc(s: Schema, e: ServerWrite, i: nat, image: seq<bv16>, k: nat)
    requires Accepted(s) && i < |s.bridges| && |image| == s.bridges[i].writeCount && k < |image|
    ensures var b := s.bridges[i];
            var a := b.writeStart - b.offset + k;
            && Forwarded(b, e, image)[k] == StagedValue(s.bridges, e, b.plc, a, image[k])
            && 0 <= a <= 65535
  {
    hide Accepted, StagedValue;
    var b := s.bridges[i];
    var a := b.writeStart - b.offset + k;
    ExactOverlay(s, e, s.bridges, b.plc, a, image[k]);
    AcceptedBridge(s, i);
    forall j | 0 <= j < |s.bridges| && Reaches(s.bridges[j], e, b.plc, a) ensures j == i {
      OneWindow(s, b.plc, a, i, j);
    }
  }

  lemma AcceptedBridge(s: Schema, i: nat)
    requires Accepted(s) && i < |s.bridges|
    ensures BridgeValues(s.bridges[i])
  {
    hide BridgeValues, Limits, Apart, Graph, Distinct, ModuleIds, TransportIds;
  }
}
