/** Exactly which requests a cancellation and a preemption discard. */
module SchedulerEffects {
  import opened SchedulerModel
  import opened SchedulerInvariant
  import opened SchedulerPreservation
  import opened SchedulerSystem
  import opened SchedulerTheorems

  /** A lane without the requests that are gone, in order. */
  function Survivors(lane: seq<nat>, gone: set<nat>): seq<nat>
  {
    if lane == [] then [] else (if lane[0] in gone then [] else [lane[0]]) + Survivors(lane[1..], gone)
  }

  /** The rows with those that are gone marked as cancelled. */
  function Discarded(table: seq<Rec>, gone: set<nat>): (r: seq<Rec>)
    ensures |r| == |table|
  {
    seq(|table|, i requires 0 <= i < |table| => if i in gone then table[i].(stage := Cancelled) else table[i])
  }

  function DoomedIn(q: Queue, upTo: nat, v: Victims): set<nat>
  {
    set id | 0 <= id < |q.table| && Doomed(q.table[id], v) && 0 <= q.table[id].tag.priority < upTo
  }

  predicate Doomed(r: Rec, v: Victims)
  {
    r.stage == Waiting && !r.isAsync
    && match v
       case Interruptables => r.tag.interruptable
       case OfModule(m) => r.tag.moduleId == m
  }

  lemma {:induction false} KeepSurvives(lane: seq<nat>, table: seq<Rec>, v: Victims, gone: set<nat>)
    requires Indices(lane, |table|) && forall x :: x in lane ==> (x in gone <==> Doomed(table[x], v))
    ensures Keep(lane, table, v) == Survivors(lane, gone)
    decreases |lane|
  {
    if lane != [] {
      assert lane[0] in lane;
      assert Hit(table[lane[0]], v) == Doomed(table[lane[0]], v);
      hide Hit, Doomed;
      assert forall x :: x in lane[1..] ==> x in lane;
      KeepSurvives(lane[1..], table, v, gone);
    }
  }

  lemma MarkRow(q: Queue, p: nat, v: Victims, id: nat)
    requires Shaped(q) && Queues(q.lanes, q.table) && p < LANES && id < |q.table|
    ensures Mark(q.table, q.lanes[p], v)[id]
         == if q.table[id].tag.priority == p && Doomed(q.table[id], v) then q.table[id].(stage := Cancelled) else q.table[id]
  {
    assert Held(q.lanes, q.table, id);
    assert LaneOk(q.lanes[p], q.table, p);
    assert Hit(q.table[id], v) == Doomed(q.table[id], v);
    hide Queues, Hit;
  }

  /** What a sweep of the lowest lanes does, row by row and lane by lane. */
  lemma {:induction false} SweepExact(q: Queue, upTo: nat, v: Victims)
    requires Shaped(q) && Queues(q.lanes, q.table) && upTo <= LANES
    ensures var t := Sweep(q, upTo, v);
      && Queues(t.lanes, t.table)
      && t.table == Discarded(q.table, DoomedIn(q, upTo, v))
      && forall k :: 0 <= k < LANES ==> t.lanes[k] == Survivors(q.lanes[k], DoomedIn(q, upTo, v))
    decreases upTo
  {
    if upTo == 0 {
      forall k | 0 <= k < LANES ensures Survivors(q.lanes[k], {}) == q.lanes[k] { SurvivorsAll(q.lanes[k], {}); }
      assert DoomedIn(q, 0, v) == {};
      assert Discarded(q.table, {}) == q.table;
    } else {
      SweepExact(q, upTo - 1, v);
      var u := Sweep(q, upTo - 1, v);
      hide Sweep;
      SweepOneMore(q, u, upTo - 1, v);
    }
  }

  lemma {:induction false} SurvivorsAll(lane: seq<nat>, gone: set<nat>)
    requires forall x :: x in lane ==> x !in gone
    ensures Survivors(lane, gone) == lane
    decreases |lane|
  {
    if lane != [] {
      assert lane[0] in lane;
      assert forall x :: x in lane[1..] ==> x in lane;
      SurvivorsAll(lane[1..], gone);
      assert lane == [lane[0]] + lane[1..];
    }
  }

  /** Lanes hold only requests of their own priority, so a set of other priorities takes nothing from them. */
  lemma {:induction false} SurvivorsSame(lane: seq<nat>, a: set<nat>, b: set<nat>)
    requires forall x :: x in lane ==> (x in a <==> x in b)
    ensures Survivors(lane, a) == Survivors(lane, b)
    decreases |lane|
  {
    if lane != [] {
      assert lane[0] in lane;
      assert forall x :: x in lane[1..] ==> x in lane;
      SurvivorsSame(lane[1..], a, b);
    }
  }

  lemma SweepOneMore(q: Queue, u: Queue, p: nat, v: Victims)
    requires Shaped(q) && Queues(q.lanes, q.table) && p < LANES
    requires Shaped(u) && Queues(u.lanes, u.table) && u.table == Discarded(q.table, DoomedIn(q, p, v))
    requires forall k :: 0 <= k < LANES ==> u.lanes[k] == Survivors(q.lanes[k], DoomedIn(q, p, v))
    ensures var t := SweepLane(u, p, v);
      && Queues(t.lanes, t.table)
      && t.table == Discarded(q.table, DoomedIn(q, p + 1, v))
      && forall k :: 0 <= k < LANES ==> t.lanes[k] == Survivors(q.lanes[k], DoomedIn(q, p + 1, v))
  {
    var t := SweepLane(u, p, v);
    SweepLaneQueues(u, p, v);
    OneMoreRows(q, u, p, v);
    forall k | 0 <= k < LANES ensures t.lanes[k] == Survivors(q.lanes[k], DoomedIn(q, p + 1, v)) {
      OneMoreLane(q, u, p, v, k);
    }
    hide Queues, Survivors, DoomedIn, Discarded, Keep, Mark;
  }

  lemma OneMoreRows(q: Queue, u: Queue, p: nat, v: Victims)
    requires Shaped(u) && Queues(u.lanes, u.table) && u.table == Discarded(q.table, DoomedIn(q, p, v)) && p < LANES
    ensures Mark(u.table, u.lanes[p], v) == Discarded(q.table, DoomedIn(q, p + 1, v))
  {
    forall id | 0 <= id < |q.table| ensures Mark(u.table, u.lanes[p], v)[id] == Discarded(q.table, DoomedIn(q, p + 1, v))[id] {
      MarkRow(u, p, v, id);
      hide Mark, Queues;
    }
  }

  lemma OneMoreLane(q: Queue, u: Queue, p: nat, v: Victims, k: nat)
    requires Shaped(q) && Queues(q.lanes, q.table) && p < LANES && k < LANES
    requires Shaped(u) && u.table == Discarded(q.table, DoomedIn(q, p, v))
    requires u.lanes[k] == Survivors(q.lanes[k], DoomedIn(q, p, v))
    ensures (if k == p then Keep(u.lanes[p], u.table, v) else u.lanes[k]) == Survivors(q.lanes[k], DoomedIn(q, p + 1, v))
  {
    var lane := q.lanes[k];
    var was, now := DoomedIn(q, p, v), DoomedIn(q, p + 1, v);
    assert LaneOk(lane, q.table, k);
    assert forall x :: x in lane ==> x < |q.table| && q.table[x].tag.priority == k && q.table[x].stage == Waiting;
    hide Queues, Keep;
    if k == p {
      SurvivorsAll(lane, was);
      KeepSurvives(lane, u.table, v, now);
    } else {
      SurvivorsSame(lane, was, now);
    }
  }

  /** Marking as cancelled adds the marked rows to the cancelled ones. */
  lemma {:induction false} CountDiscarded(table: seq<Rec>, gone: set<nat>)
    requires forall id :: id in gone ==> id < |table| && table[id].stage == Waiting
    ensures Count(Discarded(table, gone), Cancelled) == Count(table, Cancelled) + |gone|
    decreases |table|
  {
    if table == [] {
      assert gone == {};
    } else {
      var n := |table| - 1;
      var front, rest := table[..n], gone - {n};
      assert Discarded(table, gone)[..n] == Discarded(front, rest);
      CountDiscarded(front, rest);
      assert gone == if n in gone then rest + {n} else rest;
    }
  }

  // ---------------------------------------------------------------- cancelling a module

  /** The queued blocking requests of a module. */
  function OfTheModule(table: seq<Rec>, moduleId: string): set<nat>
  {
    set id | 0 <= id < |table| && table[id].stage == Waiting && !table[id].isAsync && table[id].tag.moduleId == moduleId
  }

  /**
   Cancelling a module discards exactly its queued blocking requests: their rows become
   cancelled, every lane keeps the others in order, the count grows by their number, and
   nothing else changes.
   */
  lemma CancelExact(y: Sys, moduleId: string)
    requires SysInv(y)
    ensures Shaped(y.s.q)
    ensures var gone := OfTheModule(y.s.q.table, moduleId);
      var z := Next(y, Cancel(moduleId));
      && z == y.(s := y.s.(q := y.s.q.(lanes := z.s.q.lanes, table := z.s.q.table, cancelled := z.s.q.cancelled)))
      && z.s.q.table == Discarded(y.s.q.table, gone)
      && (forall k :: 0 <= k < LANES ==> z.s.q.lanes[k] == Survivors(y.s.q.lanes[k], gone))
      && z.s.q.cancelled == y.s.q.cancelled + |gone|
  {
    hide SysInv, Next, Discarded, Survivors, OfTheModule, CancelModule;
    assert Inv(y.s, y.now) by { InvOf(y); }
    ShapedFromInv(y.s, y.now);
    hide Inv;
    CancelNext(y, moduleId);
    CancelQueue(y.s, moduleId, y.now);
  }

  lemma CancelNext(y: Sys, moduleId: string)
    requires Shaped(y.s.q)
    ensures Next(y, Cancel(moduleId)) == y.(s := y.s.(q := CancelModule(y.s.q, moduleId)))
  {
    hide Shaped, CancelModule;
  }

  lemma CancelQueue(s: Sched, moduleId: string, now: nat)
    requires Inv(s, now)
    ensures Shaped(s.q)
    ensures var gone := OfTheModule(s.q.table, moduleId);
      var t := CancelModule(s.q, moduleId);
      && t == s.q.(lanes := t.lanes, table := t.table, cancelled := t.cancelled)
      && t.table == Discarded(s.q.table, gone)
      && (forall k :: 0 <= k < LANES ==> t.lanes[k] == Survivors(s.q.lanes[k], gone))
      && t.cancelled == s.q.cancelled + |gone|
  {
    hide Inv, Queues, Survivors, Discarded, Count, DoomedIn, Sweep, Advanced;
    var q, gone := s.q, OfTheModule(s.q.table, moduleId);
    PartsOf(s, now);
    var t := CancelModule(q, moduleId);
    CancelInv(s, moduleId, now);
    PartsOf(s.(q := t), now);
    AllLanes(q, moduleId);
    SweepExact(q, LANES, OfModule(moduleId));
    SweepFrame(q, LANES, OfModule(moduleId));
    CountDiscarded(q.table, gone);
  }

  lemma PartsOf(s: Sched, now: nat)
    requires Inv(s, now)
    ensures Shaped(s.q) && Queues(s.q.lanes, s.q.table) && Accounts(s.q, s.b.completed + s.b.failed)
  {
    hide Queues, Accounts, History, ModeInv, Bounds;
  }

  lemma AllLanes(q: Queue, moduleId: string)
    requires Queues(q.lanes, q.table)
    ensures OfTheModule(q.table, moduleId) == DoomedIn(q, LANES, OfModule(moduleId))
  {
    forall id | 0 <= id < |q.table| ensures 0 <= q.table[id].tag.priority < LANES { assert Held(q.lanes, q.table, id); }
    hide Queues;
  }

  // ---------------------------------------------------------------- preemption

  /** The queued blocking requests of lower priority that may be interrupted. */
  function Interrupted(table: seq<Rec>, priority: int): set<nat>
  {
    set id | 0 <= id < |table| && table[id].stage == Waiting && !table[id].isAsync && table[id].tag.interruptable
             && 0 <= table[id].tag.priority < priority
  }

  lemma EnqueueExact(q: Queue, tag: Tag, queuedAt: nat, isAsync: bool)
    requires Shaped(q) && Queues(q.lanes, q.table) && 0 <= tag.priority < LANES
    ensures var gone := Interrupted(q.table, tag.priority);
      var t := Enqueue(q, tag, queuedAt, isAsync);
      && t.table == Discarded(q.table, gone) + [Rec(tag, queuedAt, isAsync, Waiting)]
      && (forall k :: 0 <= k < LANES ==>
            t.lanes[k] == Survivors(q.lanes[k], gone) + if k == tag.priority then [|q.table|] else [])
  {
    var u := Push(q, tag, queuedAt, isAsync);
    var gone := Interrupted(q.table, tag.priority);
    PushQueues(q, tag, queuedAt, isAsync);
    SweepExact(u, tag.priority, Interruptables);
    assert DoomedIn(u, tag.priority, Interruptables) == gone;
    assert Discarded(u.table, gone) == Discarded(q.table, gone) + [Rec(tag, queuedAt, isAsync, Waiting)];
    forall k | 0 <= k < LANES
      ensures Survivors(u.lanes[k], gone) == Survivors(q.lanes[k], gone) + if k == tag.priority then [|q.table|] else []
    {
      if k == tag.priority { SurvivorsSnoc(q.lanes[k], |q.table|, gone); }
    }
    hide Sweep, Queues, DoomedIn, Discarded, Survivors, Interrupted;
  }

  lemma {:induction false} SurvivorsSnoc(lane: seq<nat>, x: nat, gone: set<nat>)
    requires x !in gone
    ensures Survivors(lane + [x], gone) == Survivors(lane, gone) + [x]
    decreases |lane|
  {
    if lane == [] {
      assert lane + [x] == [x];
      assert [x][1..] == [];
    } else {
      assert (lane + [x])[0] == lane[0] && (lane + [x])[1..] == lane[1..] + [x];
      SurvivorsSnoc(lane[1..], x, gone);
    }
  }

  /**
   An accepted event-driven request joins the end of its lane, and exactly the queued
   blocking, interruptable requests of lower priority are discarded.
   */
  lemma SubmitAsyncExact(y: Sys, tag: Tag)
    requires SysInv(y) && Shaped(y.s.q) && Next(y, SubmitA(tag)).s.q.submitted != y.s.q.submitted
    ensures var q, t := y.s.q, Next(y, SubmitA(tag)).s.q;
      var gone := Interrupted(q.table, tag.priority);
      && t.table == Discarded(q.table, gone) + [Rec(tag, y.now, true, Waiting)]
      && 0 <= tag.priority < LANES
      && (forall k :: 0 <= k < LANES ==>
            t.lanes[k] == Survivors(q.lanes[k], gone) + if k == tag.priority then [|q.table|] else [])
  {
    hide SysInv, Next, Discarded, Survivors, Interrupted, Enqueue, Queues, Inv, Accounts;
    assert Inv(y.s, y.now) by { InvOf(y); }
    PartsOf(y.s, y.now);
    SubmitAsyncNext(y, tag);
    EnqueueExact(y.s.q, tag, y.now, true);
  }

  lemma SubmitAsyncNext(y: Sys, tag: Tag)
    requires Shaped(y.s.q) && Next(y, SubmitA(tag)).s.q.submitted != y.s.q.submitted
    ensures 0 <= tag.priority < LANES && Next(y, SubmitA(tag)).s.q == Enqueue(y.s.q, tag, y.now, true)
  {
    hide Shaped, Enqueue, Admission, UpdateCircuit;
  }

  /**
   An accepted blocking request discards exactly the queued blocking, interruptable
   requests of lower priority: an older request becomes cancelled if and only if it is
   one of them, and any other stays as it is or is selected.
   */
  lemma SubmitSyncExact(y: Sys, tag: Tag, queuedAt: nat, times: seq<nat>, id: nat)
    requires SysInv(y) && Shaped(y.s.q) && Enabled(y, SubmitS(tag, queuedAt, times)) && id < |y.s.q.table|
    requires Next(y, SubmitS(tag, queuedAt, times)).s.q.submitted != y.s.q.submitted
    ensures var was := y.s.q.table[id];
      var t := Next(y, SubmitS(tag, queuedAt, times)).s.q.table;
      && |t| == |y.s.q.table| + 1 && t[|y.s.q.table|].(stage := Waiting) == Rec(tag, queuedAt, false, Waiting)
      && (if was.stage == Waiting && !was.isAsync && was.tag.interruptable && was.tag.priority < tag.priority
          then t[id] == was.(stage := Cancelled)
          else t[id] == was || (was.stage == Waiting && t[id] == was.(stage := InFlight)))
  {
    hide SysInv, Next, Survivors, Enqueue, Queues, Inv, Accounts, SelectLoop;
    assert Inv(y.s, y.now) by { InvOf(y); }
    PartsOf(y.s, y.now);
    SubmitSyncNext(y, tag, queuedAt, times);
    EnqueueExact(y.s.q, tag, queuedAt, false);
    EnqueueQueues(y.s.q, tag, queuedAt, false);
    var u := Enqueue(y.s.q, tag, queuedAt, false);
    SelectLoopFrame(y.s.cfg, u, times[1..]);
    assert 0 <= y.s.q.table[id].tag.priority by { RowPriority(y.s.q, id); }
  }

  lemma RowPriority(q: Queue, id: nat)
    requires Queues(q.lanes, q.table) && id < |q.table|
    ensures 0 <= q.table[id].tag.priority < LANES
  {
    assert Held(q.lanes, q.table, id);
  }

  lemma SubmitSyncNext(y: Sys, tag: Tag, queuedAt: nat, times: seq<nat>)
    requires Shaped(y.s.q) && Enabled(y, SubmitS(tag, queuedAt, times))
    requires Next(y, SubmitS(tag, queuedAt, times)).s.q.submitted != y.s.q.submitted
    ensures 0 <= tag.priority < LANES && times != []
    ensures Next(y, SubmitS(tag, queuedAt, times)).s.q == SelectLoop(y.s.cfg, Enqueue(y.s.q, tag, queuedAt, false), times[1..]).0
  {
    hide Shaped, Enqueue, Admission, UpdateCircuit, SelectLoop, Sorted;
  }

  lemma EnqueueQueues(q: Queue, tag: Tag, queuedAt: nat, isAsync: bool)
    requires Shaped(q) && Queues(q.lanes, q.table) && 0 <= tag.priority < LANES
    ensures var t := Enqueue(q, tag, queuedAt, isAsync); Queues(t.lanes, t.table)
  {
    PushQueues(q, tag, queuedAt, isAsync);
    SweepExact(Push(q, tag, queuedAt, isAsync), tag.priority, Interruptables);
    hide Queues, Sweep, DoomedIn, Discarded, Survivors;
  }
}
