/** Every locked section of the scheduler keeps the invariant. */
module SchedulerPreservation {
  import opened SchedulerModel
  import opened SchedulerInvariant

  // ---------------------------------------------------------------- selection

  lemma WithoutLane(lane: seq<nat>, i: nat)
    requires Ascending(lane) && i < |lane|
    ensures Ascending(Without(lane, i))
    ensures forall x :: x in Without(lane, i) <==> x in lane && x != lane[i]
  {
    var w := Without(lane, i);
    forall x | x in lane && x != lane[i] ensures x in w {
      var k :| 0 <= k < |lane| && lane[k] == x;
      assert x == w[if k < i then k else k - 1];
    }
  }

  /** What one selection does, in terms of the request it picks. */
  lemma SelectOneFrame(c: Config, q: Queue, p: nat, now: nat)
    requires Shaped(q) && Queues(q.lanes, q.table) && p < LANES && q.lanes[p] != []
    ensures var t, id := SelectOne(c, q, p, now), PickId(c, q, p);
      && t == q.(lanes := t.lanes, last := t.last, table := t.table, inflight := q.inflight + 1, trace := t.trace)
      && Depth(t.lanes) == Depth(q.lanes) - 1
      && q.table[id].stage == Waiting && q.table[id].tag.priority == p
      && t.table == q.table[id := q.table[id].(stage := InFlight)]
      && t.trace == q.trace + [Picked(id, now)]
  {
    assert LaneOk(q.lanes[p], q.table, p);
  }

  lemma SelectOneQueues(c: Config, q: Queue, p: nat, now: nat)
    requires Shaped(q) && Queues(q.lanes, q.table) && p < LANES && q.lanes[p] != []
    ensures var t := SelectOne(c, q, p, now); Queues(t.lanes, t.table)
  {
    var i := PickIndex(c, q.lanes[p], q.table, q.last[p]);
    var t := SelectOne(c, q, p, now);
    assert LaneOk(q.lanes[p], q.table, p);
    WithoutLane(q.lanes[p], i);
    forall k | 0 <= k < LANES ensures LaneOk(t.lanes[k], t.table, k) {
      assert LaneOk(q.lanes[k], q.table, k);
      forall j | 0 <= j < |t.lanes[k]|
        ensures t.table[t.lanes[k][j]].stage == Waiting && t.table[t.lanes[k][j]].tag.priority == k
      {
        assert t.lanes[k][j] in t.lanes[k];
      }
    }
    forall x | 0 <= x < |t.table| ensures Held(t.lanes, t.table, x) {
      assert Held(q.lanes, q.table, x);
    }
  }

  lemma CountStage(table: seq<Rec>, id: nat, g: Stage)
    requires id < |table|
    ensures forall h ::
      Count(table[id := table[id].(stage := g)], h)
      == Count(table, h) - (if table[id].stage == h then 1 else 0) + (if g == h then 1 else 0)
  {
    forall h
      ensures Count(table[id := table[id].(stage := g)], h)
        == Count(table, h) - (if table[id].stage == h then 1 else 0) + (if g == h then 1 else 0)
    {
      CountUpdate(table, id, table[id].(stage := g), h);
    }
  }

  lemma WithinExtends(trace: seq<Event>, e: Event, id: nat, lo: nat, hi: nat)
    requires CompletedWithin(trace, id, lo, hi)
    ensures CompletedWithin(trace + [e], id, lo, hi)
    ensures hi == |trace| ==> CompletedWithin(trace + [e], id, lo, hi + 1)
  {
    var k :| lo < k < hi && k < |trace| && trace[k].Completion? && trace[k].id == id;
    assert (trace + [e])[k] == trace[k];
  }

  /** Appending the selection of a waiting request keeps the order laws of the history. */
  lemma SelectionHistory(trace: seq<Event>, table: seq<Rec>, id: nat, now: nat)
    requires Staged(trace, table) && Once(trace) && Answered(trace, table)
    requires id < |table| && table[id].stage == Waiting
    ensures var u, tab := trace + [Picked(id, now)], table[id := table[id].(stage := InFlight)];
      && Staged(u, tab) && Once(u) && Answered(u, tab)
      && (Serialised(trace) && Count(table, InFlight) == 0 ==> Serialised(u))
  {
    var e := Picked(id, now);
    SelectionOnce(trace, table, id, now);
    SelectionAnswered(trace, table, id, now);
    hide Staged, Once, Answered, Serialised, Count;
    if Serialised(trace) && Count(table, InFlight) == 0 {
      SelectionSerialised(trace, table, e);
    }
  }

  lemma SelectionOnce(trace: seq<Event>, table: seq<Rec>, id: nat, now: nat)
    requires Staged(trace, table) && Once(trace) && id < |table| && table[id].stage == Waiting
    ensures var u, tab := trace + [Picked(id, now)], table[id := table[id].(stage := InFlight)]; Staged(u, tab) && Once(u)
  {
  }

  lemma SelectionAnswered(trace: seq<Event>, table: seq<Rec>, id: nat, now: nat)
    requires Answered(trace, table) && id < |table| && table[id].stage == Waiting
    ensures Answered(trace + [Picked(id, now)], table[id := table[id].(stage := InFlight)])
  {
    hide CompletedWithin;
    var e := Picked(id, now);
    var u, tab := trace + [e], table[id := table[id].(stage := InFlight)];
    forall i | 0 <= i < |u| && u[i].Picked?
      ensures u[i].id < |tab| && (tab[u[i].id].stage == InFlight || CompletedWithin(u, u[i].id, i, |u|))
    {
      if i < |trace| && table[trace[i].id].stage != InFlight {
        WithinExtends(trace, e, trace[i].id, i, |trace|);
      }
    }
  }

  lemma SelectionSerialised(trace: seq<Event>, table: seq<Rec>, e: Event)
    requires Answered(trace, table) && Serialised(trace) && Count(table, InFlight) == 0
    ensures Serialised(trace + [e])
  {
    hide CompletedWithin, Count;
    var u := trace + [e];
    forall i, j | 0 <= i < j < |u| && u[i].Picked? && u[j].Picked?
      ensures CompletedWithin(u, u[i].id, i, j)
    {
      if j == |trace| && table[trace[i].id].stage == InFlight {
        CountZero(table, InFlight, trace[i].id);
      }
      WithinExtends(trace, e, trace[i].id, i, j);
    }
  }

  lemma SelectOneInv(c: Config, q: Queue, p: nat, now: nat, ended: nat, gapNs: int)
    requires Normal(c) && QueueInv(c, q, ended, gapNs) && p < LANES && q.lanes[p] != []
    requires q.inflight < c.maxInflight
    requires gapNs > 0 && q.lastCompleteAt > 0 ==> now >= q.lastCompleteAt + gapNs
    ensures QueueInv(c, SelectOne(c, q, p, now), ended, gapNs)
  {
    var id := PickId(c, q, p);
    SelectOneFrame(c, q, p, now);
    SelectOneQueues(c, q, p, now);
    CountStage(q.table, id, InFlight);
    SelectionHistory(q.trace, q.table, id, now);
    hide Queues, Count, Staged, Once, Answered, Serialised, SelectOne;
  }

  ghost predicate Sorted(times: seq<nat>, from: nat)
  {
    && (forall i :: 0 <= i < |times| ==> from <= times[i])
    && (forall i, j :: 0 <= i < j < |times| ==> times[i] <= times[j])
  }

  ghost function LastTime(times: seq<nat>, from: nat): nat
  {
    if times == [] then from else times[|times| - 1]
  }

  lemma TailSorted(times: seq<nat>, from: nat)
    requires times != [] && Sorted(times, from)
    ensures from <= times[0] <= LastTime(times, from)
    ensures Sorted(times[1..], times[0]) && LastTime(times[1..], times[0]) == LastTime(times, from)
  {
  }

  /** The selection loop keeps the invariant and stops only when full, empty or out of readings. */
  lemma {:induction false} SelectLoopInv(c: Config, q: Queue, times: seq<nat>, from: nat, ended: nat, gapNs: int)
    requires Normal(c) && QueueInv(c, q, ended, gapNs) && Sorted(times, from)
    requires gapNs > 0 && q.lastCompleteAt > 0 ==> from >= q.lastCompleteAt + gapNs
    ensures var t := SelectLoop(c, q, times).0;
      && QueueInv(c, t, ended, gapNs)
      && (|times| >= c.maxInflight - q.inflight ==> t.inflight >= c.maxInflight || Depth(t.lanes) == 0)
    decreases |times|
  {
    hide Queues, Accounts, History, SelectOne;
    if times == [] || q.inflight >= c.maxInflight || PickLane(c, q, times[0]) < 0 {
    } else {
      var p := PickLane(c, q, times[0]);
      SelectOneInv(c, q, p, times[0], ended, gapNs);
      SelectOneFrame(c, q, p, times[0]);
      SelectLoopInv(c, SelectOne(c, q, p, times[0]), times[1..], times[0], ended, gapNs);
    }
  }

  /** Only waiting requests change, and only to stage `to`; event-driven ones are never cancelled. */
  ghost predicate Advanced(before: seq<Rec>, after: seq<Rec>, to: Stage)
  {
    && |before| <= |after|
    && (forall id :: 0 <= id < |before| ==>
          || after[id] == before[id]
          || (&& before[id].stage == Waiting
              && after[id] == before[id].(stage := to)
              && (to == Cancelled ==> !before[id].isAsync)))
  }

  /** What the selection loop leaves alone, and what it hands out. */
  lemma {:induction false} SelectLoopFrame(c: Config, q: Queue, times: seq<nat>)
    requires Shaped(q) && Queues(q.lanes, q.table)
    ensures var (t, run) := SelectLoop(c, q, times);
      && t == q.(lanes := t.lanes, last := t.last, table := t.table, inflight := q.inflight + |run|, trace := t.trace)
      && Depth(t.lanes) == Depth(q.lanes) - |run|
      && |t.table| == |q.table| && Advanced(q.table, t.table, InFlight)
      && (forall k :: 0 <= k < |run| ==> run[k] < |t.table| && t.table[run[k]].stage == InFlight)
    decreases |times|
  {
    hide Queues, SelectOne;
    if times == [] || q.inflight >= c.maxInflight || PickLane(c, q, times[0]) < 0 {
    } else {
      var p := PickLane(c, q, times[0]);
      SelectOneQueues(c, q, p, times[0]);
      SelectOneFrame(c, q, p, times[0]);
      SelectLoopFrame(c, SelectOne(c, q, p, times[0]), times[1..]);
    }
  }

  lemma AdvancedModes(mode: Mode, q: Queue, t: Queue, to: Stage, before: nat, now: nat)
    requires ModeInv(mode, q, before) && before <= now && Advanced(q.table, t.table, to) && |t.table| == |q.table|
    ensures ModeInv(mode, t, now)
  {
    forall id | 0 <= id < |q.table|
      ensures t.table[id].queuedAt == q.table[id].queuedAt && t.table[id].isAsync == q.table[id].isAsync
    {
    }
  }

  // ---------------------------------------------------------------- cancelling

  lemma SweepLaneQueues(q: Queue, p: nat, v: Victims)
    requires Shaped(q) && Queues(q.lanes, q.table) && p < LANES
    ensures var t := SweepLane(q, p, v); Queues(t.lanes, t.table)
  {
    var t := SweepLane(q, p, v);
    assert LaneOk(q.lanes[p], q.table, p);
    KeepAscending(q.lanes[p], q.table, v);
    forall x: nat ensures x in Keep(q.lanes[p], q.table, v) <==> x in q.lanes[p] && x < |q.table| && !Hit(q.table[x], v) {
      KeepMembers(q.lanes[p], q.table, v, x);
    }
    forall k | 0 <= k < LANES ensures LaneOk(t.lanes[k], t.table, k) {
      assert LaneOk(q.lanes[k], q.table, k);
      forall j | 0 <= j < |t.lanes[k]|
        ensures t.table[t.lanes[k][j]].stage == Waiting && t.table[t.lanes[k][j]].tag.priority == k
      {
        assert t.lanes[k][j] in t.lanes[k];
        assert t.lanes[k][j] in q.lanes[k];
      }
    }
    forall x | 0 <= x < |t.table| ensures Held(t.lanes, t.table, x) {
      assert Held(q.lanes, q.table, x);
    }
  }

  lemma SweepLaneAccounts(q: Queue, p: nat, v: Victims, ended: nat)
    requires Shaped(q) && Queues(q.lanes, q.table) && Accounts(q, ended) && p < LANES
    ensures Accounts(SweepLane(q, p, v), ended)
    ensures Depth(SweepLane(q, p, v).lanes) <= Depth(q.lanes)
  {
    assert LaneOk(q.lanes[p], q.table, p);
    CountMark(q.table, q.lanes[p], v, Waiting);
    CountMark(q.table, q.lanes[p], v, InFlight);
    CountMark(q.table, q.lanes[p], v, Finished);
    CountMark(q.table, q.lanes[p], v, Cancelled);
    hide Queues, Count, Keep, Mark;
  }

  lemma SweepLaneHistory(q: Queue, p: nat, v: Victims, gapNs: int, slots: int)
    requires Shaped(q) && History(q, gapNs, slots) && p < LANES
    ensures History(SweepLane(q, p, v), gapNs, slots)
  {
    var t := SweepLane(q, p, v);
    hide GapKept, Serialised, Once, LastIsLatest;
    forall i | 0 <= i < |q.table| && q.table[i].stage != Waiting ensures t.table[i] == q.table[i] { }
  }

  lemma SweepLaneInv(c: Config, q: Queue, p: nat, v: Victims, ended: nat, gapNs: int)
    requires QueueInv(c, q, ended, gapNs) && p < LANES
    ensures QueueInv(c, SweepLane(q, p, v), ended, gapNs)
  {
    hide Queues, Accounts, History;
    SweepLaneQueues(q, p, v);
    SweepLaneHistory(q, p, v, gapNs, c.maxInflight);
    SweepLaneAccounts(q, p, v, ended);
  }

  lemma {:induction false} SweepInv(c: Config, q: Queue, upTo: nat, v: Victims, ended: nat, gapNs: int)
    requires QueueInv(c, q, ended, gapNs) && upTo <= LANES
    ensures QueueInv(c, Sweep(q, upTo, v), ended, gapNs)
    decreases upTo
  {
    hide Queues, Accounts, History, SweepLane;
    if upTo > 0 {
      SweepInv(c, q, upTo - 1, v, ended, gapNs);
      SweepLaneInv(c, Sweep(q, upTo - 1, v), upTo - 1, v, ended, gapNs);
    }
  }

  /** Sweeping cancels waiting blocking requests and nothing else. */
  lemma {:induction false} SweepFrame(q: Queue, upTo: nat, v: Victims)
    requires Shaped(q) && upTo <= LANES
    ensures var t := Sweep(q, upTo, v);
      && t == q.(lanes := t.lanes, table := t.table, cancelled := t.cancelled)
      && Depth(t.lanes) <= Depth(q.lanes)
      && (forall p :: 0 <= p < LANES ==> |t.lanes[p]| <= |q.lanes[p]|)
      && |t.table| == |q.table| && Advanced(q.table, t.table, Cancelled)
    decreases upTo
  {
    if upTo > 0 {
      SweepFrame(q, upTo - 1, v);
    }
  }

  // ---------------------------------------------------------------- admission

  lemma PushQueues(q: Queue, tag: Tag, queuedAt: nat, isAsync: bool)
    requires Shaped(q) && Queues(q.lanes, q.table) && 0 <= tag.priority < LANES
    ensures var t := Push(q, tag, queuedAt, isAsync); Queues(t.lanes, t.table)
  {
    var t := Push(q, tag, queuedAt, isAsync);
    forall k | 0 <= k < LANES ensures LaneOk(t.lanes[k], t.table, k) {
      assert LaneOk(q.lanes[k], q.table, k);
    }
    forall x | 0 <= x < |t.table| ensures Held(t.lanes, t.table, x) {
      if x < |q.table| {
        assert Held(q.lanes, q.table, x);
      } else {
        assert t.lanes[tag.priority][|q.lanes[tag.priority]|] == x;
      }
    }
  }

  lemma PushHistory(q: Queue, r: Rec, gapNs: int, slots: int)
    requires History(q, gapNs, slots)
    ensures Staged(q.trace, q.table + [r]) && Answered(q.trace, q.table + [r])
  {
    hide GapKept, Serialised, Once, LastIsLatest;
    assert forall id :: 0 <= id < |q.table| ==> (q.table + [r])[id] == q.table[id];
  }

  lemma PushInv(c: Config, q: Queue, tag: Tag, queuedAt: nat, isAsync: bool, ended: nat, gapNs: int)
    requires QueueInv(c, q, ended, gapNs) && 0 <= tag.priority < LANES
    requires Depth(q.lanes) + q.inflight < c.maxQueueDepth
    ensures QueueInv(c, Push(q, tag, queuedAt, isAsync), ended, gapNs)
    ensures Depth(Push(q, tag, queuedAt, isAsync).lanes) == Depth(q.lanes) + 1
  {
    var r := Rec(tag, queuedAt, isAsync, Waiting);
    PushQueues(q, tag, queuedAt, isAsync);
    PushHistory(q, r, gapNs, c.maxInflight);
    CountAppend(q.table, r, Waiting);
    CountAppend(q.table, r, InFlight);
    CountAppend(q.table, r, Finished);
    CountAppend(q.table, r, Cancelled);
    hide Queues, Count, Staged, Answered, GapKept, Serialised, Once, LastIsLatest;
  }

  /** Admission: push and preempt. */
  lemma EnqueueInv(c: Config, q: Queue, tag: Tag, queuedAt: nat, isAsync: bool, ended: nat, gapNs: int)
    requires QueueInv(c, q, ended, gapNs) && 0 <= tag.priority < LANES
    requires Depth(q.lanes) + q.inflight < c.maxQueueDepth
    ensures var t := Enqueue(q, tag, queuedAt, isAsync);
      && QueueInv(c, t, ended, gapNs)
      && t == q.(lanes := t.lanes, table := t.table, submitted := q.submitted + 1, cancelled := t.cancelled)
      && Depth(t.lanes) <= Depth(q.lanes) + 1
      && |t.table| == |q.table| + 1 && Advanced(q.table, t.table, Cancelled)
  {
    PushInv(c, q, tag, queuedAt, isAsync, ended, gapNs);
    var u := Push(q, tag, queuedAt, isAsync);
    SweepInv(c, u, tag.priority, Interruptables, ended, gapNs);
    SweepFrame(u, tag.priority, Interruptables);
    hide QueueInv, Sweep;
    forall id | 0 <= id < |q.table| ensures u.table[id] == q.table[id] { }
  }

  lemma EnqueueModes(mode: Mode, q: Queue, tag: Tag, queuedAt: nat, isAsync: bool, now: nat)
    requires Shaped(q) && 0 <= tag.priority < LANES
    requires ModeInv(mode, q, now) || (q.table == [] && mode != Unset)
    requires mode != Unset && (isAsync <==> mode == AsyncMode)
    requires isAsync ==> queuedAt == now
    ensures ModeInv(mode, Enqueue(q, tag, queuedAt, isAsync), now)
  {
    var u := Push(q, tag, queuedAt, isAsync);
    assert ModeInv(mode, u, now);
    SweepFrame(u, tag.priority, Interruptables);
    AdvancedModes(mode, u, Sweep(u, tag.priority, Interruptables), Cancelled, now, now);
  }

  /** The first submission may fix the mode either way: the scheduler is still empty. */
  lemma FixMode(s: Sched, m: Mode, before: nat, now: nat)
    requires Inv(s, before) && before <= now && m != Unset && (s.mode == m || s.mode == Unset)
    ensures ModeInv(m, s.q, now)
    ensures QueueInv(s.cfg, s.q, s.b.completed + s.b.failed, EnforcedGap(s.cfg, s.hook, m))
  {
    AdvancedModes(s.mode, s.q, s.q, InFlight, before, now);
    hide Queues, Accounts, Bounds;
  }

  lemma SubmitAsyncInv(s: Sched, tag: Tag, before: nat, now: nat)
    requires Inv(s, before) && before <= now
    ensures Inv(SubmitAsync(s, tag, now).0, now)
  {
    hide Queues, Accounts, Bounds, History, ModeInv, Enqueue;
    AdvancedModes(s.mode, s.q, s.q, InFlight, before, now) by { assert ModeInv(s.mode, s.q, before); }
    var (t, v) := SubmitAsync(s, tag, now);
    if v !in {BadPriority, Stopped, WrongMode} {
      FixMode(s, AsyncMode, before, now);
      if v == Accepted {
        EnqueueInv(s.cfg, s.q, tag, now, true, s.b.completed + s.b.failed, EnforcedGap(s.cfg, s.hook, AsyncMode));
        EnqueueModes(AsyncMode, s.q, tag, now, true, now);
      }
    }
  }

  lemma SubmitSyncInv(s: Sched, tag: Tag, queuedAt: nat, times: seq<nat>, before: nat)
    requires Inv(s, before) && times != [] && Sorted(times, before)
    ensures Inv(SubmitSync(s, tag, queuedAt, times).0, LastTime(times, before))
  {
    hide Queues, Accounts, Bounds, History, ModeInv, Enqueue, SelectLoop, Sorted;
    var now, end, ended := times[0], LastTime(times, before), s.b.completed + s.b.failed;
    assert before <= now <= end && Sorted(times[1..], now) by { TailSorted(times, before); }
    AdvancedModes(s.mode, s.q, s.q, InFlight, before, end);
    var (t, v) := SubmitSync(s, tag, queuedAt, times);
    if v !in {BadPriority, WrongMode} {
      FixMode(s, SyncMode, before, now);
      FixMode(s, SyncMode, before, end);
      if v == Accepted {
        var u := Enqueue(s.q, tag, queuedAt, false);
        EnqueueInv(s.cfg, s.q, tag, queuedAt, false, ended, 0);
        EnqueueModes(SyncMode, s.q, tag, queuedAt, false, now);
        SelectLoopInv(s.cfg, u, times[1..], now, ended, 0);
        SelectLoopFrame(s.cfg, u, times[1..]);
        AdvancedModes(SyncMode, u, SelectLoop(s.cfg, u, times[1..]).0, InFlight, now, end);
      }
    }
  }

  // ---------------------------------------------------------------- completion

  lemma RetireQueues(q: Queue, id: nat, now: nat)
    requires Shaped(q) && Queues(q.lanes, q.table) && id < |q.table| && q.table[id].stage == InFlight
    ensures var t := Retire(q, id, now); Queues(t.lanes, t.table)
  {
    var t := Retire(q, id, now);
    forall k | 0 <= k < LANES ensures LaneOk(t.lanes[k], t.table, k) {
      assert LaneOk(q.lanes[k], q.table, k);
    }
    forall x | 0 <= x < |t.table| ensures Held(t.lanes, t.table, x) {
      assert Held(q.lanes, q.table, x);
    }
  }

  /** Appending the completion of an in-flight request keeps the order laws of the history. */
  lemma CompletionHistory(trace: seq<Event>, table: seq<Rec>, id: nat, now: nat)
    requires Staged(trace, table) && Once(trace) && Answered(trace, table)
    requires id < |table| && table[id].stage == InFlight
    ensures var u, tab := trace + [Completion(id, now)], table[id := table[id].(stage := Finished)];
      && Staged(u, tab) && Once(u) && Answered(u, tab)
      && (Serialised(trace) ==> Serialised(u))
  {
    var e := Completion(id, now);
    var u, tab := trace + [e], table[id := table[id].(stage := Finished)];
    forall i | 0 <= i < |u| && u[i].Picked?
      ensures tab[u[i].id].stage == InFlight || CompletedWithin(u, u[i].id, i, |u|)
    {
      if trace[i].id == id {
        assert u[|trace|] == e;
      } else if table[trace[i].id].stage != InFlight {
        WithinExtends(trace, e, trace[i].id, i, |trace|);
      }
    }
    if Serialised(trace) {
      forall i, j | 0 <= i < j < |u| && u[i].Picked? && u[j].Picked?
        ensures CompletedWithin(u, u[i].id, i, j)
      {
        WithinExtends(trace, e, trace[i].id, i, j);
      }
    }
  }

  lemma RetireInv(c: Config, q: Queue, id: nat, now: nat, ended: nat, gapNs: int)
    requires QueueInv(c, q, ended, gapNs) && id < |q.table| && q.table[id].stage == InFlight
    requires gapNs > 0 ==> q.lastCompleteAt <= now && now > 0
    ensures QueueInv(c, Retire(q, id, now), ended + 1, gapNs)
    ensures Retire(q, id, now).inflight == q.inflight - 1
  {
    CountZero(q.table, InFlight, id);
    CountStage(q.table, id, Finished);
    RetireQueues(q, id, now);
    CompletionHistory(q.trace, q.table, id, now);
    hide Queues, Count, Staged, Once, Answered, Serialised;
  }

  lemma RetireModes(mode: Mode, q: Queue, id: nat, doneAt: nat, before: nat, now: nat)
    requires Shaped(q) && ModeInv(mode, q, before) && before <= now && id < |q.table|
    ensures ModeInv(mode, Retire(q, id, doneAt), now)
  {
  }

  lemma CompleteAsyncInv(s: Sched, id: nat, ok: bool, before: nat, now: nat)
    requires Inv(s, before) && before <= now && id < |s.q.table| && s.q.table[id].stage in {InFlight, Finished}
    ensures Inv(CompleteAsync(s, id, ok, now).0, now)
  {
    AdvancedModes(s.mode, s.q, s.q, InFlight, before, now);
    if s.q.table[id].stage == InFlight {
      RetireInv(s.cfg, s.q, id, now, s.b.completed + s.b.failed, EnforcedGap(s.cfg, s.hook, s.mode));
      RetireModes(s.mode, s.q, id, now, before, now);
    }
    hide QueueInv, ModeInv;
  }

  lemma ReleaseSyncInv(s: Sched, id: nat, ok: bool, doneAt: nat, times: seq<nat>, before: nat)
    requires Inv(s, before) && times != [] && Sorted(times, before)
    requires id < |s.q.table| && s.q.table[id].stage == InFlight && s.mode == SyncMode
    requires doneAt <= times[0]
    ensures Inv(ReleaseSync(s, id, ok, doneAt, times), LastTime(times, before))
  {
    hide ModeInv, SelectLoop, Queues, Accounts, History, Bounds, Sorted;
    var now, ended := times[0], s.b.completed + s.b.failed;
    var u := Retire(s.q, id, doneAt);
    TailSorted(times, before);
    RetireInv(s.cfg, s.q, id, doneAt, ended, 0);
    RetireModes(s.mode, s.q, id, doneAt, before, now);
    SelectLoopInv(s.cfg, u, times[1..], now, ended + 1, 0);
    SelectLoopFrame(s.cfg, u, times[1..]);
    AdvancedModes(s.mode, u, SelectLoop(s.cfg, u, times[1..]).0, InFlight, now, LastTime(times, before));
  }

  // ---------------------------------------------------------------- event-driven selection

  lemma SelectAsyncInv(s: Sched, times: seq<nat>, before: nat)
    requires Inv(s, before) && times != [] && Sorted(times, before) && s.mode != SyncMode
    ensures Inv(SelectAsync(s, times).0, LastTime(times, before))
  {
    hide ModeInv, SelectLoop, Queues, Accounts, History, Bounds, Sorted;
    var now, end, ended := times[0], LastTime(times, before), s.b.completed + s.b.failed;
    TailSorted(times, before);
    AdvancedModes(s.mode, s.q, s.q, InFlight, before, end);
    if !s.pump.stopped && !GapHolds(s.cfg, s.hook, s.q, now) {
      SelectLoopInv(s.cfg, s.q, times[1..], now, ended, EnforcedGap(s.cfg, s.hook, s.mode));
      SelectLoopFrame(s.cfg, s.q, times[1..]);
      AdvancedModes(s.mode, s.q, SelectLoop(s.cfg, s.q, times[1..]).0, InFlight, before, end);
    }
  }

  /** The delay handed to the hook covers what is left of the gap. */
  lemma DelayCoversGap(s: Sched, times: seq<nat>)
    requires Shaped(s.q) && times != []
    ensures var (t, r) := SelectAsync(s, times);
      r.delayMs > 0 ==> !GapHolds(s.cfg, s.hook, s.q, times[0] + r.delayMs * NS_PER_MS)
  {
  }
}
