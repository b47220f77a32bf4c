/**
 Fairness of lane selection. `Credit` bounds how many more selections from its
 lane a waiting request can see go to others: one for each request ahead of it
 in first-in-first-out order, and two for each with round-robin, less one when
 the next pick is already sure to fall on it or on a request ahead of it.
 */
module SchedulerFairness {
  import opened SchedulerModel
  import opened SchedulerInvariant
  import opened SchedulerPreservation
  import opened SchedulerSystem
  import opened SchedulerTheorems

  ghost function Ahead(lane: seq<nat>, id: nat): set<nat>
  {
    set x | x in lane && x < id
  }

  /** Round-robin will not reach past `id` on the next pick. */
  ghost predicate Due(lane: seq<nat>, table: seq<Rec>, last: string, id: nat)
    requires Indices(lane, |table|)
  {
    last == "" || exists x :: x in lane && x <= id && table[x].tag.moduleId != last
  }

  ghost function Credit(fifo: bool, lane: seq<nat>, table: seq<Rec>, last: string, id: nat): nat
    requires Indices(lane, |table|)
  {
    if fifo then |Ahead(lane, id)| + 1
    else 2 * (|Ahead(lane, id)| + 1) - (if Due(lane, table, last, id) then 1 else 0)
  }

  /** Requests of lane `p` selected so far. */
  ghost function Served(table: seq<Rec>, p: int): nat
  {
    if table == [] then 0
    else
      var r := table[|table| - 1];
      Served(table[..|table| - 1], p) + (if r.tag.priority == p && r.stage in {InFlight, Finished} then 1 else 0)
  }

  /** Selections from any lane so far. */
  function AllServed(s: Sched): nat
  {
    s.q.inflight + s.b.completed + s.b.failed
  }

  // ---------------------------------------------------------------- positions

  /** In an ascending lane the requests ahead of position `k` are exactly `k` many. */
  lemma {:induction false} AheadIsPosition(lane: seq<nat>, k: nat)
    requires Ascending(lane) && k < |lane|
    ensures |Ahead(lane, lane[k])| == k
  {
    if k == 0 {
      assert Ahead(lane, lane[0]) == {};
    } else {
      AheadIsPosition(lane, k - 1);
      AheadNext(lane, k);
      hide Ahead;
    }
  }

  lemma AheadNext(lane: seq<nat>, k: nat)
    requires Ascending(lane) && 0 < k < |lane|
    ensures Ahead(lane, lane[k]) == Ahead(lane, lane[k - 1]) + {lane[k - 1]} && lane[k - 1] !in Ahead(lane, lane[k - 1])
  {
    var a, b := Ahead(lane, lane[k]), Ahead(lane, lane[k - 1]) + {lane[k - 1]};
    forall x ensures x in a <==> x in b {
      if x in a {
        var i :| 0 <= i < |lane| && lane[i] == x;
        assert i <= k - 1;
      }
    }
  }

  lemma SubsetSize(a: set<nat>, b: set<nat>)
    requires a <= b
    ensures |a| <= |b|
    ensures |a| == |b| ==> a == b
  {
    assert b == a + (b - a);
  }

  // ---------------------------------------------------------------- the ways a lane changes

  /** Removing other requests never costs credit. */
  lemma ShrinkCredit(fifo: bool, lane: seq<nat>, lane': seq<nat>, table: seq<Rec>, table': seq<Rec>, last: string, id: nat)
    requires Indices(lane, |table|) && Indices(lane', |table'|) && |table| <= |table'|
    requires forall x :: x in lane' ==> x in lane && table'[x].tag == table[x].tag
    requires id in lane'
    ensures Credit(fifo, lane', table', last, id) <= Credit(fifo, lane, table, last, id)
  {
    SubsetSize(Ahead(lane', id), Ahead(lane, id));
    if !fifo && |Ahead(lane', id)| == |Ahead(lane, id)| && Due(lane, table, last, id) && last != "" {
      var x :| x in lane && x <= id && table[x].tag.moduleId != last;
      assert x == id || x in Ahead(lane', id);
    }
  }

  /** Later arrivals stand behind. */
  lemma ArriveCredit(fifo: bool, lane: seq<nat>, table: seq<Rec>, r: Rec, last: string, id: nat)
    requires Indices(lane, |table|) && id in lane
    ensures Indices(lane + [|table|], |table| + 1)
    ensures Credit(fifo, lane + [|table|], table + [r], last, id) == Credit(fifo, lane, table, last, id)
  {
    assert Ahead(lane + [|table|], id) == Ahead(lane, id);
    if Due(lane, table, last, id) && last != "" {
      var x :| x in lane && x <= id && table[x].tag.moduleId != last;
      assert x in lane + [|table|] && (table + [r])[x] == table[x];
    }
  }

  /** A pick beyond a request: nobody up to it differs from the module last served, and the picked one does. */
  lemma BypassSame(c: Config, lane: seq<nat>, table: seq<Rec>, last: string, id: nat)
    requires Indices(lane, |table|) && Ascending(lane) && id in lane
    requires lane[PickIndex(c, lane, table, last)] > id
    ensures !c.fifo && last != "" && table[lane[PickIndex(c, lane, table, last)]].tag.moduleId != last
    ensures forall x :: x in lane && x <= id ==> table[x].tag.moduleId == last
  {
    var i := PickIndex(c, lane, table, last);
    assert forall j :: 0 <= j < i ==> table[lane[j]].tag.moduleId == last;
    hide PickIndex;
    forall x | x in lane && x <= id ensures table[x].tag.moduleId == last {
      var j :| 0 <= j < |lane| && lane[j] == x;
      assert j < i;
    }
  }

  /** A pick of another request costs at least one credit. */
  lemma PickCredit(c: Config, lane: seq<nat>, table: seq<Rec>, table': seq<Rec>, last: string, id: nat)
    requires Indices(lane, |table|) && Ascending(lane) && id in lane
    requires |table'| == |table| && forall x :: 0 <= x < |table| ==> table'[x].tag == table[x].tag
    requires lane[PickIndex(c, lane, table, last)] != id
    ensures var i := PickIndex(c, lane, table, last);
      && Indices(Without(lane, i), |table'|)
      && Credit(c.fifo, Without(lane, i), table', table[lane[i]].tag.moduleId, id) < Credit(c.fifo, lane, table, last, id)
  {
    var i := PickIndex(c, lane, table, last);
    var rest, picked := Without(lane, i), lane[i];
    WithoutLane(lane, i);
    assert Ahead(rest, id) == Ahead(lane, id) - {picked};
    if picked > id {
      BypassSame(c, lane, table, last, id);
      hide PickIndex;
      assert id in rest && table'[id].tag.moduleId != table[picked].tag.moduleId;
      assert Due(rest, table', table[picked].tag.moduleId, id);
    } else {
      assert picked in Ahead(lane, id);
    }
  }

  // ---------------------------------------------------------------- counting selections

  lemma {:induction false} ServedUpdate(table: seq<Rec>, id: nat, r: Rec, p: int)
    requires id < |table| && r.tag == table[id].tag
    ensures Served(table[id := r], p) == Served(table, p)
      + (if r.tag.priority == p && r.stage in {InFlight, Finished} then 1 else 0)
      - (if r.tag.priority == p && table[id].stage in {InFlight, Finished} then 1 else 0)
  {
    var n := |table| - 1;
    if id == n {
      assert table[id := r][..n] == table[..n];
    } else {
      ServedUpdate(table[..n], id, r, p);
      assert table[id := r][..n] == table[..n][id := r];
    }
  }

  /** Rows that keep tag and being-selected or not keep the count; fresh waiting rows add nothing. */
  lemma {:induction false} ServedSame(table: seq<Rec>, table': seq<Rec>, p: int)
    requires |table| <= |table'|
    requires forall i :: 0 <= i < |table| ==>
      && table'[i].tag == table[i].tag
      && (table'[i].stage in {InFlight, Finished} <==> table[i].stage in {InFlight, Finished})
    requires forall i :: |table| <= i < |table'| ==> table'[i].stage !in {InFlight, Finished}
    ensures Served(table', p) == Served(table, p)
    decreases |table'|
  {
    if table' != [] {
      if |table| == |table'| {
        ServedSame(table[..|table| - 1], table'[..|table'| - 1], p);
      } else {
        ServedSame(table, table'[..|table'| - 1], p);
      }
    }
  }

  // ---------------------------------------------------------------- a request's account

  /** Credit of a request in lane `p` plus the selections that lane has had. */
  ghost function Account(c: Config, q: Queue, p: nat, id: nat): nat
    requires Shaped(q) && p < LANES
  {
    Credit(c.fifo, q.lanes[p], q.table, q.last[p], id) + Served(q.table, p)
  }

  ghost predicate WaitsIn(q: Queue, p: nat, id: nat)
  {
    && Shaped(q) && Queues(q.lanes, q.table)
    && p < LANES && id < |q.table| && q.table[id].stage == Waiting && q.table[id].tag.priority == p
  }

  lemma WaitsInLane(q: Queue, p: nat, id: nat)
    requires WaitsIn(q, p, id)
    ensures id in q.lanes[p] && Ascending(q.lanes[p]) && Indices(q.lanes[p], |q.table|)
  {
    assert Held(q.lanes, q.table, id);
    assert LaneOk(q.lanes[p], q.table, p);
  }

  lemma SelectOneAccount(c: Config, q: Queue, r: nat, now: nat, p: nat, id: nat)
    requires WaitsIn(q, p, id) && r < LANES && q.lanes[r] != [] && PickId(c, q, r) != id
    ensures Account(c, SelectOne(c, q, r, now), p, id) <= Account(c, q, p, id)
  {
    var t, x := SelectOne(c, q, r, now), PickId(c, q, r);
    WaitsInLane(q, p, id);
    SelectOneFrame(c, q, r, now);
    ServedUpdate(q.table, x, q.table[x].(stage := InFlight), p);
    if r == p {
      PickCredit(c, q.lanes[p], q.table, t.table, q.last[p], id);
    } else {
      ShrinkCredit(c.fifo, q.lanes[p], q.lanes[p], q.table, t.table, q.last[p], id);
    }
  }

  lemma {:induction false} SelectLoopAccount(c: Config, q: Queue, times: seq<nat>, p: nat, id: nat)
    requires WaitsIn(q, p, id) && WaitsIn(SelectLoop(c, q, times).0, p, id)
    ensures Account(c, SelectLoop(c, q, times).0, p, id) <= Account(c, q, p, id)
    decreases |times|
  {
    hide Account, Queues, SelectOne;
    if times == [] || q.inflight >= c.maxInflight || PickLane(c, q, times[0]) < 0 {
    } else {
      var r := PickLane(c, q, times[0]);
      var t := SelectOne(c, q, r, times[0]);
      SelectOneFrame(c, q, r, times[0]);
      SelectOneQueues(c, q, r, times[0]);
      SelectLoopFrame(c, t, times[1..]);
      SelectOneAccount(c, q, r, times[0], p, id);
      SelectLoopAccount(c, t, times[1..], p, id);
    }
  }

  lemma SweepLaneAccount(c: Config, q: Queue, r: nat, v: Victims, p: nat, id: nat)
    requires WaitsIn(q, p, id) && r < LANES && SweepLane(q, r, v).table[id].stage == Waiting
    ensures WaitsIn(SweepLane(q, r, v), p, id)
    ensures Account(c, SweepLane(q, r, v), p, id) <= Account(c, q, p, id)
  {
    var t := SweepLane(q, r, v);
    SweepLaneQueues(q, r, v);
    WaitsInLane(q, p, id);
    WaitsInLane(t, p, id);
    ServedSame(q.table, t.table, p);
    forall x | x in t.lanes[p] ensures x in q.lanes[p] {
      if p == r { KeepMembers(q.lanes[p], q.table, v, x); }
    }
    ShrinkCredit(c.fifo, q.lanes[p], t.lanes[p], q.table, t.table, q.last[p], id);
  }

  lemma {:induction false} SweepAccount(c: Config, q: Queue, upTo: nat, v: Victims, p: nat, id: nat)
    requires WaitsIn(q, p, id) && upTo <= LANES
    requires id < |Sweep(q, upTo, v).table| && Sweep(q, upTo, v).table[id].stage == Waiting
    ensures WaitsIn(Sweep(q, upTo, v), p, id)
    ensures Account(c, Sweep(q, upTo, v), p, id) <= Account(c, q, p, id)
    decreases upTo
  {
    hide Account, Queues;
    if upTo > 0 {
      var u := Sweep(q, upTo - 1, v);
      SweepFrame(q, upTo - 1, v);
      assert u.table[id].stage == Waiting by { if Hit(u.table[id], v) { } }
      SweepAccount(c, q, upTo - 1, v, p, id);
      SweepLaneAccount(c, u, upTo - 1, v, p, id);
    }
  }

  lemma EnqueueAccount(c: Config, q: Queue, tag: Tag, queuedAt: nat, isAsync: bool, p: nat, id: nat)
    requires WaitsIn(q, p, id) && 0 <= tag.priority < LANES
    requires id < |Enqueue(q, tag, queuedAt, isAsync).table|
    requires Enqueue(q, tag, queuedAt, isAsync).table[id].stage == Waiting
    ensures WaitsIn(Enqueue(q, tag, queuedAt, isAsync), p, id)
    ensures Account(c, Enqueue(q, tag, queuedAt, isAsync), p, id) <= Account(c, q, p, id)
  {
    var u := Push(q, tag, queuedAt, isAsync);
    PushQueues(q, tag, queuedAt, isAsync);
    WaitsInLane(q, p, id);
    ArriveCredit(c.fifo, q.lanes[p], q.table, Rec(tag, queuedAt, isAsync, Waiting), q.last[p], id);
    if tag.priority != p {
      ShrinkCredit(c.fifo, q.lanes[p], q.lanes[p], q.table, u.table, q.last[p], id);
    }
    ServedSame(q.table, u.table, p);
    SweepAccount(c, u, tag.priority, Interruptables, p, id);
  }

  lemma RetireAccount(c: Config, q: Queue, x: nat, now: nat, p: nat, id: nat)
    requires WaitsIn(q, p, id) && x < |q.table| && q.table[x].stage == InFlight
    ensures WaitsIn(Retire(q, x, now), p, id)
    ensures Account(c, Retire(q, x, now), p, id) <= Account(c, q, p, id)
  {
    var t := Retire(q, x, now);
    RetireQueues(q, x, now);
    WaitsInLane(q, p, id);
    ServedSame(q.table, t.table, p);
    ShrinkCredit(c.fifo, q.lanes[p], q.lanes[p], q.table, t.table, q.last[p], id);
  }

  // ---------------------------------------------------------------- along a run

  ghost predicate StillWaits(y: Sys, id: nat)
  {
    id < |y.s.q.table| && y.s.q.table[id].stage == Waiting
  }

  lemma SysWaitsIn(y: Sys, p: nat, id: nat)
    requires SysInv(y) && StillWaits(y, id) && y.s.q.table[id].tag.priority == p
    ensures WaitsIn(y.s.q, p, id)
  {
    ShapedFromInv(y.s, y.now);
    hide Inv, Queues;
    assert p < LANES by { RowLane(y.s, y.now, id); }
  }

  lemma RowLane(s: Sched, now: nat, id: nat)
    requires Inv(s, now) && id < |s.q.table|
    ensures 0 <= s.q.table[id].tag.priority < LANES
  {
    assert Held(s.q.lanes, s.q.table, id);
  }

  /** No step raises the account of a request that goes on waiting. */
  lemma StepAccount(y: Sys, a: Action, p: nat, id: nat)
    requires SysInv(y) && Enabled(y, a) && WaitsIn(y.s.q, p, id) && StillWaits(Next(y, a), id)
    ensures WaitsIn(Next(y, a).s.q, p, id)
    ensures Account(y.s.cfg, Next(y, a).s.q, p, id) <= Account(y.s.cfg, y.s.q, p, id)
  {
    StepInv(y, a);
    TableStep(y, a);
    assert Next(y, a).s.q.table[id].tag == y.s.q.table[id].tag by {
      assert Next(y, a).s.q.table[id].(stage := Waiting) == y.s.q.table[id].(stage := Waiting);
    }
    SysWaitsIn(Next(y, a), p, id);
    hide SysInv, Enabled, Next, WaitsIn, Account, Grown;
    if a.SubmitA? || a.SubmitS? { SubmitAccount(y, a, p, id); }
    else if a.Select? || a.ReleaseS? { SelectAccount(y, a, p, id); }
    else { OtherAccount(y, a, p, id); }
  }

  lemma SubmitAccount(y: Sys, a: Action, p: nat, id: nat)
    requires SysInv(y) && Enabled(y, a) && WaitsIn(y.s.q, p, id) && WaitsIn(Next(y, a).s.q, p, id)
    requires a.SubmitA? || a.SubmitS?
    ensures Account(y.s.cfg, Next(y, a).s.q, p, id) <= Account(y.s.cfg, y.s.q, p, id)
  {
    assert Inv(y.s, y.now);
    hide SysInv, Inv, Queues, Account, SelectLoop, Enqueue, UpdateCircuit;
    var s := y.s;
    if a.SubmitA? {
      if SubmitAsync(s, a.tag, y.now).1 == Accepted { EnqueueAccount(s.cfg, s.q, a.tag, y.now, true, p, id); }
    } else {
      if SubmitSync(s, a.tag, a.queuedAt, a.times).1 == Accepted {
        EnqueueWaits(s, a.tag, a.queuedAt, y.now, a.times, id);
        EnqueueAccount(s.cfg, s.q, a.tag, a.queuedAt, false, p, id);
        SelectLoopAccount(s.cfg, Enqueue(s.q, a.tag, a.queuedAt, false), a.times[1..], p, id);
      }
    }
  }

  lemma SelectAccount(y: Sys, a: Action, p: nat, id: nat)
    requires SysInv(y) && Enabled(y, a) && WaitsIn(y.s.q, p, id) && WaitsIn(Next(y, a).s.q, p, id)
    requires a.Select? || a.ReleaseS?
    ensures Account(y.s.cfg, Next(y, a).s.q, p, id) <= Account(y.s.cfg, y.s.q, p, id)
  {
    hide SysInv, Queues, Account, SelectLoop;
    var s := y.s;
    if a.Select? {
      if !s.pump.stopped && !GapHolds(s.cfg, s.hook, s.q, a.times[0]) {
        SelectLoopAccount(s.cfg, s.q, a.times[1..], p, id);
      }
    } else {
      RetireAccount(s.cfg, s.q, a.id, a.doneAt, p, id);
      SelectLoopAccount(s.cfg, Retire(s.q, a.id, a.doneAt), a.times[1..], p, id);
    }
  }

  lemma OtherAccount(y: Sys, a: Action, p: nat, id: nat)
    requires SysInv(y) && Enabled(y, a) && WaitsIn(y.s.q, p, id) && WaitsIn(Next(y, a).s.q, p, id)
    requires !(a.Select? || a.ReleaseS? || a.SubmitA? || a.SubmitS?)
    ensures Account(y.s.cfg, Next(y, a).s.q, p, id) <= Account(y.s.cfg, y.s.q, p, id)
  {
    assert a.CompleteA? ==> Launched(y.s.q.table, a.id);
    hide SysInv, Queues, Account, Sweep;
    var s := y.s;
    match a
    case CompleteA(x, ok) =>
      if s.q.table[x].stage != Finished { RetireAccount(s.cfg, s.q, x, y.now, p, id); }
    case Cancel(moduleId) =>
      SweepAccount(s.cfg, s.q, LANES, OfModule(moduleId), p, id);
    case _ =>
  }

  /** A request that waits after the selection loop waited before it. */
  lemma EnqueueWaits(s: Sched, tag: Tag, queuedAt: nat, now: nat, times: seq<nat>, id: nat)
    requires Inv(s, now) && 0 <= tag.priority < LANES && times != [] && id < |s.q.table|
    requires Depth(s.q.lanes) + s.q.inflight < s.cfg.maxQueueDepth
    requires var t := SelectLoop(s.cfg, Enqueue(s.q, tag, queuedAt, false), times[1..]).0;
      id < |t.table| && t.table[id].stage == Waiting
    ensures var u := Enqueue(s.q, tag, queuedAt, false); id < |u.table| && u.table[id].stage == Waiting
  {
    hide Queues, Accounts, History, ModeInv, Bounds, SelectLoop, Enqueue;
    EnqueueInv(s.cfg, s.q, tag, queuedAt, false, s.b.completed + s.b.failed, EnforcedGap(s.cfg, s.hook, s.mode));
    SelectLoopFrame(s.cfg, Enqueue(s.q, tag, queuedAt, false), times[1..]);
  }

  lemma {:induction false} RunAccount(y: Sys, acts: seq<Action>, p: nat, id: nat)
    requires SysInv(y) && Run(y, acts) && WaitsIn(y.s.q, p, id) && StillWaits(Exec(y, acts), id)
    ensures WaitsIn(Exec(y, acts).s.q, p, id)
    ensures Account(y.s.cfg, Exec(y, acts).s.q, p, id) <= Account(y.s.cfg, y.s.q, p, id)
    decreases |acts|
  {
    hide SysInv, Next, Enabled, Account, Grown, Queues;
    if acts != [] {
      var z := Next(y, acts[0]);
      StepInv(y, acts[0]);
      RunConfig(y, [acts[0]]);
      EarlierWaits(y, acts[0], acts[1..], id);
      StepAccount(y, acts[0], p, id);
      RunAccount(z, acts[1..], p, id);
    }
  }

  lemma EarlierWaits(y: Sys, a: Action, acts: seq<Action>, id: nat)
    requires SysInv(y) && Enabled(y, a) && Shaped(y.s.q) && id < |y.s.q.table|
    requires Run(Next(y, a), acts) && StillWaits(Exec(Next(y, a), acts), id)
    ensures StillWaits(Next(y, a), id)
  {
    StepInv(y, a);
    TableStep(y, a);
    EndsAreFinal(Next(y, a), acts, id);
    hide SysInv, Enabled;
  }

  /**
   Bounded bypass: a request with `k` others ahead of it in its lane is selected
   (or, when blocking, cancelled) before its lane has been served `k + 1` times
   more in first-in-first-out order, `2 * (k + 1)` times with round-robin,
   whatever the module ids and whoever arrives or is cancelled meanwhile.
   */
  lemma BypassFrom(y: Sys, acts: seq<Action>, p: nat, k: nat)
    requires SysInv(y) && Run(y, acts)
    requires p < LANES && |y.s.q.lanes| == LANES && k < |y.s.q.lanes[p]|
    requires Served(Exec(y, acts).s.q.table, p) - Served(y.s.q.table, p)
             >= (if y.s.cfg.fifo then k + 1 else 2 * (k + 1))
    ensures !StillWaits(Exec(y, acts), y.s.q.lanes[p][k])
  {
    var z := Exec(y, acts);
    var id := y.s.q.lanes[p][k];
    if StillWaits(z, id) {
      assert LaneOk(y.s.q.lanes[p], y.s.q.table, p) by { LaneFromInv(y, p); }
      SysWaitsIn(y, p, id);
      RunAccount(y, acts, p, id);
      AheadIsPosition(y.s.q.lanes[p], k);
      assert false;
    }
  }

  lemma LaneFromInv(y: Sys, p: nat)
    requires SysInv(y) && p < LANES
    ensures |y.s.q.lanes| == LANES && LaneOk(y.s.q.lanes[p], y.s.q.table, p)
  {
    ShapedFromInv(y.s, y.now);
    hide Inv;
  }

  // ---------------------------------------------------------------- starvation guard

  /** The request has waited the guard time. */
  ghost predicate Overdue(c: Config, q: Queue, now: nat, id: nat)
    requires id < |q.table|
  {
    c.guardMs > 0 && now - q.table[id].queuedAt >= c.guardMs * NS_PER_MS
  }

  /** While an overdue request waits in a lane, no lane above it is served. */
  lemma OverdueServed(c: Config, q: Queue, stamp: nat, now: nat, p: nat, id: nat)
    requires p < LANES && WaitsIn(q, p, id) && Overdue(c, q, now, id) && StampedInOrder(q.table, stamp)
    ensures 0 <= PickLane(c, q, now) <= p
  {
    WaitsInLane(q, p, id);
    var lane := q.lanes[p];
    var k :| 0 <= k < |lane| && lane[k] == id;
    assert q.table[lane[0]].queuedAt <= q.table[id].queuedAt;
    assert FrontStarved(c, q, now, p);
  }

  lemma StampsKept(table: seq<Rec>, x: nat, g: Stage, stamp: nat)
    requires StampedInOrder(table, stamp) && x < |table|
    ensures StampedInOrder(table[x := table[x].(stage := g)], stamp)
  {
  }

  /** A request that waits after a selection waited before it. */
  lemma AdvancedWaits(before: seq<Rec>, after: seq<Rec>, id: nat)
    requires Advanced(before, after, InFlight) && |after| == |before| && id < |before| && after[id].stage == Waiting
    ensures before[id].stage == Waiting
  {
  }

  lemma {:induction false} SelectLoopBelow(c: Config, q: Queue, times: seq<nat>, from: nat, stamp: nat, p: nat, id: nat, r: nat)
    requires p < LANES && p < r && WaitsIn(q, p, id) && WaitsIn(SelectLoop(c, q, times).0, p, id)
    requires Sorted(times, from) && Overdue(c, q, from, id) && StampedInOrder(q.table, stamp)
    ensures Served(SelectLoop(c, q, times).0.table, r) == Served(q.table, r)
    decreases |times|
  {
    hide Queues, SelectOne, Served, StampedInOrder, PickLane, Advanced;
    if times == [] || q.inflight >= c.maxInflight || PickLane(c, q, times[0]) < 0 {
    } else {
      OverdueServed(c, q, stamp, times[0], p, id);
      var k := PickLane(c, q, times[0]);
      var t, x := SelectOne(c, q, k, times[0]), PickId(c, q, k);
      SelectOneFrame(c, q, k, times[0]);
      SelectOneQueues(c, q, k, times[0]);
      SelectLoopFrame(c, t, times[1..]);
      ServedUpdate(q.table, x, q.table[x].(stage := InFlight), r);
      StampsKept(q.table, x, InFlight, stamp);
      AdvancedWaits(t.table, SelectLoop(c, t, times[1..]).0.table, id);
      SelectLoopBelow(c, t, times[1..], times[0], stamp, p, id, r);
    }
  }

  lemma AdvancedServed(table: seq<Rec>, table': seq<Rec>, p: int)
    requires Advanced(table, table', Cancelled)
    requires forall i :: |table| <= i < |table'| ==> table'[i].stage == Waiting
    ensures Served(table', p) == Served(table, p)
  {
    ServedSame(table, table', p);
  }

  lemma EnqueueServed(s: Sched, tag: Tag, now: nat, r: nat)
    requires Inv(s, now) && 0 <= tag.priority < LANES && Depth(s.q.lanes) + s.q.inflight < s.cfg.maxQueueDepth
    ensures Served(Enqueue(s.q, tag, now, true).table, r) == Served(s.q.table, r)
  {
    var u := Push(s.q, tag, now, true);
    ServedSame(s.q.table, u.table, r);
    SweepFrame(u, tag.priority, Interruptables);
    AdvancedServed(u.table, Sweep(u, tag.priority, Interruptables).table, r);
    hide Inv, Sweep, Served;
  }

  lemma CompleteServed(s: Sched, x: nat, ok: bool, now: nat, r: nat)
    requires Inv(s, now) && x < |s.q.table| && s.q.table[x].stage in {InFlight, Finished}
    ensures var t := CompleteAsync(s, x, ok, now).0; Served(t.q.table, r) == Served(s.q.table, r) && t.mode == s.mode
  {
    if s.q.table[x].stage == InFlight {
      ServedSame(s.q.table, Retire(s.q, x, now).table, r);
    }
    hide Inv, Served;
  }

  lemma StampsFromInv(s: Sched, now: nat)
    requires Inv(s, now) && s.mode == AsyncMode
    ensures StampedInOrder(s.q.table, now)
  {
  }

  lemma SelectBelow(y: Sys, times: seq<nat>, p: nat, id: nat, r: nat)
    requires SysInv(y) && y.s.mode == AsyncMode && Enabled(y, Select(times)) && p < LANES && p < r
    requires WaitsIn(y.s.q, p, id) && WaitsIn(Next(y, Select(times)).s.q, p, id)
    requires Overdue(y.s.cfg, y.s.q, y.now, id)
    ensures var z := Next(y, Select(times)); Served(z.s.q.table, r) == Served(y.s.q.table, r) && z.s.mode == AsyncMode
  {
    StampsFromInv(y.s, y.now);
    hide SysInv, Queues, SelectLoop, Served, StampedInOrder, Sorted;
    var s := y.s;
    if !s.pump.stopped && !GapHolds(s.cfg, s.hook, s.q, times[0]) {
      TailSorted(times, y.now);
      SelectLoopBelow(s.cfg, s.q, times[1..], times[0], y.now, p, id, r);
    }
  }

  /** No other step of the event-driven scheduler selects. */
  lemma OtherServed(y: Sys, a: Action, r: nat)
    requires SysInv(y) && y.s.mode == AsyncMode && Enabled(y, a) && !a.Select?
    ensures Shaped(y.s.q)
    ensures Served(Next(y, a).s.q.table, r) == Served(y.s.q.table, r) && Next(y, a).s.mode == AsyncMode
  {
    hide Queues, PumpInv, NoStall, QuietInv, Accounts, History, ModeInv, Bounds, SelectLoop, Enqueue, Sweep, Served, BreakerOk, Advanced;
    var s := y.s;
    match a
    case SubmitA(tag) =>
      if SubmitAsync(s, tag, y.now).1 == Accepted { EnqueueServed(s, tag, y.now, r); }
    case CompleteA(x, ok) =>
      CompleteServed(s, x, ok, y.now, r);
      hide CompleteAsync;
    case SubmitS(tag, queuedAt, times) =>
      SubmitSyncFrame(s, tag, queuedAt, times);
      hide SubmitSync;
    case ReleaseS(x, ok, doneAt, times) =>
      ModeOfRow(s, y.now, x);
    case Cancel(moduleId) =>
      SweepFrame(s.q, LANES, OfModule(moduleId));
      AdvancedServed(s.q.table, Sweep(s.q, LANES, OfModule(moduleId)).table, r);
    case _ =>
  }

  lemma StepBelow(y: Sys, a: Action, p: nat, id: nat, r: nat)
    requires SysInv(y) && y.s.mode == AsyncMode && Enabled(y, a) && p < LANES && p < r
    requires WaitsIn(y.s.q, p, id) && WaitsIn(Next(y, a).s.q, p, id)
    requires Overdue(y.s.cfg, y.s.q, y.now, id)
    ensures Served(Next(y, a).s.q.table, r) == Served(y.s.q.table, r) && Next(y, a).s.mode == AsyncMode
  {
    if a.Select? {
      hide SysInv, Enabled, Next, WaitsIn, Served;
      SelectBelow(y, a.times, p, id, r);
    } else {
      OtherServed(y, a, r);
    }
  }

  /**
   While an overdue event-driven request waits in any lane, no run makes a selection
   from a lane above it.
   */
  lemma {:induction false} NoneAboveOverdue(y: Sys, acts: seq<Action>, p: nat, id: nat, r: nat)
    requires SysInv(y) && y.s.mode == AsyncMode && Run(y, acts) && p < LANES && p < r
    requires WaitsIn(y.s.q, p, id) && StillWaits(Exec(y, acts), id) && Overdue(y.s.cfg, y.s.q, y.now, id)
    ensures Served(Exec(y, acts).s.q.table, r) == Served(y.s.q.table, r)
    decreases |acts|
  {
    hide SysInv, Next, Enabled, Queues, Served;
    if acts != [] {
      var z := Next(y, acts[0]);
      StepInv(y, acts[0]);
      RunConfig(y, [acts[0]]);
      CoreStep(y, acts[0]);
      EarlierWaits(y, acts[0], acts[1..], id);
      StepAccount(y, acts[0], p, id);
      TableStep(y, acts[0]);
      assert z.s.q.table[id].(stage := Waiting) == y.s.q.table[id].(stage := Waiting);
      assert z.s.q.table[id].queuedAt == y.s.q.table[id].queuedAt;
      StepBelow(y, acts[0], p, id, r);
      NoneAboveOverdue(z, acts[1..], p, id, r);
    }
  }

  /** All selections are those of the four lanes. */
  lemma {:induction false} ServedTotal(table: seq<Rec>)
    requires forall i :: 0 <= i < |table| ==> 0 <= table[i].tag.priority < LANES
    ensures Served(table, 0) + Served(table, 1) + Served(table, 2) + Served(table, 3)
         == Count(table, InFlight) + Count(table, Finished)
    decreases |table|
  {
    if table != [] {
      ServedTotal(table[..|table| - 1]);
    }
  }

  lemma LanesTotal(y: Sys)
    requires SysInv(y)
    ensures var t := y.s.q.table; Served(t, 0) + Served(t, 1) + Served(t, 2) + Served(t, 3) == AllServed(y.s)
  {
    var q := y.s.q;
    forall i | 0 <= i < |q.table| ensures 0 <= q.table[i].tag.priority < LANES { assert Held(q.lanes, q.table, i); }
    ServedTotal(q.table);
    hide Queues, History, ModeInv, Count, Served, NoStall, PumpInv, LaunchInv, QuietInv;
  }

  /**
   Starvation guard: once an event-driven request of the lowest priority with `k`
   ahead of it has waited the guard time, it is selected within the next `k + 1`
   selections overall (`2 * (k + 1)` with round-robin), however many requests of
   higher priority arrive.
   */
  lemma GuardFrom(y: Sys, acts: seq<Action>, k: nat)
    requires SysInv(y) && y.s.mode == AsyncMode && Run(y, acts)
    requires |y.s.q.lanes| == LANES && k < |y.s.q.lanes[0]| && y.s.q.lanes[0][k] < |y.s.q.table|
    requires Overdue(y.s.cfg, y.s.q, y.now, y.s.q.lanes[0][k])
    requires AllServed(Exec(y, acts).s) - AllServed(y.s) >= (if y.s.cfg.fifo then k + 1 else 2 * (k + 1))
    ensures !StillWaits(Exec(y, acts), y.s.q.lanes[0][k])
  {
    hide SysInv, Exec, Run, Served, AllServed, Overdue;
    var id := y.s.q.lanes[0][k];
    if StillWaits(Exec(y, acts), id) {
      LaneFromInv(y, 0);
      SysWaitsIn(y, 0, id);
      NoneAboveOverdue(y, acts, 0, id, 1);
      NoneAboveOverdue(y, acts, 0, id, 2);
      NoneAboveOverdue(y, acts, 0, id, 3);
      RunInv(y, acts);
      LanesTotal(y);
      LanesTotal(Exec(y, acts));
      BypassFrom(y, acts, 0, k);
      assert false;
    }
  }

  /**
   Bounded bypass in every run: a request with `k` others ahead of it in its lane is
   selected, or when blocking cancelled, within `k + 1` selections from its lane if the
   caller asked for first-in-first-out, and within `2 * (k + 1)` otherwise.
   */
  lemma BoundedBypass(c: Config, hook: bool, t0: nat, acts: seq<Action>, more: seq<Action>, p: nat, k: nat)
    requires t0 > 0 && Run(Start(c, hook, t0), acts) && Run(Exec(Start(c, hook, t0), acts), more)
    requires var y := Exec(Start(c, hook, t0), acts);
      && p < LANES && |y.s.q.lanes| == LANES && k < |y.s.q.lanes[p]|
      && Served(Exec(y, more).s.q.table, p) - Served(y.s.q.table, p) >= (if c.fifo then k + 1 else 2 * (k + 1))
    ensures var y := Exec(Start(c, hook, t0), acts); !StillWaits(Exec(y, more), y.s.q.lanes[p][k])
  {
    hide Run, Exec, SysInv, Served, StillWaits;
    ReachedInv(c, hook, t0, acts);
    ReachedConfig(c, hook, t0, acts);
    BypassFrom(Exec(Start(c, hook, t0), acts), more, p, k);
  }

  /**
   Starvation guard in every run: an event-driven request of the lowest priority that has
   waited the configured guard time, with `k` ahead of it, is selected within the next
   `k + 1` selections overall, `2 * (k + 1)` with round-robin.
   */
  lemma StarvationGuard(c: Config, hook: bool, t0: nat, acts: seq<Action>, more: seq<Action>, k: nat)
    requires t0 > 0 && Run(Start(c, hook, t0), acts) && Run(Exec(Start(c, hook, t0), acts), more) && c.guardMs > 0
    requires var y := Exec(Start(c, hook, t0), acts);
      && y.s.mode == AsyncMode && |y.s.q.lanes| == LANES && k < |y.s.q.lanes[0]| && y.s.q.lanes[0][k] < |y.s.q.table|
      && y.now >= y.s.q.table[y.s.q.lanes[0][k]].queuedAt + c.guardMs * NS_PER_MS
      && AllServed(Exec(y, more).s) - AllServed(y.s) >= (if c.fifo then k + 1 else 2 * (k + 1))
    ensures var y := Exec(Start(c, hook, t0), acts); !StillWaits(Exec(y, more), y.s.q.lanes[0][k])
  {
    hide Run, Exec, SysInv, AllServed, StillWaits;
    ReachedInv(c, hook, t0, acts);
    ReachedConfig(c, hook, t0, acts);
    GuardFrom(Exec(Start(c, hook, t0), acts), more, k);
  }

  /** With several starved lanes the lowest of them is served, and with none the highest lane that is not empty. */
  lemma GuardFavoursLowest(c: Config, q: Queue, now: nat, p: nat)
    requires Shaped(q) && c.guardMs > 0 && p < LANES
    ensures (FrontStarved(c, q, now, p) && (forall r :: 0 <= r < p ==> !FrontStarved(c, q, now, r)))
            ==> PickLane(c, q, now) == p
    ensures (&& (forall r :: 0 <= r < LANES ==> !FrontStarved(c, q, now, r))
             && q.lanes[p] != []
             && (forall r :: p < r < LANES ==> q.lanes[r] == []))
            ==> PickLane(c, q, now) == p
  {
    hide FrontStarved;
  }
}
