/** Which request is selected, and when, exactly. */
module SchedulerSelection {
  import opened SchedulerModel
  import opened SchedulerInvariant
  import opened SchedulerPreservation
  import opened SchedulerSystem
  import opened SchedulerTheorems

  // ---------------------------------------------------------------- which request

  /** The oldest request of the lane has waited at least the guard time. */
  predicate WaitedLong(c: Config, q: Queue, now: nat, p: nat)
    requires Shaped(q) && p < LANES
  {
    c.guardMs > 0 && q.lanes[p] != [] && now >= q.table[q.lanes[p][0]].queuedAt + c.guardMs * NS_PER_MS
  }

  /** The lane served is the lowest in which a request has waited the guard time, and without one the highest that is not empty. */
  lemma LaneExact(c: Config, q: Queue, now: nat)
    requires Shaped(q) && Depth(q.lanes) > 0
    ensures var p := PickLane(c, q, now);
      && 0 <= p < LANES && q.lanes[p] != []
      && if exists r :: 0 <= r < LANES && WaitedLong(c, q, now, r)
         then WaitedLong(c, q, now, p) && forall r :: 0 <= r < p ==> !WaitedLong(c, q, now, r)
         else forall r :: p < r < LANES ==> q.lanes[r] == []
  {
    assert forall r :: 0 <= r < LANES && c.guardMs > 0 ==> (WaitedLong(c, q, now, r) <==> FrontStarved(c, q, now, r));
  }

  /**
   The request served in a lane is its oldest one, or, with round-robin, its oldest one of
   another module than the last served from it, if there is one.
   */
  lemma RequestExact(c: Config, q: Queue, p: nat)
    requires Shaped(q) && p < LANES && q.lanes[p] != [] && Ascending(q.lanes[p])
    ensures var id, lane := PickId(c, q, p), q.lanes[p];
      && id in lane
      && if !c.fifo && q.last[p] != "" && (exists x :: x in lane && q.table[x].tag.moduleId != q.last[p])
         then q.table[id].tag.moduleId != q.last[p]
              && forall x :: x in lane && q.table[x].tag.moduleId != q.last[p] ==> id <= x
         else forall x :: x in lane ==> id <= x
  {
    var lane, last := q.lanes[p], q.last[p];
    var i := PickIndex(c, lane, q.table, last);
    PositionExact(c, lane, q.table, last);
    hide PickIndex;
    forall x | x in lane && (!Turns(c, lane, q.table, last) || q.table[x].tag.moduleId != last) ensures lane[i] <= x {
      var j :| 0 <= j < |lane| && lane[j] == x;
      assert i <= j;
    }
    if exists x :: x in lane && q.table[x].tag.moduleId != last {
      var x :| x in lane && q.table[x].tag.moduleId != last;
      var j :| 0 <= j < |lane| && lane[j] == x;
      assert Other(lane, q.table, last, j);
    }
  }

  predicate Other(lane: seq<nat>, table: seq<Rec>, last: string, j: nat)
    requires Indices(lane, |table|)
  {
    j < |lane| && table[lane[j]].tag.moduleId != last
  }

  /** Round-robin passes to another module. */
  ghost predicate Turns(c: Config, lane: seq<nat>, table: seq<Rec>, last: string)
    requires Indices(lane, |table|)
  {
    !c.fifo && last != "" && exists j: nat :: Other(lane, table, last, j)
  }

  lemma PositionExact(c: Config, lane: seq<nat>, table: seq<Rec>, last: string)
    requires Indices(lane, |table|) && lane != []
    ensures var i := PickIndex(c, lane, table, last);
      if Turns(c, lane, table, last) then Other(lane, table, last, i) && forall j :: 0 <= j < i ==> !Other(lane, table, last, j)
      else i == 0
  {
    var other := FirstOther(lane, table, last);
    if Turns(c, lane, table, last) {
      var j: nat :| Other(lane, table, last, j);
      assert other <= j;
    } else if other < |lane| {
      assert Other(lane, table, last, other);
    }
  }

  // ---------------------------------------------------------------- the last module served

  /** The module of the latest selection from a lane, from the history. */
  function LastModule(trace: seq<Event>, table: seq<Rec>, p: int): string
  {
    if trace == [] then ""
    else
      var e := trace[|trace| - 1];
      if e.Picked? && e.id < |table| && table[e.id].tag.priority == p then table[e.id].tag.moduleId
      else LastModule(trace[..|trace| - 1], table, p)
  }

  /** The time of the latest completion, from the history; 0 if there is none. */
  function LastDone(trace: seq<Event>): nat
  {
    if trace == [] then 0
    else if trace[|trace| - 1].Completion? then trace[|trace| - 1].at
    else LastDone(trace[..|trace| - 1])
  }

  ghost predicate Known(trace: seq<Event>, n: nat)
  {
    forall i :: 0 <= i < |trace| ==> trace[i].id < n
  }

  /** The scheduler's own notes agree with the history. */
  ghost predicate Notes(q: Queue)
  {
    && |q.last| == LANES && Known(q.trace, |q.table|)
    && (forall p :: 0 <= p < LANES ==> q.last[p] == LastModule(q.trace, q.table, p))
    && q.lastCompleteAt == LastDone(q.trace)
  }

  ghost predicate SameTags(a: seq<Rec>, b: seq<Rec>)
  {
    |a| <= |b| && forall i :: 0 <= i < |a| ==> b[i].tag == a[i].tag
  }

  lemma {:induction false} LastModuleSame(trace: seq<Event>, a: seq<Rec>, b: seq<Rec>, p: int)
    requires Known(trace, |a|) && SameTags(a, b)
    ensures LastModule(trace, b, p) == LastModule(trace, a, p)
    decreases |trace|
  {
    if trace != [] {
      LastModuleSame(trace[..|trace| - 1], a, b, p);
    }
  }

  /** Rows may change stage and be added: the notes still agree. */
  lemma NotesTable(q: Queue, t: Queue)
    requires Notes(q) && SameTags(q.table, t.table)
    requires t.last == q.last && t.trace == q.trace && t.lastCompleteAt == q.lastCompleteAt
    ensures Notes(t)
  {
    hide LastModule, LastDone;
    forall p | 0 <= p < LANES ensures t.last[p] == LastModule(t.trace, t.table, p) {
      LastModuleSame(q.trace, q.table, t.table, p);
    }
  }

  lemma AdvancedTags(a: seq<Rec>, b: seq<Rec>, to: Stage)
    requires Advanced(a, b, to)
    ensures SameTags(a, b)
  {
  }

  lemma SnocNotes(trace: seq<Event>, e: Event, table: seq<Rec>, p: int)
    ensures LastModule(trace + [e], table, p)
         == if e.Picked? && e.id < |table| && table[e.id].tag.priority == p then table[e.id].tag.moduleId
            else LastModule(trace, table, p)
    ensures LastDone(trace + [e]) == if e.Completion? then e.at else LastDone(trace)
  {
    assert (trace + [e])[..|trace|] == trace;
  }

  lemma SelectOneNotes(c: Config, q: Queue, p: nat, now: nat)
    requires Shaped(q) && Queues(q.lanes, q.table) && p < LANES && q.lanes[p] != [] && Notes(q)
    ensures Notes(SelectOne(c, q, p, now))
  {
    var t, id := SelectOne(c, q, p, now), PickId(c, q, p);
    SelectOneFrame(c, q, p, now);
    assert t.last == q.last[p := q.table[id].tag.moduleId];
    hide Queues, SelectOne, LastModule, LastDone;
    assert SameTags(q.table, t.table);
    forall k | 0 <= k < LANES ensures t.last[k] == LastModule(t.trace, t.table, k) {
      LastModuleSame(q.trace, q.table, t.table, k);
      SnocNotes(q.trace, Picked(id, now), t.table, k);
    }
    SnocNotes(q.trace, Picked(id, now), t.table, 0);
  }

  lemma {:induction false} SelectLoopNotes(c: Config, q: Queue, times: seq<nat>)
    requires Shaped(q) && Queues(q.lanes, q.table) && Notes(q)
    ensures Notes(SelectLoop(c, q, times).0)
    decreases |times|
  {
    hide Queues, SelectOne, Notes;
    if times == [] || q.inflight >= c.maxInflight || PickLane(c, q, times[0]) < 0 {
    } else {
      var p := PickLane(c, q, times[0]);
      SelectOneNotes(c, q, p, times[0]);
      SelectOneQueues(c, q, p, times[0]);
      SelectLoopNotes(c, SelectOne(c, q, p, times[0]), times[1..]);
    }
  }

  lemma RetireNotes(q: Queue, id: nat, now: nat)
    requires Shaped(q) && id < |q.table| && Notes(q)
    ensures Notes(Retire(q, id, now))
  {
    var t := Retire(q, id, now);
    hide LastModule, LastDone;
    assert SameTags(q.table, t.table);
    forall k | 0 <= k < LANES ensures t.last[k] == LastModule(t.trace, t.table, k) {
      LastModuleSame(q.trace, q.table, t.table, k);
      SnocNotes(q.trace, Completion(id, now), t.table, k);
    }
    SnocNotes(q.trace, Completion(id, now), t.table, 0);
  }

  lemma EnqueueNotes(s: Sched, tag: Tag, at: nat, isAsync: bool, now: nat)
    requires Inv(s, now) && 0 <= tag.priority < LANES && Depth(s.q.lanes) + s.q.inflight < s.cfg.maxQueueDepth && Notes(s.q)
    ensures var t := Enqueue(s.q, tag, at, isAsync); Queues(t.lanes, t.table) && Notes(t)
  {
    hide Queues, Accounts, History, ModeInv, Enqueue, Notes, Advanced;
    EnqueueInv(s.cfg, s.q, tag, at, isAsync, s.b.completed + s.b.failed, EnforcedGap(s.cfg, s.hook, s.mode));
    AdvancedTags(s.q.table, Enqueue(s.q, tag, at, isAsync).table, Cancelled);
    NotesTable(s.q, Enqueue(s.q, tag, at, isAsync));
  }

  lemma SubmitQueue(y: Sys, a: Action)
    requires Enabled(y, a) && (a.SubmitA? || a.SubmitS?) && Shaped(y.s.q)
    ensures a.SubmitS? ==> a.times != []
    ensures var q := Next(y, a).s.q;
      || q == y.s.q
      || (0 <= a.tag.priority < LANES && Depth(y.s.q.lanes) + y.s.q.inflight < y.s.cfg.maxQueueDepth
          && q == if a.SubmitA? then Enqueue(y.s.q, a.tag, y.now, true)
                  else SelectLoop(y.s.cfg, Enqueue(y.s.q, a.tag, a.queuedAt, false), a.times[1..]).0)
  {
    hide Shaped, Enqueue, SelectLoop, UpdateCircuit, Sorted;
  }

  lemma BlockingNotes(s: Sched, tag: Tag, at: nat, times: seq<nat>, now: nat)
    requires Inv(s, now) && 0 <= tag.priority < LANES && Depth(s.q.lanes) + s.q.inflight < s.cfg.maxQueueDepth && Notes(s.q)
    ensures Notes(SelectLoop(s.cfg, Enqueue(s.q, tag, at, false), times).0)
  {
    hide Inv, Enqueue, Notes, SelectLoop, Queues, Depth;
    EnqueueNotes(s, tag, at, false, now);
    ShapedFromInv(s, now);
    hide Shaped;
    SelectLoopNotes(s.cfg, Enqueue(s.q, tag, at, false), times);
  }

  lemma SubmitNotes(y: Sys, a: Action)
    requires SysInv(y) && Enabled(y, a) && (a.SubmitA? || a.SubmitS?) && Shaped(y.s.q) && Notes(y.s.q)
    ensures Notes(Next(y, a).s.q)
  {
    hide SysInv, Inv, Enqueue, Notes, SelectLoop, Next, Shaped, Depth, Enabled;
    InvOf(y);
    SubmitQueue(y, a);
    if Next(y, a).s.q != y.s.q {
      if a.SubmitA? {
        EnqueueNotes(y.s, a.tag, y.now, true, y.now);
      } else {
        BlockingNotes(y.s, a.tag, a.queuedAt, a.times[1..], y.now);
      }
    }
  }

  lemma CancelNotes(q: Queue, moduleId: string)
    requires Shaped(q) && Notes(q)
    ensures Notes(CancelModule(q, moduleId))
  {
    hide Notes, Sweep, Advanced, Shaped;
    SweepFrame(q, LANES, OfModule(moduleId));
    AdvancedTags(q.table, Sweep(q, LANES, OfModule(moduleId)).table, Cancelled);
    NotesTable(q, Sweep(q, LANES, OfModule(moduleId)));
  }

  lemma ReleaseNotes(s: Sched, id: nat, ok: bool, doneAt: nat, times: seq<nat>)
    requires Shaped(s.q) && Queues(s.q.lanes, s.q.table) && Notes(s.q) && times != []
    requires id < |s.q.table| && s.q.table[id].stage == InFlight
    ensures Notes(ReleaseSync(s, id, ok, doneAt, times).q)
  {
    hide Notes, Queues, SelectLoop, Retire, RecordEnd;
    RetireNotes(s.q, id, doneAt);
    RetireQueues(s.q, id, doneAt);
    SelectLoopNotes(s.cfg, Retire(s.q, id, doneAt), times[1..]);
  }

  lemma OtherNotes(y: Sys, a: Action)
    requires Queues(y.s.q.lanes, y.s.q.table) && Enabled(y, a) && Shaped(y.s.q) && Notes(y.s.q) && !a.SubmitA? && !a.SubmitS?
    ensures Notes(Next(y, a).s.q)
  {
    hide Queues, Notes, SelectLoop, CancelModule, Retire, ReleaseSync, Sorted, RecordEnd;
    match a
    case Select(times) => SelectLoopNotes(y.s.cfg, y.s.q, times[1..]);
    case CompleteA(id, ok) => RetireNotes(y.s.q, id, y.now);
    case ReleaseS(id, ok, doneAt, times) => ReleaseNotes(y.s, id, ok, doneAt, times);
    case Cancel(moduleId) => CancelNotes(y.s.q, moduleId);
    case _ =>
  }

  lemma StepNotes(y: Sys, a: Action)
    requires SysInv(y) && Enabled(y, a) && Shaped(y.s.q) && Notes(y.s.q)
    ensures Notes(Next(y, a).s.q)
  {
    hide SysInv, Queues, Notes, Next, Enabled, Inv;
    if a.SubmitA? || a.SubmitS? {
      SubmitNotes(y, a);
    } else {
      InvOf(y);
      QueuesOf(y.s, y.now);
      OtherNotes(y, a);
    }
  }

  lemma QueuesOf(s: Sched, now: nat)
    requires Inv(s, now)
    ensures Queues(s.q.lanes, s.q.table)
  {
    hide Queues, Accounts, History, ModeInv, Bounds;
  }

  lemma {:induction false} RunNotes(y: Sys, acts: seq<Action>)
    requires SysInv(y) && Run(y, acts) && Notes(y.s.q)
    ensures Notes(Exec(y, acts).s.q)
    decreases |acts|
  {
    hide SysInv, Next, Enabled, Notes;
    if acts != [] {
      StepInv(y, acts[0]);
      StepNotes(y, acts[0]);
      RunNotes(Next(y, acts[0]), acts[1..]);
    }
  }

  /** In every run the module noted for a lane is that of the latest selection from it, and the noted completion is the latest. */
  lemma NotesAreHistory(c: Config, hook: bool, t0: nat, acts: seq<Action>)
    requires t0 > 0 && Run(Start(c, hook, t0), acts)
    ensures var q := Exec(Start(c, hook, t0), acts).s.q;
      && |q.last| == LANES
      && (forall p :: 0 <= p < LANES ==> q.last[p] == LastModule(q.trace, q.table, p))
      && q.lastCompleteAt == LastDone(q.trace)
  {
    StartInv(c, hook, t0);
    assert Notes(Start(c, hook, t0).s.q);
    hide Run, Exec, SysInv;
    RunNotes(Start(c, hook, t0), acts);
  }

  // ---------------------------------------------------------------- when

  /** The gap after the latest completion is still running. */
  ghost predicate InGap(c: Config, hook: bool, trace: seq<Event>, now: nat)
  {
    hook && c.gapMs > 0 && LastDone(trace) > 0 && now < LastDone(trace) + c.gapMs * NS_PER_MS
  }

  /**
   In every run, what a selection step of the pump does: after a stop nothing; within the
   configured gap after the latest completion nothing, except that it asks for one timer
   if something is queued and none is pending, for the first whole millisecond past the
   gap; and otherwise it selects until the slots are full or the lanes are empty, and asks
   for no timer.
   */
  lemma SelectExact(c: Config, hook: bool, t0: nat, acts: seq<Action>, times: seq<nat>)
    requires t0 > 0 && Run(Start(c, hook, t0), acts) && Enabled(Exec(Start(c, hook, t0), acts), Select(times))
    ensures var y := Exec(Start(c, hook, t0), acts);
      && Shaped(y.s.q)
      && var z := Next(y, Select(times));
         && z.phase.AtRun? && Shaped(z.s.q)
         && if y.s.pump.stopped then z.s == y.s && z.phase == AtRun([], 0)
            else if InGap(c, hook, y.s.q.trace, times[0]) then
              var left := LastDone(y.s.q.trace) + c.gapMs * NS_PER_MS - times[0];
              var asks := !y.s.pump.delayScheduled && Depth(y.s.q.lanes) > 0;
              && z.s == y.s.(pump := y.s.pump.(delayScheduled := y.s.pump.delayScheduled || asks))
              && z.phase.toRun == []
              && (if asks then (z.phase.delayMs - 1) * NS_PER_MS <= left < z.phase.delayMs * NS_PER_MS else z.phase.delayMs == 0)
            else
              && z.phase.delayMs == 0 && z.s.pump == y.s.pump && z.s.b == y.s.b
              && z.s.q.inflight == y.s.q.inflight + |z.phase.toRun|
              && (z.s.q.inflight >= AtLeast(c.maxInflight, 1) || Depth(z.s.q.lanes) == 0)
  {
    var y := Exec(Start(c, hook, t0), acts);
    ReachedInv(c, hook, t0, acts);
    ReachedConfig(c, hook, t0, acts);
    NotesAreHistory(c, hook, t0, acts);
    assert Inv(y.s, y.now) by { InvOf(y); }
    ShapedFromInv(y.s, y.now);
    QueuesOf(y.s, y.now);
    hide Run, Exec, SysInv, LastDone, LastModule;
    assert y.s.mode == AsyncMode by { SelectMode(y); }
    FillStep(y, times);
    hide Inv, Queues, SelectLoop, Shaped;
  }

  lemma SelectMode(y: Sys)
    requires SysInv(y) && y.phase == AtSelect
    ensures y.s.mode == AsyncMode
  {
    hide Inv, NoStall, LaunchInv, PumpInv;
  }

  lemma FillStep(y: Sys, times: seq<nat>)
    requires Inv(y.s, y.now) && y.s.mode == AsyncMode && Enabled(y, Select(times)) && Shaped(y.s.q)
    ensures !y.s.pump.stopped && !GapHolds(y.s.cfg, y.s.hook, y.s.q, times[0]) ==>
      var (t, run) := SelectLoop(y.s.cfg, y.s.q, times[1..]);
      t.inflight == y.s.q.inflight + |run| && (t.inflight >= y.s.cfg.maxInflight || Depth(t.lanes) == 0)
  {
    hide Queues, Accounts, History, ModeInv, SelectLoop, Bounds;
    if !y.s.pump.stopped && !GapHolds(y.s.cfg, y.s.hook, y.s.q, times[0]) {
      TailSorted(times, y.now);
      SelectLoopInv(y.s.cfg, y.s.q, times[1..], times[0], y.s.b.completed + y.s.b.failed, EnforcedGap(y.s.cfg, y.s.hook, y.s.mode));
      SelectLoopFrame(y.s.cfg, y.s.q, times[1..]);
    }
  }
}
