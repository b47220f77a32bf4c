/**
 The scheduler object itself: the locked sections as methods that update its
 fields in place, each proved to do what the model function of the same name says.
 */
module SerialScheduler {
  import opened SchedulerModel
  import opened SchedulerInvariant
  import opened SchedulerPreservation

  lemma {:induction false} KeepConcat(a: seq<nat>, b: seq<nat>, table: seq<Rec>, v: Victims)
    requires Indices(a, |table|) && Indices(b, |table|)
    ensures Indices(a + b, |table|) && Keep(a + b, table, v) == Keep(a, table, v) + Keep(b, table, v)
    decreases |a|
  {
    hide Hit;
    if a == [] {
      assert a + b == b && Keep(a, table, v) == [];
    } else {
      hide Keep;
      assert (a + b)[0] == a[0] && (a + b)[1..] == a[1..] + b;
      KeepHead(a, table, v);
      KeepHead(a + b, table, v);
      KeepConcat(a[1..], b, table, v);
    }
  }

  lemma KeepSnoc(lane: seq<nat>, table: seq<Rec>, v: Victims, i: nat)
    requires Indices(lane, |table|) && i < |lane|
    ensures Keep(lane[..i + 1], table, v)
         == Keep(lane[..i], table, v) + (if Hit(table[lane[i]], v) then [] else [lane[i]])
  {
    assert Keep([], table, v) == [];
    hide Hit, Keep;
    var one := [lane[i]];
    assert lane[..i + 1] == lane[..i] + one && one[1..] == [];
    KeepConcat(lane[..i], one, table, v);
    KeepHead(one, table, v);
  }

  lemma KeepHead(lane: seq<nat>, table: seq<Rec>, v: Victims)
    requires Indices(lane, |table|) && lane != []
    ensures Keep(lane, table, v) == (if Hit(table[lane[0]], v) then [] else [lane[0]]) + Keep(lane[1..], table, v)
  {
    hide Hit;
  }

  lemma MarkNone(table: seq<Rec>, v: Victims)
    ensures Mark(table, [], v) == table
    ensures Keep([], table, v) == []
  {
  }

  lemma MarkSnoc(lane: seq<nat>, table: seq<Rec>, v: Victims, i: nat)
    requires Indices(lane, |table|) && Ascending(lane) && i < |lane|
    ensures var m, x := Mark(table, lane[..i], v), lane[i];
      && m[x] == table[x]
      && Mark(table, lane[..i + 1], v) == if Hit(table[x], v) then m[x := table[x].(stage := Cancelled)] else m
  {
    assert lane[..i + 1] == lane[..i] + [lane[i]];
    assert lane[i] !in lane[..i];
  }

  /** Erase the requests of a lane that have been marked. */
  method EraseCancelled(lane: seq<nat>, marked: seq<Rec>, ghost table: seq<Rec>, ghost v: Victims, ghost p: nat)
    returns (kept: seq<nat>)
    requires LaneOk(lane, table, p) && marked == Mark(table, lane, v)
    ensures kept == Keep(lane, table, v)
  {
    kept := [];
    var i := 0;
    while i < |lane|
      invariant 0 <= i <= |lane| && kept == Keep(lane[..i], table, v)
    {
      KeepSnoc(lane, table, v, i);
      assert lane[i] in lane;
      if marked[lane[i]].stage != Cancelled { kept := kept + [lane[i]]; }
      i := i + 1;
    }
    assert lane[..|lane|] == lane;
  }

  /** One turn of the selection loop, at reading `k`. */
  lemma SelectLoopTurn(c: Config, q: Queue, times: seq<nat>, k: nat)
    requires Shaped(q) && k <= |times|
    ensures var r := SelectLoop(c, q, times[k..]);
      if k == |times| || q.inflight >= c.maxInflight || PickLane(c, q, times[k]) < 0 then r == (q, [])
      else
        var p := PickLane(c, q, times[k]);
        var next := SelectLoop(c, SelectOne(c, q, p, times[k]), times[k + 1..]);
        r.0 == next.0 && r.1 == [PickId(c, q, p)] + next.1
  {
    if k < |times| { assert times[k..][1..] == times[k + 1..]; }
  }

  lemma SelectOneCounts(c: Config, q: Queue, p: nat, now: nat)
    requires Shaped(q) && p < LANES && q.lanes[p] != []
    ensures SelectOne(c, q, p, now).inflight == q.inflight + 1
  {
  }

  class SchedulerImpl {
    const cfg: Config
    var hook: bool
    var mode: Mode
    var lanes: seq<seq<nat>>
    var lastServedModule: seq<string>
    var table: seq<Rec>
    var inflightCount: nat
    var totalSubmitted: nat
    var totalCancelled: nat
    var lastCompleteAt: nat
    var circuitState: Circuit
    var errorStreak: nat
    var circuitOpenedAt: nat
    var totalCompleted: nat
    var totalFailed: nat
    var delayScheduled: bool
    var pumping: bool
    var repump: bool
    var stopped: bool
    ghost var probe: bool
    ghost var trace: seq<Event>

    ghost function QueueView(): Queue
      reads this
    {
      Queue(lanes, lastServedModule, table, inflightCount, totalSubmitted, totalCancelled, lastCompleteAt, trace)
    }

    ghost function BreakerView(): Breaker
      reads this
    {
      Breaker(circuitState, errorStreak, circuitOpenedAt, totalCompleted, totalFailed, probe)
    }

    ghost function PumpView(): Pump
      reads this
    {
      Pump(delayScheduled, pumping, repump, stopped)
    }

    ghost function View(): Sched
      reads this
    {
      Sched(cfg, hook, mode, QueueView(), BreakerView(), PumpView())
    }

    ghost predicate Valid()
      reads this
    {
      Shaped(QueueView()) && Queues(lanes, table)
    }

    constructor (c: Config, withHook: bool)
      ensures Valid() && View() == Initial(c, withHook)
    {
      cfg := Normalize(c);
      hook, mode := withHook, Unset;
      lanes, lastServedModule, table := [[], [], [], []], ["", "", "", ""], [];
      inflightCount, totalSubmitted, totalCancelled, lastCompleteAt := 0, 0, 0, 0;
      circuitState, errorStreak, circuitOpenedAt, totalCompleted, totalFailed := Closed, 0, 0, 0, 0;
      delayScheduled, pumping, repump, stopped := false, false, false, false;
      probe, trace := false, [];
    }

    // -------------------------------------------------------------- circuit breaker

    method UpdateCircuitLocked(now: nat)
      modifies this`circuitState, this`probe
      ensures BreakerView() == UpdateCircuit(cfg, old(BreakerView()), now)
    {
      if circuitState == Open {
        var elapsed := now - circuitOpenedAt;
        if elapsed >= cfg.openMs * NS_PER_MS {
          circuitState, probe := HalfOpen, false;
        }
      }
    }

    method RecordFailureLocked(now: nat)
      modifies this`circuitState, this`errorStreak, this`circuitOpenedAt, this`totalFailed, this`probe
      ensures BreakerView() == RecordFailure(cfg, old(BreakerView()), now)
    {
      errorStreak := errorStreak + 1;
      totalFailed := totalFailed + 1;
      if cfg.threshold > 0 && errorStreak >= cfg.threshold {
        circuitState, circuitOpenedAt, probe := Open, now, false;
      }
    }

    method RecordSuccessLocked()
      modifies this`circuitState, this`errorStreak, this`totalCompleted, this`probe
      ensures BreakerView() == RecordSuccess(old(BreakerView()))
    {
      errorStreak := 0;
      totalCompleted := totalCompleted + 1;
      if circuitState == HalfOpen {
        circuitState, probe := Closed, false;
      }
    }

    // -------------------------------------------------------------- selection

    method TotalQueueDepthLocked() returns (n: nat)
      requires Valid()
      ensures n == Depth(lanes)
    {
      n := 0;
      var p := 0;
      while p < LANES
        invariant 0 <= p <= LANES
        invariant n == (if p > 0 then |lanes[0]| else 0) + (if p > 1 then |lanes[1]| else 0)
                     + (if p > 2 then |lanes[2]| else 0) + (if p > 3 then |lanes[3]| else 0)
      {
        n := n + |lanes[p]|;
        p := p + 1;
      }
    }

    method StarvedLaneLocked(now: nat) returns (picked: int)
      requires Valid()
      ensures picked == Starved(cfg, QueueView(), now)
    {
      if cfg.guardMs <= 0 { return -1; }
      var p := 0;
      while p < LANES
        invariant 0 <= p <= LANES
        invariant StarvedFrom(cfg, QueueView(), now, 0) == StarvedFrom(cfg, QueueView(), now, p)
      {
        if lanes[p] != [] {
          var oldest := table[lanes[p][0]].queuedAt;
          if now - oldest >= cfg.guardMs * NS_PER_MS { return p; }
        }
        p := p + 1;
      }
      return -1;
    }

    method PickLaneLocked(now: nat) returns (picked: int)
      requires Valid()
      ensures picked == PickLane(cfg, QueueView(), now)
    {
      picked := StarvedLaneLocked(now);
      if picked < 0 {
        var p := LANES;
        while p > 0 && lanes[p - 1] == []
          invariant 0 <= p <= LANES
          invariant HighestBelow(QueueView(), LANES) == HighestBelow(QueueView(), p)
        {
          p := p - 1;
        }
        picked := p - 1;
      }
    }

    method PickIndexLocked(p: nat) returns (i: nat)
      requires Valid() && p < LANES && lanes[p] != []
      ensures i == PickIndex(cfg, lanes[p], table, lastServedModule[p])
    {
      i := 0;
      var lane, last := lanes[p], lastServedModule[p];
      if !cfg.fifo && |lane| > 1 && last != "" {
        var k := 0;
        while k < |lane| && table[lane[k]].tag.moduleId == last
          invariant 0 <= k <= |lane|
          invariant FirstOther(lane, table, last) == k + FirstOther(lane[k..], table, last)
        {
          assert lane[k..][1..] == lane[k + 1..];
          k := k + 1;
        }
        if k < |lane| { i := k; }
      }
    }

    /** One turn of the selection loop: take the next request out of lane `p`. */
    method SelectOneLocked(p: nat, now: nat) returns (id: nat)
      requires Valid() && p < LANES && lanes[p] != []
      modifies this`lanes, this`lastServedModule, this`table, this`inflightCount, this`trace
      ensures Valid()
      ensures id == PickId(cfg, old(QueueView()), p)
      ensures QueueView() == SelectOne(cfg, old(QueueView()), p, now)
    {
      var i := PickIndexLocked(p);
      var lane := lanes[p];
      SelectOneQueues(cfg, QueueView(), p, now);
      hide Queues;
      id := lane[i];
      lanes := lanes[p := lane[..i] + lane[i + 1..]];
      lastServedModule := lastServedModule[p := table[id].tag.moduleId];
      table := table[id := table[id].(stage := InFlight)];
      inflightCount := inflightCount + 1;
      trace := trace + [Picked(id, now)];
    }

    /** The selection loop of both pumps, up to the wake-up of the selected callers. */
    method SelectLocked(times: seq<nat>) returns (toRun: seq<nat>)
      requires Valid() && Normal(cfg) && |times| >= cfg.maxInflight
      modifies this`lanes, this`lastServedModule, this`table, this`inflightCount, this`trace
      ensures Valid()
      ensures QueueView() == SelectLoop(cfg, old(QueueView()), times).0
      ensures toRun == SelectLoop(cfg, old(QueueView()), times).1
    {
      hide Queues, SelectLoop, SelectOne, PickId, PickLane;
      toRun := [];
      ghost var q0 := QueueView();
      var k := 0;
      while inflightCount < cfg.maxInflight
        invariant Valid() && k == inflightCount - old(inflightCount) && k <= |times|
        invariant SelectLoop(cfg, q0, times).0 == SelectLoop(cfg, QueueView(), times[k..]).0
        invariant SelectLoop(cfg, q0, times).1 == toRun + SelectLoop(cfg, QueueView(), times[k..]).1
        decreases cfg.maxInflight - inflightCount
      {
        ghost var q := QueueView();
        SelectLoopTurn(cfg, q, times, k);
        var picked := PickLaneLocked(times[k]);
        if picked < 0 { break; }
        SelectOneCounts(cfg, q, picked, times[k]);
        var id := SelectOneLocked(picked, times[k]);
        toRun := toRun + [id];
        k := k + 1;
      }
      SelectLoopTurn(cfg, QueueView(), times, k);
    }

    method SelectAsyncLocked(times: seq<nat>) returns (r: PumpResult)
      requires Valid() && Normal(cfg) && |times| > cfg.maxInflight
      modifies this`lanes, this`lastServedModule, this`table, this`inflightCount, this`trace, this`delayScheduled
      ensures Valid()
      ensures (View(), r) == SelectAsync(old(View()), times)
    {
      hide Queues, SelectLoop, Indices;
      if stopped { return PumpResult([], 0); }
      if hook && cfg.gapMs > 0 && lastCompleteAt > 0 {
        var elapsed := times[0] - lastCompleteAt;
        var gap := cfg.gapMs * NS_PER_MS;
        if elapsed < gap {
          var depth := TotalQueueDepthLocked();
          if !delayScheduled && depth > 0 {
            delayScheduled := true;
            return PumpResult([], (gap - elapsed) / NS_PER_MS + 1);
          }
          return PumpResult([], 0);
        }
      }
      var toRun := SelectLocked(times[1..]);
      r := PumpResult(toRun, 0);
    }

    // -------------------------------------------------------------- cancelling queued work

    /** Mark one request of a lane if it is a victim. */
    method MarkOneLocked(lane: seq<nat>, i: nat, v: Victims, ghost tab: seq<Rec>) returns (hit: bool)
      requires Indices(lane, |tab|) && Ascending(lane) && i < |lane| && table == Mark(tab, lane[..i], v)
      modifies this`table, this`totalCancelled
      ensures table == Mark(tab, lane[..i + 1], v)
      ensures |Keep(lane[..i + 1], tab, v)| == |Keep(lane[..i], tab, v)| + (if hit then 0 else 1)
      ensures totalCancelled == old(totalCancelled) + (if hit then 1 else 0)
    {
      hide Mark, Keep, Ascending;
      KeepSnoc(lane, tab, v, i);
      MarkSnoc(lane, tab, v, i);
      var x := lane[i];
      var r := table[x];
      hit := r.stage == Waiting && !r.isAsync && (v.Interruptables? ==> r.tag.interruptable)
             && (v.OfModule? ==> r.tag.moduleId == v.moduleId);
      if hit {
        table := table[x := table[x].(stage := Cancelled)];
        totalCancelled := totalCancelled + 1;
      }
    }

    /** Mark the victims of one lane. */
    method MarkLocked(lane: seq<nat>, v: Victims) returns (n: nat)
      requires Indices(lane, |table|) && Ascending(lane)
      modifies this`table, this`totalCancelled
      ensures table == Mark(old(table), lane, v)
      ensures n == |lane| - |Keep(lane, old(table), v)| && totalCancelled == old(totalCancelled) + n
    {
      n := 0;
      ghost var tab := table;
      hide Mark, Keep, Hit, Ascending;
      MarkNone(tab, v);
      var i := 0;
      while i < |lane|
        invariant 0 <= i <= |lane|
        invariant table == Mark(tab, lane[..i], v)
        invariant n + |Keep(lane[..i], tab, v)| == i && totalCancelled == old(totalCancelled) + n
      {
        var hit := MarkOneLocked(lane, i, v, tab);
        if hit { n := n + 1; }
        i := i + 1;
      }
      assert lane[..|lane|] == lane;
    }

    /** Mark the victims of one lane, then erase the marked ones from it. */
    method SweepLaneLocked(p: nat, v: Victims) returns (n: nat)
      requires Valid() && p < LANES
      modifies this`lanes, this`table, this`totalCancelled
      ensures Valid()
      ensures QueueView() == SweepLane(old(QueueView()), p, v)
      ensures n == totalCancelled - old(totalCancelled)
    {
      var lane := lanes[p];
      ghost var tab, q := table, QueueView();
      assert LaneOk(lane, tab, p);
      SweepLaneQueues(q, p, v);
      hide Queues, Mark, Keep;
      n := MarkLocked(lane, v);
      var kept := EraseCancelled(lane, table, tab, v, p);
      lanes := lanes[p := kept];
    }

    method SweepLocked(upTo: nat, v: Victims) returns (n: nat)
      requires Valid() && upTo <= LANES
      modifies this`lanes, this`table, this`totalCancelled
      ensures Valid()
      ensures QueueView() == Sweep(old(QueueView()), upTo, v)
      ensures n == totalCancelled - old(totalCancelled)
    {
      hide Queues, SweepLane;
      n := 0;
      var p := 0;
      while p < upTo
        invariant 0 <= p <= upTo && Valid()
        invariant QueueView() == Sweep(old(QueueView()), p, v)
        invariant totalCancelled == old(totalCancelled) + n
      {
        var m := SweepLaneLocked(p, v);
        n := n + m;
        p := p + 1;
      }
    }

    method CancelModuleLocked(moduleId: string) returns (n: nat)
      requires Valid()
      modifies this`lanes, this`table, this`totalCancelled
      ensures Valid()
      ensures QueueView() == CancelModule(old(QueueView()), moduleId)
      ensures n == totalCancelled - old(totalCancelled)
    {
      n := SweepLocked(LANES, OfModule(moduleId));
    }

    // -------------------------------------------------------------- admission

    method AdmissionLocked() returns (v: Verdict)
      requires Valid()
      ensures v == Admission(cfg, QueueView(), BreakerView())
    {
      if circuitState == Open { return CircuitOpen; }
      var depth := TotalQueueDepthLocked();
      if circuitState == HalfOpen && (inflightCount > 0 || depth > 0) { return ProbeBusy; }
      if depth + inflightCount >= cfg.maxQueueDepth { return QueueFull; }
      return Accepted;
    }

    method EnqueueLocked(tag: Tag, queuedAt: nat, isAsync: bool)
      requires Valid() && 0 <= tag.priority < LANES
      modifies this`lanes, this`table, this`totalSubmitted, this`totalCancelled, this`probe
      ensures Valid()
      ensures QueueView() == Enqueue(old(QueueView()), tag, queuedAt, isAsync)
      ensures probe == (old(probe) || circuitState == HalfOpen)
    {
      PushQueues(QueueView(), tag, queuedAt, isAsync);
      ghost var u := Push(QueueView(), tag, queuedAt, isAsync);
      hide Queues, Sweep;
      lanes := lanes[tag.priority := lanes[tag.priority] + [|table|]];
      table := table + [Rec(tag, queuedAt, isAsync, Waiting)];
      totalSubmitted := totalSubmitted + 1;
      probe := probe || circuitState == HalfOpen;
      assert QueueView() == u;
      var preempted := SweepLocked(tag.priority, Interruptables);
    }

    method SubmitAsyncLocked(tag: Tag, now: nat) returns (v: Verdict)
      requires Valid()
      modifies this
      ensures Valid()
      ensures (View(), v) == SubmitAsync(old(View()), tag, now)
    {
      if tag.priority < 0 || tag.priority >= LANES { return BadPriority; }
      if stopped { return Stopped; }
      if mode == SyncMode { return WrongMode; }
      mode := AsyncMode;
      UpdateCircuitLocked(now);
      v := AdmissionLocked();
      if v == Accepted {
        EnqueueLocked(tag, now, true);
      }
    }

    method EnqueueAndSelectLocked(tag: Tag, queuedAt: nat, times: seq<nat>)
      requires Valid() && Normal(cfg) && 0 <= tag.priority < LANES && |times| >= cfg.maxInflight
      modifies this`lanes, this`lastServedModule, this`table, this`inflightCount, this`trace
      modifies this`totalSubmitted, this`totalCancelled, this`probe
      ensures Valid()
      ensures QueueView() == SelectLoop(cfg, Enqueue(old(QueueView()), tag, queuedAt, false), times).0
      ensures probe == (old(probe) || circuitState == HalfOpen)
    {
      hide Queues, Enqueue, SelectLoop;
      EnqueueLocked(tag, queuedAt, false);
      var woken := SelectLocked(times);
    }

    /** Up to the wait of the blocking submit. */
    method SubmitSyncLocked(tag: Tag, queuedAt: nat, times: seq<nat>) returns (v: Verdict)
      requires Valid() && Normal(cfg) && |times| > cfg.maxInflight
      modifies this
      ensures Valid()
      ensures View() == SubmitSync(old(View()), tag, queuedAt, times).0
      ensures v == SubmitSync(old(View()), tag, queuedAt, times).1
    {
      if tag.priority < 0 || tag.priority >= LANES { return BadPriority; }
      hide Queues, Enqueue, SelectLoop, UpdateCircuit, Admission, Shaped;
      if mode == AsyncMode { return WrongMode; }
      mode := SyncMode;
      UpdateCircuitLocked(times[0]);
      v := AdmissionLocked();
      if v == Accepted {
        EnqueueAndSelectLocked(tag, queuedAt, times[1..]);
      }
    }

    // -------------------------------------------------------------- completion

    method RetireLocked(id: nat, now: nat)
      requires Valid() && id < |table| && table[id].stage == InFlight
      modifies this`table, this`inflightCount, this`lastCompleteAt, this`trace
      ensures Valid()
      ensures QueueView() == Retire(old(QueueView()), id, now)
    {
      RetireQueues(QueueView(), id, now);
      hide Queues;
      table := table[id := table[id].(stage := Finished)];
      if inflightCount > 0 { inflightCount := inflightCount - 1; }
      lastCompleteAt := now;
      trace := trace + [Completion(id, now)];
    }

    method RecordEndLocked(ok: bool, now: nat)
      modifies this`circuitState, this`errorStreak, this`circuitOpenedAt, this`totalCompleted, this`totalFailed, this`probe
      ensures BreakerView() == RecordEnd(cfg, old(BreakerView()), ok, now)
    {
      if ok { RecordSuccessLocked(); } else { RecordFailureLocked(now); }
    }

    /** Tells whether this was the first completion, after which the caller pumps. */
    method CompleteAsyncLocked(id: nat, ok: bool, now: nat) returns (first: bool)
      requires Valid() && id < |table| && table[id].stage in {InFlight, Finished}
      modifies this
      ensures Valid()
      ensures (View(), first) == CompleteAsync(old(View()), id, ok, now)
    {
      hide Queues, RecordEnd;
      if table[id].stage == Finished { return false; }
      RetireLocked(id, now);
      RecordEndLocked(ok, now);
      return true;
    }

    method ReleaseSyncLocked(id: nat, ok: bool, doneAt: nat, times: seq<nat>)
      requires Valid() && Normal(cfg) && id < |table| && table[id].stage == InFlight && |times| > cfg.maxInflight
      modifies this
      ensures Valid()
      ensures View() == ReleaseSync(old(View()), id, ok, doneAt, times)
    {
      hide Queues, RecordEnd, SelectLoop;
      RetireLocked(id, doneAt);
      RecordEndLocked(ok, times[0]);
      var woken := SelectLocked(times[1..]);
    }

    // -------------------------------------------------------------- pump trampoline

    method PumpEnterLocked(fromTimer: bool) returns (entered: bool)
      modifies this`delayScheduled, this`pumping, this`repump
      ensures (PumpView(), entered) == PumpEnter(old(PumpView()), fromTimer)
    {
      if fromTimer { delayScheduled := false; }
      if pumping { repump := true; return false; }
      pumping := true;
      return true;
    }

    method PumpFinishLocked() returns (again: bool)
      modifies this`pumping, this`repump
      ensures (PumpView(), again) == PumpFinish(old(PumpView()))
    {
      if !repump { pumping := false; return false; }
      repump := false;
      return true;
    }

    method StopAsync()
      modifies this`stopped
      ensures View() == old(View()).(pump := old(PumpView()).(stopped := true))
    {
      stopped := true;
    }
  }
}
