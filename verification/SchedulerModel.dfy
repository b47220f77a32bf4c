/**
 The locked state of the request scheduler as a value, and every locked section
 of the scheduler as a function from state to state.

 A pending request is a row of `table`, named by its index; the lanes hold such
 indices. Time is in nanoseconds, as the steady clock counts it.
 */
module SchedulerModel {

  const LANES: nat := 4
  const NS_PER_MS: nat := 1_000_000

  // The scheduler flavours of makeScheduler.
  datatype Flavour = Serial | Credit | Priority

  datatype Config = Config(
    gapMs: int,
    maxQueueDepth: int,
    maxInflight: int,
    guardMs: int,
    fifo: bool,
    threshold: int,
    openMs: int)

  datatype Tag = Tag(moduleId: string, priority: int, interruptable: bool)

  // Queued; selected and not yet completed; selected and completed; cancelled.
  datatype Stage = Waiting | InFlight | Finished | Cancelled

  datatype Rec = Rec(tag: Tag, queuedAt: nat, isAsync: bool, stage: Stage)

  // What happened, in order: the history that the timing laws speak about.
  datatype Event = Picked(id: nat, at: nat) | Completion(id: nat, at: nat)

  // The lanes, the requests and their counters.
  datatype Queue = Queue(
    lanes: seq<seq<nat>>,
    last: seq<string>,
    table: seq<Rec>,
    inflight: nat,
    submitted: nat,
    cancelled: nat,
    lastCompleteAt: nat,
    trace: seq<Event>)    // history: selections and completions so far

  datatype Circuit = Closed | Open | HalfOpen

  datatype Breaker = Breaker(
    circuit: Circuit,
    streak: nat,
    openedAt: nat,
    completed: nat,
    failed: nat,
    probe: bool)          // history: a request was admitted while half-open

  datatype Pump = Pump(delayScheduled: bool, pumping: bool, repump: bool, stopped: bool)

  // A scheduler serves either blocking or event-driven callers, never both.
  datatype Mode = Unset | SyncMode | AsyncMode

  datatype Sched = Sched(cfg: Config, hook: bool, mode: Mode, q: Queue, b: Breaker, pump: Pump)

  datatype Verdict = Accepted | Stopped | WrongMode | CircuitOpen | ProbeBusy | QueueFull | BadPriority

  // ---------------------------------------------------------------- set-up

  /** Effective limits of a flavour: only the priority flavour has a starvation guard. */
  function MakeScheduler(kind: Flavour, c: Config): Config
  {
    match kind
    case Serial => c.(maxInflight := 1, guardMs := 0)
    case Credit => c.(maxInflight := if c.maxInflight < 1 then 1 else c.maxInflight, guardMs := 0)
    case Priority => c.(maxInflight := if c.maxInflight < 1 then 1 else c.maxInflight,
                        guardMs := if c.guardMs <= 0 then 5000 else c.guardMs)
  }

  /** The clamps of the scheduler's constructor. */
  function Normalize(c: Config): Config
  {
    c.(maxInflight := if c.maxInflight < 1 then 1 else c.maxInflight,
       maxQueueDepth := if c.maxQueueDepth < 1 then 1 else c.maxQueueDepth,
       gapMs := if c.gapMs < 0 then 0 else c.gapMs,
       openMs := if c.openMs < 0 then 0 else c.openMs)
  }

  predicate Normal(c: Config)
  {
    c.maxInflight >= 1 && c.maxQueueDepth >= 1 && c.gapMs >= 0 && c.openMs >= 0
  }

  function Initial(c: Config, hook: bool): Sched
  {
    Sched(Normalize(c), hook, Unset,
          Queue([[], [], [], []], ["", "", "", ""], [], 0, 0, 0, 0, []),
          Breaker(Closed, 0, 0, 0, 0, false),
          Pump(false, false, false, false))
  }

  // ---------------------------------------------------------------- shape

  predicate Indices(lane: seq<nat>, n: nat)
  {
    forall j :: 0 <= j < |lane| ==> lane[j] < n
  }

  /** Four lanes of indices into the table. */
  predicate Shaped(q: Queue)
  {
    && |q.lanes| == LANES
    && |q.last| == LANES
    && forall p :: 0 <= p < LANES ==> Indices(q.lanes[p], |q.table|)
  }

  function Depth(lanes: seq<seq<nat>>): nat
    requires |lanes| == LANES
  {
    |lanes[0]| + |lanes[1]| + |lanes[2]| + |lanes[3]|
  }

  // ---------------------------------------------------------------- circuit breaker

  function UpdateCircuit(c: Config, b: Breaker, now: nat): Breaker
  {
    if b.circuit == Open && now - b.openedAt >= c.openMs * NS_PER_MS
    then b.(circuit := HalfOpen, probe := false)
    else b
  }

  function RecordFailure(c: Config, b: Breaker, now: nat): Breaker
  {
    var t := b.(streak := b.streak + 1, failed := b.failed + 1);
    if c.threshold > 0 && t.streak >= c.threshold
    then t.(circuit := Open, openedAt := now, probe := false)
    else t
  }

  function RecordSuccess(b: Breaker): Breaker
  {
    var t := b.(streak := 0, completed := b.completed + 1);
    if t.circuit == HalfOpen then t.(circuit := Closed, probe := false) else t
  }

  function RecordEnd(c: Config, b: Breaker, ok: bool, now: nat): Breaker
  {
    if ok then RecordSuccess(b) else RecordFailure(c, b, now)
  }

  // ---------------------------------------------------------------- selection

  /** Has the front of lane `p` waited the guard time? */
  predicate FrontStarved(c: Config, q: Queue, now: nat, p: nat)
    requires Shaped(q) && p < LANES
  {
    q.lanes[p] != [] && now - q.table[q.lanes[p][0]].queuedAt >= c.guardMs * NS_PER_MS
  }

  /** The lowest starved lane from `p` upwards, or -1. */
  function StarvedFrom(c: Config, q: Queue, now: nat, p: nat): (r: int)
    requires Shaped(q) && p <= LANES
    ensures r == -1 || p <= r < LANES
    ensures r >= 0 ==> FrontStarved(c, q, now, r)
    ensures forall k :: p <= k < (if r < 0 then LANES else r) ==> !FrontStarved(c, q, now, k)
    decreases LANES - p
  {
    if p == LANES then -1
    else if FrontStarved(c, q, now, p) then p
    else StarvedFrom(c, q, now, p + 1)
  }

  function Starved(c: Config, q: Queue, now: nat): int
    requires Shaped(q)
  {
    if c.guardMs <= 0 then -1 else StarvedFrom(c, q, now, 0)
  }

  /** The highest non-empty lane below `p`, or -1. */
  function HighestBelow(q: Queue, p: nat): (r: int)
    requires Shaped(q) && p <= LANES
    ensures -1 <= r < p
    ensures r >= 0 ==> q.lanes[r] != []
    ensures forall k :: r < k < p ==> q.lanes[k] == []
  {
    if p == 0 then -1
    else if q.lanes[p - 1] != [] then p - 1
    else HighestBelow(q, p - 1)
  }

  /** The lane served next: a starved lane first, else the highest priority, or -1. */
  function PickLane(c: Config, q: Queue, now: nat): (r: int)
    requires Shaped(q)
    ensures -1 <= r < LANES
    ensures r >= 0 ==> q.lanes[r] != []
    ensures r == -1 <==> Depth(q.lanes) == 0
  {
    var starved := Starved(c, q, now);
    if starved >= 0 then starved else HighestBelow(q, LANES)
  }

  /** Position of the first request in the lane from a module other than `last`. */
  function FirstOther(lane: seq<nat>, table: seq<Rec>, last: string): (i: nat)
    requires Indices(lane, |table|)
    ensures i <= |lane|
    ensures forall j :: 0 <= j < i ==> table[lane[j]].tag.moduleId == last
    ensures i < |lane| ==> table[lane[i]].tag.moduleId != last
  {
    if lane == [] || table[lane[0]].tag.moduleId != last then 0
    else 1 + FirstOther(lane[1..], table, last)
  }

  /** Position served in a lane: the front, or round-robin by module. */
  function PickIndex(c: Config, lane: seq<nat>, table: seq<Rec>, last: string): (i: nat)
    requires Indices(lane, |table|) && lane != []
    ensures i < |lane|
  {
    if !c.fifo && |lane| > 1 && last != "" then
      var other := FirstOther(lane, table, last);
      if other < |lane| then other else 0
    else 0
  }

  /** The request served next from lane `p`. */
  function PickId(c: Config, q: Queue, p: nat): (id: nat)
    requires Shaped(q) && p < LANES && q.lanes[p] != []
    ensures id < |q.table| && id in q.lanes[p]
  {
    q.lanes[p][PickIndex(c, q.lanes[p], q.table, q.last[p])]
  }

  function Without(lane: seq<nat>, i: nat): (r: seq<nat>)
    requires i < |lane|
    ensures |r| == |lane| - 1
    ensures forall x :: x in r ==> x in lane
  {
    lane[..i] + lane[i + 1..]
  }

  function SelectOne(c: Config, q: Queue, p: nat, now: nat): (t: Queue)
    requires Shaped(q) && p < LANES && q.lanes[p] != []
    ensures Shaped(t)
  {
    var i := PickIndex(c, q.lanes[p], q.table, q.last[p]);
    var id := q.lanes[p][i];
    q.(lanes := q.lanes[p := Without(q.lanes[p], i)],
       last := q.last[p := q.table[id].tag.moduleId],
       table := q.table[id := q.table[id].(stage := InFlight)],
       inflight := q.inflight + 1,
       trace := q.trace + [Picked(id, now)])
  }

  /** The selection loop; `times` are the clock readings of successive iterations. */
  function SelectLoop(c: Config, q: Queue, times: seq<nat>): (r: (Queue, seq<nat>))
    requires Shaped(q)
    ensures Shaped(r.0)
    decreases |times|
  {
    if times == [] || q.inflight >= c.maxInflight || PickLane(c, q, times[0]) < 0 then (q, [])
    else
      var p := PickLane(c, q, times[0]);
      var (t, more) := SelectLoop(c, SelectOne(c, q, p, times[0]), times[1..]);
      (t, [PickId(c, q, p)] + more)
  }

  /** Is the inter-request gap after the last completion still running? */
  predicate GapHolds(c: Config, hook: bool, q: Queue, now: nat)
  {
    && hook
    && c.gapMs > 0
    && q.lastCompleteAt > 0
    && now - q.lastCompleteAt < c.gapMs * NS_PER_MS
  }

  datatype PumpResult = PumpResult(toRun: seq<nat>, delayMs: nat)

  /** One locked selection of the event-driven path. */
  function SelectAsync(s: Sched, times: seq<nat>): (r: (Sched, PumpResult))
    requires Shaped(s.q) && times != []
    ensures Shaped(r.0.q)
  {
    if s.pump.stopped then (s, PumpResult([], 0))
    else if GapHolds(s.cfg, s.hook, s.q, times[0]) then
      if !s.pump.delayScheduled && Depth(s.q.lanes) > 0 then
        var left := s.cfg.gapMs * NS_PER_MS - (times[0] - s.q.lastCompleteAt);
        (s.(pump := s.pump.(delayScheduled := true)), PumpResult([], left / NS_PER_MS + 1))
      else (s, PumpResult([], 0))
    else
      var (t, run) := SelectLoop(s.cfg, s.q, times[1..]);
      (s.(q := t), PumpResult(run, 0))
  }

  // ---------------------------------------------------------------- cancelling queued work

  datatype Victims = Interruptables | OfModule(moduleId: string)

  /** Only queued blocking requests are ever discarded. */
  predicate Hit(r: Rec, v: Victims)
  {
    && r.stage == Waiting
    && !r.isAsync
    && (v.Interruptables? ==> r.tag.interruptable)
    && (v.OfModule? ==> r.tag.moduleId == v.moduleId)
  }

  function Keep(lane: seq<nat>, table: seq<Rec>, v: Victims): (r: seq<nat>)
    requires Indices(lane, |table|)
    ensures |r| <= |lane| && Indices(r, |table|)
  {
    if lane == [] then []
    else
      var rest := Keep(lane[1..], table, v);
      if Hit(table[lane[0]], v) then rest else [lane[0]] + rest
  }

  /** The kept requests are those of the lane that are no victims. */
  lemma {:induction false} KeepMembers(lane: seq<nat>, table: seq<Rec>, v: Victims, x: nat)
    requires Indices(lane, |table|)
    ensures x in Keep(lane, table, v) <==> x in lane && x < |table| && !Hit(table[x], v)
    decreases |lane|
  {
    hide Hit;
    if lane != [] {
      assert lane == [lane[0]] + lane[1..];
      KeepMembers(lane[1..], table, v, x);
    }
  }

  function Mark(table: seq<Rec>, lane: seq<nat>, v: Victims): (r: seq<Rec>)
    ensures |r| == |table|
  {
    seq(|table|, i requires 0 <= i < |table| =>
      if i in lane && Hit(table[i], v) then table[i].(stage := Cancelled) else table[i])
  }

  function SweepLane(q: Queue, p: nat, v: Victims): (t: Queue)
    requires Shaped(q) && p < LANES
    ensures Shaped(t)
  {
    var kept := Keep(q.lanes[p], q.table, v);
    q.(lanes := q.lanes[p := kept],
       table := Mark(q.table, q.lanes[p], v),
       cancelled := q.cancelled + (|q.lanes[p]| - |kept|))
  }

  /** Sweep lanes 0 .. upTo-1. */
  function Sweep(q: Queue, upTo: nat, v: Victims): (t: Queue)
    requires Shaped(q) && upTo <= LANES
    ensures Shaped(t)
    decreases upTo
  {
    if upTo == 0 then q else SweepLane(Sweep(q, upTo - 1, v), upTo - 1, v)
  }

  function CancelModule(q: Queue, moduleId: string): (t: Queue)
    requires Shaped(q)
    ensures Shaped(t)
  {
    Sweep(q, LANES, OfModule(moduleId))
  }

  // ---------------------------------------------------------------- admission

  /** The verdict once the mode is fixed and the circuit refreshed. */
  function Admission(c: Config, q: Queue, b: Breaker): Verdict
    requires Shaped(q)
  {
    if b.circuit == Open then CircuitOpen
    else if b.circuit == HalfOpen && (q.inflight > 0 || Depth(q.lanes) > 0) then ProbeBusy
    else if Depth(q.lanes) + q.inflight >= c.maxQueueDepth then QueueFull
    else Accepted
  }

  function Push(q: Queue, tag: Tag, queuedAt: nat, isAsync: bool): (t: Queue)
    requires Shaped(q) && 0 <= tag.priority < LANES
    ensures Shaped(t)
  {
    q.(lanes := q.lanes[tag.priority := q.lanes[tag.priority] + [|q.table|]],
       table := q.table + [Rec(tag, queuedAt, isAsync, Waiting)],
       submitted := q.submitted + 1)
  }

  /** Queue the request, then cancel the interruptable blocking requests of lower priority. */
  function Enqueue(q: Queue, tag: Tag, queuedAt: nat, isAsync: bool): (t: Queue)
    requires Shaped(q) && 0 <= tag.priority < LANES
    ensures Shaped(t)
  {
    Sweep(Push(q, tag, queuedAt, isAsync), tag.priority, Interruptables)
  }

  /** The locked part of submitAsync. */
  function SubmitAsync(s: Sched, tag: Tag, now: nat): (r: (Sched, Verdict))
    requires Shaped(s.q)
    ensures Shaped(r.0.q)
  {
    if !(0 <= tag.priority < LANES) then (s, BadPriority)
    else if s.pump.stopped then (s, Stopped)
    else if s.mode == SyncMode then (s, WrongMode)
    else
      var b := UpdateCircuit(s.cfg, s.b, now);
      var v := Admission(s.cfg, s.q, b);
      if v != Accepted then (s.(mode := AsyncMode, b := b), v)
      else (s.(mode := AsyncMode,
               b := b.(probe := b.probe || b.circuit == HalfOpen),
               q := Enqueue(s.q, tag, now, true)), Accepted)
  }

  /** The first locked part of the blocking submit, up to the wait. */
  function SubmitSync(s: Sched, tag: Tag, queuedAt: nat, times: seq<nat>): (r: (Sched, Verdict))
    requires Shaped(s.q) && times != []
    ensures Shaped(r.0.q)
  {
    if !(0 <= tag.priority < LANES) then (s, BadPriority)
    else if s.mode == AsyncMode then (s, WrongMode)
    else
      var b := UpdateCircuit(s.cfg, s.b, times[0]);
      var v := Admission(s.cfg, s.q, b);
      if v != Accepted then (s.(mode := SyncMode, b := b), v)
      else (s.(mode := SyncMode,
               b := b.(probe := b.probe || b.circuit == HalfOpen),
               q := SelectLoop(s.cfg, Enqueue(s.q, tag, queuedAt, false), times[1..]).0), Accepted)
  }

  // ---------------------------------------------------------------- completion

  /** The queue's account of the end of request `id`. */
  function Retire(q: Queue, id: nat, now: nat): (t: Queue)
    requires Shaped(q) && id < |q.table|
    ensures Shaped(t)
  {
    q.(table := q.table[id := q.table[id].(stage := Finished)],
       inflight := if q.inflight > 0 then q.inflight - 1 else 0,
       lastCompleteAt := now,
       trace := q.trace + [Completion(id, now)])
  }

  /** The locked part of completeAsync: a duplicate completion changes nothing. */
  function CompleteAsync(s: Sched, id: nat, ok: bool, now: nat): (r: (Sched, bool))
    requires Shaped(s.q) && id < |s.q.table|
    ensures Shaped(r.0.q)
  {
    if s.q.table[id].stage == Finished then (s, false)
    else (s.(q := Retire(s.q, id, now), b := RecordEnd(s.cfg, s.b, ok, now)), true)
  }

  /** The last locked part of the blocking submit; `doneAt` was read before the lock was taken. */
  function ReleaseSync(s: Sched, id: nat, ok: bool, doneAt: nat, times: seq<nat>): (t: Sched)
    requires Shaped(s.q) && id < |s.q.table| && times != []
    ensures Shaped(t.q)
  {
    s.(b := RecordEnd(s.cfg, s.b, ok, times[0]),
       q := SelectLoop(s.cfg, Retire(s.q, id, doneAt), times[1..]).0)
  }

  // ---------------------------------------------------------------- pump trampoline

  /** Entry of pump: either this caller becomes the pump, or it asks the running one to go again. */
  function PumpEnter(m: Pump, fromTimer: bool): (Pump, bool)
  {
    var t := if fromTimer then m.(delayScheduled := false) else m;
    if t.pumping then (t.(repump := true), false) else (t.(pumping := true), true)
  }

  /** End of a pump round: stop, or take the request to go again. */
  function PumpFinish(m: Pump): (Pump, bool)
  {
    if !m.repump then (m.(pumping := false), false) else (m.(repump := false), true)
  }
}
