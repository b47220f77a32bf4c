/**
 What every locked section of the scheduler keeps: the queues and the request
 table agree, every request is accounted for exactly once, the capacity limits
 hold, the circuit breaker is sound, and the history obeys the timing laws.
 */
module SchedulerInvariant {
  import opened SchedulerModel

  // ---------------------------------------------------------------- the parts

  ghost predicate Ascending(lane: seq<nat>)
  {
    forall i, j :: 0 <= i < j < |lane| ==> lane[i] < lane[j]
  }

  /** Lane `p` lists waiting requests of priority `p`, oldest first. */
  ghost predicate LaneOk(lane: seq<nat>, table: seq<Rec>, p: nat)
  {
    && Indices(lane, |table|)
    && Ascending(lane)
    && forall j :: 0 <= j < |lane| ==> table[lane[j]].stage == Waiting && table[lane[j]].tag.priority == p
  }

  /** A request has a lane, and waits in it as long as it is waiting at all. */
  ghost predicate Held(lanes: seq<seq<nat>>, table: seq<Rec>, id: nat)
    requires |lanes| == LANES && id < |table|
  {
    && 0 <= table[id].tag.priority < LANES
    && (table[id].stage == Waiting ==> id in lanes[table[id].tag.priority])
  }

  /** The lanes list exactly the waiting requests, each in its own lane, oldest first. */
  ghost predicate Queues(lanes: seq<seq<nat>>, table: seq<Rec>)
  {
    && |lanes| == LANES
    && (forall p :: 0 <= p < LANES ==> LaneOk(lanes[p], table, p))
    && (forall id :: 0 <= id < |table| ==> Held(lanes, table, id))
  }

  ghost function Count(table: seq<Rec>, g: Stage): nat
  {
    if table == [] then 0
    else Count(table[..|table| - 1], g) + (if table[|table| - 1].stage == g then 1 else 0)
  }

  /** Every counter is the number of table rows in that stage; `ended` counts successes and failures. */
  ghost predicate Accounts(q: Queue, ended: nat)
    requires Shaped(q)
  {
    && Count(q.table, Waiting) == Depth(q.lanes)
    && Count(q.table, InFlight) == q.inflight
    && Count(q.table, Finished) == ended
    && Count(q.table, Cancelled) == q.cancelled
    && |q.table| == q.submitted
  }

  ghost predicate Bounds(c: Config, q: Queue)
    requires Shaped(q)
  {
    q.inflight <= c.maxInflight && Depth(q.lanes) + q.inflight <= c.maxQueueDepth
  }

  ghost predicate BreakerOk(c: Config, b: Breaker, outstanding: nat)
  {
    && (c.threshold > 0 && b.circuit == Closed ==> b.streak < c.threshold)
    && (b.circuit == HalfOpen && b.probe ==> outstanding <= 1)
  }

  ghost predicate AllOfKind(table: seq<Rec>, isAsync: bool)
  {
    forall id :: 0 <= id < |table| ==> (table[id].isAsync <==> isAsync)
  }

  /** Requests are stamped in the order of their acceptance, none in the future. */
  ghost predicate StampedInOrder(table: seq<Rec>, now: nat)
  {
    && (forall id :: 0 <= id < |table| ==> table[id].queuedAt <= now)
    && (forall i, j :: 0 <= i < j < |table| ==> table[i].queuedAt <= table[j].queuedAt)
  }

  // ---------------------------------------------------------------- history

  ghost predicate CompletedWithin(trace: seq<Event>, id: nat, lo: nat, hi: nat)
  {
    exists k :: lo < k < hi && k < |trace| && trace[k].Completion? && trace[k].id == id
  }

  /** Events speak of requests in a matching stage. */
  ghost predicate Staged(trace: seq<Event>, table: seq<Rec>)
  {
    forall i :: 0 <= i < |trace| ==>
      && trace[i].id < |table|
      && (trace[i].Completion? ==> table[trace[i].id].stage == Finished)
      && (trace[i].Picked? ==> table[trace[i].id].stage in {InFlight, Finished})
  }

  /** No request is selected twice and none completes twice. */
  ghost predicate Once(trace: seq<Event>)
  {
    forall i, j :: 0 <= i < j < |trace| && trace[i].Picked? == trace[j].Picked? ==> trace[i].id != trace[j].id
  }

  /** A selected request that is no longer in flight completed after its selection. */
  ghost predicate Answered(trace: seq<Event>, table: seq<Rec>)
  {
    forall i :: 0 <= i < |trace| && trace[i].Picked? ==>
      && trace[i].id < |table|
      && (table[trace[i].id].stage == InFlight || CompletedWithin(trace, trace[i].id, i, |trace|))
  }

  /** Every selection keeps the gap to every earlier completion. */
  ghost predicate GapKept(trace: seq<Event>, gapNs: int)
  {
    forall i, j :: 0 <= i < j < |trace| && trace[i].Completion? && trace[j].Picked? ==>
      trace[j].at >= trace[i].at + gapNs
  }

  /** A selection waits for every earlier one to complete. */
  ghost predicate Serialised(trace: seq<Event>)
  {
    forall i, j :: 0 <= i < j < |trace| && trace[i].Picked? && trace[j].Picked? ==>
      CompletedWithin(trace, trace[i].id, i, j)
  }

  ghost predicate LastIsLatest(trace: seq<Event>, last: nat)
  {
    forall i :: 0 <= i < |trace| && trace[i].Completion? ==> 0 < trace[i].at <= last
  }

  /** The order laws of the history; `gapNs` is positive where the gap is enforced. */
  ghost predicate History(q: Queue, gapNs: int, slots: int)
  {
    && Staged(q.trace, q.table)
    && Once(q.trace)
    && Answered(q.trace, q.table)
    && (gapNs > 0 ==> LastIsLatest(q.trace, q.lastCompleteAt) && GapKept(q.trace, gapNs))
    && (slots == 1 ==> Serialised(q.trace))
  }

  /** The gap enforced on selections: the event-driven path with its delay hook installed. */
  function EnforcedGap(c: Config, hook: bool, mode: Mode): int
  {
    if hook && mode != SyncMode then c.gapMs * NS_PER_MS else 0
  }

  ghost predicate QueueInv(c: Config, q: Queue, ended: nat, gapNs: int)
  {
    && Shaped(q)
    && Queues(q.lanes, q.table)
    && Accounts(q, ended)
    && Bounds(c, q)
    && History(q, gapNs, c.maxInflight)
  }

  /** The mode tells which requests the table holds, and which of them are stamped in order. */
  ghost predicate ModeInv(mode: Mode, q: Queue, now: nat)
  {
    && (mode == Unset ==> q.table == [])
    && AllOfKind(q.table, mode == AsyncMode)
    && (mode == AsyncMode ==> StampedInOrder(q.table, now))
  }

  ghost predicate Inv(s: Sched, now: nat)
  {
    && Normal(s.cfg)
    && QueueInv(s.cfg, s.q, s.b.completed + s.b.failed, EnforcedGap(s.cfg, s.hook, s.mode))
    && ModeInv(s.mode, s.q, now)
    && BreakerOk(s.cfg, s.b, Depth(s.q.lanes) + s.q.inflight)
    && s.q.lastCompleteAt <= now
    && s.b.openedAt <= now
    && now > 0
  }

  lemma InitialInv(c: Config, hook: bool, now: nat)
    requires now > 0
    ensures Inv(Initial(c, hook), now)
  {
  }

  // ---------------------------------------------------------------- counting rows

  lemma {:induction false} CountUpdate(table: seq<Rec>, id: nat, r: Rec, g: Stage)
    requires id < |table|
    ensures Count(table[id := r], g)
         == Count(table, g) - (if table[id].stage == g then 1 else 0) + (if r.stage == g then 1 else 0)
  {
    var n := |table| - 1;
    if id == n {
      assert table[id := r][..n] == table[..n];
    } else {
      CountUpdate(table[..n], id, r, g);
      assert table[id := r][..n] == table[..n][id := r];
    }
  }

  lemma CountAppend(table: seq<Rec>, r: Rec, g: Stage)
    ensures Count(table + [r], g) == Count(table, g) + (if r.stage == g then 1 else 0)
  {
    assert (table + [r])[..|table|] == table;
  }

  lemma {:induction false} CountZero(table: seq<Rec>, g: Stage, id: nat)
    requires id < |table| && table[id].stage == g
    ensures Count(table, g) > 0
  {
    if id < |table| - 1 { CountZero(table[..|table| - 1], g, id); }
  }

  /** Each row is in exactly one stage. */
  lemma {:induction false} CountTotal(table: seq<Rec>)
    ensures Count(table, Waiting) + Count(table, InFlight) + Count(table, Finished) + Count(table, Cancelled) == |table|
  {
    if table != [] { CountTotal(table[..|table| - 1]); }
  }

  /** Marking a lane's victims moves exactly the removed requests from waiting to cancelled. */
  lemma {:induction false} CountMark(table: seq<Rec>, lane: seq<nat>, v: Victims, g: Stage)
    requires Indices(lane, |table|) && Ascending(lane)
    ensures Count(Mark(table, lane, v), g)
         == Count(table, g) + (if g == Cancelled then |lane| - |Keep(lane, table, v)| else 0)
                            - (if g == Waiting then |lane| - |Keep(lane, table, v)| else 0)
  {
    if lane == [] {
      assert Mark(table, lane, v) == table;
    } else {
      var rest := lane[1..];
      CountMark(table, rest, v, g);
      var x := lane[0];
      assert x !in rest;
      var m := Mark(table, rest, v);
      if Hit(table[x], v) {
        assert Mark(table, lane, v) == m[x := table[x].(stage := Cancelled)];
        CountUpdate(m, x, table[x].(stage := Cancelled), g);
      } else {
        assert Mark(table, lane, v) == m;
      }
    }
  }

  lemma {:induction false} KeepAscending(lane: seq<nat>, table: seq<Rec>, v: Victims)
    requires Indices(lane, |table|) && Ascending(lane)
    ensures Ascending(Keep(lane, table, v))
  {
    if lane != [] {
      KeepAscending(lane[1..], table, v);
      var rest := Keep(lane[1..], table, v);
      forall i | 0 <= i < |rest| ensures lane[0] < rest[i] {
        assert rest[i] in rest;
        KeepMembers(lane[1..], table, v, rest[i]);
      }
    }
  }
}
