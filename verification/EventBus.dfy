/**
 Subscriptions of the event bus: a handler entry counts the invocations inside it,
 in all and by thread, and cancelling waits for the other threads to leave.
 */
module EventBus {

  datatype Thread = Thread(id: nat)

  datatype Entry = Entry(accepting: bool, active: int, byThread: map<Thread, nat>)

  function CountOf(m: map<Thread, nat>, t: Thread): nat
  {
    if t in m then m[t] else 0
  }

  ghost function Total(m: map<Thread, nat>): nat
    decreases |m|
  {
    if m == map[] then 0
    else
      var t :| t in m;
      m[t] + Total(m - {t})
  }

  function BeginInvoke(e: Entry, t: Thread): (Entry, bool)
  {
    if !e.accepting then (e, false)
    else (e.(active := e.active + 1, byThread := e.byThread[t := CountOf(e.byThread, t) + 1]), true)
  }

  function EndInvoke(e: Entry, t: Thread): Entry
  {
    var counts := if t !in e.byThread || e.byThread[t] == 0 then e.byThread
              else if e.byThread[t] == 1 then e.byThread - {t}
              else e.byThread[t := e.byThread[t] - 1];
    e.(byThread := counts, active := if e.active > 0 then e.active - 1 else e.active)
  }

  function Cancel(e: Entry): Entry
  {
    e.(accepting := false)
  }

  class HandlerEntry {
    var accepting: bool
    var active: int
    var activeByThread: map<Thread, nat>

    ghost function View(): Entry
      reads this
    {
      Entry(accepting, active, activeByThread)
    }

    constructor ()
      ensures View() == Entry(true, 0, map[])
    {
      accepting, active, activeByThread := true, 0, map[];
    }

    method BeginInvokeLocked(t: Thread) returns (ok: bool)
      modifies this
      ensures (View(), ok) == BeginInvoke(old(View()), t)
    {
      if !accepting { return false; }
      active := active + 1;
      activeByThread := activeByThread[t := (if t in activeByThread then activeByThread[t] else 0) + 1];
      return true;
    }

    method EndInvokeLocked(t: Thread)
      modifies this`active, this`activeByThread
      ensures View() == EndInvoke(old(View()), t)
    {
      if t in activeByThread && activeByThread[t] > 0 {
        activeByThread := activeByThread[t := activeByThread[t] - 1];
        if activeByThread[t] == 0 {
          activeByThread := activeByThread - {t};
        }
      }
      if active > 0 { active := active - 1; }
    }

    /** The locked start of a cancellation: refuse new invocations and note one's own. */
    method CancelLocked(t: Thread) returns (selfActive: nat)
      modifies this`accepting
      ensures View() == Cancel(old(View())) && selfActive == CountOf(activeByThread, t)
    {
      accepting := false;
      selfActive := if t in activeByThread then activeByThread[t] else 0;
    }
  }

  // ---------------------------------------------------------------- sums

  lemma {:induction false} TotalWithout(m: map<Thread, nat>, t: Thread)
    requires t in m
    ensures Total(m) == m[t] + Total(m - {t})
    decreases |m|
  {
    var u :| u in m && Total(m) == m[u] + Total(m - {u});
    if u != t {
      var a, b := m - {u}, m - {t};
      TotalWithout(a, t);
      TotalWithout(b, u);
      assert a - {t} == b - {u};
    }
  }

  lemma TotalUpdate(m: map<Thread, nat>, t: Thread, n: nat)
    ensures Total(m[t := n]) == Total(m) - CountOf(m, t) + n
  {
    TotalWithout(m[t := n], t);
    assert m[t := n] - {t} == m - {t};
    if t in m {
      TotalWithout(m, t);
    } else {
      assert m - {t} == m;
    }
  }

  /** When the total is no more than one thread's own count, every other thread has none. */
  lemma OthersEmpty(m: map<Thread, nat>, t: Thread, u: Thread)
    requires Total(m) <= CountOf(m, t) && u != t
    ensures CountOf(m, u) == 0
  {
    if t in m {
      TotalWithout(m, t);
    }
    if u in m {
      TotalWithout(m, u);
      if t in m { TotalWithout(m - {t}, u); }
    }
  }

  // ---------------------------------------------------------------- channels

  /** The entries of a channel that are still alive, in subscription order. */
  function Alive(channel: seq<nat>, live: set<nat>): seq<nat>
  {
    if channel == [] then []
    else (if channel[0] in live then [channel[0]] else []) + Alive(channel[1..], live)
  }

  lemma {:induction false} AliveSnoc(channel: seq<nat>, live: set<nat>, n: nat)
    requires n < |channel|
    ensures Alive(channel[..n + 1], live) == Alive(channel[..n], live) + if channel[n] in live then [channel[n]] else []
    decreases n
  {
    if n > 0 {
      var rest := channel[1..];
      assert channel[..n + 1][1..] == rest[..n] && channel[..n][1..] == rest[..n - 1];
      AliveSnoc(rest, live, n - 1);
    } else {
      assert channel[..1][1..] == [];
    }
  }

  /** The live entries keep their order, whatever lies between them. */
  lemma {:induction false} AliveInOrder(a: seq<nat>, b: seq<nat>, live: set<nat>)
    ensures Alive(a + b, live) == Alive(a, live) + Alive(b, live)
    ensures |a| == 1 ==> Alive(a, live) == if a[0] in live then a else []
    decreases |a|
  {
    if a == [] {
      assert a + b == b;
    } else {
      assert (a + b)[0] == a[0] && (a + b)[1..] == a[1..] + b;
      AliveInOrder(a[1..], b, live);
      if |a| == 1 { assert a[1..] == []; }
    }
  }

  /** A publisher takes a snapshot of the live entries and compacts the channel to them. */
  method Snapshot(channel: seq<nat>, live: set<nat>) returns (alive: seq<nat>, compacted: seq<nat>)
    ensures alive == Alive(channel, live) && compacted == alive
  {
    alive, compacted := [], [];
    for i := 0 to |channel|
      invariant alive == Alive(channel[..i], live) && compacted == alive
    {
      AliveSnoc(channel, live, i);
      if channel[i] in live {
        alive := alive + [channel[i]];
        compacted := compacted + [channel[i]];
      }
    }
    assert channel[..|channel|] == channel;
  }

  /** Subscribing compacts the channel and appends the new entry. */
  method Subscribe(channel: seq<nat>, live: set<nat>, entry: nat) returns (after: seq<nat>)
    ensures after == Alive(channel, live) + [entry]
  {
    var _, compacted := Snapshot(channel, live);
    after := compacted + [entry];
  }

  /** A live entry is in the snapshot as often as in the channel; a dead one never. */
  lemma {:induction false} SnapshotComplete(channel: seq<nat>, live: set<nat>, entry: nat)
    ensures multiset(Alive(channel, live))[entry] == if entry in live then multiset(channel)[entry] else 0
    decreases |channel|
  {
    if channel != [] {
      assert channel == [channel[0]] + channel[1..];
      SnapshotComplete(channel[1..], live, entry);
    }
  }
}

/** Publishers on any threads, handlers that re-enter, and cancellations, in every interleaving. */
module EventBusSystem {
  import opened EventBus

  datatype Sys = Sys(
    e: Entry,
    inside: map<Thread, nat>,    // the handler frames on each thread's stack
    waiting: map<Thread, nat>,   // cancelling threads and their own count
    returned: set<Thread>)       // threads whose cancellation has returned

  datatype Action = Begin(t: Thread) | End(t: Thread) | CancelStart(t: Thread) | CancelReturn(t: Thread)

  function Start(): Sys
  {
    Sys(Entry(true, 0, map[]), map[], map[], {})
  }

  predicate Enabled(s: Sys, a: Action)
  {
    match a
    case Begin(t) => t !in s.waiting
    case End(t) => t !in s.waiting && CountOf(s.inside, t) > 0
    case CancelStart(t) => t !in s.waiting
    case CancelReturn(t) => t in s.waiting && s.e.active <= s.waiting[t]
  }

  function Next(s: Sys, a: Action): Sys
    requires Enabled(s, a)
  {
    match a
    case Begin(t) =>
      var (e, ok) := BeginInvoke(s.e, t);
      if ok then s.(e := e, inside := s.inside[t := CountOf(s.inside, t) + 1]) else s
    case End(t) => s.(e := EndInvoke(s.e, t), inside := s.inside[t := CountOf(s.inside, t) - 1])
    case CancelStart(t) => s.(e := Cancel(s.e), waiting := s.waiting[t := CountOf(s.e.byThread, t)])
    case CancelReturn(t) => s.(waiting := s.waiting - {t}, returned := s.returned + {t})
  }

  predicate Run(s: Sys, run: seq<Action>)
    decreases |run|
  {
    run == [] || (Enabled(s, run[0]) && Run(Next(s, run[0]), run[1..]))
  }

  function Exec(s: Sys, run: seq<Action>): Sys
    requires Run(s, run)
    decreases |run|
  {
    if run == [] then s else Exec(Next(s, run[0]), run[1..])
  }

  /** The entry's counts are the frames on the stacks, by thread and in all. */
  ghost predicate Counted(s: Sys)
  {
    && s.e.active == Total(s.e.byThread)
    && forall t :: CountOf(s.e.byThread, t) == CountOf(s.inside, t)
  }

  ghost predicate Gated(s: Sys)
  {
    && (s.waiting != map[] || s.returned != {} ==> !s.e.accepting)
    && (forall t :: t in s.waiting ==> s.waiting[t] == CountOf(s.inside, t))
    && (forall r, u :: r in s.returned && u != r ==> CountOf(s.inside, u) == 0)
  }

  ghost predicate Inv(s: Sys)
  {
    Counted(s) && Gated(s)
  }

  lemma BeginInv(s: Sys, t: Thread)
    requires Inv(s) && Enabled(s, Begin(t))
    ensures Inv(Next(s, Begin(t)))
  {
    TotalUpdate(s.e.byThread, t, CountOf(s.e.byThread, t) + 1);
    hide Total;
    var n := Next(s, Begin(t));
    if s.e.accepting {
      assert forall u :: CountOf(n.inside, u) == if u == t then CountOf(s.inside, u) + 1 else CountOf(s.inside, u);
      assert forall u :: CountOf(n.e.byThread, u) == if u == t then CountOf(s.e.byThread, u) + 1 else CountOf(s.e.byThread, u);
      assert n.waiting == map[] && n.returned == {};
    }
  }

  lemma EndInv(s: Sys, t: Thread)
    requires Inv(s) && Enabled(s, End(t))
    ensures Inv(Next(s, End(t)))
  {
    var m := s.e.byThread;
    assert CountOf(m, t) == CountOf(s.inside, t);
    TotalUpdate(m, t, CountOf(m, t) - 1);
    TotalWithout(m, t);
    hide Total;
    var n := Next(s, End(t));
    assert forall u :: CountOf(n.inside, u) == if u == t then CountOf(s.inside, u) - 1 else CountOf(s.inside, u);
    assert forall u :: CountOf(n.e.byThread, u) == if u == t then CountOf(m, u) - 1 else CountOf(m, u);
  }

  lemma ReturnInv(s: Sys, t: Thread)
    requires Inv(s) && Enabled(s, CancelReturn(t))
    ensures Inv(Next(s, CancelReturn(t)))
  {
    hide Total;
    var n := Next(s, CancelReturn(t));
    forall u | u != t ensures CountOf(s.inside, u) == 0 {
      assert CountOf(s.e.byThread, t) == CountOf(s.inside, t);
      assert CountOf(s.e.byThread, u) == CountOf(s.inside, u);
      OthersEmpty(s.e.byThread, t, u);
    }
    assert t in s.waiting;
  }

  lemma StepInv(s: Sys, a: Action)
    requires Inv(s) && Enabled(s, a)
    ensures Inv(Next(s, a))
  {
    match a
    case Begin(t) => BeginInv(s, t);
    case End(t) => EndInv(s, t);
    case CancelStart(t) =>
      hide Total;
      assert CountOf(s.e.byThread, t) == CountOf(s.inside, t);
    case CancelReturn(t) => ReturnInv(s, t);
  }

  lemma {:induction false} RunInv(s: Sys, run: seq<Action>)
    requires Inv(s) && Run(s, run)
    ensures Inv(Exec(s, run))
    decreases |run|
  {
    hide Inv, Next, Enabled;
    if run != [] {
      StepInv(s, run[0]);
      RunInv(Next(s, run[0]), run[1..]);
    }
  }

  /** In every run the active count is the number of handler frames of all threads. */
  lemma ActiveIsTotal(run: seq<Action>)
    requires Run(Start(), run)
    ensures var s := Exec(Start(), run);
            s.e.active == Total(s.e.byThread) && forall t :: CountOf(s.e.byThread, t) == CountOf(s.inside, t)
  {
    assert Inv(Start());
    hide Run, Exec;
    RunInv(Start(), run);
  }

  /** Once refusing, no thread enters: no frame count ever grows again. */
  lemma {:induction false} NeverEntered(s: Sys, run: seq<Action>, t: Thread)
    requires Run(s, run) && !s.e.accepting
    ensures var n := Exec(s, run);
            !n.e.accepting && CountOf(n.inside, t) <= CountOf(s.inside, t) && s.returned <= n.returned
    decreases |run|
  {
    if run != [] {
      var n := Next(s, run[0]);
      assert !n.e.accepting && CountOf(n.inside, t) <= CountOf(s.inside, t) && s.returned <= n.returned;
      hide Next, Enabled;
      NeverEntered(n, run[1..], t);
    }
  }

  /**
   Once a cancellation has returned on one thread, no other thread is inside the
   handler, and none enters it in any continuation of the run, whatever snapshots
   publishers hold; the cancelling thread itself can only leave.
   */
  lemma CancelDrains(run: seq<Action>, more: seq<Action>, r: Thread, u: Thread)
    requires Run(Start(), run) && r in Exec(Start(), run).returned
    requires Run(Exec(Start(), run), more)
    ensures var s := Exec(Start(), run);
            var n := Exec(s, more);
            && (u != r ==> CountOf(s.inside, u) == 0 && CountOf(n.inside, u) == 0)
            && CountOf(n.inside, r) <= CountOf(s.inside, r)
            && !BeginInvoke(n.e, u).1
  {
    assert Inv(Start());
    var s := Exec(Start(), run);
    hide Run, Exec;
    RunInv(Start(), run);
    NeverEntered(s, more, u);
    NeverEntered(s, more, r);
  }

  /** A cancellation waits for nobody but the other threads: it can return as soon as they have left. */
  lemma CancelReturnsExactly(run: seq<Action>, t: Thread)
    requires Run(Start(), run) && t in Exec(Start(), run).waiting
    ensures var s := Exec(Start(), run);
            Enabled(s, CancelReturn(t)) <==> forall u :: u != t ==> CountOf(s.inside, u) == 0
  {
    assert Inv(Start());
    var s := Exec(Start(), run);
    hide Run, Exec;
    RunInv(Start(), run);
    var m := s.e.byThread;
    assert CountOf(m, t) == CountOf(s.inside, t);
    if Enabled(s, CancelReturn(t)) {
      forall u | u != t ensures CountOf(s.inside, u) == 0 {
        OthersEmpty(m, t, u);
        assert CountOf(m, u) == CountOf(s.inside, u);
      }
    }
    if forall u :: u != t ==> CountOf(s.inside, u) == 0 {
      assert forall u :: u != t ==> CountOf(m, u) == 0;
      OnlyOwn(m, t);
    }
  }

  lemma {:induction false} OnlyOwn(m: map<Thread, nat>, t: Thread)
    requires forall u :: u != t ==> CountOf(m, u) == 0
    ensures Total(m) == CountOf(m, t)
    decreases |m|
  {
    if m != map[] {
      var v :| v in m;
      var rest := m - {v};
      TotalWithout(m, v);
      assert forall u :: CountOf(rest, u) == if u == v then 0 else CountOf(m, u);
      OnlyOwn(rest, t);
      assert CountOf(m, v) == m[v];
    }
  }

  ghost predicate Cancelled(acts: seq<Action>)
  {
    exists k :: 0 <= k < |acts| && acts[k].CancelStart?
  }

  lemma {:induction false} AcceptsUntilCancelled(s: Sys, run: seq<Action>)
    requires Run(s, run)
    ensures Exec(s, run).e.accepting <==> s.e.accepting && !Cancelled(run)
    decreases |run|
  {
    if run != [] {
      var n := Next(s, run[0]);
      assert n.e.accepting <==> s.e.accepting && !run[0].CancelStart?;
      hide Next, Enabled;
      AcceptsUntilCancelled(n, run[1..]);
      if Cancelled(run[1..]) {
        var k :| 0 <= k < |run[1..]| && run[1..][k].CancelStart?;
        assert run[k + 1].CancelStart?;
      }
      if Cancelled(run) && !run[0].CancelStart? {
        var k :| 0 <= k < |run| && run[k].CancelStart?;
        assert run[1..][k - 1].CancelStart?;
      }
    }
  }

  /** A publisher enters the handler exactly as long as no cancellation has begun, and otherwise changes nothing. */
  lemma EntersUntilCancelled(run: seq<Action>, t: Thread)
    requires Run(Start(), run) && Enabled(Exec(Start(), run), Begin(t))
    ensures var s := Exec(Start(), run);
            var n := Next(s, Begin(t));
            if Cancelled(run) then n == s
            else CountOf(n.inside, t) == CountOf(s.inside, t) + 1 && forall u :: u != t ==> CountOf(n.inside, u) == CountOf(s.inside, u)
  {
    AcceptsUntilCancelled(Start(), run);
    hide Run, Exec, Cancelled;
  }
}
