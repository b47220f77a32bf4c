/**
 Mirroring a polled register range back to the server side: each poll stores a
 versioned image, and at most one mirror write is in flight; a completion that
 finds a newer version issues the next write.
 */
module BridgeMirror {
  import opened Options

  /** The part of a poll result that a mirror window of `count` registers at `mirrorStart` takes. */
  function MirrorSlice(mirrorStart: int, count: nat, pollStart: int, polled: seq<bv16>): (r: Option<seq<bv16>>)
    ensures r.Some? <==> count > 0 && pollStart <= mirrorStart && mirrorStart + count <= pollStart + |polled|
    ensures r.Some? ==> |r.value| == count
    ensures r.Some? ==> forall k :: 0 <= k < count ==> r.value[k] == polled[mirrorStart + k - pollStart]
  {
    var offset := mirrorStart - pollStart;
    if count <= 0 || offset < 0 || offset + count > |polled| then None
    else Some(polled[offset..offset + count])
  }

  // The fields guarded by the mirror state's mutex.
  datatype State = State(values: seq<bv16>, version: nat, inFlight: bool)

  function StorePoll(m: State, image: seq<bv16>): State
  {
    m.(values := image, version := m.version + 1)
  }

  /** May a mirror write start now? */
  predicate CanClaim(m: State, count: nat)
  {
    !m.inFlight && |m.values| == count
  }

  class MirrorState {
    var values: seq<bv16>
    var version: nat
    var inFlight: bool

    ghost function View(): State
      reads this
    {
      State(values, version, inFlight)
    }

    constructor ()
      ensures View() == State([], 0, false)
    {
      values, version, inFlight := [], 0, false;
    }

    /** The poll handler; tells whether the poll covered the mirror window. */
    method OnPollRangeCompleted(mirrorStart: int, count: nat, pollStart: int, polled: seq<bv16>) returns (stored: bool)
      modifies this`values, this`version
      ensures stored == MirrorSlice(mirrorStart, count, pollStart, polled).Some?
      ensures View() == if stored then StorePoll(old(View()), MirrorSlice(mirrorStart, count, pollStart, polled).value)
                        else old(View())
    {
      if count <= 0 { return false; }
      var offset := mirrorStart - pollStart;
      if offset < 0 || offset + count > |polled| { return false; }
      values := polled[offset..offset + count];
      version := version + 1;
      return true;
    }

    /** Claim the one write slot together with the image and version to write. */
    method TryClaim(count: nat) returns (claimed: bool, image: seq<bv16>, v: nat)
      modifies this`inFlight
      ensures claimed == CanClaim(old(View()), count)
      ensures View() == if claimed then old(View()).(inFlight := true) else old(View())
      ensures claimed ==> image == values && v == version
    {
      claimed, image, v := false, [], 0;
      if inFlight || |values| != count { return; }
      inFlight := true;
      claimed, image, v := true, values, version;
    }

    /** The completion of a write of version `v`; tells whether a newer image is waiting. */
    method Release(v: nat) returns (repeat: bool)
      modifies this`inFlight
      ensures View() == old(View()).(inFlight := false)
      ensures repeat == (version > v)
    {
      inFlight := false;
      repeat := version > v;
    }
  }
}

/** The mirror under every interleaving of polls, submissions and completions. */
module BridgeMirrorSystem {
  import opened BridgeMirror
  import opened Options

  // A poll handler or a completion handler: it has stored a poll and will
  // schedule; holds the slot before its submission; has its write outstanding;
  // was refused and will give the slot back; or has given the slot back and
  // knows whether to schedule again.
  datatype Handler =
    | Idle
    | Stored
    | Claimed(image: seq<bv16>, version: nat)
    | Writing(image: seq<bv16>, version: nat)
    | Refused
    | Released(repeat: bool)

  datatype Issue = Issue(image: seq<bv16>, version: nat)

  datatype Sys = Sys(
    m: State,
    running: bool,
    handlers: seq<Handler>,
    issued: seq<Issue>,   // history: the mirror writes issued
    stale: bool)          // history: a refused submission gave the slot back with a newer image unissued, and none was accepted since

  datatype Action =
    | Poll(i: nat, image: seq<bv16>)
    | Schedule(i: nat)
    | Submit(i: nat, accepted: bool)
    | GiveBack(i: nat)
    | Complete(i: nat)
    | Rest(i: nat)
    | StopCore

  ghost predicate Enabled(count: nat, y: Sys, a: Action)
  {
    match a
    case Poll(i, image) => i < |y.handlers| && y.handlers[i] == Idle && |image| == count
    case Schedule(i) => i < |y.handlers| && (y.handlers[i] == Stored || (y.handlers[i] == Released(true) && y.running))
    case Submit(i, _) => i < |y.handlers| && y.handlers[i].Claimed?
    case GiveBack(i) => i < |y.handlers| && y.handlers[i] == Refused
    case Complete(i) => i < |y.handlers| && y.handlers[i].Writing?
    case Rest(i) => i < |y.handlers| && (y.handlers[i] == Released(false) || (y.handlers[i] == Released(true) && !y.running))
    case StopCore => true
  }

  ghost function Next(count: nat, y: Sys, a: Action): Sys
    requires Enabled(count, y, a)
  {
    match a
    case Poll(i, image) => y.(m := StorePoll(y.m, image), handlers := y.handlers[i := Stored])
    case Schedule(i) =>
      if CanClaim(y.m, count)
      then y.(m := y.m.(inFlight := true), handlers := y.handlers[i := Claimed(y.m.values, y.m.version)])
      else y.(handlers := y.handlers[i := Idle])
    case Submit(i, accepted) =>
      var h := y.handlers[i];
      if accepted
      then y.(handlers := y.handlers[i := Writing(h.image, h.version)],
              issued := y.issued + [Issue(h.image, h.version)], stale := false)
      else y.(handlers := y.handlers[i := Refused])
    case GiveBack(i) =>
      y.(m := y.m.(inFlight := false), handlers := y.handlers[i := Idle], stale := y.m.version > LastVersion(y.issued))
    case Complete(i) =>
      y.(m := y.m.(inFlight := false), handlers := y.handlers[i := Released(y.m.version > y.handlers[i].version)])
    case Rest(i) => y.(handlers := y.handlers[i := Idle])
    case StopCore => y.(running := false)
  }

  ghost function Start(n: nat): Sys
  {
    Sys(State([], 0, false), true, seq(n, i => Idle), [], false)
  }

  ghost predicate Run(count: nat, y: Sys, acts: seq<Action>)
    decreases |acts|
  {
    acts == [] || (Enabled(count, y, acts[0]) && Run(count, Next(count, y, acts[0]), acts[1..]))
  }

  ghost function Exec(count: nat, y: Sys, acts: seq<Action>): Sys
    requires Run(count, y, acts)
    decreases |acts|
  {
    if acts == [] then y else Exec(count, Next(count, y, acts[0]), acts[1..])
  }

  // ---------------------------------------------------------------- invariant

  ghost predicate Holds(h: Handler)
  {
    h.Claimed? || h.Writing? || h.Refused?
  }

  /** The slot is held by exactly one handler. */
  ghost predicate OneHolder(inFlight: bool, handlers: seq<Handler>)
  {
    && (inFlight ==> exists i :: 0 <= i < |handlers| && Holds(handlers[i]))
    && (forall i :: 0 <= i < |handlers| && Holds(handlers[i]) ==> inFlight)
    && (forall i, j :: 0 <= i < j < |handlers| && Holds(handlers[i]) ==> !Holds(handlers[j]))
  }

  ghost function LastVersion(issued: seq<Issue>): nat
  {
    if issued == [] then 0 else issued[|issued| - 1].version
  }

  /** A write never carries a version newer than stored or older than issued, and the stored version has the stored image. */
  ghost predicate WriteOk(m: State, issued: seq<Issue>, h: Handler)
  {
    && (h.Claimed? ==> h.version <= m.version && LastVersion(issued) <= h.version
                       && (h.version == m.version ==> h.image == m.values))
    && (h.Writing? ==> issued != [] && issued[|issued| - 1] == Issue(h.image, h.version))
  }

  /** Somebody will schedule the newer image. */
  ghost predicate WillSchedule(handlers: seq<Handler>)
  {
    exists i :: 0 <= i < |handlers| && (handlers[i] == Stored || handlers[i] == Released(true) || Holds(handlers[i]))
  }

  ghost predicate Ascending(issued: seq<Issue>)
  {
    forall i, j :: 0 <= i < j < |issued| ==> issued[i].version <= issued[j].version
  }

  ghost predicate Inv(count: nat, y: Sys)
  {
    && (y.m.version > 0 ==> |y.m.values| == count)
    && (y.m.version == 0 ==> forall i :: 0 <= i < |y.handlers| ==> y.handlers[i] != Stored)
    && OneHolder(y.m.inFlight, y.handlers)
    && (forall i :: 0 <= i < |y.handlers| ==> WriteOk(y.m, y.issued, y.handlers[i]))
    && LastVersion(y.issued) <= y.m.version
    && (y.issued != [] && LastVersion(y.issued) == y.m.version ==> y.issued[|y.issued| - 1].image == y.m.values)
    && Ascending(y.issued)
    && (LastVersion(y.issued) < y.m.version ==> WillSchedule(y.handlers) || y.stale || !y.running)
    && (y.stale ==> LastVersion(y.issued) < y.m.version)
  }

  lemma HolderStays(handlers: seq<Handler>, i: nat, h: Handler)
    requires OneHolder(true, handlers) && i < |handlers| && Holds(handlers[i]) && Holds(h)
    ensures OneHolder(true, handlers[i := h])
  {
    assert Holds(handlers[i := h][i]);
  }

  lemma HolderLeaves(handlers: seq<Handler>, i: nat, h: Handler)
    requires OneHolder(true, handlers) && i < |handlers| && Holds(handlers[i]) && !Holds(h)
    ensures OneHolder(false, handlers[i := h])
  {
  }

  lemma BystanderMoves(inFlight: bool, handlers: seq<Handler>, i: nat, h: Handler)
    requires OneHolder(inFlight, handlers) && i < |handlers| && !Holds(handlers[i])
    ensures !Holds(h) ==> OneHolder(inFlight, handlers[i := h])
    ensures Holds(h) && !inFlight ==> OneHolder(true, handlers[i := h])
  {
    if inFlight && !Holds(h) {
      var k :| 0 <= k < |handlers| && Holds(handlers[k]);
      assert Holds(handlers[i := h][k]);
    }
    if Holds(h) { assert Holds(handlers[i := h][i]); }
  }

  lemma WillScheduleKept(handlers: seq<Handler>, i: nat, h: Handler)
    requires i < |handlers|
    ensures h == Stored || h == Released(true) || Holds(h) ==> WillSchedule(handlers[i := h])
    ensures WillSchedule(handlers) && !Holds(handlers[i]) && handlers[i] != Stored && handlers[i] != Released(true)
            ==> WillSchedule(handlers[i := h])
  {
    var hs := handlers[i := h];
    if h == Stored || h == Released(true) || Holds(h) { assert hs[i] == h; }
    if WillSchedule(handlers) && !Holds(handlers[i]) && handlers[i] != Stored && handlers[i] != Released(true) {
      var k :| 0 <= k < |handlers| && (handlers[k] == Stored || handlers[k] == Released(true) || Holds(handlers[k]));
      assert hs[k] == handlers[k];
    }
  }

  /** Another handler holds the slot, so somebody will schedule. */
  lemma HolderSchedules(handlers: seq<Handler>, i: nat, h: Handler)
    requires OneHolder(true, handlers) && i < |handlers| && !Holds(handlers[i])
    ensures WillSchedule(handlers[i := h])
  {
    var k :| 0 <= k < |handlers| && Holds(handlers[k]);
    assert handlers[i := h][k] == handlers[k];
  }

  lemma PollInv(count: nat, y: Sys, i: nat, image: seq<bv16>)
    requires Inv(count, y) && Enabled(count, y, Poll(i, image))
    ensures Inv(count, Next(count, y, Poll(i, image)))
  {
    hide OneHolder, WillSchedule, Ascending;
    WillScheduleKept(y.handlers, i, Stored);
    BystanderMoves(y.m.inFlight, y.handlers, i, Stored);
  }

  lemma ScheduleInv(count: nat, y: Sys, i: nat)
    requires count > 0 && Inv(count, y) && Enabled(count, y, Schedule(i))
    ensures Inv(count, Next(count, y, Schedule(i)))
  {
    hide OneHolder, WillSchedule, Ascending;
    var h := Next(count, y, Schedule(i)).handlers[i];
    WillScheduleKept(y.handlers, i, h);
    BystanderMoves(y.m.inFlight, y.handlers, i, h);
    if y.m.inFlight { HolderSchedules(y.handlers, i, h); }
  }

  lemma SubmitInv(count: nat, y: Sys, i: nat, accepted: bool)
    requires Inv(count, y) && Enabled(count, y, Submit(i, accepted))
    ensures Inv(count, Next(count, y, Submit(i, accepted)))
  {
    var z := Next(count, y, Submit(i, accepted));
    assert WriteOk(y.m, y.issued, y.handlers[i]);
    assert y.m.inFlight && forall k :: 0 <= k < |y.handlers| && k != i ==> !Holds(y.handlers[k]);
    hide OneHolder, WillSchedule;
    WillScheduleKept(y.handlers, i, z.handlers[i]);
    HolderStays(y.handlers, i, z.handlers[i]);
  }

  lemma LeaveInv(count: nat, y: Sys, a: Action)
    requires Inv(count, y) && Enabled(count, y, a) && (a.GiveBack? || a.Complete?)
    ensures Inv(count, Next(count, y, a))
  {
    var h := Next(count, y, a).handlers[a.i];
    assert WriteOk(y.m, y.issued, y.handlers[a.i]);
    assert y.m.inFlight;
    hide OneHolder, WillSchedule, Ascending;
    WillScheduleKept(y.handlers, a.i, h);
    HolderLeaves(y.handlers, a.i, h);
  }

  lemma RestInv(count: nat, y: Sys, i: nat)
    requires Inv(count, y) && Enabled(count, y, Rest(i))
    ensures Inv(count, Next(count, y, Rest(i)))
  {
    hide OneHolder, WillSchedule, Ascending;
    WillScheduleKept(y.handlers, i, Idle);
    BystanderMoves(y.m.inFlight, y.handlers, i, Idle);
  }

  lemma StepInv(count: nat, y: Sys, a: Action)
    requires count > 0 && Inv(count, y) && Enabled(count, y, a)
    ensures Inv(count, Next(count, y, a))
  {
    match a
    case Poll(i, image) => PollInv(count, y, i, image);
    case Schedule(i) => ScheduleInv(count, y, i);
    case Submit(i, accepted) => SubmitInv(count, y, i, accepted);
    case GiveBack(i) => LeaveInv(count, y, a);
    case Complete(i) => LeaveInv(count, y, a);
    case Rest(i) => RestInv(count, y, i);
    case StopCore =>
  }

  lemma {:induction false} RunInv(count: nat, y: Sys, acts: seq<Action>)
    requires count > 0 && Inv(count, y) && Run(count, y, acts)
    ensures Inv(count, Exec(count, y, acts))
    decreases |acts|
  {
    hide Inv, Next, Enabled;
    if acts != [] {
      StepInv(count, y, acts[0]);
      RunInv(count, Next(count, y, acts[0]), acts[1..]);
    }
  }

  /** The image of the latest poll of a run. */
  function LatestPoll(acts: seq<Action>): Option<seq<bv16>>
  {
    if acts == [] then None
    else
      var a := acts[|acts| - 1];
      if a.Poll? then Some(a.image) else LatestPoll(acts[..|acts| - 1])
  }

  function PollCount(acts: seq<Action>): nat
  {
    if acts == [] then 0 else PollCount(acts[..|acts| - 1]) + if acts[|acts| - 1].Poll? then 1 else 0
  }

  lemma {:induction false} PollsFront(acts: seq<Action>)
    requires acts != []
    ensures PollCount(acts) == (if acts[0].Poll? then 1 else 0) + PollCount(acts[1..])
    ensures LatestPoll(acts) == if LatestPoll(acts[1..]).Some? then LatestPoll(acts[1..])
                                else if acts[0].Poll? then Some(acts[0].image) else None
    decreases |acts|
  {
    var n := |acts| - 1;
    if n > 0 {
      assert acts[..n][1..] == acts[1..][..n - 1] && acts[..n][0] == acts[0];
      PollsFront(acts[..n]);
    } else {
      assert acts[..0] == [] && acts[1..] == [];
    }
  }

  lemma PollStep(count: nat, y: Sys, a: Action)
    requires Enabled(count, y, a)
    ensures var m := Next(count, y, a).m;
      if a.Poll? then m.version == y.m.version + 1 && m.values == a.image else m.version == y.m.version && m.values == y.m.values
  {
  }

  /** The stored version counts the polls, and the stored image is that of the latest. */
  lemma {:induction false} PollsCounted(count: nat, y: Sys, acts: seq<Action>)
    requires Run(count, y, acts)
    ensures var m := Exec(count, y, acts).m;
      && m.version == y.m.version + PollCount(acts)
      && m.values == if LatestPoll(acts).Some? then LatestPoll(acts).value else y.m.values
    decreases |acts|
  {
    hide Next, Enabled;
    if acts != [] {
      PollStep(count, y, acts[0]);
      PollsFront(acts);
      PollsCounted(count, Next(count, y, acts[0]), acts[1..]);
    }
  }

  lemma {:induction false} PolledCounts(acts: seq<Action>)
    ensures PollCount(acts) > 0 <==> LatestPoll(acts).Some?
    decreases |acts|
  {
    if acts != [] { PolledCounts(acts[..|acts| - 1]); }
  }

  ghost predicate AtRest(y: Sys)
  {
    y.running && forall i :: 0 <= i < |y.handlers| ==> y.handlers[i] == Idle
  }

  /** The last mirror write issued carried this image, as the given version. */
  ghost predicate Sent(y: Sys, image: seq<bv16>, version: nat)
  {
    y.issued != [] && y.issued[|y.issued| - 1] == Issue(image, version)
  }

  /**
   Coalescing reaches the latest snapshot: in every run of a running core, once a
   poll has been stored and all handlers are at rest, the last mirror write issued
   carried the image of the latest poll, numbered by the polls so far, exactly when no
   refused submission gave the slot back past a newer image since the last accepted one.
   Issued versions never decrease, and one write at most is in flight.
   */
  lemma MirrorReachesLatest(count: nat, n: nat, acts: seq<Action>)
    requires count > 0 && Run(count, Start(n), acts)
    ensures var y := Exec(count, Start(n), acts);
      && (forall i, j :: 0 <= i < j < |y.handlers| ==> !(y.handlers[i].Writing? && y.handlers[j].Writing?))
      && (forall i, j :: 0 <= i < j < |y.issued| ==> y.issued[i].version <= y.issued[j].version)
      && (AtRest(y) && LatestPoll(acts).Some? ==> (Sent(y, LatestPoll(acts).value, PollCount(acts)) <==> !y.stale))
  {
    RunInv(count, Start(n), acts);
    PollsCounted(count, Start(n), acts);
    PolledCounts(acts);
    hide Run, Exec, PollCount, LatestPoll;
  }

  ghost predicate AllAccepted(acts: seq<Action>)
  {
    forall k :: 0 <= k < |acts| && acts[k].Submit? ==> acts[k].accepted
  }

  lemma {:induction false} AcceptedNeverStale(count: nat, y: Sys, acts: seq<Action>)
    requires Run(count, y, acts) && AllAccepted(acts) && !y.stale
    requires forall i :: 0 <= i < |y.handlers| ==> y.handlers[i] != Refused
    ensures !Exec(count, y, acts).stale
    decreases |acts|
  {
    if acts != [] {
      var z := Next(count, y, acts[0]);
      assert AllAccepted(acts[1..]);
      assert !z.stale && forall i :: 0 <= i < |z.handlers| ==> z.handlers[i] != Refused;
      hide Next, Enabled;
      AcceptedNeverStale(count, z, acts[1..]);
    }
  }

  /** While submissions are accepted, the mirror at rest is always up to date. */
  lemma AcceptedReachesLatest(count: nat, n: nat, acts: seq<Action>)
    requires count > 0 && Run(count, Start(n), acts) && AllAccepted(acts)
    ensures var y := Exec(count, Start(n), acts);
      AtRest(y) && LatestPoll(acts).Some? ==> Sent(y, LatestPoll(acts).value, PollCount(acts))
  {
    MirrorReachesLatest(count, n, acts);
    hide Exec, PollCount, LatestPoll, Sent;
    AcceptedNeverStale(count, Start(n), acts);
  }

  /** Such a run: a refused submission leaves the newest image unsent at rest. */
  lemma RefusalLeavesStale(image: seq<bv16>)
    requires |image| == 1
    ensures var acts := [Poll(0, image), Schedule(0), Submit(0, false), GiveBack(0)];
      && Run(1, Start(1), acts)
      && Exec(1, Start(1), acts) == Sys(State(image, 1, false), true, [Idle], [], true)
  {
    var y0 := Start(1);
    var y1 := Next(1, y0, Poll(0, image));
    var y2 := Next(1, y1, Schedule(0));
    var y3 := Next(1, y2, Submit(0, false));
    var y4 := Next(1, y3, GiveBack(0));
    var a := [Poll(0, image), Schedule(0), Submit(0, false), GiveBack(0)];
    assert a[3..] == [GiveBack(0)] && Run(1, y4, []) && Exec(1, y4, []) == y4;
    assert Run(1, y3, a[3..]) && Exec(1, y3, a[3..]) == y4;
    assert a[2..][1..] == a[3..] && Run(1, y2, a[2..]) && Exec(1, y2, a[2..]) == y4;
    assert a[1..][1..] == a[2..] && Run(1, y1, a[1..]) && Exec(1, y1, a[1..]) == y4;
  }
}
