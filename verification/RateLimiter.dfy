/**
  The process-wide Jupiter rate limiter of crates/arb-sim/src/jupiter_quote.rs:
  any number of tasks, interleaved at every clock reading, lock and await.  Time
  is in milliseconds; nothing depends on the unit being coarse.
 */
module RateLimiter {
  import opened Wrappers

  const GAP: nat := 600

  type Task = int

  datatype Phase =
    | Idle
    | WaitingPermit
    | WaitingLock                // holds the permit
    | Checking                   // holds both, before reading the clock
    | Delaying(remaining: nat)   // has computed how long to sleep
    | Sleeping(until: nat)
    | Ready                      // about to write the time of the request
    | Stamped(granted: nat)      // the new time is written; guard and permit are dropped next
    | Unlocked(granted: nat)
    | Granted(granted: nat)      // rate_limit has returned; the request is not sent yet
  {
    predicate HoldsPermit() {
      WaitingLock? || HoldsLock() || Unlocked?
    }

    predicate HoldsLock() {
      Checking? || Delaying? || Sleeping? || Ready? || Stamped?
    }

    /** Has been granted a request that it has not sent. */
    predicate OwesRequest() {
      Stamped? || Unlocked? || Granted?
    }

    /** Suspended at an await, where the task can be dropped. */
    predicate Cancellable() {
      WaitingPermit? || WaitingLock? || Sleeping?
    }
  }

  /** A request: when it was granted and when it left. */
  datatype Request = Request(granted: nat, at: nat)

  datatype State = State(
    clock: nat,
    permits: nat,
    lockedBy: Option<Task>,
    last: Option<nat>,
    phases: map<Task, Phase>,
    grants: seq<nat>,
    sends: seq<Request>)
  {
    function At(t: Task): Phase {
      if t in phases then phases[t] else Idle
    }

    function Move(t: Task, p: Phase): State {
      this.(phases := phases[t := p])
    }
  }

  const INITIAL: State := State(0, 1, None, None, map[], [], [])

  datatype Step =
    | Tick(elapsed: nat)
    | Call(t: Task)
    | TakePermit(t: Task)
    | TakeLock(t: Task)
    | Check(t: Task)
    | Arm(t: Task)
    | Wake(t: Task)
    | Stamp(t: Task)
    | Unlock(t: Task)
    | Release(t: Task)
    | Send(t: Task)
    | Cancel(t: Task)

  predicate Enabled(s: State, step: Step) {
    match step
    case Tick(_) => true
    case Call(t) => s.At(t).Idle?
    case TakePermit(t) => s.At(t).WaitingPermit? && 0 < s.permits
    case TakeLock(t) => s.At(t).WaitingLock? && s.lockedBy.None?
    case Check(t) => s.At(t).Checking?
    case Arm(t) => s.At(t).Delaying?
    case Wake(t) => s.At(t).Sleeping? && s.At(t).until <= s.clock
    case Stamp(t) => s.At(t).Ready?
    case Unlock(t) => s.At(t).Stamped?
    case Release(t) => s.At(t).Unlocked?
    case Send(t) => s.At(t).Granted?
    case Cancel(t) => s.At(t).Cancellable()
  }

  function Next(s: State, step: Step): State
    requires Enabled(s, step)
  {
    match step
    case Tick(elapsed) => s.(clock := s.clock + elapsed)
    case Call(t) => s.Move(t, WaitingPermit)
    case TakePermit(t) => s.(permits := s.permits - 1).Move(t, WaitingLock)
    case TakeLock(t) => s.(lockedBy := Some(t)).Move(t, Checking)
    case Check(t) =>
      var elapsed := if s.last.Some? then s.clock - s.last.value else GAP;
      if elapsed < GAP then s.Move(t, Delaying(if elapsed < 0 then GAP else GAP - elapsed)) else s.Move(t, Ready)
    case Arm(t) => s.Move(t, Sleeping(s.clock + s.At(t).remaining))
    case Wake(t) => s.Move(t, Ready)
    case Stamp(t) => s.(last := Some(s.clock), grants := s.grants + [s.clock]).Move(t, Stamped(s.clock))
    case Unlock(t) => s.(lockedBy := None).Move(t, Unlocked(s.At(t).granted))
    case Release(t) => s.(permits := s.permits + 1).Move(t, Granted(s.At(t).granted))
    case Send(t) => s.(sends := s.sends + [Request(s.At(t).granted, s.clock)]).Move(t, Idle)
    case Cancel(t) =>
      s.(permits := if s.At(t).HoldsPermit() then s.permits + 1 else s.permits,
         lockedBy := if s.At(t).HoldsLock() then None else s.lockedBy).Move(t, Idle)
  }

  // ----- what every step keeps -----

  predicate Spaced(grants: seq<nat>) {
    forall i | 0 <= i < |grants| - 1 :: grants[i] + GAP <= grants[i + 1]
  }

  /** The next stamp of a task in this phase comes at least a gap after the last one. */
  predicate InTime(p: Phase, last: Option<nat>, clock: nat) {
    last.Some? ==>
      && (p.Delaying? ==> last.value + GAP <= clock + p.remaining)
      && (p.Sleeping? ==> last.value + GAP <= p.until)
      && (p.Ready? ==> last.value + GAP <= clock)
  }

  /** At most one task holds the permit, and one does exactly when none is available. */
  ghost predicate PermitInvariant(s: State) {
    && s.permits <= 1
    && (forall t | s.At(t).HoldsPermit() :: s.permits == 0)
    && (forall t, u | s.At(t).HoldsPermit() && s.At(u).HoldsPermit() :: t == u)
    && (s.permits == 0 ==> exists t :: s.At(t).HoldsPermit())
  }

  ghost predicate LockInvariant(s: State) {
    forall t :: s.At(t).HoldsLock() <==> s.lockedBy == Some(t)
  }

  /** The shared instant is the last grant; grants are spaced and the next one will be. */
  ghost predicate TimeInvariant(s: State) {
    && s.last == (if s.grants == [] then None else Some(s.grants[|s.grants| - 1]))
    && (s.last.Some? ==> s.last.value <= s.clock)
    && (forall t :: InTime(s.At(t), s.last, s.clock))
    && Spaced(s.grants)
  }

  ghost predicate Invariant(s: State) {
    PermitInvariant(s) && LockInvariant(s) && TimeInvariant(s)
  }

  /** The task a step is about. */
  function Actor(step: Step): Option<Task> {
    if step.Tick? then None else Some(step.t)
  }

  /** A step moves its own task only. */
  lemma OthersStay(s: State, step: Step, u: Task)
    requires Enabled(s, step) && Actor(step) != Some(u)
    ensures Next(s, step).At(u) == s.At(u)
  {
  }

  lemma StepKeepsPermit(s: State, step: Step)
    requires PermitInvariant(s) && Enabled(s, step)
    ensures PermitInvariant(Next(s, step))
  {
    var s' := Next(s, step);
    forall u | Actor(step) != Some(u)
      ensures s'.At(u) == s.At(u)
    {
      OthersStay(s, step, u);
    }
    if s.permits == 0 {
      var h :| s.At(h).HoldsPermit();
      assert s'.permits == 0 ==> s'.At(h).HoldsPermit();
    } else if s'.permits == 0 {
      assert s'.At(step.t).HoldsPermit();
    }
  }

  lemma StepKeepsLock(s: State, step: Step)
    requires LockInvariant(s) && Enabled(s, step)
    ensures LockInvariant(Next(s, step))
  {
    var s' := Next(s, step);
    forall u
      ensures s'.At(u).HoldsLock() <==> s'.lockedBy == Some(u)
    {
      if Actor(step) != Some(u) {
        OthersStay(s, step, u);
      }
    }
  }

  lemma StepKeepsTime(s: State, step: Step)
    requires Invariant(s) && Enabled(s, step)
    ensures TimeInvariant(Next(s, step))
  {
    var s' := Next(s, step);
    forall u
      ensures InTime(s'.At(u), s'.last, s'.clock)
    {
      if Actor(step) != Some(u) {
        OthersStay(s, step, u);
      }
    }
    if step.Stamp? {
      StampIsSpaced(s.grants, s.last, s.clock);
    }
  }

  lemma StampIsSpaced(grants: seq<nat>, last: Option<nat>, now: nat)
    requires Spaced(grants) && last == (if grants == [] then None else Some(grants[|grants| - 1]))
    requires last.Some? ==> last.value + GAP <= now
    ensures Spaced(grants + [now])
  {
  }

  lemma StepKeepsInvariant(s: State, step: Step)
    requires Invariant(s) && Enabled(s, step)
    ensures Invariant(Next(s, step))
  {
    StepKeepsPermit(s, step);
    StepKeepsLock(s, step);
    StepKeepsTime(s, step);
  }

  // ----- whole runs -----

  predicate IsRun(s: State, run: seq<Step>)
    decreases |run|
  {
    run == [] || (Enabled(s, run[0]) && IsRun(Next(s, run[0]), run[1..]))
  }

  function Final(s: State, run: seq<Step>): State
    requires IsRun(s, run)
    decreases |run|
  {
    if run == [] then s else Final(Next(s, run[0]), run[1..])
  }

  lemma {:induction false} RunKeepsInvariant(s: State, run: seq<Step>)
    requires Invariant(s) && IsRun(s, run)
    ensures Invariant(Final(s, run))
    decreases |run|
  {
    if run != [] {
      StepKeepsInvariant(s, run[0]);
      RunKeepsInvariant(Next(s, run[0]), run[1..]);
    }
  }

  /** Whatever the interleaving and the cancellations, consecutive grants are a gap apart. */
  lemma GrantsAreSpaced(run: seq<Step>)
    requires IsRun(INITIAL, run)
    ensures Spaced(Final(INITIAL, run).grants)
  {
    RunKeepsInvariant(INITIAL, run);
  }

  /** How many of the times fall into from..to, both included. */
  function CountIn(times: seq<nat>, from: int, to: int): nat {
    if times == [] then 0
    else
      var n := |times| - 1;
      CountIn(times[..n], from, to) + if from <= times[n] <= to then 1 else 0
  }

  /** Cutting the window at a time no entry exceeds changes nothing. */
  lemma {:induction false} CountUpTo(times: seq<nat>, from: int, to: int, cut: int)
    requires cut <= to && forall i | 0 <= i < |times| :: times[i] <= cut
    ensures CountIn(times, from, to) == CountIn(times, from, cut)
  {
    if times != [] {
      CountUpTo(times[..|times| - 1], from, to, cut);
    }
  }

  lemma {:induction false} EarlierThanLast(times: seq<nat>, i: nat)
    requires Spaced(times) && i < |times| - 1
    ensures times[i] + GAP <= times[|times| - 1]
    decreases |times|
  {
    if i < |times| - 2 {
      EarlierThanLast(times[..|times| - 1], i);
    }
  }

  lemma {:induction false} SpacedCount(times: seq<nat>, from: int, to: int)
    requires Spaced(times)
    ensures CountIn(times, from, to) <= if to < from then 0 else (to - from) / GAP + 1
    decreases |times|
  {
    if times != [] {
      var n := |times| - 1;
      if from <= times[n] <= to {
        var cut := times[n] - GAP;
        forall i | 0 <= i < n
          ensures times[..n][i] <= cut
        {
          EarlierThanLast(times, i);
        }
        CountUpTo(times[..n], from, to, cut);
        SpacedCount(times[..n], from, cut);
      } else {
        SpacedCount(times[..n], from, to);
      }
    }
  }

  /** In every run, any window of `width` contains at most width / GAP + 1 grants. */
  lemma GrantsPerWindow(run: seq<Step>, from: int, width: nat)
    requires IsRun(INITIAL, run)
    ensures CountIn(Final(INITIAL, run).grants, from, from + width) <= width / GAP + 1
  {
    GrantsAreSpaced(run);
    SpacedCount(Final(INITIAL, run).grants, from, from + width);
  }

  // ----- progress -----

  /** A step that brings some waiting task further, after letting enough time pass. */
  predicate Advances(s: State, wait: nat, step: Step) {
    && !step.Tick? && !step.Call? && !step.Cancel?
    && Enabled(Next(s, Tick(wait)), step)
  }

  /** The limiter never deadlocks: while any task is inside it, some task can move on. */
  lemma NeverStuck(s: State, t: Task)
    requires Invariant(s) && !s.At(t).Idle?
    ensures exists wait, step :: Advances(s, wait, step)
  {
    if s.At(t).WaitingPermit? {
      if s.permits == 0 {
        var h :| s.At(h).HoldsPermit();
        HolderAdvances(s, h);
      } else {
        assert Advances(s, 0, TakePermit(t));
      }
    } else if s.At(t).Granted? {
      assert Advances(s, 0, Send(t));
    } else {
      HolderAdvances(s, t);
    }
  }

  lemma LockerIsHolder(s: State, h: Task)
    requires Invariant(s) && s.At(h).HoldsPermit()
    ensures s.lockedBy.Some? ==> s.lockedBy.value == h
  {
    if s.lockedBy.Some? {
      assert s.At(s.lockedBy.value).HoldsLock();
    }
  }

  lemma HolderAdvances(s: State, h: Task)
    requires Invariant(s) && s.At(h).HoldsPermit()
    ensures exists wait, step :: Advances(s, wait, step)
  {
    match s.At(h)
    case WaitingLock =>
      LockerIsHolder(s, h);
      assert Advances(s, 0, TakeLock(h));
    case Checking => assert Advances(s, 0, Check(h));
    case Delaying(_) => assert Advances(s, 0, Arm(h));
    case Sleeping(until) => assert Advances(s, until, Wake(h));
    case Ready => assert Advances(s, 0, Stamp(h));
    case Stamped(_) => assert Advances(s, 0, Unlock(h));
    case Unlocked(_) => assert Advances(s, 0, Release(h));
  }

  // ----- dropped tasks -----

  /**
    A task can be dropped at every await, waiting for the permit, for the lock or
    asleep; it leaves both free if it had them, and the others as they were.
   */
  lemma CancelReleases(s: State, t: Task)
    requires Invariant(s) && (s.At(t).WaitingPermit? || s.At(t).WaitingLock? || s.At(t).Sleeping?)
    ensures Enabled(s, Cancel(t))
    ensures var s' := Next(s, Cancel(t));
            && s'.At(t).Idle?
            && s'.permits == (if s.At(t).WaitingPermit? then s.permits else 1)
            && s'.lockedBy == (if s.At(t).Sleeping? then None else s.lockedBy)
            && s'.last == s.last && s'.grants == s.grants && s'.sends == s.sends && s'.clock == s.clock
            && forall u | u != t :: s'.At(u) == s.At(u)
  {
    forall u | u != t
      ensures Next(s, Cancel(t)).At(u) == s.At(u)
    {
      OthersStay(s, Cancel(t), u);
    }
  }

  // ----- no needless wait -----

  /** When a task that holds the lock now can be granted at the earliest. */
  function Due(s: State): nat {
    var n := |s.grants|;
    if n > 0 && s.clock < s.grants[n - 1] + 600 then s.grants[n - 1] + 600 else s.clock
  }

  /** The steps of a task that is never kept waiting by anything but the limiter. */
  function PromptSteps(s: State, t: Task): seq<Step> {
    if Due(s) == s.clock then [Check(t), Stamp(t)]
    else [Check(t), Arm(t), Tick(Due(s) - s.clock), Wake(t), Stamp(t)]
  }

  lemma OneStep(s: State, step: Step, rest: seq<Step>)
    requires Enabled(s, step) && IsRun(Next(s, step), rest)
    ensures IsRun(s, [step] + rest) && Final(s, [step] + rest) == Final(Next(s, step), rest)
  {
    assert ([step] + rest)[1..] == rest;
  }

  lemma CheckIs(s: State, t: Task)
    requires Invariant(s) && s.At(t).Checking?
    ensures Next(s, Check(t)) == s.Move(t, if Due(s) == s.clock then Ready else Delaying(Due(s) - s.clock))
  {
  }

  lemma SleepAndStamp(s: State, t: Task, wait: nat)
    requires s.At(t) == Delaying(wait)
    ensures var steps := [Arm(t), Tick(wait), Wake(t), Stamp(t)];
            && IsRun(s, steps)
            && Final(s, steps).grants == s.grants + [s.clock + wait]
            && Final(s, steps).At(t) == Stamped(s.clock + wait)
  {
    var armed := Next(s, Arm(t));
    var ticked := Next(armed, Tick(wait));
    var woken := Next(ticked, Wake(t));
    OneStep(woken, Stamp(t), []);
    OneStep(ticked, Wake(t), [Stamp(t)]);
    assert [Wake(t)] + [Stamp(t)] == [Wake(t), Stamp(t)];
    OneStep(armed, Tick(wait), [Wake(t), Stamp(t)]);
    assert [Tick(wait)] + [Wake(t), Stamp(t)] == [Tick(wait), Wake(t), Stamp(t)];
    OneStep(s, Arm(t), [Tick(wait), Wake(t), Stamp(t)]);
    assert [Arm(t)] + [Tick(wait), Wake(t), Stamp(t)] == [Arm(t), Tick(wait), Wake(t), Stamp(t)];
  }

  /** Left alone, a task that has the lock is granted at once, or 600 ms after the last grant, and no later. */
  lemma GrantedWhenDue(s: State, t: Task)
    requires Invariant(s) && s.At(t).Checking?
    ensures IsRun(s, PromptSteps(s, t))
    ensures Final(s, PromptSteps(s, t)).grants == s.grants + [Due(s)]
    ensures Final(s, PromptSteps(s, t)).At(t) == Stamped(Due(s))
  {
    CheckIs(s, t);
    var checked := Next(s, Check(t));
    if Due(s) == s.clock {
      OneStep(checked, Stamp(t), []);
      OneStep(s, Check(t), [Stamp(t)]);
    } else {
      var wait := Due(s) - s.clock;
      SleepAndStamp(checked, t, wait);
      OneStep(s, Check(t), [Arm(t), Tick(wait), Wake(t), Stamp(t)]);
      assert [Check(t)] + [Arm(t), Tick(wait), Wake(t), Stamp(t)] == PromptSteps(s, t);
    }
  }
}
