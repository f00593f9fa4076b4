/**
  What the rate limiter promises of the requests themselves: a task sends after it
  has left the limiter, so the spacing of the requests depends on how long tasks
  take to send once granted.
 */
module RequestSpacing {
  import opened Wrappers
  import opened RateLimiter

  // ----- every request has a grant of its own -----

  ghost predicate GrantsKnown(s: State) {
    && (forall t | s.At(t).OwesRequest() :: s.At(t).granted in s.grants)
    && (forall i | 0 <= i < |s.sends| ::
          s.sends[i].granted in s.grants && s.sends[i].granted <= s.sends[i].at <= s.clock)
  }

  ghost predicate OwedDistinct(s: State) {
    forall t, u | t != u && s.At(t).OwesRequest() && s.At(u).OwesRequest() :: s.At(t).granted != s.At(u).granted
  }

  ghost predicate OwedNotSent(s: State) {
    forall t, i | 0 <= i < |s.sends| && s.At(t).OwesRequest() :: s.sends[i].granted != s.At(t).granted
  }

  predicate SentInOrder(sends: seq<Request>) {
    forall i, j | 0 <= i < j < |sends| :: sends[i].granted != sends[j].granted && sends[i].at <= sends[j].at
  }

  ghost predicate GrantsDistinct(s: State) {
    OwedDistinct(s) && OwedNotSent(s) && SentInOrder(s.sends)
  }

  ghost predicate RequestInvariant(s: State) {
    Invariant(s) && GrantsKnown(s) && GrantsDistinct(s)
  }

  /** A new grant is later than every earlier one. */
  lemma StampIsNew(s: State, t: Task)
    requires Invariant(s) && s.At(t).Ready?
    ensures forall g | g in s.grants :: g < s.clock
  {
    assert InTime(s.At(t), s.last, s.clock);
    forall i | 0 <= i < |s.grants|
      ensures s.grants[i] < s.clock
    {
      if i < |s.grants| - 1 {
        EarlierThanLast(s.grants, i);
      }
    }
  }

  lemma GrantsArePast(s: State)
    requires Invariant(s)
    ensures forall g | g in s.grants :: g <= s.clock
  {
    forall i | 0 <= i < |s.grants|
      ensures s.grants[i] <= s.clock
    {
      if i < |s.grants| - 1 {
        EarlierThanLast(s.grants, i);
      }
    }
  }

  lemma StepKeepsKnown(s: State, step: Step)
    requires RequestInvariant(s) && Enabled(s, step)
    ensures GrantsKnown(Next(s, step))
  {
    var s' := Next(s, step);
    GrantsArePast(s);
    forall u | s'.At(u).OwesRequest()
      ensures s'.At(u).granted in s'.grants
    {
      if Actor(step) != Some(u) {
        OthersStay(s, step, u);
      }
    }
  }

  /** A task's grant after a step is the one it had, or the new one of a stamp. */
  lemma GrantOrigin(s: State, step: Step, u: Task)
    requires Enabled(s, step) && Next(s, step).At(u).OwesRequest()
    ensures if step == Stamp(u) then Next(s, step).At(u).granted == s.clock
            else s.At(u).OwesRequest() && Next(s, step).At(u).granted == s.At(u).granted
  {
    if Actor(step) != Some(u) {
      OthersStay(s, step, u);
    }
  }

  lemma StepKeepsOwed(s: State, step: Step)
    requires RequestInvariant(s) && Enabled(s, step)
    ensures OwedDistinct(Next(s, step))
  {
    var s' := Next(s, step);
    forall t, u | t != u && s'.At(t).OwesRequest() && s'.At(u).OwesRequest()
      ensures s'.At(t).granted != s'.At(u).granted
    {
      GrantOrigin(s, step, t);
      GrantOrigin(s, step, u);
      if step.Stamp? {
        StampIsNew(s, step.t);
      }
    }
  }

  lemma StepKeepsNotSent(s: State, step: Step)
    requires RequestInvariant(s) && Enabled(s, step)
    ensures OwedNotSent(Next(s, step))
  {
    var s' := Next(s, step);
    forall t, i | 0 <= i < |s'.sends| && s'.At(t).OwesRequest()
      ensures s'.sends[i].granted != s'.At(t).granted
    {
      GrantOrigin(s, step, t);
      if step.Stamp? {
        StampIsNew(s, step.t);
      }
    }
  }

  lemma StepKeepsDistinct(s: State, step: Step)
    requires RequestInvariant(s) && Enabled(s, step)
    ensures GrantsDistinct(Next(s, step))
  {
    StepKeepsOwed(s, step);
    StepKeepsNotSent(s, step);
  }

  lemma {:induction false} RunKeepsRequests(s: State, run: seq<Step>)
    requires RequestInvariant(s) && IsRun(s, run)
    ensures RequestInvariant(Final(s, run))
    decreases |run|
  {
    if run != [] {
      StepKeepsInvariant(s, run[0]);
      StepKeepsKnown(s, run[0]);
      StepKeepsDistinct(s, run[0]);
      RunKeepsRequests(Next(s, run[0]), run[1..]);
    }
  }

  // ----- requests sent promptly are spaced -----

  /** Every request left at most `delay` after its grant. */
  predicate Prompt(sends: seq<Request>, delay: nat) {
    forall i | 0 <= i < |sends| :: sends[i].at <= sends[i].granted + delay
  }

  /** Consecutive requests are at least `gap` apart. */
  predicate SpacedRequests(sends: seq<Request>, gap: nat) {
    forall i | 0 <= i < |sends| - 1 :: sends[i].at + gap <= sends[i + 1].at
  }

  lemma {:induction false} GrantsApart(grants: seq<nat>, i: nat, j: nat)
    requires Spaced(grants) && i < j < |grants|
    ensures grants[i] + GAP <= grants[j]
    decreases j
  {
    if i < j - 1 {
      GrantsApart(grants, i, j - 1);
    }
  }

  lemma DistinctGrantsApart(grants: seq<nat>, g: nat, h: nat)
    requires Spaced(grants) && g in grants && h in grants && g != h
    ensures g + GAP <= h || h + GAP <= g
  {
    var i :| 0 <= i < |grants| && grants[i] == g;
    var j :| 0 <= j < |grants| && grants[j] == h;
    if i < j {
      GrantsApart(grants, i, j);
    } else {
      GrantsApart(grants, j, i);
    }
  }

  /** In every run, requests sent within `delay` of their grants are at least GAP - delay apart. */
  lemma RequestsAreSpaced(run: seq<Step>, delay: nat)
    requires IsRun(INITIAL, run) && Prompt(Final(INITIAL, run).sends, delay)
    ensures SpacedRequests(Final(INITIAL, run).sends, if delay <= GAP then GAP - delay else 0)
  {
    var s := Final(INITIAL, run);
    RunKeepsRequests(INITIAL, run);
    forall i | 0 <= i < |s.sends| - 1
      ensures s.sends[i].at + (if delay <= GAP then GAP - delay else 0) <= s.sends[i + 1].at
    {
      DistinctGrantsApart(s.grants, s.sends[i].granted, s.sends[i + 1].granted);
    }
  }

  // ----- requests in a window -----

  function CountRequests(sends: seq<Request>, from: int, to: int): nat {
    if sends == [] then 0
    else
      var n := |sends| - 1;
      CountRequests(sends[..n], from, to) + if from <= sends[n].at <= to then 1 else 0
  }

  function GrantsWithin(grants: seq<nat>, from: int, to: int): set<nat> {
    set g | g in grants && from <= g <= to
  }

  lemma {:induction false} SetOfGrants(grants: seq<nat>, from: int, to: int)
    ensures |GrantsWithin(grants, from, to)| <= CountIn(grants, from, to)
    decreases |grants|
  {
    if grants != [] {
      var n := |grants| - 1;
      SetOfGrants(grants[..n], from, to);
      assert grants == grants[..n] + [grants[n]];
      assert GrantsWithin(grants, from, to)
          == GrantsWithin(grants[..n], from, to) + if from <= grants[n] <= to then {grants[n]} else {};
    }
  }

  /** Requests in a window use up grants of the window that starts `delay` earlier, one each. */
  lemma {:induction false} RequestsUseGrants(sends: seq<Request>, grants: set<nat>, from: int, to: int, delay: nat)
    requires Prompt(sends, delay)
    requires forall i | 0 <= i < |sends| :: sends[i].granted <= sends[i].at
    requires forall i, j | 0 <= i < j < |sends| :: sends[i].granted != sends[j].granted
    requires forall i | 0 <= i < |sends| && from - delay <= sends[i].granted <= to :: sends[i].granted in grants
    ensures CountRequests(sends, from, to) <= |grants|
    decreases |sends|
  {
    if sends != [] {
      var n := |sends| - 1;
      if from <= sends[n].at <= to {
        RequestsUseGrants(sends[..n], grants - {sends[n].granted}, from, to, delay);
      } else {
        RequestsUseGrants(sends[..n], grants, from, to, delay);
      }
    }
  }

  /** In every run, any window of `width` holds at most (width + delay) / GAP + 1 requests sent within `delay`. */
  lemma RequestsPerWindow(run: seq<Step>, delay: nat, from: int, width: nat)
    requires IsRun(INITIAL, run) && Prompt(Final(INITIAL, run).sends, delay)
    ensures CountRequests(Final(INITIAL, run).sends, from, from + width) <= (width + delay) / GAP + 1
  {
    var s := Final(INITIAL, run);
    RunKeepsRequests(INITIAL, run);
    WindowOf(s, delay, from, from + width);
  }

  lemma WindowOf(s: State, delay: nat, from: int, to: int)
    requires RequestInvariant(s) && Prompt(s.sends, delay) && from <= to
    ensures CountRequests(s.sends, from, to) <= (to - from + delay) / GAP + 1
  {
    RequestsUseGrants(s.sends, GrantsWithin(s.grants, from - delay, to), from, to, delay);
    SetOfGrants(s.grants, from - delay, to);
    SpacedCount(s.grants, from - delay, to);
  }

  // ----- and no better -----

  /** The steps of one task that is alone in the limiter and need not sleep. */
  function Entry(t: Task): seq<Step> {
    [Call(t), TakePermit(t), TakeLock(t), Check(t)]
  }

  function Exit(t: Task): seq<Step> {
    [Stamp(t), Unlock(t), Release(t)]
  }

  lemma RunCons(s: State, step: Step, rest: seq<Step>)
    requires Enabled(s, step) && IsRun(Next(s, step), rest)
    ensures IsRun(s, [step] + rest) && Final(s, [step] + rest) == Final(Next(s, step), rest)
  {
    assert ([step] + rest)[1..] == rest;
  }

  lemma {:induction false} RunAppend(s: State, first: seq<Step>, second: seq<Step>)
    requires IsRun(s, first) && IsRun(Final(s, first), second)
    ensures IsRun(s, first + second) && Final(s, first + second) == Final(Final(s, first), second)
    decreases |first|
  {
    if first == [] {
      assert first + second == second;
    } else {
      assert (first + second)[1..] == first[1..] + second;
      RunAppend(Next(s, first[0]), first[1..], second);
    }
  }

  lemma OneEntry(s: State, t: Task)
    requires s.permits == 1 && s.lockedBy == None && s.At(t).Idle?
    requires s.last.Some? ==> s.last.value + GAP <= s.clock
    ensures IsRun(s, Entry(t))
    ensures Final(s, Entry(t)) == s.(permits := 0, lockedBy := Some(t), phases := s.phases[t := Ready])
  {
    var s1 := s.Move(t, WaitingPermit);
    var s2 := s1.(permits := 0).Move(t, WaitingLock);
    var s3 := s2.(lockedBy := Some(t)).Move(t, Checking);
    RunCons(s3, Check(t), []);
    RunCons(s2, TakeLock(t), [Check(t)]);
    RunCons(s1, TakePermit(t), [TakeLock(t), Check(t)]);
    RunCons(s, Call(t), [TakePermit(t), TakeLock(t), Check(t)]);
  }

  lemma OneExit(s: State, t: Task)
    requires s.At(t).Ready?
    ensures IsRun(s, Exit(t))
    ensures Final(s, Exit(t)) ==
            s.(permits := s.permits + 1, lockedBy := None, last := Some(s.clock),
               grants := s.grants + [s.clock], phases := s.phases[t := Granted(s.clock)])
  {
    var s1 := s.(last := Some(s.clock), grants := s.grants + [s.clock]).Move(t, Stamped(s.clock));
    var s2 := s1.(lockedBy := None).Move(t, Unlocked(s.clock));
    RunCons(s2, Release(t), []);
    RunCons(s1, Unlock(t), [Release(t)]);
    RunCons(s, Stamp(t), [Unlock(t), Release(t)]);
  }

  lemma OnePass(s: State, t: Task)
    requires s.permits == 1 && s.lockedBy == None && s.At(t).Idle?
    requires s.last.Some? ==> s.last.value + GAP <= s.clock
    ensures IsRun(s, Entry(t) + Exit(t))
    ensures Final(s, Entry(t) + Exit(t)) ==
            s.(last := Some(s.clock), grants := s.grants + [s.clock], phases := s.phases[t := Granted(s.clock)])
  {
    OneEntry(s, t);
    OneExit(Final(s, Entry(t)), t);
    RunAppend(s, Entry(t), Exit(t));
    assert s.phases[t := Ready][t := Granted(s.clock)] == s.phases[t := Granted(s.clock)];
  }

  /** A task alone in the limiter is granted a request, and sends it `wait` later. */
  lemma PassAndSend(s: State, t: Task, wait: nat)
    requires s.permits == 1 && s.lockedBy == None && s.At(t).Idle?
    requires s.last.Some? ==> s.last.value + GAP <= s.clock
    ensures var steps := Entry(t) + Exit(t) + [Tick(wait), Send(t)];
            && IsRun(s, steps)
            && Final(s, steps) == s.(clock := s.clock + wait, last := Some(s.clock), grants := s.grants + [s.clock],
                                     sends := s.sends + [Request(s.clock, s.clock + wait)],
                                     phases := s.phases[t := Idle])
  {
    OnePass(s, t);
    var s1 := Final(s, Entry(t) + Exit(t));
    var s2 := Next(s1, Tick(wait));
    RunCons(s2, Send(t), []);
    RunCons(s1, Tick(wait), [Send(t)]);
    assert [Tick(wait)] + [Send(t)] == [Tick(wait), Send(t)];
    RunAppend(s, Entry(t) + Exit(t), [Tick(wait), Send(t)]);
    assert s2.phases[t := Idle] == s.phases[t := Idle];
  }

  /**
    Two requests whose grants are a gap apart, the first sent `delay` after its
    grant and the second at once: they are only GAP - delay apart.
   */
  lemma RequestsMayBunch(delay: nat) returns (run: seq<Step>)
    requires delay <= GAP
    ensures IsRun(INITIAL, run)
    ensures Final(INITIAL, run).grants == [0, GAP]
    ensures Final(INITIAL, run).sends == [Request(0, delay), Request(GAP, GAP)]
  {
    var first, second := Entry(0) + Exit(0) + [Tick(delay), Send(0)], Entry(1) + Exit(1) + [Tick(0), Send(1)];
    PassAndSend(INITIAL, 0, delay);
    var s1 := Final(INITIAL, first);
    var s2 := Next(s1, Tick(GAP - delay));
    PassAndSend(s2, 1, 0);
    RunCons(s1, Tick(GAP - delay), second);
    RunAppend(INITIAL, first, [Tick(GAP - delay)] + second);
    run := first + ([Tick(GAP - delay)] + second);
  }

  /** All runs whose requests are sent within `delay` keep their requests `gap` apart. */
  ghost predicate AlwaysSpaced(delay: nat, gap: nat) {
    forall run: seq<Step> | IsRun(INITIAL, run) && Prompt(Final(INITIAL, run).sends, delay) ::
      SpacedRequests(Final(INITIAL, run).sends, gap)
  }

  /** The exact promise: the gap less the delay, so the full gap only when nothing is delayed. */
  lemma AlwaysSpacedIff(delay: nat, gap: nat)
    ensures AlwaysSpaced(delay, gap) <==> gap == 0 || delay + gap <= GAP
  {
    if gap == 0 || delay + gap <= GAP {
      forall run: seq<Step> | IsRun(INITIAL, run) && Prompt(Final(INITIAL, run).sends, delay)
        ensures SpacedRequests(Final(INITIAL, run).sends, gap)
      {
        RequestsAreSpaced(run, delay);
      }
    } else {
      var run := RequestsMayBunch(if delay <= GAP then delay else GAP);
      var sends := Final(INITIAL, run).sends;
      assert sends[0].at + gap > sends[0 + 1].at;
    }
  }

  /** One request per 600 ms holds of the requests exactly when each is sent the moment it is granted. */
  lemma FullGapIff(delay: nat)
    ensures AlwaysSpaced(delay, GAP) <==> delay == 0
  {
    AlwaysSpacedIff(delay, GAP);
  }
}
