/** When the volume tracker raises an alert, counted on the swaps of the run alone. */
module VolumeAlerts {
  import opened VolumeTracker

  /** How many swaps of the token a run holds from a moment on. */
  function SwapsSince(run: seq<Event>, token: string, from: int): nat {
    if run == [] then 0
    else
      var n := |run| - 1;
      SwapsSince(run[..n], token, from)
      + if run[n].Swap? && run[n].token == token && from <= run[n].at then 1 else 0
  }

  /** The oldest swap of the token in the last five minutes. */
  ghost predicate IsOldest(run: seq<Event>, token: string, now: nat, at: nat) {
    && Swap(token, at) in run && now - at <= 300_000_000_000
    && forall t: nat | Swap(token, t) in run && now - t <= 300_000_000_000 :: at <= t
  }

  /** `recent` swaps in a minute against `total` over `span`: more than three times the rate, a span of at least 1 s. */
  predicate Outpaces(recent: nat, total: nat, span: int) {
    recent * (if span < 1_000_000_000 then 1_000_000_000 else span) > total * 180_000_000_000
  }

  // ----- the history of a token -----

  function TimesOf(run: seq<Event>, token: string): Times {
    if run == [] then []
    else
      var n := |run| - 1;
      TimesOf(run[..n], token) + if run[n].Swap? && run[n].token == token then [run[n].at] else []
  }

  lemma {:induction false} HistoryIs(run: seq<Event>, token: string)
    ensures History(LogAfter(run).swaps, token) == TimesOf(run, token)
    decreases |run|
  {
    if run != [] {
      HistoryIs(run[..|run| - 1], token);
    }
  }

  lemma {:induction false} TimesOfIs(run: seq<Event>, token: string, t: nat)
    ensures t in TimesOf(run, token) <==> Swap(token, t) in run
    decreases |run|
  {
    if run != [] {
      var n := |run| - 1;
      TimesOfIs(run[..n], token, t);
      assert run == run[..n] + [run[n]];
    }
  }

  function CountFrom(history: Times, from: int): nat {
    if history == [] then 0 else (if from <= history[0] then 1 else 0) + CountFrom(history[1..], from)
  }

  lemma {:induction false} CountAppend(history: Times, t: nat, from: int)
    ensures CountFrom(history + [t], from) == CountFrom(history, from) + if from <= t then 1 else 0
    decreases |history|
  {
    if history == [] {
      assert (history + [t])[1..] == [];
    } else {
      assert (history + [t])[1..] == history[1..] + [t];
      CountAppend(history[1..], t, from);
    }
  }

  lemma {:induction false} SwapsCounted(run: seq<Event>, token: string, from: int)
    ensures SwapsSince(run, token, from) == CountFrom(TimesOf(run, token), from)
    decreases |run|
  {
    if run != [] {
      var n := |run| - 1;
      SwapsCounted(run[..n], token, from);
      CountAppend(TimesOf(run[..n], token), run[n].at, from);
      assert TimesOf(run[..n], token) + [] == TimesOf(run[..n], token);
    }
  }

  // ----- the window of a history -----

  lemma {:induction false} WindowCounted(history: Times, now: nat)
    ensures |InWindow(history, now)| == CountFrom(history, now - 300_000_000_000)
    ensures RecentCount(InWindow(history, now), now) == CountFrom(history, now - 60_000_000_000 + 1)
    decreases |history|
  {
    if history != [] {
      WindowCounted(history[1..], now);
    }
  }

  lemma {:induction false} WindowFront(history: Times, now: nat)
    requires Sorted(history) && InWindow(history, now) != []
    ensures var first := InWindow(history, now)[0];
            && first in history && now - 300_000_000_000 <= first
            && forall t | t in history && now - 300_000_000_000 <= t :: first <= t
    decreases |history|
  {
    if now - history[0] > WINDOW {
      WindowFront(history[1..], now);
      assert history == [history[0]] + history[1..];
    } else {
      assert InWindow(history, now)[0] == history[0];
    }
  }

  lemma OldestIs(run: seq<Event>, token: string, now: nat)
    requires Sorted(TimesOf(run, token)) && InWindow(TimesOf(run, token), now) != []
    ensures IsOldest(run, token, now, InWindow(TimesOf(run, token), now)[0])
  {
    var history := TimesOf(run, token);
    WindowFront(history, now);
    TimesOfIs(run, token, InWindow(history, now)[0]);
    forall t: nat | Swap(token, t) in run && now - t <= 300_000_000_000
      ensures InWindow(history, now)[0] <= t
    {
      TimesOfIs(run, token, t);
    }
  }

  lemma OneOldest(run: seq<Event>, token: string, now: nat, a: nat, b: nat)
    requires IsOldest(run, token, now, a) && IsOldest(run, token, now, b)
    ensures a == b
  {
  }

  // ----- spikes -----

  /** Five swaps or more in five minutes, and those of the last minute outpace them. */
  ghost predicate Spike(run: seq<Event>, token: string, now: nat) {
    && 5 <= SwapsSince(run, token, now - 300_000_000_000)
    && exists oldest: nat | IsOldest(run, token, now, oldest) ::
         Outpaces(SwapsSince(run, token, now - 60_000_000_000 + 1),
                  SwapsSince(run, token, now - 300_000_000_000), now - oldest)
  }

  lemma SpikeIff(run: seq<Event>, token: string, now: nat)
    requires Sorted(TimesOf(run, token))
    ensures IsSpike(InWindow(TimesOf(run, token), now), now) <==> Spike(run, token, now)
  {
    var window := InWindow(TimesOf(run, token), now);
    WindowCounted(TimesOf(run, token), now);
    SwapsCounted(run, token, now - 300_000_000_000);
    SwapsCounted(run, token, now - 60_000_000_000 + 1);
    if window != [] {
      OldestIs(run, token, now);
      OutpacesIff(window, now);
      forall oldest: nat | IsOldest(run, token, now, oldest)
        ensures oldest == window[0]
      {
        OneOldest(run, token, now, oldest, window[0]);
      }
    }
  }

  lemma OutpacesIff(window: Times, now: nat)
    requires window != []
    ensures IsSpike(window, now) <==>
              5 <= |window| && Outpaces(RecentCount(window, now), |window|, now - window[0])
  {
    assert |window| * 60 * SECOND * SPIKE_MULTIPLIER == |window| * 180_000_000_000;
  }

  // ----- alerts -----

  lemma SortedWithNow(run: seq<Event>, token: string, now: nat)
    requires ClockRuns(run) && (run != [] ==> run[|run| - 1].at <= now)
    ensures Sorted(TimesOf(run, token))
  {
    HistoryIs(run, token);
    LogIsSorted(run, token, now);
  }

  /** The flag of a token is the time of one of its alerts. */
  lemma {:induction false} FlagIsAnAlert(run: seq<Event>, token: string) returns (i: nat)
    requires token in LogAfter(run).flagged
    ensures i < |run| && AlertAt(run, i, token) && run[i].at == LogAfter(run).flagged[token]
    decreases |run|
  {
    var n := |run| - 1;
    if AlertAt(run, n, token) {
      i := n;
    } else {
      i := FlagIsAnAlert(run[..n], token);
      assert run[..n][..i] == run[..i];
    }
  }

  lemma HotIff(run: seq<Event>, token: string, now: nat)
    requires ClockRuns(run) && (run != [] ==> run[|run| - 1].at <= now)
    ensures IsHotAt(LogAfter(run).flagged, token, now) <==>
              exists j | 0 <= j < |run| :: AlertAt(run, j, token) && now - run[j].at < 300_000_000_000
  {
    if token in LogAfter(run).flagged {
      var i := FlagIsAnAlert(run, token);
    }
    forall j | 0 <= j < |run| && AlertAt(run, j, token)
      ensures token in LogAfter(run).flagged && run[j].at <= LogAfter(run).flagged[token]
    {
      FlagIsLastAlert(run, token, j);
    }
  }

  lemma AlertNowIff(before: seq<Event>, token: string, now: nat)
    requires ClockRuns(before + [Swap(token, now)])
    ensures LogAfter(before).Alerts(token, now) <==>
              && Spike(before + [Swap(token, now)], token, now)
              && forall j | 0 <= j < |before| && AlertAt(before, j, token) :: now - before[j].at >= 300_000_000_000
  {
    var upto := before + [Swap(token, now)];
    assert upto[..|before|] == before;
    assert forall j | 0 <= j < |before| :: before[j] == upto[j];
    HistoryIs(before, token);
    SortedWithNow(upto, token, now);
    SpikeIff(upto, token, now);
    HotIff(before, token, now);
  }

  /**
    In every run a swap raises an alert exactly when the token's swaps up to and with
    it make a spike, and no alert was raised for the token in the 300 s before.
   */
  lemma AlertIff(run: seq<Event>, i: nat, token: string)
    requires ClockRuns(run) && i < |run|
    ensures AlertAt(run, i, token) <==>
              && run[i] == Swap(token, run[i].at)
              && Spike(run[..i + 1], token, run[i].at)
              && forall j | 0 <= j < i && AlertAt(run, j, token) :: run[i].at - run[j].at >= 300_000_000_000
  {
    var before := run[..i];
    assert run[..i + 1] == before + [run[i]];
    assert forall j | 0 <= j < i :: before[..j] == run[..j];
    assert forall j | 0 <= j < i :: AlertAt(before, j, token) == AlertAt(run, j, token);
    if run[i] == Swap(token, run[i].at) {
      AlertNowIff(before, token, run[i].at);
    }
  }
}
