/**
  crates/arb-detect/src/volume_tracker.rs: swap history per token, pruned to five
  minutes, and tokens flagged as hot.  Time is an integer count of nanoseconds
  that never goes backwards.
 */
module VolumeTracker {
  import opened Wrappers

  const SECOND: nat := 1_000_000_000
  const WINDOW: nat := 300 * SECOND
  const SPIKE_WINDOW: nat := 60 * SECOND
  const SPIKE_MULTIPLIER: nat := 3
  const HOT_DURATION: nat := 300 * SECOND
  const MIN_HISTORY: nat := 5

  type Times = seq<nat>

  // ----- the tracker's decisions as functions -----

  /** What is left of a history after expired entries are popped from the front. */
  function DropExpired(history: Times, now: nat): Times {
    if history == [] then []
    else if now - history[0] > WINDOW then DropExpired(history[1..], now)
    else history
  }

  /** The entries of a history inside the window, wherever they stand. */
  function InWindow(history: Times, now: nat): Times {
    if history == [] then []
    else if now - history[0] > WINDOW then InWindow(history[1..], now)
    else [history[0]] + InWindow(history[1..], now)
  }

  function RecentCount(history: Times, now: nat): (n: nat)
    ensures n <= |history|
  {
    if history == [] then 0
    else (if now - history[0] < SPIKE_WINDOW then 1 else 0) + RecentCount(history[1..], now)
  }

  /** recent > total / max(window, 1 s) * 60 * 3, without division. */
  predicate IsSpike(history: Times, now: nat) {
    && MIN_HISTORY <= |history|
    && var span := if now - history[0] < SECOND then SECOND else now - history[0];
       RecentCount(history, now) * span > |history| * 60 * SECOND * SPIKE_MULTIPLIER
  }

  predicate IsHotAt(hot: map<string, nat>, token: string, now: nat) {
    token in hot && now - hot[token] < HOT_DURATION
  }

  function History(swaps: map<string, Times>, token: string): Times {
    if token in swaps then swaps[token] else []
  }

  // ----- a tracker that forgets nothing -----

  /** Every swap ever recorded and the time each token was last flagged. */
  datatype Log = Log(swaps: map<string, Times>, flagged: map<string, nat>)
  {
    predicate Alerts(token: string, now: nat) {
      IsSpike(InWindow(History(swaps, token) + [now], now), now) && !IsHotAt(flagged, token, now)
    }

    function Record(token: string, now: nat): Log {
      Log(swaps[token := History(swaps, token) + [now]],
          if Alerts(token, now) then flagged[token := now] else flagged)
    }
  }

  predicate Sorted(history: Times) {
    forall i, j | 0 <= i < j < |history| :: history[i] <= history[j]
  }

  /** A kept history differs from the full one by entries that have expired by `clock`. */
  predicate SameWindow(kept: Times, full: Times, clock: nat) {
    Sorted(full) && AtMost(full, clock) && DropExpired(kept, clock) == DropExpired(full, clock)
  }

  /** The flags kept differ from the full ones by flags that have expired by `clock`. */
  ghost predicate SameHot(hot: map<string, nat>, flagged: map<string, nat>, clock: nat) {
    && (forall t | t in flagged :: flagged[t] <= clock)
    && (forall t | t in hot :: t in flagged && hot[t] == flagged[t])
    && (forall t | t in flagged && t !in hot :: clock - flagged[t] >= HOT_DURATION)
  }

  ghost predicate Represents(swaps: map<string, Times>, hot: map<string, nat>, log: Log, clock: nat) {
    && (forall t :: SameWindow(History(swaps, t), History(log.swaps, t), clock))
    && SameHot(hot, log.flagged, clock)
  }

  predicate AtMost(history: Times, clock: nat) {
    forall i | 0 <= i < |history| :: history[i] <= clock
  }

  // ----- front-only pruning -----

  /** On a sorted history, popping from the front keeps exactly the entries in the window. */
  lemma {:induction false} FrontPruningIsExact(history: Times, now: nat)
    requires Sorted(history)
    ensures DropExpired(history, now) == InWindow(history, now)
    decreases |history|
  {
    if history != [] {
      if now - history[0] > WINDOW {
        FrontPruningIsExact(history[1..], now);
      } else {
        AllInWindow(history, now);
      }
    }
  }

  lemma {:induction false} AllInWindow(history: Times, now: nat)
    requires Sorted(history) && (history != [] ==> now - history[0] <= WINDOW)
    ensures InWindow(history, now) == history
    decreases |history|
  {
    if history != [] {
      AllInWindow(history[1..], now);
    }
  }

  /** Pruning earlier changes nothing that a later pruning keeps. */
  lemma {:induction false} PruneAgain(history: Times, earlier: nat, now: nat)
    requires earlier <= now
    ensures DropExpired(DropExpired(history, earlier), now) == DropExpired(history, now)
    decreases |history|
  {
    if history != [] && earlier - history[0] > WINDOW {
      PruneAgain(history[1..], earlier, now);
    }
  }

  lemma {:induction false} PruneAppended(history: Times, now: nat)
    ensures DropExpired(history + [now], now) == DropExpired(history, now) + [now]
    decreases |history|
  {
    if history == [] {
      assert [now][0] == now;
    } else {
      assert (history + [now])[1..] == history[1..] + [now];
      PruneAppended(history[1..], now);
    }
  }

  method PruneFront(history: Times, now: nat) returns (pruned: Times)
    ensures pruned == DropExpired(history, now)
  {
    pruned := history;
    while pruned != []
      invariant DropExpired(pruned, now) == DropExpired(history, now)
      decreases |pruned|
    {
      if now - pruned[0] > WINDOW {
        pruned := pruned[1..];
      } else {
        return;
      }
    }
  }

  // ----- refinement of the log -----

  /** The pruned history after recording a swap is the log's window. */
  lemma RecordWindow(kept: Times, full: Times, clock: nat, now: nat)
    requires clock <= now && SameWindow(kept, full, clock)
    ensures DropExpired(kept + [now], now) == InWindow(full + [now], now)
    ensures SameWindow(DropExpired(kept + [now], now), full + [now], now)
  {
    PruneAgain(kept, clock, now);
    PruneAgain(full, clock, now);
    PruneAppended(kept, now);
    PruneAppended(full, now);
    FrontPruningIsExact(full + [now], now);
    PruneAgain(kept + [now], now, now);
  }

  lemma PruneWindow(kept: Times, full: Times, clock: nat, now: nat)
    requires clock <= now && SameWindow(kept, full, clock)
    ensures SameWindow(kept, full, now)
    ensures DropExpired(kept, now) == InWindow(full, now)
    ensures SameWindow(DropExpired(kept, now), full, now)
  {
    PruneAgain(kept, clock, now);
    PruneAgain(full, clock, now);
    PruneAgain(kept, now, now);
    FrontPruningIsExact(full, now);
  }

  lemma HotAnswersAgree(hot: map<string, nat>, flagged: map<string, nat>, clock: nat, token: string, now: nat)
    requires SameHot(hot, flagged, clock) && clock <= now
    ensures IsHotAt(hot, token, now) <==> IsHotAt(flagged, token, now)
  {
  }

  lemma RecordKeeps(
    swaps: map<string, Times>, hot: map<string, nat>, log: Log, clock: nat, token: string, now: nat)
    requires Represents(swaps, hot, log, clock) && clock <= now
    ensures DropExpired(History(swaps, token) + [now], now) == InWindow(History(log.swaps, token) + [now], now)
    ensures Represents(swaps[token := DropExpired(History(swaps, token) + [now], now)],
                       if log.Alerts(token, now) then hot[token := now] else hot, log.Record(token, now), now)
  {
    var swaps' := swaps[token := DropExpired(History(swaps, token) + [now], now)];
    var log' := log.Record(token, now);
    RecordWindow(History(swaps, token), History(log.swaps, token), clock, now);
    forall t
      ensures SameWindow(History(swaps', t), History(log'.swaps, t), now)
    {
      if t != token {
        PruneWindow(History(swaps, t), History(log.swaps, t), clock, now);
      }
    }
  }

  lemma CleanupKeeps(
    before: map<string, Times>, hotBefore: map<string, nat>, swaps: map<string, Times>, log: Log, clock: nat, now: nat)
    requires Represents(before, hotBefore, log, clock) && clock <= now
    requires forall t :: History(swaps, t) == DropExpired(History(before, t), now)
    ensures Represents(swaps, Unexpired(hotBefore, now), log, now)
    ensures forall t :: History(swaps, t) == InWindow(History(log.swaps, t), now)
  {
    forall t
      ensures SameWindow(History(swaps, t), History(log.swaps, t), now)
      ensures History(swaps, t) == InWindow(History(log.swaps, t), now)
    {
      PruneWindow(History(before, t), History(log.swaps, t), clock, now);
    }
  }

  function Unexpired(hot: map<string, nat>, now: nat): map<string, nat> {
    map t | t in hot && now - hot[t] < HOT_DURATION :: hot[t]
  }

  /** Every history pruned, and dropped when nothing is left. */
  method PruneAll(before: map<string, Times>, now: nat) returns (kept: map<string, Times>)
    ensures forall t :: History(kept, t) == DropExpired(History(before, t), now)
    ensures forall t | t in kept :: kept[t] != []
  {
    kept := map[];
    var tokens := before.Keys;
    while tokens != {}
      invariant tokens <= before.Keys
      invariant kept.Keys <= before.Keys - tokens
      invariant forall t | t in before && t !in tokens :: History(kept, t) == DropExpired(before[t], now)
      invariant forall t | t in kept :: kept[t] != []
      decreases |tokens|
    {
      var t :| t in tokens;
      var history := PruneFront(before[t], now);
      if history != [] {
        kept := kept[t := history];
      }
      tokens := tokens - {t};
    }
  }

  // ----- runs -----

  datatype Event = Swap(token: string, at: nat) | Clean(at: nat)

  predicate ClockRuns(run: seq<Event>) {
    forall i, j | 0 <= i < j < |run| :: run[i].at <= run[j].at
  }

  /** Cleanups do not touch the log. */
  function LogNext(log: Log, e: Event): Log {
    match e
    case Swap(token, at) => log.Record(token, at)
    case Clean(_) => log
  }

  function LogAfter(run: seq<Event>): Log {
    if run == [] then Log(map[], map[]) else LogNext(LogAfter(run[..|run| - 1]), run[|run| - 1])
  }

  /** The i-th event of the run raises an alert for the token. */
  predicate AlertAt(run: seq<Event>, i: nat, token: string)
    requires i < |run|
  {
    run[i].Swap? && run[i].token == token && LogAfter(run[..i]).Alerts(token, run[i].at)
  }

  /** `log` is the log of a run that ends by `clock`. */
  ghost predicate IsLogOf(log: Log, run: seq<Event>, clock: nat) {
    log == LogAfter(run) && ClockRuns(run) && (run != [] ==> run[|run| - 1].at <= clock)
  }

  lemma OneMore(log: Log, run: seq<Event>, clock: nat, e: Event)
    requires IsLogOf(log, run, clock) && clock <= e.at
    ensures IsLogOf(LogNext(log, e), run + [e], e.at)
    ensures e.Swap? ==> AlertAt(run + [e], |run|, e.token) == log.Alerts(e.token, e.at)
  {
    assert (run + [e])[..|run|] == run;
  }

  /** The spike test, on counts of seconds. */
  method DetectSpike(history: Times, now: nat) returns (isSpike: bool)
    ensures isSpike == IsSpike(history, now)
  {
    if |history| < MIN_HISTORY {
      return false;
    }
    var recentCount := RecentCount(history, now);
    var windowDuration := if now - history[0] < SECOND then SECOND else now - history[0];
    return recentCount * windowDuration > |history| * 60 * SECOND * SPIKE_MULTIPLIER;
  }

  class VolumeTracker {
    var swaps: map<string, Times>
    var hotTokens: map<string, nat>
    // What a tracker that never prunes or cleans would hold, every event so far, and the last clock reading.
    ghost var log: Log
    ghost var run: seq<Event>
    ghost var clock: nat

    /** The fields stand for the log. */
    ghost predicate Refines()
      reads this
    {
      Represents(swaps, hotTokens, log, clock)
    }

    /** And the log is that of the run so far. */
    ghost predicate Valid()
      reads this
    {
      Refines() && IsLogOf(log, run, clock)
    }

    constructor ()
      ensures Valid() && run == [] && clock == 0
    {
      swaps, hotTokens := map[], map[];
      log, run, clock := Log(map[], map[]), [], 0;
    }

    /** The alert is the one of the run; what is kept of the token's history is the log's window. */
    method RecordSwap(token: string, now: nat) returns (alert: bool)
      requires Valid() && clock <= now
      modifies this
      ensures Valid() && clock == now && run == old(run) + [Swap(token, now)]
      ensures alert == AlertAt(run, |run| - 1, token)
      ensures swaps == old(swaps)[token := InWindow(History(log.swaps, token), now)]
      ensures hotTokens == if alert then old(hotTokens)[token := now] else old(hotTokens)
    {
      OneMore(log, run, clock, Swap(token, now));
      run := run + [Swap(token, now)];
      ghost var raised := AlertAt(run, |run| - 1, token);
      alert := Push(token, now);
      assert alert == raised;
    }

    /** The body of `RecordSwap`, against the log alone. */
    method Push(token: string, now: nat) returns (alert: bool)
      requires Refines() && clock <= now
      modifies this`swaps, this`hotTokens, this`log, this`clock
      ensures Refines() && clock == now && log == LogNext(old(log), Swap(token, now))
      ensures alert == old(log).Alerts(token, now)
      ensures swaps == old(swaps)[token := InWindow(History(log.swaps, token), now)]
      ensures hotTokens == if alert then old(hotTokens)[token := now] else old(hotTokens)
    {
      HotAnswersAgree(hotTokens, log.flagged, clock, token, now);
      RecordKeeps(swaps, hotTokens, log, clock, token, now);
      var history := PruneFront(History(swaps, token) + [now], now);
      swaps := swaps[token := history];
      alert := false;
      var isSpike := DetectSpike(history, now);
      if isSpike && !IsHotAt(hotTokens, token, now) {
        hotTokens := hotTokens[token := now];
        alert := true;
      }
      log, clock := log.Record(token, now), now;
    }

    method IsHot(token: string, now: nat) returns (hot: bool)
      requires Valid() && clock <= now
      ensures hot == IsHotAt(log.flagged, token, now)
    {
      HotAnswersAgree(hotTokens, log.flagged, clock, token, now);
      hot := IsHotAt(hotTokens, token, now);
    }

    /** Exactly the tokens the log would call hot. */
    method HotTokens(now: nat) returns (tokens: set<string>)
      requires Valid() && clock <= now
      ensures forall t :: t in tokens <==> IsHotAt(log.flagged, t, now)
    {
      forall t {
        HotAnswersAgree(hotTokens, log.flagged, clock, t, now);
      }
      tokens := set t | t in hotTokens && now - hotTokens[t] < HOT_DURATION;
    }

    /** Forgets what has expired; the log does not change. */
    method Cleanup(now: nat)
      requires Valid() && clock <= now
      modifies this
      ensures Valid() && clock == now && run == old(run) + [Clean(now)] && log == old(log)
      ensures hotTokens == Unexpired(old(hotTokens), now)
      ensures hotTokens == map t | t in old(hotTokens) && now - old(hotTokens)[t] < 300_000_000_000 :: old(hotTokens)[t]
      ensures forall t :: History(swaps, t) == InWindow(History(log.swaps, t), now)
      ensures forall t | t in swaps :: swaps[t] != []
    {
      var kept := PruneAll(swaps, now);
      CleanupKeeps(swaps, hotTokens, kept, log, clock, now);
      OneMore(log, run, clock, Clean(now));
      hotTokens := Unexpired(hotTokens, now);
      swaps := kept;
      run := run + [Clean(now)];
      clock := now;
    }
  }

  // ----- what an alert means -----

  /**
    An alert means: at least five swaps in the window, spanning more than 180 s,
    of which more than three fifths fall into the last minute.
   */
  lemma AlertMeaning(log: Log, token: string, now: nat)
    requires Sorted(History(log.swaps, token)) && AtMost(History(log.swaps, token), now)
    requires log.Alerts(token, now)
    ensures var window := InWindow(History(log.swaps, token) + [now], now);
            && 5 <= |window|
            && now - window[0] > 180 * SECOND
            && 5 * RecentCount(window, now) > 3 * |window|
  {
    var full := History(log.swaps, token) + [now];
    var window := InWindow(full, now);
    FrontPruningIsExact(full, now);
    FrontInWindow(full, now);
    SpikeMeaning(RecentCount(window, now), |window|, now - window[0]);
  }

  lemma {:induction false} FrontInWindow(history: Times, now: nat)
    ensures DropExpired(history, now) != [] ==> now - DropExpired(history, now)[0] <= WINDOW
    decreases |history|
  {
    if history != [] && now - history[0] > WINDOW {
      FrontInWindow(history[1..], now);
    }
  }

  lemma SpikeMeaning(recent: nat, total: nat, span: int)
    requires recent <= total && 0 < total && span <= WINDOW
    requires recent * (if span < SECOND then SECOND else span) > total * 60 * SECOND * SPIKE_MULTIPLIER
    ensures span > 180 * SECOND && 5 * recent > 3 * total
  {
    var d := if span < SECOND then SECOND else span;
    if d <= 180 * SECOND {
      Product(recent, total, d, 180 * SECOND);
      assert false;
    }
    Product(recent, recent, d, WINDOW);
  }

  lemma Product(a: nat, b: nat, c: nat, d: nat)
    requires a <= b && c <= d
    ensures a * c <= b * d
  {
    assert a * c <= b * c <= b * d;
  }

  // ----- alerts of whole runs -----

  lemma {:induction false} LogIsSorted(run: seq<Event>, token: string, now: nat)
    requires ClockRuns(run) && (run != [] ==> run[|run| - 1].at <= now)
    ensures Sorted(History(LogAfter(run).swaps, token)) && AtMost(History(LogAfter(run).swaps, token), now)
    decreases |run|
  {
    if run != [] {
      var n := |run| - 1;
      LogIsSorted(run[..n], token, run[n].at);
    }
  }

  /** Every alert of every run means what `AlertMeaning` says. */
  lemma AlertOfRunMeaning(run: seq<Event>, i: nat, token: string)
    requires ClockRuns(run) && i < |run| && AlertAt(run, i, token)
    ensures var window := InWindow(History(LogAfter(run[..i]).swaps, token) + [run[i].at], run[i].at);
            && 5 <= |window|
            && run[i].at - window[0] > 180 * SECOND
            && 5 * RecentCount(window, run[i].at) > 3 * |window|
  {
    LogIsSorted(run[..i], token, run[i].at);
    AlertMeaning(LogAfter(run[..i]), token, run[i].at);
  }

  /** The log remembers the last alert of each token. */
  lemma {:induction false} FlagIsLastAlert(run: seq<Event>, token: string, i: nat)
    requires i < |run| && AlertAt(run, i, token)
    requires ClockRuns(run)
    ensures token in LogAfter(run).flagged && run[i].at <= LogAfter(run).flagged[token]
    ensures LogAfter(run).flagged[token] <= run[|run| - 1].at
    decreases |run|
  {
    var n := |run| - 1;
    var shorter := run[..n];
    if i < n {
      assert shorter[..i] == run[..i];
      assert AlertAt(shorter, i, token);
      FlagIsLastAlert(shorter, token, i);
      assert shorter[n - 1].at <= run[n].at;
    }
  }

  /** Two alerts for one token are at least 300 s apart in every run, with or without cleanups. */
  lemma AlertsAreSpaced(run: seq<Event>, token: string, i: nat, j: nat)
    requires ClockRuns(run) && i < j < |run|
    requires AlertAt(run, i, token) && AlertAt(run, j, token)
    ensures run[j].at - run[i].at >= 300_000_000_000
  {
    var before := run[..j];
    assert before[..i] == run[..i];
    assert AlertAt(before, i, token);
    FlagIsLastAlert(before, token, i);
    assert before[j - 1].at <= run[j].at;
  }
}
