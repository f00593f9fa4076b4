/**
  The swap stream of crates/arb-feed/src/forge_feed.rs: swaps are classified, small
  ones dropped and the rest debounced per token.  Time is an integer count of
  nanoseconds that never goes backwards.
 */
module ForgeFeed {
  import opened MachineInts
  import opened Wrappers
  import opened Types
  import opened Prices

  const SECOND: nat := 1_000_000_000
  const DEBOUNCE: nat := 3 * SECOND
  const RETENTION: nat := 30 * SECOND
  const MAX_ENTRIES: nat := 500
  const MIN_SOL_EQUIVALENT: real := 1.0
  const USD_PER_SOL: real := 150.0

  datatype TokenAmount = TokenAmount(mint: string, amount: U64, decimals: nat)

  datatype ForgeSwap = ForgeSwap(
    signature: string, slot: U64, blockTime: int, platform: Dex, signer: string,
    tokenIn: TokenAmount, tokenOut: TokenAmount)

  datatype Classified = Classified(tokenMint: string, direction: SwapDirection, solEquivalent: real)

  datatype SwapSignal = SwapSignal(
    signature: string, slot: U64, platform: Dex, signer: string, tokenMint: string,
    direction: SwapDirection, solEquivalent: real, timestamp: int)

  // ----- classification -----

  predicate IsSolOrStable(mint: string) {
    mint == WSOL_MINT || mint == USDC_MINT || mint == USDT_MINT
  }

  /** The size of the SOL or stablecoin side; stablecoins at a fixed 150 USD per SOL. */
  function SolEquivalent(side: TokenAmount): real {
    var units := side.amount as real / Pow10(side.decimals);
    if side.mint == WSOL_MINT then units else units / USD_PER_SOL
  }

  function ClassifySwap(swap: ForgeSwap): Option<Classified> {
    match (IsSolOrStable(swap.tokenIn.mint), IsSolOrStable(swap.tokenOut.mint))
    case (true, false) => Some(Classified(swap.tokenOut.mint, Buy, SolEquivalent(swap.tokenIn)))
    case (false, true) => Some(Classified(swap.tokenIn.mint, Sell, SolEquivalent(swap.tokenOut)))
    case _ => None
  }

  function Opposite(direction: SwapDirection): SwapDirection {
    if direction == Buy then Sell else Buy
  }

  /** The same trade in the other direction: same token, same size, opposite direction. */
  lemma ClassificationIsSymmetric(swap: ForgeSwap)
    ensures ClassifySwap(swap.(tokenIn := swap.tokenOut, tokenOut := swap.tokenIn))
         == match ClassifySwap(swap)
            case None => None
            case Some(c) => Some(c.(direction := Opposite(c.direction)))
  {
  }

  /** Classified, and worth at least one SOL. */
  predicate Qualifies(swap: ForgeSwap) {
    ClassifySwap(swap).Some? && !(ClassifySwap(swap).value.solEquivalent < MIN_SOL_EQUIVALENT)
  }

  /** At the mints' real decimals the size filter is one SOL, or 150 dollars. */
  lemma SizeThresholds(swap: ForgeSwap)
    requires ClassifySwap(swap).Some?
    ensures var side := if ClassifySwap(swap).value.direction == Buy then swap.tokenIn else swap.tokenOut;
            && (side.mint == WSOL_MINT && side.decimals == 9 ==> (Qualifies(swap) <==> 1_000_000_000 <= side.amount))
            && (side.mint != WSOL_MINT && side.decimals == 6 ==> (Qualifies(swap) <==> 150_000_000 <= side.amount))
  {
    assert Pow10(3) == 1_000.0;
    assert Pow10(6) == 1_000_000.0;
    assert Pow10(9) == 1_000_000_000.0;
  }

  predicate IsMoney(mint: string) {
    mint in {WSOL_MINT, USDC_MINT, USDT_MINT}
  }

  /** The side of a swap that is SOL or a stablecoin, and the other one. */
  function MoneySide(swap: ForgeSwap): TokenAmount {
    if IsMoney(swap.tokenIn.mint) then swap.tokenIn else swap.tokenOut
  }

  function TokenSide(swap: ForgeSwap): TokenAmount {
    if IsMoney(swap.tokenIn.mint) then swap.tokenOut else swap.tokenIn
  }

  /** `sol` in units of 150 dollars, or of SOL, is the amount in base units. */
  predicate SizeIs(sol: real, side: TokenAmount) {
    sol * Pow10(side.decimals) * (if side.mint == WSOL_MINT then 1.0 else 150.0) == side.amount as real
  }

  lemma SizeOf(side: TokenAmount)
    ensures SizeIs(SolEquivalent(side), side)
  {
    var unit := Pow10(side.decimals);
    var units := side.amount as real / unit;
    assert units * unit == side.amount as real;
    if side.mint != WSOL_MINT {
      Scaled(units / 150.0, units, unit);
    }
  }

  lemma Scaled(sol: real, units: real, unit: real)
    requires sol * 150.0 == units
    ensures sol * unit * 150.0 == units * unit
  {
  }

  /**
    A swap is classified exactly when one of its two sides is SOL or a stablecoin: it
    buys the other side's token when money goes in, sells it when money comes out,
    and its size is that of the money side.
   */
  lemma ClassifiedIff(swap: ForgeSwap)
    ensures ClassifySwap(swap).Some? <==> (IsMoney(swap.tokenIn.mint) <==> !IsMoney(swap.tokenOut.mint))
    ensures match ClassifySwap(swap)
            case None => true
            case Some(c) =>
              && c.tokenMint == TokenSide(swap).mint
              && (c.direction == Buy <==> IsMoney(swap.tokenIn.mint))
              && SizeIs(c.solEquivalent, MoneySide(swap))
  {
    SizeOf(MoneySide(swap));
  }

  /** A signal carries the swap's own data and its classification. */
  lemma SignalIs(swap: ForgeSwap)
    requires ClassifySwap(swap).Some?
    ensures var s := SignalOf(swap);
            && s.signature == swap.signature && s.slot == swap.slot && s.platform == swap.platform
            && s.signer == swap.signer && s.timestamp == swap.blockTime
            && s.tokenMint == TokenSide(swap).mint
            && (s.direction == Buy <==> IsMoney(swap.tokenIn.mint))
            && SizeIs(s.solEquivalent, MoneySide(swap))
  {
    ClassifiedIff(swap);
  }

  // ----- debouncing -----

  predicate Debounced(signalled: map<string, nat>, token: string, now: nat) {
    token in signalled && now - signalled[token] < DEBOUNCE
  }

  function SignalOf(swap: ForgeSwap): SwapSignal
    requires ClassifySwap(swap).Some?
  {
    var c := ClassifySwap(swap).value;
    SwapSignal(swap.signature, swap.slot, swap.platform, swap.signer, c.tokenMint, c.direction, c.solEquivalent,
               swap.blockTime)
  }

  /** The token of a swap worth signalling. */
  function TokenOf(swap: ForgeSwap): Option<string> {
    if Qualifies(swap) then Some(ClassifySwap(swap).value.tokenMint) else None
  }

  /** The cleaned map differs from the full one by entries too old to debounce anything. */
  ghost predicate Represents(debounce: map<string, nat>, signalled: map<string, nat>, clock: nat) {
    && (forall t | t in signalled :: signalled[t] <= clock)
    && (forall t | t in debounce :: t in signalled && debounce[t] == signalled[t])
    && (forall t | t in signalled && t !in debounce :: clock - signalled[t] >= DEBOUNCE)
  }

  function Retained(debounce: map<string, nat>, now: nat): map<string, nat> {
    map t | t in debounce && now - debounce[t] < RETENTION :: debounce[t]
  }

  // ----- runs -----

  /** A swap, reduced to the token it could signal. */
  datatype Event = Event(token: Option<string>, at: nat)

  predicate ClockRuns(run: seq<Event>) {
    forall i, j | 0 <= i < j < |run| :: run[i].at <= run[j].at
  }

  predicate Signals(signalled: map<string, nat>, e: Event) {
    e.token.Some? && !Debounced(signalled, e.token.value, e.at)
  }

  function SignalledNext(signalled: map<string, nat>, e: Event): map<string, nat> {
    if Signals(signalled, e) then signalled[e.token.value := e.at] else signalled
  }

  /** When each token was last signalled, never cleaned. */
  function SignalledAfter(run: seq<Event>): map<string, nat> {
    if run == [] then map[]
    else
      var n := |run| - 1;
      SignalledNext(SignalledAfter(run[..n]), run[n])
  }

  predicate SignalAt(run: seq<Event>, i: nat)
    requires i < |run|
  {
    Signals(SignalledAfter(run[..i]), run[i])
  }

  /** `signalled` is the uncleaned map of a run that ends by `clock`. */
  ghost predicate IsMapOf(signalled: map<string, nat>, run: seq<Event>, clock: nat) {
    signalled == SignalledAfter(run) && ClockRuns(run) && (run != [] ==> run[|run| - 1].at <= clock)
  }

  lemma MapOfLonger(signalled: map<string, nat>, run: seq<Event>, clock: nat, e: Event)
    requires IsMapOf(signalled, run, clock) && clock <= e.at
    ensures IsMapOf(SignalledNext(signalled, e), run + [e], e.at)
    ensures SignalAt(run + [e], |run|) == Signals(signalled, e)
  {
    assert (run + [e])[..|run|] == run;
  }

  /** The cleaned map answers like the uncleaned one, and goes on standing for it. */
  lemma CleanedMapSuffices(debounce: map<string, nat>, signalled: map<string, nat>, clock: nat, token: string, now: nat)
    requires Represents(debounce, signalled, clock) && clock <= now
    ensures Debounced(debounce, token, now) == Debounced(signalled, token, now)
    ensures Represents(debounce, signalled, now)
    ensures Represents(debounce[token := now], signalled[token := now], now)
    ensures Represents(Retained(debounce[token := now], now), signalled[token := now], now)
  {
  }

  /** The map after a signal. */
  function AfterSignal(debounce: map<string, nat>, token: string, now: nat): map<string, nat> {
    var added := debounce[token := now];
    if |added| > MAX_ENTRIES then Retained(added, now) else added
  }

  /** With more than 500 entries only those of the last 30 s stay. */
  lemma AfterSignalIs(debounce: map<string, nat>, token: string, now: nat)
    ensures var added, after := debounce[token := now], AfterSignal(debounce, token, now);
            && (|added| <= 500 ==> after == added)
            && (|added| > 500 ==>
                  && after.Keys <= added.Keys
                  && forall t | t in added ::
                       (t in after <==> now - added[t] < 30_000_000_000) && (t in after ==> after[t] == added[t]))
  {
  }

  predicate Lets(debounce: map<string, nat>, swap: ForgeSwap, now: nat) {
    Qualifies(swap) && !Debounced(debounce, ClassifySwap(swap).value.tokenMint, now)
  }

  function Handled(debounce: map<string, nat>, swap: ForgeSwap, now: nat): map<string, nat> {
    if Lets(debounce, swap, now) then AfterSignal(debounce, ClassifySwap(swap).value.tokenMint, now) else debounce
  }

  /** The cleaned map lets through what the uncleaned one would, and goes on standing for it. */
  lemma HandledAlike(debounce: map<string, nat>, signalled: map<string, nat>, clock: nat, swap: ForgeSwap, now: nat)
    requires Represents(debounce, signalled, clock) && clock <= now
    ensures Lets(debounce, swap, now) == Signals(signalled, Event(TokenOf(swap), now))
    ensures Represents(Handled(debounce, swap, now), SignalledNext(signalled, Event(TokenOf(swap), now)), now)
  {
    CleanedMapSuffices(
      debounce, signalled, clock, if Qualifies(swap) then ClassifySwap(swap).value.tokenMint else "", now);
  }

  class ForgeFeed {
    var debounce: map<string, nat>
    // When each token was last signalled, never cleaned; every swap so far; the last clock reading.
    ghost var signalled: map<string, nat>
    ghost var run: seq<Event>
    ghost var clock: nat

    ghost predicate Valid()
      reads this
    {
      Represents(debounce, signalled, clock) && IsMapOf(signalled, run, clock)
    }

    constructor ()
      ensures Valid() && run == [] && clock == 0
    {
      debounce := map[];
      signalled, run, clock := map[], [], 0;
    }

    /** Signals exactly when a feed that never cleans its map would; cleaning bounds the map. */
    method HandleSwap(swap: ForgeSwap, now: nat) returns (signal: Option<SwapSignal>)
      requires Valid() && clock <= now
      modifies this
      ensures Valid() && clock == now && run == old(run) + [Event(TokenOf(swap), now)]
      ensures signal == if SignalAt(run, |run| - 1) then Some(SignalOf(swap)) else None
      ensures debounce == if signal.None? then old(debounce)
                          else AfterSignal(old(debounce), signal.value.tokenMint, now)
      ensures signal.Some? ==> |debounce| <= MAX_ENTRIES || forall t | t in debounce :: now - debounce[t] < RETENTION
    {
      ghost var e := Event(TokenOf(swap), now);
      MapOfLonger(signalled, run, clock, e);
      HandledAlike(debounce, signalled, clock, swap, now);
      signal := Filter(swap, now);
      signalled, run, clock := SignalledNext(signalled, e), run + [e], now;
    }

    /** The body of `HandleSwap`, on the map alone. */
    method Filter(swap: ForgeSwap, now: nat) returns (signal: Option<SwapSignal>)
      modifies this`debounce
      ensures signal == if Lets(old(debounce), swap, now) then Some(SignalOf(swap)) else None
      ensures debounce == Handled(old(debounce), swap, now)
    {
      signal := None;
      var classified := ClassifySwap(swap);
      if classified.None? {
        return;
      }
      var Classified(tokenMint, direction, solEquivalent) := classified.value;
      if solEquivalent < MIN_SOL_EQUIVALENT {
        return;
      }
      if tokenMint in debounce && now - debounce[tokenMint] < DEBOUNCE {
        return;
      }
      debounce := debounce[tokenMint := now];
      if |debounce| > MAX_ENTRIES {
        debounce := Retained(debounce, now);
      }
      signal := Some(SwapSignal(swap.signature, swap.slot, swap.platform, swap.signer, tokenMint, direction,
                                solEquivalent, swap.blockTime));
    }
  }

  // ----- signals of whole runs -----

  /** The map holds the latest signal of each token signalled, and no other token. */
  ghost predicate HoldsLastSignal(signalled: map<string, nat>, run: seq<Event>, token: string) {
    && (token in signalled ==>
          exists i | 0 <= i < |run| :: SignalAt(run, i) && run[i].token == Some(token) && run[i].at == signalled[token])
    && (forall i | 0 <= i < |run| && SignalAt(run, i) && run[i].token == Some(token) ::
          token in signalled && run[i].at <= signalled[token])
  }

  lemma {:induction false} MapHoldsLastSignals(run: seq<Event>, token: string)
    requires ClockRuns(run)
    ensures HoldsLastSignal(SignalledAfter(run), run, token)
    decreases |run|
  {
    if run != [] {
      var n := |run| - 1;
      var shorter := run[..n];
      MapHoldsLastSignals(shorter, token);
      forall i | 0 <= i < n
        ensures SignalAt(shorter, i) == SignalAt(run, i) && run[i].at <= run[n].at
      {
        assert shorter[..i] == run[..i];
      }
      if SignalAt(run, n) && run[n].token == Some(token) {
        assert SignalledAfter(run)[token] == run[n].at;
      } else if token in SignalledAfter(shorter) {
        var i :| 0 <= i < n && SignalAt(shorter, i) && shorter[i].token == Some(token)
                 && shorter[i].at == SignalledAfter(shorter)[token];
        assert SignalAt(run, i) && run[i].token == Some(token);
      }
    }
  }

  /**
    In any run a qualifying swap is signalled exactly when its token has not been
    signalled in the last three seconds.  So signals for one token are at least
    three seconds apart, and a qualifying swap is dropped only shortly after one.
   */
  lemma SignalledIffQuiet(run: seq<Event>, j: nat)
    requires ClockRuns(run) && j < |run| && run[j].token.Some?
    ensures SignalAt(run, j)
       <==> forall i | 0 <= i < j && SignalAt(run, i) && run[i].token == run[j].token ::
              run[j].at - run[i].at >= 3_000_000_000
  {
    var before := run[..j];
    MapHoldsLastSignals(before, run[j].token.value);
    forall i | 0 <= i < j
      ensures SignalAt(before, i) == SignalAt(run, i)
    {
      assert before[..i] == run[..i];
    }
  }
}
