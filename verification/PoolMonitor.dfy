/**
  The WebSocket account monitor of crates/arb-feed/src/pool_monitor.rs: routing of
  notifications, vault balances, curve prices and graduations, over any number of
  sessions of one run.
 */
module PoolMonitor {
  import opened MachineInts
  import opened Wrappers
  import opened Types
  import opened Amm
  import opened Prices
  import opened Quoter

  datatype AccountRole =
    | CoinVault(pool: string)
    | PcVault(pool: string)
    | Whirlpool(pool: string, baseMint: string, decimalsA: nat, decimalsB: nat, baseIsA: bool, quoteMint: string)
    | Curve(pool: string, baseMint: string)

  datatype VaultState = VaultState(
    coin: Option<U64>, pc: Option<U64>, coinDecimals: nat, pcDecimals: nat,
    baseMint: string, poolAddress: string, quoteMint: string)

  datatype Message =
    | Confirmation(request: nat, subscription: nat)
    | Notification(subscription: nat, account: Account)
    | OtherMessage

  datatype Output =
    | Price(quote: PriceQuote)
    | Graduated(curve: string, baseMint: string, at: int)

  type Roles = map<string, AccountRole>

  datatype State = State(
    vaults: map<string, VaultState>,
    wasComplete: map<string, bool>,
    requests: map<nat, string>,
    subscriptions: map<nat, string>)

  // ----- prices -----

  function WebSocketPrice(dex: Dex, baseMint: string, pool: string, priceUsd: real, now: int): Output {
    Price(PriceQuote(dex, baseMint, "", priceUsd, 0.0, Some(pool), WebSocket, now))
  }

  function InUsd(price: real, quoteMint: string, solUsd: real): real {
    if quoteMint == USDC_MINT then price else price * solUsd
  }

  /** The price of a vault pool, once both balances are known. */
  function VaultPrice(v: VaultState, solUsd: real, now: int): seq<Output> {
    match (v.coin, v.pc)
    case (Some(coin), Some(pc)) =>
      (match RaydiumPriceFromVaults(coin, pc, v.coinDecimals, v.pcDecimals)
       case Some(price) => [WebSocketPrice(Raydium, v.baseMint, v.poolAddress, InUsd(price, v.quoteMint, solUsd), now)]
       case None => [])
    case _ => []
  }

  /** The price of a curve that is still open. */
  function CurvePrice(state: PumpFunState, pool: string, baseMint: string, solUsd: real, now: int): seq<Output> {
    if state.complete then []
    else
      match PumpFunPriceInSol(state)
      case None => []
      case Some(price) => [WebSocketPrice(PumpFun, baseMint, pool, price * solUsd, now)]
  }

  // ----- one message -----

  /** What a message is about: the role of its account and the account's data. */
  function Resolve(roles: Roles, s: State, msg: Message): Option<(AccountRole, Account)> {
    if msg.Notification? && msg.subscription in s.subscriptions && s.subscriptions[msg.subscription] in roles
    then Some((roles[s.subscriptions[msg.subscription]], msg.account))
    else None
  }

  function SetCoin(s: State, pool: string, balance: U64): State
    requires pool in s.vaults
  {
    s.(vaults := s.vaults[pool := s.vaults[pool].(coin := Some(balance))])
  }

  function SetPc(s: State, pool: string, balance: U64): State
    requires pool in s.vaults
  {
    s.(vaults := s.vaults[pool := s.vaults[pool].(pc := Some(balance))])
  }

  function AfterAccount(s: State, role: AccountRole, account: Account): State {
    match role
    case CoinVault(pool) =>
      if account.splBalance.Some? && pool in s.vaults then SetCoin(s, pool, account.splBalance.value) else s
    case PcVault(pool) =>
      if account.splBalance.Some? && pool in s.vaults then SetPc(s, pool, account.splBalance.value) else s
    case Whirlpool(_, _, _, _, _, _) => s
    case Curve(pool, _) =>
      if account.pumpFun.Some? && pool in s.wasComplete
      then s.(wasComplete := s.wasComplete[pool := account.pumpFun.value.complete]) else s
  }

  function Graduation(s: State, pool: string, baseMint: string, complete: bool, now: int): seq<Output> {
    if pool in s.wasComplete && complete && !s.wasComplete[pool] then [Graduated(pool, baseMint, now)] else []
  }

  /** The events sent for an account update, given the state before it. */
  function OutputsOf(s: State, role: AccountRole, account: Account, solUsd: real, now: int): seq<Output> {
    match role
    case CoinVault(pool) =>
      if account.splBalance.Some? && pool in s.vaults
      then VaultPrice(AfterAccount(s, role, account).vaults[pool], solUsd, now) else []
    case PcVault(pool) =>
      if account.splBalance.Some? && pool in s.vaults
      then VaultPrice(AfterAccount(s, role, account).vaults[pool], solUsd, now) else []
    case Whirlpool(pool, baseMint, decimalsA, decimalsB, baseIsA, quoteMint) =>
      (match account.sqrtPrice
       case None => []
       case Some(sqrtPrice) =>
         if sqrtPrice == 0 then []
         else
           var price := WhirlpoolPrice(sqrtPrice, decimalsA, decimalsB);
           [WebSocketPrice(Orca, baseMint, pool, InUsd(OfBase(price, baseIsA), quoteMint, solUsd), now)])
    case Curve(pool, baseMint) =>
      (match account.pumpFun
       case None => []
       case Some(state) =>
         Graduation(s, pool, baseMint, state.complete, now) + CurvePrice(state, pool, baseMint, solUsd, now))
  }

  function AfterMessage(roles: Roles, s: State, msg: Message): State {
    match msg
    case Confirmation(request, subscription) =>
      if request in s.requests then s.(subscriptions := s.subscriptions[subscription := s.requests[request]]) else s
    case Notification(_, _) =>
      (match Resolve(roles, s, msg)
       case Some((role, account)) => AfterAccount(s, role, account)
       case None => s)
    case OtherMessage => s
  }

  function Sent(roles: Roles, s: State, msg: Message, solUsd: real, now: int): seq<Output> {
    match Resolve(roles, s, msg)
    case Some((role, account)) => OutputsOf(s, role, account, solUsd, now)
    case None => []
  }

  /** Request i + 1 of a session subscribes to account i. */
  function RequestIds(accounts: seq<string>): map<nat, string> {
    if accounts == [] then map[]
    else
      var n := |accounts| - 1;
      RequestIds(accounts[..n])[n + 1 := accounts[n]]
  }

  lemma {:induction false} RequestIdsMeaning(accounts: seq<string>, request: nat)
    ensures request in RequestIds(accounts) <==> 1 <= request <= |accounts|
    ensures request in RequestIds(accounts) ==> RequestIds(accounts)[request] == accounts[request - 1]
    decreases |accounts|
  {
    if accounts != [] {
      RequestIdsMeaning(accounts[..|accounts| - 1], request);
    }
  }

  /** A new connection forgets the subscriptions and keeps everything else. */
  function AfterConnect(s: State, accounts: seq<string>): State {
    s.(requests := RequestIds(accounts), subscriptions := map[])
  }

  // ----- runs -----

  datatype Event = Connected(accounts: seq<string>) | Received(msg: Message, solUsd: real, now: int)

  function After(roles: Roles, s: State, e: Event): State {
    match e
    case Connected(accounts) => AfterConnect(s, accounts)
    case Received(msg, _, _) => AfterMessage(roles, s, msg)
  }

  function SentOn(roles: Roles, s: State, e: Event): seq<Output> {
    match e
    case Connected(_) => []
    case Received(msg, solUsd, now) => Sent(roles, s, msg, solUsd, now)
  }

  function StateAfter(roles: Roles, s: State, run: seq<Event>): State {
    if run == [] then s else After(roles, StateAfter(roles, s, run[..|run| - 1]), run[|run| - 1])
  }

  /** Everything sent during a run, in order. */
  function SentBy(roles: Roles, s: State, run: seq<Event>): seq<Output> {
    if run == [] then []
    else
      var n := |run| - 1;
      SentBy(roles, s, run[..n]) + SentOn(roles, StateAfter(roles, s, run[..n]), run[n])
  }

  lemma OneMore(roles: Roles, s: State, run: seq<Event>, e: Event)
    ensures StateAfter(roles, s, run + [e]) == After(roles, StateAfter(roles, s, run), e)
    ensures SentBy(roles, s, run + [e]) == SentBy(roles, s, run) + SentOn(roles, StateAfter(roles, s, run), e)
  {
    assert (run + [e])[..|run|] == run;
  }

  /** What the monitor starts from: no balance is known. */
  predicate NoBalances(s: State) {
    forall pool | pool in s.vaults :: s.vaults[pool].coin == None && s.vaults[pool].pc == None
  }

  class PoolMonitor {
    const roles: Roles
    var vaults: map<string, VaultState>
    var wasComplete: map<string, bool>
    var requests: map<nat, string>
    var subscriptions: map<nat, string>
    // The quote and graduation channels, in sending order.
    var sent: seq<Output>
    // What the monitor started from and every event since.
    ghost const start: State
    ghost var run: seq<Event>

    ghost predicate Valid()
      reads this
    {
      NoBalances(start) && Now() == StateAfter(roles, start, run) && sent == SentBy(roles, start, run)
    }

    function Now(): State
      reads this
    {
      State(vaults, wasComplete, requests, subscriptions)
    }

    /**
      `vaults` holds the pools' metadata, with no balance known yet; `curves` are the
      discovered bonding curves, none of which is known to be complete.
     */
    constructor (roles: Roles, vaults: map<string, VaultState>, curves: set<string>)
      requires forall pool | pool in vaults :: vaults[pool].coin == None && vaults[pool].pc == None
      ensures Valid() && this.roles == roles && run == [] && NoBalances(start)
      ensures start == State(vaults, map c | c in curves :: false, map[], map[])
    {
      start := State(vaults, map c | c in curves :: false, map[], map[]);
      run := [];
      this.roles := roles;
      this.vaults := vaults;
      wasComplete := map c | c in curves :: false;
      requests, subscriptions, sent := map[], map[], [];
    }

    /** A session begins: subscriptions are requested anew, balances and completion bits stay. */
    method Connect(accounts: seq<string>)
      requires Valid()
      modifies this
      ensures Valid() && run == old(run) + [Connected(accounts)]
      ensures Now() == AfterConnect(old(Now()), accounts) && sent == old(sent)
    {
      OneMore(roles, start, run, Connected(accounts));
      run := run + [Connected(accounts)];
      requests, subscriptions := map[], map[];
      for i := 0 to |accounts|
        invariant requests == RequestIds(accounts[..i])
        invariant subscriptions == map[] && vaults == old(vaults)
        invariant wasComplete == old(wasComplete) && sent == old(sent)
        invariant run == old(run) + [Connected(accounts)]
      {
        assert accounts[..i + 1][..i] == accounts[..i];
        requests := requests[i + 1 := accounts[i]];
      }
      assert accounts[..|accounts|] == accounts;
    }

    method HandleMessage(msg: Message, solUsd: real, now: int)
      requires Valid()
      modifies this
      ensures Valid() && run == old(run) + [Received(msg, solUsd, now)]
      ensures Now() == AfterMessage(roles, old(Now()), msg)
      ensures sent == old(sent) + Sent(roles, old(Now()), msg, solUsd, now)
    {
      OneMore(roles, start, run, Received(msg, solUsd, now));
      run := run + [Received(msg, solUsd, now)];
      match msg
      case Confirmation(request, subscription) =>
        if request in requests {
          subscriptions := subscriptions[subscription := requests[request]];
        }
      case Notification(subscription, account) =>
        if subscription in subscriptions && subscriptions[subscription] in roles {
          HandleAccount(roles[subscriptions[subscription]], account, solUsd, now);
        }
      case OtherMessage =>
    }

    method HandleAccount(role: AccountRole, account: Account, solUsd: real, now: int)
      modifies this`vaults, this`wasComplete, this`sent
      ensures Now() == AfterAccount(old(Now()), role, account)
      ensures sent == old(sent) + OutputsOf(old(Now()), role, account, solUsd, now)
    {
      match role
      case CoinVault(pool) =>
        if account.splBalance.Some? && pool in vaults {
          vaults := vaults[pool := vaults[pool].(coin := account.splBalance)];
          sent := sent + VaultPrice(vaults[pool], solUsd, now);
        }
      case PcVault(pool) =>
        if account.splBalance.Some? && pool in vaults {
          vaults := vaults[pool := vaults[pool].(pc := account.splBalance)];
          sent := sent + VaultPrice(vaults[pool], solUsd, now);
        }
      case Whirlpool(pool, baseMint, decimalsA, decimalsB, baseIsA, quoteMint) =>
        if account.sqrtPrice.Some? && account.sqrtPrice.value != 0 {
          var price := WhirlpoolPrice(account.sqrtPrice.value, decimalsA, decimalsB);
          if !baseIsA && price > 0.0 {
            price := 1.0 / price;
          }
          sent := sent + [WebSocketPrice(Orca, baseMint, pool, InUsd(price, quoteMint, solUsd), now)];
        }
      case Curve(pool, baseMint) =>
        if account.pumpFun.Some? {
          var state := account.pumpFun.value;
          var graduation: seq<Output> := [];
          if pool in wasComplete {
            if state.complete && !wasComplete[pool] {
              graduation := [Graduated(pool, baseMint, now)];
            }
            wasComplete := wasComplete[pool := state.complete];
          }
          sent := sent + (graduation + CurvePrice(state, pool, baseMint, solUsd, now));
        }
    }
  }

  // ----- the updates of a run -----

  /** An account update that reached its handler. */
  datatype Update = Update(role: AccountRole, account: Account, at: int)

  function UpdateOf(roles: Roles, s: State, event: Event): Option<Update> {
    match event
    case Connected(_) => None
    case Received(msg, _, now) =>
      match Resolve(roles, s, msg)
      case Some((role, account)) => Some(Update(role, account, now))
      case None => None
  }

  /** The updates a run processes, in order, across its sessions. */
  function Processed(roles: Roles, s: State, run: seq<Event>): seq<Update> {
    if run == [] then []
    else
      var n := |run| - 1;
      var earlier := Processed(roles, s, run[..n]);
      match UpdateOf(roles, StateAfter(roles, s, run[..n]), run[n])
      case Some(update) => earlier + [update]
      case None => earlier
  }

  // ----- graduations -----

  datatype Sample = Sample(complete: bool, at: int)

  function SampleOf(update: Update, curve: string): Option<Sample> {
    if update.role.Curve? && update.role.pool == curve && update.account.pumpFun.Some?
    then Some(Sample(update.account.pumpFun.value.complete, update.at))
    else None
  }

  /** The decoded `complete` bits of one curve, in order. */
  function Samples(updates: seq<Update>, curve: string): seq<Sample> {
    if updates == [] then []
    else
      var n := |updates| - 1;
      match SampleOf(updates[n], curve)
      case Some(sample) => Samples(updates[..n], curve) + [sample]
      case None => Samples(updates[..n], curve)
  }

  function LastOr(samples: seq<Sample>, initial: bool): bool {
    if samples == [] then initial else samples[|samples| - 1].complete
  }

  /** When the bit, `initial` at first, changes from false to true. */
  function RisingEdges(samples: seq<Sample>, initial: bool): seq<int> {
    if samples == [] then []
    else
      var n := |samples| - 1;
      RisingEdges(samples[..n], initial)
      + if samples[n].complete && !LastOr(samples[..n], initial) then [samples[n].at] else []
  }

  /** The times of one curve's graduation events. */
  function GraduationTimes(outputs: seq<Output>, curve: string): seq<int> {
    if outputs == [] then []
    else
      var n := |outputs| - 1;
      GraduationTimes(outputs[..n], curve)
      + if outputs[n].Graduated? && outputs[n].curve == curve then [outputs[n].at] else []
  }

  lemma {:induction false} GraduationTimesAppend(a: seq<Output>, b: seq<Output>, curve: string)
    ensures GraduationTimes(a + b, curve) == GraduationTimes(a, curve) + GraduationTimes(b, curve)
    decreases |b|
  {
    if b == [] {
      assert a + b == a;
    } else {
      assert (a + b)[..|a + b| - 1] == a + b[..|b| - 1];
      GraduationTimesAppend(a, b[..|b| - 1], curve);
    }
  }

  lemma AppendUpdate(updates: seq<Update>, update: Update, curve: string, initial: bool)
    ensures var before := Samples(updates, curve);
            var after := Samples(updates + [update], curve);
            match SampleOf(update, curve)
            case None => after == before
            case Some(sample) =>
              && LastOr(after, initial) == sample.complete
              && RisingEdges(after, initial)
                 == RisingEdges(before, initial)
                    + if sample.complete && !LastOr(before, initial) then [sample.at] else []
  {
    assert (updates + [update])[..|updates|] == updates;
    var before := Samples(updates, curve);
    if SampleOf(update, curve).Some? {
      assert (before + [SampleOf(update, curve).value])[..|before|] == before;
    }
  }

  /** What one update does for one curve: its event and its new bit. */
  lemma UpdateGraduations(s: State, update: Update, solUsd: real, curve: string)
    requires curve in s.wasComplete
    ensures curve in AfterAccount(s, update.role, update.account).wasComplete
    ensures var times := GraduationTimes(OutputsOf(s, update.role, update.account, solUsd, update.at), curve);
            var now := AfterAccount(s, update.role, update.account).wasComplete[curve];
            match SampleOf(update, curve)
            case None => times == [] && now == s.wasComplete[curve]
            case Some(sample) =>
              times == (if sample.complete && !s.wasComplete[curve] then [sample.at] else []) && now == sample.complete
  {
    var outputs := OutputsOf(s, update.role, update.account, solUsd, update.at);
    if |outputs| == 1 {
      assert outputs[..0] == [];
    }
  }

  /** The statement of `GraduationsAreRisingEdges`, which one event preserves. */
  ghost predicate EdgesMatch(updates: seq<Update>, outputs: seq<Output>, initial: bool, s: State, curve: string) {
    && curve in s.wasComplete
    && s.wasComplete[curve] == LastOr(Samples(updates, curve), initial)
    && GraduationTimes(outputs, curve) == RisingEdges(Samples(updates, curve), initial)
  }

  lemma EdgesMatchAfter(
    updates: seq<Update>, outputs: seq<Output>, initial: bool, s: State, update: Update, solUsd: real, curve: string)
    requires EdgesMatch(updates, outputs, initial, s, curve)
    ensures EdgesMatch(updates + [update],
                       outputs + OutputsOf(s, update.role, update.account, solUsd, update.at),
                       initial, AfterAccount(s, update.role, update.account), curve)
  {
    AppendUpdate(updates, update, curve, initial);
    GraduationTimesAppend(outputs, OutputsOf(s, update.role, update.account, solUsd, update.at), curve);
    UpdateGraduations(s, update, solUsd, curve);
  }

  /**
    Over any run, reconnects included, the graduation events of a curve are sent
    exactly at the rising edges of its decoded `complete` bit.
   */
  lemma {:induction false} GraduationsAreRisingEdges(roles: Roles, s: State, run: seq<Event>, curve: string)
    requires curve in s.wasComplete
    ensures EdgesMatch(Processed(roles, s, run), SentBy(roles, s, run), s.wasComplete[curve],
                       StateAfter(roles, s, run), curve)
    decreases |run|
  {
    if run != [] {
      var n := |run| - 1;
      var before := StateAfter(roles, s, run[..n]);
      var sentBefore := SentBy(roles, s, run[..n]);
      GraduationsAreRisingEdges(roles, s, run[..n], curve);
      match UpdateOf(roles, before, run[n])
      case Some(update) =>
        EdgesMatchAfter(Processed(roles, s, run[..n]), sentBefore, s.wasComplete[curve], before,
                        update, run[n].solUsd, curve);
      case None =>
        assert SentBy(roles, s, run) == sentBefore;
    }
  }

  // ----- vault balances -----

  /** The last decoded balance of a pool's coin vault. */
  function LatestCoin(updates: seq<Update>, pool: string): Option<U64> {
    if updates == [] then None
    else
      var last := updates[|updates| - 1];
      if last.role == CoinVault(pool) && last.account.splBalance.Some? then last.account.splBalance
      else LatestCoin(updates[..|updates| - 1], pool)
  }

  function LatestPc(updates: seq<Update>, pool: string): Option<U64> {
    if updates == [] then None
    else
      var last := updates[|updates| - 1];
      if last.role == PcVault(pool) && last.account.splBalance.Some? then last.account.splBalance
      else LatestPc(updates[..|updates| - 1], pool)
  }

  /** A pool's metadata with the latest balances of its two vaults. */
  function Latest(v: VaultState, updates: seq<Update>, pool: string): VaultState {
    v.(coin := LatestCoin(updates, pool), pc := LatestPc(updates, pool))
  }

  lemma LatestAfter(v: VaultState, s: State, updates: seq<Update>, update: Update, pool: string)
    requires pool in s.vaults && s.vaults[pool] == Latest(v, updates, pool)
    ensures var after := AfterAccount(s, update.role, update.account);
            pool in after.vaults && after.vaults[pool] == Latest(v, updates + [update], pool)
  {
    assert (updates + [update])[..|updates|] == updates;
  }

  /** Over any run, reconnects included, the vault state holds the latest balances. */
  lemma {:induction false} VaultsHoldLatest(roles: Roles, s: State, run: seq<Event>, pool: string)
    requires NoBalances(s) && pool in s.vaults
    ensures pool in StateAfter(roles, s, run).vaults
    ensures StateAfter(roles, s, run).vaults[pool] == Latest(s.vaults[pool], Processed(roles, s, run), pool)
    decreases |run|
  {
    if run != [] {
      var n := |run| - 1;
      VaultsHoldLatest(roles, s, run[..n], pool);
      var before := StateAfter(roles, s, run[..n]);
      match UpdateOf(roles, before, run[n])
      case Some(update) =>
        LatestAfter(s.vaults[pool], before, Processed(roles, s, run[..n]), update, pool);
      case None =>
    }
  }

  lemma {:induction false} SamePools(roles: Roles, s: State, run: seq<Event>)
    ensures StateAfter(roles, s, run).vaults.Keys == s.vaults.Keys
    decreases |run|
  {
    if run != [] {
      SamePools(roles, s, run[..|run| - 1]);
    }
  }

  /** The outputs of the k-th event of a run. */
  function SentAt(roles: Roles, s: State, run: seq<Event>, k: nat): seq<Output>
    requires k < |run| && run[k].Received?
  {
    Sent(roles, StateAfter(roles, s, run[..k]), run[k].msg, run[k].solUsd, run[k].now)
  }

  lemma RaydiumPool(s: State, update: Update, solUsd: real, o: Output) returns (pool: string)
    requires o in OutputsOf(s, update.role, update.account, solUsd, update.at) && o.Price? && o.quote.dex == Raydium
    ensures pool in s.vaults
    ensures pool in AfterAccount(s, update.role, update.account).vaults
    ensures o in VaultPrice(AfterAccount(s, update.role, update.account).vaults[pool], solUsd, update.at)
  {
    pool := update.role.pool;
  }

  /** Every Raydium price ever sent is that of the latest decoded balances of both vaults of one pool. */
  lemma RaydiumPricesAreLatest(roles: Roles, s: State, run: seq<Event>, k: nat, o: Output)
    requires NoBalances(s) && k < |run| && run[k].Received?
    requires o in SentAt(roles, s, run, k) && o.Price? && o.quote.dex == Raydium
    ensures exists pool | pool in s.vaults ::
              o in VaultPrice(
                Latest(s.vaults[pool], Processed(roles, s, run[..k + 1]), pool), run[k].solUsd, run[k].now)
  {
    var before := StateAfter(roles, s, run[..k]);
    var update := UpdateOf(roles, before, run[k]).value;
    var pool := RaydiumPool(before, update, run[k].solUsd, o);
    assert run[..k + 1][..k] == run[..k];
    SamePools(roles, s, run[..k]);
    VaultsHoldLatest(roles, s, run[..k + 1], pool);
  }

  lemma CurveOutput(s: State, update: Update, solUsd: real, o: Output)
    requires o in OutputsOf(s, update.role, update.account, solUsd, update.at) && o.Price? && o.quote.dex == PumpFun
    ensures o.quote.poolAddress.Some?
    ensures SampleOf(update, o.quote.poolAddress.value) == Some(Sample(false, update.at))
  {
  }

  /** Every curve price ever sent comes from a curve whose latest `complete` bit is false. */
  lemma NoPriceAfterCompletion(roles: Roles, s: State, run: seq<Event>, k: nat, o: Output)
    requires k < |run| && run[k].Received?
    requires o in SentAt(roles, s, run, k) && o.Price? && o.quote.dex == PumpFun
    ensures o.quote.poolAddress.Some?
    ensures var samples := Samples(Processed(roles, s, run[..k + 1]), o.quote.poolAddress.value);
            samples != [] && !samples[|samples| - 1].complete && samples[|samples| - 1].at == run[k].now
  {
    var before := StateAfter(roles, s, run[..k]);
    var update := UpdateOf(roles, before, run[k]).value;
    CurveOutput(before, update, run[k].solUsd, o);
    assert run[..k + 1][..k] == run[..k];
    var updates := Processed(roles, s, run[..k]);
    assert (updates + [update])[..|updates|] == updates;
  }

  // ----- routing -----

  /** The accounts of the current session. */
  function SessionAccounts(run: seq<Event>): seq<string> {
    if run == [] then []
    else
      match run[|run| - 1]
      case Connected(accounts) => accounts
      case Received(_, _, _) => SessionAccounts(run[..|run| - 1])
  }

  /** The account the last valid confirmation of this session ties to a subscription. */
  function ConfirmedAccount(run: seq<Event>, subscription: nat): Option<string> {
    if run == [] then None
    else
      var n := |run| - 1;
      match run[n]
      case Connected(_) => None
      case Received(msg, _, _) =>
        var accounts := SessionAccounts(run[..n]);
        if msg.Confirmation? && msg.subscription == subscription && 1 <= msg.request <= |accounts|
        then Some(accounts[msg.request - 1])
        else ConfirmedAccount(run[..n], subscription)
  }

  function Lookup(m: map<nat, string>, key: nat): Option<string> {
    if key in m then Some(m[key]) else None
  }

  lemma {:induction false} RequestsAreThoseOfSession(roles: Roles, s: State, run: seq<Event>)
    requires s.requests == map[]
    ensures StateAfter(roles, s, run).requests == RequestIds(SessionAccounts(run))
    decreases |run|
  {
    if run != [] {
      RequestsAreThoseOfSession(roles, s, run[..|run| - 1]);
    }
  }

  /**
    A notification is attributed to the account of the session's last valid
    confirmation of its subscription; confirmations of earlier sessions are void.
   */
  lemma {:induction false} RoutingFollowsConfirmations(roles: Roles, s: State, run: seq<Event>, subscription: nat)
    requires s.requests == map[] && s.subscriptions == map[]
    ensures Lookup(StateAfter(roles, s, run).subscriptions, subscription) == ConfirmedAccount(run, subscription)
    decreases |run|
  {
    if run != [] {
      var n := |run| - 1;
      RoutingFollowsConfirmations(roles, s, run[..n], subscription);
      RequestsAreThoseOfSession(roles, s, run[..n]);
      if run[n].Received? && run[n].msg.Confirmation? {
        RequestIdsMeaning(SessionAccounts(run[..n]), run[n].msg.request);
      }
    }
  }
}
