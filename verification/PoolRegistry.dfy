/** The one-pool-per-DEX registry of crates/arb-sim/src/local_scanner.rs. */
module PoolRegistry {
  import opened Wrappers
  import opened Types

  type Registry = map<string, seq<KnownPool>>
  type Lookup = Result<seq<KnownPool>, Error>

  // ----- one pool per DEX -----

  predicate HasDex(pools: seq<KnownPool>, dex: Dex) {
    exists p | p in pools :: p.dex == dex
  }

  /** The first pool on a DEX. */
  function FirstOn(pools: seq<KnownPool>, dex: Dex): Option<KnownPool> {
    if pools == [] then None
    else if pools[0].dex == dex then Some(pools[0])
    else FirstOn(pools[1..], dex)
  }

  /** Positions of the pools that are the first of their DEX. */
  function Firsts(pools: seq<KnownPool>): seq<nat> {
    if pools == [] then []
    else
      var n := |pools| - 1;
      if HasDex(pools[..n], pools[n].dex) then Firsts(pools[..n]) else Firsts(pools[..n]) + [n]
  }

  function Dedup(pools: seq<KnownPool>): seq<KnownPool> {
    if pools == [] then []
    else
      var n := |pools| - 1;
      var kept := Dedup(pools[..n]);
      if HasDex(kept, pools[n].dex) then kept else kept + [pools[n]]
  }

  method DedupByDex(pools: seq<KnownPool>) returns (result: seq<KnownPool>)
    ensures result == Dedup(pools)
  {
    var seen: map<Dex, bool> := map[];
    result := [];
    for i := 0 to |pools|
      invariant result == Dedup(pools[..i])
      invariant forall d :: d in seen <==> HasDex(result, d)
    {
      assert pools[..i + 1][..i] == pools[..i];
      var pool := pools[i];
      if pool.dex !in seen {
        HasDexAppend(result, pool);
        seen := seen[pool.dex := true];
        result := result + [pool];
      }
    }
    assert pools[..|pools|] == pools;
  }

  lemma HasDexAppend(pools: seq<KnownPool>, p: KnownPool)
    ensures forall d :: HasDex(pools + [p], d) <==> HasDex(pools, d) || d == p.dex
  {
    forall d
      ensures HasDex(pools + [p], d) <==> HasDex(pools, d) || d == p.dex
    {
      assert p in pools + [p];
      assert forall q | q in pools :: q in pools + [p];
    }
  }

  lemma HasDexIffFirst(pools: seq<KnownPool>, dex: Dex)
    ensures HasDex(pools, dex) <==> FirstOn(pools, dex).Some?
  {
    if pools != [] {
      HasDexIffFirst(pools[1..], dex);
      assert pools == [pools[0]] + pools[1..];
    }
  }

  lemma FirstOnAppend(pools: seq<KnownPool>, p: KnownPool, dex: Dex)
    ensures FirstOn(pools + [p], dex)
         == if FirstOn(pools, dex).Some? then FirstOn(pools, dex) else if p.dex == dex then Some(p) else None
  {
    if pools != [] {
      assert (pools + [p])[1..] == pools[1..] + [p];
      FirstOnAppend(pools[1..], p, dex);
    }
  }

  /** Deduplication keeps the first pool of every DEX, so it covers the same DEXs. */
  lemma {:induction false} DedupKeepsFirst(pools: seq<KnownPool>, dex: Dex)
    ensures FirstOn(Dedup(pools), dex) == FirstOn(pools, dex)
  {
    if pools != [] {
      var n := |pools| - 1;
      var kept := Dedup(pools[..n]);
      assert pools == pools[..n] + [pools[n]];
      DedupKeepsFirst(pools[..n], dex);
      DedupKeepsFirst(pools[..n], pools[n].dex);
      HasDexIffFirst(kept, pools[n].dex);
      FirstOnAppend(pools[..n], pools[n], dex);
      FirstOnAppend(kept, pools[n], dex);
    }
  }

  predicate OnePerDex(pools: seq<KnownPool>) {
    forall i, j | 0 <= i < j < |pools| :: pools[i].dex != pools[j].dex
  }

  /** The kept pools are those at `Firsts`, in their original order, one per DEX. */
  lemma {:induction false} DedupIsSubsequence(pools: seq<KnownPool>)
    ensures var at := Firsts(pools);
            && |at| == |Dedup(pools)|
            && (forall k | 0 <= k < |at| :: at[k] < |pools| && Dedup(pools)[k] == pools[at[k]])
            && (forall j, k | 0 <= j < k < |at| :: at[j] < at[k])
    ensures OnePerDex(Dedup(pools))
  {
    if pools != [] {
      var n := |pools| - 1;
      DedupIsSubsequence(pools[..n]);
      DedupKeepsFirst(pools[..n], pools[n].dex);
      HasDexIffFirst(pools[..n], pools[n].dex);
      HasDexIffFirst(Dedup(pools[..n]), pools[n].dex);
    }
  }

  lemma {:induction false} DedupOfUnique(pools: seq<KnownPool>)
    requires OnePerDex(pools)
    ensures Dedup(pools) == pools
  {
    if pools != [] {
      var n := |pools| - 1;
      DedupOfUnique(pools[..n]);
      assert pools == pools[..n] + [pools[n]];
    }
  }

  lemma DedupIdempotent(pools: seq<KnownPool>)
    ensures Dedup(Dedup(pools)) == Dedup(pools)
  {
    DedupIsSubsequence(pools);
    DedupOfUnique(Dedup(pools));
  }

  lemma DedupEmptyIff(pools: seq<KnownPool>)
    ensures Dedup(pools) == [] <==> pools == []
  {
    if pools != [] {
      DedupKeepsFirst(pools, pools[0].dex);
    }
  }

  // ----- the registry -----

  /** What a lookup answers, given what discovery would return. */
  function LookupAnswer(reg: Registry, token: string, discovered: Lookup): Lookup {
    if token in reg && reg[token] != [] then Success(Dedup(reg[token]))
    else
      match discovered
      case Failure(error) => Failure(error)
      case Success(pools) => Success(Dedup(pools))
  }

  function AfterLookup(reg: Registry, token: string, discovered: Lookup): Registry {
    if token in reg && reg[token] != [] then reg
    else
      match discovered
      case Failure(_) => reg
      case Success(pools) => if Dedup(pools) == [] then reg else reg[token := Dedup(pools)]
  }

  function AfterRegister(reg: Registry, token: string, pools: seq<KnownPool>): Registry {
    if pools == [] then reg else reg[token := pools]
  }

  /**
    The registry's events as they can interleave.  A lookup reads the registry; when
    that misses it awaits discovery with the lock released, and stores what discovery
    returned later.
   */
  datatype Event =
    | Register(token: string, pools: seq<KnownPool>)
    | Read(token: string)
    | Store(token: string, discovered: Lookup)

  function AfterStore(reg: Registry, token: string, discovered: Lookup): Registry {
    match discovered
    case Failure(_) => reg
    case Success(pools) => AfterRegister(reg, token, Dedup(pools))
  }

  /** What a discovery answers the lookup that awaited it, whatever the registry holds by then. */
  function StoreAnswer(discovered: Lookup): Lookup {
    match discovered
    case Failure(error) => Failure(error)
    case Success(pools) => Success(Dedup(pools))
  }

  predicate Hit(reg: Registry, token: string) {
    token in reg && reg[token] != []
  }

  function Next(reg: Registry, e: Event): Registry {
    match e
    case Register(token, pools) => AfterRegister(reg, token, pools)
    case Read(_) => reg
    case Store(token, discovered) => AfterStore(reg, token, discovered)
  }

  /** A lookup is answered by a read that hits, or by the store after one that missed. */
  function AnswerTo(reg: Registry, e: Event): seq<Lookup> {
    match e
    case Register(_, _) => []
    case Read(token) => if Hit(reg, token) then [Success(Dedup(reg[token]))] else []
    case Store(_, discovered) => [StoreAnswer(discovered)]
  }

  /** The answers lookups get in a run, in order. */
  function Answers(reg: Registry, run: seq<Event>): seq<Lookup>
    decreases |run|
  {
    if run == [] then [] else AnswerTo(reg, run[0]) + Answers(Next(reg, run[0]), run[1..])
  }

  /** A log that keeps every list as it arrived and deduplicates nothing. */
  function NextRaw(log: Registry, e: Event): Registry {
    match e
    case Register(token, pools) => AfterRegister(log, token, pools)
    case Read(_) => log
    case Store(token, discovered) => if discovered.Failure? then log else AfterRegister(log, token, discovered.value)
  }

  /** Answers read off the raw log: the first pool of each DEX of the list that arrived. */
  function RawAnswers(log: Registry, run: seq<Event>): seq<Lookup>
    decreases |run|
  {
    if run == [] then [] else AnswerTo(log, run[0]) + RawAnswers(NextRaw(log, run[0]), run[1..])
  }

  ghost predicate SameUpToDedup(reg: Registry, log: Registry) {
    && reg.Keys == log.Keys
    && forall t | t in reg :: Dedup(reg[t]) == Dedup(log[t])
  }

  predicate NoEmptyEntry(reg: Registry) {
    forall t | t in reg :: reg[t] != []
  }

  lemma StepKeepsRelation(reg: Registry, log: Registry, e: Event)
    requires SameUpToDedup(reg, log)
    ensures SameUpToDedup(Next(reg, e), NextRaw(log, e))
  {
    if e.Store? && e.discovered.Success? {
      DedupEmptyIff(e.discovered.value);
      DedupIdempotent(e.discovered.value);
    }
  }

  /**
    Over any run of registrations and interleaved lookups, caching deduplicated
    lists answers exactly like the raw log.
   */
  lemma {:induction false} CacheIsTransparent(reg: Registry, log: Registry, run: seq<Event>)
    requires SameUpToDedup(reg, log)
    ensures Answers(reg, run) == RawAnswers(log, run)
    decreases |run|
  {
    if run != [] {
      StepKeepsRelation(reg, log, run[0]);
      CacheIsTransparent(Next(reg, run[0]), NextRaw(log, run[0]), run[1..]);
      if run[0].Read? && run[0].token in reg {
        DedupEmptyIff(reg[run[0].token]);
        DedupEmptyIff(log[run[0].token]);
      }
    }
  }

  function Final(reg: Registry, run: seq<Event>): Registry
    decreases |run|
  {
    if run == [] then reg else Final(Next(reg, run[0]), run[1..])
  }

  lemma OneEvent(reg: Registry, e: Event)
    ensures Final(reg, [e]) == Next(reg, e) && Answers(reg, [e]) == AnswerTo(reg, e)
  {
    assert [e][1..] == [];
    assert AnswerTo(reg, e) + [] == AnswerTo(reg, e);
  }

  lemma TwoEvents(reg: Registry, e: Event, f: Event)
    ensures Final(reg, [e, f]) == Next(Next(reg, e), f)
    ensures Answers(reg, [e, f]) == AnswerTo(reg, e) + AnswerTo(Next(reg, e), f)
  {
    assert [e, f][1..] == [f];
    OneEvent(Next(reg, e), f);
  }

  /** A lookup that nothing interrupts is a read, and a store if that misses. */
  lemma UninterruptedLookup(reg: Registry, token: string, discovered: Lookup)
    ensures var run := if Hit(reg, token) then [Read(token)] else [Read(token), Store(token, discovered)];
            && Answers(reg, run) == [LookupAnswer(reg, token, discovered)]
            && Final(reg, run) == AfterLookup(reg, token, discovered)
  {
    if Hit(reg, token) {
      OneEvent(reg, Read(token));
    } else {
      TwoEvents(reg, Read(token), Store(token, discovered));
    }
  }

  /**
    A discovery that completes late answers like a lookup made at that moment exactly
    when the token is still unknown, or its list deduplicates to the one discovered;
    and it leaves the registry as such a lookup would exactly when that list, if any,
    is the deduplicated one discovered (or nothing was).
   */
  lemma LateStoreIff(reg: Registry, token: string, pools: seq<KnownPool>)
    requires NoEmptyEntry(reg)
    ensures StoreAnswer(Success(pools)) == LookupAnswer(reg, token, Success(pools))
       <==> (token in reg ==> Dedup(reg[token]) == Dedup(pools))
    ensures AfterStore(reg, token, Success(pools)) == AfterLookup(reg, token, Success(pools))
       <==> (token in reg ==> pools == [] || reg[token] == Dedup(pools))
  {
    DedupEmptyIff(pools);
    if token in reg && pools != [] {
      assert AfterStore(reg, token, Success(pools))[token] == Dedup(pools);
    }
  }

  /** Pools registered while a lookup awaits discovery are overwritten by what it returns. */
  lemma LateStoreOverwrites(reg: Registry, token: string, registered: seq<KnownPool>, pools: seq<KnownPool>)
    requires registered != [] && pools != []
    ensures Final(reg, [Register(token, registered), Store(token, Success(pools))]) == reg[token := Dedup(pools)]
  {
    TwoEvents(reg, Register(token, registered), Store(token, Success(pools)));
    DedupEmptyIff(pools);
  }

  /** No entry is ever empty, and a lookup repeated at once answers the same whatever discovery says then. */
  lemma {:induction false} RegistryStaysUseful(reg: Registry, run: seq<Event>)
    requires NoEmptyEntry(reg)
    ensures NoEmptyEntry(Final(reg, run))
    decreases |run|
  {
    if run != [] {
      RegistryStaysUseful(Next(reg, run[0]), run[1..]);
    }
  }

  lemma RepeatedLookupAgrees(reg: Registry, token: string, first: Lookup, second: Lookup)
    requires LookupAnswer(reg, token, first).Success? && LookupAnswer(reg, token, first).value != []
    ensures LookupAnswer(AfterLookup(reg, token, first), token, second) == LookupAnswer(reg, token, first)
  {
    if !(token in reg && reg[token] != []) {
      DedupIdempotent(first.value);
    }
  }
}
