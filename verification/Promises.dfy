/** The promises of the exchange, over every reachable state and every run, in 256-bit arithmetic. */
module Promises {
  import opened Words
  import opened Results
  import opened Tokens
  import opened Sums
  import opened Bytes
  import opened Market
  import opened Quotes
  import opened Liquidity
  import opened Totals
  import opened Trading
  import opened Paths
  import opened Exchange
  import opened Width
  import opened Swaps
  import opened Runs

  /** Call number i of any careful run keeps every share's value, mints exactly what it says, has moved nothing if
      it threw, and equals the unbounded-integer call if it succeeded. */
  lemma EveryCallKeeps(calls: seq<Call>, i: nat)
    requires i < |calls|
    requires AllProper(calls) && FewMinted(calls) && AllCareful(calls)
    ensures KeptWrapping(Run(calls[..i]), calls[i])
  {
    hide KeptWrapping, Careful, Sound;
    CarefulFront(calls, i);
    PrefixSound(calls, i);
    WrappingStepKeeps(Run(calls[..i]), calls[i]);
  }

  lemma PrefixSound(calls: seq<Call>, i: nat)
    requires i < |calls|
    requires AllProper(calls) && FewMinted(calls) && AllCareful(calls[..i])
    ensures AllProper(calls[..i]) && FewMinted(calls[..i])
    ensures Sound(Run(calls[..i]), calls[i])
  {
    hide Careful;
    var upto := calls[..i + 1];
    forall t: Token
      ensures Minted(upto, t) < CAP
    {
      MintedPrefix(calls, i + 1, t);
    }
    assert upto[..i] == calls[..i];
    RunSound(upto);
  }

  // Names without a bar and paths without a repeated pair are always careful.

  predicate PlainCall(c: Call) {
    match c
    case MintCall(_, _, _) => true
    case AddCall(_, a, b, _, _, _, _) => Plain(a) && Plain(b)
    case RemoveCall(_, a, b, _, _, _) => Plain(a) && Plain(b)
    case SwapInCall(_, _, _, path, _) => forall i | 0 <= i < |path| :: Plain(path[i])
    case SwapOutCall(_, _, _, path, _) => forall i | 0 <= i < |path| :: Plain(path[i])
  }

  /** No two hops name the same two tokens. */
  predicate DistinctNames(path: seq<Token>) {
    forall i, j | 0 <= i < j < |path| - 1 :: {path[i], path[i + 1]} != {path[j], path[j + 1]}
  }

  predicate SimpleCall(c: Call) {
    PlainCall(c) && (IsSwap(c) ==> DistinctNames(c.path))
  }

  lemma PlainKeysAgree(a: Token, b: Token, c: Token, d: Token)
    requires Plain(a) && Plain(b) && Plain(c) && Plain(d)
    requires HopKey(a, b) == HopKey(c, d)
    ensures {a, b} == {c, d}
  {
    hide Plain, Less;
    var (t0, t1) := if Forward(a, b) then (a, b) else (b, a);
    var (u0, u1) := if Forward(c, d) then (c, d) else (d, c);
    PairKeysEqualIff(t0, t1, u0, u1);
    PlainNamesNeverCollide(t0, t1, u0, u1);
  }

  lemma DistinctNamesAreDistinctHops(path: seq<Token>)
    requires DistinctNames(path) && forall i | 0 <= i < |path| :: Plain(path[i])
    ensures DistinctHops(path)
  {
    hide Plain, HopKey;
    forall i, j | 0 <= i < j < |path| - 1
      ensures HopKey(path[i], path[i + 1]) != HopKey(path[j], path[j + 1])
    {
      if HopKey(path[i], path[i + 1]) == HopKey(path[j], path[j + 1]) {
        PlainKeysAgree(path[i], path[i + 1], path[j], path[j + 1]);
        assert false;
      }
    }
  }

  predicate PlainPools(pools: Pools) {
    forall k | k in pools :: Plain(pools[k].token0) && Plain(pools[k].token1)
  }

  lemma PlainNamesAreClear(pools: Pools, a: Token, b: Token)
    requires KeysOk(pools) && PlainPools(pools) && Plain(a) && Plain(b)
    ensures Clear(pools, a, b)
  {
    ClearIff(pools, a, b);
    if FindPair(pools, a, b).Ok? {
      var ((t0, t1), (_, p)) := (SortTokens(a, b).value, FindPair(pools, a, b).value);
      PlainNamesNeverCollide(p.token0, p.token1, t0, t1);
    }
  }

  lemma PlainCallsConserve(m: Market, c: Call)
    requires KeysOk(m.pools) && PlainPools(m.pools) && PlainCall(c)
    ensures Conserving(Wrapping, m, c)
  {
    hide Clear, KeyOk, Plain, Step, Drift, QuoteOut, QuoteIn, ClearPath, PlainPools;
    match c
    case MintCall(_, _, _) =>
    case AddCall(_, a, b, _, _, _, _) => PlainNamesAreClear(m.pools, a, b);
    case RemoveCall(_, a, b, _, _, _) => PlainNamesAreClear(m.pools, a, b);
    case _ =>
      assert ClearPath(m.pools, c.path) by { PlainPathsAreClear(m.pools, c.path); }
      if Entered(Wrapping, m, c) {
        var (amounts, n) := (Quoted(Wrapping, m, c).value, |c.path| - 1);
        forall t
          ensures Drift(m.pools, c.path, amounts, n, t) == 0
        {
          ClearPathsDoNotDrift(m.pools, c.path, amounts, n, t);
        }
      }
  }

  lemma PlainPathsAreClear(pools: Pools, path: seq<Token>)
    requires KeysOk(pools) && PlainPools(pools) && forall i | 0 <= i < |path| :: Plain(path[i])
    ensures ClearPath(pools, path)
  {
    hide Clear, KeyOk, Plain, PlainPools;
    forall i | 0 <= i < |path| - 1
      ensures Clear(pools, path[i], path[i + 1])
    {
      PlainNamesAreClear(pools, path[i], path[i + 1]);
    }
  }

  lemma PlainPoolsStay(m: Market, c: Call)
    requires PlainPools(m.pools) && PlainCall(c)
    ensures PlainPools(Step(Wrapping, m, c).0.pools)
  {
    hide DepositAmounts, WithdrawAmounts, QuoteOut, QuoteIn, Debit, Plain;
    match c
    case MintCall(_, _, _) =>
    case AddCall(_, _, _, _, _, _, _) =>
    case RemoveCall(_, _, _, _, _, _) =>
    case _ =>
      if Entered(Wrapping, m, c) {
        HopsStayPlain(m.pools, c.path, Quoted(Wrapping, m, c).value);
      } else {
        NotEntered(m, c);
      }
  }

  lemma {:induction false} HopsStayPlain(pools: Pools, path: seq<Token>, amounts: seq<int>)
    requires PlainPools(pools) && |amounts| == |path|
    ensures PlainPools(Hops(Wrapping, pools, path, amounts).0)
    decreases |path|
  {
    if |path| > 1 && Hop(Wrapping, pools, path[0], path[1], amounts[0], amounts[1]).Ok? {
      HopsStayPlain(Hop(Wrapping, pools, path[0], path[1], amounts[0], amounts[1]).value, path[1..], amounts[1..]);
    }
  }

  /** A run whose names have no bar and whose paths use no pair twice is careful throughout. */
  lemma {:induction false} SimpleRunsAreCareful(calls: seq<Call>)
    requires AllProper(calls) && FewMinted(calls)
    requires forall i | 0 <= i < |calls| :: SimpleCall(calls[i])
    ensures AllCareful(calls) && PlainPools(Run(calls).pools)
    decreases |calls|
  {
    hide Step, Conserving, PlainPools, Bounded, PairOk, Entered, Quoted, Plain, DistinctHops, Harmless;
    if calls != [] {
      var n := |calls| - 1;
      FewMintedFront(calls);
      SimpleRunsAreCareful(calls[..n]);
      PrefixSound(calls, n);
      var (m, c) := (Run(calls[..n]), calls[n]);
      PlainCallsConserve(m, c);
      PlainPoolsStay(m, c);
      if IsSwap(c) {
        DistinctNamesAreDistinctHops(c.path);
        DistinctPathsAreHarmless(m, c);
      } else {
        OnlySwapsHarm(m, c);
      }
      assert Careful(m, c);
      forall i: nat | i < |calls|
        ensures Careful(Run(calls[..i]), calls[i])
      {
        if i < n {
          assert calls[..n][..i] == calls[..i] && calls[..n][i] == calls[i];
          assert Careful(Run(calls[..n][..i]), calls[..n][i]);
        }
      }
    } else {
      assert PlainPools(map[]) by { NoPairs(); }
    }
  }

  lemma OnlySwapsHarm(m: Market, c: Call)
    requires !IsSwap(c)
    ensures Harmless(Wrapping, m, c)
  {
  }

  lemma NoPairs()
    ensures PlainPools(map[])
  {
  }

  /** In every reachable state a pair's shares add up to its supply, both reserves are positive exactly when
      shares exist, and the supply is at most the geometric mean of the reserves. */
  lemma ReachableShares(calls: seq<Call>, key: string)
    requires AllProper(calls) && FewMinted(calls) && AllCareful(calls)
    requires key in Run(calls).pools
    ensures var p := Run(calls).pools[key];
            && Sum(p.lp) == p.totalSupply
            && (0 < p.totalSupply <==> 0 < p.reserve0 && 0 < p.reserve1)
            && (0 < p.totalSupply <==> 0 < p.reserve0 || 0 < p.reserve1)
            && p.totalSupply * p.totalSupply <= p.reserve0 * p.reserve1
  {
    RunKeeps(calls);
  }

  // The locked minimum.

  predicate BurnNeverRemoves(calls: seq<Call>) {
    forall i | 0 <= i < |calls| :: calls[i].RemoveCall? ==> calls[i].provider != BURN_ADDRESS
  }

  ghost predicate AllLocked(pools: Pools) {
    forall k | k in pools :: MinimumLocked(pools[k])
  }

  /** What one successful deposit or withdrawal does to every pair, under any names. */
  lemma LiquidityStep(m: Market, c: Call, key: string)
    requires Sound(m, c) && (c.AddCall? || c.RemoveCall?)
    requires Step(Wrapping, m, c).1.Ok?
    requires key in Step(Wrapping, m, c).0.pools
    ensures var q := Step(Wrapping, m, c).0.pools[key];
            && PairOk(q)
            && (key in m.pools ==> SidesKept(m.pools[key], q))
            && (forall who | who != c.provider && who != BURN_ADDRESS :: key in m.pools ==> Get(q.lp, who) == Get(m.pools[key].lp, who))
            && (key in m.pools && 0 < m.pools[key].totalSupply && c.provider != BURN_ADDRESS ==>
                  Get(q.lp, BURN_ADDRESS) == Get(m.pools[key].lp, BURN_ADDRESS))
            && ((key in m.pools ==> MinimumLocked(m.pools[key])) && (c.RemoveCall? ==> c.provider != BURN_ADDRESS) ==> MinimumLocked(q))
  {
    hide WalletsOk, PairOk, DepositOf, WithdrawAmounts, SidesKept, Bounded;
    StepFits(m, c);
    if key in m.pools {
      SameSides(m, key);
    }
    if c.AddCall? {
      AddStep(m, c);
      assert Step(Wrapping, m, c).0.pools[key] == if key == DepositOf(m, c).key then DepositOf(m, c).after else m.pools[key];
    } else {
      var (k, p) := FindPair(m.pools, c.tokenA, c.tokenB).value;
      var (a0, a1) := WithdrawAmounts(Exact, p, c.provider, c.liquidity).value;
      WithdrawKeepsPair(p, c.provider, c.liquidity, a0, a1);
    }
  }

  lemma SameSides(m: Market, key: string)
    requires Inv(m) && key in m.pools
    ensures PairOk(m.pools[key]) && SidesKept(m.pools[key], m.pools[key])
  {
  }

  /** One deposit: the pair before it, what was wanted, the minimums, what was taken, the shares minted. */
  datatype DepositRecord = DepositRecord(key: string, pair: Pair, d0: int, d1: int, m0: int, m1: int,
                                         a0: int, a1: int, liquidity: int, after: Pair)

  /** The deposit a successful addLiquidity makes. */
  function DepositOf(m: Market, c: Call): DepositRecord
    requires c.AddCall? && Step(Exact, m, c).1.Ok?
  {
    var (token0, token1) := SortTokens(c.tokenA, c.tokenB).value;
    var key := PairKey(token0, token1);
    var p := WithPair(m.pools, token0, token1)[key];
    var (d0, d1, m0, m1) := if c.tokenA == token0 then (c.desiredA, c.desiredB, c.minA, c.minB)
                            else (c.desiredB, c.desiredA, c.minB, c.minA);
    var (a0, a1, liquidity) := DepositAmounts(Exact, p, d0, d1, m0, m1).value;
    DepositRecord(key, p, d0, d1, m0, m1, a0, a1, liquidity, Deposit(Exact, p, c.provider, a0, a1, liquidity))
  }

  /** A successful addLiquidity is one deposit on one pair, in order before and after. */
  lemma AddStep(m: Market, c: Call)
    requires Sound(m, c) && c.AddCall?
    requires Step(Wrapping, m, c).1.Ok?
    ensures Step(Exact, m, c) == Step(Wrapping, m, c)
    ensures var d := DepositOf(m, c);
            && Deposits(d.pair, d.d0, d.d1, d.m0, d.m1, d.a0, d.a1, d.liquidity)
            && PairOk(d.pair) && PairOk(d.after) && SidesKept(d.pair, d.after)
            && 0 <= d.a0 <= d.d0 && 0 <= d.a1 <= d.d1 && 0 < d.liquidity
            && (MinimumLocked(d.pair) ==> MinimumLocked(d.after))
            && (d.key in m.pools ==> d.pair == m.pools[d.key])
            && (d.key !in m.pools ==> d.pair.totalSupply == 0)
            && d.after == Deposit(Exact, d.pair, c.provider, d.a0, d.a1, d.liquidity)
    ensures var d := DepositOf(m, c);
            && Step(Wrapping, m, c).0.pools.Keys == m.pools.Keys + {d.key}
            && (forall k | k in Step(Wrapping, m, c).0.pools ::
                  Step(Wrapping, m, c).0.pools[k] == if k == d.key then d.after else m.pools[k])
            && Step(Wrapping, m, c).1.value.added
               == if c.tokenA == SortTokens(c.tokenA, c.tokenB).value.0 then Added(d.a0, d.a1, d.liquidity)
                  else Added(d.a1, d.a0, d.liquidity)
  {
    hide WalletsOk, PairOk, DepositAmounts, Debit, Deposit, ShareKept, Bounded;
    StepFits(m, c);
    var (token0, token1) := SortTokens(c.tokenA, c.tokenB).value;
    SortTokensIsSymmetric(c.tokenA, c.tokenB);
    CreatedPair(m, token0, token1);
    var d := DepositOf(m, c);
    DepositKeepsPair(d.pair, c.provider, d.d0, d.d1, d.m0, d.m1, d.a0, d.a1, d.liquidity);
    if MinimumLocked(d.pair) {
      DepositLocks(d.pair, c.provider, d.a0, d.a1, d.liquidity);
    }
  }

  /** The supply of a pair is zero or at least 1000 in every state reached without the burn address removing. */
  lemma {:induction false} MinimumStaysLocked(calls: seq<Call>)
    requires AllProper(calls) && FewMinted(calls) && AllCareful(calls)
    requires BurnNeverRemoves(calls)
    ensures AllLocked(Run(calls).pools)
    ensures forall k | k in Run(calls).pools ::
              Run(calls).pools[k].totalSupply == 0 || MINIMUM_LIQUIDITY <= Run(calls).pools[k].totalSupply
    decreases |calls|
  {
    hide Step, Inv, Bounded, PairOk, MinimumLocked, Careful;
    if calls != [] {
      var n := |calls| - 1;
      CarefulFront(calls, n);
      MinimumStaysLocked(calls[..n]) by {
        FewMintedFront(calls);
      }
      PrefixSound(calls, n);
      LockedStep(Run(calls[..n]), calls[n]);
    }
    RunKeeps(calls);
    forall k | k in Run(calls).pools
      ensures Run(calls).pools[k].totalSupply == 0 || MINIMUM_LIQUIDITY <= Run(calls).pools[k].totalSupply
    {
      LockedPair(Run(calls), k);
    }
  }

  lemma LockedPair(m: Market, k: string)
    requires Inv(m) && AllLocked(m.pools) && k in m.pools
    ensures m.pools[k].totalSupply == 0 || MINIMUM_LIQUIDITY <= m.pools[k].totalSupply
  {
    LockedSupply(m.pools[k]);
  }

  lemma LockedStep(m: Market, c: Call)
    requires Sound(m, c) && Careful(m, c) && AllLocked(m.pools)
    requires c.RemoveCall? ==> c.provider != BURN_ADDRESS
    ensures AllLocked(Step(Wrapping, m, c).0.pools)
  {
    hide Step, PairOk, Bounded, Conserving, Harmless;
    WrappingStepKeeps(m, c);
    var m' := Step(Wrapping, m, c).0;
    if IsSwap(c) {
      SwapImproves(m, c);
    }
    forall k | k in m'.pools
      ensures MinimumLocked(m'.pools[k])
    {
      if Step(Wrapping, m, c).1.Ok? && (c.AddCall? || c.RemoveCall?) {
        LiquidityStep(m, c, k);
      } else if IsSwap(c) {
        assert Improved(m.pools[k], m'.pools[k]);
      } else if c.MintCall? {
        MintLeavesPools(m, c);
      }
    }
  }

  lemma MintLeavesPools(m: Market, c: Call)
    requires c.MintCall?
    ensures Step(Wrapping, m, c).0.pools == m.pools
  {
  }

  // Swaps.

  /** A successful swap, on any path: every hop satisfies the fee-adjusted invariant on the starting reserves, every
      pair ends with its net effect, and the caller's limit holds. On a path that uses no pair twice each hop trades
      exactly the returned amounts and no product falls. */
  lemma SwapIsFair(m: Market, c: Call)
    requires SwapReady(m, c)
    requires Step(Wrapping, m, c).1.Ok?
    ensures var (m', outcome) := Step(Wrapping, m, c);
            var amounts := outcome.value.amounts;
            && FairPath(m.pools, c.path, amounts) && 2 <= |c.path|
            && (forall k | k in m.pools :: k in m'.pools && m'.pools[k] == Netted(k, m.pools[k], c.path, amounts))
            && (c.SwapInCall? ==> amounts[0] == c.amountIn && c.amountOutMin <= amounts[|amounts| - 1])
            && (c.SwapOutCall? ==> amounts[|amounts| - 1] == c.amountOut && amounts[0] <= c.amountInMax)
            && (DistinctHops(c.path) ==> TradedOnce(m.pools, m'.pools, c.path, amounts) && AllImproved(m.pools, m'.pools))
  {
    hide PairOk, WalletsOk, Total, Hops, FairHop, QuoteOut, QuoteIn, TradedOnce, Improved, Bounded, Step, PathExists, Payable, Netted;
    ThrowsMidwayIff(m, c);
    EnteredSwap(m, c);
    EnteredIsFair(m, c);
    SharesKeptIff(m, c);
    if c.SwapInCall? {
      QuoteOutLength(Wrapping, m.pools, c.amountIn, c.path);
    } else {
      QuoteInLength(Wrapping, m.pools, c.amountOut, c.path);
    }
    if DistinctHops(c.path) {
      FairPathTrades(m.pools, c.path, Quoted(Wrapping, m, c).value);
    }
  }

  lemma SwapImproves(m: Market, c: Call)
    requires Sound(m, c) && Careful(m, c) && IsSwap(c)
    ensures AllImproved(m.pools, Step(Wrapping, m, c).0.pools)
  {
    hide Inv, Bounded, Total, Improved, Step, QuoteOut, QuoteIn, Payable, NetsKeep, PathExists;
    ThrowsMidwayIff(m, c);
    if Step(Wrapping, m, c).1.Ok? {
      SharesKeptIff(m, c);
    } else {
      StayImproved(m.pools);
    }
  }

  predicate SwapsFrom(calls: seq<Call>, n: nat)
    requires n <= |calls|
  {
    forall i | n <= i < |calls| :: IsSwap(calls[i])
  }

  /** Over any run of swaps no pair can be drained on one side without being filled on the other. */
  lemma SwapRunsNeverDrain(calls: seq<Call>, n: nat, key: string)
    requires AllProper(calls) && FewMinted(calls) && AllCareful(calls)
    requires n <= |calls| && SwapsFrom(calls, n)
    requires key in Run(calls[..n]).pools
    ensures key in Run(calls).pools
    ensures var (p, q) := (Run(calls[..n]).pools[key], Run(calls).pools[key]);
            && Improved(p, q)
            && (q.reserve0 <= p.reserve0 ==> p.reserve1 <= q.reserve1)
            && (q.reserve1 <= p.reserve1 ==> p.reserve0 <= q.reserve0)
  {
    hide Step, PairOk, Careful;
    SwapRunsImprove(calls, n);
    var (p, q) := (Run(calls[..n]).pools[key], Run(calls).pools[key]);
    assert Improved(p, q);
    RunKeeps(calls);
    RunPrefixKeeps(calls, n);
    NotDrained(p, q);
  }

  lemma NotDrained(p: Pair, q: Pair)
    requires PairOk(p) && PairOk(q) && Improved(p, q)
    ensures q.reserve0 <= p.reserve0 ==> p.reserve1 <= q.reserve1
    ensures q.reserve1 <= p.reserve1 ==> p.reserve0 <= q.reserve0
  {
    if p.totalSupply != 0 {
      if q.reserve0 <= p.reserve0 {
        Scale(q.reserve0, p.reserve0, q.reserve1);
        Cancel(p.reserve1, q.reserve1, p.reserve0);
      }
      if q.reserve1 <= p.reserve1 {
        Scale(q.reserve1, p.reserve1, q.reserve0);
        Cancel(p.reserve0, q.reserve0, p.reserve1);
      }
    }
  }

  lemma RunPrefixKeeps(calls: seq<Call>, n: nat)
    requires AllProper(calls) && FewMinted(calls) && AllCareful(calls) && n <= |calls|
    ensures AllProper(calls[..n]) && FewMinted(calls[..n]) && Inv(Run(calls[..n]))
  {
    hide Careful;
    var front := calls[..n];
    CarefulFront(calls, n);
    forall t: Token
      ensures Minted(front, t) < CAP
    {
      MintedPrefix(calls, n, t);
    }
    RunKeeps(front);
  }

  lemma {:induction false} SwapRunsImprove(calls: seq<Call>, n: nat)
    requires AllProper(calls) && FewMinted(calls) && AllCareful(calls)
    requires n <= |calls| && SwapsFrom(calls, n)
    ensures AllImproved(Run(calls[..n]).pools, Run(calls).pools)
    decreases |calls|
  {
    hide Step, AllImproved, Careful;
    if n == |calls| {
      assert calls[..n] == calls;
      StayImproved(Run(calls).pools);
    } else {
      var front := calls[..|calls| - 1];
      FewMintedFront(calls);
      CarefulFront(calls, |calls| - 1);
      SwapRunsImprove(front, n);
      assert front[..n] == calls[..n];
      PrefixSound(calls, |calls| - 1);
      SwapImproves(Run(front), calls[|calls| - 1]);
      ImprovedTransitive(Run(calls[..n]).pools, Run(front).pools, Run(calls).pools);
    }
  }

  // Deposits and withdrawals.

  /** addLiquidity never takes more than was wanted, on either side, and keeps a minimum unless it was set
      above the wanted amount. */
  lemma DepositIsFair(m: Market, c: Call)
    requires Sound(m, c) && c.AddCall?
    requires Step(Wrapping, m, c).1.Ok?
    ensures var added := Step(Wrapping, m, c).1.value.added;
            && 0 <= added.amountA <= c.desiredA && 0 <= added.amountB <= c.desiredB && 0 < added.liquidity
            && (c.minA <= c.desiredA && c.minB <= c.desiredB ==> c.minA <= added.amountA && c.minB <= added.amountB)
  {
    hide Step, PairOk, DepositAmounts, Deposits;
    StepFits(m, c);
    AddStep(m, c);
    var d := DepositOf(m, c);
    MinimumsHoldIff(d.pair, d.d0, d.d1, d.m0, d.m1, d.a0, d.a1, d.liquidity);
    WantedOf(m, c);
  }

  /** A successful addLiquidity meets both minimums exactly when the side it takes in full was wanted at its
      minimum, or the pair had no shares. */
  lemma MinimumsMetIff(m: Market, c: Call)
    requires Sound(m, c) && c.AddCall?
    requires Step(Wrapping, m, c).1.Ok?
    ensures Step(Exact, m, c).1.Ok?
    ensures var (added, d) := (Step(Wrapping, m, c).1.value.added, DepositOf(m, c));
            (d.pair.totalSupply != 0 ==> d.pair.reserve0 != 0)
            && (c.minA <= added.amountA && c.minB <= added.amountB
                <==> (d.pair.totalSupply == 0 || (if MatchesToken1(d.pair, d.d0, d.d1) then d.m0 <= d.d0 else d.m1 <= d.d1)))
  {
    hide Step, PairOk, DepositAmounts, Deposits;
    StepFits(m, c);
    AddStep(m, c);
    var d := DepositOf(m, c);
    MinimumsHoldIff(d.pair, d.d0, d.d1, d.m0, d.m1, d.a0, d.a1, d.liquidity);
    WantedOf(m, c);
    ReserveOf(d.pair);
  }

  lemma ReserveOf(p: Pair)
    requires PairOk(p)
    ensures p.totalSupply != 0 ==> p.reserve0 != 0
  {
  }

  lemma WantedOf(m: Market, c: Call)
    requires c.AddCall? && Step(Exact, m, c).1.Ok?
    ensures var d := DepositOf(m, c);
            (d.d0, d.d1, d.m0, d.m1) == (if c.tokenA == SortTokens(c.tokenA, c.tokenB).value.0
                                         then (c.desiredA, c.desiredB, c.minA, c.minB)
                                         else (c.desiredB, c.desiredA, c.minB, c.minA))
  {
  }

  /** Removing freshly minted shares pays back at most what they cost, token by token. */
  lemma NoGainFromRoundTrip(m: Market, c: Call, back: Call)
    requires Sound(m, c) && c.AddCall?
    requires Step(Wrapping, m, c).1.Ok?
    requires back.RemoveCall? && Proper(back)
    requires back.provider == c.provider && back.tokenA == c.tokenA && back.tokenB == c.tokenB
    requires back.liquidity == Step(Wrapping, m, c).1.value.added.liquidity
    requires Step(Wrapping, Step(Wrapping, m, c).0, back).1.Ok?
    ensures var added := Step(Wrapping, m, c).1.value.added;
            var removed := Step(Wrapping, Step(Wrapping, m, c).0, back).1.value.removed;
            removed.amountA <= added.amountA && removed.amountB <= added.amountB
  {
    hide PairOk, WalletsOk, Deposits, DepositAmounts, DepositOf, AddLiquidity, Deposit, Bounded, Withdrawable;
    AddStep(m, c);
    var m' := Step(Exact, m, c).0;
    var d := DepositOf(m, c);
    AddedIsWithdrawable(m, c, back);
    RemoveFitsAt(m', back);
    DepositKey(m, c);
    assert FindPair(m'.pools, c.tokenA, c.tokenB) == Ok((d.key, d.after));
    var (b0, b1) := WithdrawAmounts(Exact, d.after, c.provider, d.liquidity).value;
    RedeemAtMostDeposit(d.pair, c.provider, d.d0, d.d1, d.m0, d.m1, d.a0, d.a1, d.liquidity, b0, b1);
  }

  /** A deposit at most doubles what a pair may hold, so its shares can be withdrawn without wrapping. */
  lemma AddedIsWithdrawable(m: Market, c: Call, back: Call)
    requires Sound(m, c) && c.AddCall? && Step(Wrapping, m, c).1.Ok?
    requires back.RemoveCall? && back.provider == c.provider && back.tokenA == c.tokenA && back.tokenB == c.tokenB
    ensures Withdrawable(Step(Exact, m, c).0, back)
  {
    hide PairOk, WalletsOk, Deposits, DepositAmounts, Bounded, Total, Step;
    AddStep(m, c);
    DepositKey(m, c);
    AddWallets(m, c);
    var (d, (t0, t1)) := (DepositOf(m, c), SortTokens(c.tokenA, c.tokenB).value);
    BoundedBalance(m, c.provider, t0);
    BoundedBalance(m, c.provider, t1);
    ReservesBelow(m, d);
    SupplySmall(d.after, 2 * CAP);
  }

  lemma ReservesBelow(m: Market, d: DepositRecord)
    requires Inv(m) && Bounded(m)
    requires d.key in m.pools ==> d.pair == m.pools[d.key]
    requires d.key !in m.pools ==> d.pair.totalSupply == 0
    requires PairOk(d.pair)
    ensures d.pair.reserve0 < CAP && d.pair.reserve1 < CAP
  {
    hide Bounded;
    if d.key in m.pools {
      BoundedPair(m, d.key);
    }
  }

  /** A successful deposit is paid from the wallet, which can afford it. */
  lemma AddWallets(m: Market, c: Call)
    requires c.AddCall? && Step(Exact, m, c).1.Ok?
    ensures SortTokens(c.tokenA, c.tokenB).Ok?
    ensures var ((t0, t1), d) := (SortTokens(c.tokenA, c.tokenB).value, DepositOf(m, c));
            var w := Step(Exact, m, c).0.wallets;
            && d.a0 <= BalanceOf(m.wallets, c.provider, t0) && d.a1 <= BalanceOf(m.wallets, c.provider, t1)
            && BalanceOf(w, c.provider, t0) == BalanceOf(m.wallets, c.provider, t0) - d.a0
            && BalanceOf(w, c.provider, t1) == BalanceOf(m.wallets, c.provider, t1) - d.a1
  {
    hide DepositAmounts, Deposit;
  }

  lemma DepositKey(m: Market, c: Call)
    requires c.AddCall? && Step(Exact, m, c).1.Ok?
    ensures SortTokens(c.tokenA, c.tokenB).Ok?
    ensures var (token0, token1) := SortTokens(c.tokenA, c.tokenB).value; DepositOf(m, c).key == PairKey(token0, token1)
  {
  }

  /** When someone else adds or removes liquidity, a holder's claim on either reserve never falls. */
  lemma OthersClaimsNeverFall(m: Market, c: Call, who: Address, key: string)
    requires Sound(m, c) && (c.AddCall? || c.RemoveCall?) && c.provider != who
    requires key in m.pools && 0 < m.pools[key].totalSupply
    ensures key in Step(Wrapping, m, c).0.pools
    ensures var (p, q) := (m.pools[key], Step(Wrapping, m, c).0.pools[key]);
            0 < q.totalSupply ==>
              && Claim(Get(p.lp, who), p.reserve0, p.totalSupply) <= Claim(Get(q.lp, who), q.reserve0, q.totalSupply)
              && Claim(Get(p.lp, who), p.reserve1, p.totalSupply) <= Claim(Get(q.lp, who), q.reserve1, q.totalSupply)
  {
    hide Step, Claim, PairOk;
    KeysStay(m, c, key);
    var (p, q) := (m.pools[key], Step(Wrapping, m, c).0.pools[key]);
    if Step(Wrapping, m, c).1.Ok? {
      StepFits(m, c);
      LiquidityStep(m, c, key);
      if 0 < q.totalSupply {
        SharesOf(m, key, who);
        ClaimKept(Get(p.lp, who), p.reserve0, p.totalSupply, q.reserve0, q.totalSupply);
        ClaimKept(Get(p.lp, who), p.reserve1, p.totalSupply, q.reserve1, q.totalSupply);
      }
    }
  }

  /** Adding and removing never lose a pair, and change none when they throw. */
  lemma KeysStay(m: Market, c: Call, key: string)
    requires Sound(m, c) && (c.AddCall? || c.RemoveCall?) && key in m.pools
    ensures key in Step(Wrapping, m, c).0.pools
    ensures Step(Wrapping, m, c).1.Err? ==> Step(Wrapping, m, c).0.pools[key] == m.pools[key]
  {
    hide DepositAmounts, WithdrawAmounts, Debit, Credit, Deposit, Withdraw, Inv, Bounded;
  }

  lemma SharesOf(m: Market, key: string, who: Address)
    requires Inv(m) && key in m.pools
    ensures 0 <= Get(m.pools[key].lp, who)
  {
    SumBounds(m.pools[key].lp, who);
  }
}
