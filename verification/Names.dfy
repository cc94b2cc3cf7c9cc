/** What a call moves when its names collide with those of a stored pair: it takes amounts of the tokens it names and
stores them under others. */
module Names {
  import opened Words
  import opened Results
  import opened Tokens
  import opened Bytes
  import opened Market
  import opened Liquidity
  import opened Totals
  import opened Paths
  import opened Exchange
  import opened Width
  import opened Swaps
  import opened Runs
  import opened Promises

  /** Two positive amounts are the same tokens under both pairs of names exactly when the names are the same. */
  lemma SameTokensIff(t0: Token, t1: Token, u0: Token, u1: Token, a0: int, a1: int)
    requires Less(t0, t1) && Less(u0, u1) && 0 < a0 && 0 < a1
    requires PairKey(t0, t1) == PairKey(u0, u1)
    ensures (forall t :: Of(t0, a0, t) + Of(t1, a1, t) == Of(u0, a0, t) + Of(u1, a1, t)) <==> t0 == u0 && t1 == u1
  {
    PairKeysEqualIff(t0, t1, u0, u1);
    LessIsIrreflexive(t0);
    if t0 != u0 || t1 != u1 {
      assert Of(t0, a0, t0) + Of(t1, a1, t0) == a0 && Of(t0, a0, t1) + Of(t1, a1, t1) == a1;
      assert t0 != u0 && t1 != u1;
      if u0 == t1 && u1 == t0 {
        LessIsTotal(t0, t1);
      }
    }
  }

  lemma HeldMoves(p: Pair, q: Pair, a0: int, a1: int, t: Token)
    requires p.token0 != p.token1 && q.token0 == p.token0 && q.token1 == p.token1
    requires q.reserve0 == p.reserve0 + a0 && q.reserve1 == p.reserve1 + a1
    ensures Held(q, t) == Held(p, t) + Of(p.token0, a0, t) + Of(p.token1, a1, t)
  {
  }

  /** How a deposit of a0 and a1, or a withdrawal with both negated, moves each token's total: from the names given to
      the names stored. */
  lemma LiquidityMoves(m: Market, provider: Address, t0: Token, t1: Token, q: Pair, a0: int, a1: int, t: Token)
    requires KeysOk(m.pools) && t0 != t1 && PairKey(t0, t1) in m.pools
    requires var p := m.pools[PairKey(t0, t1)];
             q.token0 == p.token0 && q.token1 == p.token1 && q.reserve0 == p.reserve0 + a0 && q.reserve1 == p.reserve1 + a1
    ensures var p := m.pools[PairKey(t0, t1)];
            var m' := Market(m.pools[PairKey(t0, t1) := q], Debit(Exact, Debit(Exact, m.wallets, provider, t0, a0), provider, t1, a1));
            Total(m', t) == Total(m, t) - Of(t0, a0, t) - Of(t1, a1, t) + Of(p.token0, a0, t) + Of(p.token1, a1, t)
  {
    hide InWallets, InPools, Held;
    var (key, w) := (PairKey(t0, t1), m.wallets);
    var p := m.pools[key];
    assert KeyOk(key, p);
    LessIsIrreflexive(p.token0);
    HeldMoves(p, q, a0, a1, t);
    SetPairMoves(m.pools, key, q, t);
    assert Debit(Exact, Debit(Exact, w, provider, t0, a0), provider, t1, a1)
        == Credit(Exact, Credit(Exact, w, provider, t0, -a0), provider, t1, -a1);
    TwoBalances(w, provider, t0, t1, -a0, -a1, t);
  }

  ghost predicate TotalsStay(m: Market, m': Market) {
    forall t :: Total(m', t) == Total(m, t)
  }

  /** The amounts of a successful deposit or withdrawal are positive on both sides. */
  lemma DepositsArePositive(p: Pair, d0: int, d1: int, m0: int, m1: int, a0: int, a1: int, liquidity: int)
    requires PairOk(p) && Deposits(p, d0, d1, m0, m1, a0, a1, liquidity)
    ensures 0 < a0 && 0 < a1
  {
    hide DepositAmounts;
    if p.totalSupply == 0 {
      FirstDeposit(p, d0, d1, m0, m1, a0, a1, liquidity);
    } else {
      LaterDeposit(p, d0, d1, m0, m1, a0, a1, liquidity);
      MulStrict(0, liquidity, 0, p.reserve0);
      MulStrict(0, liquidity, 0, p.reserve1);
    }
  }

  /** A successful deposit conserves every token exactly when the stored pair has the names it gives. */
  lemma AddConservesIff(m: Market, c: Call)
    requires Sound(m, c) && c.AddCall?
    requires Step(Wrapping, m, c).1.Ok?
    ensures TotalsStay(m, Step(Wrapping, m, c).0) <==> Clear(m.pools, c.tokenA, c.tokenB)
  {
    hide PairOk, WalletsOk, Total, Bounded, DepositAmounts, ShareKept, Debit;
    StepFits(m, c);
    AddStep(m, c);
    var (t0, t1) := SortTokens(c.tokenA, c.tokenB).value;
    SortTokensIsSymmetric(c.tokenA, c.tokenB);
    CreatedPair(m, t0, t1);
    var (created, d) := (Market(WithPair(m.pools, t0, t1), m.wallets), DepositOf(m, c));
    DepositsArePositive(d.pair, d.d0, d.d1, d.m0, d.m1, d.a0, d.a1, d.liquidity);
    forall t
      ensures Total(Step(Wrapping, m, c).0, t)
              == Total(m, t) - Of(t0, d.a0, t) - Of(t1, d.a1, t) + Of(d.pair.token0, d.a0, t) + Of(d.pair.token1, d.a1, t)
    {
      LiquidityMoves(created, c.provider, t0, t1, d.after, d.a0, d.a1, t);
    }
    assert KeyOk(d.key, d.pair);
    SameTokensIff(t0, t1, d.pair.token0, d.pair.token1, d.a0, d.a1);
  }

  /** A successful withdrawal replaces one pair, and takes the negated amounts from the wallet. */
  lemma RemoveStep(m: Market, c: Call)
    requires c.RemoveCall? && Step(Exact, m, c).1.Ok?
    ensures FindPair(m.pools, c.tokenA, c.tokenB).Ok? && c.liquidity != 0
    ensures var ((t0, t1), (key, p)) := (SortTokens(c.tokenA, c.tokenB).value, FindPair(m.pools, c.tokenA, c.tokenB).value);
            && key == PairKey(t0, t1) && key in m.pools && p == m.pools[key]
            && WithdrawAmounts(Exact, p, c.provider, c.liquidity).Ok?
            && var (a0, a1) := WithdrawAmounts(Exact, p, c.provider, c.liquidity).value;
               Step(Exact, m, c).0
               == Market(m.pools[key := Withdraw(Exact, p, c.provider, a0, a1, c.liquidity)],
                         Debit(Exact, Debit(Exact, m.wallets, c.provider, t0, -a0), c.provider, t1, -a1))
  {
    hide WithdrawAmounts, Withdraw;
  }

  /** A successful withdrawal conserves every token exactly when the stored pair has the names it gives. */
  lemma RemoveConservesIff(m: Market, c: Call)
    requires Sound(m, c) && c.RemoveCall?
    requires Step(Wrapping, m, c).1.Ok?
    ensures TotalsStay(m, Step(Wrapping, m, c).0) <==> Clear(m.pools, c.tokenA, c.tokenB)
  {
    hide PairOk, WalletsOk, Total, Bounded, WithdrawAmounts, ShareKept, Step, Debit;
    StepFits(m, c);
    RemoveStep(m, c);
    var ((t0, t1), (key, p)) := (SortTokens(c.tokenA, c.tokenB).value, FindPair(m.pools, c.tokenA, c.tokenB).value);
    SortTokensIsSymmetric(c.tokenA, c.tokenB);
    var (a0, a1) := WithdrawAmounts(Exact, p, c.provider, c.liquidity).value;
    WithdrawKeepsPair(p, c.provider, c.liquidity, a0, a1);
    LessIsIrreflexive(t0);
    assert SortTokens(t0, t1) == Ok((t0, t1));
    forall t
      ensures Total(Step(Wrapping, m, c).0, t)
              == Total(m, t) + Of(t0, a0, t) + Of(t1, a1, t) - Of(p.token0, a0, t) - Of(p.token1, a1, t)
    {
      LiquidityMoves(m, c.provider, t0, t1, Withdraw(Exact, p, c.provider, a0, a1, c.liquidity), -a0, -a1, t);
    }
    assert KeyOk(key, p);
    SameTokensIff(t0, t1, p.token0, p.token1, a0, a1);
  }

  // Swaps.

  /** A swap that goes through, on any path and under any names, moves each token's total by the drift of its hops, so
      it conserves every token exactly when the drifts cancel. */
  lemma SwapConservesIff(m: Market, c: Call)
    requires SwapReady(m, c) && Step(Wrapping, m, c).1.Ok?
    ensures Entered(Wrapping, m, c)
    ensures var (m', amounts) := (Step(Wrapping, m, c).0, Quoted(Wrapping, m, c).value);
            var n := |c.path| - 1;
            && (forall t :: Total(m', t) == Total(m, t) + Drift(m.pools, c.path, amounts, n, t))
            && (TotalsStay(m, m') <==> NoDrift(m.pools, c.path, amounts))
  {
    hide PairOk, Hops, Step, QuoteOut, QuoteIn, Bounded, WalletsOk, InPools, InWallets, Drift, Payable, PathExists;
    ThrowsMidwayIff(m, c);
    EnteredIsFair(m, c);
    EnteredSwap(m, c);
    var (amounts, n) := (Quoted(Wrapping, m, c).value, |c.path| - 1);
    assert 0 <= amounts[n];
    SwapWallets(m.wallets, c.trader, c.path[0], amounts[0], c.to, c.path[n], amounts[n]);
    SwappedWallets(m, c);
    forall t
      ensures Total(Step(Wrapping, m, c).0, t) == Total(m, t) + Drift(m.pools, c.path, amounts, n, t)
    {
      HopsMove(m.pools, c.path, amounts, t);
    }
  }

  lemma SwappedWallets(m: Market, c: Call)
    requires SwapReady(m, c) && Entered(Wrapping, m, c) && Step(Wrapping, m, c).1.Ok?
    ensures var (amounts, n) := (Quoted(Wrapping, m, c).value, |c.path| - 1);
            Step(Wrapping, m, c).0.wallets
            == Credit(Exact, Debit(Exact, m.wallets, c.trader, c.path[0], amounts[0]), c.to, c.path[n], amounts[n])
  {
    hide PairOk, Total, Hops, QuoteOut, QuoteIn, Credit, Debit, WalletsOk;
    StepFits(m, c);
    EnteredFits(m, c);
  }
}
