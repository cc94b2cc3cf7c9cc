/** Wrapping never shows: while fewer than 2^112 units of each token exist, a call that succeeds in 256-bit
    arithmetic has done exactly what unbounded integers give. */
module Width {
  import opened Words
  import opened Tokens
  import opened Sums
  import opened Bytes
  import opened Market
  import opened Quotes
  import opened QuoteWidth
  import opened Roots
  import opened Liquidity
  import opened Totals
  import opened Exchange

  ghost predicate Bounded(m: Market) {
    forall t :: Total(m, t) < CAP
  }

  /** Reserves and supply of a pair are below a bound. */
  predicate PairBelow(p: Pair, bound: int) {
    p.reserve0 < bound && p.reserve1 < bound && p.totalSupply < bound
  }

  predicate PairSmall(p: Pair) { PairBelow(p, CAP) }

  lemma BoundedPair(m: Market, key: string)
    requires Inv(m) && Bounded(m) && key in m.pools
    ensures PairSmall(m.pools[key])
  {
    hide InPools;
    var p := m.pools[key];
    StocksFollow(m.pools);
    ReserveBounds(m.pools, key, p.token0);
    ReserveBounds(m.pools, key, p.token1);
    WalletsNonNegative(m, p.token0);
    WalletsNonNegative(m, p.token1);
    assert Total(m, p.token0) < CAP && Total(m, p.token1) < CAP;
    LessIsIrreflexive(p.token0);
    SupplySmall(p, CAP);
  }

  lemma SupplySmall(p: Pair, bound: int)
    requires PairOk(p) && p.reserve0 < bound && p.reserve1 < bound
    ensures p.totalSupply < bound
  {
    if bound <= p.totalSupply {
      MulMono(bound, p.totalSupply, bound, p.totalSupply);
      MulMono(p.reserve0, bound - 1, p.reserve1, bound - 1);
    }
  }

  lemma BoundedPools(m: Market)
    requires Inv(m) && Bounded(m)
    ensures Small(m.pools) && Stocked(m.pools)
  {
    StocksFollow(m.pools);
    forall k | k in m.pools
      ensures m.pools[k].reserve0 < CAP && m.pools[k].reserve1 < CAP
    {
      BoundedPair(m, k);
    }
  }

  lemma BoundedBalance(m: Market, owner: Address, t: Token)
    requires Inv(m) && Bounded(m)
    ensures 0 <= BalanceOf(m.wallets, owner, t) < CAP
  {
    hide InWallets;
    StocksFollow(m.pools);
    BalanceBounds(m, owner, t);
    assert Total(m, t) < CAP;
  }

  lemma CreditFits(w: Wallets, owner: Address, t: Token, amount: int)
    requires 0 <= BalanceOf(w, owner, t) + amount < MODULUS
    ensures Credit(Wrapping, w, owner, t, amount) == Credit(Exact, w, owner, t, amount)
  {
    FitIsIdentity(Wrapping, BalanceOf(w, owner, t) + amount);
  }

  lemma DebitFits(w: Wallets, owner: Address, t: Token, amount: int)
    requires 0 <= BalanceOf(w, owner, t) - amount < MODULUS
    ensures Debit(Wrapping, w, owner, t, amount) == Debit(Exact, w, owner, t, amount)
  {
    FitIsIdentity(Wrapping, BalanceOf(w, owner, t) - amount);
  }

  lemma MintFits(m: Market, c: Call)
    requires Inv(m) && Proper(c) && c.MintCall?
    requires Bounded(m)
    requires Total(m, c.token) + c.amount < CAP
    ensures Step(Wrapping, m, c) == Step(Exact, m, c)
  {
    hide Total, InWallets;
    StocksFollow(m.pools);
    BalanceBounds(m, c.to, c.token);
    CreditFits(m.wallets, c.to, c.token, c.amount);
  }

  // Deposits.

  lemma MulFits(a: int, b: int)
    requires 0 <= a < CAP && 0 <= b < CAP
    ensures Wrapping.Mul(a, b) == Exact.Mul(a, b) == a * b
    ensures 0 <= a * b < ROOT_LIMIT
  {
    ProductFits(a, b);
  }

  /** Taking the remainder first can only lower a quotient. */
  lemma QuoteNeverGrows(a: int, b: int, r: int)
    requires 0 <= a && 0 <= b && 0 < r
    ensures 0 <= Wrapping.Mul(a, b) / r <= a * b / r
  {
    MulMono(0, a, 0, b);
    var (w, n) := (Wrapping.Mul(a, b), a * b);
    RemainderSmaller(n);
    DivNonNegative(w, r);
    DivReaches(w, r, w / r);
    DivReaches(n, r, w / r);
  }

  lemma RemainderSmaller(n: int)
    requires 0 <= n
    ensures 0 <= n % MODULUS <= n
  {
  }

  lemma MintedSharesFit(p: Pair, a0: int, a1: int)
    requires 0 < p.reserve0 && 0 < p.reserve1 && 0 <= p.totalSupply < CAP
    requires 0 <= a0 < CAP && 0 <= a1 < CAP
    ensures MintedShares(Wrapping, p, a0, a1) == MintedShares(Exact, p, a0, a1)
  {
    MulFits(a0, p.totalSupply);
    MulFits(a1, p.totalSupply);
  }

  /** Even for wanted amounts near 2^256, a deposit that ends up affordable was computed without wrapping. */
  lemma DepositAmountsFit(p: Pair, d0: int, d1: int, m0: int, m1: int)
    requires PairOk(p) && PairSmall(p)
    requires 0 < d0 && 0 < d1
    requires DepositAmounts(Wrapping, p, d0, d1, m0, m1).Ok?
    requires var (a0, a1, _) := DepositAmounts(Wrapping, p, d0, d1, m0, m1).value; a0 < CAP && a1 < CAP
    ensures DepositAmounts(Exact, p, d0, d1, m0, m1) == DepositAmounts(Wrapping, p, d0, d1, m0, m1)
  {
    hide FloorSqrt, PairOk;
    if p.totalSupply == 0 {
      FirstDepositFits(p, d0, d1, m0, m1);
    } else {
      LaterDepositFits(p, d0, d1, m0, m1);
    }
  }

  lemma FirstDepositFits(p: Pair, d0: int, d1: int, m0: int, m1: int)
    requires p.totalSupply == 0
    requires 0 < d0 && 0 < d1
    requires DepositAmounts(Wrapping, p, d0, d1, m0, m1).Ok?
    requires var (a0, a1, _) := DepositAmounts(Wrapping, p, d0, d1, m0, m1).value; a0 < CAP && a1 < CAP
    ensures DepositAmounts(Exact, p, d0, d1, m0, m1) == DepositAmounts(Wrapping, p, d0, d1, m0, m1)
  {
    MulFits(d0, d1);
    var root := FloorSqrt(d0 * d1);
    RootBelow(d0 * d1, root);
    FitIsIdentity(Wrapping, root - MINIMUM_LIQUIDITY);
  }

  lemma RootBelow(v: int, root: int)
    requires 0 <= root && 0 <= v < MODULUS
    requires root * root <= v
    ensures root < MODULUS
  {
    if MODULUS <= root {
      MulMono(1, root, MODULUS, root);
    }
  }

  lemma LaterDepositFits(p: Pair, d0: int, d1: int, m0: int, m1: int)
    requires PairOk(p) && PairSmall(p) && p.totalSupply != 0
    requires 0 < d0 && 0 < d1
    requires DepositAmounts(Wrapping, p, d0, d1, m0, m1).Ok?
    requires var (a0, a1, _) := DepositAmounts(Wrapping, p, d0, d1, m0, m1).value; a0 < CAP && a1 < CAP
    ensures DepositAmounts(Exact, p, d0, d1, m0, m1) == DepositAmounts(Wrapping, p, d0, d1, m0, m1)
  {
    QuoteNeverGrows(d0, p.reserve1, p.reserve0);
    QuoteNeverGrows(d1, p.reserve0, p.reserve1);
    var optimal1 := Wrapping.Mul(d0, p.reserve1) / p.reserve0;
    var optimal0 := Wrapping.Mul(d1, p.reserve0) / p.reserve1;
    if optimal1 <= d1 {
      MulFits(d0, p.reserve1);
      MintedSharesFit(p, d0, optimal1);
    } else {
      MulFits(d1, p.reserve0);
      MintedSharesFit(p, optimal0, d1);
    }
  }

  lemma SharesFit(lp: Shares, owner: Address, amount: int)
    requires 0 <= Get(lp, owner) + amount < MODULUS
    ensures AddShares(Wrapping, lp, owner, amount) == AddShares(Exact, lp, owner, amount)
  {
    FitIsIdentity(Wrapping, Get(lp, owner) + amount);
  }

  lemma DepositFits(p: Pair, provider: Address, a0: int, a1: int, liquidity: int)
    requires PairOk(p) && PairSmall(p)
    requires 0 <= a0 < CAP && 0 <= a1 < CAP && 0 <= liquidity < MODULUS - 2 * CAP
    ensures Deposit(Wrapping, p, provider, a0, a1, liquidity) == Deposit(Exact, p, provider, a0, a1, liquidity)
  {
    FitIsIdentity(Wrapping, p.reserve0 + a0);
    FitIsIdentity(Wrapping, p.reserve1 + a1);
    SumBounds(p.lp, provider);
    SumBounds(p.lp, BURN_ADDRESS);
    if p.totalSupply == 0 {
      FitIsIdentity(Wrapping, liquidity + MINIMUM_LIQUIDITY);
      SharesFit(p.lp, BURN_ADDRESS, MINIMUM_LIQUIDITY);
      SharesFit(AddShares(Exact, p.lp, BURN_ADDRESS, MINIMUM_LIQUIDITY), provider, liquidity);
    } else {
      FitIsIdentity(Wrapping, p.totalSupply + liquidity);
      SharesFit(p.lp, provider, liquidity);
    }
  }

  /** Shares minted by an affordable deposit stay far below 256 bits. */
  lemma SharesSmall(p: Pair, d0: int, d1: int, m0: int, m1: int, a0: int, a1: int, liquidity: int)
    requires PairOk(p) && PairSmall(p)
    requires Deposits(p, d0, d1, m0, m1, a0, a1, liquidity)
    requires a0 < CAP && a1 < CAP
    ensures 0 <= a0 && 0 <= a1
    ensures 0 < liquidity <= CAP * CAP
  {
    hide DepositAmounts, PairOk;
    if p.totalSupply == 0 {
      FirstDeposit(p, d0, d1, m0, m1, a0, a1, liquidity);
      MulMono(0, a0, 0, a1);
      MulMono(a0, CAP, a1, CAP);
      MulMono(1, liquidity + MINIMUM_LIQUIDITY, liquidity, liquidity + MINIMUM_LIQUIDITY);
    } else {
      PositiveReserve(p);
      LaterDeposit(p, d0, d1, m0, m1, a0, a1, liquidity);
      MulMono(a0, CAP, p.totalSupply, CAP);
      MulMono(liquidity, liquidity, 1, p.reserve0);
    }
  }

  lemma PositiveReserve(p: Pair)
    requires PairOk(p) && p.totalSupply != 0
    ensures 0 < p.totalSupply && 0 < p.reserve0 && 0 < p.reserve1
  {
  }

  lemma TwoDebitsFit(w: Wallets, owner: Address, s: Token, u: Token, a: int, b: int)
    requires s != u
    requires 0 <= a <= BalanceOf(w, owner, s) < MODULUS && 0 <= b <= BalanceOf(w, owner, u) < MODULUS
    ensures Debit(Wrapping, Debit(Wrapping, w, owner, s, a), owner, u, b)
            == Debit(Exact, Debit(Exact, w, owner, s, a), owner, u, b)
  {
    DebitFits(w, owner, s, a);
    DebitFits(Debit(Exact, w, owner, s, a), owner, u, b);
  }

  lemma TwoCreditsFit(w: Wallets, owner: Address, s: Token, u: Token, a: int, b: int)
    requires s != u
    requires 0 <= BalanceOf(w, owner, s) + a < MODULUS && 0 <= BalanceOf(w, owner, u) + b < MODULUS
    ensures Credit(Wrapping, Credit(Wrapping, w, owner, s, a), owner, u, b)
            == Credit(Exact, Credit(Exact, w, owner, s, a), owner, u, b)
  {
    CreditFits(w, owner, s, a);
    CreditFits(Credit(Exact, w, owner, s, a), owner, u, b);
  }

  lemma CreatedIsBounded(m: Market, created: Market)
    requires Bounded(m)
    requires forall t :: Total(created, t) == Total(m, t)
    ensures Bounded(created)
  {
  }

  lemma AddFits(m: Market, c: Call)
    requires Inv(m) && Proper(c) && c.AddCall?
    requires Bounded(m)
    requires Step(Wrapping, m, c).1.Ok?
    ensures Step(Wrapping, m, c) == Step(Exact, m, c)
  {
    hide PairOk, WalletsOk, DepositAmounts, Deposit, Total, ShareKept, Debit;
    var (token0, token1) := SortTokens(c.tokenA, c.tokenB).value;
    SortTokensIsSymmetric(c.tokenA, c.tokenB);
    CreatedPair(m, token0, token1);
    var created := Market(WithPair(m.pools, token0, token1), m.wallets);
    CreatedIsBounded(m, created);
    var key := PairKey(token0, token1);
    BoundedPair(created, key);
    var p := created.pools[key];
    var (d0, d1, m0, m1) := if c.tokenA == token0 then (c.desiredA, c.desiredB, c.minA, c.minB)
                            else (c.desiredB, c.desiredA, c.minB, c.minA);
    var (a0, a1, liquidity) := DepositAmounts(Wrapping, p, d0, d1, m0, m1).value;
    BoundedBalance(m, c.provider, token0);
    BoundedBalance(m, c.provider, token1);
    DepositAmountsFit(p, d0, d1, m0, m1);
    SharesSmall(p, d0, d1, m0, m1, a0, a1, liquidity);
    DepositFits(p, c.provider, a0, a1, liquidity);
    TwoDebitsFit(m.wallets, c.provider, token0, token1, a0, a1);
  }

  // Withdrawals.

  lemma WithdrawAmountsFit(p: Pair, provider: Address, liquidity: int)
    requires PairOk(p) && PairBelow(p, 2 * CAP) && 0 <= liquidity
    ensures WithdrawAmounts(Wrapping, p, provider, liquidity) == WithdrawAmounts(Exact, p, provider, liquidity)
  {
    SumBounds(p.lp, provider);
    if liquidity < 2 * CAP {
      MulFitsTwice(liquidity, p.reserve0);
      MulFitsTwice(liquidity, p.reserve1);
    }
  }

  lemma MulFitsTwice(a: int, b: int)
    requires 0 <= a < 2 * CAP && 0 <= b < 2 * CAP
    ensures Wrapping.Mul(a, b) == a * b
  {
    MulMono(a, 2 * CAP, b, 2 * CAP);
    FitIsIdentity(Wrapping, a * b);
  }

  lemma WithdrawFits(p: Pair, provider: Address, a0: int, a1: int, liquidity: int)
    requires PairOk(p) && PairBelow(p, 2 * CAP)
    requires 0 <= a0 <= p.reserve0 && 0 <= a1 <= p.reserve1 && 0 <= liquidity <= Get(p.lp, provider)
    ensures Withdraw(Wrapping, p, provider, a0, a1, liquidity) == Withdraw(Exact, p, provider, a0, a1, liquidity)
  {
    SumBounds(p.lp, provider);
    FitIsIdentity(Wrapping, p.reserve0 - a0);
    FitIsIdentity(Wrapping, p.reserve1 - a1);
    FitIsIdentity(Wrapping, p.totalSupply - liquidity);
    FitIsIdentity(Wrapping, Get(p.lp, provider) - liquidity);
  }

  /** What a withdrawal needs of the pair it finds and of the wallet it pays into. */
  ghost predicate Withdrawable(m: Market, c: Call)
    requires c.RemoveCall?
  {
    FindPair(m.pools, c.tokenA, c.tokenB).Ok? ==>
      var ((t0, t1), (_, p)) := (SortTokens(c.tokenA, c.tokenB).value, FindPair(m.pools, c.tokenA, c.tokenB).value);
      && PairOk(p) && PairBelow(p, 2 * CAP)
      && 0 <= BalanceOf(m.wallets, c.provider, t0) < CAP && 0 <= BalanceOf(m.wallets, c.provider, t1) < CAP
  }

  lemma RemoveFitsAt(m: Market, c: Call)
    requires Proper(c) && c.RemoveCall? && Withdrawable(m, c)
    ensures Step(Wrapping, m, c) == Step(Exact, m, c)
  {
    hide PairOk, WithdrawAmounts, Withdraw, Credit;
    if c.liquidity != 0 && FindPair(m.pools, c.tokenA, c.tokenB).Ok? {
      var (token0, token1) := SortTokens(c.tokenA, c.tokenB).value;
      var (key, p) := FindPair(m.pools, c.tokenA, c.tokenB).value;
      WithdrawAmountsFit(p, c.provider, c.liquidity);
      if WithdrawAmounts(Exact, p, c.provider, c.liquidity).Ok? {
        var (a0, a1) := WithdrawAmounts(Exact, p, c.provider, c.liquidity).value;
        WithdrawKeepsPair(p, c.provider, c.liquidity, a0, a1);
        WithdrawFits(p, c.provider, a0, a1, c.liquidity);
        TwoCreditsFit(m.wallets, c.provider, token0, token1, a0, a1);
      }
    }
  }

  lemma RemoveFits(m: Market, c: Call)
    requires Inv(m) && Proper(c) && c.RemoveCall?
    requires Bounded(m)
    ensures Step(Wrapping, m, c) == Step(Exact, m, c)
  {
    hide PairOk, WalletsOk, Total, Step;
    if FindPair(m.pools, c.tokenA, c.tokenB).Ok? {
      var (token0, token1) := SortTokens(c.tokenA, c.tokenB).value;
      BoundedPair(m, FindPair(m.pools, c.tokenA, c.tokenB).value.0);
      BoundedBalance(m, c.provider, token0);
      BoundedBalance(m, c.provider, token1);
    }
    RemoveFitsAt(m, c);
  }

  // Swaps.

  /** On any path and under any names: an affordable swap is computed without wrapping. */
  lemma SwapKnownFits(m: Market, trader: Address, amounts: seq<int>, path: seq<Token>, to: Address)
    requires Inv(m) && Bounded(m)
    requires |amounts| == |path| >= 2 && Fits(path)
    requires 0 <= amounts[0] && AllBelow(amounts[1..], CAP)
    ensures SwapKnown(Wrapping, m, trader, amounts, path, to) == SwapKnown(Exact, m, trader, amounts, path, to)
  {
    hide PairOk, Total, Credit, Debit, Hops;
    var last := |path| - 1;
    BoundedBalance(m, trader, path[0]);
    if amounts[0] <= BalanceOf(m.wallets, trader, path[0]) {
      BoundedPools(m);
      forall i | 0 <= i < |amounts|
        ensures 0 <= amounts[i] < CAP
      {
        assert i > 0 ==> amounts[1..][i - 1] == amounts[i];
      }
      HopsFit(m.pools, path, amounts, CAP);
      DebitFits(m.wallets, trader, path[0], amounts[0]);
      AfterDebit(m, trader, path[0], amounts[0], to, path[last]);
      CreditFits(Debit(Exact, m.wallets, trader, path[0], amounts[0]), to, path[last], amounts[last]);
    }
  }

  lemma AfterDebit(m: Market, trader: Address, s: Token, x: int, to: Address, u: Token)
    requires Inv(m) && Bounded(m)
    requires 0 <= x <= BalanceOf(m.wallets, trader, s)
    ensures 0 <= BalanceOf(Debit(Exact, m.wallets, trader, s, x), to, u) < CAP
  {
    hide Total;
    BoundedBalance(m, trader, s);
    BoundedBalance(m, to, u);
  }

  lemma FairAmountsRange(pools: Pools, path: seq<Token>, amounts: seq<int>)
    requires Small(pools)
    requires 2 <= |path|
    requires FairPath(pools, path, amounts)
    ensures 0 <= amounts[0] && AllBelow(amounts[1..], CAP)
  {
    hide FeeInvariant;
    assert FairHop(pools, path[0], path[0 + 1], amounts[0], amounts[0 + 1]);
    forall i | 0 <= i < |amounts[1..]|
      ensures 0 <= amounts[1..][i] < CAP
    {
      assert FairHop(pools, path[i], path[i + 1], amounts[i], amounts[i + 1]);
    }
  }

  lemma SwapInFits(m: Market, c: Call)
    requires Inv(m) && c.SwapInCall? && Fits(c.path) && 0 <= c.amountIn
    requires Bounded(m)
    requires Step(Wrapping, m, c).1.Ok?
    ensures Step(Wrapping, m, c) == Step(Exact, m, c)
  {
    hide PairOk, Hops, Total, FairPath, QuoteOut;
    QuoteOutLength(Wrapping, m.pools, c.amountIn, c.path);
    BoundedPools(m);
    BoundedBalance(m, c.trader, c.path[0]);
    QuoteOutFits(m.pools, c.amountIn, c.path);
    QuoteOutIsFair(m.pools, c.amountIn, c.path);
    var amounts := AmountsOut(Exact, m.pools, c.amountIn, c.path).value;
    FairAmountsRange(m.pools, c.path, amounts);
    SwapKnownFits(m, c.trader, amounts, c.path, c.to);
  }

  lemma SwapOutFits(m: Market, c: Call)
    requires Inv(m) && c.SwapOutCall? && Fits(c.path) && 0 <= c.amountOut
    requires Bounded(m)
    ensures Step(Wrapping, m, c) == Step(Exact, m, c)
  {
    hide PairOk, Hops, Total, FairPath, QuoteIn, SwapKnown;
    BoundedPools(m);
    QuoteInFits(m.pools, c.amountOut, c.path);
    if AmountsIn(Exact, m.pools, c.amountOut, c.path).Ok? {
      QuoteInLength(Exact, m.pools, c.amountOut, c.path);
      QuoteInIsFair(m.pools, c.amountOut, c.path);
      var amounts := AmountsIn(Exact, m.pools, c.amountOut, c.path).value;
      FairAmountsRange(m.pools, c.path, amounts);
      SwapKnownFits(m, c.trader, amounts, c.path, c.to);
    }
  }

  /** Every successful call, on every state and every argument of the 256-bit type, along any path and under any
      names. */
  lemma StepFits(m: Market, c: Call)
    requires Inv(m) && Proper(c)
    requires Bounded(m)
    requires c.MintCall? ==> Total(m, c.token) + MintedBy(c, c.token) < CAP
    requires Step(Wrapping, m, c).1.Ok?
    ensures Step(Exact, m, c) == Step(Wrapping, m, c)
  {
    match c
    case MintCall(_, _, _) => MintFits(m, c);
    case AddCall(_, _, _, _, _, _, _) => AddFits(m, c);
    case RemoveCall(_, _, _, _, _, _) => RemoveFits(m, c);
    case SwapInCall(_, _, _, _, _) => SwapInFits(m, c);
    case SwapOutCall(_, _, _, _, _) => SwapOutFits(m, c);
  }
}
