/** One call on the exchange, in exact arithmetic: what every call keeps. */
module Exchange {
  import opened Words
  import opened Results
  import opened Tokens
  import opened Bytes
  import opened Market
  import opened Quotes
  import opened Liquidity
  import opened Totals
  import opened Trading
  import opened Paths

  datatype Call =
    | MintCall(to: Address, token: Token, amount: int)
    | AddCall(provider: Address, tokenA: Token, tokenB: Token, desiredA: int, desiredB: int, minA: int, minB: int)
    | RemoveCall(provider: Address, tokenA: Token, tokenB: Token, liquidity: int, minA: int, minB: int)
    | SwapInCall(trader: Address, amountIn: int, amountOutMin: int, path: seq<Token>, to: Address)
    | SwapOutCall(trader: Address, amountOut: int, amountInMax: int, path: seq<Token>, to: Address)

  datatype Receipt = MintDone | AddDone(added: Added) | RemoveDone(removed: Removed) | SwapDone(amounts: seq<int>)

  function Wrap<T>(step: (Market, Result<T>), receipt: T -> Receipt): (Market, Result<Receipt>) {
    (step.0, match step.1 case Ok(v) => Ok(receipt(v)) case Err(e) => Err(e))
  }

  function Step(ar: Arithmetic, m: Market, c: Call): (Market, Result<Receipt>) {
    match c
    case MintCall(to, token, amount) => Wrap(Mint(ar, m, to, token, amount), _ => MintDone)
    case AddCall(provider, tokenA, tokenB, desiredA, desiredB, minA, minB) =>
      Wrap(AddLiquidity(ar, m, provider, tokenA, tokenB, desiredA, desiredB, minA, minB), a => AddDone(a))
    case RemoveCall(provider, tokenA, tokenB, liquidity, minA, minB) =>
      Wrap(RemoveLiquidity(ar, m, provider, tokenA, tokenB, liquidity, minA, minB), r => RemoveDone(r))
    case SwapInCall(trader, amountIn, amountOutMin, path, to) =>
      Wrap(SwapExactIn(ar, m, trader, amountIn, amountOutMin, path, to), s => SwapDone(s))
    case SwapOutCall(trader, amountOut, amountInMax, path, to) =>
      Wrap(SwapExactOut(ar, m, trader, amountOut, amountInMax, path, to), s => SwapDone(s))
  }

  /** Arguments of the 256-bit type, and paths that a machine can hold. */
  predicate Proper(c: Call) {
    match c
    case MintCall(_, _, amount) => 0 <= amount < MODULUS
    case AddCall(_, _, _, dA, dB, mA, mB) => 0 <= dA < MODULUS && 0 <= dB < MODULUS && 0 <= mA < MODULUS && 0 <= mB < MODULUS
    case RemoveCall(_, _, _, l, mA, mB) => 0 <= l < MODULUS && 0 <= mA < MODULUS && 0 <= mB < MODULUS
    case SwapInCall(_, x, y, path, _) => 0 <= x < MODULUS && 0 <= y < MODULUS && Fits(path)
    case SwapOutCall(_, x, y, path, _) => 0 <= x < MODULUS && 0 <= y < MODULUS && Fits(path)
  }

  predicate IsSwap(c: Call) { c.SwapInCall? || c.SwapOutCall? }

  /** What a swap would move if it went through. */
  function Quoted(ar: Arithmetic, m: Market, c: Call): Result<seq<int>>
    requires IsSwap(c)
  {
    if c.SwapInCall? then AmountsOut(ar, m.pools, c.amountIn, c.path) else AmountsIn(ar, m.pools, c.amountOut, c.path)
  }

  /** The quote exists, is within the caller's limit, and the trader holds its first amount. */
  predicate Entered(ar: Arithmetic, m: Market, c: Call)
    requires IsSwap(c)
  {
    && Quoted(ar, m, c).Ok?
    && var amounts := Quoted(ar, m, c).value;
       && |amounts| == |c.path| >= 2
       && (c.SwapInCall? ==> c.amountOutMin <= amounts[|amounts| - 1])
       && (c.SwapOutCall? ==> amounts[0] <= c.amountInMax)
       && amounts[0] <= BalanceOf(m.wallets, c.trader, c.path[0])
  }

  /** A check on the state before the call: if a swap is entered, every hop can be paid and no pair's product falls
      by the net effect of the path. */
  predicate Harmless(ar: Arithmetic, m: Market, c: Call) {
    IsSwap(c) && Entered(ar, m, c) ==>
      && PathExists(m.pools, c.path)
      && Payable(m.pools, c.path, Quoted(ar, m, c).value)
      && NetsKeep(m.pools, c.path, Quoted(ar, m, c).value)
  }

  /** The drifts of the hops cancel, for every token. */
  ghost predicate NoDrift(pools: Pools, path: seq<Token>, amounts: seq<int>)
    requires |amounts| == |path| >= 1
  {
    var n := |path| - 1;
    forall t :: Drift(pools, path, amounts, n, t) == 0
  }

  /** The call moves only the tokens it names: a deposit or withdrawal that does not throw finds the pair of its own
      names, and the drifts of an entered swap cancel. */
  ghost predicate Conserving(ar: Arithmetic, m: Market, c: Call) {
    match c
    case MintCall(_, _, _) => true
    case AddCall(_, a, b, _, _, _, _) => Step(ar, m, c).1.Ok? ==> Clear(m.pools, a, b)
    case RemoveCall(_, a, b, _, _, _) => Step(ar, m, c).1.Ok? ==> Clear(m.pools, a, b)
    case _ => Entered(ar, m, c) ==> NoDrift(m.pools, c.path, Quoted(ar, m, c).value)
  }

  ghost predicate Inv(m: Market) {
    PoolsOk(m.pools) && WalletsOk(m.wallets)
  }

  predicate IsEmpty(p: Pair) {
    p.reserve0 == 0 && p.reserve1 == 0 && p.totalSupply == 0 && p.lp == map[]
  }

  /** Nothing moved: at most a pair without reserves and shares was created. */
  predicate Untouched(m: Market, m': Market) {
    && m'.wallets == m.wallets
    && m.pools.Keys <= m'.pools.Keys
    && forall k | k in m'.pools :: if k in m.pools then m'.pools[k] == m.pools[k] else IsEmpty(m'.pools[k])
  }

  /** No pair disappears and no share loses value. */
  predicate SharesKept(m: Market, m': Market) {
    && m.pools.Keys <= m'.pools.Keys
    && forall k | k in m.pools :: ShareKept(m.pools[k], m'.pools[k])
  }

  /** New tokens of kind t that a call creates. */
  function MintedBy(c: Call, t: Token): int {
    if c.MintCall? && c.token != "" then Of(c.token, c.amount, t) else 0
  }

  /** What one call keeps, whether it succeeds or throws. */
  ghost predicate Kept(m: Market, c: Call, m': Market, outcome: Result<Receipt>) {
    && Inv(m')
    && SharesKept(m, m')
    && (outcome.Err? ==> Untouched(m, m'))
    && forall t :: Total(m', t) == Total(m, t) + MintedBy(c, t)
  }

  lemma StocksFollow(pools: Pools)
    requires PoolsOk(pools)
    ensures Stocked(pools)
  {
  }

  lemma MintKeeps(m: Market, c: Call)
    requires Inv(m) && Proper(c) && c.MintCall?
    ensures Kept(m, c, Step(Exact, m, c).0, Step(Exact, m, c).1)
  {
    hide PairOk;
    var m' := Step(Exact, m, c).0;
    BalanceBoundsNonNegative(m.wallets, c.to, c.token);
    forall t
      ensures Total(m', t) == Total(m, t) + MintedBy(c, t)
    {
      SetBalanceMoves(m.wallets, c.to, c.token, BalanceOf(m.wallets, c.to, c.token) + c.amount, t);
    }
  }

  lemma BalanceBoundsNonNegative(w: Wallets, owner: Address, token: Token)
    requires WalletsOk(w)
    ensures 0 <= BalanceOf(w, owner, token)
  {
  }

  // Liquidity.

  lemma CreatedPair(m: Market, token0: Token, token1: Token)
    requires Inv(m)
    requires SortTokens(token0, token1) == Ok((token0, token1))
    ensures var created := Market(WithPair(m.pools, token0, token1), m.wallets);
            var p := created.pools[PairKey(token0, token1)];
            && Inv(created) && Untouched(m, created) && SharesKept(m, created)
            && (Clear(m.pools, token0, token1) ==> p.token0 == token0 && p.token1 == token1)
            && forall t :: Total(created, t) == Total(m, t)
  {
    hide WalletsOk, InPools, InWallets;
    var key := PairKey(token0, token1);
    forall t
      ensures InPools(WithPair(m.pools, token0, token1), t) == InPools(m.pools, t)
    {
      SetPairMoves(m.pools, key, Pair(token0, token1, 0, 0, 0, map[]), t);
    }
  }

  /** Replacing one pair by a better one, and two balances by what keeps the totals. */
  lemma PairReplaced(m: Market, key: string, q: Pair, w: Wallets)
    requires Inv(m) && key in m.pools && WalletsOk(w)
    requires PairOk(q) && q.token0 == m.pools[key].token0 && q.token1 == m.pools[key].token1
    requires ShareKept(m.pools[key], q)
    requires forall t :: InWallets(w, t) + Held(q, t) == InWallets(m.wallets, t) + Held(m.pools[key], t)
    ensures var m' := Market(m.pools[key := q], w); Inv(m') && SharesKept(m, m') && forall t :: Total(m', t) == Total(m, t)
  {
    hide PairOk, WalletsOk, InWallets, Held;
    forall t
      ensures InPools(m.pools[key := q], t) == InPools(m.pools, t) + Held(q, t) - Held(m.pools[key], t)
    {
      SetPairMoves(m.pools, key, q, t);
    }
  }

  lemma TwoBalances(w: Wallets, owner: Address, s: Token, u: Token, a: int, b: int, t: Token)
    requires s != u
    ensures var w' := Credit(Exact, Credit(Exact, w, owner, s, a), owner, u, b);
            InWallets(w', t) == InWallets(w, t) + Of(s, a, t) + Of(u, b, t)
    ensures WalletsOk(w) && 0 <= BalanceOf(w, owner, s) + a && 0 <= BalanceOf(w, owner, u) + b
            ==> WalletsOk(Credit(Exact, Credit(Exact, w, owner, s, a), owner, u, b))
  {
    hide InWallets;
    SetBalanceMoves(w, owner, s, BalanceOf(w, owner, s) + a, t);
    SetBalanceMoves(Credit(Exact, w, owner, s, a), owner, u, BalanceOf(w, owner, u) + b, t);
  }

  lemma AddKeeps(m: Market, c: Call)
    requires Inv(m) && Proper(c) && Conserving(Exact, m, c) && c.AddCall?
    ensures Kept(m, c, Step(Exact, m, c).0, Step(Exact, m, c).1)
  {
    hide PairOk, WalletsOk, DepositAmounts, Deposit, ShareKept;
    StayKept(m);
    if c.desiredA != 0 && c.desiredB != 0 && SortTokens(c.tokenA, c.tokenB).Ok? {
      var (token0, token1) := SortTokens(c.tokenA, c.tokenB).value;
      SortTokensIsSymmetric(c.tokenA, c.tokenB);
      CreatedPair(m, token0, token1);
      var created := Market(WithPair(m.pools, token0, token1), m.wallets);
      var key := PairKey(token0, token1);
      var p := created.pools[key];
      var (d0, d1, m0, m1) := if c.tokenA == token0 then (c.desiredA, c.desiredB, c.minA, c.minB)
                              else (c.desiredB, c.desiredA, c.minB, c.minA);
      var amounts := DepositAmounts(Exact, p, d0, d1, m0, m1);
      if amounts.Ok? {
        var (a0, a1, liquidity) := amounts.value;
        if a0 <= BalanceOf(m.wallets, c.provider, token0) && a1 <= BalanceOf(m.wallets, c.provider, token1) {
          DepositKeepsPair(p, c.provider, d0, d1, m0, m1, a0, a1, liquidity);
          var q := Deposit(Exact, p, c.provider, a0, a1, liquidity);
          var w := Debit(Exact, Debit(Exact, m.wallets, c.provider, token0, a0), c.provider, token1, a1);
          DepositMoves(m.wallets, p, c.provider, a0, a1, liquidity);
          PairReplaced(created, key, q, w);
          SharesKeptTransitive(m, created, Market(created.pools[key := q], w));
        }
      }
    }
  }

  lemma DepositMoves(w: Wallets, p: Pair, provider: Address, a0: int, a1: int, liquidity: int)
    requires WalletsOk(w)
    requires p.token0 != p.token1
    requires a0 <= BalanceOf(w, provider, p.token0) && a1 <= BalanceOf(w, provider, p.token1)
    ensures var w' := Debit(Exact, Debit(Exact, w, provider, p.token0, a0), provider, p.token1, a1);
            var q := Deposit(Exact, p, provider, a0, a1, liquidity);
            && WalletsOk(w') && q.token0 == p.token0 && q.token1 == p.token1
            && forall t :: InWallets(w', t) + Held(q, t) == InWallets(w, t) + Held(p, t)
  {
    hide WalletsOk, InWallets;
    var w' := Debit(Exact, Debit(Exact, w, provider, p.token0, a0), provider, p.token1, a1);
    assert w' == Credit(Exact, Credit(Exact, w, provider, p.token0, -a0), provider, p.token1, -a1);
    TwoBalances(w, provider, p.token0, p.token1, -a0, -a1, p.token0);
    forall t
      ensures InWallets(w', t) == InWallets(w, t) + Of(p.token0, -a0, t) + Of(p.token1, -a1, t)
    {
      TwoBalances(w, provider, p.token0, p.token1, -a0, -a1, t);
    }
  }

  lemma WithdrawMoves(w: Wallets, p: Pair, provider: Address, a0: int, a1: int, liquidity: int)
    requires WalletsOk(w)
    requires p.token0 != p.token1
    requires 0 <= a0 && 0 <= a1
    ensures var w' := Credit(Exact, Credit(Exact, w, provider, p.token0, a0), provider, p.token1, a1);
            var q := Withdraw(Exact, p, provider, a0, a1, liquidity);
            && WalletsOk(w') && q.token0 == p.token0 && q.token1 == p.token1
            && forall t :: InWallets(w', t) + Held(q, t) == InWallets(w, t) + Held(p, t)
  {
    hide WalletsOk, InWallets;
    var w' := Credit(Exact, Credit(Exact, w, provider, p.token0, a0), provider, p.token1, a1);
    BalanceBoundsNonNegative(w, provider, p.token0);
    BalanceBoundsNonNegative(w, provider, p.token1);
    TwoBalances(w, provider, p.token0, p.token1, a0, a1, p.token0);
    forall t
      ensures InWallets(w', t) == InWallets(w, t) + Of(p.token0, a0, t) + Of(p.token1, a1, t)
    {
      TwoBalances(w, provider, p.token0, p.token1, a0, a1, t);
    }
  }

  lemma StayKept(m: Market)
    requires Inv(m)
    ensures Untouched(m, m) && SharesKept(m, m)
  {
  }

  lemma SharesKeptTransitive(m: Market, created: Market, m': Market)
    requires Untouched(m, created) && SharesKept(created, m')
    ensures SharesKept(m, m')
  {
  }

  lemma RemoveKeeps(m: Market, c: Call)
    requires Inv(m) && Proper(c) && Conserving(Exact, m, c) && c.RemoveCall?
    ensures Kept(m, c, Step(Exact, m, c).0, Step(Exact, m, c).1)
  {
    hide PairOk, WalletsOk, WithdrawAmounts, Withdraw, ShareKept;
    StayKept(m);
    if c.liquidity != 0 && FindPair(m.pools, c.tokenA, c.tokenB).Ok? {
      var (key, p) := FindPair(m.pools, c.tokenA, c.tokenB).value;
      var amounts := WithdrawAmounts(Exact, p, c.provider, c.liquidity);
      if amounts.Ok? {
        var (a0, a1) := amounts.value;
        WithdrawKeepsPair(p, c.provider, c.liquidity, a0, a1);
        if Step(Exact, m, c).1.Ok? {
          FoundPair(m.pools, c.tokenA, c.tokenB);
          WithdrawMoves(m.wallets, p, c.provider, a0, a1, c.liquidity);
          PairReplaced(m, key, Withdraw(Exact, p, c.provider, a0, a1, c.liquidity),
                       Credit(Exact, Credit(Exact, m.wallets, c.provider, p.token0, a0), c.provider, p.token1, a1));
        }
      }
    }
  }

  // Swaps.

  /** A swap of fair amounts that its hops can pay, whose net effect lowers no product and whose drifts cancel, moves
      exactly its first and last amount and keeps every share. */
  lemma SwapKnownKeeps(m: Market, trader: Address, amounts: seq<int>, path: seq<Token>, to: Address)
    requires Inv(m)
    requires |amounts| == |path| >= 2
    requires FairPath(m.pools, path, amounts)
    requires amounts[0] <= BalanceOf(m.wallets, trader, path[0]) ==>
               && PathExists(m.pools, path) && Payable(m.pools, path, amounts)
               && NetsKeep(m.pools, path, amounts) && NoDrift(m.pools, path, amounts)
    ensures var (m', outcome) := SwapKnown(Exact, m, trader, amounts, path, to);
            && Inv(m') && SharesKept(m, m')
            && (outcome.Err? ==> m' == m)
            && (outcome.Ok? ==> outcome.value == amounts && AllImproved(m.pools, m'.pools))
            && forall t :: Total(m', t) == Total(m, t)
  {
    hide PairOk, InWallets, InPools, FairHop, Hops, Payable, NetsKeep, KeysOk, Drift;
    StayKept(m);
    var last := |path| - 1;
    FairPathExists(m.pools, path, amounts);
    if amounts[0] <= BalanceOf(m.wallets, trader, path[0]) {
      HopsSucceedIff(m.pools, path, amounts);
      HopsKeepPools(m.pools, path, amounts);
      var (pools, _) := Hops(Exact, m.pools, path, amounts);
      ImprovedShares(m.pools, pools);
      SwapWallets(m.wallets, trader, path[0], amounts[0], to, path[last], amounts[last]);
      forall t
        ensures InPools(pools, t) == InPools(m.pools, t) + Of(path[0], amounts[0], t) - Of(path[last], amounts[last], t)
      {
        HopsMove(m.pools, path, amounts, t);
        assert Drift(m.pools, path, amounts, |path| - 1, t) == 0;
      }
    }
  }

  lemma ImprovedShares(pools: Pools, after: Pools)
    requires PoolsOk(pools)
    requires AllImproved(pools, after)
    ensures forall k | k in pools :: ShareKept(pools[k], after[k])
  {
    hide PairOk;
    forall k | k in pools
      ensures ShareKept(pools[k], after[k])
    {
      var (p, q) := (pools[k], after[k]);
      assert Improved(p, q);
      Scale(p.reserve0 * p.reserve1, q.reserve0 * q.reserve1, p.totalSupply * p.totalSupply);
    }
  }

  lemma SwapWallets(w: Wallets, trader: Address, s: Token, x: int, to: Address, u: Token, y: int)
    requires WalletsOk(w)
    requires 0 <= y && x <= BalanceOf(w, trader, s)
    ensures var w' := Credit(Exact, Debit(Exact, w, trader, s, x), to, u, y);
            WalletsOk(w') && forall t :: InWallets(w', t) == InWallets(w, t) - Of(s, x, t) + Of(u, y, t)
  {
    hide InWallets;
    var v := Debit(Exact, w, trader, s, x);
    assert WalletsOk(v);
    BalanceBoundsNonNegative(v, to, u);
    forall t
      ensures InWallets(Credit(Exact, v, to, u, y), t) == InWallets(w, t) - Of(s, x, t) + Of(u, y, t)
    {
      SetBalanceMoves(w, trader, s, BalanceOf(w, trader, s) - x, t);
      SetBalanceMoves(v, to, u, BalanceOf(v, to, u) + y, t);
    }
  }

  lemma SwapInKeeps(m: Market, c: Call)
    requires Inv(m) && Proper(c) && Harmless(Exact, m, c) && Conserving(Exact, m, c) && c.SwapInCall?
    ensures Kept(m, c, Step(Exact, m, c).0, Step(Exact, m, c).1)
  {
    hide PairOk, WalletsOk, SwapKnown, FairHop, Hops, Payable, NetsKeep, PathExists, QuoteOut, QuoteIn, KeysOk, InWallets, InPools, ShareKept, NoDrift;
    StayKept(m);
    StocksFollow(m.pools);
    if AmountsOut(Exact, m.pools, c.amountIn, c.path).Ok? {
      QuoteOutLength(Exact, m.pools, c.amountIn, c.path);
      QuoteOutIsFair(m.pools, c.amountIn, c.path);
      var amounts := AmountsOut(Exact, m.pools, c.amountIn, c.path).value;
      if c.amountOutMin <= amounts[|amounts| - 1] {
        SwapKnownKeeps(m, c.trader, amounts, c.path, c.to);
      }
    }
  }

  lemma SwapOutKeeps(m: Market, c: Call)
    requires Inv(m) && Proper(c) && Harmless(Exact, m, c) && Conserving(Exact, m, c) && c.SwapOutCall?
    ensures Kept(m, c, Step(Exact, m, c).0, Step(Exact, m, c).1)
  {
    hide PairOk, WalletsOk, SwapKnown, FairHop, Hops, Payable, NetsKeep, PathExists, QuoteOut, QuoteIn, KeysOk, InWallets, InPools, ShareKept, NoDrift;
    StayKept(m);
    StocksFollow(m.pools);
    if AmountsIn(Exact, m.pools, c.amountOut, c.path).Ok? {
      QuoteInLength(Exact, m.pools, c.amountOut, c.path);
      QuoteInIsFair(m.pools, c.amountOut, c.path);
      var amounts := AmountsIn(Exact, m.pools, c.amountOut, c.path).value;
      if amounts[0] <= c.amountInMax {
        SwapKnownKeeps(m, c.trader, amounts, c.path, c.to);
      }
    }
  }

  lemma ExactStepKeeps(m: Market, c: Call)
    requires Inv(m) && Proper(c) && Harmless(Exact, m, c) && Conserving(Exact, m, c)
    ensures Kept(m, c, Step(Exact, m, c).0, Step(Exact, m, c).1)
  {
    match c
    case MintCall(_, _, _) => MintKeeps(m, c);
    case AddCall(_, _, _, _, _, _, _) => AddKeeps(m, c);
    case RemoveCall(_, _, _, _, _, _) => RemoveKeeps(m, c);
    case SwapInCall(_, _, _, _, _) => SwapInKeeps(m, c);
    case SwapOutCall(_, _, _, _, _) => SwapOutKeeps(m, c);
  }
}
