/** The constant-product exchange as functions on values.

Each operation is written over an `Arithmetic`; the class `VibeSwap` carries it out in wrapping
arithmetic, step by step, and is proved to do exactly what is written here. */
module Market {
  import opened Words
  import opened Results
  import opened Tokens
  import opened Sums
  import opened Bytes
  import opened Roots

  const FEE_NUMERATOR := 997
  const FEE_DENOMINATOR := 1000
  const MINIMUM_LIQUIDITY := 1000
  const BURN_ADDRESS: Address := ZERO_ADDRESS

  type Shares = map<Address, int>

  datatype Pair = Pair(token0: Token, token1: Token, reserve0: int, reserve1: int, totalSupply: int, lp: Shares)

  type Pools = map<string, Pair>

  type Wallets = map<Address, map<Token, int>>

  datatype Market = Market(pools: Pools, wallets: Wallets)

  datatype Added = Added(amountA: int, amountB: int, liquidity: int)

  datatype Removed = Removed(amountA: int, amountB: int)

  // Wallets.

  function BalanceOf(w: Wallets, owner: Address, token: Token): int {
    if owner in w then Get(w[owner], token) else 0
  }

  function SetBalance(w: Wallets, owner: Address, token: Token, amount: int): Wallets {
    w[owner := (if owner in w then w[owner] else map[])[token := amount]]
  }

  function Credit(ar: Arithmetic, w: Wallets, owner: Address, token: Token, amount: int): Wallets {
    SetBalance(w, owner, token, ar.Add(BalanceOf(w, owner, token), amount))
  }

  function Debit(ar: Arithmetic, w: Wallets, owner: Address, token: Token, amount: int): Wallets {
    SetBalance(w, owner, token, ar.Sub(BalanceOf(w, owner, token), amount))
  }

  function Mint(ar: Arithmetic, m: Market, to: Address, token: Token, amount: int): (Market, Result<()>) {
    if token == "" then (m, Err(EmptyToken))
    else (Market(m.pools, Credit(ar, m.wallets, to, token, amount)), Ok(()))
  }

  // Quotes on one pair.

  function Quote(ar: Arithmetic, amountA: int, reserveA: int, reserveB: int): Result<int> {
    if amountA == 0 then Err(ZeroAmount)
    else if reserveA == 0 || reserveB == 0 then Err(NoReserves)
    else Ok(ar.Mul(amountA, reserveB) / reserveA)
  }

  function AmountOut(ar: Arithmetic, amountIn: int, reserveIn: int, reserveOut: int): Result<int> {
    if amountIn == 0 then Err(ZeroAmount)
    else if reserveIn == 0 || reserveOut == 0 then Err(NoReserves)
    else
      var withFee := ar.Mul(amountIn, FEE_NUMERATOR);
      var numerator := ar.Mul(withFee, reserveOut);
      var denominator := ar.Add(ar.Mul(reserveIn, FEE_DENOMINATOR), withFee);
      if denominator == 0 then Err(DivisionByZero) else Ok(numerator / denominator)
  }

  function AmountIn(ar: Arithmetic, amountOut: int, reserveIn: int, reserveOut: int): Result<int> {
    if amountOut == 0 then Err(ZeroAmount)
    else if reserveIn == 0 || reserveOut == 0 then Err(NoReserves)
    else if amountOut >= reserveOut then Err(OutputExceedsReserves)
    else
      var numerator := ar.Mul(ar.Mul(reserveIn, amountOut), FEE_DENOMINATOR);
      var denominator := ar.Mul(ar.Sub(reserveOut, amountOut), FEE_NUMERATOR);
      if denominator == 0 then Err(DivisionByZero) else Ok(ar.Add(numerator / denominator, 1))
  }

  // Pairs.

  function FindPair(pools: Pools, a: Token, b: Token): Result<(string, Pair)> {
    var (token0, token1) :- SortTokens(a, b);
    var key := PairKey(token0, token1);
    if key in pools then Ok((key, pools[key])) else Err(PairMissing)
  }

  function WithPair(pools: Pools, token0: Token, token1: Token): Pools {
    var key := PairKey(token0, token1);
    if key in pools then pools else pools[key := Pair(token0, token1, 0, 0, 0, map[])]
  }

  /** Whether `a` is the first token of the sorted pair {a, b}. */
  predicate Forward(a: Token, b: Token) {
    Less(a, b)
  }

  /** The reserves of the pair that trades `a` for `b`: what comes in, what goes out. */
  function HopReserves(pools: Pools, a: Token, b: Token): Result<(int, int)> {
    var (_, p) :- FindPair(pools, a, b);
    Ok(if Forward(a, b) then (p.reserve0, p.reserve1) else (p.reserve1, p.reserve0))
  }

  // Quotes along a path.

  function QuoteOut(ar: Arithmetic, pools: Pools, amountIn: int, path: seq<Token>): Result<seq<int>>
    decreases |path|
  {
    if |path| == 0 then Err(PathTooShort)
    else if |path| == 1 then Ok([amountIn])
    else
      var (reserveIn, reserveOut) :- HopReserves(pools, path[0], path[1]);
      var amountOut :- AmountOut(ar, amountIn, reserveIn, reserveOut);
      var rest :- QuoteOut(ar, pools, amountOut, path[1..]);
      Ok([amountIn] + rest)
  }

  function QuoteIn(ar: Arithmetic, pools: Pools, amountOut: int, path: seq<Token>): Result<seq<int>>
    decreases |path|
  {
    var n := |path|;
    if n == 0 then Err(PathTooShort)
    else if n == 1 then Ok([amountOut])
    else
      var (reserveIn, reserveOut) :- HopReserves(pools, path[n - 2], path[n - 1]);
      var amountIn :- AmountIn(ar, amountOut, reserveIn, reserveOut);
      var front :- QuoteIn(ar, pools, amountIn, path[..n - 1]);
      Ok(front + [amountOut])
  }

  function AmountsOut(ar: Arithmetic, pools: Pools, amountIn: int, path: seq<Token>): Result<seq<int>> {
    if |path| < 2 then Err(PathTooShort) else QuoteOut(ar, pools, amountIn, path)
  }

  function AmountsIn(ar: Arithmetic, pools: Pools, amountOut: int, path: seq<Token>): Result<seq<int>> {
    if |path| < 2 then Err(PathTooShort) else QuoteIn(ar, pools, amountOut, path)
  }

  lemma {:induction false} QuoteOutLength(ar: Arithmetic, pools: Pools, amountIn: int, path: seq<Token>)
    requires QuoteOut(ar, pools, amountIn, path).Ok?
    ensures |QuoteOut(ar, pools, amountIn, path).value| == |path|
    decreases |path|
    ensures QuoteOut(ar, pools, amountIn, path).value[0] == amountIn
  {
    hide AmountOut;
    if |path| > 1 {
      var (reserveIn, reserveOut) := HopReserves(pools, path[0], path[1]).value;
      QuoteOutLength(ar, pools, AmountOut(ar, amountIn, reserveIn, reserveOut).value, path[1..]);
    }
  }

  lemma {:induction false} QuoteInLength(ar: Arithmetic, pools: Pools, amountOut: int, path: seq<Token>)
    requires QuoteIn(ar, pools, amountOut, path).Ok?
    ensures |QuoteIn(ar, pools, amountOut, path).value| == |path|
    decreases |path|
    ensures QuoteIn(ar, pools, amountOut, path).value[|path| - 1] == amountOut
  {
    hide AmountIn;
    var n := |path|;
    if n > 1 {
      var (reserveIn, reserveOut) := HopReserves(pools, path[n - 2], path[n - 1]).value;
      QuoteInLength(ar, pools, AmountIn(ar, amountOut, reserveIn, reserveOut).value, path[..n - 1]);
    }
  }

  // Liquidity.

  /** Deposit of a call on an existing pair: both amounts and the shares they are worth. */
  function MintedShares(ar: Arithmetic, p: Pair, amount0: int, amount1: int): Result<(int, int, int)>
    requires p.reserve0 != 0 && p.reserve1 != 0
  {
    var liquidity := Min(ar.Mul(amount0, p.totalSupply) / p.reserve0, ar.Mul(amount1, p.totalSupply) / p.reserve1);
    if liquidity == 0 then Err(InsufficientLiquidityMinted) else Ok((amount0, amount1, liquidity))
  }

  function DepositAmounts(ar: Arithmetic, p: Pair, desired0: int, desired1: int, min0: int, min1: int)
    : Result<(int, int, int)>
  {
    if p.totalSupply == 0 then
      if desired0 < min0 || desired1 < min1 then Err(InsufficientAmount)
      else
        var product := ar.Mul(desired0, desired1);
        if ar.Wrapping? && product >= ROOT_LIMIT then Err(NeverReturns)
        else if FloorSqrt(product) <= MINIMUM_LIQUIDITY then Err(InsufficientLiquidityMinted)
        else Ok((desired0, desired1, ar.Sub(FloorSqrt(product), MINIMUM_LIQUIDITY)))
    else
      var optimal1 :- Quote(ar, desired0, p.reserve0, p.reserve1);
      if optimal1 <= desired1 then
        if optimal1 < min1 then Err(InsufficientAmount) else MintedShares(ar, p, desired0, optimal1)
      else
        var optimal0 :- Quote(ar, desired1, p.reserve1, p.reserve0);
        if optimal0 < min0 then Err(InsufficientAmount) else MintedShares(ar, p, optimal0, desired1)
  }

  function AddShares(ar: Arithmetic, lp: Shares, owner: Address, amount: int): Shares {
    lp[owner := ar.Add(Get(lp, owner), amount)]
  }

  function Deposit(ar: Arithmetic, p: Pair, provider: Address, amount0: int, amount1: int, liquidity: int): Pair {
    var (supply, lp) := if p.totalSupply == 0
      then (ar.Add(liquidity, MINIMUM_LIQUIDITY), AddShares(ar, p.lp, BURN_ADDRESS, MINIMUM_LIQUIDITY))
      else (ar.Add(p.totalSupply, liquidity), p.lp);
    Pair(p.token0, p.token1, ar.Add(p.reserve0, amount0), ar.Add(p.reserve1, amount1), supply,
         AddShares(ar, lp, provider, liquidity))
  }

  function AddLiquidity(ar: Arithmetic, m: Market, provider: Address, tokenA: Token, tokenB: Token,
                        desiredA: int, desiredB: int, minA: int, minB: int): (Market, Result<Added>)
  {
    if desiredA == 0 || desiredB == 0 then (m, Err(ZeroAmount))
    else
      match SortTokens(tokenA, tokenB)
      case Err(e) => (m, Err(e))
      case Ok((token0, token1)) =>
        var key := PairKey(token0, token1);
        var created := Market(WithPair(m.pools, token0, token1), m.wallets);
        var p := created.pools[key];
        var forward := tokenA == token0;
        var amounts := if forward then DepositAmounts(ar, p, desiredA, desiredB, minA, minB)
                       else DepositAmounts(ar, p, desiredB, desiredA, minB, minA);
        match amounts
        case Err(e) => (created, Err(e))
        case Ok((amount0, amount1, liquidity)) =>
          if BalanceOf(m.wallets, provider, token0) < amount0 || BalanceOf(m.wallets, provider, token1) < amount1 then
            (created, Err(InsufficientBalance))
          else
            (Market(created.pools[key := Deposit(ar, p, provider, amount0, amount1, liquidity)],
                    Debit(ar, Debit(ar, m.wallets, provider, token0, amount0), provider, token1, amount1)),
             Ok(if forward then Added(amount0, amount1, liquidity) else Added(amount1, amount0, liquidity)))
  }

  function WithdrawAmounts(ar: Arithmetic, p: Pair, provider: Address, liquidity: int): Result<(int, int)> {
    if p.totalSupply == 0 then Err(NoLiquidity)
    else if provider !in p.lp || p.lp[provider] < liquidity then Err(InsufficientLpBalance)
    else
      var amount0 := ar.Mul(liquidity, p.reserve0) / p.totalSupply;
      var amount1 := ar.Mul(liquidity, p.reserve1) / p.totalSupply;
      if amount0 == 0 || amount1 == 0 then Err(InsufficientLiquidityBurned) else Ok((amount0, amount1))
  }

  function Withdraw(ar: Arithmetic, p: Pair, provider: Address, amount0: int, amount1: int, liquidity: int): Pair {
    Pair(p.token0, p.token1, ar.Sub(p.reserve0, amount0), ar.Sub(p.reserve1, amount1),
         ar.Sub(p.totalSupply, liquidity), p.lp[provider := ar.Sub(Get(p.lp, provider), liquidity)])
  }

  function RemoveLiquidity(ar: Arithmetic, m: Market, provider: Address, tokenA: Token, tokenB: Token,
                           liquidity: int, minA: int, minB: int): (Market, Result<Removed>)
  {
    if liquidity == 0 then (m, Err(ZeroAmount))
    else
      match FindPair(m.pools, tokenA, tokenB)
      case Err(e) => (m, Err(e))
      case Ok((key, p)) =>
        match WithdrawAmounts(ar, p, provider, liquidity)
        case Err(e) => (m, Err(e))
        case Ok((amount0, amount1)) =>
          var (token0, token1) := SortTokens(tokenA, tokenB).value;
          var forward := tokenA == token0;
          var result := if forward then Removed(amount0, amount1) else Removed(amount1, amount0);
          if result.amountA < minA || result.amountB < minB then (m, Err(MinimumNotMet))
          else
            (Market(m.pools[key := Withdraw(ar, p, provider, amount0, amount1, liquidity)],
                    Credit(ar, Credit(ar, m.wallets, provider, token0, amount0), provider, token1, amount1)),
             Ok(result))
  }

  // Swaps.

  function Trade(ar: Arithmetic, p: Pair, forward: bool, amountIn: int, amountOut: int): Pair {
    if forward then Pair(p.token0, p.token1, ar.Add(p.reserve0, amountIn), ar.Sub(p.reserve1, amountOut), p.totalSupply, p.lp)
    else Pair(p.token0, p.token1, ar.Sub(p.reserve0, amountOut), ar.Add(p.reserve1, amountIn), p.totalSupply, p.lp)
  }

  function Hop(ar: Arithmetic, pools: Pools, a: Token, b: Token, amountIn: int, amountOut: int): Result<Pools> {
    var (key, p) :- FindPair(pools, a, b);
    if amountOut >= (if Forward(a, b) then p.reserve1 else p.reserve0) then Err(LiquidityExhausted)
    else Ok(pools[key := Trade(ar, p, Forward(a, b), amountIn, amountOut)])
  }

  /** The hops of a swap, in order. A hop that throws leaves the hops before it applied. */
  function Hops(ar: Arithmetic, pools: Pools, path: seq<Token>, amounts: seq<int>): (Pools, Result<()>)
    requires |amounts| == |path|
  {
    if |path| < 2 then (pools, Ok(()))
    else
      match Hop(ar, pools, path[0], path[1], amounts[0], amounts[1])
      case Err(e) => (pools, Err(e))
      case Ok(next) => Hops(ar, next, path[1..], amounts[1..])
  }

  function SwapKnown(ar: Arithmetic, m: Market, trader: Address, amounts: seq<int>, path: seq<Token>, to: Address)
    : (Market, Result<seq<int>>)
    requires |amounts| == |path| >= 2
  {
    var last := |path| - 1;
    if BalanceOf(m.wallets, trader, path[0]) < amounts[0] then (m, Err(InsufficientBalance))
    else
      var wallets := Debit(ar, m.wallets, trader, path[0], amounts[0]);
      var (pools, outcome) := Hops(ar, m.pools, path, amounts);
      match outcome
      case Err(e) => (Market(pools, wallets), Err(e))
      case Ok(_) => (Market(pools, Credit(ar, wallets, to, path[last], amounts[last])), Ok(amounts))
  }

  function SwapExactIn(ar: Arithmetic, m: Market, trader: Address, amountIn: int, amountOutMin: int,
                       path: seq<Token>, to: Address): (Market, Result<seq<int>>)
  {
    match AmountsOut(ar, m.pools, amountIn, path)
    case Err(e) => (m, Err(e))
    case Ok(amounts) =>
      QuoteOutLength(ar, m.pools, amountIn, path);
      if amounts[|amounts| - 1] < amountOutMin then (m, Err(InsufficientOutput))
      else SwapKnown(ar, m, trader, amounts, path, to)
  }

  function SwapExactOut(ar: Arithmetic, m: Market, trader: Address, amountOut: int, amountInMax: int,
                        path: seq<Token>, to: Address): (Market, Result<seq<int>>)
  {
    match AmountsIn(ar, m.pools, amountOut, path)
    case Err(e) => (m, Err(e))
    case Ok(amounts) =>
      QuoteInLength(ar, m.pools, amountOut, path);
      if amounts[0] > amountInMax then (m, Err(ExcessiveInput))
      else SwapKnown(ar, m, trader, amounts, path, to)
  }
}
