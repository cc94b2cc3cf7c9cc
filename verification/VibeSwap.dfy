/** The exchange as the code runs it: an object whose pairs and wallets are updated step by step in 256-bit
arithmetic. Every method is proved to do what the function of the same name in `Market` says. */
module VibeSwapEngine {
  import opened Words
  import opened Results
  import opened Tokens
  import opened Sums
  import opened Bytes
  import opened Roots
  import M = Market

  /** A quote with the amounts already known in front of it. */
  function After(front: seq<int>, rest: Result<seq<int>>): Result<seq<int>> {
    if rest.Ok? then Ok(front + rest.value) else rest
  }

  function Before(rest: Result<seq<int>>, back: seq<int>): Result<seq<int>> {
    if rest.Ok? then Ok(rest.value + back) else rest
  }

  lemma NothingKnown(r: Result<seq<int>>)
    ensures After([], r) == r == Before(r, [])
  {
    if r.Ok? {
      assert [] + r.value == r.value == r.value + [];
    }
  }

  lemma NothingLeft(pools: M.Pools, x: int, path: seq<Token>)
    requires |path| == 1
    ensures M.QuoteOut(Wrapping, pools, x, path) == Ok([x]) == M.QuoteIn(Wrapping, pools, x, path)
  {
  }

  lemma QuoteOutUnrolls(pools: M.Pools, path: seq<Token>, amounts: seq<int>, i: nat)
    requires i + 1 < |path| == |amounts|
    ensures var hop := M.HopReserves(pools, path[i], path[i + 1]);
            After(amounts[..i], M.QuoteOut(Wrapping, pools, amounts[i], path[i..]))
            == if hop.Err? then Err(hop.error)
               else
                 var out := M.AmountOut(Wrapping, amounts[i], hop.value.0, hop.value.1);
                 if out.Err? then Err(out.error)
                 else After(amounts[..i + 1], M.QuoteOut(Wrapping, pools, out.value, path[i + 1..]))
  {
    hide M.AmountOut, M.HopReserves;
    assert path[i..][1..] == path[i + 1..];
    var hop := M.HopReserves(pools, path[i], path[i + 1]);
    if hop.Ok? && M.AmountOut(Wrapping, amounts[i], hop.value.0, hop.value.1).Ok? {
      var rest := M.QuoteOut(Wrapping, pools, M.AmountOut(Wrapping, amounts[i], hop.value.0, hop.value.1).value, path[i + 1..]);
      if rest.Ok? {
        assert amounts[..i] + ([amounts[i]] + rest.value) == amounts[..i + 1] + rest.value;
      }
    }
  }

  lemma QuoteInUnrolls(pools: M.Pools, path: seq<Token>, amounts: seq<int>, i: nat)
    requires 0 < i < |path| == |amounts|
    ensures var hop := M.HopReserves(pools, path[i - 1], path[i]);
            Before(M.QuoteIn(Wrapping, pools, amounts[i], path[..i + 1]), amounts[i + 1..])
            == if hop.Err? then Err(hop.error)
               else
                 var input := M.AmountIn(Wrapping, amounts[i], hop.value.0, hop.value.1);
                 if input.Err? then Err(input.error)
                 else Before(M.QuoteIn(Wrapping, pools, input.value, path[..i]), amounts[i..])
  {
    hide M.AmountIn, M.HopReserves;
    assert path[..i + 1][..i] == path[..i];
    var hop := M.HopReserves(pools, path[i - 1], path[i]);
    if hop.Ok? && M.AmountIn(Wrapping, amounts[i], hop.value.0, hop.value.1).Ok? {
      var rest := M.QuoteIn(Wrapping, pools, M.AmountIn(Wrapping, amounts[i], hop.value.0, hop.value.1).value, path[..i]);
      if rest.Ok? {
        assert (rest.value + [amounts[i]]) + amounts[i + 1..] == rest.value + amounts[i..];
      }
    }
  }

  class VibeSwap {
    var pairs: M.Pools
    var balances: M.Wallets

    ghost function State(): M.Market
      reads this
    {
      M.Market(pairs, balances)
    }

    constructor ()
      ensures State() == M.Market(map[], map[])
    {
      pairs := map[];
      balances := map[];
    }

    function BalanceOf(owner: Address, token: Token): (amount: int)
      reads this
    {
      M.BalanceOf(balances, owner, token)
    }

    method MintToken(to: Address, token: Token, amount: u256) returns (r: Result<()>)
      modifies this`balances
      ensures (State(), r) == M.Mint(Wrapping, old(State()), to, token, amount)
    {
      if token == "" {
        return Err(EmptyToken);
      }
      Credit(to, token, amount);
      return Ok(());
    }

    method Credit(owner: Address, token: Token, amount: int)
      modifies this`balances
      ensures balances == M.Credit(Wrapping, old(balances), owner, token, amount)
    {
      var row := if owner in balances then balances[owner] else map[];
      row := row[token := Wrapping.Add(Get(row, token), amount)];
      balances := balances[owner := row];
    }

    /** A debit that is refused still leaves a zero balance behind where there was none. */
    method Debit(owner: Address, token: Token, amount: int) returns (paid: bool)
      modifies this`balances
      ensures paid <==> amount <= old(M.BalanceOf(balances, owner, token))
      ensures balances == if paid then M.Debit(Wrapping, old(balances), owner, token, amount)
                          else M.SetBalance(old(balances), owner, token, old(M.BalanceOf(balances, owner, token)))
    {
      var row := if owner in balances then balances[owner] else map[];
      var balance := Get(row, token);
      paid := amount <= balance;
      row := row[token := if paid then Wrapping.Sub(balance, amount) else balance];
      balances := balances[owner := row];
    }

    method GetOrCreatePair(token0: Token, token1: Token) returns (key: string)
      modifies this`pairs
      ensures key == PairKey(token0, token1)
      ensures pairs == M.WithPair(old(pairs), token0, token1)
    {
      key := PairKey(token0, token1);
      if key !in pairs {
        pairs := pairs[key := M.Pair(token0, token1, 0, 0, 0, map[])];
      }
    }

    /** The amounts of a deposit on one pair. */
    method DepositAmounts(p: M.Pair, desired0: int, desired1: int, min0: int, min1: int)
      returns (r: Result<(int, int, int)>)
      ensures r == M.DepositAmounts(Wrapping, p, desired0, desired1, min0, min1)
    {
      var amount0, amount1, liquidity := 0, 0, 0;
      if p.totalSupply == 0 {
        amount0, amount1 := desired0, desired1;
        if amount0 < min0 || amount1 < min1 {
          return Err(InsufficientAmount);
        }
        var product := Wrapping.Mul(amount0, amount1);
        var rootK :- IntegerSqrt(product);
        if rootK <= M.MINIMUM_LIQUIDITY {
          return Err(InsufficientLiquidityMinted);
        }
        liquidity := Wrapping.Sub(rootK, M.MINIMUM_LIQUIDITY);
      } else {
        var optimal1 :- M.Quote(Wrapping, desired0, p.reserve0, p.reserve1);
        if optimal1 <= desired1 {
          if optimal1 < min1 {
            return Err(InsufficientAmount);
          }
          amount0, amount1 := desired0, optimal1;
        } else {
          var optimal0 :- M.Quote(Wrapping, desired1, p.reserve1, p.reserve0);
          if optimal0 < min0 {
            return Err(InsufficientAmount);
          }
          amount0, amount1 := optimal0, desired1;
        }
        var liquidity0 := Wrapping.Mul(amount0, p.totalSupply) / p.reserve0;
        var liquidity1 := Wrapping.Mul(amount1, p.totalSupply) / p.reserve1;
        liquidity := Min(liquidity0, liquidity1);
        if liquidity == 0 {
          return Err(InsufficientLiquidityMinted);
        }
      }
      return Ok((amount0, amount1, liquidity));
    }

    method AddLiquidity(provider: Address, tokenA: Token, tokenB: Token, amountADesired: u256, amountBDesired: u256,
                        amountAMin: u256, amountBMin: u256) returns (r: Result<M.Added>)
      modifies this
      ensures (State(), r) == M.AddLiquidity(Wrapping, old(State()), provider, tokenA, tokenB,
                                             amountADesired, amountBDesired, amountAMin, amountBMin)
    {
      hide M.DepositAmounts;
      if amountADesired == 0 || amountBDesired == 0 {
        return Err(ZeroAmount);
      }
      var sorted :- SortTokens(tokenA, tokenB);
      var (token0, token1) := sorted;
      var key := GetOrCreatePair(token0, token1);
      var p := pairs[key];
      var amount0Desired := if tokenA == token0 then amountADesired else amountBDesired;
      var amount1Desired := if tokenA == token0 then amountBDesired else amountADesired;
      var amount0Min := if tokenA == token0 then amountAMin else amountBMin;
      var amount1Min := if tokenA == token0 then amountBMin else amountAMin;
      var amounts := DepositAmounts(p, amount0Desired, amount1Desired, amount0Min, amount1Min);
      var taken :- amounts;
      var (amount0, amount1, liquidity) := taken;
      if BalanceOf(provider, token0) < amount0 || BalanceOf(provider, token1) < amount1 {
        return Err(InsufficientBalance);
      }
      var paid0 := Debit(provider, token0, amount0);
      var paid1 := Debit(provider, token1, amount1);
      assert paid0 && paid1;

      var supply, lp := p.totalSupply, p.lp;
      if p.totalSupply == 0 {
        supply := Wrapping.Add(liquidity, M.MINIMUM_LIQUIDITY);
        lp := lp[M.BURN_ADDRESS := Wrapping.Add(Get(lp, M.BURN_ADDRESS), M.MINIMUM_LIQUIDITY)];
      } else {
        supply := Wrapping.Add(supply, liquidity);
      }
      lp := lp[provider := Wrapping.Add(Get(lp, provider), liquidity)];
      pairs := pairs[key := M.Pair(p.token0, p.token1, Wrapping.Add(p.reserve0, amount0),
                                   Wrapping.Add(p.reserve1, amount1), supply, lp)];
      return Ok(if tokenA == token0 then M.Added(amount0, amount1, liquidity) else M.Added(amount1, amount0, liquidity));
    }

    method RemoveLiquidity(provider: Address, tokenA: Token, tokenB: Token, liquidity: u256,
                           amountAMin: u256, amountBMin: u256) returns (r: Result<M.Removed>)
      modifies this
      ensures (State(), r) == M.RemoveLiquidity(Wrapping, old(State()), provider, tokenA, tokenB, liquidity, amountAMin, amountBMin)
    {
      if liquidity == 0 {
        return Err(ZeroAmount);
      }
      var found :- M.FindPair(pairs, tokenA, tokenB);
      var (key, p) := found;
      if p.totalSupply == 0 {
        return Err(NoLiquidity);
      }
      if provider !in p.lp || p.lp[provider] < liquidity {
        return Err(InsufficientLpBalance);
      }
      var amount0 := Wrapping.Mul(liquidity, p.reserve0) / p.totalSupply;
      var amount1 := Wrapping.Mul(liquidity, p.reserve1) / p.totalSupply;
      if amount0 == 0 || amount1 == 0 {
        return Err(InsufficientLiquidityBurned);
      }
      var (token0, token1) := SortTokens(tokenA, tokenB).value;
      var amountA := if tokenA == token0 then amount0 else amount1;
      var amountB := if tokenA == token0 then amount1 else amount0;
      if amountA < amountAMin || amountB < amountBMin {
        return Err(MinimumNotMet);
      }
      pairs := pairs[key := M.Pair(p.token0, p.token1, Wrapping.Sub(p.reserve0, amount0), Wrapping.Sub(p.reserve1, amount1),
                                   Wrapping.Sub(p.totalSupply, liquidity),
                                   p.lp[provider := Wrapping.Sub(p.lp[provider], liquidity)])];
      Credit(provider, token0, amount0);
      Credit(provider, token1, amount1);
      return Ok(M.Removed(amountA, amountB));
    }

    method GetAmountsOut(amountIn: int, path: seq<Token>) returns (r: Result<seq<int>>)
      ensures r == M.AmountsOut(Wrapping, pairs, amountIn, path)
    {
      if |path| < 2 {
        return Err(PathTooShort);
      }
      hide M.AmountOut, M.HopReserves, M.QuoteOut;
      var amounts := seq(|path|, _ => 0);
      amounts := amounts[0 := amountIn];
      var i := 0;
      assert path[0..] == path && amounts[..0] == [];
      NothingKnown(M.QuoteOut(Wrapping, pairs, amountIn, path));
      while i + 1 < |path|
        invariant 0 <= i < |path| == |amounts|
        invariant After(amounts[..i], M.QuoteOut(Wrapping, pairs, amounts[i], path[i..]))
                  == M.QuoteOut(Wrapping, pairs, amountIn, path)
      {
        QuoteOutUnrolls(pairs, path, amounts, i);
        var reserves :- M.HopReserves(pairs, path[i], path[i + 1]);
        var (reserveIn, reserveOut) := reserves;
        var amountOut :- M.AmountOut(Wrapping, amounts[i], reserveIn, reserveOut);
        ghost var known := amounts[..i + 1];
        amounts := amounts[i + 1 := amountOut];
        assert amounts[..i + 1] == known;
        i := i + 1;
      }
      NothingLeft(pairs, amounts[i], path[i..]);
      assert amounts[..i] + [amounts[i]] == amounts;
      return Ok(amounts);
    }

    method GetAmountsIn(amountOut: int, path: seq<Token>) returns (r: Result<seq<int>>)
      ensures r == M.AmountsIn(Wrapping, pairs, amountOut, path)
    {
      if |path| < 2 {
        return Err(PathTooShort);
      }
      hide M.AmountIn, M.HopReserves, M.QuoteIn;
      var amounts := seq(|path|, _ => 0);
      amounts := amounts[|path| - 1 := amountOut];
      var i := |path| - 1;
      assert path[..i + 1] == path && amounts[i + 1..] == [];
      NothingKnown(M.QuoteIn(Wrapping, pairs, amountOut, path));
      while i > 0
        invariant 0 <= i < |path| == |amounts|
        invariant Before(M.QuoteIn(Wrapping, pairs, amounts[i], path[..i + 1]), amounts[i + 1..])
                  == M.QuoteIn(Wrapping, pairs, amountOut, path)
      {
        QuoteInUnrolls(pairs, path, amounts, i);
        var reserves :- M.HopReserves(pairs, path[i - 1], path[i]);
        var (reserveIn, reserveOut) := reserves;
        var amountIn :- M.AmountIn(Wrapping, amounts[i], reserveIn, reserveOut);
        ghost var known := amounts[i..];
        amounts := amounts[i - 1 := amountIn];
        assert amounts[i..] == known;
        i := i - 1;
      }
      NothingLeft(pairs, amounts[0], path[..1]);
      assert [amounts[0]] + amounts[1..] == amounts;
      return Ok(amounts);
    }

    method SwapWithKnownAmounts(trader: Address, amounts: seq<int>, path: seq<Token>, to: Address)
      returns (r: Result<seq<int>>)
      modifies this
      ensures |path| < 2 ==> r == Err(PathTooShort) && State() == old(State())
      ensures 2 <= |path| != |amounts| ==> r == Err(SizeMismatch) && State() == old(State())
      ensures 2 <= |path| == |amounts| ==> (State(), r) == M.SwapKnown(Wrapping, old(State()), trader, amounts, path, to)
    {
      if |path| < 2 {
        return Err(PathTooShort);
      }
      if |amounts| != |path| {
        return Err(SizeMismatch);
      }
      if BalanceOf(trader, path[0]) < amounts[0] {
        return Err(InsufficientBalance);
      }
      var paid := Debit(trader, path[0], amounts[0]);
      assert paid;
      var i := 0;
      assert path[0..] == path && amounts[0..] == amounts;
      while i + 1 < |path|
        invariant 0 <= i < |path|
        invariant M.Hops(Wrapping, pairs, path[i..], amounts[i..]) == M.Hops(Wrapping, old(pairs), path, amounts)
        invariant balances == M.Debit(Wrapping, old(balances), trader, path[0], amounts[0])
      {
        assert path[i..][1..] == path[i + 1..] && amounts[i..][1..] == amounts[i + 1..];
        var found :- M.FindPair(pairs, path[i], path[i + 1]);
        var (key, p) := found;
        var inputIsToken0 := M.Forward(path[i], path[i + 1]);
        var amountIn, amountOut := amounts[i], amounts[i + 1];
        var reserveIn := if inputIsToken0 then p.reserve0 else p.reserve1;
        var reserveOut := if inputIsToken0 then p.reserve1 else p.reserve0;
        if amountOut >= reserveOut {
          return Err(LiquidityExhausted);
        }
        reserveIn := Wrapping.Add(reserveIn, amountIn);
        reserveOut := Wrapping.Sub(reserveOut, amountOut);
        if inputIsToken0 {
          p := M.Pair(p.token0, p.token1, reserveIn, reserveOut, p.totalSupply, p.lp);
        } else {
          p := M.Pair(p.token0, p.token1, reserveOut, reserveIn, p.totalSupply, p.lp);
        }
        pairs := pairs[key := p];
        i := i + 1;
      }
      Credit(to, path[|path| - 1], amounts[|path| - 1]);
      return Ok(amounts);
    }

    method SwapExactTokensForTokens(trader: Address, amountIn: u256, amountOutMin: u256, path: seq<Token>, to: Address)
      returns (r: Result<seq<int>>)
      modifies this
      ensures (State(), r) == M.SwapExactIn(Wrapping, old(State()), trader, amountIn, amountOutMin, path, to)
    {
      var quoted := GetAmountsOut(amountIn, path);
      var amounts :- quoted;
      M.QuoteOutLength(Wrapping, pairs, amountIn, path);
      if amounts[|amounts| - 1] < amountOutMin {
        return Err(InsufficientOutput);
      }
      r := SwapWithKnownAmounts(trader, amounts, path, to);
    }

    method SwapTokensForExactTokens(trader: Address, amountOut: u256, amountInMax: u256, path: seq<Token>, to: Address)
      returns (r: Result<seq<int>>)
      modifies this
      ensures (State(), r) == M.SwapExactOut(Wrapping, old(State()), trader, amountOut, amountInMax, path, to)
    {
      var quoted := GetAmountsIn(amountOut, path);
      var amounts :- quoted;
      M.QuoteInLength(Wrapping, pairs, amountOut, path);
      if amounts[0] > amountInMax {
        return Err(ExcessiveInput);
      }
      r := SwapWithKnownAmounts(trader, amounts, path, to);
    }
  }
}
