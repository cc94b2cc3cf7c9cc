/** What the quotes promise: the fee-adjusted invariant characterises them, on one pair and along a path. */
module Quotes {
  import opened Words
  import opened Results
  import opened Tokens
  import opened Market

  /** Bound under which no formula of the engine reaches 256 bits. */
  const CAP: int := 0x1_0000_0000_0000_0000_0000_0000_0000

  /** Paying y for x keeps reserveIn * reserveOut once the fee is taken off x (all scaled by 1000). */
  predicate FeeInvariant(x: int, y: int, reserveIn: int, reserveOut: int) {
    FEE_DENOMINATOR * (reserveIn * reserveOut)
    <= (FEE_DENOMINATOR * reserveIn + FEE_NUMERATOR * x) * (reserveOut - y)
  }

  lemma FeeInvariantRearranged(x: int, y: int, reserveIn: int, reserveOut: int)
    ensures FeeInvariant(x, y, reserveIn, reserveOut)
            <==> y * (FEE_DENOMINATOR * reserveIn + FEE_NUMERATOR * x) <= FEE_NUMERATOR * x * reserveOut
    ensures FeeInvariant(x, y, reserveIn, reserveOut)
            <==> FEE_DENOMINATOR * (reserveIn * y) <= x * (FEE_NUMERATOR * (reserveOut - y))
  {
    assert (FEE_DENOMINATOR * reserveIn + FEE_NUMERATOR * x) * (reserveOut - y)
        == FEE_DENOMINATOR * (reserveIn * reserveOut) - FEE_DENOMINATOR * (reserveIn * y)
           + FEE_NUMERATOR * (x * reserveOut) - FEE_NUMERATOR * (x * y);
    assert y * (FEE_DENOMINATOR * reserveIn + FEE_NUMERATOR * x)
        == FEE_DENOMINATOR * (reserveIn * y) + FEE_NUMERATOR * (x * y);
    assert x * (FEE_NUMERATOR * (reserveOut - y)) == FEE_NUMERATOR * (x * reserveOut) - FEE_NUMERATOR * (x * y);
  }

  /** A larger input keeps the invariant. */
  lemma FeeInvariantMono(x: int, x': int, y: int, reserveIn: int, reserveOut: int)
    requires x <= x'
    requires y < reserveOut
    requires FeeInvariant(x, y, reserveIn, reserveOut)
    ensures FeeInvariant(x', y, reserveIn, reserveOut)
  {
    FeeInvariantRearranged(x, y, reserveIn, reserveOut);
    FeeInvariantRearranged(x', y, reserveIn, reserveOut);
    Scale(x, x', FEE_NUMERATOR * (reserveOut - y));
  }

  /** The output quote is the greatest amount that keeps the fee-adjusted invariant. */
  lemma AmountOutIsGreatest(x: int, reserveIn: int, reserveOut: int, y: int)
    requires 0 < x && 0 < reserveIn && 0 < reserveOut
    ensures AmountOut(Exact, x, reserveIn, reserveOut).Ok?
    ensures var out := AmountOut(Exact, x, reserveIn, reserveOut).value;
            0 <= out < reserveOut && (FeeInvariant(x, y, reserveIn, reserveOut) <==> y <= out)
  {
    var denominator := FEE_DENOMINATOR * reserveIn + FEE_NUMERATOR * x;
    var numerator := FEE_NUMERATOR * x * reserveOut;
    var out := numerator / denominator;
    assert AmountOut(Exact, x, reserveIn, reserveOut) == Ok(out);
    DivReaches(numerator, denominator, y);
    FeeInvariantRearranged(x, y, reserveIn, reserveOut);
    DivReaches(numerator, denominator, 0);
    DivReaches(numerator, denominator, reserveOut);
    FeeInvariantRearranged(x, 0, reserveIn, reserveOut);
    FeeInvariantRearranged(x, reserveOut, reserveIn, reserveOut);
    MulStrict(0, reserveIn, 0, reserveOut);
    MulStrict(0, x, 0, reserveOut);
  }

  /** The input quote keeps the invariant, and no sufficient input is smaller by more than one. */
  lemma AmountInIsNearlyLeast(y: int, reserveIn: int, reserveOut: int, x: int)
    requires 0 < y < reserveOut && 0 < reserveIn
    ensures AmountIn(Exact, y, reserveIn, reserveOut).Ok?
    ensures var least := AmountIn(Exact, y, reserveIn, reserveOut).value;
            0 < least && FeeInvariant(least, y, reserveIn, reserveOut)
            && (FeeInvariant(x, y, reserveIn, reserveOut) ==> least <= x + 1)
  {
    var numerator := reserveIn * y * FEE_DENOMINATOR;
    var denominator := (reserveOut - y) * FEE_NUMERATOR;
    var least := numerator / denominator + 1;
    assert AmountIn(Exact, y, reserveIn, reserveOut) == Ok(least);
    MulStrict(0, reserveIn, 0, y);
    DivNonNegative(numerator, denominator);
    DivReaches(numerator, denominator, least);
    FeeInvariantRearranged(least, y, reserveIn, reserveOut);
    FeeInvariantRearranged(x, y, reserveIn, reserveOut);
    if FeeInvariant(x, y, reserveIn, reserveOut) {
      DivReaches(numerator, denominator, least - 1);
      Cancel(least - 1, x, denominator);
    }
  }

  /** Quoting the output of x and then the input for that output asks for at most one unit more than x. */
  lemma AmountInAfterAmountOut(x: int, reserveIn: int, reserveOut: int)
    requires 0 < x && 0 < reserveIn && 0 < reserveOut
    requires AmountOut(Exact, x, reserveIn, reserveOut) != Ok(0)
    ensures var y := AmountOut(Exact, x, reserveIn, reserveOut).value;
            AmountIn(Exact, y, reserveIn, reserveOut).Ok?
            && AmountIn(Exact, y, reserveIn, reserveOut).value <= x + 1
  {
    AmountOutIsGreatest(x, reserveIn, reserveOut, 0);
    var y := AmountOut(Exact, x, reserveIn, reserveOut).value;
    AmountOutIsGreatest(x, reserveIn, reserveOut, y);
    AmountInIsNearlyLeast(y, reserveIn, reserveOut, x);
  }

  /** The constant product itself never falls. */
  lemma FeeInvariantKeepsProduct(x: int, y: int, reserveIn: int, reserveOut: int)
    requires 0 <= x && y <= reserveOut
    requires FeeInvariant(x, y, reserveIn, reserveOut)
    ensures reserveIn * reserveOut <= (reserveIn + x) * (reserveOut - y)
  {
    Scale(FEE_DENOMINATOR * reserveIn + FEE_NUMERATOR * x, FEE_DENOMINATOR * (reserveIn + x), reserveOut - y);
    assert FEE_DENOMINATOR * (reserveIn + x) * (reserveOut - y) == FEE_DENOMINATOR * ((reserveIn + x) * (reserveOut - y));
  }

  // Paths.

  predicate Below(pools: Pools, bound: int) {
    forall k | k in pools :: 0 <= pools[k].reserve0 < bound && 0 <= pools[k].reserve1 < bound
  }

  predicate Stocked(pools: Pools) {
    forall k | k in pools :: 0 <= pools[k].reserve0 && 0 <= pools[k].reserve1
  }

  /** One hop that trades x for y on a stocked pair within the fee-adjusted invariant. */
  predicate FairHop(pools: Pools, a: Token, b: Token, x: int, y: int) {
    && HopReserves(pools, a, b).Ok?
    && var (reserveIn, reserveOut) := HopReserves(pools, a, b).value;
       0 < reserveIn && 0 < x && 0 <= y < reserveOut && FeeInvariant(x, y, reserveIn, reserveOut)
  }

  predicate FairPath(pools: Pools, path: seq<Token>, amounts: seq<int>) {
    && |amounts| == |path|
    && forall i | 0 <= i < |path| - 1 :: FairHop(pools, path[i], path[i + 1], amounts[i], amounts[i + 1])
  }

  lemma FairPathTail(pools: Pools, path: seq<Token>, amounts: seq<int>)
    requires 0 < |path|
    requires FairPath(pools, path, amounts)
    ensures FairPath(pools, path[1..], amounts[1..])
  {
    forall i | 0 <= i < |path[1..]| - 1
      ensures FairHop(pools, path[1..][i], path[1..][i + 1], amounts[1..][i], amounts[1..][i + 1])
    {
      assert FairHop(pools, path[i + 1], path[i + 1 + 1], amounts[i + 1], amounts[i + 1 + 1]);
    }
  }

  lemma {:induction false} QuoteOutIsFair(pools: Pools, amountIn: int, path: seq<Token>)
    requires Stocked(pools)
    requires 0 <= amountIn
    requires QuoteOut(Exact, pools, amountIn, path).Ok?
    ensures FairPath(pools, path, QuoteOut(Exact, pools, amountIn, path).value)
    decreases |path|
  {
    hide AmountOut, FeeInvariant;
    var amounts := QuoteOut(Exact, pools, amountIn, path).value;
    QuoteOutLength(Exact, pools, amountIn, path);
    if |path| > 1 {
      var (reserveIn, reserveOut) := HopReserves(pools, path[0], path[1]).value;
      ReservesPositive(pools, path[0], path[1], amountIn);
      var y := AmountOut(Exact, amountIn, reserveIn, reserveOut).value;
      AmountOutIsGreatest(amountIn, reserveIn, reserveOut, y);
      QuoteOutIsFair(pools, y, path[1..]);
      QuoteOutLength(Exact, pools, y, path[1..]);
      var rest := QuoteOut(Exact, pools, y, path[1..]).value;
      forall i | 0 <= i < |path| - 1
        ensures FairHop(pools, path[i], path[i + 1], amounts[i], amounts[i + 1])
      {
        if i > 0 {
          assert FairHop(pools, path[1..][i - 1], path[1..][i - 1 + 1], rest[i - 1], rest[i - 1 + 1]);
        }
      }
    }
  }

  lemma ReservesPositive(pools: Pools, a: Token, b: Token, x: int)
    requires Stocked(pools)
    requires HopReserves(pools, a, b).Ok?
    ensures var (reserveIn, reserveOut) := HopReserves(pools, a, b).value;
            0 <= reserveIn && 0 <= reserveOut
            && (AmountOut(Exact, x, reserveIn, reserveOut).Ok? ==> 0 < reserveIn && 0 < reserveOut && x != 0)
            && (AmountIn(Exact, x, reserveIn, reserveOut).Ok? ==> 0 < reserveIn && x < reserveOut && x != 0)
  {
  }

  lemma {:induction false} QuoteInIsFair(pools: Pools, amountOut: int, path: seq<Token>)
    requires Stocked(pools)
    requires 0 <= amountOut
    requires QuoteIn(Exact, pools, amountOut, path).Ok?
    ensures FairPath(pools, path, QuoteIn(Exact, pools, amountOut, path).value)
    decreases |path|
  {
    hide AmountIn, FeeInvariant;
    var n := |path|;
    var amounts := QuoteIn(Exact, pools, amountOut, path).value;
    QuoteInLength(Exact, pools, amountOut, path);
    if n > 1 {
      var (reserveIn, reserveOut) := HopReserves(pools, path[n - 2], path[n - 1]).value;
      ReservesPositive(pools, path[n - 2], path[n - 1], amountOut);
      AmountInIsNearlyLeast(amountOut, reserveIn, reserveOut, 0);
      var x := AmountIn(Exact, amountOut, reserveIn, reserveOut).value;
      QuoteInIsFair(pools, x, path[..n - 1]);
      QuoteInLength(Exact, pools, x, path[..n - 1]);
      var front := QuoteIn(Exact, pools, x, path[..n - 1]).value;
      forall i | 0 <= i < n - 1
        ensures FairHop(pools, path[i], path[i + 1], amounts[i], amounts[i + 1])
      {
        if i < n - 2 {
          assert FairHop(pools, path[..n - 1][i], path[..n - 1][i + 1], front[i], front[i + 1]);
        }
      }
    }
  }

  /** Whatever fair amounts a path carries, quoting the path forwards from at least the first of them
      succeeds and covers every one. */
  lemma {:induction false} QuoteOutCovers(pools: Pools, path: seq<Token>, amounts: seq<int>, x: int)
    requires 0 < |path|
    requires FairPath(pools, path, amounts)
    requires amounts[0] <= x
    ensures QuoteOut(Exact, pools, x, path).Ok?
    ensures var quoted := QuoteOut(Exact, pools, x, path).value;
            |quoted| == |path| && forall i | 0 <= i < |path| :: amounts[i] <= quoted[i]
    decreases |path|
  {
    hide AmountOut, FeeInvariant;
    if |path| > 1 {
      var (reserveIn, reserveOut) := HopReserves(pools, path[0], path[1]).value;
      assert FairHop(pools, path[0], path[0 + 1], amounts[0], amounts[0 + 1]);
      FeeInvariantMono(amounts[0], x, amounts[1], reserveIn, reserveOut);
      AmountOutIsGreatest(x, reserveIn, reserveOut, amounts[1]);
      FairPathTail(pools, path, amounts);
      var y := AmountOut(Exact, x, reserveIn, reserveOut).value;
      QuoteOutCovers(pools, path[1..], amounts[1..], y);
      var rest := QuoteOut(Exact, pools, y, path[1..]).value;
      forall i | 0 <= i < |path|
        ensures amounts[i] <= QuoteOut(Exact, pools, x, path).value[i]
      {
        if i > 0 {
          assert amounts[1..][i - 1] <= rest[i - 1];
        }
      }
    }
  }

  /** The two multi-hop quotes cover each other: paying what the backward quote asks is quoted forwards at
      no less than every amount of the backward quote, so at no less than the target. */
  lemma MultiHopQuotesCover(pools: Pools, target: int, path: seq<Token>)
    requires Stocked(pools)
    requires 0 <= target
    requires AmountsIn(Exact, pools, target, path).Ok?
    ensures var backward := AmountsIn(Exact, pools, target, path).value;
            && |backward| == |path|
            && backward[|path| - 1] == target
            && AmountsOut(Exact, pools, backward[0], path).Ok?
            && var forward := AmountsOut(Exact, pools, backward[0], path).value;
               |forward| == |path| && forall i | 0 <= i < |path| :: backward[i] <= forward[i]
  {
    QuoteInLength(Exact, pools, target, path);
    QuoteInIsFair(pools, target, path);
    var backward := AmountsIn(Exact, pools, target, path).value;
    QuoteOutCovers(pools, path, backward, backward[0]);
  }
}
