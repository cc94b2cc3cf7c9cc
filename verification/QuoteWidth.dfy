/** When the 256-bit quotes equal the exact ones. */
module QuoteWidth {
  import opened Words
  import opened Results
  import opened Tokens
  import opened Market
  import opened Quotes

  /** Every reserve is below 2^112. */
  predicate Small(pools: Pools) {
    Below(pools, CAP)
  }

  lemma ProductFits(a: int, b: int)
    requires 0 <= a < CAP && 0 <= b < CAP
    ensures 0 <= a * b < CAP * CAP
    ensures Wrapping.Mul(a, b) == a * b
  {
    MulMono(a, CAP - 1, b, CAP - 1);
    FitIsIdentity(Wrapping, a * b);
  }

  lemma AmountOutFits(x: int, reserveIn: int, reserveOut: int)
    requires 0 <= x && 0 <= reserveIn < CAP && 0 <= reserveOut < CAP
    requires FEE_NUMERATOR * x < MODULUS - FEE_DENOMINATOR * CAP
    requires FEE_NUMERATOR * x * reserveOut < MODULUS
    ensures AmountOut(Wrapping, x, reserveIn, reserveOut) == AmountOut(Exact, x, reserveIn, reserveOut)
  {
    var withFee := x * FEE_NUMERATOR;
    FitIsIdentity(Wrapping, withFee);
    FitIsIdentity(Wrapping, reserveIn * FEE_DENOMINATOR);
    FitIsIdentity(Wrapping, reserveIn * FEE_DENOMINATOR + withFee);
    MulMono(0, withFee, 0, reserveOut);
    FitIsIdentity(Wrapping, withFee * reserveOut);
  }

  lemma AffordableOutFits(x: int, reserveIn: int, reserveOut: int)
    requires 0 <= x < CAP && 0 <= reserveIn < CAP && 0 <= reserveOut < CAP
    ensures AmountOut(Wrapping, x, reserveIn, reserveOut) == AmountOut(Exact, x, reserveIn, reserveOut)
  {
    MulMono(FEE_NUMERATOR * x, FEE_NUMERATOR * CAP, reserveOut, CAP);
    AmountOutFits(x, reserveIn, reserveOut);
  }

  lemma AmountInFits(y: int, reserveIn: int, reserveOut: int)
    requires 0 <= y && 0 <= reserveIn < CAP && 0 <= reserveOut < CAP
    ensures AmountIn(Wrapping, y, reserveIn, reserveOut) == AmountIn(Exact, y, reserveIn, reserveOut)
    ensures AmountIn(Exact, y, reserveIn, reserveOut).Ok? ==>
              0 < AmountIn(Exact, y, reserveIn, reserveOut).value <= FEE_DENOMINATOR * CAP * CAP
  {
    if 0 < y < reserveOut && reserveIn != 0 {
      ProductFits(reserveIn, y);
      FitIsIdentity(Wrapping, reserveIn * y * FEE_DENOMINATOR);
      FitIsIdentity(Wrapping, reserveOut - y);
      var denominator := (reserveOut - y) * FEE_NUMERATOR;
      FitIsIdentity(Wrapping, denominator);
      DivNonNegative(reserveIn * y * FEE_DENOMINATOR, denominator);
      FitIsIdentity(Wrapping, reserveIn * y * FEE_DENOMINATOR / denominator + 1);
    }
  }

  lemma {:induction false} QuoteOutFits(pools: Pools, x: int, path: seq<Token>)
    requires Small(pools)
    requires 0 <= x < CAP
    ensures QuoteOut(Wrapping, pools, x, path) == QuoteOut(Exact, pools, x, path)
    decreases |path|
  {
    hide AmountOut;
    if |path| > 1 && HopReserves(pools, path[0], path[1]).Ok? {
      var (reserveIn, reserveOut) := HopReserves(pools, path[0], path[1]).value;
      AffordableOutFits(x, reserveIn, reserveOut);
      ReservesPositive(pools, path[0], path[1], x);
      if AmountOut(Exact, x, reserveIn, reserveOut).Ok? {
        AmountOutIsGreatest(x, reserveIn, reserveOut, 0);
        QuoteOutFits(pools, AmountOut(Exact, x, reserveIn, reserveOut).value, path[1..]);
      }
    }
  }

  lemma {:induction false} QuoteInFits(pools: Pools, y: int, path: seq<Token>)
    requires Small(pools)
    requires 0 <= y
    ensures QuoteIn(Wrapping, pools, y, path) == QuoteIn(Exact, pools, y, path)
    decreases |path|
  {
    hide AmountIn;
    var n := |path|;
    if n > 1 && HopReserves(pools, path[n - 2], path[n - 1]).Ok? {
      var (reserveIn, reserveOut) := HopReserves(pools, path[n - 2], path[n - 1]).value;
      AmountInFits(y, reserveIn, reserveOut);
      if AmountIn(Exact, y, reserveIn, reserveOut).Ok? {
        QuoteInFits(pools, AmountIn(Exact, y, reserveIn, reserveOut).value, path[..n - 1]);
      }
    }
  }

  /** Once the first product overflows, the wrapped forward quote of a backward quote falls short. */
  lemma OverflowFallsShort(y: int, reserveIn: int, reserveOut: int)
    requires 0 < y < reserveOut < CAP && 0 < reserveIn < CAP
    requires MODULUS <= FEE_NUMERATOR * AmountIn(Exact, y, reserveIn, reserveOut).value * reserveOut
    ensures var x := AmountIn(Exact, y, reserveIn, reserveOut).value;
            AmountOut(Wrapping, x, reserveIn, reserveOut).Ok?
            && AmountOut(Wrapping, x, reserveIn, reserveOut).value < y
  {
    AmountInFits(y, reserveIn, reserveOut);
    var x := AmountIn(Exact, y, reserveIn, reserveOut).value;
    var withFee := x * FEE_NUMERATOR;
    var n := withFee * reserveOut;
    var d := reserveIn * FEE_DENOMINATOR + withFee;
    FitIsIdentity(Wrapping, withFee);
    FitIsIdentity(Wrapping, reserveIn * FEE_DENOMINATOR);
    FitIsIdentity(Wrapping, d);
    assert AmountOut(Wrapping, x, reserveIn, reserveOut) == Ok(n % MODULUS / d);
    NearlyTight(y, reserveIn, reserveOut, x);
    WrapRemoves(n);
    DivReaches(n % MODULUS, d, y);
  }

  lemma WrapRemoves(n: int)
    requires MODULUS <= n
    ensures n % MODULUS <= n - MODULUS
  {
  }

  lemma NearlyTight(y: int, reserveIn: int, reserveOut: int, x: int)
    requires 0 < y < reserveOut < CAP && 0 < reserveIn
    requires AmountIn(Exact, y, reserveIn, reserveOut) == Ok(x)
    ensures x * FEE_NUMERATOR * reserveOut - y * (reserveIn * FEE_DENOMINATOR + x * FEE_NUMERATOR) < MODULUS
  {
    var numerator := reserveIn * y * FEE_DENOMINATOR;
    var denominator := (reserveOut - y) * FEE_NUMERATOR;
    assert x - 1 == numerator / denominator;
    DivReaches(numerator, denominator, x - 1);
    assert x * FEE_NUMERATOR * reserveOut - y * (reserveIn * FEE_DENOMINATOR + x * FEE_NUMERATOR)
        == (x - 1) * denominator + denominator - numerator;
  }

  predicate Covers(forward: Result<seq<int>>, backward: seq<int>) {
    && forward.Ok?
    && |forward.value| == |backward|
    && forall i | 0 <= i < |backward| :: backward[i] <= forward.value[i]
  }

  /** In 256-bit arithmetic the forward quote covers the backward one exactly when the first product fits. */
  lemma MultiHopQuotesCoverIff(pools: Pools, target: int, path: seq<Token>)
    requires Small(pools)
    requires 0 <= target
    requires AmountsIn(Wrapping, pools, target, path).Ok?
    ensures var backward := AmountsIn(Wrapping, pools, target, path).value;
            && |backward| == |path| >= 2
            && HopReserves(pools, path[0], path[1]).Ok?
            && (Covers(AmountsOut(Wrapping, pools, backward[0], path), backward)
                <==> FEE_NUMERATOR * backward[0] * HopReserves(pools, path[0], path[1]).value.1 < MODULUS)
  {
    hide AmountIn, AmountOut, FeeInvariant, HopReserves, QuoteOut, QuoteIn;
    QuoteInFits(pools, target, path);
    QuoteInLength(Exact, pools, target, path);
    QuoteInIsFair(pools, target, path);
    var backward := AmountsIn(Exact, pools, target, path).value;
    FirstHop(pools, target, path);
    var (_, reserveOut) := HopReserves(pools, path[0], path[1]).value;
    if FEE_NUMERATOR * backward[0] * reserveOut < MODULUS {
      CoversWhenFits(pools, path, backward);
    } else {
      FallsShortWhenOverflows(pools, path, backward);
    }
  }

  predicate FirstHopQuoted(pools: Pools, path: seq<Token>, backward: seq<int>) {
    && |backward| == |path| >= 2
    && HopReserves(pools, path[0], path[1]).Ok?
    && var (reserveIn, reserveOut) := HopReserves(pools, path[0], path[1]).value;
       AmountIn(Exact, backward[1], reserveIn, reserveOut) == Ok(backward[0])
  }

  lemma CoversWhenFits(pools: Pools, path: seq<Token>, backward: seq<int>)
    requires Small(pools)
    requires FairPath(pools, path, backward)
    requires FirstHopQuoted(pools, path, backward)
    requires FEE_NUMERATOR * backward[0] * HopReserves(pools, path[0], path[1]).value.1 < MODULUS
    ensures Covers(AmountsOut(Wrapping, pools, backward[0], path), backward)
  {
    hide AmountIn, AmountOut, FeeInvariant;
    var (reserveIn, reserveOut) := HopReserves(pools, path[0], path[1]).value;
    assert FairHop(pools, path[0], path[0 + 1], backward[0], backward[0 + 1]);
    AmountInFits(backward[1], reserveIn, reserveOut);
    AmountOutFits(backward[0], reserveIn, reserveOut);
    AmountOutIsGreatest(backward[0], reserveIn, reserveOut, 0);
    QuoteOutFits(pools, AmountOut(Exact, backward[0], reserveIn, reserveOut).value, path[1..]);
    QuoteOutCovers(pools, path, backward, backward[0]);
  }

  lemma FallsShortWhenOverflows(pools: Pools, path: seq<Token>, backward: seq<int>)
    requires Small(pools)
    requires FairPath(pools, path, backward)
    requires FirstHopQuoted(pools, path, backward)
    requires MODULUS <= FEE_NUMERATOR * backward[0] * HopReserves(pools, path[0], path[1]).value.1
    ensures !Covers(AmountsOut(Wrapping, pools, backward[0], path), backward)
  {
    hide AmountIn, AmountOut, FeeInvariant;
    var (reserveIn, reserveOut) := HopReserves(pools, path[0], path[1]).value;
    assert FairHop(pools, path[0], path[0 + 1], backward[0], backward[0 + 1]);
    ReservesPositive(pools, path[0], path[1], backward[1]);
    AmountInIsNearlyLeast(backward[1], reserveIn, reserveOut, 0);
    OverflowFallsShort(backward[1], reserveIn, reserveOut);
    if AmountsOut(Wrapping, pools, backward[0], path).Ok? {
      QuoteOutLength(Wrapping, pools, AmountOut(Wrapping, backward[0], reserveIn, reserveOut).value, path[1..]);
    }
  }

  lemma {:induction false} FirstHop(pools: Pools, target: int, path: seq<Token>)
    requires 2 <= |path|
    requires QuoteIn(Exact, pools, target, path).Ok?
    ensures FirstHopQuoted(pools, path, QuoteIn(Exact, pools, target, path).value)
    decreases |path|
  {
    hide AmountIn;
    var n := |path|;
    var (reserveIn, reserveOut) := HopReserves(pools, path[n - 2], path[n - 1]).value;
    var x := AmountIn(Exact, target, reserveIn, reserveOut).value;
    QuoteInLength(Exact, pools, target, path);
    QuoteInLength(Exact, pools, x, path[..n - 1]);
    if n > 2 {
      FirstHop(pools, x, path[..n - 1]);
    }
  }
}
