/** What one deposit, withdrawal or trade does to one pair, in exact arithmetic. */
module Liquidity {
  import opened Words
  import opened Results
  import opened Sums
  import opened Bytes
  import opened Market
  import opened Quotes

  /** Shares add up to the supply, reserves are positive exactly when shares exist, and the supply never
      exceeds the geometric mean of the reserves. */
  ghost predicate PairOk(p: Pair) {
    && 0 <= p.totalSupply && 0 <= p.reserve0 && 0 <= p.reserve1
    && (p.totalSupply == 0 ==> p.reserve0 == 0 && p.reserve1 == 0)
    && (0 < p.totalSupply ==> 0 < p.reserve0 && 0 < p.reserve1)
    && p.totalSupply * p.totalSupply <= p.reserve0 * p.reserve1
    && NonNegative(p.lp)
    && Sum(p.lp) == p.totalSupply
  }

  /** Reserves per share do not fall, on either side. */
  predicate SidesKept(p: Pair, q: Pair) {
    p.reserve0 * q.totalSupply <= q.reserve0 * p.totalSupply && p.reserve1 * q.totalSupply <= q.reserve1 * p.totalSupply
  }

  /** The geometric value of a share does not fall. */
  predicate ShareKept(p: Pair, q: Pair) {
    (p.reserve0 * p.reserve1) * (q.totalSupply * q.totalSupply)
    <= (q.reserve0 * q.reserve1) * (p.totalSupply * p.totalSupply)
  }

  lemma SidesKeepShare(p: Pair, q: Pair)
    requires 0 <= p.reserve0 && 0 <= p.reserve1 && 0 <= q.totalSupply
    requires SidesKept(p, q)
    ensures ShareKept(p, q)
  {
    MulMono(0, p.reserve0, 0, q.totalSupply);
    MulMono(0, p.reserve1, 0, q.totalSupply);
    MulMono(p.reserve0 * q.totalSupply, q.reserve0 * p.totalSupply, p.reserve1 * q.totalSupply, q.reserve1 * p.totalSupply);
    assert (p.reserve0 * q.totalSupply) * (p.reserve1 * q.totalSupply)
        == (p.reserve0 * p.reserve1) * (q.totalSupply * q.totalSupply);
    assert (q.reserve0 * p.totalSupply) * (q.reserve1 * p.totalSupply)
        == (q.reserve0 * q.reserve1) * (p.totalSupply * p.totalSupply);
  }

  lemma ShareKeptKeepsRoot(p: Pair, q: Pair)
    requires 0 < p.totalSupply
    requires p.totalSupply * p.totalSupply <= p.reserve0 * p.reserve1
    requires ShareKept(p, q)
    ensures q.totalSupply * q.totalSupply <= q.reserve0 * q.reserve1
  {
    var t := p.totalSupply * p.totalSupply;
    var u := q.totalSupply * q.totalSupply;
    MulStrict(0, p.totalSupply, 0, p.totalSupply);
    assert 0 <= u;
    Scale(t, p.reserve0 * p.reserve1, u);
    Cancel(u, q.reserve0 * q.reserve1, t);
  }

  // Deposits.

  /** Deposit of a wanted pair of amounts on p, on success. */
  predicate Deposits(p: Pair, d0: int, d1: int, m0: int, m1: int, a0: int, a1: int, liquidity: int) {
    && 0 < d0 && 0 < d1
    && DepositAmounts(Exact, p, d0, d1, m0, m1) == Ok((a0, a1, liquidity))
  }

  /** The first deposit takes both amounts in full and mints the root of their product, 1000 of it burnt. */
  lemma FirstDeposit(p: Pair, d0: int, d1: int, m0: int, m1: int, a0: int, a1: int, liquidity: int)
    requires Deposits(p, d0, d1, m0, m1, a0, a1, liquidity)
    requires p.totalSupply == 0
    ensures a0 == d0 && a1 == d1 && m0 <= a0 && m1 <= a1
    ensures 0 < liquidity
    ensures (liquidity + MINIMUM_LIQUIDITY) * (liquidity + MINIMUM_LIQUIDITY) <= a0 * a1
  {
    MulStrict(0, d0, 0, d1);
  }

  /** A later deposit takes one side in full and at most the wanted amount of the other, in the ratio of the
      reserves, for shares worth no more than either side pays. The assertion the code leaves out,
      that the matched amount of token 0 is at most the wanted one, holds. */
  lemma LaterDeposit(p: Pair, d0: int, d1: int, m0: int, m1: int, a0: int, a1: int, liquidity: int)
    requires PairOk(p) && 0 < p.totalSupply
    requires Deposits(p, d0, d1, m0, m1, a0, a1, liquidity)
    ensures 0 <= a0 <= d0 && 0 <= a1 <= d1
    ensures if MatchesToken1(p, d0, d1) then a0 == d0 && m1 <= a1 else a1 == d1 && m0 <= a0
    ensures 0 < liquidity
    ensures liquidity * p.reserve0 <= a0 * p.totalSupply && liquidity * p.reserve1 <= a1 * p.totalSupply
  {
    MulStrict(0, d0, 0, p.reserve1);
    MulStrict(0, d1, 0, p.reserve0);
    DivNonNegative(d0 * p.reserve1, p.reserve0);
    DivNonNegative(d1 * p.reserve0, p.reserve1);
    var optimal1 := d0 * p.reserve1 / p.reserve0;
    var optimal0 := d1 * p.reserve0 / p.reserve1;
    assert MatchesToken1(p, d0, d1) <==> optimal1 <= d1;
    if d1 < optimal1 {
      MatchedToken0Fits(p.reserve0, p.reserve1, d0, d1);
    }
    MintedSharesPaid(p, a0, a1);
  }

  lemma MintedSharesPaid(p: Pair, a0: int, a1: int)
    requires 0 < p.reserve0 && 0 < p.reserve1 && 0 <= p.totalSupply && 0 <= a0 && 0 <= a1
    requires MintedShares(Exact, p, a0, a1).Ok?
    ensures MintedShares(Exact, p, a0, a1).value.0 == a0 && MintedShares(Exact, p, a0, a1).value.1 == a1
    ensures var liquidity := MintedShares(Exact, p, a0, a1).value.2;
            0 < liquidity && liquidity * p.reserve0 <= a0 * p.totalSupply && liquidity * p.reserve1 <= a1 * p.totalSupply
  {
    var liquidity := MintedShares(Exact, p, a0, a1).value.2;
    MulMono(0, a0, 0, p.totalSupply);
    MulMono(0, a1, 0, p.totalSupply);
    DivNonNegative(a0 * p.totalSupply, p.reserve0);
    DivNonNegative(a1 * p.totalSupply, p.reserve1);
    DivReaches(a0 * p.totalSupply, p.reserve0, liquidity);
    DivReaches(a1 * p.totalSupply, p.reserve1, liquidity);
  }

  /** The quote that decides which side is taken in full: token 0 is, and token 1 is matched to it. */
  predicate MatchesToken1(p: Pair, d0: int, d1: int)
    requires p.reserve0 != 0
  {
    d0 * p.reserve1 / p.reserve0 <= d1
  }

  lemma MatchedToken0Fits(r0: int, r1: int, d0: int, d1: int)
    requires 0 < r0 && 0 < r1 && 0 < d1
    requires d1 < d0 * r1 / r0
    ensures d1 * r0 / r1 <= d0
  {
    DivReaches(d0 * r1, r0, d1);
    DivReaches(d1 * r0, r1, d0 + 1);
    assert (d0 + 1) * r1 == d0 * r1 + r1;
  }

  lemma DepositKeepsPair(p: Pair, provider: Address, d0: int, d1: int, m0: int, m1: int, a0: int, a1: int, liquidity: int)
    requires PairOk(p)
    requires Deposits(p, d0, d1, m0, m1, a0, a1, liquidity)
    ensures 0 <= a0 <= d0 && 0 <= a1 <= d1 && 0 < liquidity
    ensures var q := Deposit(Exact, p, provider, a0, a1, liquidity); PairOk(q) && SidesKept(p, q) && ShareKept(p, q)
  {
    var q := Deposit(Exact, p, provider, a0, a1, liquidity);
    DepositShares(p, provider, a0, a1, liquidity);
    if p.totalSupply == 0 {
      FirstDeposit(p, d0, d1, m0, m1, a0, a1, liquidity);
      SumNonNegative(p.lp);
    } else {
      LaterDeposit(p, d0, d1, m0, m1, a0, a1, liquidity);
      DepositSides(p, q, a0, a1, liquidity);
      SidesKeepShare(p, q);
      ShareKeptKeepsRoot(p, q);
    }
  }

  lemma DepositShares(p: Pair, provider: Address, a0: int, a1: int, liquidity: int)
    requires NonNegative(p.lp) && Sum(p.lp) == p.totalSupply
    ensures var q := Deposit(Exact, p, provider, a0, a1, liquidity);
            Sum(q.lp) == q.totalSupply && (0 <= liquidity ==> NonNegative(q.lp))
  {
    var lp := if p.totalSupply == 0 then AddShares(Exact, p.lp, BURN_ADDRESS, MINIMUM_LIQUIDITY) else p.lp;
    SumUpdate(p.lp, BURN_ADDRESS, Get(p.lp, BURN_ADDRESS) + MINIMUM_LIQUIDITY);
    SumUpdate(lp, provider, Get(lp, provider) + liquidity);
  }

  lemma DepositSides(p: Pair, q: Pair, a0: int, a1: int, liquidity: int)
    requires q.reserve0 == p.reserve0 + a0 && q.reserve1 == p.reserve1 + a1 && q.totalSupply == p.totalSupply + liquidity
    requires liquidity * p.reserve0 <= a0 * p.totalSupply && liquidity * p.reserve1 <= a1 * p.totalSupply
    ensures SidesKept(p, q)
  {
    assert p.reserve0 * q.totalSupply == p.reserve0 * p.totalSupply + liquidity * p.reserve0;
    assert q.reserve0 * p.totalSupply == p.reserve0 * p.totalSupply + a0 * p.totalSupply;
    assert p.reserve1 * q.totalSupply == p.reserve1 * p.totalSupply + liquidity * p.reserve1;
    assert q.reserve1 * p.totalSupply == p.reserve1 * p.totalSupply + a1 * p.totalSupply;
  }

  /** The minimums of a deposit hold exactly when the side that is taken in full was wanted at its minimum:
      the code checks only the other side once the pair has shares. */
  lemma MinimumsHoldIff(p: Pair, d0: int, d1: int, m0: int, m1: int, a0: int, a1: int, liquidity: int)
    requires PairOk(p)
    requires Deposits(p, d0, d1, m0, m1, a0, a1, liquidity)
    ensures (m0 <= a0 && m1 <= a1)
            <==> (p.totalSupply == 0 || (if MatchesToken1(p, d0, d1) then m0 <= d0 else m1 <= d1))
  {
    if p.totalSupply == 0 {
      FirstDeposit(p, d0, d1, m0, m1, a0, a1, liquidity);
    } else {
      LaterDeposit(p, d0, d1, m0, m1, a0, a1, liquidity);
    }
  }

  // Withdrawals.

  lemma WithdrawKeepsPair(p: Pair, provider: Address, liquidity: int, a0: int, a1: int)
    requires PairOk(p)
    requires 0 < liquidity
    requires WithdrawAmounts(Exact, p, provider, liquidity) == Ok((a0, a1))
    ensures provider in p.lp && liquidity <= p.lp[provider] <= p.totalSupply
    ensures 0 < a0 <= p.reserve0 && 0 < a1 <= p.reserve1
    ensures var q := Withdraw(Exact, p, provider, a0, a1, liquidity); PairOk(q) && SidesKept(p, q) && ShareKept(p, q)
  {
    var q := Withdraw(Exact, p, provider, a0, a1, liquidity);
    SumBounds(p.lp, provider);
    SumUpdate(p.lp, provider, Get(p.lp, provider) - liquidity);
    Payout(p.reserve0, p.totalSupply, liquidity);
    Payout(p.reserve1, p.totalSupply, liquidity);
    WithdrawSides(p, q, a0, a1, liquidity);
    SidesKeepShare(p, q);
    ShareKeptKeepsRoot(p, q);
  }

  lemma Payout(reserve: int, supply: int, liquidity: int)
    requires 0 < reserve && 0 < liquidity <= supply
    ensures var a := liquidity * reserve / supply;
            0 <= a <= reserve && a * supply <= liquidity * reserve && (a == reserve <==> liquidity == supply)
  {
    var a := liquidity * reserve / supply;
    MulStrict(0, liquidity, 0, reserve);
    DivNonNegative(liquidity * reserve, supply);
    DivReaches(liquidity * reserve, supply, a);
    DivReaches(liquidity * reserve, supply, reserve);
    DivReaches(liquidity * reserve, supply, reserve + 1);
    Scale(liquidity, supply, reserve);
    assert (reserve + 1) * supply == supply * reserve + supply;
    if liquidity < supply {
      Scale(liquidity + 1, supply, reserve);
      assert (liquidity + 1) * reserve == liquidity * reserve + reserve;
    }
  }

  lemma WithdrawSides(p: Pair, q: Pair, a0: int, a1: int, liquidity: int)
    requires q.reserve0 == p.reserve0 - a0 && q.reserve1 == p.reserve1 - a1 && q.totalSupply == p.totalSupply - liquidity
    requires a0 * p.totalSupply <= liquidity * p.reserve0 && a1 * p.totalSupply <= liquidity * p.reserve1
    ensures SidesKept(p, q)
  {
    DepositSides(p, q, -a0, -a1, -liquidity);
  }

  /** Redeeming shares right after they were minted returns at most the deposit, on either side. */
  lemma RedeemAtMostDeposit(p: Pair, provider: Address, d0: int, d1: int, m0: int, m1: int,
                            a0: int, a1: int, liquidity: int, b0: int, b1: int)
    requires PairOk(p)
    requires Deposits(p, d0, d1, m0, m1, a0, a1, liquidity)
    requires WithdrawAmounts(Exact, Deposit(Exact, p, provider, a0, a1, liquidity), provider, liquidity) == Ok((b0, b1))
    ensures b0 <= a0 && b1 <= a1
  {
    DepositKeepsPair(p, provider, d0, d1, m0, m1, a0, a1, liquidity);
    var q := Deposit(Exact, p, provider, a0, a1, liquidity);
    if p.totalSupply == 0 {
      FirstDeposit(p, d0, d1, m0, m1, a0, a1, liquidity);
      Payout(q.reserve0, q.totalSupply, liquidity);
      Payout(q.reserve1, q.totalSupply, liquidity);
    } else {
      LaterDeposit(p, d0, d1, m0, m1, a0, a1, liquidity);
      RedeemSide(p.reserve0, p.totalSupply, a0, liquidity);
      RedeemSide(p.reserve1, p.totalSupply, a1, liquidity);
    }
  }

  lemma RedeemSide(r: int, t: int, a: int, liquidity: int)
    requires 0 < t && 0 < liquidity
    requires liquidity * r <= a * t
    ensures liquidity * (r + a) / (t + liquidity) <= a
  {
    DivReaches(liquidity * (r + a), t + liquidity, a + 1);
    assert (a + 1) * (t + liquidity) == a * t + a * liquidity + t + liquidity;
    assert liquidity * (r + a) == liquidity * r + a * liquidity;
  }

  /** What a holder's shares are worth in one reserve. */
  function Claim(shares: int, reserve: int, supply: int): int
    requires 0 < supply
  {
    shares * reserve / supply
  }

  lemma ClaimKept(shares: int, r: int, t: int, r': int, t': int)
    requires 0 <= shares && 0 < t && 0 < t'
    requires r * t' <= r' * t
    ensures Claim(shares, r, t) <= Claim(shares, r', t')
  {
    var c := Claim(shares, r, t);
    DivReaches(shares * r, t, c);
    DivReaches(shares * r', t', c);
    Scale(c * t, shares * r, t');
    Scale(r * t', r' * t, shares);
    assert (shares * r) * t' == (r * t') * shares;
    assert (r' * t) * shares == (shares * r') * t;
    assert (c * t) * t' == (c * t') * t;
    Cancel(c * t', shares * r', t);
  }

  // Trades.

  lemma TradeKeepsPair(p: Pair, forward: bool, x: int, y: int)
    requires PairOk(p)
    requires 0 < x
    requires var (reserveIn, reserveOut) := if forward then (p.reserve0, p.reserve1) else (p.reserve1, p.reserve0);
             0 <= y < reserveOut && FeeInvariant(x, y, reserveIn, reserveOut)
    ensures var q := Trade(Exact, p, forward, x, y);
            PairOk(q) && p.reserve0 * p.reserve1 <= q.reserve0 * q.reserve1 && ShareKept(p, q)
  {
    var q := Trade(Exact, p, forward, x, y);
    if forward {
      FeeInvariantKeepsProduct(x, y, p.reserve0, p.reserve1);
    } else {
      FeeInvariantKeepsProduct(x, y, p.reserve1, p.reserve0);
    }
    Scale(p.reserve0 * p.reserve1, q.reserve0 * q.reserve1, p.totalSupply * p.totalSupply);
  }

  // The locked minimum.

  ghost predicate MinimumLocked(p: Pair) {
    0 < p.totalSupply ==> MINIMUM_LIQUIDITY <= Get(p.lp, BURN_ADDRESS)
  }

  lemma LockedSupply(p: Pair)
    requires PairOk(p) && MinimumLocked(p)
    ensures p.totalSupply == 0 || MINIMUM_LIQUIDITY <= p.totalSupply
  {
    SumBounds(p.lp, BURN_ADDRESS);
  }

  lemma DepositLocks(p: Pair, provider: Address, a0: int, a1: int, liquidity: int)
    requires PairOk(p) && MinimumLocked(p) && 0 <= liquidity
    ensures MinimumLocked(Deposit(Exact, p, provider, a0, a1, liquidity))
  {
  }
}
