/** One swap in 256-bit arithmetic along any path: when it goes through, when it throws half-way and what is lost
then, and when it lowers the value of shares. */
module Swaps {
  import opened Words
  import opened Tokens
  import opened Bytes
  import opened Market
  import opened Quotes
  import opened QuoteWidth
  import opened Liquidity
  import opened Totals
  import opened Trading
  import opened Paths
  import opened Exchange
  import opened Width

  /** What is known of a state before a swap. */
  ghost predicate SwapReady(m: Market, c: Call) {
    Inv(m) && Bounded(m) && Proper(c) && IsSwap(c)
  }

  lemma EnteredIsFair(m: Market, c: Call)
    requires SwapReady(m, c) && Entered(Wrapping, m, c)
    ensures FairPath(m.pools, c.path, Quoted(Wrapping, m, c).value) && PathExists(m.pools, c.path)
    ensures 0 < Quoted(Wrapping, m, c).value[0]
    ensures AllNonNegative(Quoted(Wrapping, m, c).value) && AllBelow(Quoted(Wrapping, m, c).value[1..], CAP)
  {
    hide PairOk, Total, FairHop, QuoteOut, QuoteIn;
    BoundedPools(m);
    BoundedBalance(m, c.trader, c.path[0]);
    if c.SwapInCall? {
      QuoteOutLength(Wrapping, m.pools, c.amountIn, c.path);
      QuoteOutFits(m.pools, c.amountIn, c.path);
      QuoteOutIsFair(m.pools, c.amountIn, c.path);
    } else {
      QuoteInFits(m.pools, c.amountOut, c.path);
      QuoteInIsFair(m.pools, c.amountOut, c.path);
    }
    var amounts := Quoted(Wrapping, m, c).value;
    FairAmountsRange(m.pools, c.path, amounts);
    FairPathExists(m.pools, c.path, amounts);
  }

  /** An entered swap is quoted alike in both arithmetics, and entered in both. */
  lemma EnteredFits(m: Market, c: Call)
    requires SwapReady(m, c)
    ensures Entered(Wrapping, m, c) <==> Entered(Exact, m, c)
    ensures Entered(Wrapping, m, c) ==> Quoted(Wrapping, m, c) == Quoted(Exact, m, c)
    ensures Harmless(Wrapping, m, c) <==> Harmless(Exact, m, c)
    ensures Conserving(Wrapping, m, c) <==> Conserving(Exact, m, c)
  {
    hide PairOk, Total, QuoteOut, QuoteIn, Payable, NetsKeep, PathExists, WalletsOk, NoDrift;
    BoundedPools(m);
    if c.SwapInCall? {
      if |c.path| >= 2 {
        BoundedBalance(m, c.trader, c.path[0]);
      }
      if Quoted(Wrapping, m, c).Ok? {
        QuoteOutLength(Wrapping, m.pools, c.amountIn, c.path);
      }
      if Quoted(Exact, m, c).Ok? {
        QuoteOutLength(Exact, m.pools, c.amountIn, c.path);
      }
      if c.amountIn < CAP {
        QuoteOutFits(m.pools, c.amountIn, c.path);
      }
    } else {
      QuoteInFits(m.pools, c.amountOut, c.path);
    }
  }

  /** A swap that is not entered throws and changes nothing. */
  lemma NotEntered(m: Market, c: Call)
    requires IsSwap(c) && !Entered(Wrapping, m, c)
    ensures Step(Wrapping, m, c).1.Err? && Step(Wrapping, m, c).0 == m
  {
    hide QuoteOut, QuoteIn, Hops;
    if Quoted(Wrapping, m, c).Ok? {
      if c.SwapInCall? {
        QuoteOutLength(Wrapping, m.pools, c.amountIn, c.path);
      } else {
        QuoteInLength(Wrapping, m.pools, c.amountOut, c.path);
      }
    }
  }

  /** What an entered swap does. */
  lemma EnteredSwap(m: Market, c: Call)
    requires SwapReady(m, c) && Entered(Wrapping, m, c)
    ensures PathExists(m.pools, c.path)
    ensures var amounts := Quoted(Wrapping, m, c).value;
            var (m', outcome) := Step(Wrapping, m, c);
            && (outcome.Ok? <==> Payable(m.pools, c.path, amounts))
            && m'.pools == Hops(Exact, m.pools, c.path, amounts).0
            && (outcome.Ok? ==> outcome.value == SwapDone(amounts))
            && (outcome.Err? ==> m'.wallets == Debit(Exact, m.wallets, c.trader, c.path[0], amounts[0]) != m.wallets)
            && (outcome.Ok? <==> Hops(Exact, m.pools, c.path, amounts).1.Ok?)
  {
    hide PairOk, Total, FairHop, Payable, QuoteOut, QuoteIn, SwapKnown, WalletsOk, Hops, PathExists;
    EnteredIsFair(m, c);
    var amounts := Quoted(Wrapping, m, c).value;
    SwapKnownFits(m, c.trader, amounts, c.path, c.to);
    HopsSucceedIff(m.pools, c.path, amounts);
    EnteredCase(m, c.trader, amounts, c.path, c.to);
  }

  lemma EnteredCase(m: Market, trader: Address, amounts: seq<int>, path: seq<Token>, to: Address)
    requires |amounts| == |path| >= 2 && 0 < amounts[0] <= BalanceOf(m.wallets, trader, path[0])
    ensures var (m', outcome) := SwapKnown(Exact, m, trader, amounts, path, to);
            && m'.pools == Hops(Exact, m.pools, path, amounts).0
            && (outcome.Ok? <==> Hops(Exact, m.pools, path, amounts).1.Ok?)
            && (outcome.Ok? ==> outcome.value == amounts)
            && (outcome.Err? ==> m'.wallets == Debit(Exact, m.wallets, trader, path[0], amounts[0]) != m.wallets)
  {
    hide Hops;
    assert BalanceOf(Debit(Exact, m.wallets, trader, path[0], amounts[0]), trader, path[0])
        == BalanceOf(m.wallets, trader, path[0]) - amounts[0];
  }

  /** Whether a swap goes through, and when it throws after having moved tokens, on any path: the second
      happens exactly when the swap is entered and some hop cannot be paid. */
  lemma ThrowsMidwayIff(m: Market, c: Call)
    requires SwapReady(m, c)
    ensures Entered(Wrapping, m, c) ==> PathExists(m.pools, c.path)
    ensures var (m', outcome) := Step(Wrapping, m, c);
            && (outcome.Ok? <==> Entered(Wrapping, m, c) && Payable(m.pools, c.path, Quoted(Wrapping, m, c).value))
            && (outcome.Err? && m' != m <==> Entered(Wrapping, m, c) && !Payable(m.pools, c.path, Quoted(Wrapping, m, c).value))
  {
    hide Step, Payable, Inv, Bounded, QuoteOut, QuoteIn, PathExists, Debit;
    if Entered(Wrapping, m, c) {
      EnteredSwap(m, c);
      var (m', outcome) := Step(Wrapping, m, c);
      assert outcome.Err? ==> m'.wallets != m.wallets;
    } else {
      NotEntered(m, c);
    }
  }

  /** A swap that throws half-way destroys exactly the amount that the first unpaid hop was to take in; under names
      that are not those of the stored pairs, the applied hops' drifts come on top. */
  lemma LostInFlight(m: Market, c: Call, t: Token)
    requires SwapReady(m, c) && Entered(Wrapping, m, c)
    requires Step(Wrapping, m, c).1.Err?
    ensures PathExists(m.pools, c.path)
    ensures var amounts := Quoted(Wrapping, m, c).value;
            var n := Applied(m.pools, c.path, amounts);
            && n < |c.path| - 1 && !Pays(m.pools, c.path, amounts, n)
            && (forall i: nat | i < n :: Pays(m.pools, c.path, amounts, i))
            && Total(Step(Wrapping, m, c).0, t) == Total(m, t) - Of(c.path[n], amounts[n], t) + Drift(m.pools, c.path, amounts, n, t)
            && (ClearPath(m.pools, c.path) ==> Drift(m.pools, c.path, amounts, n, t) == 0)
  {
    hide PairOk, Hops, Step, QuoteOut, QuoteIn, Pays, Bounded, WalletsOk, InPools, InWallets, PathExists, KeysOk, Drift, ClearPath;
    EnteredSwap(m, c);
    var amounts := Quoted(Wrapping, m, c).value;
    AppliedUntilUnpaid(m.pools, c.path, amounts);
    HopsMove(m.pools, c.path, amounts, t);
    if ClearPath(m.pools, c.path) {
      ClearPathsDoNotDrift(m.pools, c.path, amounts, Applied(m.pools, c.path, amounts), t);
    }
    SetBalanceMoves(m.wallets, c.trader, c.path[0], BalanceOf(m.wallets, c.trader, c.path[0]) - amounts[0], t);
  }

  /** A swap that goes through keeps every share's value exactly when its net effect, computed from the quote on the
      state before it, lowers no product; then the pools stay in order. */
  lemma SharesKeptIff(m: Market, c: Call)
    requires SwapReady(m, c) && Entered(Wrapping, m, c)
    requires Step(Wrapping, m, c).1.Ok?
    ensures var amounts := Quoted(Wrapping, m, c).value;
            var m' := Step(Wrapping, m, c).0;
            && (SharesKept(m, m') <==> NetsKeep(m.pools, c.path, amounts))
            && (AllImproved(m.pools, m'.pools) <==> NetsKeep(m.pools, c.path, amounts))
            && (forall k | k in m.pools :: k in m'.pools && m'.pools[k] == Netted(k, m.pools[k], c.path, amounts))
  {
    hide PairOk, Hops, Step, QuoteOut, QuoteIn, NetKeeps, ShareKept, Improved, InPools, Bounded, WalletsOk, Netted;
    EnteredSwap(m, c);
    EnteredIsFair(m, c);
    var amounts := Quoted(Wrapping, m, c).value;
    HopsMove(m.pools, c.path, amounts, c.path[0]);
    forall k | k in m.pools
      ensures ShareKept(m.pools[k], Step(Wrapping, m, c).0.pools[k]) <==> NetKeeps(k, m.pools[k], c.path, amounts)
      ensures Step(Wrapping, m, c).0.pools[k] == Netted(k, m.pools[k], c.path, amounts)
    {
      ShareKeptIff(m.pools, c.path, amounts, k);
      HopsNet(m.pools, c.path, amounts, k);
    }
    HopsKeepPools(m.pools, c.path, amounts);
  }

  /** A swap along a path that uses no pair twice is harmless. */
  lemma DistinctPathsAreHarmless(m: Market, c: Call)
    requires SwapReady(m, c) && DistinctHops(c.path)
    ensures Harmless(Wrapping, m, c)
  {
    hide PairOk, QuoteOut, QuoteIn, Payable, NetsKeep, FairHop, Bounded, PathExists;
    if Entered(Wrapping, m, c) {
      EnteredIsFair(m, c);
      DistinctPathsAreSafe(m.pools, c.path, Quoted(Wrapping, m, c).value);
    }
  }
}
