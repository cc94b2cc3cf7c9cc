/** Whole runs of the exchange in 256-bit arithmetic. */
module Runs {
  import opened Words
  import opened Tokens
  import opened Market
  import opened Quotes
  import opened Liquidity
  import opened Totals
  import opened Paths
  import opened Exchange
  import opened Width
  import opened Swaps

  const EMPTY: Market := Market(map[], map[])

  /** The state after a run of calls, some of which may throw. */
  function Run(calls: seq<Call>): Market {
    if calls == [] then EMPTY
    else Step(Wrapping, Run(calls[..|calls| - 1]), calls[|calls| - 1]).0
  }

  /** All tokens of kind t ever minted by a run. */
  function Minted(calls: seq<Call>, t: Token): int {
    if calls == [] then 0
    else Minted(calls[..|calls| - 1], t) + MintedBy(calls[|calls| - 1], t)
  }

  predicate AllProper(calls: seq<Call>) {
    forall i | 0 <= i < |calls| :: Proper(calls[i])
  }

  /** Fewer than 2^112 units of each token are minted. */
  ghost predicate FewMinted(calls: seq<Call>) {
    forall t :: Minted(calls, t) < CAP
  }

  lemma {:induction false} MintedPrefix(calls: seq<Call>, n: nat, t: Token)
    requires AllProper(calls) && n <= |calls|
    ensures 0 <= Minted(calls[..n], t) <= Minted(calls, t)
    decreases |calls|
  {
    if n < |calls| {
      var front := calls[..|calls| - 1];
      MintedPrefix(front, n, t);
      assert front[..n] == calls[..n];
      assert Proper(calls[|calls| - 1]);
    } else {
      assert calls[..n] == calls;
      if calls != [] {
        MintedPrefix(calls[..|calls| - 1], |calls| - 1, t);
        assert calls[..|calls| - 1][..|calls| - 1] == calls[..|calls| - 1];
        assert Proper(calls[|calls| - 1]);
      }
    }
  }

  /** What is known of a state and of the next call on it. */
  ghost predicate Sound(m: Market, c: Call) {
    Inv(m) && Bounded(m) && Proper(c) && (c.MintCall? ==> Total(m, c.token) + MintedBy(c, c.token) < CAP)
  }

  /** If the call is a swap that passes its checks, its hops can be paid and lower no product; and it moves only the
      tokens it names. */
  ghost predicate Careful(m: Market, c: Call) {
    Harmless(Wrapping, m, c) && Conserving(Wrapping, m, c)
  }

  /** One call in 256-bit arithmetic keeps everything the exact one keeps: a successful call equals the
      exact one, and a throwing call has moved nothing. */
  lemma WrappingStepKeeps(m: Market, c: Call)
    requires Sound(m, c) && Careful(m, c)
    ensures KeptWrapping(m, c)
  {
    hide KeptWrapping, Inv, Bounded, Total, Conserving, Entered, Quoted;
    if Step(Wrapping, m, c).1.Ok? {
      SuccessKeeps(m, c);
    } else {
      WrappingThrow(m, c);
    }
  }

  lemma SuccessKeeps(m: Market, c: Call)
    requires Sound(m, c) && Careful(m, c)
    requires Step(Wrapping, m, c).1.Ok?
    ensures KeptWrapping(m, c)
  {
    hide Step, Inv, Bounded, Total, Entered, Quoted, SharesKept, Untouched, Clear, NoDrift;
    StepFits(m, c);
    if IsSwap(c) {
      EnteredFits(m, c);
    }
    ExactStepKeeps(m, c);
  }

  /** As `Kept`, for the 256-bit step; a throwing call mints nothing. */
  ghost predicate KeptWrapping(m: Market, c: Call) {
    var (m', outcome) := Step(Wrapping, m, c);
    && Inv(m')
    && SharesKept(m, m')
    && (outcome.Err? ==> Untouched(m, m'))
    && (outcome.Ok? ==> Step(Exact, m, c) == (m', outcome))
    && (forall t :: Total(m', t) == Total(m, t) + MintedBy(c, t))
  }

  lemma WrappingThrow(m: Market, c: Call)
    requires Sound(m, c) && Careful(m, c)
    requires Step(Wrapping, m, c).1.Err?
    ensures KeptWrapping(m, c)
  {
    hide PairOk, WalletsOk, Total, ShareKept, DepositAmounts, Deposit, WithdrawAmounts, Withdraw, SwapKnown, QuoteOut, QuoteIn, Payable, NetsKeep, NoDrift, Clear;
    StayKept(m);
    match c
    case MintCall(_, _, _) =>
    case AddCall(_, _, _, _, _, _, _) => AddThrow(m, c);
    case RemoveCall(_, _, _, _, _, _) => RemoveFits(m, c); RemoveKeeps(m, c);
    case _ => ThrowsMidwayIff(m, c);
  }

  lemma AddThrow(m: Market, c: Call)
    requires Inv(m) && Proper(c) && c.AddCall?
    requires Step(Wrapping, m, c).1.Err?
    ensures var m' := Step(Wrapping, m, c).0;
            Inv(m') && SharesKept(m, m') && Untouched(m, m') && forall t :: Total(m', t) == Total(m, t)
  {
    hide PairOk, WalletsOk, Total, ShareKept, DepositAmounts, Deposit;
    StayKept(m);
    if SortTokens(c.tokenA, c.tokenB).Ok? {
      var (token0, token1) := SortTokens(c.tokenA, c.tokenB).value;
      SortTokensIsSymmetric(c.tokenA, c.tokenB);
      CreatedPair(m, token0, token1);
    }
  }

  /** Every call of the run is careful on the state it finds. */
  ghost predicate AllCareful(calls: seq<Call>) {
    forall i: nat | i < |calls| :: Careful(Run(calls[..i]), calls[i])
  }

  lemma CarefulFront(calls: seq<Call>, n: nat)
    requires n <= |calls| && AllCareful(calls)
    ensures AllCareful(calls[..n])
    ensures n < |calls| ==> Careful(Run(calls[..n]), calls[n])
  {
    hide Run, Careful;
    forall i: nat | i < n
      ensures Careful(Run(calls[..n][..i]), calls[..n][i])
    {
      assert calls[..n][..i] == calls[..i];
    }
  }

  /** Every reachable state is in order, and each token's wallets and reserves add up to what was minted. */
  lemma {:induction false} RunKeeps(calls: seq<Call>)
    requires AllProper(calls) && FewMinted(calls) && AllCareful(calls)
    ensures Inv(Run(calls)) && Bounded(Run(calls))
    ensures forall t :: Total(Run(calls), t) == Minted(calls, t)
    decreases |calls|, 1
  {
    hide Total, Inv, Careful, Run, Sound, Bounded, FewMinted, AllProper;
    if calls == [] {
      EmptyKeeps();
      EmptyRun();
    } else {
      CarefulFront(calls, |calls| - 1);
      RunSound(calls);
      RunKeeps(calls[..|calls| - 1]);
      OneMoreKeeps(calls);
    }
    FewIsBounded(calls);
  }

  lemma EmptyRun()
    ensures Run([]) == EMPTY && forall t :: Minted([], t) == 0
  {
  }

  lemma OneMoreKeeps(calls: seq<Call>)
    requires calls != []
    requires var (front, c) := (calls[..|calls| - 1], calls[|calls| - 1]);
             Sound(Run(front), c) && Careful(Run(front), c) && forall t :: Total(Run(front), t) == Minted(front, t)
    ensures Inv(Run(calls)) && forall t :: Total(Run(calls), t) == Minted(calls, t)
  {
    hide Total, Inv, Careful, Step, Sound, Bounded, KeptWrapping;
    var (front, c) := (calls[..|calls| - 1], calls[|calls| - 1]);
    WrappingStepKeeps(Run(front), c);
    TotalsFollow(Run(front), c);
    forall t
      ensures Total(Run(calls), t) == Minted(calls, t)
    {
      assert Total(Run(front), t) == Minted(front, t);
    }
  }

  lemma FewIsBounded(calls: seq<Call>)
    requires FewMinted(calls) && forall t :: Total(Run(calls), t) == Minted(calls, t)
    ensures Bounded(Run(calls))
  {
    hide Total, Run;
  }

  lemma TotalsFollow(m: Market, c: Call)
    requires KeptWrapping(m, c)
    ensures Inv(Step(Wrapping, m, c).0)
    ensures forall t :: Total(Step(Wrapping, m, c).0, t) == Total(m, t) + MintedBy(c, t)
  {
    hide Step, Inv, Total;
  }

  lemma EmptyKeeps()
    ensures Inv(EMPTY) && forall t :: Total(EMPTY, t) == 0
  {
    forall t
      ensures Total(EMPTY, t) == 0
    {
      assert BalanceColumn(map[], t) == map[] && ReserveColumn(map[], t) == map[];
    }
  }

  lemma FewMintedFront(calls: seq<Call>)
    requires calls != []
    requires AllProper(calls) && FewMinted(calls)
    ensures AllProper(calls[..|calls| - 1]) && FewMinted(calls[..|calls| - 1])
  {
    var front := calls[..|calls| - 1];
    forall t: Token
      ensures Minted(front, t) < CAP
    {
      MintedPrefix(calls, |calls| - 1, t);
    }
  }

  /** Before its last call, a run is where `WrappingStepKeeps` needs it. */
  lemma RunSound(calls: seq<Call>)
    requires calls != []
    requires AllProper(calls) && FewMinted(calls) && AllCareful(calls[..|calls| - 1])
    ensures AllProper(calls[..|calls| - 1]) && FewMinted(calls[..|calls| - 1])
    ensures Sound(Run(calls[..|calls| - 1]), calls[|calls| - 1])
    decreases |calls|, 0
  {
    hide Inv, Step, Careful;
    FewMintedFront(calls);
    RunKeeps(calls[..|calls| - 1]);
    var c := calls[|calls| - 1];
    if c.MintCall? {
      assert Minted(calls, c.token) < CAP;
    }
  }
}
