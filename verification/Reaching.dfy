/** States that careful runs reach, step by step. */
module Reaching {
  import opened Words
  import opened Results
  import opened Tokens
  import opened Sums
  import opened Bytes
  import opened Market
  import opened Quotes
  import opened Roots
  import opened Totals
  import opened Exchange
  import opened Width
  import opened Runs
  import opened Promises

  /** A careful run that mints at most what `minted` says of each token ends in m. */
  ghost predicate Leads(calls: seq<Call>, m: Market, minted: map<Token, int>) {
    && AllProper(calls) && AllCareful(calls) && Run(calls) == m
    && forall t :: Minted(calls, t) <= Get(minted, t)
  }

  /** Fewer than 2^112 of each. */
  predicate Few(minted: map<Token, int>) {
    forall t | t in minted :: minted[t] < CAP
  }

  ghost predicate Reached(m: Market, minted: map<Token, int>) {
    exists calls :: Leads(calls, m, minted)
  }

  lemma EmptyIsReached()
    ensures Reached(EMPTY, map[])
  {
    assert Leads([], EMPTY, map[]);
  }

  /** Reached states are in order and bounded. */
  lemma ReachedIsOk(m: Market, minted: map<Token, int>)
    requires Reached(m, minted) && Few(minted)
    ensures Inv(m) && Bounded(m)
    ensures forall t :: Total(m, t) <= Get(minted, t)
  {
    hide Inv, Bounded, AllCareful, AllProper, Run, Total;
    var calls :| Leads(calls, m, minted);
    RunKeeps(calls);
  }

  lemma OneMoreCall(m: Market, minted: map<Token, int>, c: Call, more: map<Token, int>)
    requires Reached(m, minted) && Proper(c) && Careful(m, c)
    requires forall t :: Get(minted, t) + MintedBy(c, t) <= Get(more, t)
    ensures Reached(Step(Wrapping, m, c).0, more)
  {
    hide Proper, Careful, Step;
    var calls :| Leads(calls, m, minted);
    var longer := calls + [c];
    assert longer[..|longer| - 1] == calls && longer[|longer| - 1] == c;
    forall t
      ensures Minted(longer, t) <= Get(more, t)
    {
      assert Minted(longer, t) == Minted(calls, t) + MintedBy(c, t);
      assert Minted(calls, t) <= Get(minted, t);
    }
    forall i: nat | i < |longer|
      ensures Careful(Run(longer[..i]), longer[i])
    {
      assert i < |calls| ==> longer[..i] == calls[..i];
    }
    assert Leads(longer, Step(Wrapping, m, c).0, more);
  }

  lemma MintReaches(m: Market, minted: map<Token, int>, to: Address, token: Token, amount: int)
    requires Reached(m, minted) && Few(minted)
    requires token != "" && 0 <= amount && Get(minted, token) + amount < CAP
    ensures Reached(Market(m.pools, Credit(Exact, m.wallets, to, token, amount)), minted[token := Get(minted, token) + amount])
  {
    hide Inv, Bounded, Total, Credit, Reached;
    var c := MintCall(to, token, amount);
    ReachedIsOk(m, minted);
    OnlySwapsHarm(m, c);
    MintIsProper(m, minted, c);
    MintFits(m, c);
    OneMoreCall(m, minted, c, minted[token := Get(minted, token) + amount]);
  }

  lemma MintIsProper(m: Market, minted: map<Token, int>, c: Call)
    requires Inv(m) && c.MintCall? && 0 <= c.amount && Get(minted, c.token) + c.amount < CAP
    requires Total(m, c.token) <= Get(minted, c.token)
    ensures Proper(c)
  {
    hide Total;
    StocksFollow(m.pools);
    BalanceBounds(m, c.to, c.token);
  }

  /** A new pair with equal reserves, all of whose free shares its provider holds. */
  function Even(t0: Token, t1: Token, reserve: int, provider: Address): Pair {
    Pair(t0, t1, reserve, reserve, reserve, map[BURN_ADDRESS := MINIMUM_LIQUIDITY, provider := reserve - MINIMUM_LIQUIDITY])
  }

  /** A first deposit of equal amounts. */
  lemma FirstAddReaches(m: Market, minted: map<Token, int>, provider: Address, t0: Token, t1: Token, reserve: int)
    requires Reached(m, minted) && Few(minted)
    requires SortTokens(t0, t1) == Ok((t0, t1)) && PairKey(t0, t1) !in m.pools
    requires provider != BURN_ADDRESS && MINIMUM_LIQUIDITY < reserve < CAP
    requires reserve <= BalanceOf(m.wallets, provider, t0) && reserve <= BalanceOf(m.wallets, provider, t1)
    ensures Reached(Market(m.pools[PairKey(t0, t1) := Even(t0, t1, reserve, provider)],
                           Debit(Exact, Debit(Exact, m.wallets, provider, t0, reserve), provider, t1, reserve)), minted)
  {
    hide Inv, Bounded, Leads, Debit, Even, Step, Total;
    var c := AddCall(provider, t0, t1, reserve, reserve, 0, 0);
    ReachedIsOk(m, minted);
    OnlySwapsHarm(m, c);
    BoundedBalance(m, provider, t0);
    BoundedBalance(m, provider, t1);
    FirstAddStep(m, provider, t0, t1, reserve);
    OneMoreCall(m, minted, c, minted);
  }

  lemma FirstAddStep(m: Market, provider: Address, t0: Token, t1: Token, reserve: int)
    requires SortTokens(t0, t1) == Ok((t0, t1)) && PairKey(t0, t1) !in m.pools
    requires provider != BURN_ADDRESS && MINIMUM_LIQUIDITY < reserve < CAP
    requires reserve <= BalanceOf(m.wallets, provider, t0) < MODULUS && reserve <= BalanceOf(m.wallets, provider, t1) < MODULUS
    ensures Step(Wrapping, m, AddCall(provider, t0, t1, reserve, reserve, 0, 0)).0
            == Market(m.pools[PairKey(t0, t1) := Even(t0, t1, reserve, provider)],
                      Debit(Exact, Debit(Exact, m.wallets, provider, t0, reserve), provider, t1, reserve))
  {
    hide Debit, DepositAmounts, Deposit, Even;
    var p := Pair(t0, t1, 0, 0, 0, map[]);
    EvenDeposit(p, reserve);
    EvenPair(p, reserve, provider);
    TwoDebitsFit(m.wallets, provider, t0, t1, reserve, reserve);
  }

  lemma EvenDeposit(p: Pair, reserve: int)
    requires p.totalSupply == 0 && MINIMUM_LIQUIDITY < reserve < CAP
    ensures DepositAmounts(Wrapping, p, reserve, reserve, 0, 0) == Ok((reserve, reserve, reserve - MINIMUM_LIQUIDITY))
  {
    hide FloorSqrt;
    MulFits(reserve, reserve);
    FloorSqrtIsUnique(reserve * reserve, reserve);
    FitIsIdentity(Wrapping, reserve - MINIMUM_LIQUIDITY);
  }

  lemma EvenPair(p: Pair, reserve: int, provider: Address)
    requires p.reserve0 == 0 && p.reserve1 == 0 && p.totalSupply == 0 && p.lp == map[]
    requires provider != BURN_ADDRESS && MINIMUM_LIQUIDITY < reserve < CAP
    ensures Deposit(Wrapping, p, provider, reserve, reserve, reserve - MINIMUM_LIQUIDITY) == Even(p.token0, p.token1, reserve, provider)
  {
    FitIsIdentity(Wrapping, reserve);
    FitIsIdentity(Wrapping, reserve - MINIMUM_LIQUIDITY);
  }

  // Wallets of one owner.

  lemma FirstCredit(owner: Address, token: Token, amount: int)
    ensures Credit(Exact, map[], owner, token, amount) == map[owner := map[token := amount]]
  {
  }

  lemma CreditOne(owner: Address, row: map<Token, int>, token: Token, amount: int)
    ensures Credit(Exact, map[owner := row], owner, token, amount) == map[owner := row[token := Get(row, token) + amount]]
  {
  }

  lemma DebitOne(owner: Address, row: map<Token, int>, token: Token, amount: int)
    ensures Debit(Exact, map[owner := row], owner, token, amount) == map[owner := row[token := Get(row, token) - amount]]
  {
  }
}
