/** States that careful runs reach, and what then goes wrong: a deposit that succeeds below a stated minimum, a forward
quote that does not cover the backward quote it starts from, and a deposit whose names collide. */
module Counterexamples {
  import opened Words
  import opened Results
  import opened Tokens
  import opened Bytes
  import opened Market
  import opened Quotes
  import opened QuoteWidth
  import opened Exchange
  import opened Width
  import opened Runs
  import opened Names
  import opened Reaching

  const PROVIDER: Address := [2, 2, 2, 2, 2, 2, 2, 2, 2, 2, 2, 2, 2, 2, 2, 2, 2, 2, 2, 2]

  /** One pair with equal reserves, and the wallet of its provider. */
  function Simple(reserve: int, amount: int): Market {
    Market(map["a|b" := Even("a", "b", reserve, PROVIDER)], map[PROVIDER := map["a" := amount, "b" := amount]])
  }

  lemma NamesSort()
    ensures SortTokens("a", "b") == Ok(("a", "b")) && PairKey("a", "b") == "a|b"
  {
  }

  /** Two mints and a deposit lead there. */
  lemma SimpleIsReached(reserve: int, amount: int)
    requires MINIMUM_LIQUIDITY < reserve && 0 <= amount && reserve + amount < CAP
    ensures Reached(Simple(reserve, amount), map["a" := reserve + amount, "b" := reserve + amount])
    ensures Inv(Simple(reserve, amount)) && Bounded(Simple(reserve, amount))
  {
    hide Reached, Inv, Bounded, Even, Credit, Debit;
    var x := reserve + amount;
    NamesSort();
    EmptyIsReached();
    MintReaches(EMPTY, map[], PROVIDER, "a", x);
    FirstCredit(PROVIDER, "a", x);
    MintReaches(Market(map[], map[PROVIDER := map["a" := x]]), map["a" := x], PROVIDER, "b", x);
    CreditOne(PROVIDER, map["a" := x], "b", x);
    var row := map["a" := x, "b" := x];
    assert map["a" := x]["b" := 0 + x] == row;
    FirstAddReaches(Market(map[], map[PROVIDER := row]), row, PROVIDER, "a", "b", reserve);
    DebitOne(PROVIDER, row, "a", reserve);
    DebitOne(PROVIDER, row["a" := amount], "b", reserve);
    assert row["a" := amount]["b" := amount] == map["a" := amount, "b" := amount];
    var none: Pools := map[];
    assert none["a|b" := Even("a", "b", reserve, PROVIDER)] == map["a|b" := Even("a", "b", reserve, PROVIDER)];
    ReachedIsOk(Simple(reserve, amount), row);
  }

  /** A call of the exchange that asks for at least 11 and succeeds with 10. */
  lemma MinimumIgnored()
    ensures var (m, c) := (Simple(2000, 10), AddCall(PROVIDER, "a", "b", 10, 10, 11, 10));
            && Reached(m, map["a" := 2010, "b" := 2010]) && Inv(m) && Bounded(m)
            && Step(Wrapping, m, c).1 == Ok(AddDone(Added(10, 10, 10)))
  {
    hide Reached, Inv, Bounded, DepositAmounts;
    SimpleIsReached(2000, 10);
    NamesSort();
    DepositOfTen();
  }

  lemma DepositOfTen()
    ensures DepositAmounts(Wrapping, Even("a", "b", 2000, PROVIDER), 10, 10, 11, 10) == Ok((10, 10, 10))
  {
    assert Wrapping.Mul(10, 2000) == 20_000;
  }

  lemma OneHopQuote(pools: Pools, a: Token, b: Token, y: int)
    requires HopReserves(pools, a, b).Ok?
    requires AmountIn(Wrapping, y, HopReserves(pools, a, b).value.0, HopReserves(pools, a, b).value.1).Ok?
    ensures var (reserveIn, reserveOut) := HopReserves(pools, a, b).value;
            QuoteIn(Wrapping, pools, y, [a, b]) == Ok([AmountIn(Wrapping, y, reserveIn, reserveOut).value, y])
  {
    hide AmountIn, HopReserves;
    var path := [a, b];
    var (reserveIn, reserveOut) := HopReserves(pools, a, b).value;
    var x := AmountIn(Wrapping, y, reserveIn, reserveOut).value;
    assert path[0] == a && path[1] == b && path[..1] == [a];
    assert QuoteIn(Wrapping, pools, x, [a]) == Ok([x]);
    assert [x] + [y] == [x, y];
    assert QuoteIn(Wrapping, pools, y, path) == Ok([x] + [y]);
  }

  const HALF: int := 2596148429267413814265248164610048
  const HUGE_INPUT: int := 6760267469195245685723925548400105388426135243953188420288603763547

  lemma HugeInput()
    ensures AmountIn(Wrapping, HALF - 1, HALF, HALF) == Ok(HUGE_INPUT)
    ensures MODULUS <= FEE_NUMERATOR * HUGE_INPUT * HALF
  {
    AmountInFits(HALF - 1, HALF, HALF);
  }

  /** A state below the bound whose backward quote the forward quote does not cover. */
  lemma CoverFailsForHugeInputs()
    ensures var m := Simple(HALF, 0);
            && Reached(m, map["a" := HALF, "b" := HALF]) && Inv(m) && Bounded(m)
            && AmountsIn(Wrapping, m.pools, HALF - 1, ["a", "b"]) == Ok([HUGE_INPUT, HALF - 1])
            && !Covers(AmountsOut(Wrapping, m.pools, HUGE_INPUT, ["a", "b"]), [HUGE_INPUT, HALF - 1])
  {
    hide AmountIn, AmountOut, Reached, Inv, Bounded;
    SimpleIsReached(HALF, 0);
    var pools := Simple(HALF, 0).pools;
    NamesSort();
    assert HopReserves(pools, "a", "b") == Ok((HALF, HALF));
    BoundedPools(Simple(HALF, 0));
    HugeInput();
    OneHopQuote(pools, "a", "b", HALF - 1);
    MultiHopQuotesCoverIff(pools, HALF - 1, ["a", "b"]);
  }

  // Colliding names: the pair of "a" and "b|c" is found under the names "a|b" and "c".

  function Colliding(): Market {
    Market(map["a|b|c" := Even("a", "b|c", 2000, PROVIDER)],
           map[PROVIDER := map["a" := 0, "b|c" := 0, "a|b" := 10, "c" := 10]])
  }

  lemma CollidingNamesSort()
    ensures SortTokens("a", "b|c") == Ok(("a", "b|c")) && PairKey("a", "b|c") == "a|b|c"
    ensures SortTokens("a|b", "c") == Ok(("a|b", "c")) && PairKey("a|b", "c") == "a|b|c"
    ensures "a" != "b|c" && "a" != "a|b" && "a" != "c" && "b|c" != "a|b" && "b|c" != "c" && "a|b" != "c"
  {
    PairKeyCollides();
    assert "a"[0] != "b|c"[0] && "b|c"[0] != "a|b"[0] && "b|c"[0] != "c"[0] && "a|b"[0] != "c"[0] && "a"[0] != "c"[0];
  }

  const MINTED: map<Token, int> := map["a" := 2000, "b|c" := 2000, "a|b" := 10, "c" := 10]

  lemma CollidingIsReached()
    ensures Reached(Colliding(), MINTED)
    ensures Inv(Colliding()) && Bounded(Colliding())
  {
    hide Reached, Inv, Bounded, Even, SortTokens, Credit, Debit;
    CollidingNamesSort();
    EmptyIsReached();
    MintReaches(EMPTY, map[], PROVIDER, "a", 2000);
    FirstCredit(PROVIDER, "a", 2000);
    var r1: map<Token, int> := map["a" := 2000];
    MintReaches(Market(map[], map[PROVIDER := r1]), r1, PROVIDER, "b|c", 2000);
    CreditOne(PROVIDER, r1, "b|c", 2000);
    var r2 := r1["b|c" := 2000];
    MintReaches(Market(map[], map[PROVIDER := r2]), r2, PROVIDER, "a|b", 10);
    CreditOne(PROVIDER, r2, "a|b", 10);
    var r3 := r2["a|b" := 10];
    MintReaches(Market(map[], map[PROVIDER := r3]), r3, PROVIDER, "c", 10);
    CreditOne(PROVIDER, r3, "c", 10);
    assert r3["c" := 10] == MINTED;
    FirstAddReaches(Market(map[], map[PROVIDER := MINTED]), MINTED, PROVIDER, "a", "b|c", 2000);
    DebitOne(PROVIDER, MINTED, "a", 2000);
    DebitOne(PROVIDER, MINTED["a" := 0], "b|c", 2000);
    assert MINTED["a" := 0]["b|c" := 0] == map["a" := 0, "b|c" := 0, "a|b" := 10, "c" := 10];
    var none: Pools := map[];
    assert none["a|b|c" := Even("a", "b|c", 2000, PROVIDER)] == Colliding().pools;
    ReachedIsOk(Colliding(), MINTED);
  }

  /** A deposit of "a|b" and "c" succeeds and is stored as "a" and "b|c". */
  lemma CollisionMovesTokens()
    ensures var (m, c) := (Colliding(), AddCall(PROVIDER, "a|b", "c", 10, 10, 0, 0));
            && Reached(m, MINTED) && Sound(m, c)
            && Step(Wrapping, m, c).1 == Ok(AddDone(Added(10, 10, 10)))
            && !TotalsStay(m, Step(Wrapping, m, c).0)
  {
    hide Reached, Inv, Bounded, SortTokens, DepositAmounts, Deposit, TotalsStay;
    var (m, c) := (Colliding(), AddCall(PROVIDER, "a|b", "c", 10, 10, 0, 0));
    CollidingIsReached();
    CollidingNamesSort();
    assert DepositAmounts(Wrapping, Even("a", "b|c", 2000, PROVIDER), 10, 10, 0, 0) == Ok((10, 10, 10)) by { TenMore(); }
    assert Sound(m, c);
    AddConservesIff(m, c);
  }

  lemma TenMore()
    ensures DepositAmounts(Wrapping, Even("a", "b|c", 2000, PROVIDER), 10, 10, 0, 0) == Ok((10, 10, 10))
  {
    assert Wrapping.Mul(10, 2000) == 20_000;
  }
}
