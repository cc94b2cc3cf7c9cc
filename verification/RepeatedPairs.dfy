/** Two swaps around a triangle that pass its first pair twice: one throws with the trader's tokens taken, one goes
through and lowers the value of shares. */
module RepeatedPairs {
  import opened Words
  import opened Results
  import opened Tokens
  import opened Sums
  import opened Bytes
  import opened Market
  import opened Quotes
  import opened QuoteWidth
  import opened Liquidity
  import opened Totals
  import opened Trading
  import opened Paths
  import opened Exchange
  import opened Width
  import opened Swaps
  import opened Runs
  import opened Reaching

  const POOL: int := 2000
  const TRADER: Address := [1, 1, 1, 1, 1, 1, 1, 1, 1, 1, 1, 1, 1, 1, 1, 1, 1, 1, 1, 1]
  const TRIANGLE: seq<Token> := ["a", "b", "c", "a", "b"]

  const MAKER: Address := [2, 2, 2, 2, 2, 2, 2, 2, 2, 2, 2, 2, 2, 2, 2, 2, 2, 2, 2, 2]

  function Side(a: Token, b: Token): Pair {
    Even(a, b, POOL, MAKER)
  }

  const SIDES: Pools := map["a|b" := Side("a", "b"), "b|c" := Side("b", "c"), "a|c" := Side("a", "c")]

  lemma TriangleHops()
    ensures FindPair(SIDES, "a", "b") == Ok(("a|b", Side("a", "b")))
    ensures FindPair(SIDES, "b", "c") == Ok(("b|c", Side("b", "c")))
    ensures FindPair(SIDES, "c", "a") == Ok(("a|c", Side("a", "c")))
    ensures Forward("a", "b") && Forward("b", "c") && !Forward("c", "a")
  {
    assert PairKey("a", "b") == "a|b" && PairKey("b", "c") == "b|c" && PairKey("a", "c") == "a|c";
    assert "a|b" != "b|c" && "a|b" != "a|c" && "b|c" != "a|c";
  }

  lemma QuoteOutCons(pools: Pools, x: int, path: seq<Token>, y: int, rest: seq<int>)
    requires 1 < |path|
    requires HopReserves(pools, path[0], path[1]).Ok?
    requires AmountOut(Exact, x, HopReserves(pools, path[0], path[1]).value.0, HopReserves(pools, path[0], path[1]).value.1)
             == Ok(y)
    requires QuoteOut(Exact, pools, y, path[1..]) == Ok(rest)
    ensures QuoteOut(Exact, pools, x, path) == Ok([x] + rest)
  {
    hide AmountOut, HopReserves;
  }

  /** The quote of the triangle, hop by hop. */
  lemma TriangleQuote(x: int, y1: int, y2: int, y3: int, y4: int)
    requires AmountOut(Exact, x, POOL, POOL) == Ok(y1) && AmountOut(Exact, y1, POOL, POOL) == Ok(y2)
    requires AmountOut(Exact, y2, POOL, POOL) == Ok(y3) && AmountOut(Exact, y3, POOL, POOL) == Ok(y4)
    ensures QuoteOut(Exact, SIDES, x, TRIANGLE) == Ok([x, y1, y2, y3, y4])
  {
    hide AmountOut, FindPair, QuoteOut;
    TriangleHops();
    var path := TRIANGLE;
    assert path[1..][1..] == path[2..] && path[2..][1..] == path[3..] && path[3..][1..] == path[4..] == ["b"];
    LastQuote(y4, path[4..]);
    QuoteOutCons(SIDES, y3, path[3..], y4, [y4]);
    QuoteOutCons(SIDES, y2, path[2..], y3, [y3] + [y4]);
    QuoteOutCons(SIDES, y1, path[1..], y2, [y2] + ([y3] + [y4]));
    QuoteOutCons(SIDES, x, path, y1, [y1] + ([y2] + ([y3] + [y4])));
    assert [x] + ([y1] + ([y2] + ([y3] + [y4]))) == [x, y1, y2, y3, y4];
  }

  lemma LastQuote(y: int, path: seq<Token>)
    requires |path| == 1
    ensures QuoteOut(Exact, SIDES, y, path) == Ok([y])
  {
  }

  /** The three sides, their maker's empty wallet, and a trader with an amount of the first token. */
  function Holding(amount: int): Market {
    Market(SIDES, map[MAKER := map["a" := 0, "b" := 0, "c" := 0], TRADER := map["a" := amount]])
  }

  const MADE: map<Token, int> := map["a" := 2 * POOL, "b" := 2 * POOL, "c" := 2 * POOL]

  lemma MakerIsReached()
    ensures Reached(Market(map[], map[MAKER := MADE]), MADE)
  {
    hide Reached, Inv, Bounded, Credit;
    EmptyIsReached();
    assert "a" != "b" && "b" != "c" && "a" != "c" by { NamesDiffer(); }
    MintReaches(EMPTY, map[], MAKER, "a", 2 * POOL);
    FirstCredit(MAKER, "a", 2 * POOL);
    var r1: map<Token, int> := map["a" := 2 * POOL];
    MintReaches(Market(map[], map[MAKER := r1]), r1, MAKER, "b", 2 * POOL);
    CreditOne(MAKER, r1, "b", 2 * POOL);
    var r2 := r1["b" := 2 * POOL];
    MintReaches(Market(map[], map[MAKER := r2]), r2, MAKER, "c", 2 * POOL);
    CreditOne(MAKER, r2, "c", 2 * POOL);
    assert r2["c" := 2 * POOL] == MADE;
  }

  lemma NamesDiffer()
    ensures "a" != "b" && "b" != "c" && "a" != "c"
    ensures SortTokens("a", "b") == Ok(("a", "b")) && SortTokens("b", "c") == Ok(("b", "c")) && SortTokens("a", "c") == Ok(("a", "c"))
    ensures PairKey("a", "b") == "a|b" && PairKey("b", "c") == "b|c" && PairKey("a", "c") == "a|c"
    ensures "a|b" != "b|c" && "a|b" != "a|c" && "b|c" != "a|c"
  {
    assert "a"[0] != "b"[0] && "b"[0] != "c"[0] && "c"[0] != "a"[0];
  }

  lemma SidesAreReached()
    ensures Reached(Market(SIDES, map[MAKER := map["a" := 0, "b" := 0, "c" := 0]]), MADE)
  {
    hide Reached, Inv, Bounded, Even, Debit, SortTokens;
    NamesDiffer();
    MakerIsReached();
    var none: Pools := map[];
    SideReached(none, MADE, "a", "b");
    var (p1, r1) := (none["a|b" := Side("a", "b")], MADE["a" := POOL]["b" := POOL]);
    SideReached(p1, r1, "b", "c");
    var (p2, r2) := (p1["b|c" := Side("b", "c")], r1["b" := 0]["c" := POOL]);
    SideReached(p2, r2, "a", "c");
    assert p2["a|c" := Side("a", "c")] == SIDES;
    assert r2["a" := 0]["c" := 0] == map["a" := 0, "b" := 0, "c" := 0];
  }

  /** One more side, from the maker's wallet. */
  lemma SideReached(pools: Pools, row: map<Token, int>, a: Token, b: Token)
    requires Reached(Market(pools, map[MAKER := row]), MADE)
    requires SortTokens(a, b) == Ok((a, b)) && PairKey(a, b) !in pools && a != b
    requires POOL <= Get(row, a) && POOL <= Get(row, b)
    ensures Reached(Market(pools[PairKey(a, b) := Side(a, b)],
                           map[MAKER := row[a := Get(row, a) - POOL][b := Get(row, b) - POOL]]), MADE)
  {
    hide Reached, Inv, Bounded, Even, Debit, SortTokens;
    FirstAddReaches(Market(pools, map[MAKER := row]), MADE, MAKER, a, b, POOL);
    DebitOne(MAKER, row, a, POOL);
    DebitOne(MAKER, row[a := Get(row, a) - POOL], b, POOL);
  }

  /** Mints, three deposits and a mint lead there. */
  lemma HoldingIsOk(amount: int)
    requires 0 <= amount <= 100_000
    ensures Reached(Holding(amount), MADE["a" := 2 * POOL + amount])
    ensures Inv(Holding(amount)) && Bounded(Holding(amount))
  {
    hide Reached, Inv, Bounded;
    SidesAreReached();
    var w: Wallets := map[MAKER := map["a" := 0, "b" := 0, "c" := 0]];
    MintReaches(Market(SIDES, w), MADE, TRADER, "a", amount);
    assert Credit(Exact, w, TRADER, "a", amount) == Holding(amount).wallets;
    ReachedIsOk(Holding(amount), MADE["a" := 2 * POOL + amount]);
  }

  /** The three sides lie under three keys. */
  predicate ThreeKeys(a: Token, b: Token, c: Token) {
    HopKey(a, b) != HopKey(b, c) && HopKey(b, c) != HopKey(c, a) && HopKey(c, a) != HopKey(a, b)
  }

  lemma SidesHaveThreeKeys()
    ensures ThreeKeys("a", "b", "c") && HopKey("a", "b") == "a|b" && Forward("a", "b")
  {
    NamesDiffer();
    TriangleHops();
  }

  lemma TriangleNet(a: Token, b: Token, c: Token, amounts: seq<int>)
    requires |amounts| == 5 && ThreeKeys(a, b, c)
    ensures Net([a, b, c, a, b], amounts, 3) == -amounts[1]
    ensures Net([a, b, c, a, b], amounts, 0) == Net([a, b, c, a, b], amounts, 1) == Net([a, b, c, a, b], amounts, 2) == 0
  {
    hide HopKey, Forward;
    var path := [a, b, c, a, b];
    var (p, q) := (path[1..], path[2..]);
    assert p[1..] == q && amounts[1..][1..] == amounts[2..];
    assert Net(q, amounts[2..], 0) == 0 && Net(q, amounts[2..], 1) == 0;
    assert Net(p, amounts[1..], 0) == 0 && Net(p, amounts[1..], 1) == 0 && Net(p, amounts[1..], 2) == 0;
  }

  lemma SwapAroundTriangle(amount: int, amounts: seq<int>)
    requires 0 < amount <= 100_000
    requires |amounts| == 5 && amounts[0] == amount
    requires QuoteOut(Exact, SIDES, amount, TRIANGLE) == Ok(amounts)
    ensures var c := SwapInCall(TRADER, amount, 0, TRIANGLE, TRADER);
            && SwapReady(Holding(amount), c)
            && (Step(Wrapping, Holding(amount), c).1.Ok? <==> amounts[4] < POOL - amounts[1])
            && (Step(Wrapping, Holding(amount), c).1.Err? ==> Step(Wrapping, Holding(amount), c).0 != Holding(amount))
  {
    hide PairOk, Total, QuoteOut, Step;
    var (m, c) := (Holding(amount), SwapInCall(TRADER, amount, 0, TRIANGLE, TRADER));
    HoldingIsOk(amount);
    BoundedPools(m);
    QuoteOutFits(SIDES, amount, TRIANGLE);
    QuoteOutIsFair(SIDES, amount, TRIANGLE);
    FairAmountsRange(SIDES, TRIANGLE, amounts);
    ThrowsMidwayIff(m, c);
    SidesHaveThreeKeys();
    TriangleNet("a", "b", "c", amounts);
    TriangleHops();
    assert forall i | 0 <= i < 4 :: FairHop(SIDES, TRIANGLE[i], TRIANGLE[i + 1], amounts[i], amounts[i + 1]);
    assert Pays(SIDES, TRIANGLE, amounts, 3) <==> amounts[4] < POOL - amounts[1];
    assert Pays(SIDES, TRIANGLE, amounts, 0) && Pays(SIDES, TRIANGLE, amounts, 1) && Pays(SIDES, TRIANGLE, amounts, 2);
  }

  /** A swap that throws and has taken the trader's tokens. */
  lemma HalfASwap()
    ensures var (m, c) := (Holding(100_000), SwapInCall(TRADER, 100_000, 0, TRIANGLE, TRADER));
            && Reached(m, MADE["a" := 2 * POOL + 100_000]) && Inv(m) && Bounded(m)
            && Step(Wrapping, m, c).1.Err? && Step(Wrapping, m, c).0 != m
  {
    hide Step;
    HoldingIsOk(100_000);
    TriangleQuote(100_000, 1960, 988, 659, 494);
    SwapAroundTriangle(100_000, [100_000, 1960, 988, 659, 494]);
  }

  lemma NetAllCons(path: seq<Token>, amounts: seq<int>, key: string, first: bool)
    requires |amounts| == |path| >= 1
    ensures NetAll(path, amounts, key, first)
            == if |path| == 1 then 0
               else Effect(path[0], path[1], amounts[0], amounts[1], key, first) + NetAll(path[1..], amounts[1..], key, first)
  {
  }

  lemma TriangleNetAll(a: Token, b: Token, c: Token, amounts: seq<int>, first: bool)
    requires |amounts| == 5 && ThreeKeys(a, b, c)
    ensures NetAll([a, b, c, a, b], amounts, HopKey(a, b), first)
            == Effect(a, b, amounts[0], amounts[1], HopKey(a, b), first) + Effect(a, b, amounts[3], amounts[4], HopKey(a, b), first)
  {
    hide NetAll, HopKey, Forward;
    var (path, key) := ([a, b, c, a, b], HopKey(a, b));
    assert path[1..][1..] == path[2..] && path[2..][1..] == path[3..] && path[3..][1..] == path[4..];
    assert amounts[1..][1..] == amounts[2..] && amounts[2..][1..] == amounts[3..] && amounts[3..][1..] == amounts[4..];
    NetAllCons(path, amounts, key, first);
    NetAllCons(path[1..], amounts[1..], key, first);
    NetAllCons(path[2..], amounts[2..], key, first);
    NetAllCons(path[3..], amounts[3..], key, first);
    NetAllCons(path[4..], amounts[4..], key, first);
  }

  lemma FirstPairLoses(amounts: seq<int>)
    requires amounts == [1000, 665, 497, 397, 330]
    ensures !NetsKeep(SIDES, TRIANGLE, amounts)
  {
    hide NetAll;
    SidesHaveThreeKeys();
    TriangleNetAll("a", "b", "c", amounts, true);
    TriangleNetAll("a", "b", "c", amounts, false);
    assert SIDES["a|b"] == Side("a", "b");
    assert !NetKeeps("a|b", SIDES["a|b"], TRIANGLE, amounts);
  }

  /** A swap that goes through and lowers what the shares of its first pair are worth. */
  lemma RepeatedPairLowersShares()
    ensures var (m, c) := (Holding(1000), SwapInCall(TRADER, 1000, 0, TRIANGLE, TRADER));
            && Reached(m, MADE["a" := 2 * POOL + 1000]) && Inv(m) && Bounded(m)
            && Step(Wrapping, m, c).1.Ok? && !SharesKept(m, Step(Wrapping, m, c).0)
  {
    hide Step, QuoteOut, AmountOut, PairOk, Total, NetsKeep, Netted, ClearPath, KeysOk, Payable, WalletsOk, SharesKept, AllImproved;
    var (m, c) := (Holding(1000), SwapInCall(TRADER, 1000, 0, TRIANGLE, TRADER));
    var amounts := [1000, 665, 497, 397, 330];
    HoldingIsOk(1000);
    TriangleQuote(1000, 665, 497, 397, 330) by { FourQuotes(); }
    SwapAroundTriangle(1000, amounts);
    QuoteOutFits(SIDES, 1000, TRIANGLE) by { BoundedPools(m); }
    ThrowsMidwayIff(m, c);
    SharesKeptIff(m, c);
    FirstPairLoses(amounts);
  }

  lemma FourQuotes()
    ensures AmountOut(Exact, 1000, POOL, POOL) == Ok(665) && AmountOut(Exact, 665, POOL, POOL) == Ok(497)
    ensures AmountOut(Exact, 497, POOL, POOL) == Ok(397) && AmountOut(Exact, 397, POOL, POOL) == Ok(330)
  {
  }
}
