/** Swaps along a path that uses no pair twice. */
module Trading {
  import opened Words
  import opened Results
  import opened Tokens
  import opened Market
  import opened Quotes
  import opened Liquidity
  import opened Totals

  /** No two hops look up the same pair. */
  predicate DistinctHops(path: seq<Token>) {
    forall i, j | 0 <= i < j < |path| - 1 :: HopKey(path[i], path[i + 1]) != HopKey(path[j], path[j + 1])
  }

  predicate Avoids(path: seq<Token>, key: string) {
    forall i | 0 <= i < |path| - 1 :: HopKey(path[i], path[i + 1]) != key
  }

  lemma DistinctTail(path: seq<Token>)
    requires 2 <= |path|
    requires DistinctHops(path)
    ensures DistinctHops(path[1..])
    ensures Avoids(path[1..], HopKey(path[0], path[1]))
  {
    hide HopKey;
    var tail := path[1..];
    forall i, j | 0 <= i < j < |tail| - 1
      ensures HopKey(tail[i], tail[i + 1]) != HopKey(tail[j], tail[j + 1])
    {
      assert HopKey(path[i + 1], path[i + 1 + 1]) != HopKey(path[j + 1], path[j + 1 + 1]);
    }
    forall i | 0 <= i < |tail| - 1
      ensures HopKey(tail[i], tail[i + 1]) != HopKey(path[0], path[1])
    {
      assert HopKey(path[0], path[0 + 1]) != HopKey(path[i + 1], path[i + 1 + 1]);
    }
  }

  lemma AvoidsTail(path: seq<Token>, key: string)
    requires 2 <= |path|
    requires Avoids(path, key)
    ensures HopKey(path[0], path[1]) != key && Avoids(path[1..], key)
  {
    hide HopKey;
    assert HopKey(path[0], path[0 + 1]) != key;
    forall i | 0 <= i < |path[1..]| - 1
      ensures HopKey(path[1..][i], path[1..][i + 1]) != key
    {
      assert HopKey(path[i + 1], path[i + 1 + 1]) != key;
    }
  }

  lemma HopUntouched(pools: Pools, a: Token, b: Token, x: int, y: int, c: Token, d: Token)
    requires HopKey(a, b) != HopKey(c, d)
    requires Hop(Exact, pools, a, b, x, y).Ok?
    ensures FindPair(Hop(Exact, pools, a, b, x, y).value, c, d) == FindPair(pools, c, d)
  {
  }

  lemma {:induction false} HopsUntouched(pools: Pools, path: seq<Token>, amounts: seq<int>, c: Token, d: Token)
    requires |amounts| == |path|
    requires Avoids(path, HopKey(c, d))
    ensures FindPair(Hops(Exact, pools, path, amounts).0, c, d) == FindPair(pools, c, d)
    decreases |path|
  {
    hide Hop, FindPair, HopKey;
    if |path| > 1 && Hop(Exact, pools, path[0], path[1], amounts[0], amounts[1]).Ok? {
      AvoidsTail(path, HopKey(c, d));
      HopUntouched(pools, path[0], path[1], amounts[0], amounts[1], c, d);
      HopsUntouched(Hop(Exact, pools, path[0], path[1], amounts[0], amounts[1]).value, path[1..], amounts[1..], c, d);
    }
  }

  ghost predicate PoolsOk(pools: Pools) {
    KeysOk(pools) && forall k | k in pools :: PairOk(pools[k])
  }

  /** A pair after trades: same tokens, same shares, product no smaller. */
  predicate Improved(p: Pair, q: Pair) {
    && q == Pair(p.token0, p.token1, q.reserve0, q.reserve1, p.totalSupply, p.lp)
    && p.reserve0 * p.reserve1 <= q.reserve0 * q.reserve1
  }

  predicate AllImproved(pools: Pools, after: Pools) {
    && after.Keys == pools.Keys
    && forall k | k in pools :: Improved(pools[k], after[k])
  }

  /** One fair hop succeeds, leaves the pair in order, and moves exactly the quoted amounts. */
  lemma FairHopTrades(pools: Pools, a: Token, b: Token, x: int, y: int)
    requires PoolsOk(pools)
    requires FairHop(pools, a, b, x, y)
    ensures Hop(Exact, pools, a, b, x, y).Ok?
    ensures var next := Hop(Exact, pools, a, b, x, y).value;
            PoolsOk(next) && SameNames(pools, next) && AllImproved(pools, next) && TradedAt(pools, next, a, b, x, y)
  {
    hide FeeInvariant, PairOk;
    FoundKey(pools, a, b);
    var (key, p) := FindPair(pools, a, b).value;
    TradeKeepsPair(p, Forward(a, b), x, y);
    var next := Hop(Exact, pools, a, b, x, y).value;
    assert next == pools[key := Trade(Exact, p, Forward(a, b), x, y)];
  }

  /** Every hop of the path now stands where its own trade put it. */
  predicate TradedOnce(pools: Pools, after: Pools, path: seq<Token>, amounts: seq<int>)
    requires |amounts| == |path|
  {
    forall i | 0 <= i < |path| - 1 :: TradedAt(pools, after, path[i], path[i + 1], amounts[i], amounts[i + 1])
  }

  predicate TradedAt(pools: Pools, after: Pools, a: Token, b: Token, x: int, y: int) {
    && HopReserves(pools, a, b).Ok?
    && var (reserveIn, reserveOut) := HopReserves(pools, a, b).value;
       HopReserves(after, a, b) == Ok((reserveIn + x, reserveOut - y))
  }

  lemma FairPathSurvives(pools: Pools, path: seq<Token>, amounts: seq<int>)
    requires 2 <= |path|
    requires DistinctHops(path)
    requires FairPath(pools, path, amounts)
    requires Hop(Exact, pools, path[0], path[1], amounts[0], amounts[1]).Ok?
    ensures var next := Hop(Exact, pools, path[0], path[1], amounts[0], amounts[1]).value;
            FairPath(next, path[1..], amounts[1..]) && SameFromSecondHop(pools, next, path)
  {
    hide Hop, FindPair, FeeInvariant, HopKey;
    var next := Hop(Exact, pools, path[0], path[1], amounts[0], amounts[1]).value;
    forall i | 1 <= i < |path| - 1
      ensures HopReserves(next, path[i], path[i + 1]) == HopReserves(pools, path[i], path[i + 1])
      ensures FairHop(next, path[i], path[i + 1], amounts[i], amounts[i + 1])
    {
      assert HopKey(path[0], path[0 + 1]) != HopKey(path[i], path[i + 1]);
      HopUntouched(pools, path[0], path[1], amounts[0], amounts[1], path[i], path[i + 1]);
      assert FairHop(pools, path[i], path[i + 1], amounts[i], amounts[i + 1]);
    }
    forall i | 0 <= i < |path[1..]| - 1
      ensures FairHop(next, path[1..][i], path[1..][i + 1], amounts[1..][i], amounts[1..][i + 1])
    {
      assert FairHop(next, path[i + 1], path[i + 1 + 1], amounts[i + 1], amounts[i + 1 + 1]);
    }
  }

  /** Fair amounts on a path without repeated pairs: no hop throws, every pair stays in order with its
      product no smaller, and every hop trades exactly the amounts quoted for it. */
  lemma {:induction false} FairPathTrades(pools: Pools, path: seq<Token>, amounts: seq<int>)
    requires PoolsOk(pools)
    requires 1 <= |path|
    requires DistinctHops(path)
    requires FairPath(pools, path, amounts)
    ensures var (after, outcome) := Hops(Exact, pools, path, amounts);
            outcome.Ok? && PoolsOk(after) && AllImproved(pools, after) && TradedOnce(pools, after, path, amounts)
    decreases |path|
  {
    hide Hop, Improved, FindPair, FairHop, PairOk, KeyOk, HopKey;
    if |path| == 1 {
      StayImproved(pools);
    } else {
      assert FairHop(pools, path[0], path[0 + 1], amounts[0], amounts[0 + 1]);
      FairHopTrades(pools, path[0], path[1], amounts[0], amounts[1]);
      var next := Hop(Exact, pools, path[0], path[1], amounts[0], amounts[1]).value;
      FairPathSurvives(pools, path, amounts);
      DistinctTail(path);
      FairPathTrades(next, path[1..], amounts[1..]);
      var after := Hops(Exact, next, path[1..], amounts[1..]).0;
      ImprovedTransitive(pools, next, after);
      HopsUntouched(next, path[1..], amounts[1..], path[0], path[1]);
      TradedOnceJoins(pools, next, after, path, amounts);
    }
  }

  lemma StayImproved(pools: Pools)
    ensures AllImproved(pools, pools)
  {
  }

  lemma ImprovedTransitive(pools: Pools, next: Pools, after: Pools)
    requires AllImproved(pools, next) && AllImproved(next, after)
    ensures AllImproved(pools, after)
  {
    forall k | k in pools
      ensures Improved(pools[k], after[k])
    {
      assert Improved(pools[k], next[k]) && Improved(next[k], after[k]);
    }
  }

  predicate SameFromSecondHop(pools: Pools, next: Pools, path: seq<Token>) {
    forall i | 1 <= i < |path| - 1 :: HopReserves(next, path[i], path[i + 1]) == HopReserves(pools, path[i], path[i + 1])
  }

  /** The first hop and the hops after it, put together. */
  lemma TradedOnceJoins(pools: Pools, next: Pools, after: Pools, path: seq<Token>, amounts: seq<int>)
    requires |amounts| == |path| >= 2
    requires TradedAt(pools, after, path[0], path[1], amounts[0], amounts[1])
    requires SameFromSecondHop(pools, next, path)
    requires TradedOnce(next, after, path[1..], amounts[1..])
    ensures TradedOnce(pools, after, path, amounts)
  {
    hide HopReserves;
    forall i | 0 <= i < |path| - 1
      ensures TradedAt(pools, after, path[i], path[i + 1], amounts[i], amounts[i + 1])
    {
      if i > 0 {
        var (tail, rest) := (path[1..], amounts[1..]);
        assert TradedAt(next, after, tail[i - 1], tail[i - 1 + 1], rest[i - 1], rest[i - 1 + 1]);
      }
    }
  }
}
