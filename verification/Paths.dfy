/** Swaps along any path, pairs used more than once included. Every hop is quoted on the reserves at the start, so
a later hop may find its pair unable to pay, and a pair may end with less than its shares were worth. */
module Paths {
  import opened Words
  import opened Tokens
  import opened Sums
  import opened Market
  import opened Quotes
  import opened Liquidity
  import opened Totals
  import opened Trading

  /** What a hop from a to b does to a reserve of the pair under `key`: the first one or the second. */
  function Effect(a: Token, b: Token, x: int, y: int, key: string, first: bool): int {
    if HopKey(a, b) != key then 0 else if Forward(a, b) == first then x else -y
  }

  /** What the hops before hop i do to the reserve that pays hop i. */
  function Net(path: seq<Token>, amounts: seq<int>, i: nat): int
    requires |amounts| == |path|
    requires i < |path| - 1
  {
    if i == 0 then 0
    else
      Effect(path[0], path[1], amounts[0], amounts[1], HopKey(path[i], path[i + 1]), !Forward(path[i], path[i + 1]))
      + Net(path[1..], amounts[1..], i - 1)
  }

  predicate PathExists(pools: Pools, path: seq<Token>) {
    forall i | 0 <= i < |path| - 1 :: HopReserves(pools, path[i], path[i + 1]).Ok?
  }

  /** A check on the starting reserves alone: each hop's output is below what its pair will then hold. */
  predicate Payable(pools: Pools, path: seq<Token>, amounts: seq<int>)
    requires |amounts| == |path|
    requires PathExists(pools, path)
  {
    forall i | 0 <= i < |path| - 1 :: Pays(pools, path, amounts, i)
  }

  predicate Pays(pools: Pools, path: seq<Token>, amounts: seq<int>, i: nat)
    requires |amounts| == |path|
    requires PathExists(pools, path)
    requires i < |path| - 1
  {
    amounts[i + 1] < HopReserves(pools, path[i], path[i + 1]).value.1 + Net(path, amounts, i)
  }

  lemma HopEffect(pools: Pools, a: Token, b: Token, x: int, y: int, c: Token, d: Token)
    requires HopReserves(pools, c, d).Ok?
    requires Hop(Exact, pools, a, b, x, y).Ok?
    ensures var next := Hop(Exact, pools, a, b, x, y).value;
            && HopReserves(next, c, d).Ok?
            && HopReserves(next, c, d).value.1
               == HopReserves(pools, c, d).value.1 + Effect(a, b, x, y, HopKey(c, d), !Forward(c, d))
  {
    FoundKey(pools, a, b);
    FoundKey(pools, c, d);
  }

  /** The hops that are applied are exactly those before the first that cannot be paid. */
  lemma {:induction false} AppliedUntilUnpaid(pools: Pools, path: seq<Token>, amounts: seq<int>)
    requires |amounts| == |path| >= 1
    requires PathExists(pools, path)
    ensures var n := Applied(pools, path, amounts);
            && (forall i: nat | i < n :: Pays(pools, path, amounts, i))
            && (n < |path| - 1 ==> !Pays(pools, path, amounts, n))
    decreases |path|
  {
    hide Hop, HopReserves, Effect;
    if |path| > 1 {
      var (a, b, x, y) := (path[0], path[1], amounts[0], amounts[1]);
      assert HopReserves(pools, path[0], path[0 + 1]).Ok?;
      assert Net(path, amounts, 0) == 0;
      HopThrowsIff(pools, a, b, x, y);
      if Hop(Exact, pools, a, b, x, y).Ok? {
        var next := Hop(Exact, pools, a, b, x, y).value;
        PathAfterHop(pools, path, amounts);
        AppliedUntilUnpaid(next, path[1..], amounts[1..]);
        PaysLater(pools, next, path, amounts);
        var n := Applied(next, path[1..], amounts[1..]);
        forall i: nat | i < n + 1
          ensures Pays(pools, path, amounts, i)
        {
          if i > 0 {
            assert Pays(next, path[1..], amounts[1..], i - 1);
            assert Pays(next, path[1..], amounts[1..], i - 1) <==> Pays(pools, path, amounts, i - 1 + 1);
          }
        }
      }
    }
  }

  lemma {:induction false} AppliedIff(pools: Pools, path: seq<Token>, amounts: seq<int>)
    requires |amounts| == |path| >= 1
    ensures Hops(Exact, pools, path, amounts).1.Ok? <==> Applied(pools, path, amounts) == |path| - 1
    decreases |path|
  {
    hide Hop;
    if |path| > 1 && Hop(Exact, pools, path[0], path[1], amounts[0], amounts[1]).Ok? {
      AppliedIff(Hop(Exact, pools, path[0], path[1], amounts[0], amounts[1]).value, path[1..], amounts[1..]);
    }
  }

  /** The hops of a swap all succeed exactly when the path is payable. */
  lemma HopsSucceedIff(pools: Pools, path: seq<Token>, amounts: seq<int>)
    requires |amounts| == |path| >= 1
    requires PathExists(pools, path)
    ensures Hops(Exact, pools, path, amounts).1.Ok? <==> Payable(pools, path, amounts)
  {
    hide Pays, PathExists;
    AppliedUntilUnpaid(pools, path, amounts);
    AppliedIff(pools, path, amounts);
  }

  lemma HopThrowsIff(pools: Pools, a: Token, b: Token, x: int, y: int)
    requires HopReserves(pools, a, b).Ok?
    ensures Hop(Exact, pools, a, b, x, y).Ok? <==> y < HopReserves(pools, a, b).value.1
  {
  }

  /** What the first hop does to the reserves that pay the hops after it. */
  predicate Shifted(pools: Pools, next: Pools, path: seq<Token>, amounts: seq<int>)
    requires |amounts| == |path| >= 2
    requires PathExists(pools, path) && PathExists(next, path[1..])
  {
    forall i | 0 <= i < |path[1..]| - 1 ::
      && HopReserves(pools, path[1..][i], path[1..][i + 1]).Ok?
      && HopReserves(next, path[1..][i], path[1..][i + 1]).value.1
         == HopReserves(pools, path[1..][i], path[1..][i + 1]).value.1
            + Effect(path[0], path[1], amounts[0], amounts[1],
                     HopKey(path[1..][i], path[1..][i + 1]), !Forward(path[1..][i], path[1..][i + 1]))
  }

  lemma PathAfterHop(pools: Pools, path: seq<Token>, amounts: seq<int>)
    requires |amounts| == |path| >= 2
    requires PathExists(pools, path)
    requires Hop(Exact, pools, path[0], path[1], amounts[0], amounts[1]).Ok?
    ensures var next := Hop(Exact, pools, path[0], path[1], amounts[0], amounts[1]).value;
            PathExists(next, path[1..]) && Shifted(pools, next, path, amounts)
  {
    hide Hop, HopReserves, Effect;
    var (a, b, x, y) := (path[0], path[1], amounts[0], amounts[1]);
    var next := Hop(Exact, pools, a, b, x, y).value;
    var tail := path[1..];
    assert HopReserves(pools, path[0], path[0 + 1]).Ok?;
    HopEffect(pools, a, b, x, y, a, b);
    forall i | 0 <= i < |tail| - 1
      ensures HopReserves(next, tail[i], tail[i + 1]).Ok? && HopReserves(pools, tail[i], tail[i + 1]).Ok?
      ensures HopReserves(next, tail[i], tail[i + 1]).value.1
              == HopReserves(pools, tail[i], tail[i + 1]).value.1
                 + Effect(a, b, x, y, HopKey(tail[i], tail[i + 1]), !Forward(tail[i], tail[i + 1]))
    {
      assert HopReserves(pools, path[i + 1], path[i + 1 + 1]).Ok?;
      HopEffect(pools, a, b, x, y, tail[i], tail[i + 1]);
    }
  }

  lemma PaysLater(pools: Pools, next: Pools, path: seq<Token>, amounts: seq<int>)
    requires |amounts| == |path| >= 2
    requires PathExists(pools, path) && PathExists(next, path[1..])
    requires Shifted(pools, next, path, amounts)
    ensures forall i: nat | i < |path| - 2 :: Pays(next, path[1..], amounts[1..], i) <==> Pays(pools, path, amounts, i + 1)
  {
    hide HopReserves, Effect;
    var (tail, rest) := (path[1..], amounts[1..]);
    forall i: nat | i < |path| - 2
      ensures Pays(next, tail, rest, i) <==> Pays(pools, path, amounts, i + 1)
    {
      assert tail[i] == path[i + 1] && tail[i + 1] == path[i + 1 + 1] && rest[i + 1] == amounts[i + 1 + 1];
    }
  }

  // What the hops leave in each pair.

  /** What all hops together do to a reserve of the pair under `key`. */
  function NetAll(path: seq<Token>, amounts: seq<int>, key: string, first: bool): int
    requires |amounts| == |path|
  {
    if |path| < 2 then 0
    else Effect(path[0], path[1], amounts[0], amounts[1], key, first) + NetAll(path[1..], amounts[1..], key, first)
  }

  function Shift(p: Pair, d0: int, d1: int): Pair {
    Pair(p.token0, p.token1, p.reserve0 + d0, p.reserve1 + d1, p.totalSupply, p.lp)
  }

  /** The pair under `key` after all hops of a path. */
  function Netted(key: string, p: Pair, path: seq<Token>, amounts: seq<int>): Pair
    requires |amounts| == |path|
  {
    Shift(p, NetAll(path, amounts, key, true), NetAll(path, amounts, key, false))
  }

  lemma HopShifts(pools: Pools, a: Token, b: Token, x: int, y: int, k: string)
    requires k in pools
    requires Hop(Exact, pools, a, b, x, y).Ok?
    ensures var next := Hop(Exact, pools, a, b, x, y).value;
            && k in next
            && next[k] == Shift(pools[k], Effect(a, b, x, y, k, true), Effect(a, b, x, y, k, false))
  {
    FoundKey(pools, a, b);
  }

  /** After a swap every pair holds what it held plus the net effect of the path, computed before the swap. */
  lemma {:induction false} HopsNet(pools: Pools, path: seq<Token>, amounts: seq<int>, k: string)
    requires k in pools
    requires |amounts| == |path| >= 1
    requires Hops(Exact, pools, path, amounts).1.Ok?
    ensures k in Hops(Exact, pools, path, amounts).0
    ensures Hops(Exact, pools, path, amounts).0[k] == Netted(k, pools[k], path, amounts)
    decreases |path|
  {
    hide Hop, Effect;
    if |path| > 1 {
      HopShifts(pools, path[0], path[1], amounts[0], amounts[1], k);
      HopsNet(Hop(Exact, pools, path[0], path[1], amounts[0], amounts[1]).value, path[1..], amounts[1..], k);
    }
  }

  /** `PairOk` without the bound on the supply, which hops may break for a while. */
  ghost predicate PairLoose(p: Pair) {
    && 0 <= p.totalSupply && 0 <= p.reserve0 && 0 <= p.reserve1
    && (p.totalSupply == 0 ==> p.reserve0 == 0 && p.reserve1 == 0)
    && (0 < p.totalSupply ==> 0 < p.reserve0 && 0 < p.reserve1)
    && NonNegative(p.lp)
    && Sum(p.lp) == p.totalSupply
  }

  ghost predicate PoolsLoose(pools: Pools) {
    forall k | k in pools :: PairLoose(pools[k])
  }

  lemma HopStaysLoose(pools: Pools, a: Token, b: Token, x: int, y: int)
    requires PoolsLoose(pools) && 0 <= x && 0 <= y
    requires Hop(Exact, pools, a, b, x, y).Ok?
    ensures PoolsLoose(Hop(Exact, pools, a, b, x, y).value)
  {
  }

  lemma {:induction false} HopsStayLoose(pools: Pools, path: seq<Token>, amounts: seq<int>)
    requires PoolsLoose(pools)
    requires |amounts| == |path| && AllNonNegative(amounts)
    ensures PoolsLoose(Hops(Exact, pools, path, amounts).0)
    decreases |path|
  {
    hide Hop, PoolsLoose;
    if |path| > 1 && Hop(Exact, pools, path[0], path[1], amounts[0], amounts[1]).Ok? {
      HopStaysLoose(pools, path[0], path[1], amounts[0], amounts[1]);
      HopsStayLoose(Hop(Exact, pools, path[0], path[1], amounts[0], amounts[1]).value, path[1..], amounts[1..]);
    }
  }

  /** A check on the starting reserves alone: with the net effect of the path no pair's product falls. */
  predicate NetsKeep(pools: Pools, path: seq<Token>, amounts: seq<int>)
    requires |amounts| == |path|
  {
    forall k | k in pools :: NetKeeps(k, pools[k], path, amounts)
  }

  predicate NetKeeps(key: string, p: Pair, path: seq<Token>, amounts: seq<int>)
    requires |amounts| == |path|
  {
    p.reserve0 * p.reserve1
    <= (p.reserve0 + NetAll(path, amounts, key, true)) * (p.reserve1 + NetAll(path, amounts, key, false))
  }

  /** When all hops succeed, a pair's shares keep their value exactly when its net effect keeps its product. */
  lemma ShareKeptIff(pools: Pools, path: seq<Token>, amounts: seq<int>, k: string)
    requires PoolsOk(pools) && k in pools
    requires |amounts| == |path| >= 1 && AllNonNegative(amounts)
    requires Hops(Exact, pools, path, amounts).1.Ok?
    ensures var after := Hops(Exact, pools, path, amounts).0;
            && k in after
            && (ShareKept(pools[k], after[k]) <==> NetKeeps(k, pools[k], path, amounts))
            && (Improved(pools[k], after[k]) <==> NetKeeps(k, pools[k], path, amounts))
            && (NetKeeps(k, pools[k], path, amounts) ==> PairOk(after[k]))
  {
    hide Hops, NetAll, KeysOk;
    HopsNet(pools, path, amounts, k);
    assert PoolsLoose(pools);
    HopsStayLoose(pools, path, amounts);
    var (p, q) := (pools[k], Hops(Exact, pools, path, amounts).0[k]);
    assert PairLoose(q);
    ProductsDecide(p, q);
  }

  lemma ProductsDecide(p: Pair, q: Pair)
    requires PairOk(p) && PairLoose(q) && q.totalSupply == p.totalSupply && q.lp == p.lp
    ensures ShareKept(p, q) <==> p.reserve0 * p.reserve1 <= q.reserve0 * q.reserve1
    ensures ShareKept(p, q) ==> PairOk(q)
  {
    if p.totalSupply > 0 {
      var square := p.totalSupply * p.totalSupply;
      MulStrict(0, p.totalSupply, 0, p.totalSupply);
      if ShareKept(p, q) {
        Cancel(p.reserve0 * p.reserve1, q.reserve0 * q.reserve1, square);
      }
      if p.reserve0 * p.reserve1 <= q.reserve0 * q.reserve1 {
        Scale(p.reserve0 * p.reserve1, q.reserve0 * q.reserve1, square);
      }
    }
  }

  /** All hops succeed and keep all shares: the pools stay in order, and no product falls. */
  lemma HopsKeepPools(pools: Pools, path: seq<Token>, amounts: seq<int>)
    requires PoolsOk(pools)
    requires |amounts| == |path| >= 1 && AllNonNegative(amounts)
    requires Hops(Exact, pools, path, amounts).1.Ok?
    ensures var after := Hops(Exact, pools, path, amounts).0;
            && (AllImproved(pools, after) <==> NetsKeep(pools, path, amounts))
            && (NetsKeep(pools, path, amounts) ==> PoolsOk(after))
  {
    hide Hops, InPools, NetKeeps, PairOk, Improved, ShareKept;
    HopsMove(pools, path, amounts, path[0]);
    forall k | k in pools
      ensures Improved(pools[k], Hops(Exact, pools, path, amounts).0[k]) <==> NetKeeps(k, pools[k], path, amounts)
      ensures NetKeeps(k, pools[k], path, amounts) ==> PairOk(Hops(Exact, pools, path, amounts).0[k])
    {
      ShareKeptIff(pools, path, amounts, k);
    }
  }

  lemma FairPathExists(pools: Pools, path: seq<Token>, amounts: seq<int>)
    requires FairPath(pools, path, amounts) && 2 <= |path|
    ensures PathExists(pools, path) && AllNonNegative(amounts) && 0 < amounts[0]
    ensures FairHop(pools, path[0], path[0 + 1], amounts[0], amounts[0 + 1])
    ensures var last := |path| - 2; FairHop(pools, path[last], path[last + 1], amounts[last], amounts[last + 1])
  {
    hide FeeInvariant;
    var last := |path| - 2;
    assert FairHop(pools, path[0], path[0 + 1], amounts[0], amounts[0 + 1]);
    assert FairHop(pools, path[last], path[last + 1], amounts[last], amounts[last + 1]);
    forall i | 0 <= i < |path| - 1
      ensures HopReserves(pools, path[i], path[i + 1]).Ok? && 0 <= amounts[i]
    {
      assert FairHop(pools, path[i], path[i + 1], amounts[i], amounts[i + 1]);
    }
  }

  /** A path that uses no pair twice meets both conditions, for any fair amounts. */
  lemma DistinctPathsAreSafe(pools: Pools, path: seq<Token>, amounts: seq<int>)
    requires PoolsOk(pools) && DistinctHops(path)
    requires 2 <= |path|
    requires FairPath(pools, path, amounts)
    ensures PathExists(pools, path) && Payable(pools, path, amounts) && NetsKeep(pools, path, amounts)
  {
    hide Hops, PairOk, Improved, Payable, NetsKeep, FairHop, KeysOk;
    FairPathExists(pools, path, amounts);
    FairPathTrades(pools, path, amounts);
    HopsSucceedIff(pools, path, amounts);
    HopsKeepPools(pools, path, amounts);
  }
}
