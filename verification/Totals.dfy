/** Where the tokens are: per token, the sum over wallets plus the sum over reserves, and what moves it. */
module Totals {
  import opened Words
  import opened Results
  import opened Tokens
  import opened Sums
  import opened Bytes
  import opened Market
  import opened Quotes

  /** Every stored pair is in sorted order and sits under its own key. */
  predicate KeyOk(key: string, p: Pair) {
    && p.token0 != ""
    && Less(p.token0, p.token1)
    && key == PairKey(p.token0, p.token1)
  }

  predicate KeysOk(pools: Pools) {
    forall k | k in pools :: KeyOk(k, pools[k])
  }

  function Held(p: Pair, t: Token): int {
    if t == p.token0 then p.reserve0 else if t == p.token1 then p.reserve1 else 0
  }

  function BalanceColumn(w: Wallets, t: Token): map<Address, int> {
    map o | o in w :: BalanceOf(w, o, t)
  }

  function ReserveColumn(pools: Pools, t: Token): map<string, int> {
    map k | k in pools :: Held(pools[k], t)
  }

  ghost function InWallets(w: Wallets, t: Token): int { Sum(BalanceColumn(w, t)) }

  ghost function InPools(pools: Pools, t: Token): int { Sum(ReserveColumn(pools, t)) }

  ghost function Total(m: Market, t: Token): int { InWallets(m.wallets, t) + InPools(m.pools, t) }

  /** Amount a of token s counted towards token t. */
  function Of(s: Token, a: int, t: Token): int { if s == t then a else 0 }

  lemma SetBalanceMoves(w: Wallets, owner: Address, s: Token, amount: int, t: Token)
    ensures InWallets(SetBalance(w, owner, s, amount), t) == InWallets(w, t) + Of(s, amount - BalanceOf(w, owner, s), t)
  {
    var w' := SetBalance(w, owner, s, amount);
    assert BalanceColumn(w', t) == BalanceColumn(w, t)[owner := BalanceOf(w', owner, t)];
    SumUpdate(BalanceColumn(w, t), owner, BalanceOf(w', owner, t));
  }

  lemma SetPairMoves(pools: Pools, key: string, p: Pair, t: Token)
    ensures InPools(pools[key := p], t)
            == InPools(pools, t) + Held(p, t) - (if key in pools then Held(pools[key], t) else 0)
  {
    assert ReserveColumn(pools[key := p], t) == ReserveColumn(pools, t)[key := Held(p, t)];
    SumUpdate(ReserveColumn(pools, t), key, Held(p, t));
  }

  ghost predicate WalletsOk(w: Wallets) {
    forall o, t | o in w && t in w[o] :: 0 <= w[o][t]
  }

  lemma BalanceBounds(m: Market, owner: Address, t: Token)
    requires WalletsOk(m.wallets) && Stocked(m.pools)
    ensures 0 <= BalanceOf(m.wallets, owner, t) <= InWallets(m.wallets, t) <= Total(m, t)
  {
    SumBounds(BalanceColumn(m.wallets, t), owner);
    SumNonNegative(ReserveColumn(m.pools, t));
  }

  lemma ReserveBounds(pools: Pools, key: string, t: Token)
    requires Stocked(pools)
    requires key in pools
    ensures 0 <= Held(pools[key], t) <= InPools(pools, t)
  {
    SumBounds(ReserveColumn(pools, t), key);
  }

  lemma WalletsNonNegative(m: Market, t: Token)
    requires WalletsOk(m.wallets)
    ensures 0 <= InWallets(m.wallets, t)
  {
    SumNonNegative(BalanceColumn(m.wallets, t));
  }

  // Lookup.

  /** What is stored under the key of a and b, if anything, is the pair of a and b. */
  predicate Clear(pools: Pools, a: Token, b: Token) {
    SortTokens(a, b).Ok? ==>
      var (t0, t1) := SortTokens(a, b).value;
      var key := PairKey(t0, t1);
      key in pools ==> pools[key].token0 == t0 && pools[key].token1 == t1
  }

  /** A lookup is not clear exactly when it finds a pair whose names collide with its own. */
  lemma ClearIff(pools: Pools, a: Token, b: Token)
    requires KeysOk(pools)
    ensures !Clear(pools, a, b)
            <==> FindPair(pools, a, b).Ok?
                 && var ((t0, t1), (_, p)) := (SortTokens(a, b).value, FindPair(pools, a, b).value);
                    Collide(p.token0, p.token1, t0, t1)
  {
    if FindPair(pools, a, b).Ok? {
      var ((t0, t1), (_, p)) := (SortTokens(a, b).value, FindPair(pools, a, b).value);
      PairKeysEqualIff(p.token0, p.token1, t0, t1);
    }
  }

  predicate ClearPath(pools: Pools, path: seq<Token>) {
    forall i | 0 <= i < |path| - 1 :: Clear(pools, path[i], path[i + 1])
  }

  /** The key under which a hop looks its pair up. */
  function HopKey(a: Token, b: Token): string {
    if Forward(a, b) then PairKey(a, b) else PairKey(b, a)
  }

  /** The same pairs under the same keys. */
  predicate SameNames(pools: Pools, next: Pools) {
    && next.Keys == pools.Keys
    && forall k | k in pools :: next[k].token0 == pools[k].token0 && next[k].token1 == pools[k].token1
  }

  lemma FoundKey(pools: Pools, a: Token, b: Token)
    requires FindPair(pools, a, b).Ok?
    ensures HopKey(a, b) in pools && FindPair(pools, a, b) == Ok((HopKey(a, b), pools[HopKey(a, b)]))
    ensures a != b && a != "" && b != ""
  {
  }

  lemma FoundPair(pools: Pools, a: Token, b: Token)
    requires Clear(pools, a, b)
    requires FindPair(pools, a, b).Ok?
    ensures var (key, p) := FindPair(pools, a, b).value;
            && key in pools && p == pools[key] && a != b && a != "" && b != ""
            && SortTokens(a, b) == Ok((p.token0, p.token1))
            && (Forward(a, b) ==> p.token0 == a && p.token1 == b)
            && (!Forward(a, b) ==> p.token0 == b && p.token1 == a)
  {
  }

  // Hops.

  /** What a hop from a to b moves of token t beyond what its names say: it pays into and out of the stored pair's
      tokens. */
  function HopDrift(pools: Pools, a: Token, b: Token, x: int, y: int, t: Token): int {
    if FindPair(pools, a, b).Err? then 0
    else
      var (_, p) := FindPair(pools, a, b).value;
      var (u, v) := if Forward(a, b) then (p.token0, p.token1) else (p.token1, p.token0);
      Of(u, x, t) - Of(v, y, t) - Of(a, x, t) + Of(b, y, t)
  }

  /** The drift of the first n hops. */
  function Drift(pools: Pools, path: seq<Token>, amounts: seq<int>, n: nat, t: Token): int
    requires |amounts| == |path| && (n == 0 || n < |path|)
  {
    if n == 0 then 0
    else HopDrift(pools, path[0], path[1], amounts[0], amounts[1], t) + Drift(pools, path[1..], amounts[1..], n - 1, t)
  }

  /** A hop on the pair it names moves what its names say. */
  lemma {:induction false} ClearPathsDoNotDrift(pools: Pools, path: seq<Token>, amounts: seq<int>, n: nat, t: Token)
    requires ClearPath(pools, path) && |amounts| == |path| && (n == 0 || n < |path|)
    ensures Drift(pools, path, amounts, n, t) == 0
    decreases n
  {
    hide Clear;
    if n > 0 {
      assert Clear(pools, path[0], path[0 + 1]);
      if FindPair(pools, path[0], path[1]).Ok? {
        FoundPair(pools, path[0], path[1]);
      }
      forall i | 0 <= i < |path[1..]| - 1
        ensures Clear(pools, path[1..][i], path[1..][i + 1])
      {
        assert Clear(pools, path[i + 1], path[i + 1 + 1]);
      }
      ClearPathsDoNotDrift(pools, path[1..], amounts[1..], n - 1, t);
    }
  }

  lemma {:induction false} DriftStays(pools: Pools, next: Pools, path: seq<Token>, amounts: seq<int>, n: nat, t: Token)
    requires SameNames(pools, next) && |amounts| == |path| && (n == 0 || n < |path|)
    ensures Drift(next, path, amounts, n, t) == Drift(pools, path, amounts, n, t)
    decreases n
  {
    if n > 0 {
      DriftStays(pools, next, path[1..], amounts[1..], n - 1, t);
    }
  }

  /** A hop moves what goes in and what comes out, of the tokens it is stored under, and touches only its own pair. */
  lemma HopMoves(pools: Pools, a: Token, b: Token, x: int, y: int, t: Token)
    requires KeysOk(pools)
    requires Hop(Exact, pools, a, b, x, y).Ok?
    ensures var next := Hop(Exact, pools, a, b, x, y).value;
            && KeysOk(next) && SameNames(pools, next)
            && InPools(next, t) == InPools(pools, t) + Of(a, x, t) - Of(b, y, t) + HopDrift(pools, a, b, x, y, t)
  {
    hide InPools;
    var (key, p) := FindPair(pools, a, b).value;
    assert KeyOk(key, p);
    LessIsIrreflexive(p.token0);
    SetPairMoves(pools, key, Trade(Exact, p, Forward(a, b), x, y), t);
  }

  predicate AllNonNegative(amounts: seq<int>) {
    forall i | 0 <= i < |amounts| :: 0 <= amounts[i]
  }

  /** How many hops are applied: all of them, or those before the first that throws. */
  function Applied(pools: Pools, path: seq<Token>, amounts: seq<int>): (n: nat)
    requires |amounts| == |path| >= 1
    ensures n < |path|
  {
    if |path| < 2 then 0
    else
      match Hop(Exact, pools, path[0], path[1], amounts[0], amounts[1])
      case Err(_) => 0
      case Ok(next) => 1 + Applied(next, path[1..], amounts[1..])
  }

  /** Along any path, whether a hop throws or not, the pools gain the first amount and lose the amount that the
      last applied hop paid, but for the drift of the applied hops; what one hop pays the next receives. */
  lemma {:induction false} HopsMove(pools: Pools, path: seq<Token>, amounts: seq<int>, t: Token)
    requires KeysOk(pools)
    requires |amounts| == |path| >= 1
    ensures var (after, outcome) := Hops(Exact, pools, path, amounts);
            var n := Applied(pools, path, amounts);
            && KeysOk(after) && SameNames(pools, after)
            && (outcome.Ok? <==> n == |path| - 1)
            && InPools(after, t)
               == InPools(pools, t) + Of(path[0], amounts[0], t) - Of(path[n], amounts[n], t) + Drift(pools, path, amounts, n, t)
    decreases |path|
  {
    hide Hop, InPools, KeysOk, HopDrift;
    if |path| > 1 && Hop(Exact, pools, path[0], path[1], amounts[0], amounts[1]).Ok? {
      HopMoves(pools, path[0], path[1], amounts[0], amounts[1], t);
      var next := Hop(Exact, pools, path[0], path[1], amounts[0], amounts[1]).value;
      HopsMove(next, path[1..], amounts[1..], t);
      DriftStays(pools, next, path[1..], amounts[1..], Applied(next, path[1..], amounts[1..]), t);
    }
  }

  // Hops in 256-bit arithmetic.

  predicate AllBelow(amounts: seq<int>, bound: int) {
    forall i | 0 <= i < |amounts| :: 0 <= amounts[i] < bound
  }

  /** A path short enough for 256 bits: far longer than any memory. */
  predicate Fits(path: seq<Token>) {
    (1 + |path|) * CAP <= MODULUS
  }

  lemma HopFits(pools: Pools, a: Token, b: Token, x: int, y: int, bound: int)
    requires Below(pools, bound) && bound + CAP <= MODULUS && 0 <= x < CAP && 0 <= y
    ensures Hop(Wrapping, pools, a, b, x, y) == Hop(Exact, pools, a, b, x, y)
    ensures Hop(Exact, pools, a, b, x, y).Ok? ==> Below(Hop(Exact, pools, a, b, x, y).value, bound + CAP)
  {
    if FindPair(pools, a, b).Ok? {
      var (_, p) := FindPair(pools, a, b).value;
      var (reserveIn, reserveOut) := if Forward(a, b) then (p.reserve0, p.reserve1) else (p.reserve1, p.reserve0);
      FitIsIdentity(Wrapping, reserveIn + x);
      if y < reserveOut {
        FitIsIdentity(Wrapping, reserveOut - y);
      }
    }
  }

  /** A hop adds less than the bound to any reserve, so 256-bit hops are exact hops, whether they succeed or throw
      half-way, on any path that a machine can hold and under any names. */
  lemma {:induction false} HopsFit(pools: Pools, path: seq<Token>, amounts: seq<int>, bound: int)
    requires |amounts| == |path|
    requires Below(pools, bound) && AllBelow(amounts, CAP)
    requires bound + |path| * CAP <= MODULUS
    ensures Hops(Wrapping, pools, path, amounts) == Hops(Exact, pools, path, amounts)
    decreases |path|
  {
    hide Hop, Below;
    if |path| > 1 {
      HopFits(pools, path[0], path[1], amounts[0], amounts[1], bound);
      if Hop(Exact, pools, path[0], path[1], amounts[0], amounts[1]).Ok? {
        HopsFit(Hop(Exact, pools, path[0], path[1], amounts[0], amounts[1]).value, path[1..], amounts[1..], bound + CAP);
      }
    }
  }
}
