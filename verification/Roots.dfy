/** The integer square root of the first deposit, and when the loop that finds it ends. */
module Roots {
  import opened Words
  import opened Results

  /** Values from here on make the doubling loop of the code run forever. */
  const ROOT_LIMIT: int := 0x4000_0000_0000_0000_0000_0000_0000_0000_0000_0000_0000_0000_0000_0000_0000_0000

  /** Reference definition: count up while the next square still fits. */
  function FloorSqrt(v: int): (s: int)
    ensures 0 <= s
    ensures 0 <= v ==> s * s <= v < (s + 1) * (s + 1)
    decreases v
  {
    if v <= 0 then 0
    else
      var s := FloorSqrt(v - 1);
      if (s + 1) * (s + 1) <= v then s + 1 else s
  }

  lemma FloorSqrtIsUnique(v: int, s: int)
    requires 0 <= s
    requires s * s <= v < (s + 1) * (s + 1)
    ensures s == FloorSqrt(v)
  {
    var t := FloorSqrt(v);
    assert 0 <= s * s;
    if s < t {
      MulMono(s + 1, t, s + 1, t);
    } else if t < s {
      MulMono(t + 1, s, t + 1, s);
    }
  }

  function Pow2(k: nat): (r: int)
    ensures 0 < r
  {
    if k == 0 then 1 else 2 * Pow2(k - 1)
  }

  lemma {:induction false} Pow2Adds(j: nat, k: nat)
    ensures Pow2(j + k) == Pow2(j) * Pow2(k)
    decreases j
  {
    if j > 0 {
      Pow2Adds(j - 1, k);
      assert Pow2(j) * Pow2(k) == 2 * (Pow2(j - 1) * Pow2(k));
    }
  }

  lemma Pow2Of128()
    ensures Pow2(128) == 0x1_0000_0000_0000_0000_0000_0000_0000_0000
  {
    assert Pow2(4) == 16;
    Pow2Adds(4, 4);
    Pow2Adds(8, 8);
    Pow2Adds(16, 16);
    Pow2Adds(32, 32);
    Pow2Adds(64, 64);
  }

  lemma Pow2Facts()
    ensures Pow2(127) * Pow2(127) == ROOT_LIMIT
    ensures Pow2(256) == MODULUS
    ensures 2 * Pow2(127) == Pow2(128)
  {
    Pow2Of128();
    assert Pow2(128) == 2 * Pow2(127);
    Pow2Adds(128, 128);
  }

  lemma {:induction false} Pow2Mono(j: nat, k: nat)
    requires j <= k
    ensures Pow2(j) <= Pow2(k)
    decreases k - j
  {
    if j < k {
      Pow2Mono(j, k - 1);
    }
  }

  /** The variable `high` after k rounds of the doubling loop, in 256-bit arithmetic. */
  function High(k: nat): int {
    if k == 0 then 1 else Wrapping.Mul(2, High(k - 1))
  }

  /** The loop goes round again after k rounds. */
  predicate DoublesAgain(value: int, k: nat) {
    Wrapping.Mul(High(k), High(k)) <= value
  }

  lemma {:induction false} HighIsPow2(k: nat)
    ensures High(k) == if k < 256 then Pow2(k) else 0
  {
    if k > 0 {
      HighIsPow2(k - 1);
      DoublingStep(k);
    }
  }

  lemma DoublingStep(k: nat)
    requires 0 < k
    ensures Wrapping.Mul(2, if k - 1 < 256 then Pow2(k - 1) else 0) == if k < 256 then Pow2(k) else 0
  {
    Pow2Facts();
    assert Pow2(k) == 2 * Pow2(k - 1);
    if k < 256 {
      assert Pow2(k + 1) == 2 * Pow2(k);
      Pow2Mono(k + 1, 256);
    }
  }

  lemma HighSquared(k: nat)
    ensures k < 128 ==> Wrapping.Mul(High(k), High(k)) == Pow2(k) * Pow2(k) <= ROOT_LIMIT
    ensures 128 <= k ==> Wrapping.Mul(High(k), High(k)) == 0
  {
    HighIsPow2(k);
    if k < 128 {
      SmallSquare(k);
    } else if k < 256 {
      LargeSquare(k);
    }
  }

  lemma SmallSquare(k: nat)
    requires k < 128
    ensures Wrapping.Mul(Pow2(k), Pow2(k)) == Pow2(k) * Pow2(k) <= ROOT_LIMIT
  {
    Pow2Facts();
    Pow2Mono(k, 127);
    MulMono(Pow2(k), Pow2(127), Pow2(k), Pow2(127));
    FitIsIdentity(Wrapping, Pow2(k) * Pow2(k));
  }

  lemma LargeSquare(k: nat)
    requires 128 <= k
    ensures Wrapping.Mul(Pow2(k), Pow2(k)) == 0
  {
    Pow2Facts();
    Pow2Adds(k, k);
    Pow2Adds(2 * k - 256, 256);
    MultipleVanishes(Pow2(2 * k - 256));
  }

  lemma MultipleVanishes(c: int)
    ensures (c * MODULUS) % MODULUS == 0
  {
  }

  /** The doubling loop of the square root ends exactly for values below 2^254. */
  lemma DoublingEndsIff(value: u256)
    ensures (exists k: nat :: !DoublesAgain(value, k)) <==> value < ROOT_LIMIT
  {
    HighSquared(127);
    Pow2Facts();
    if value < ROOT_LIMIT {
      assert !DoublesAgain(value, 127);
    } else {
      forall k: nat
        ensures DoublesAgain(value, k)
      {
        HighSquared(k);
      }
    }
  }

  lemma DoublingRound(value: u256, k: nat)
    requires value < ROOT_LIMIT
    requires DoublesAgain(value, k)
    requires k <= 127
    ensures k < 127
    ensures High(k + 1) == Wrapping.Mul(2, High(k)) == Pow2(k + 1)
  {
    Pow2Facts();
    HighSquared(127);
    HighIsPow2(k + 1);
  }

  lemma DoublingDone(value: u256, k: nat)
    requires k <= 127
    requires !DoublesAgain(value, k)
    ensures value < Pow2(k) * Pow2(k)
    ensures Pow2(k) <= Pow2(127)
  {
    HighSquared(k);
    HighIsPow2(k);
    Pow2Mono(k, 127);
  }

  lemma MiddleFits(low: int, high: int)
    requires 0 <= low < high - 1
    requires high <= Pow2(127)
    ensures low < Wrapping.Add(low, high) / 2 < high
    ensures var mid := Wrapping.Add(low, high) / 2; Wrapping.Mul(mid, mid) == mid * mid
  {
    Pow2Of128();
    assert Pow2(128) == 2 * Pow2(127);
    FitIsIdentity(Wrapping, low + high);
    var mid := (low + high) / 2;
    MulMono(mid, Pow2(127), mid, Pow2(127));
    FitIsIdentity(Wrapping, mid * mid);
  }

  /** Doubling, then bisection, in 256-bit arithmetic: the floor of the square root, with no product wrapping. The
      doubling that has arrived at zero goes on for ever, which is what `NeverReturns` stands for. */
  method IntegerSqrt(value: u256) returns (root: Result<int>)
    ensures root == if value < ROOT_LIMIT then Ok(FloorSqrt(value)) else Err(NeverReturns)
  {
    hide FloorSqrt, Pow2;
    if value == 0 {
      FloorSqrtIsUnique(0, 0);
      return Ok(0);
    }
    var low, high := 0, 1;
    ghost var k: nat := 0;
    while Wrapping.Mul(high, high) <= value
      invariant k <= 256
      invariant value < ROOT_LIMIT ==> k <= 127
      invariant high == High(k)
      decreases 256 - k
    {
      HighIsPow2(k);
      if high == 0 {
        return Err(NeverReturns);
      }
      if value < ROOT_LIMIT {
        DoublingRound(value, k);
      }
      high := Wrapping.Mul(2, high);
      k := k + 1;
    }
    assert !DoublesAgain(value, k);
    DoublingEndsIff(value);
    DoublingDone(value, k);
    HighIsPow2(k);
    while low + 1 < high
      invariant 0 <= low < high <= Pow2(127)
      invariant low * low <= value < high * high
    {
      MiddleFits(low, high);
      var mid := Wrapping.Add(low, high) / 2;
      if Wrapping.Mul(mid, mid) <= value {
        low := mid;
      } else {
        high := mid;
      }
    }
    FloorSqrtIsUnique(value, low);
    return Ok(low);
  }
}
