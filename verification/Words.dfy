/** Fixed-width unsigned arithmetic.

The engine computes in a 256-bit type whose operations wrap silently. Every formula below is
written once, over an `Arithmetic` that is either that wrapping one or plain integer arithmetic,
so that "wrapping never shows" can be stated as an equality between two readings of one formula. */
module Words {
  const MODULUS: int := 0x1_0000_0000_0000_0000_0000_0000_0000_0000_0000_0000_0000_0000_0000_0000_0000_0000

  type u256 = x: int | 0 <= x < MODULUS

  /** Wrapping: the 256-bit type of the code. Exact: unbounded integers. */
  datatype Arithmetic = Wrapping | Exact {
    function Fit(x: int): int {
      if Exact? then x else x % MODULUS
    }

    function Add(a: int, b: int): int { Fit(a + b) }
    function Sub(a: int, b: int): int { Fit(a - b) }
    function Mul(a: int, b: int): int { Fit(a * b) }
  }

  function Min(a: int, b: int): int { if b < a then b else a }

  lemma FitIsIdentity(ar: Arithmetic, x: int)
    requires 0 <= x < MODULUS
    ensures ar.Fit(x) == x
  {
  }

  lemma MulMono(a: int, b: int, c: int, d: int)
    requires 0 <= a <= b
    requires 0 <= c <= d
    ensures 0 <= a * c <= b * d
  {
    assert 0 <= a * c;
    assert 0 <= (b - a) * c;
    assert 0 <= b * (d - c);
    assert b * d - a * c == (b - a) * c + b * (d - c);
  }

  lemma MulStrict(a: int, b: int, c: int, d: int)
    requires 0 <= a < b
    requires 0 <= c < d
    ensures 0 <= a * c < b * d
  {
    MulMono(a, b - 1, c, d - 1);
    assert b * d == (b - 1) * (d - 1) + (b - 1) + (d - 1) + 1;
  }

  lemma Cancel(a: int, b: int, c: int)
    requires 0 < c
    requires a * c <= b * c
    ensures a <= b
  {
    assert a * c - b * c == (a - b) * c;
    if b < a {
      MulMono(1, a - b, 1, c);
    }
  }

  lemma DivReaches(n: int, d: int, q: int)
    requires 0 < d
    ensures q <= n / d <==> q * d <= n
  {
    assert n == d * (n / d) + n % d;
    var e := n / d;
    assert (e + 1) * d == d * e + d;
    if q <= e {
      Scale(q, e, d);
    } else {
      Scale(e + 1, q, d);
    }
  }

  lemma Scale(a: int, b: int, c: int)
    requires a <= b
    requires 0 <= c
    ensures a * c <= b * c
  {
    assert 0 <= (b - a) * c;
    assert b * c - a * c == (b - a) * c;
  }

  lemma DivNonNegative(n: int, d: int)
    requires 0 <= n
    requires 0 < d
    ensures 0 <= n / d <= n
  {
    DivReaches(n, d, 0);
    DivReaches(n, d, n + 1);
    MulMono(n + 1, n + 1, 1, d);
  }
}
