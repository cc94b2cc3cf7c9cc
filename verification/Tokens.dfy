/** Token names: their order, the sorted pair of two names, and the key under which a pair is stored. */
module Tokens {
  import opened Results

  type Token = string

  /** `operator<` of the name type: lexicographic on characters. */
  predicate Less(a: Token, b: Token) {
    |b| > 0 && (|a| == 0 || a[0] < b[0] || (a[0] == b[0] && Less(a[1..], b[1..])))
  }

  lemma {:induction false} LessIsTotal(a: Token, b: Token)
    requires a != b
    ensures Less(a, b) <==> !Less(b, a)
    decreases |a|
  {
    if |a| > 0 && |b| > 0 && a[0] == b[0] {
      assert a == [a[0]] + a[1..] && b == [a[0]] + b[1..];
      LessIsTotal(a[1..], b[1..]);
    }
  }

  lemma {:induction false} LessIsIrreflexive(a: Token)
    ensures !Less(a, a)
  {
    if |a| > 0 {
      LessIsIrreflexive(a[1..]);
    }
  }

  function SortTokens(a: Token, b: Token): Result<(Token, Token)> {
    if a == "" || b == "" then Err(EmptyToken)
    else if a == b then Err(IdenticalTokens)
    else if Less(a, b) then Ok((a, b))
    else Ok((b, a))
  }

  function PairKey(token0: Token, token1: Token): string {
    token0 + "|" + token1
  }

  /** The name c runs over the bar of the key of a and b: it is a, a bar, and a first part of b up to a bar. */
  predicate Overlap(a: Token, b: Token, c: Token, d: Token) {
    |a| < |c| && c[..|a| + 1] == a + "|" && b == c[|a| + 1..] + "|" + d
  }

  predicate Collide(a: Token, b: Token, c: Token, d: Token) {
    Overlap(a, b, c, d) || Overlap(c, d, a, b)
  }

  /** Two ordered pairs of names have one key exactly when they are the same or one's first name runs over the
      other's bar. */
  lemma PairKeysEqualIff(a: Token, b: Token, c: Token, d: Token)
    ensures PairKey(a, b) == PairKey(c, d) <==> (a == c && b == d) || Collide(a, b, c, d)
  {
    if |a| <= |c| {
      PairKeysSplit(a, b, c, d);
    } else {
      PairKeysSplit(c, d, a, b);
    }
  }

  lemma PairKeysSplit(a: Token, b: Token, c: Token, d: Token)
    requires |a| <= |c|
    ensures PairKey(a, b) == PairKey(c, d) <==> (a == c && b == d) || Overlap(a, b, c, d)
  {
    var (k, l) := (PairKey(a, b), PairKey(c, d));
    assert k[..|a|] == a && k[..|a| + 1] == a + "|" && k[|a| + 1..] == b;
    if |a| < |c| {
      var x := c[|a| + 1..];
      assert c == c[..|a| + 1] + x && l == c[..|a| + 1] + (x + "|" + d);
      assert l[..|a| + 1] == c[..|a| + 1] && l[|a| + 1..] == x + "|" + d;
      assert k == k[..|a| + 1] + k[|a| + 1..] && l == l[..|a| + 1] + l[|a| + 1..];
    } else {
      assert l[..|c|] == c && l[|c| + 1..] == d;
    }
  }

  /** Names that cannot be confused inside a key. */
  predicate Plain(t: Token) {
    '|' !in t
  }

  /** Names without a bar never collide. */
  lemma PlainNamesNeverCollide(a: Token, b: Token, c: Token, d: Token)
    requires Plain(a) && Plain(c)
    ensures !Collide(a, b, c, d)
  {
    OverlapHasBar(a, b, c, d);
    OverlapHasBar(c, d, a, b);
  }

  lemma OverlapHasBar(a: Token, b: Token, c: Token, d: Token)
    ensures Overlap(a, b, c, d) ==> !Plain(c)
  {
    if Overlap(a, b, c, d) {
      assert c[|a|] == (a + "|")[|a|] == '|';
    }
  }

  /** Two pairs in sorted order under one key. */
  lemma PairKeyCollides()
    ensures SortTokens("a", "b|c") == Ok(("a", "b|c"))
    ensures SortTokens("a|b", "c") == Ok(("a|b", "c"))
    ensures PairKey("a", "b|c") == PairKey("a|b", "c") && Collide("a", "b|c", "a|b", "c")
  {
    assert Less("a", "b|c") && Less("a|b", "c");
  }

  lemma SortTokensIsSymmetric(a: Token, b: Token)
    ensures SortTokens(a, b) == SortTokens(b, a)
  {
    if a != b {
      LessIsTotal(a, b);
    }
  }

  /** Two calls reach the same stored pair exactly when they name the same two tokens or their sorted names
      collide. */
  lemma KeysAgree(a: Token, b: Token, c: Token, d: Token)
    requires SortTokens(a, b).Ok? && SortTokens(c, d).Ok?
    ensures var ((t0, t1), (u0, u1)) := (SortTokens(a, b).value, SortTokens(c, d).value);
            PairKey(t0, t1) == PairKey(u0, u1) <==> {a, b} == {c, d} || Collide(t0, t1, u0, u1)
  {
    var ((t0, t1), (u0, u1)) := (SortTokens(a, b).value, SortTokens(c, d).value);
    PairKeysEqualIff(t0, t1, u0, u1);
    SameNamesSortAlike(a, b, c, d);
  }

  lemma SameNamesSortAlike(a: Token, b: Token, c: Token, d: Token)
    requires SortTokens(a, b).Ok? && SortTokens(c, d).Ok?
    ensures {a, b} == {c, d} <==> SortTokens(a, b) == SortTokens(c, d)
  {
    var ((t0, t1), (u0, u1)) := (SortTokens(a, b).value, SortTokens(c, d).value);
    if {a, b} == {c, d} {
      assert a in {c, d} && b in {c, d};
      SortTokensIsSymmetric(c, d);
    }
    if (t0, t1) == (u0, u1) {
      assert {a, b} == {t0, t1} == {u0, u1} == {c, d};
    }
  }
}
