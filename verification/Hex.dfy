/** Hexadecimal text and big-endian bytes. */
module Hex {
  import opened Words
  import opened Bytes
  import opened Options

  const LOWER: string := "0123456789abcdef"
  const UPPER: string := "0123456789ABCDEF"

  function DigitValue(c: char): Option<int> {
    if '0' <= c <= '9' then Some(c as int - '0' as int)
    else if 'a' <= c <= 'f' then Some(c as int - 'a' as int + 10)
    else if 'A' <= c <= 'F' then Some(c as int - 'A' as int + 10)
    else None
  }

  predicate IsXDigit(c: char) { DigitValue(c).Some? }

  predicate AllXDigits(s: string) {
    forall i | 0 <= i < |s| :: IsXDigit(s[i])
  }

  function ToLowerChar(c: char): char {
    if 'A' <= c <= 'Z' then (c as int + 32) as char else c
  }

  function ToLower(s: string): string {
    if s == "" then "" else [ToLowerChar(s[0])] + ToLower(s[1..])
  }

  lemma Digits(n: int)
    requires 0 <= n < 16
    ensures DigitValue(LOWER[n]) == DigitValue(UPPER[n]) == Some(n)
    ensures ToLowerChar(LOWER[n]) == ToLowerChar(UPPER[n]) == LOWER[n]
  {
  }

  /** Two lower-case digits per byte. */
  function HexOf(bytes: seq<byte>): string {
    if bytes == [] then "" else [LOWER[bytes[0] / 16], LOWER[bytes[0] % 16]] + HexOf(bytes[1..])
  }

  /** Strict decoding: rejects odd lengths and anything that is not a digit. */
  function Unhex(s: string): Option<seq<byte>> {
    if s == "" then Some([])
    else if |s| == 1 then None
    else
      var high :- DigitValue(s[0]);
      var low :- DigitValue(s[1]);
      var rest :- Unhex(s[2..]);
      Some([high * 16 + low] + rest)
  }

  lemma {:induction false} HexRoundTrip(bytes: seq<byte>)
    ensures |HexOf(bytes)| == 2 * |bytes|
    ensures Unhex(HexOf(bytes)) == Some(bytes)
    ensures AllXDigits(HexOf(bytes))
  {
    if bytes != [] {
      HexRoundTrip(bytes[1..]);
      Digits(bytes[0] / 16);
      Digits(bytes[0] % 16);
      assert HexOf(bytes)[2..] == HexOf(bytes[1..]);
      assert bytes == [bytes[0] / 16 * 16 + bytes[0] % 16] + bytes[1..];
    }
  }

  lemma HexIsInjective(a: seq<byte>, b: seq<byte>)
    requires HexOf(a) == HexOf(b)
    ensures a == b
  {
    HexRoundTrip(a);
    HexRoundTrip(b);
  }

  predicate HasPrefix(s: string) {
    |s| >= 2 && s[0] == '0' && (s[1] == 'x' || s[1] == 'X')
  }

  function StripPrefix(s: string): string {
    if HasPrefix(s) then s[2..] else s
  }

  function ToHex(bytes: seq<byte>, withPrefix: bool): string {
    if withPrefix then "0x" + HexOf(bytes) else HexOf(bytes)
  }

  function FromHex(s: string): Option<seq<byte>> {
    if |StripPrefix(s)| % 2 != 0 then None else Unhex(StripPrefix(s))
  }

  lemma HexHasNoPrefix(bytes: seq<byte>)
    ensures !HasPrefix(HexOf(bytes))
  {
    hide HexOf, Unhex;
    HexRoundTrip(bytes);
  }

  /** Printing bytes and reading them back gives the same bytes, with or without the prefix. */
  lemma FromHexAfterToHex(bytes: seq<byte>, withPrefix: bool)
    ensures FromHex(ToHex(bytes, withPrefix)) == Some(bytes)
  {
    hide HexOf, Unhex;
    HexRoundTrip(bytes);
    HexHasNoPrefix(bytes);
    assert ("0x" + HexOf(bytes))[2..] == HexOf(bytes);
  }

  // Big-endian numbers.

  function Pow256(n: nat): (p: int)
    ensures 0 < p
  {
    if n == 0 then 1 else 256 * Pow256(n - 1)
  }

  function BigEndian(v: nat, n: nat): (b: seq<byte>)
    ensures |b| == n
  {
    if n == 0 then [] else BigEndian(v / 256, n - 1) + [v % 256]
  }

  /** Big-endian bytes without leading zeros; zero is one zero byte. */
  function ExportBits(v: nat): seq<byte> {
    if v < 256 then [v] else ExportBits(v / 256) + [v % 256]
  }

  function Zeros(n: nat): (z: seq<byte>)
    ensures |z| == n
  {
    if n == 0 then [] else [0] + Zeros(n - 1)
  }

  function Value(b: seq<byte>): int {
    if b == [] then 0 else Value(b[..|b| - 1]) * 256 + b[|b| - 1]
  }

  lemma {:induction false} ValueOfBigEndian(v: nat, n: nat)
    requires v < Pow256(n)
    ensures Value(BigEndian(v, n)) == v
  {
    if n > 0 {
      ValueOfBigEndian(v / 256, n - 1);
      assert BigEndian(v, n)[..n - 1] == BigEndian(v / 256, n - 1);
    }
  }

  lemma {:induction false} ValueBound(b: seq<byte>)
    ensures 0 <= Value(b) < Pow256(|b|)
  {
    if b != [] {
      ValueBound(b[..|b| - 1]);
    }
  }

  lemma {:induction false} ZerosSnoc(n: nat)
    ensures Zeros(n + 1) == Zeros(n) + [0]
  {
    if n > 0 {
      ZerosSnoc(n - 1);
    }
  }

  lemma {:induction false} BigEndianOfZero(n: nat)
    ensures BigEndian(0, n) == Zeros(n)
  {
    if n > 0 {
      BigEndianOfZero(n - 1);
      ZerosSnoc(n - 1);
    }
  }

  /** Padding the minimal bytes on the left gives the fixed-width form. */
  lemma {:induction false} PaddedExport(v: nat, n: nat)
    requires 0 < n && v < Pow256(n)
    ensures |ExportBits(v)| <= n
    ensures Zeros(n - |ExportBits(v)|) + ExportBits(v) == BigEndian(v, n)
    decreases n
  {
    if v < 256 {
      assert v / 256 == 0;
      BigEndianOfZero(n - 1);
    } else {
      assert Pow256(n) == 256 * Pow256(n - 1) && Pow256(0) == 1;
      PaddedExport(v / 256, n - 1);
      var front := ExportBits(v / 256);
      assert Zeros(n - 1 - |front|) + (front + [v % 256]) == (Zeros(n - 1 - |front|) + front) + [v % 256];
    }
  }

  lemma {:induction false} Pow256Adds(j: nat, k: nat)
    ensures Pow256(j + k) == Pow256(j) * Pow256(k)
    decreases j
  {
    if j > 0 {
      Pow256Adds(j - 1, k);
      assert Pow256(j) * Pow256(k) == 256 * (Pow256(j - 1) * Pow256(k));
    }
  }

  lemma Pow256Of32()
    ensures Pow256(32) == MODULUS
  {
    assert Pow256(2) == 0x1_0000;
    Pow256Adds(2, 2);
    Pow256Adds(4, 4);
    Pow256Adds(8, 8);
    Pow256Adds(16, 16);
  }

  lemma {:induction false} Pow256Mono(j: nat, k: nat)
    requires j <= k
    ensures Pow256(j) <= Pow256(k)
    decreases k - j
  {
    if j < k {
      Pow256Mono(j, k - 1);
    }
  }

  function U256Bytes(v: u256): Bytes32 {
    BigEndian(v, 32)
  }

  lemma U256BytesInjective(v: u256, w: u256)
    requires U256Bytes(v) == U256Bytes(w)
    ensures v == w
  {
    Pow256Of32();
    ValueOfBigEndian(v, 32);
    ValueOfBigEndian(w, 32);
  }

  /** The number printed as 64 digits: minimal bytes, padded on the left, then hex. */
  method U256ToHex(v: u256, withPrefix: bool) returns (s: string)
    ensures s == ToHex(U256Bytes(v), withPrefix)
  {
    hide HexOf, BigEndian, Zeros;
    Pow256Of32();
    PaddedExport(v, 32);
    var bytes := ExportBits(v);
    assert |bytes| == 32 ==> Zeros(0) + bytes == bytes;
    if |bytes| < 32 {
      bytes := Zeros(32 - |bytes|) + bytes;
    }
    s := ToHex(bytes, withPrefix);
  }

  predicate IsSpace(c: char) {
    c == ' ' || '\t' <= c <= '\r'
  }

  /** Numbers as text. Decimal text is read by a library, here an arbitrary function. */
  function U256FromHexOrDecimal(decimal: string -> Option<u256>, s: string): Option<int> {
    if s == "" || (exists i | 0 <= i < |s| :: IsSpace(s[i])) || s[0] == '-' then None
    else if HasPrefix(s) then
      var bytes :- FromHex(s);
      if bytes == [] || |bytes| > 32 then None else Some(Value(bytes))
    else decimal(s)
  }

  /** The hex loop in 256-bit arithmetic: shift left by a byte and put the next byte into the freed bits.
      With at most 32 bytes nothing is shifted out. */
  method FoldBytes(bytes: seq<byte>) returns (val: u256)
    requires |bytes| <= 32
    ensures val == Value(bytes)
  {
    val := 0;
    var i := 0;
    while i < |bytes|
      invariant 0 <= i <= |bytes|
      invariant val == Value(bytes[..i])
    {
      assert bytes[..i + 1][..i] == bytes[..i];
      ValueBound(bytes[..i + 1]);
      Pow256Mono(i + 1, 32);
      Pow256Of32();
      FitIsIdentity(Wrapping, val * 256);
      val := Wrapping.Mul(val, 256) + bytes[i];
      i := i + 1;
    }
    assert bytes[..i] == bytes;
  }

  /** Every 256-bit number printed in hex reads back as itself. */
  lemma U256RoundTrip(decimal: string -> Option<u256>, v: u256)
    ensures U256FromHexOrDecimal(decimal, ToHex(U256Bytes(v), true)) == Some(v)
  {
    hide HexOf, BigEndian, Value, Unhex;
    var s := ToHex(U256Bytes(v), true);
    HexRoundTrip(U256Bytes(v));
    FromHexAfterToHex(U256Bytes(v), true);
    Pow256Of32();
    ValueOfBigEndian(v, 32);
    forall i | 0 <= i < |s|
      ensures !IsSpace(s[i])
    {
      if 2 <= i {
        assert s[i] == HexOf(U256Bytes(v))[i - 2];
      }
    }
  }

  /** Up to 32 bytes of hex, padded on the left to a hash. */
  function FromHexToHash(s: string): Option<Bytes32> {
    var bytes :- FromHex(s);
    if |bytes| > 32 then None else Some(Zeros(32 - |bytes|) + bytes)
  }

  /** A hash printed in hex reads back as itself. */
  lemma HashRoundTrip(h: Bytes32, withPrefix: bool)
    ensures FromHexToHash(ToHex(h, withPrefix)) == Some(h)
  {
    hide HexOf, Unhex;
    FromHexAfterToHex(h, withPrefix);
    assert Zeros(0) + h == h;
  }

  // Keys.

  /** The lock key of a payment. */
  function UniquePaymentKey(separator: string, from: Address, nonce: Bytes32): string {
    separator + "_" + ToHex(from, false) + "_" + ToHex(nonce, false)
  }

  /** Two payments share a lock key exactly when separator, payer and nonce agree. */
  lemma UniquePaymentKeyIsInjective(s: string, from: Address, nonce: Bytes32, s': string, from': Address, nonce': Bytes32)
    requires UniquePaymentKey(s, from, nonce) == UniquePaymentKey(s', from', nonce')
    ensures s == s' && from == from' && nonce == nonce'
  {
    hide HexOf;
    HexRoundTrip(from);
    HexRoundTrip(from');
    HexRoundTrip(nonce);
    HexRoundTrip(nonce');
    var k := UniquePaymentKey(s, from, nonce);
    var n := |k|;
    assert HexOf(nonce) == k[n - 64..] == HexOf(nonce');
    assert HexOf(from) == k[n - 105..n - 65] == HexOf(from');
    assert s == k[..n - 106] == s';
    HexIsInjective(from, from');
    HexIsInjective(nonce, nonce');
  }
}
