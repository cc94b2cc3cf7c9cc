/** Addresses as text: plain hex, and the mixed-case form whose letter cases are a checksum (EIP-55). The
hash is an arbitrary function of the lower-case digits. */
module EthAddress {
  import opened Bytes
  import opened Options
  import opened Hex

  type Hash = string -> Bytes32

  function ParseHexAddress(s: string): Option<Address> {
    var body := StripPrefix(s);
    if |body| != 40 then None
    else
      var bytes :- Unhex(body);
      UnhexLength(body);
      Some(bytes)
  }

  lemma {:induction false} UnhexLength(s: string)
    ensures Unhex(s).Some? ==> 2 * |Unhex(s).value| == |s|
  {
    if |s| >= 2 {
      UnhexLength(s[2..]);
    }
  }

  predicate IsMixed(s: string) {
    && (exists i | 0 <= i < |s| :: 'A' <= s[i] <= 'Z')
    && (exists i | 0 <= i < |s| :: 'a' <= s[i] <= 'z')
  }

  function ParseFlexible(hash: Hash, s: string, validateChecksum: bool): Option<Address> {
    var body := StripPrefix(s);
    if |body| != 40 || !AllXDigits(body) then None
    else
      var addr :- ParseHexAddress(ToLower(body));
      if validateChecksum && IsMixed(body) && Checksum(hash, addr) != body then None else Some(addr)
  }

  function Cased(digit: int, weight: int): char
    requires 0 <= digit < 16
  {
    if weight >= 8 then UPPER[digit] else LOWER[digit]
  }

  function CasedHex(bytes: seq<byte>, h: seq<byte>): string
    requires |bytes| <= |h|
  {
    if bytes == [] then ""
    else [Cased(bytes[0] / 16, h[0] / 16), Cased(bytes[0] % 16, h[0] % 16)] + CasedHex(bytes[1..], h[1..])
  }

  /** The 40 digits of the checksum form. */
  function Checksum(hash: Hash, addr: Address): string {
    CasedHex(addr, hash(HexOf(addr)))
  }

  lemma {:induction false} CasedHexSnoc(bytes: seq<byte>, h: seq<byte>)
    requires 0 < |bytes| <= |h|
    ensures var n := |bytes| - 1;
            CasedHex(bytes, h)
            == CasedHex(bytes[..n], h) + [Cased(bytes[n] / 16, h[n] / 16), Cased(bytes[n] % 16, h[n] % 16)]
  {
    var n := |bytes| - 1;
    if n > 0 {
      CasedHexSnoc(bytes[1..], h[1..]);
      assert bytes[..n][1..] == bytes[1..][..n - 1];
    } else {
      assert CasedHex(bytes[1..], h[1..]) == "" && bytes[..0] == [];
    }
  }

  /** The printing loop: two digits per byte, each in the case its hash digit asks for. */
  method ToChecksumHex(hash: Hash, addr: Address) returns (out: string)
    ensures out == "0x" + Checksum(hash, addr)
  {
    var h := hash(HexOf(addr));
    out := "0x";
    var i := 0;
    assert addr[..0] == [];
    while i < |addr|
      invariant 0 <= i <= |addr|
      invariant out == "0x" + CasedHex(addr[..i], h)
    {
      CasedHexSnoc(addr[..i + 1], h);
      assert addr[..i + 1][..i] == addr[..i];
      out := out + [Cased(addr[i] / 16, h[i] / 16)];
      out := out + [Cased(addr[i] % 16, h[i] % 16)];
      i := i + 1;
    }
    assert addr[..i] == addr;
  }

  lemma {:induction false} CasedHexDecodes(bytes: seq<byte>, h: seq<byte>)
    requires |bytes| <= |h|
    ensures |CasedHex(bytes, h)| == 2 * |bytes|
    ensures AllXDigits(CasedHex(bytes, h))
    ensures ToLower(CasedHex(bytes, h)) == HexOf(bytes)
  {
    if bytes != [] {
      CasedHexDecodes(bytes[1..], h[1..]);
      Digits(bytes[0] / 16);
      Digits(bytes[0] % 16);
      var s := CasedHex(bytes, h);
      assert s[1..][1..] == s[2..] == CasedHex(bytes[1..], h[1..]);
      assert ToLower(s[1..]) == [ToLowerChar(s[1])] + ToLower(s[1..][1..]);
    }
  }

  lemma XDigitsHaveNoPrefix(s: string)
    requires AllXDigits(s)
    ensures !HasPrefix(s)
  {
  }

  lemma LowerDigit(c: char)
    ensures DigitValue(ToLowerChar(c)) == DigitValue(c)
  {
  }

  lemma {:induction false} LowerKeepsUnhex(s: string)
    ensures |ToLower(s)| == |s|
    ensures Unhex(ToLower(s)) == Unhex(s)
    ensures AllXDigits(s) ==> AllXDigits(ToLower(s))
  {
    if |s| == 1 {
      assert ToLower(s) == [ToLowerChar(s[0])] + ToLower(s[1..]);
      assert s[1..] == "";
      LowerDigit(s[0]);
    } else if |s| >= 2 {
      LowerKeepsUnhex(s[2..]);
      assert ToLower(s[1..]) == [ToLowerChar(s[1])] + ToLower(s[1..][1..]);
      assert s[1..][1..] == s[2..];
      assert ToLower(s)[2..] == ToLower(s[2..]);
      LowerDigit(s[0]);
      LowerDigit(s[1]);
      forall i | 0 <= i < |s| && AllXDigits(s)
        ensures IsXDigit(ToLower(s)[i])
      {
        if i >= 2 {
          assert s[2..][i - 2] == s[i];
          assert ToLower(s)[i] == ToLower(s[2..])[i - 2];
        }
      }
    }
  }

  lemma {:induction false} UnhexNeedsDigits(s: string)
    ensures Unhex(s).Some? ==> AllXDigits(s)
  {
    if |s| >= 2 {
      UnhexNeedsDigits(s[2..]);
      forall i | 0 <= i < |s| && Unhex(s).Some?
        ensures IsXDigit(s[i])
      {
        if i >= 2 {
          assert s[2..][i - 2] == s[i];
        }
      }
    }
  }

  /** Apart from the checksum the flexible parser is the plain one. */
  lemma FlexibleIsPlain(hash: Hash, s: string, validateChecksum: bool)
    requires !validateChecksum || !IsMixed(StripPrefix(s))
    ensures ParseFlexible(hash, s, validateChecksum) == ParseHexAddress(s)
  {
    hide IsMixed;
    var body := StripPrefix(s);
    LowerKeepsUnhex(body);
    UnhexNeedsDigits(body);
    if AllXDigits(body) {
      XDigitsHaveNoPrefix(ToLower(body));
    }
  }

  /** A mixed-case string is accepted exactly when it is the checksum form of the address it decodes to. */
  lemma MixedCaseAcceptedIff(hash: Hash, s: string, addr: Address)
    requires IsMixed(StripPrefix(s))
    ensures ParseFlexible(hash, s, true) == Some(addr)
            <==> ParseHexAddress(s) == Some(addr) && StripPrefix(s) == Checksum(hash, addr)
  {
    hide IsMixed, Checksum;
    FlexibleIsPlain(hash, s, false);
  }

  /** Reading the printed checksum form gives back the address, for every address and every hash. */
  lemma ChecksumRoundTrip(hash: Hash, addr: Address)
    ensures ParseFlexible(hash, "0x" + Checksum(hash, addr), true) == Some(addr)
  {
    hide IsMixed;
    var s := "0x" + Checksum(hash, addr);
    assert StripPrefix(s) == Checksum(hash, addr);
    CasedHexDecodes(addr, hash(HexOf(addr)));
    HexRoundTrip(addr);
    HexHasNoPrefix(addr);
  }

  /** Only one address has a given checksum form. */
  lemma ChecksumIsInjective(hash: Hash, a: Address, b: Address)
    requires Checksum(hash, a) == Checksum(hash, b)
    ensures a == b
  {
    ChecksumRoundTrip(hash, a);
    ChecksumRoundTrip(hash, b);
  }
}
