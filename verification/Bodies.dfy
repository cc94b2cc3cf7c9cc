/** The text in the bodies of replies. The JSON printer throws for a string that is not UTF-8. */
module Bodies {
  import opened Words
  import opened Bytes
  import opened Options
  import opened Hex

  predicate Continues(b: byte) { 0x80 <= b < 0xC0 }

  /** Well-formed UTF-8, as in section 4 of RFC 3629. */
  predicate Utf8(s: seq<byte>)
    decreases |s|
  {
    if s == [] then true
    else if s[0] < 0x80 then Utf8(s[1..])
    else if 0xC2 <= s[0] < 0xE0 then |s| >= 2 && Continues(s[1]) && Utf8(s[2..])
    else if 0xE0 <= s[0] < 0xF0 then
      && |s| >= 3 && Continues(s[1]) && Continues(s[2])
      && (s[0] == 0xE0 ==> 0xA0 <= s[1]) && (s[0] == 0xED ==> s[1] < 0xA0) && Utf8(s[3..])
    else
      && 0xF0 <= s[0] < 0xF5 && |s| >= 4 && Continues(s[1]) && Continues(s[2]) && Continues(s[3])
      && (s[0] == 0xF0 ==> 0x90 <= s[1]) && (s[0] == 0xF4 ==> s[1] < 0x90) && Utf8(s[4..])
  }

  predicate Ascii(s: string) {
    forall i | 0 <= i < |s| :: s[i] as int < 0x80
  }

  /** The bytes of a string whose characters are bytes. */
  function Text(s: string): (t: seq<byte>)
    ensures |t| == |s|
  {
    if s == "" then [] else [s[0] as int % 0x100] + Text(s[1..])
  }

  lemma {:induction false} AsciiIsUtf8(s: string)
    requires Ascii(s)
    ensures Utf8(Text(s))
  {
    if s != "" {
      AsciiIsUtf8(s[1..]);
    }
  }

  const DIGITS: string := "0123456789"

  function Decimal(n: nat): string {
    if n < 10 then [DIGITS[n]] else Decimal(n / 10) + [DIGITS[n % 10]]
  }

  lemma {:induction false} DecimalIsAscii(n: nat)
    ensures Ascii(Decimal(n))
  {
    if n >= 10 {
      DecimalIsAscii(n / 10);
    }
  }

  lemma HexIsAscii(bytes: seq<byte>)
    ensures Ascii("0x" + HexOf(bytes))
  {
    hide HexOf;
    HexRoundTrip(bytes);
    forall i | 0 <= i < |HexOf(bytes)|
      ensures HexOf(bytes)[i] as int < 0x80
    {
      assert IsXDigit(HexOf(bytes)[i]);
    }
  }

  // What a priced resource asks for.

  datatype Network = EasyNet | BaseSepolia | Base

  function NetworkName(n: Network): string {
    match n
    case EasyNet => "machinepal-easynet"
    case BaseSepolia => "base-sepolia"
    case Base => "base"
  }

  /** A configured resource with the network and the wallet it is paid on. */
  datatype Offer = Offer(location: seq<byte>, token: seq<byte>, price: u256, localFile: bool, network: Network, wallet: Address)

  const USDC: string := "USDC"

  function MimeType(f: Offer): string {
    if f.localFile then "application/octet-stream" else "application/json"
  }

  function TokenAddress(f: Offer): string {
    if f.token == Text(USDC) then "0x036CbD53842c5426634e7929541eC2318f3dCF7e" else ""
  }

  /** The string values of a payment-required body, in order: those of the requirements, and the error. Its other
      values are numbers, its keys are constants, the description is never set, and a version that is left out stands
      here as an empty string. */
  function Strings(f: Offer, error: seq<byte>): seq<seq<byte>> {
    [Text("exact"), Text(NetworkName(f.network)), Text(Decimal(f.price)), f.location, [], Text(MimeType(f)),
     Text("0x" + HexOf(f.wallet)), Text(TokenAddress(f)), f.token, Text(if f.token == Text(USDC) then "2" else ""), error]
  }

  predicate AllUtf8(strings: seq<seq<byte>>) {
    forall i | 0 <= i < |strings| :: Utf8(strings[i])
  }

  /** The body of a payment-required reply can be printed exactly when location, token and error are UTF-8. */
  lemma OfferPrintsIff(f: Offer, error: seq<byte>)
    ensures AllUtf8(Strings(f, error)) <==> Utf8(f.location) && Utf8(f.token) && Utf8(error)
  {
    hide Utf8, Text, HexOf, Decimal, NetworkName, MimeType, TokenAddress;
    ConstantsAreUtf8(f);
    DecimalIsAscii(f.price);
    AsciiIsUtf8(Decimal(f.price));
    HexIsAscii(f.wallet);
    AsciiIsUtf8("0x" + HexOf(f.wallet));
    var s := Strings(f, error);
    assert s[3] == f.location && s[8] == f.token && s[10] == error;
  }

  lemma ConstantsAreUtf8(f: Offer)
    ensures Utf8(Text("exact")) && Utf8([]) && Utf8(Text(if f.token == Text(USDC) then "2" else ""))
    ensures Utf8(Text(NetworkName(f.network))) && Utf8(Text(MimeType(f))) && Utf8(Text(TokenAddress(f)))
  {
    hide Utf8, Text, NetworkName;
    EmptyIsUtf8();
    AsciiIsUtf8("exact");
    NetworkIsAscii(f.network);
    AsciiIsUtf8(NetworkName(f.network));
    AsciiIsUtf8(MimeType(f));
    AsciiIsUtf8(TokenAddress(f));
    AsciiIsUtf8(if f.token == Text(USDC) then "2" else "");
  }

  lemma NetworkIsAscii(n: Network)
    ensures Ascii(NetworkName(n))
  {
  }

  lemma EmptyIsUtf8()
    ensures Utf8([])
  {
  }

  /** The body of an error: a payment-required body once a resource is known, else the message alone. */
  predicate Prints(offer: Option<Offer>, error: seq<byte>) {
    if offer.Some? then AllUtf8(Strings(offer.value, error)) else AllUtf8([error])
  }

  predicate Printable(f: Offer) { Utf8(f.location) && Utf8(f.token) }

  lemma PrintsIff(offer: Option<Offer>, error: seq<byte>)
    ensures Prints(offer, error) <==> Utf8(error) && (offer.Some? ==> Printable(offer.value))
  {
    hide Utf8, Strings;
    if offer.Some? {
      OfferPrintsIff(offer.value, error);
    } else {
      assert [error][0] == error;
    }
  }

  /** A local file whose name is the byte 0xFF, asked for as /%FF. */
  function BadFile(price: u256, network: Network, wallet: Address): Offer {
    Offer([0x2F, 0xFF], Text(USDC), price, true, network, wallet)
  }

  /** A URL resource whose configured token name is the byte 0xFF. */
  function BadToken(location: seq<byte>, price: u256, network: Network, wallet: Address): Offer {
    Offer(location, [0xFF], price, false, network, wallet)
  }

  lemma BadOffersDoNotPrint(location: seq<byte>, price: u256, network: Network, wallet: Address)
    ensures !Printable(BadFile(price, network, wallet)) && !Printable(BadToken(location, price, network, wallet))
  {
    assert [0x2F, 0xFF][1..] == [0xFF];
    assert !Utf8([0xFF]);
  }
}
