/** The message that is hashed and signed for a TransferWithAuthorization (EIP-3009), laid out as
"Definition of encodeData" in EIP-712 asks. */
module Authorization {
  import opened Words
  import opened Bytes
  import opened Hex

  const TYPE_HASH: Bytes32 := [
    0x7c, 0x7c, 0x6c, 0xdb, 0x67, 0xa1, 0x87, 0x43, 0xf4, 0x9e, 0xc6, 0xfa, 0x9b, 0x35, 0xf5, 0x0d,
    0x52, 0xed, 0x05, 0xcb, 0xed, 0x4c, 0xc5, 0x92, 0xe1, 0x3b, 0x44, 0x50, 0x1c, 0x1a, 0x22, 0x67]

  datatype Fields = Fields(from: Address, to: Address, value: u256, validAfter: u256, validBefore: u256, nonce: Bytes32)

  function PadAddress(a: Address): Bytes32 {
    Zeros(12) + a
  }

  /** Seven 32-byte words. */
  function Encode(f: Fields): seq<byte> {
    TYPE_HASH + PadAddress(f.from) + PadAddress(f.to)
    + U256Bytes(f.value) + U256Bytes(f.validAfter) + U256Bytes(f.validBefore) + f.nonce
  }

  /** Appends a number as one word: minimal bytes, padded on the left. */
  method PackUint256(message: seq<byte>, value: u256) returns (out: seq<byte>)
    ensures out == message + U256Bytes(value)
  {
    Pow256Of32();
    PaddedExport(value, 32);
    var tmp := ExportBits(value);
    out := message + Zeros(32 - |tmp|);
    out := out + tmp;
    assert message + Zeros(32 - |tmp|) + tmp == message + (Zeros(32 - |tmp|) + tmp);
  }

  /** The message built field by field. */
  method BuildMessage(f: Fields) returns (message: seq<byte>)
    ensures message == Encode(f)
  {
    message := TYPE_HASH;
    message := message + Zeros(32 - |f.from|);
    message := message + f.from;
    assert message == TYPE_HASH + PadAddress(f.from);
    message := message + Zeros(32 - |f.to|);
    message := message + f.to;
    assert message == TYPE_HASH + PadAddress(f.from) + PadAddress(f.to);
    message := PackUint256(message, f.value);
    message := PackUint256(message, f.validAfter);
    message := PackUint256(message, f.validBefore);
    message := message + f.nonce;
  }

  /** The message is always 224 bytes, and each field sits in its own word. */
  lemma Layout(f: Fields)
    ensures var m := Encode(f);
            && |m| == 224
            && m[..32] == TYPE_HASH
            && m[32..64] == PadAddress(f.from) && m[64..96] == PadAddress(f.to)
            && m[96..128] == U256Bytes(f.value) && m[128..160] == U256Bytes(f.validAfter)
            && m[160..192] == U256Bytes(f.validBefore) && m[192..] == f.nonce
  {
    hide PadAddress, U256Bytes;
    Seven(TYPE_HASH, PadAddress(f.from), PadAddress(f.to), U256Bytes(f.value), U256Bytes(f.validAfter),
          U256Bytes(f.validBefore), f.nonce);
  }

  lemma Seven(a: Bytes32, b: Bytes32, c: Bytes32, d: Bytes32, e: Bytes32, f: Bytes32, g: Bytes32)
    ensures var m := a + b + c + d + e + f + g;
            && |m| == 224 && m[..32] == a && m[32..64] == b && m[64..96] == c && m[96..128] == d
            && m[128..160] == e && m[160..192] == f && m[192..] == g
  {
  }

  /** Different authorizations are never encoded alike. */
  lemma EncodeIsInjective(f: Fields, g: Fields)
    requires Encode(f) == Encode(g)
    ensures f == g
  {
    hide Encode, U256Bytes;
    Layout(f);
    Layout(g);
    assert f.from == PadAddress(f.from)[12..] == PadAddress(g.from)[12..] == g.from;
    assert f.to == PadAddress(f.to)[12..] == PadAddress(g.to)[12..] == g.to;
    U256BytesInjective(f.value, g.value);
    U256BytesInjective(f.validAfter, g.validAfter);
    U256BytesInjective(f.validBefore, g.validBefore);
  }
}
