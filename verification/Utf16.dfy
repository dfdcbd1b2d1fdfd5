/** Scalar values and UTF-16LE, after RFC 2781 sections 2.1 and 2.2. */
module Utf16 {
  import opened Common

  /** A Unicode scalar value. */
  type Scalar = x: int | 0 <= x < 0xd800 || 0xe000 <= x < 0x11_0000 witness 0

  predicate IsControl(s: Scalar) { s <= 0x1f || 0x7f <= s <= 0x9f }

  /** The Unicode White_Space property. */
  predicate IsWhitespace(s: Scalar) {
    || 0x09 <= s <= 0x0d || s == 0x20 || s == 0x85 || s == 0xa0 || s == 0x1680 || 0x2000 <= s <= 0x200a
    || s == 0x2028 || s == 0x2029 || s == 0x202f || s == 0x205f || s == 0x3000
  }

  function Utf8Length(s: Scalar): nat { if s < 0x80 then 1 else if s < 0x800 then 2 else if s < 0x1_0000 then 3 else 4 }

  function Utf8Size(value: seq<Scalar>): nat {
    if value == [] then 0 else Utf8Size(value[..|value| - 1]) + Utf8Length(value[|value| - 1])
  }

  // ----- encoding (section 2.1) -----

  type Unit = x: int | 0 <= x < 0x1_0000 witness 0

  function UnitBytes(u: Unit): (bytes: seq<Byte>)
    ensures |bytes| == 2
  {
    [u % 256, u / 256]
  }

  function EncodeScalar(s: Scalar): (bytes: seq<Byte>)
    ensures |bytes| == if s < 0x1_0000 then 2 else 4
  {
    if s < 0x1_0000 then UnitBytes(s)
    else UnitBytes(0xd800 + (s - 0x1_0000) / 0x400) + UnitBytes(0xdc00 + (s - 0x1_0000) % 0x400)
  }

  function Encode(value: seq<Scalar>): seq<Byte> {
    if value == [] then [] else EncodeScalar(value[0]) + Encode(value[1..])
  }

  // ----- decoding (section 2.2) -----

  function ReadUnit(bytes: seq<Byte>, at: nat): Option<Unit> {
    if at + 2 <= |bytes| then
      var low: int, high: int := bytes[at], bytes[at + 1];
      Some(low + 256 * high)
    else None
  }

  /** The scalar that starts with `unit` at a position, and the bytes it takes. */
  function DecodeScalar(bytes: seq<Byte>, at: nat, unit: Unit): Option<(Scalar, nat)> {
    if 0xd800 <= unit <= 0xdbff then
      var low := ReadUnit(bytes, at + 2);
      if low.None? || !(0xdc00 <= low.value <= 0xdfff) then None
      else Some((0x1_0000 + (unit - 0xd800) * 0x400 + (low.value - 0xdc00), 4))
    else if 0xdc00 <= unit <= 0xdfff then None
    else Some((unit, 2))
  }

  /** The text stands at a position. */
  predicate Stands(bytes: seq<Byte>, at: nat, text: seq<Byte>) {
    at + |text| <= |bytes| && bytes[at..at + |text|] == text
  }

  lemma StandsInTwo(bytes: seq<Byte>, at: nat, first: seq<Byte>, second: seq<Byte>)
    ensures Stands(bytes, at, first + second) <==> Stands(bytes, at, first) && Stands(bytes, at + |first|, second)
  {
    var text, middle := first + second, at + |first|;
    if at + |text| <= |bytes| {
      assert bytes[at..at + |text|][..|first|] == bytes[at..middle];
      assert bytes[at..at + |text|][|first|..] == bytes[middle..at + |text|];
      assert text[..|first|] == first && text[|first|..] == second;
      assert bytes[at..at + |text|] == bytes[at..middle] + bytes[middle..at + |text|];
    }
  }

  lemma UnitRoundTrip(bytes: seq<Byte>, at: nat, u: Unit)
    ensures ReadUnit(bytes, at) == Some(u) <==> Stands(bytes, at, UnitBytes(u))
  {
  }

  /** A surrogate pair stands for one scalar beyond the basic plane, and for no other. */
  lemma PairParts(s: int, high: int, low: int)
    requires 0xd800 <= high <= 0xdbff && 0xdc00 <= low <= 0xdfff && 0x1_0000 <= s
    ensures s == 0x1_0000 + (high - 0xd800) * 0x400 + (low - 0xdc00) <==>
            high == 0xd800 + (s - 0x1_0000) / 0x400 && low == 0xdc00 + (s - 0x1_0000) % 0x400
  {
  }

  lemma PairRoundTrip(bytes: seq<Byte>, at: nat, s: Scalar, high: Unit, low: Unit)
    requires 0x1_0000 <= s && high == 0xd800 + (s - 0x1_0000) / 0x400 && low == 0xdc00 + (s - 0x1_0000) % 0x400
    ensures ReadUnit(bytes, at).Some? && DecodeScalar(bytes, at, ReadUnit(bytes, at).value) == Some((s, 4)) <==>
            ReadUnit(bytes, at) == Some(high) && ReadUnit(bytes, at + 2) == Some(low)
  {
    hide ReadUnit;
    var first, second := ReadUnit(bytes, at), ReadUnit(bytes, at + 2);
    PairParts(s, high, low);
    if first.Some? && second.Some? && 0xd800 <= first.value <= 0xdbff && 0xdc00 <= second.value <= 0xdfff {
      PairParts(s, first.value, second.value);
    }
  }

  /** Decoding succeeds with `s` exactly where the bytes are the encoding of `s`. */
  lemma ScalarRoundTrip(bytes: seq<Byte>, at: nat, s: Scalar)
    ensures Stands(bytes, at, EncodeScalar(s)) <==>
              && ReadUnit(bytes, at).Some?
              && DecodeScalar(bytes, at, ReadUnit(bytes, at).value) == Some((s, |EncodeScalar(s)|))
  {
    hide ReadUnit, Stands, UnitBytes;
    if s < 0x1_0000 {
      UnitRoundTrip(bytes, at, s);
    } else {
      var high, low := 0xd800 + (s - 0x1_0000) / 0x400, 0xdc00 + (s - 0x1_0000) % 0x400;
      UnitRoundTrip(bytes, at, high);
      UnitRoundTrip(bytes, at + 2, low);
      StandsInTwo(bytes, at, UnitBytes(high), UnitBytes(low));
      PairRoundTrip(bytes, at, s, high, low);
    }
  }

  lemma DecodedSize(bytes: seq<Byte>, at: nat, unit: Unit)
    requires DecodeScalar(bytes, at, unit).Some?
    ensures DecodeScalar(bytes, at, unit).value.1 == |EncodeScalar(DecodeScalar(bytes, at, unit).value.0)|
  {
  }

  lemma ZeroStartsEncoding(bytes: seq<Byte>, at: nat, s: Scalar)
    requires Stands(bytes, at, EncodeScalar(s)) && s != 0
    ensures ReadUnit(bytes, at).Some? && ReadUnit(bytes, at).value != 0
  {
    ScalarRoundTrip(bytes, at, s);
  }
}
