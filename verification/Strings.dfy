/** The greedy scanner for NUL-terminated ASCII and UTF-16LE literals. */
module Strings {
  import opened Common
  import opened PeMap
  import opened Utf16

  const MIN_CODE_POINTS := 4

  datatype Encoding = Ascii | Utf16Le

  datatype Literal = Literal(rva: nat, size: nat, encoding: Encoding, value: seq<Scalar>)

  datatype Attempt = NoString | TooLong | Found(size: nat, encoding: Encoding, value: seq<Scalar>)

  datatype Limits = Limits(scanBytes: nat, strings: nat, encodedBytes: nat, utf8Bytes: nat, totalUtf8: nat)

  const LIMITS := Limits(64 * 1024 * 1024, 16_384, 4 * 1024, 4 * 1024, 4 * 1024 * 1024)

  function AsciiBytes(value: seq<Scalar>): seq<Byte> {
    seq(|value|, i requires 0 <= i < |value| => if value[i] < 0x80 then value[i] else 0)
  }

  /** The bytes a literal stands for, with its terminator. */
  function Encoded(encoding: Encoding, value: seq<Scalar>): seq<Byte> {
    match encoding
    case Ascii => AsciiBytes(value) + [0]
    case Utf16Le => Terminated(value)
  }

  // ----- ASCII -----

  /** The end of the printable run that contains a position. */
  function RunEnd(bytes: seq<Byte>, at: nat): (end: nat)
    requires at <= |bytes|
    ensures at <= end <= |bytes|
    ensures forall i :: at <= i < end ==> Printable(bytes[i])
    ensures end < |bytes| ==> !Printable(bytes[end])
    decreases |bytes| - at
  {
    if at < |bytes| && Printable(bytes[at]) then RunEnd(bytes, at + 1) else at
  }

  function Scalars(bytes: seq<Byte>): (value: seq<Scalar>)
    ensures |value| == |bytes| && forall i :: 0 <= i < |bytes| ==> value[i] == bytes[i]
  {
    seq(|bytes|, i requires 0 <= i < |bytes| => bytes[i] as int)
  }

  /** `n` printable bytes, not all blanks, that start a run and end in a NUL. */
  predicate IsAscii(bytes: seq<Byte>, start: nat, n: nat) {
    && MIN_CODE_POINTS <= n && start + n < |bytes| && bytes[start + n] == 0
    && (forall i :: start <= i < start + n ==> Printable(bytes[i]))
    && (exists i :: start <= i < start + n && bytes[i] != 0x20)
    && (start > 0 ==> !Printable(bytes[start - 1]))
  }

  predicate AsciiFits(n: nat, limits: Limits) { n + 1 <= limits.encodedBytes && n <= limits.utf8Bytes }

  function AsciiAttempt(bytes: seq<Byte>, start: nat, limits: Limits): Attempt {
    if start >= |bytes| then NoString
    else
      var n := RunEnd(bytes, start) - start;
      if !IsAscii(bytes, start, n) then NoString
      else if !AsciiFits(n, limits) then TooLong
      else Found(n + 1, Ascii, Scalars(bytes[start..start + n]))
  }

  /** At most one length fits, and the run's own length is it. */
  lemma AsciiIsUnique(bytes: seq<Byte>, start: nat, n: nat)
    requires IsAscii(bytes, start, n)
    ensures n == RunEnd(bytes, start) - start
  {
  }

  method AsciiCandidate(bytes: seq<Byte>, start: nat, limits: Limits) returns (r: Attempt)
    requires start < |bytes|
    ensures r == AsciiAttempt(bytes, start, limits)
  {
    if !Printable(bytes[start]) || (start > 0 && Printable(bytes[start - 1])) { return NoString; }
    var end, blank := start, true;
    while end < |bytes| && Printable(bytes[end])
      invariant start <= end <= |bytes| && RunEnd(bytes, start) == RunEnd(bytes, end)
      invariant blank <==> forall i :: start <= i < end ==> bytes[i] == 0x20
    {
      blank := blank && bytes[end] == 0x20;
      end := end + 1;
    }
    var n := end - start;
    if n < MIN_CODE_POINTS || blank || end == |bytes| || bytes[end] != 0 { return NoString; }
    if n + 1 > limits.encodedBytes || n > limits.utf8Bytes { return TooLong; }
    r := Found(n + 1, Ascii, Scalars(bytes[start..end]));
  }

  // ----- UTF-16 -----

  /** The scalars from a position up to the first zero unit, none of them a control. */
  function Run(bytes: seq<Byte>, at: nat): Option<seq<Scalar>>
    decreases |bytes| - at
  {
    match ReadUnit(bytes, at)
    case None => None
    case Some(unit) =>
      if unit == 0 then Some([])
      else
        match DecodeScalar(bytes, at, unit)
        case None => None
        case Some((s, size)) =>
          if IsControl(s) then None
          else
            match Run(bytes, at + size)
            case None => None
            case Some(rest) => Some([s] + rest)
  }

  predicate CouldContinue(unit: Unit) { !(unit <= 0x1f || 0x7f <= unit <= 0x9f) }

  predicate Blank(value: seq<Scalar>) { forall i :: 0 <= i < |value| ==> IsWhitespace(value[i]) }

  predicate Utf16Fits(value: seq<Scalar>, limits: Limits) {
    |Encode(value)| + 2 <= limits.encodedBytes && Utf8Size(value) <= limits.utf8Bytes
  }

  predicate Utf16Starts(bytes: seq<Byte>, rva: nat, start: nat) {
    && (rva + start) % 2 == 0 && start + 1 < |bytes|
    && (start >= 2 ==> ReadUnit(bytes, start - 2).Some? && !CouldContinue(ReadUnit(bytes, start - 2).value))
  }

  function Utf16Attempt(bytes: seq<Byte>, rva: nat, start: nat, limits: Limits): Attempt {
    if !Utf16Starts(bytes, rva, start) then NoString
    else
      match Run(bytes, start)
      case None => NoString
      case Some(value) =>
        if |value| < MIN_CODE_POINTS || Blank(value) then NoString
        else if !Utf16Fits(value, limits) then TooLong
        else Found(|Encode(value)| + 2, Utf16Le, value)
  }

  predicate NoControls(value: seq<Scalar>) { forall i :: 0 <= i < |value| ==> !IsControl(value[i]) }

  function Terminated(value: seq<Scalar>): seq<Byte> { Encode(value) + UnitBytes(0) }

  lemma TerminatedSplits(value: seq<Scalar>)
    requires value != []
    ensures Terminated(value) == EncodeScalar(value[0]) + Terminated(value[1..])
  {
  }

  /** A run is exactly its scalars encoded and terminated. */
  lemma {:induction false} RunIsEncoded(bytes: seq<Byte>, at: nat)
    requires Run(bytes, at).Some?
    ensures NoControls(Run(bytes, at).value) && Stands(bytes, at, Terminated(Run(bytes, at).value))
    decreases |bytes| - at
  {
    hide Stands, EncodeScalar;
    var unit := ReadUnit(bytes, at).value;
    if unit == 0 {
      UnitRoundTrip(bytes, at, 0);
      assert Terminated([]) == UnitBytes(0);
    } else {
      var (s, size) := DecodeScalar(bytes, at, unit).value;
      DecodedSize(bytes, at, unit);
      ScalarRoundTrip(bytes, at, s);
      RunIsEncoded(bytes, at + size);
      var rest := Run(bytes, at + size).value;
      assert ([s] + rest)[1..] == rest;
      TerminatedSplits([s] + rest);
      StandsInTwo(bytes, at, EncodeScalar(s), Terminated(rest));
    }
  }

  /** Decoding undoes encoding: where an encoded, terminated text stands, the run is that text. */
  lemma {:induction false} EncodedIsRun(bytes: seq<Byte>, at: nat, value: seq<Scalar>)
    requires Stands(bytes, at, Terminated(value)) && NoControls(value)
    ensures Run(bytes, at) == Some(value)
    decreases |value|
  {
    hide Stands, EncodeScalar;
    if value == [] {
      UnitRoundTrip(bytes, at, 0);
      assert Terminated([]) == UnitBytes(0);
    } else {
      var s, rest := value[0], value[1..];
      TerminatedSplits(value);
      StandsInTwo(bytes, at, EncodeScalar(s), Terminated(rest));
      ScalarRoundTrip(bytes, at, s);
      ZeroStartsEncoding(bytes, at, s);
      EncodedIsRun(bytes, at + |EncodeScalar(s)|, rest);
      assert value == [s] + rest;
    }
  }

  lemma {:induction false} EncodeAppends(value: seq<Scalar>, s: Scalar)
    ensures Encode(value + [s]) == Encode(value) + EncodeScalar(s)
  {
    if value == [] {
      assert [s][1..] == [];
    } else {
      EncodeAppends(value[1..], s);
      assert (value + [s])[1..] == value[1..] + [s];
    }
  }

  /** Everything decoded before a position goes in front of the run from there on. */
  function RunAfter(decoded: seq<Scalar>, rest: Option<seq<Scalar>>): Option<seq<Scalar>> {
    if rest.Some? then Some(decoded + rest.value) else None
  }

  /** What the decoding loop has counted about the scalars decoded so far. */
  ghost predicate Counted(
    decoded: seq<Scalar>, encodedBytes: nat, utf8Bytes: nat, points: nat, visible: bool, exceeded: bool,
    value: seq<Scalar>, limits: Limits)
  {
    && encodedBytes == |Encode(decoded)| && utf8Bytes == Utf8Size(decoded) && points == |decoded|
    && (visible <==> !Blank(decoded))
    && (exceeded <==> decoded != [] && !Utf16Fits(decoded, limits))
    && (!exceeded ==> value == decoded)
  }

  lemma CountedOneMore(
    decoded: seq<Scalar>, encodedBytes: nat, utf8Bytes: nat, points: nat, visible: bool, exceeded: bool,
    value: seq<Scalar>, limits: Limits, s: Scalar)
    requires Counted(decoded, encodedBytes, utf8Bytes, points, visible, exceeded, value, limits)
    ensures var encoded1, utf81 := encodedBytes + |EncodeScalar(s)|, utf8Bytes + Utf8Length(s);
            var over := encoded1 + 2 > limits.encodedBytes || utf81 > limits.utf8Bytes;
            Counted(decoded + [s], encoded1, utf81, points + 1, visible || !IsWhitespace(s), exceeded || over,
                    if over then value else value + [s], limits)
  {
    hide IsWhitespace, EncodeScalar, Encode, Blank, Utf8Length;
    EncodeAppends(decoded, s);
    assert (decoded + [s])[..|decoded|] == decoded;
    BlankOneMore(decoded, s);
  }

  lemma BlankOneMore(decoded: seq<Scalar>, s: Scalar)
    ensures Blank(decoded + [s]) <==> Blank(decoded) && IsWhitespace(s)
  {
    hide IsWhitespace;
    assert forall i :: 0 <= i < |decoded| ==> (decoded + [s])[i] == decoded[i];
    assert (decoded + [s])[|decoded|] == s;
  }

  method Utf16Candidate(bytes: seq<Byte>, rva: nat, start: nat, limits: Limits) returns (r: Attempt)
    ensures r == Utf16Attempt(bytes, rva, start, limits)
  {
    hide Counted, DecodeScalar, EncodeScalar, Encode, Utf8Size, Utf8Length, IsWhitespace, IsControl, Blank, Utf16Fits,
      CouldContinue;
    if (rva + start) % 2 != 0 || start + 1 >= |bytes| { return NoString; }
    if start >= 2 && CouldContinue(ReadUnit(bytes, start - 2).value) { return NoString; }
    var position: nat, encodedBytes: nat, utf8Bytes: nat, points: nat := start, 0, 0, 0;
    var value: seq<Scalar>, exceeded, visible := [], false, false;
    ghost var decoded: seq<Scalar> := [];
    NothingCounted(limits);
    NothingBefore(Run(bytes, start));
    while true
      invariant Counted(decoded, encodedBytes, utf8Bytes, points, visible, exceeded, value, limits)
      invariant Run(bytes, start) == RunAfter(decoded, Run(bytes, position))
      decreases |bytes| - position
    {
      var unit := ReadUnit(bytes, position);
      if unit.None? { return NoString; }
      if unit.value == 0 { break; }
      var next := DecodeScalar(bytes, position, unit.value);
      if next.None? || IsControl(next.value.0) { return NoString; }
      var (s, size) := next.value;
      DecodedSize(bytes, position, unit.value);
      CountedOneMore(decoded, encodedBytes, utf8Bytes, points, visible, exceeded, value, limits, s);
      OneMoreBefore(decoded, s, Run(bytes, position + size));
      SizeIsPositive(s);
      decoded := decoded + [s];
      position, encodedBytes := position + size, encodedBytes + size;
      points, utf8Bytes := points + 1, utf8Bytes + Utf8Length(s);
      visible := visible || !IsWhitespace(s);
      if encodedBytes + 2 > limits.encodedBytes || utf8Bytes > limits.utf8Bytes {
        exceeded := true;
      } else {
        value := value + [s];
      }
    }
    assert decoded + [] == decoded;
    Conclude(decoded, encodedBytes, utf8Bytes, points, visible, exceeded, value, limits);
    if points < MIN_CODE_POINTS || !visible { return NoString; }
    if exceeded { return TooLong; }
    r := Found(encodedBytes + 2, Utf16Le, value);
  }

  lemma SizeIsPositive(s: Scalar)
    ensures |EncodeScalar(s)| > 0
  {
  }

  lemma NothingCounted(limits: Limits)
    ensures Counted([], 0, 0, 0, false, false, [], limits)
  {
  }

  lemma NothingBefore(rest: Option<seq<Scalar>>)
    ensures RunAfter([], rest) == rest
  {
    if rest.Some? { assert [] + rest.value == rest.value; }
  }

  lemma OneMoreBefore(decoded: seq<Scalar>, s: Scalar, rest: Option<seq<Scalar>>)
    ensures RunAfter(decoded, RunAfter([s], rest)) == RunAfter(decoded + [s], rest)
  {
    if rest.Some? { assert decoded + ([s] + rest.value) == decoded + [s] + rest.value; }
  }

  lemma Conclude(
    decoded: seq<Scalar>, encodedBytes: nat, utf8Bytes: nat, points: nat, visible: bool, exceeded: bool,
    value: seq<Scalar>, limits: Limits)
    requires Counted(decoded, encodedBytes, utf8Bytes, points, visible, exceeded, value, limits)
    ensures points == |decoded| && (visible <==> !Blank(decoded)) && encodedBytes == |Encode(decoded)|
    ensures decoded != [] ==> (exceeded <==> !Utf16Fits(decoded, limits))
    ensures !exceeded ==> value == decoded
  {
  }
}
