/** Scanning whole sections for literals, and the validator of the published records. */
module StringScan {
  import opened Common
  import opened PeMap
  import opened Utf16
  import opened Strings

  // ----- one position -----

  /** ASCII first, then UTF-16. */
  function CandidateAt(bytes: seq<Byte>, rva: nat, offset: nat, limits: Limits): Attempt {
    var ascii := AsciiAttempt(bytes, offset, limits);
    if ascii.Found? then ascii else Utf16Attempt(bytes, rva, offset, limits)
  }

  /** What the record validator asks of the text itself. */
  predicate TextAccepted(rva: nat, size: nat, encoding: Encoding, value: seq<Scalar>, limits: Limits) {
    && MIN_CODE_POINTS <= |value| && !Blank(value) && NoControls(value)
    && Utf8Size(value) <= limits.utf8Bytes && size <= limits.encodedBytes
    && (encoding.Ascii? ==> (forall i :: 0 <= i < |value| ==> Printable(value[i])) && size == Utf8Size(value) + 1)
    && (encoding.Utf16Le? ==> rva % 2 == 0 && size == |Encode(value)| + 2)
  }

  lemma {:induction false} PrintableIsOneByteEach(value: seq<Scalar>)
    requires forall i :: 0 <= i < |value| ==> Printable(value[i])
    ensures Utf8Size(value) == |value| && NoControls(value)
  {
    if value != [] { PrintableIsOneByteEach(value[..|value| - 1]); }
  }

  lemma AsciiFound(bytes: seq<Byte>, rva: nat, offset: nat, limits: Limits)
    requires AsciiAttempt(bytes, offset, limits).Found?
    ensures var a := AsciiAttempt(bytes, offset, limits);
            && a.encoding == Ascii
            && Stands(bytes, offset, Encoded(Ascii, a.value)) && |Encoded(Ascii, a.value)| == a.size
            && TextAccepted(rva + offset, a.size, Ascii, a.value, limits)
  {
    var a := AsciiAttempt(bytes, offset, limits);
    var n := a.size - 1;
    PrintableIsOneByteEach(a.value);
    assert bytes[offset..offset + a.size] == bytes[offset..offset + n] + [0];
    assert AsciiBytes(a.value) == bytes[offset..offset + n];
    var i :| offset <= i < offset + n && bytes[i] != 0x20;
    assert !IsWhitespace(a.value[i - offset]);
  }

  lemma Utf16Found(bytes: seq<Byte>, rva: nat, offset: nat, limits: Limits)
    requires Utf16Attempt(bytes, rva, offset, limits).Found?
    ensures var a := Utf16Attempt(bytes, rva, offset, limits);
            && a.encoding == Utf16Le
            && Stands(bytes, offset, Encoded(Utf16Le, a.value)) && |Encoded(Utf16Le, a.value)| == a.size
            && TextAccepted(rva + offset, a.size, Utf16Le, a.value, limits)
  {
    hide Stands, Blank;
    RunIsEncoded(bytes, offset);
  }

  /** A candidate is byte-exact and its text passes the validator. */
  lemma FoundIsExact(bytes: seq<Byte>, rva: nat, offset: nat, limits: Limits)
    requires CandidateAt(bytes, rva, offset, limits).Found?
    ensures var a := CandidateAt(bytes, rva, offset, limits);
            && Stands(bytes, offset, Encoded(a.encoding, a.value)) && |Encoded(a.encoding, a.value)| == a.size > 0
            && TextAccepted(rva + offset, a.size, a.encoding, a.value, limits)
  {
    hide Stands, TextAccepted, AsciiAttempt, Utf16Attempt, Encoded;
    if AsciiAttempt(bytes, offset, limits).Found? {
      AsciiFound(bytes, rva, offset, limits);
    } else {
      Utf16Found(bytes, rva, offset, limits);
    }
    FoundIsSized(bytes, rva, offset, limits);
  }

  lemma FoundIsSized(bytes: seq<Byte>, rva: nat, offset: nat, limits: Limits)
    requires CandidateAt(bytes, rva, offset, limits).Found?
    ensures CandidateAt(bytes, rva, offset, limits).size > 0
  {
  }

  // ----- one section -----

  /** Take the candidate at each position not yet covered. */
  function Greedy(bytes: seq<Byte>, rva: nat, offset: nat, limits: Limits): seq<Literal>
    decreases |bytes| - offset
  {
    if offset >= |bytes| then []
    else
      var a := CandidateAt(bytes, rva, offset, limits);
      if a.Found? && a.size > 0
      then [Literal(rva + offset, a.size, a.encoding, a.value)] + Greedy(bytes, rva, offset + a.size, limits)
      else Greedy(bytes, rva, offset + 1, limits)
  }

  /** Ascending and disjoint between two bounds. */
  ghost predicate Ascends(literals: seq<Literal>, from: nat, to: nat) {
    && (forall k :: 0 <= k < |literals| ==> from <= literals[k].rva && literals[k].rva + literals[k].size <= to)
    && (forall j, k :: 0 <= j < k < |literals| ==> literals[j].rva + literals[j].size <= literals[k].rva)
  }

  /** The literal's bytes stand in the section at its address. */
  ghost predicate StandsIn(bytes: seq<Byte>, rva: nat, literal: Literal) {
    && rva <= literal.rva && literal.size == |Encoded(literal.encoding, literal.value)| > 0
    && Stands(bytes, literal.rva - rva, Encoded(literal.encoding, literal.value))
  }

  lemma {:induction false} GreedyAscends(bytes: seq<Byte>, rva: nat, offset: nat, limits: Limits)
    ensures Ascends(Greedy(bytes, rva, offset, limits), rva + offset,
                    rva + if offset < |bytes| then |bytes| else offset)
    ensures forall x :: x in Greedy(bytes, rva, offset, limits) ==>
              StandsIn(bytes, rva, x) && TextAccepted(x.rva, x.size, x.encoding, x.value, limits)
    decreases |bytes| - offset
  {
    hide CandidateAt, TextAccepted, Encoded, StandsIn, Ascends;
    if offset < |bytes| {
      var a := CandidateAt(bytes, rva, offset, limits);
      if a.Found? && a.size > 0 {
        var first, next := Literal(rva + offset, a.size, a.encoding, a.value), offset + a.size;
        FoundStands(bytes, rva, offset, limits, first);
        GreedyAscends(bytes, rva, next, limits);
        AscendsAfter(first, Greedy(bytes, rva, next, limits), rva + offset, rva + next, rva + |bytes|);
      } else {
        GreedyAscends(bytes, rva, offset + 1, limits);
        AscendsLater(Greedy(bytes, rva, offset + 1, limits), rva + offset, rva + offset + 1, rva + |bytes|);
      }
    } else {
      NothingAscends(rva + offset);
    }
  }

  lemma NothingAscends(bound: nat)
    ensures Ascends([], bound, bound)
  {
  }

  lemma AscendsLater(literals: seq<Literal>, earlier: nat, from: nat, to: nat)
    requires Ascends(literals, from, to) && earlier <= from
    ensures Ascends(literals, earlier, to)
  {
  }

  lemma AscendsAfter(first: Literal, rest: seq<Literal>, from: nat, next: nat, to: nat)
    requires Ascends(rest, next, to) && from == first.rva && next == from + first.size <= to
    ensures Ascends([first] + rest, from, to)
  {
    var all := [first] + rest;
    assert forall k :: 0 < k < |all| ==> all[k] == rest[k - 1];
  }

  /** The candidate at a position stands there. */
  lemma FoundStands(bytes: seq<Byte>, rva: nat, offset: nat, limits: Limits, x: Literal)
    requires offset < |bytes| && CandidateAt(bytes, rva, offset, limits).Found?
    requires var a := CandidateAt(bytes, rva, offset, limits); x == Literal(rva + offset, a.size, a.encoding, a.value)
    ensures StandsIn(bytes, rva, x) && TextAccepted(x.rva, x.size, x.encoding, x.value, limits)
    ensures offset + x.size <= |bytes|
  {
    hide CandidateAt, TextAccepted, Encoded;
    FoundIsExact(bytes, rva, offset, limits);
  }

  predicate CoveredBy(literals: seq<Literal>, x: nat) {
    exists k :: 0 <= k < |literals| && literals[k].rva <= x < literals[k].rva + literals[k].size
  }

  lemma CoveredAfter(first: Literal, rest: seq<Literal>, x: nat)
    ensures CoveredBy([first] + rest, x) <==> first.rva <= x < first.rva + first.size || CoveredBy(rest, x)
  {
    var all := [first] + rest;
    if CoveredBy(rest, x) {
      var k :| 0 <= k < |rest| && rest[k].rva <= x < rest[k].rva + rest[k].size;
      assert all[k + 1] == rest[k];
    }
    assert all[0] == first && forall k :: 0 < k < |all| ==> all[k] == rest[k - 1];
  }

  /** Nothing is missed: a position with a candidate is covered. */
  lemma {:induction false} GreedyIsComplete(bytes: seq<Byte>, rva: nat, offset: nat, limits: Limits, at: nat)
    requires offset <= at < |bytes| && CandidateAt(bytes, rva, at, limits).Found?
    ensures CoveredBy(Greedy(bytes, rva, offset, limits), rva + at)
    decreases |bytes| - offset
  {
    hide CandidateAt;
    var a := CandidateAt(bytes, rva, offset, limits);
    if a.Found? { FoundIsSized(bytes, rva, offset, limits); }
    if a.Found? && a.size > 0 {
      if offset + a.size <= at { GreedyIsComplete(bytes, rva, offset + a.size, limits, at); }
      CoveredAfter(Literal(rva + offset, a.size, a.encoding, a.value),
                   Greedy(bytes, rva, offset + a.size, limits), rva + at);
    } else {
      GreedyIsComplete(bytes, rva, offset + 1, limits, at);
    }
  }

  function Utf8Total(literals: seq<Literal>): nat {
    if literals == [] then 0 else Utf8Total(literals[..|literals| - 1]) + Utf8Size(literals[|literals| - 1].value)
  }

  lemma TotalAppends(literals: seq<Literal>, x: Literal)
    ensures Utf8Total(literals + [x]) == Utf8Total(literals) + Utf8Size(x.value)
  {
    assert (literals + [x])[..|literals|] == literals;
  }

  /** A literal at this position is over a per-string limit. */
  predicate Overlong(bytes: seq<Byte>, rva: nat, offset: nat, limits: Limits) {
    AsciiAttempt(bytes, offset, limits).TooLong? || Utf16Attempt(bytes, rva, offset, limits).TooLong?
  }

  /** The next literal would exceed the count or the total size. */
  predicate NoRoom(limits: Limits, strings: seq<Literal>, all: seq<Literal>, taken: nat) {
    taken < |all| && (|strings| == limits.strings || Utf8Total(strings) + Utf8Size(all[taken].value) > limits.totalUtf8)
  }

  /** Scan one section. What is added is the greedy list, cut short only by a cap. */
  method ScanSection(
    bytes: seq<Byte>, rva: nat, limits: Limits, strings0: seq<Literal>, retained0: nat, truncated0: bool)
    returns (goOn: bool, strings: seq<Literal>, retained: nat, truncated: bool, ghost taken: nat)
    requires |strings0| <= limits.strings && retained0 == Utf8Total(strings0) <= limits.totalUtf8
    ensures |strings| <= limits.strings && retained == Utf8Total(strings) <= limits.totalUtf8
    ensures taken <= |Greedy(bytes, rva, 0, limits)| && strings == strings0 + Greedy(bytes, rva, 0, limits)[..taken]
    ensures goOn ==> taken == |Greedy(bytes, rva, 0, limits)|
    ensures truncated0 || !goOn ==> truncated
    ensures !goOn ==> NoRoom(limits, strings, Greedy(bytes, rva, 0, limits), taken)
    ensures goOn && truncated && !truncated0 ==> exists offset :: Overlong(bytes, rva, offset, limits)
  {
    hide AsciiAttempt, Utf16Attempt, Utf8Total, Utf8Size;
    ghost var all := Greedy(bytes, rva, 0, limits);
    var offset := 0;
    strings, retained, truncated, taken := strings0, retained0, truncated0, 0;
    assert strings0 + all[..0] == strings0;
    while offset < |bytes|
      invariant |strings| <= limits.strings && retained == Utf8Total(strings) <= limits.totalUtf8
      invariant taken <= |all| && strings == strings0 + all[..taken]
      invariant all[taken..] == Greedy(bytes, rva, offset, limits)
      invariant truncated0 ==> truncated
      invariant truncated && !truncated0 ==> exists o :: Overlong(bytes, rva, o, limits)
      decreases |bytes| - offset
    {
      var candidate := AsciiCandidate(bytes, offset, limits);
      if candidate.TooLong? {
        truncated := true;
        assert Overlong(bytes, rva, offset, limits);
      }
      if !candidate.Found? { candidate := Utf16Candidate(bytes, rva, offset, limits); }
      if candidate.Found? {
        FoundIsSized(bytes, rva, offset, limits);
        if |strings| == limits.strings || retained + Utf8Size(candidate.value) > limits.totalUtf8 {
          assert all[taken..][0].value == candidate.value;
          return false, strings, retained, true, taken;
        }
        var literal := Literal(rva + offset, candidate.size, candidate.encoding, candidate.value);
        TotalAppends(strings, literal);
        TakeOne(all, taken, literal, Greedy(bytes, rva, offset + candidate.size, limits));
        assert strings + [literal] == strings0 + all[..taken + 1];
        strings, retained, taken := strings + [literal], retained + Utf8Size(candidate.value), taken + 1;
        offset := offset + candidate.size;
      } else {
        if candidate.TooLong? {
          truncated := true;
          assert Overlong(bytes, rva, offset, limits);
        }
        offset := offset + 1;
      }
    }
    goOn := true;
  }

  lemma TakeOne(all: seq<Literal>, taken: nat, literal: Literal, rest: seq<Literal>)
    requires taken <= |all| && all[taken..] == [literal] + rest
    ensures taken < |all| && all[..taken + 1] == all[..taken] + [literal] && all[taken + 1..] == rest
  {
    assert all[taken] == all[taken..][0];
    assert all[taken + 1..] == all[taken..][1..];
  }

  // ----- the whole image -----

  predicate Eligible(s: Section) { Backed(s) != 0 && ReadableData(s) }

  function SectionBytes(file: seq<Byte>, s: Section): Option<seq<Byte>> {
    if Eligible(s) && s.rawOffset + Backed(s) <= |file| then Some(file[s.rawOffset..s.rawOffset + Backed(s)]) else None
  }

  /** Without limits: the greedy literals of each eligible section in turn. */
  function AllLiterals(file: seq<Byte>, sections: seq<Section>, limits: Limits): seq<Literal> {
    if sections == [] then []
    else
      var before, s := AllLiterals(file, sections[..|sections| - 1], limits), sections[|sections| - 1];
      match SectionBytes(file, s)
      case None => before
      case Some(bytes) => before + Greedy(bytes, s.virtualAddress, 0, limits)
  }

  /** A literal starts at this position of an eligible section. */
  predicate StartsLiteral(file: seq<Byte>, sections: seq<Section>, limits: Limits, k: nat, at: nat) {
    && k < |sections| && SectionBytes(file, sections[k]).Some? && at < |SectionBytes(file, sections[k]).value|
    && CandidateAt(SectionBytes(file, sections[k]).value, sections[k].virtualAddress, at, limits).Found?
  }

  lemma CoveredInPart(before: seq<Literal>, added: seq<Literal>, rva: nat)
    requires CoveredBy(before, rva) || CoveredBy(added, rva)
    ensures CoveredBy(before + added, rva)
  {
    var all := before + added;
    assert forall k :: 0 <= k < |before| ==> all[k] == before[k];
    assert forall k :: 0 <= k < |added| ==> all[|before| + k] == added[k];
  }

  /** Every position of the image at which a literal starts is covered. */
  lemma {:induction false} ImageIsCovered(file: seq<Byte>, sections: seq<Section>, limits: Limits, k: nat, at: nat)
    requires StartsLiteral(file, sections, limits, k, at)
    ensures CoveredBy(AllLiterals(file, sections, limits), sections[k].virtualAddress + at)
    decreases |sections|
  {
    hide CandidateAt, Greedy, CoveredBy;
    var last := |sections| - 1;
    var s, before := sections[last], AllLiterals(file, sections[..last], limits);
    if k == last {
      var bytes := SectionBytes(file, s).value;
      GreedyIsComplete(bytes, s.virtualAddress, 0, limits, at);
      CoveredInPart(before, Greedy(bytes, s.virtualAddress, 0, limits), s.virtualAddress + at);
    } else {
      ImageIsCovered(file, sections[..last], limits, k, at);
      if SectionBytes(file, s).Some? {
        CoveredInPart(before, Greedy(SectionBytes(file, s).value, s.virtualAddress, 0, limits),
                      sections[k].virtualAddress + at);
      }
    }
  }

  predicate LiteralAccepted(l: Layout, limits: Limits, x: Literal) {
    && TextAccepted(x.rva, x.size, x.encoding, x.value, limits)
    && x.size != 0 && x.rva + x.size <= l.sizeOfImage
    && exists s :: s in l.sections && Eligible(s) && InBacked(s, x.rva, x.size)
  }

  /** The image bytes at the literal's address are its encoding and terminator. */
  predicate ByteExact(file: seq<Byte>, l: Layout, x: Literal) {
    var offset := Offset(l, x.rva, x.size);
    offset.Some? && Stands(file, offset.value, Encoded(x.encoding, x.value)) && x.size == |Encoded(x.encoding, x.value)|
  }

  lemma StandsInPart(file: seq<Byte>, start: nat, end: nat, at: nat, text: seq<Byte>)
    requires start <= end <= |file| && Stands(file[start..end], at, text)
    ensures Stands(file, start + at, text)
  {
    var part, n := file[start..end], |text|;
    forall i | 0 <= i < n ensures file[start + at + i] == text[i] {
      assert part[at + i] == part[at..at + n][i];
    }
    assert file[start + at..start + at + n] == text;
  }

  /** A literal of a scanned prefix of a section is accepted and byte-exact in the image. */
  lemma SectionLiteral(file: seq<Byte>, l: Layout, limits: Limits, k: nat, length: nat, x: Literal)
    requires Accepted(l) && |file| == l.fileSize && k < |l.sections| && Eligible(l.sections[k])
    requires length <= Backed(l.sections[k])
    requires l.sections[k].rawOffset + Backed(l.sections[k]) <= |file|
    requires var s := l.sections[k];
             && StandsIn(file[s.rawOffset..s.rawOffset + length], s.virtualAddress, x)
             && TextAccepted(x.rva, x.size, x.encoding, x.value, limits)
    ensures LiteralAccepted(l, limits, x) && ByteExact(file, l, x)
  {
    hide TextAccepted, Encoded;
    var s := l.sections[k];
    assert SectionFits(l, s);
    StandsInPart(file, s.rawOffset, s.rawOffset + length, x.rva - s.virtualAddress, Encoded(x.encoding, x.value));
    assert ComesFrom(l, InSection(k), x.rva, x.size);
    MapperIsItsRegions(l, x.rva, x.size);
    assert s in l.sections && InBacked(s, x.rva, x.size);
  }

  ghost predicate Ordered(strings: seq<Literal>) {
    forall i, j :: 0 <= i < j < |strings| ==> strings[i].rva + strings[i].size <= strings[j].rva
  }

  /** Everything published is accepted and exact, and ends before the sections still to come. */
  ghost predicate Published(file: seq<Byte>, l: Layout, limits: Limits, done: nat, strings: seq<Literal>) {
    && (forall k :: 0 <= k < |strings| ==> LiteralAccepted(l, limits, strings[k]) && ByteExact(file, l, strings[k]))
    && Ordered(strings)
    && (forall k, j :: 0 <= k < |strings| && done <= j < |l.sections| && Eligible(l.sections[j]) ==>
          strings[k].rva + strings[k].size <= l.sections[j].virtualAddress)
  }

  /** Sections with file data lie one after the other. */
  lemma SectionsFollow(l: Layout, i: nat, j: nat)
    requires Accepted(l) && i < j < |l.sections| && Eligible(l.sections[i]) && Eligible(l.sections[j])
    ensures l.sections[i].virtualAddress + Backed(l.sections[i]) <= l.sections[j].virtualAddress
  {
    assert !Collide(l.sections[i], l.sections[j]);
  }

  lemma SkipSection(file: seq<Byte>, l: Layout, limits: Limits, done: nat, strings: seq<Literal>)
    requires Published(file, l, limits, done, strings)
    ensures Published(file, l, limits, done + 1, strings)
  {
  }

  /** Adding a prefix of a section's greedy list keeps everything in order. */
  lemma AddSection(
    file: seq<Byte>, l: Layout, limits: Limits, done: nat, strings: seq<Literal>, length: nat, taken: nat)
    requires Accepted(l) && |file| == l.fileSize && done < |l.sections| && Eligible(l.sections[done])
    requires l.sections[done].rawOffset + Backed(l.sections[done]) <= |file| && length <= Backed(l.sections[done])
    requires Published(file, l, limits, done, strings)
    requires var s := l.sections[done];
             taken <= |Greedy(file[s.rawOffset..s.rawOffset + length], s.virtualAddress, 0, limits)|
    ensures var s := l.sections[done];
            var added := Greedy(file[s.rawOffset..s.rawOffset + length], s.virtualAddress, 0, limits)[..taken];
            Published(file, l, limits, done + 1, strings + added)
  {
    hide LiteralAccepted, ByteExact, StandsIn, TextAccepted, Greedy;
    var s := l.sections[done];
    var bytes := file[s.rawOffset..s.rawOffset + length];
    var added := Greedy(bytes, s.virtualAddress, 0, limits)[..taken];
    GreedyAscends(bytes, s.virtualAddress, 0, limits);
    forall k | 0 <= k < |added| ensures LiteralAccepted(l, limits, added[k]) && ByteExact(file, l, added[k]) {
      assert added[k] in Greedy(bytes, s.virtualAddress, 0, limits);
      SectionLiteral(file, l, limits, done, length, added[k]);
    }
    forall j | done < j < |l.sections| && Eligible(l.sections[j])
      ensures s.virtualAddress + Backed(s) <= l.sections[j].virtualAddress
    {
      SectionsFollow(l, done, j);
    }
  }

  /** The bytes of the eligible sections, all together. */
  function EligibleBytes(file: seq<Byte>, sections: seq<Section>): nat {
    if sections == [] then 0
    else
      var bytes := SectionBytes(file, sections[|sections| - 1]);
      EligibleBytes(file, sections[..|sections| - 1]) + if bytes.Some? then |bytes.value| else 0
  }

  lemma EligibleNext(file: seq<Byte>, sections: seq<Section>, k: nat)
    requires k < |sections|
    ensures var bytes := SectionBytes(file, sections[k]);
            EligibleBytes(file, sections[..k + 1]) ==
              EligibleBytes(file, sections[..k]) + if bytes.Some? then |bytes.value| else 0
    ensures EligibleBytes(file, sections[..k + 1]) <= EligibleBytes(file, sections)
  {
    assert sections[..k + 1][..k] == sections[..k];
    EligibleGrows(file, sections, k + 1);
  }

  lemma {:induction false} EligibleGrows(file: seq<Byte>, sections: seq<Section>, k: nat)
    requires k <= |sections|
    ensures EligibleBytes(file, sections[..k]) <= EligibleBytes(file, sections)
    decreases |sections| - k
  {
    if k < |sections| {
      EligibleGrows(file, sections, k + 1);
      assert sections[..k + 1][..k] == sections[..k];
    } else {
      assert sections[..k] == sections;
    }
  }

  /** As long as the scan budget sufficed, the strings are all literals so far; once one found no
      room, they are those before it. */
  ghost predicate Complete(
    file: seq<Byte>, l: Layout, limits: Limits, done: nat, strings: seq<Literal>, short: bool, full: bool)
    requires done <= |l.sections|
  {
    !short ==>
      var all := AllLiterals(file, l.sections[..done], limits);
      if full then StopsBefore(limits, strings, all) else strings == all
  }

  /** The strings are the first of `all`, and the next one has no room. */
  ghost predicate StopsBefore(limits: Limits, strings: seq<Literal>, all: seq<Literal>) {
    strings <= all && NoRoom(limits, strings, all, |strings|)
  }

  lemma StopsBeforeMore(limits: Limits, strings: seq<Literal>, all: seq<Literal>, more: seq<Literal>)
    requires StopsBefore(limits, strings, all)
    ensures StopsBefore(limits, strings, all + more)
  {
    hide Utf8Total, Utf8Size;
    assert (all + more)[|strings|] == all[|strings|];
  }

  lemma StopsInside(limits: Limits, before: seq<Literal>, strings: seq<Literal>, added: seq<Literal>, taken: nat)
    requires taken <= |added| && strings == before + added[..taken] && NoRoom(limits, strings, added, taken)
    ensures StopsBefore(limits, strings, before + added)
  {
    hide Utf8Total, Utf8Size;
    var all := before + added;
    assert |strings| == |before| + taken && all[|strings|] == added[taken];
    assert all[..|strings|] == strings;
  }

  /** Some position of a whole eligible section holds a text over a per-string limit. */
  ghost predicate SomeOverlong(file: seq<Byte>, l: Layout, limits: Limits) {
    exists k: nat, offset: nat :: OverlongAt(file, l, limits, k, offset)
  }

  ghost predicate OverlongAt(file: seq<Byte>, l: Layout, limits: Limits, k: nat, offset: nat) {
    && k < |l.sections| && SectionBytes(file, l.sections[k]).Some?
    && Overlong(SectionBytes(file, l.sections[k]).value, l.sections[k].virtualAddress, offset, limits)
  }

  lemma CompleteNext(file: seq<Byte>, l: Layout, limits: Limits, done: nat)
    requires done < |l.sections|
    ensures AllLiterals(file, l.sections[..done + 1], limits) ==
            AllLiterals(file, l.sections[..done], limits)
            + (if SectionBytes(file, l.sections[done]).Some?
               then Greedy(SectionBytes(file, l.sections[done]).value, l.sections[done].virtualAddress, 0, limits)
               else [])
  {
    assert l.sections[..done + 1][..done] == l.sections[..done];
    assert AllLiterals(file, l.sections[..done], limits) + [] == AllLiterals(file, l.sections[..done], limits);
  }

  lemma NothingPublished(file: seq<Byte>, l: Layout, limits: Limits)
    ensures Published(file, l, limits, 0, []) && Complete(file, l, limits, 0, [], false, false)
    ensures Utf8Total([]) == 0 && EligibleBytes(file, l.sections[..0]) == 0
  {
  }

  lemma SkipComplete(
    file: seq<Byte>, l: Layout, limits: Limits, done: nat, strings: seq<Literal>, short: bool, full: bool)
    requires done < |l.sections| && Complete(file, l, limits, done, strings, short, full)
    requires short || full || SectionBytes(file, l.sections[done]).None?
    ensures Complete(file, l, limits, done + 1, strings, short, full)
  {
    hide AllLiterals, StopsBefore, Greedy;
    CompleteNext(file, l, limits, done);
    var all := AllLiterals(file, l.sections[..done], limits);
    if SectionBytes(file, l.sections[done]).None? {
      assert all + [] == all;
    } else if full && !short {
      StopsBeforeMore(limits, strings, all,
                      Greedy(SectionBytes(file, l.sections[done]).value, l.sections[done].virtualAddress, 0, limits));
    }
  }

  /** A whole section scanned, to its end or until a literal found no room. */
  lemma ScannedComplete(
    file: seq<Byte>, l: Layout, limits: Limits, done: nat, before: seq<Literal>, strings: seq<Literal>, taken: nat,
    goOn: bool)
    requires done < |l.sections| && Complete(file, l, limits, done, before, false, false)
    requires SectionBytes(file, l.sections[done]).Some?
    requires var all := Greedy(SectionBytes(file, l.sections[done]).value, l.sections[done].virtualAddress, 0, limits);
             && taken <= |all| && strings == before + all[..taken]
             && if goOn then taken == |all| else NoRoom(limits, strings, all, taken)
    ensures Complete(file, l, limits, done + 1, strings, false, !goOn)
  {
    hide Greedy, AllLiterals, StopsBefore, NoRoom;
    CompleteNext(file, l, limits, done);
    var all := Greedy(SectionBytes(file, l.sections[done]).value, l.sections[done].virtualAddress, 0, limits);
    if goOn { assert all[..|all|] == all; } else { StopsInside(limits, before, strings, all, taken); }
  }

  ghost predicate StringsAcceptable(l: Layout, limits: Limits, strings: seq<Literal>) {
    && |strings| <= limits.strings && Utf8Total(strings) <= limits.totalUtf8
    && (forall k :: 0 <= k < |strings| ==> LiteralAccepted(l, limits, strings[k]))
    && Ordered(strings)
  }

  lemma PublishedIsAcceptable(file: seq<Byte>, l: Layout, limits: Limits, strings: seq<Literal>)
    requires Published(file, l, limits, |l.sections|, strings)
    requires |strings| <= limits.strings && Utf8Total(strings) <= limits.totalUtf8
    ensures StringsAcceptable(l, limits, strings)
    ensures forall k :: 0 <= k < |strings| ==> ByteExact(file, l, strings[k])
  {
  }

  /** Every position of an eligible section at which a literal starts is covered by one. */
  ghost predicate NoneMissing(file: seq<Byte>, l: Layout, limits: Limits, strings: seq<Literal>) {
    forall k: nat, at: nat :: StartsLiteral(file, l.sections, limits, k, at) ==>
      CoveredBy(strings, l.sections[k].virtualAddress + at)
  }

  lemma AllHasNoneMissing(file: seq<Byte>, l: Layout, limits: Limits)
    ensures NoneMissing(file, l, limits, AllLiterals(file, l.sections, limits))
  {
    hide CoveredBy, AllLiterals, CandidateAt;
    forall k: nat, at: nat | StartsLiteral(file, l.sections, limits, k, at)
      ensures CoveredBy(AllLiterals(file, l.sections, limits), l.sections[k].virtualAddress + at)
    {
      ImageIsCovered(file, l.sections, limits, k, at);
    }
  }

  /** Scan the sections in address order within the scan budget. Whatever limit is hit, what is
      published is exact, ordered and acceptable; when none is hit, nothing is missing, and the
      result is reported as truncated only if one was. */
  method RecoverStrings(file: seq<Byte>, l: Layout, limits: Limits) returns (strings: seq<Literal>, truncated: bool)
    requires Accepted(l) && |file| == l.fileSize
    ensures StringsAcceptable(l, limits, strings)
    ensures forall k :: 0 <= k < |strings| ==> ByteExact(file, l, strings[k])
    ensures !truncated ==> strings == AllLiterals(file, l.sections, limits)
    ensures !truncated ==> NoneMissing(file, l, limits, strings)
    ensures truncated ==>
              || EligibleBytes(file, l.sections) > limits.scanBytes || SomeOverlong(file, l, limits)
              || StopsBefore(limits, strings, AllLiterals(file, l.sections, limits))
    ensures EligibleBytes(file, l.sections) <= limits.scanBytes ==>
              var all := AllLiterals(file, l.sections, limits);
              strings == all || (truncated && StopsBefore(limits, strings, all))
  {
    hide LiteralAccepted, ByteExact, Greedy, Utf8Total, AllLiterals, NoneMissing, EligibleBytes, StopsBefore,
      SomeOverlong;
    AllHasNoneMissing(file, l, limits);
    strings, truncated := [], false;
    var scanned, retained: nat, stop := 0, 0, false;
    ghost var short, full := false, false;
    NothingPublished(file, l, limits);
    for k := 0 to |l.sections|
      invariant |strings| <= limits.strings && retained == Utf8Total(strings) <= limits.totalUtf8
      invariant Published(file, l, limits, k, strings) && Complete(file, l, limits, k, strings, short, full)
      invariant scanned <= limits.scanBytes && (!stop ==> scanned == EligibleBytes(file, l.sections[..k]))
      invariant stop == (short || full) && (stop ==> truncated)
      invariant short ==> EligibleBytes(file, l.sections) > limits.scanBytes
      invariant truncated ==> short || full || SomeOverlong(file, l, limits)
    {
      hide Published, Complete;
      var s := l.sections[k];
      var bytes := SectionBytes(file, s);
      EligibleNext(file, l.sections, k);
      if stop || bytes.None? {
        SkipSection(file, l, limits, k, strings);
        SkipComplete(file, l, limits, k, strings, short, full);
      } else if scanned == limits.scanBytes {
        SkipSection(file, l, limits, k, strings);
        stop, truncated, short := true, true, true;
        ShortIsComplete(file, l, limits, k + 1, strings, full);
      } else {
        var room := limits.scanBytes - scanned;
        var length := if |bytes.value| < room then |bytes.value| else room;
        var goOn;
        ghost var taken, before, truncated0 := 0, strings, truncated;
        scanned := scanned + length;
        goOn, strings, retained, truncated, taken :=
          ScanSection(file[s.rawOffset..s.rawOffset + length], s.virtualAddress, limits, strings, retained, truncated);
        AddSection(file, l, limits, k, before, length, taken);
        if length < |bytes.value| {
          short := true;
          ShortIsComplete(file, l, limits, k + 1, strings, full);
        } else {
          full := !goOn;
          ScannedComplete(file, l, limits, k, before, strings, taken, goOn);
          if goOn && truncated && !truncated0 { OverlongIsSomewhere(file, l, limits, k); }
        }
        if !goOn || length < |bytes.value| { stop, truncated := true, true; }
      }
    }
    assert l.sections[..|l.sections|] == l.sections;
    PublishedIsAcceptable(file, l, limits, strings);
  }

  lemma ShortIsComplete(file: seq<Byte>, l: Layout, limits: Limits, done: nat, strings: seq<Literal>, full: bool)
    requires done <= |l.sections|
    ensures Complete(file, l, limits, done, strings, true, full)
  {
  }

  lemma OverlongIsSomewhere(file: seq<Byte>, l: Layout, limits: Limits, k: nat)
    requires k < |l.sections| && SectionBytes(file, l.sections[k]).Some?
    requires exists offset: nat ::
               Overlong(SectionBytes(file, l.sections[k]).value, l.sections[k].virtualAddress, offset, limits)
    ensures SomeOverlong(file, l, limits)
  {
    var offset: nat :| Overlong(SectionBytes(file, l.sections[k]).value, l.sections[k].virtualAddress, offset, limits);
    assert OverlongAt(file, l, limits, k, offset);
  }

  /** The validator: each record against the one before, and running totals. */
  method ValidateStrings(l: Layout, limits: Limits, strings: seq<Literal>) returns (ok: bool)
    ensures ok <==> StringsAcceptable(l, limits, strings)
  {
    hide LiteralAccepted;
    if |strings| > limits.strings { return false; }
    var total := 0;
    for k := 0 to |strings|
      invariant total == Utf8Total(strings[..k]) <= limits.totalUtf8
      invariant forall i :: 0 <= i < k ==> LiteralAccepted(l, limits, strings[i])
      invariant Ordered(strings[..k])
    {
      if k > 0 && (strings[k - 1].rva >= strings[k].rva || strings[k - 1].rva + strings[k - 1].size > strings[k].rva) {
        if strings[k - 1].rva >= strings[k].rva { RecordIsNonEmpty(l, limits, strings[k - 1]); }
        return false;
      }
      if !LiteralAccepted(l, limits, strings[k]) { return false; }
      total := total + Utf8Size(strings[k].value);
      assert strings[..k + 1][..k] == strings[..k];
      if total > limits.totalUtf8 {
        TotalGrows(strings, k + 1);
        return false;
      }
      OrderedNext(strings, k);
    }
    assert strings[..|strings|] == strings;
    ok := true;
  }

  lemma RecordIsNonEmpty(l: Layout, limits: Limits, x: Literal)
    requires LiteralAccepted(l, limits, x)
    ensures x.size > 0
  {
  }

  lemma OrderedNext(strings: seq<Literal>, k: nat)
    requires k < |strings| && Ordered(strings[..k])
    requires k > 0 ==> strings[k - 1].rva + strings[k - 1].size <= strings[k].rva
    ensures Ordered(strings[..k + 1])
  {
    forall i | 0 <= i < k ensures strings[i].rva + strings[i].size <= strings[k].rva {
      if i < k - 1 { assert strings[..k][i].rva + strings[..k][i].size <= strings[..k][k - 1].rva; }
    }
  }

  lemma {:induction false} TotalGrows(strings: seq<Literal>, k: nat)
    requires k <= |strings|
    ensures Utf8Total(strings[..k]) <= Utf8Total(strings)
    decreases |strings| - k
  {
    if k < |strings| {
      TotalGrows(strings, k + 1);
      assert strings[..k + 1][..k] == strings[..k];
    } else {
      assert strings[..k] == strings;
    }
  }

  /** Sorting by address and removing duplicates leave accepted records as they are. */
  lemma {:induction false} SortIsNoOp(strings: seq<Literal>, sorted: seq<Literal>)
    requires forall i, j :: 0 <= i < j < |strings| ==> strings[i].rva < strings[j].rva
    requires forall i, j :: 0 <= i < j < |sorted| ==> sorted[i].rva <= sorted[j].rva
    requires multiset(sorted) == multiset(strings)
    ensures sorted == strings
  {
    assert |sorted| == |multiset(sorted)| == |multiset(strings)| == |strings|;
    if strings != [] {
      SameFirst(strings, sorted);
      assert Without(sorted, 0) == sorted[1..] && Without(strings, 0) == strings[1..];
      WithoutPermutes(sorted, 0, strings, 0);
      SortIsNoOp(strings[1..], sorted[1..]);
    }
  }

  lemma SameFirst(strings: seq<Literal>, sorted: seq<Literal>)
    requires strings != [] && sorted != [] && multiset(sorted) == multiset(strings)
    requires forall i, j :: 0 <= i < j < |strings| ==> strings[i].rva < strings[j].rva
    requires forall i, j :: 0 <= i < j < |sorted| ==> sorted[i].rva <= sorted[j].rva
    ensures sorted[0] == strings[0]
  {
    assert sorted[0] in multiset(strings) && strings[0] in multiset(sorted);
    var i :| 0 <= i < |strings| && strings[i] == sorted[0];
    var j :| 0 <= j < |sorted| && sorted[j] == strings[0];
  }

  lemma AcceptedIsStrict(l: Layout, limits: Limits, strings: seq<Literal>)
    requires StringsAcceptable(l, limits, strings)
    ensures forall i, j :: 0 <= i < j < |strings| ==> strings[i].rva < strings[j].rva
  {
    hide TextAccepted;
    forall i, j | 0 <= i < j < |strings| ensures strings[i].rva < strings[j].rva {
      RecordIsNonEmpty(l, limits, strings[i]);
    }
  }

  /** The scanner's output always passes the validator. */
  method CheckStrings(file: seq<Byte>, l: Layout, limits: Limits) returns (ok: bool)
    requires Accepted(l) && |file| == l.fileSize
    ensures ok
  {
    hide StringsAcceptable;
    var strings, truncated := RecoverStrings(file, l, limits);
    ok := ValidateStrings(l, limits, strings);
  }
}
