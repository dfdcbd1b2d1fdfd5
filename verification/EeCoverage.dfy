/** Which guest words are executable: aligned, fully file-backed words of executable PT_LOAD
    mappings, and the ordered range table that answers fetches. */
module EeCoverage {
  import opened Common
  import opened ElfLoad
  import opened R5900

  datatype Range = Range(start: nat, end: nat, fileOffset: nat)

  /** Aligned, non-empty, file-backed ranges below the linear end, in order and disjoint. */
  predicate Valid(ranges: seq<Range>, fileLength: nat) {
    && (forall r :: r in ranges ==>
          && r.start % 4 == 0 && r.end % 4 == 0 && r.start < r.end <= LINEAR_PC_END
          && r.fileOffset + (r.end - r.start) <= fileLength)
    && (forall i, j :: 0 <= i < j < |ranges| ==> ranges[i].end <= ranges[j].start)
  }

  /** The word at `address` lies wholly in the file bytes of one executable mapping. */
  ghost predicate ExecutableWord(segments: seq<Segment>, address: nat) {
    && address % 4 == 0
    && exists s :: s in segments && s.Executable() && s.address <= address && address + 4 <= s.FileEnd()
  }

  ghost predicate Covers(ranges: seq<Range>, address: nat) {
    && address % 4 == 0
    && exists r :: r in ranges && r.start <= address < r.end
  }

  function AlignUp4(x: nat): nat { (x + 3) / 4 * 4 }
  function AlignDown4(x: nat): nat { x / 4 * 4 }

  /** The aligned file-backed part of one mapping, if any whole word fits. */
  function CoverageOf(s: Segment): Option<Range> {
    var start := AlignUp4(s.address);
    var delta := start - s.address;
    if delta >= s.fileSize then None
    else
      var size := AlignDown4(s.fileSize - delta);
      if size == 0 then None else Some(Range(start, start + size, s.fileOffset + delta))
  }

  /** The aligned part holds exactly the whole aligned words of the mapping's file bytes. */
  lemma CoverageIsExact(s: Segment, address: nat)
    requires address % 4 == 0
    ensures (CoverageOf(s).Some? && CoverageOf(s).value.start <= address < CoverageOf(s).value.end)
            <==> (s.address <= address && address + 4 <= s.FileEnd())
    ensures CoverageOf(s).Some? ==>
              var r := CoverageOf(s).value;
              && r.start % 4 == 0 && r.end % 4 == 0 && r.start < r.end
              && s.address <= r.start && r.end <= s.FileEnd()
              && r.fileOffset == s.fileOffset + (r.start - s.address)
  {
  }

  function Bytes(r: Range): int { r.end - r.start }

  function TotalBytes(ranges: seq<Range>): int {
    if ranges == [] then 0 else TotalBytes(ranges[..|ranges| - 1]) + Bytes(ranges[|ranges| - 1])
  }

  /** The ranges of all executable mappings, in mapping order. */
  function Parts(segments: seq<Segment>): seq<Range> {
    if segments == [] then []
    else
      var s := segments[|segments| - 1];
      var rest := Parts(segments[..|segments| - 1]);
      if s.Executable() && CoverageOf(s).Some? then rest + [CoverageOf(s).value] else rest
  }

  predicate WithinLimits(ranges: seq<Range>, maximumBytes: nat, maximumWords: nat) {
    && (forall r :: r in ranges ==> r.end <= LINEAR_PC_END)
    && TotalBytes(ranges) <= maximumBytes && TotalBytes(ranges) / 4 <= maximumWords
  }

  /** Build the fetch table, or refuse it when it is too large or reaches the linear end. */
  method BuildExecutableCoverage(segments: seq<Segment>, maximumBytes: nat, maximumWords: nat)
    returns (result: Option<seq<Range>>)
    ensures result == if WithinLimits(Parts(segments), maximumBytes, maximumWords) then Some(Parts(segments)) else None
  {
    hide Parts, CoverageOf, WithinLimits, Counts;
    var ranges: seq<Range> := [];
    var totalBytes, totalWords := 0, 0;
    NothingWithin(segments, maximumBytes, maximumWords);
    for k := 0 to |segments|
      invariant ranges == Parts(segments[..k]) && Counts(ranges, totalBytes, totalWords)
      invariant WithinLimits(ranges, maximumBytes, maximumWords)
    {
      NextPart(segments, k);
      var part := CoverageOf(segments[k]);
      if segments[k].Executable() && part.Some? {
        var range := part.value;
        OneMoreWithin(segments[k], ranges, range, totalBytes, totalWords, maximumBytes, maximumWords);
        totalBytes, totalWords := totalBytes + Bytes(range), totalWords + Bytes(range) / 4;
        ranges := ranges + [range];
        if totalBytes > maximumBytes || totalWords > maximumWords || range.end > LINEAR_PC_END {
          ExceedsAnyway(segments, k + 1, maximumBytes, maximumWords);
          return None;
        }
      }
    }
    assert segments[..|segments|] == segments;
    return Some(ranges);
  }

  /** The running totals of bytes and whole words. */
  ghost predicate Counts(ranges: seq<Range>, bytes: int, words: int) { bytes == TotalBytes(ranges) == 4 * words }

  lemma NothingWithin(segments: seq<Segment>, maximumBytes: nat, maximumWords: nat)
    ensures Parts(segments[..0]) == [] && Counts([], 0, 0) && WithinLimits([], maximumBytes, maximumWords)
  {
  }

  lemma NextPart(segments: seq<Segment>, k: nat)
    requires k < |segments|
    ensures var s, rest := segments[k], Parts(segments[..k]);
            Parts(segments[..k + 1]) ==
              if s.Executable() && CoverageOf(s).Some? then rest + [CoverageOf(s).value] else rest
  {
    hide CoverageOf;
    assert segments[..k + 1][..k] == segments[..k];
  }

  /** One more part adds its bytes, a whole number of words, and fits if the totals and its end do. */
  lemma OneMoreWithin(
    s: Segment, ranges: seq<Range>, range: Range, bytes: int, words: int, maximumBytes: nat, maximumWords: nat)
    requires CoverageOf(s) == Some(range) && Counts(ranges, bytes, words)
    requires WithinLimits(ranges, maximumBytes, maximumWords)
    ensures var bytes1, words1 := bytes + Bytes(range), words + Bytes(range) / 4;
            && Counts(ranges + [range], bytes1, words1)
            && (WithinLimits(ranges + [range], maximumBytes, maximumWords) <==>
                  bytes1 <= maximumBytes && words1 <= maximumWords && range.end <= LINEAR_PC_END)
  {
    hide CoverageOf;
    CoverageIsExact(s, 0);
    var all, added := ranges + [range], Bytes(range) / 4;
    assert all[..|ranges|] == ranges && range in all;
    assert TotalBytes(all) == 4 * (words + added);
  }

  lemma ExceedsAnyway(segments: seq<Segment>, k: nat, maximumBytes: nat, maximumWords: nat)
    requires k <= |segments| && !WithinLimits(Parts(segments[..k]), maximumBytes, maximumWords)
    ensures !WithinLimits(Parts(segments), maximumBytes, maximumWords)
  {
    hide Parts, TotalBytes;
    PartsGrow(segments, k);
  }

  /** Later mappings only add ranges and bytes, so an early refusal is final. */
  lemma {:induction false} PartsGrow(segments: seq<Segment>, k: nat)
    requires k <= |segments|
    ensures TotalBytes(Parts(segments[..k])) <= TotalBytes(Parts(segments))
    ensures forall r :: r in Parts(segments[..k]) ==> r in Parts(segments)
  {
    if k == |segments| {
      assert segments[..k] == segments;
    } else {
      var shorter := segments[..|segments| - 1];
      assert shorter[..k] == segments[..k];
      PartsGrow(shorter, k);
      var s, rest := segments[|segments| - 1], Parts(shorter);
      if s.Executable() && CoverageOf(s).Some? {
        CoverageIsExact(s, CoverageOf(s).value.start);
        assert (rest + [CoverageOf(s).value])[..|rest|] == rest;
      }
    }
  }

  /** On a derived mapping the table is valid and already in address order, so sorting it
      changes nothing, and it covers exactly the executable words. */
  lemma {:induction false} CoverageIsValid(segments: seq<Segment>, fileLength: nat)
    requires Disjoint(segments)
    requires forall s :: s in segments ==> s.fileOffset + s.fileSize <= fileLength
    requires forall r :: r in Parts(segments) ==> r.end <= LINEAR_PC_END
    ensures Valid(Parts(segments), fileLength)
    ensures forall r :: r in Parts(segments) ==> segments != [] && r.end <= segments[|segments| - 1].End()
    ensures forall address: nat :: Covers(Parts(segments), address) <==> ExecutableWord(segments, address)
  {
    hide Covers, ExecutableWord, Parts, CoverageOf, Valid;
    if segments == [] {
      NoCoverage(fileLength);
      return;
    }
    var n := |segments| - 1;
    var s, rest := segments[n], segments[..n];
    assert s in segments && segments[..n + 1] == segments;
    NextPart(segments, n);
    CoverageIsValid(rest, fileLength);
    forall address: nat ensures Covers(Parts(segments), address) <==> ExecutableWord(segments, address) {
      LastMapping(segments, address);
    }
    if s.Executable() && CoverageOf(s).Some? {
      var last := CoverageOf(s).value;
      CoverageIsExact(s, 0);
      assert last in Parts(segments);
      OneMoreValid(Parts(rest), last, fileLength);
    }
  }

  lemma NoCoverage(fileLength: nat)
    ensures Parts([]) == [] && Valid([], fileLength)
    ensures forall address: nat :: Covers([], address) <==> ExecutableWord([], address)
  {
  }

  lemma OneMoreValid(ranges: seq<Range>, r: Range, fileLength: nat)
    requires Valid(ranges, fileLength) && forall q :: q in ranges ==> q.end <= r.start
    requires r.start % 4 == 0 && r.end % 4 == 0 && r.start < r.end <= LINEAR_PC_END
    requires r.fileOffset + (r.end - r.start) <= fileLength
    ensures Valid(ranges + [r], fileLength)
  {
  }

  /** One mapping's own executable words. */
  ghost predicate WordOf(s: Segment, address: nat) {
    address % 4 == 0 && s.Executable() && s.address <= address && address + 4 <= s.FileEnd()
  }

  lemma OneMoreMapping(segments: seq<Segment>, s: Segment, address: nat)
    ensures ExecutableWord(segments + [s], address) <==> ExecutableWord(segments, address) || WordOf(s, address)
  {
    if ExecutableWord(segments + [s], address) && !WordOf(s, address) {
      var t :| t in segments + [s] && t.Executable() && t.address <= address && address + 4 <= t.FileEnd();
      assert t in segments;
    }
    if ExecutableWord(segments, address) {
      var t :| t in segments && t.Executable() && t.address <= address && address + 4 <= t.FileEnd();
      assert t in segments + [s];
    }
    if WordOf(s, address) { assert s in segments + [s]; }
  }

  lemma OneMoreRange(ranges: seq<Range>, r: Range, address: nat)
    ensures Covers(ranges + [r], address) <==>
              Covers(ranges, address) || (address % 4 == 0 && r.start <= address < r.end)
  {
    if Covers(ranges, address) {
      var q :| q in ranges && q.start <= address < q.end;
      assert q in ranges + [r];
    }
    assert r in ranges + [r];
  }

  lemma LastMapping(segments: seq<Segment>, address: nat)
    requires segments != []
    requires Covers(Parts(segments[..|segments| - 1]), address) <==> ExecutableWord(segments[..|segments| - 1], address)
    ensures Covers(Parts(segments), address) <==> ExecutableWord(segments, address)
  {
    hide Covers, ExecutableWord, CoverageOf, Parts;
    var n := |segments| - 1;
    var s, rest := segments[n], segments[..n];
    var parts := Parts(rest);
    assert segments == rest + [s] && segments[..n + 1] == segments;
    NextPart(segments, n);
    OneMoreMapping(rest, s, address);
    if address % 4 == 0 { CoverageIsExact(s, address); }
    if CoverageOf(s).Some? { OneMoreRange(parts, CoverageOf(s).value, address); }
  }

  // ----- fetch -----

  /** Index of the first range that ends above an address. */
  function FirstEndingAbove(ranges: seq<Range>, address: nat): (index: nat)
    ensures index <= |ranges|
    ensures forall i :: 0 <= i < index ==> ranges[i].end <= address
    ensures index < |ranges| ==> address < ranges[index].end
  {
    if ranges == [] || address < ranges[0].end then 0
    else 1 + FirstEndingAbove(ranges[1..], address)
  }

  /** Fetch one guest word through the range table. */
  function WordAt(ranges: seq<Range>, bytes: seq<Byte>, address: nat): Option<U32> {
    if address % 4 != 0 then None
    else
      var index := FirstEndingAbove(ranges, address);
      if index == |ranges| then None
      else
        var r := ranges[index];
        if address < r.start || address + 4 > r.end then None
        else
          var offset := r.fileOffset + (address - r.start);
          if offset + 4 > |bytes| then None else Some(LittleEndian32(bytes, offset))
  }

  /** The table answers exactly the covered words, with the bytes of the covering range. */
  lemma FetchIsExact(ranges: seq<Range>, bytes: seq<Byte>, address: nat)
    requires Valid(ranges, |bytes|)
    ensures WordAt(ranges, bytes, address).Some? <==> Covers(ranges, address)
    ensures forall r :: r in ranges && r.start <= address < r.end && address % 4 == 0 ==>
              && r.fileOffset + (address - r.start) + 4 <= |bytes|
              && WordAt(ranges, bytes, address) == Some(LittleEndian32(bytes, r.fileOffset + (address - r.start)))
  {
    hide LittleEndian32, FirstEndingAbove;
    var index := FirstEndingAbove(ranges, address);
    if index < |ranges| { assert ranges[index] in ranges; }
    forall r | r in ranges && r.start <= address < r.end && address % 4 == 0
      ensures index < |ranges| && r == ranges[index] && address + 4 <= r.end
    {
      HolderIsPoint(ranges, |bytes|, address, r);
    }
  }

  /** The range that holds an aligned address is the one at the partition point, with a whole word. */
  lemma HolderIsPoint(ranges: seq<Range>, fileLength: nat, address: nat, r: Range)
    requires Valid(ranges, fileLength) && r in ranges && r.start <= address < r.end && address % 4 == 0
    ensures FirstEndingAbove(ranges, address) < |ranges| && r == ranges[FirstEndingAbove(ranges, address)]
    ensures address + 4 <= r.end
  {
    hide FirstEndingAbove;
    var index := FirstEndingAbove(ranges, address);
    var i :| 0 <= i < |ranges| && ranges[i] == r;
    assert forall j :: 0 <= j < |ranges| && j < i ==> ranges[j].end <= ranges[i].start;
  }

  /** The file offset of an address in a mapping. */
  function OffsetIn(s: Segment, address: nat): nat
    requires s.address <= address
  {
    s.fileOffset + (address - s.address)
  }

  lemma {:induction false} PartIsListed(segments: seq<Segment>, s: Segment)
    requires s in segments && s.Executable() && CoverageOf(s).Some?
    ensures CoverageOf(s).value in Parts(segments)
    decreases |segments|
  {
    hide CoverageOf;
    var n := |segments| - 1;
    if s != segments[n] {
      assert s in segments[..n];
      PartIsListed(segments[..n], s);
    }
  }

  /** Fetching through the coverage of a mapping reads the file bytes the mapping puts there. */
  lemma FetchReadsFile(segments: seq<Segment>, bytes: seq<Byte>, s: Segment, address: nat)
    requires Valid(Parts(segments), |bytes|) && s in segments && WordOf(s, address)
    ensures OffsetIn(s, address) + 4 <= |bytes|
    ensures WordAt(Parts(segments), bytes, address) == Some(LittleEndian32(bytes, OffsetIn(s, address)))
  {
    CoverageIsExact(s, address);
    PartIsListed(segments, s);
    FetchIsExact(Parts(segments), bytes, address);
  }

  /** The guest program an accepted table denotes under one of the bundled profiles. */
  function Program(ranges: seq<Range>, bytes: seq<Byte>, profile: Profile, alu: Alu): (m: Image)
    requires Valid(ranges, |bytes|)
    ensures forall address: nat :: m.wordAt(address).Some? <==> Covers(ranges, address)
  {
    var m := Machine(
      (address: nat) => match WordAt(ranges, bytes, address) case None => None case Some(w) => Some(Split(w)),
      (word: Word, pc: nat) => Decode(profile, word, pc), alu);
    assert forall address: nat :: m.wordAt(address).Some? <==> Covers(ranges, address) by {
      forall address: nat ensures m.wordAt(address).Some? <==> Covers(ranges, address) {
        FetchIsExact(ranges, bytes, address);
      }
    }
    m
  }
}
