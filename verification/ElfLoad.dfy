/** PT_LOAD mappings of an ELF image: derivation from program headers, the image extent, and
    the binary-search lookup that classifies guest spans against the sparse mapping. */
module ElfLoad {
  import opened Common

  const PT_LOAD := 1
  const ELF32_ADDRESS_SPACE_END := 0x1_0000_0000

  datatype Class = Elf32 | Elf64

  datatype ProgramHeader = ProgramHeader(
    index: nat, kind: nat, flags: nat, fileOffset: U64, fileSize: U64,
    address: U64, memorySize: U64, alignment: nat)

  datatype Segment = Segment(
    index: nat, fileOffset: U64, fileSize: U64, address: U64, memorySize: U64, flags: nat)
  {
    function End(): nat { address + memorySize }
    function FileEnd(): nat { address + fileSize }
    predicate Executable() { flags % 2 == 1 }

    /** What derivation guarantees of every retained mapping. */
    predicate Mapped() { 0 < memorySize && fileSize <= memorySize && End() < TWO_64 }

    predicate Apart(other: Segment) { End() <= other.address || other.End() <= address }
  }

  // ----- derivation -----

  /** The per-header checks, in the order of the source: file range, alignment and, for a
      loadable header, its sizes and virtual range. */
  predicate HeaderAccepted(h: ProgramHeader, fileLength: nat, elf: Class) {
    && h.fileOffset + h.fileSize < TWO_64 && h.fileOffset + h.fileSize <= fileLength
    && (h.alignment > 1 ==> IsPowerOfTwo(h.alignment) && h.address % h.alignment == h.fileOffset % h.alignment)
    && (h.kind == PT_LOAD ==>
          && h.fileSize <= h.memorySize
          && (h.memorySize != 0 ==>
                && h.address + h.memorySize < TWO_64
                && (elf == Elf32 ==> h.address + h.memorySize <= ELF32_ADDRESS_SPACE_END)))
  }

  predicate Loads(h: ProgramHeader) { h.kind == PT_LOAD && h.memorySize != 0 }

  function ToSegment(h: ProgramHeader): Segment {
    Segment(h.index, h.fileOffset, h.fileSize, h.address, h.memorySize, h.flags)
  }

  /** Every header passes its own checks, something is mapped, and no two mappings overlap. */
  ghost predicate Acceptable(headers: seq<ProgramHeader>, fileLength: nat, elf: Class) {
    && (forall h :: h in headers ==> HeaderAccepted(h, fileLength, elf))
    && (exists h :: h in headers && Loads(h))
    && (forall a, b :: a in headers && b in headers && a != b && Loads(a) && Loads(b) ==>
          ToSegment(a).Apart(ToSegment(b)))
  }

  predicate Before(a: Segment, b: Segment) {
    a.address < b.address || (a.address == b.address && a.index < b.index)
  }

  predicate Ordered(segments: seq<Segment>) {
    forall i, j :: 0 <= i < j < |segments| ==> Before(segments[i], segments[j])
  }

  predicate DistinctIndices(segments: seq<Segment>) {
    forall i, j :: 0 <= i < j < |segments| ==> segments[i].index != segments[j].index
  }

  /** The mapping every lookup relies on: non-empty mappings in address order, none overlapping. */
  predicate Disjoint(segments: seq<Segment>) {
    && (forall s :: s in segments ==> s.Mapped())
    && (forall i, j :: 0 <= i < j < |segments| ==> segments[i].End() <= segments[j].address)
  }

  function Insert(segment: Segment, sorted: seq<Segment>): (r: seq<Segment>)
    requires Ordered(sorted) && (forall s :: s in sorted ==> s.index != segment.index)
    ensures Ordered(r) && |r| == |sorted| + 1
    ensures forall s :: s in r <==> s == segment || s in sorted
  {
    if sorted == [] then [segment]
    else if Before(segment, sorted[0]) then [segment] + sorted
    else
      var rest := Insert(segment, sorted[1..]);
      assert Before(sorted[0], segment);
      assert forall k :: 0 <= k < |rest| ==> rest[k] in rest;
      assert forall s :: s in sorted[1..] ==> Before(sorted[0], s);
      [sorted[0]] + rest
  }

  /** Sort by address, then by program-header index. */
  function SortByAddress(segments: seq<Segment>): (r: seq<Segment>)
    requires DistinctIndices(segments)
    ensures Ordered(r) && |r| == |segments|
    ensures forall s :: s in r <==> s in segments
  {
    if segments == [] then [] else Insert(segments[0], SortByAddress(segments[1..]))
  }

  /** Checking neighbours suffices: an ordered list whose neighbours do not overlap has no
      overlapping pair at all. */
  lemma {:induction false} NeighboursSuffice(segments: seq<Segment>, i: nat, j: nat)
    requires forall s :: s in segments ==> s.Mapped()
    requires forall k :: 0 < k < |segments| ==> segments[k - 1].End() <= segments[k].address
    requires i < j < |segments|
    ensures segments[i].End() <= segments[j].address
    decreases j - i
  {
    if i + 1 < j {
      NeighboursSuffice(segments, i, j - 1);
      assert segments[j - 1] in segments;
      assert segments[j - 1].End() <= segments[j].address;
    } else {
      assert segments[j - 1].End() <= segments[j].address;
    }
  }

  /** The segment stands for one of the headers' non-empty loadable entries. */
  ghost predicate ComesFrom(headers: seq<ProgramHeader>, s: Segment) {
    exists h :: h in headers && Loads(h) && s == ToSegment(h)
  }

  /** Check every header and collect the non-empty loadable ones in table order. */
  method CollectLoads(headers: seq<ProgramHeader>, fileLength: nat, elf: Class)
    returns (ok: bool, found: seq<Segment>)
    requires forall k :: 0 <= k < |headers| ==> headers[k].index == k
    ensures ok <==> forall h :: h in headers ==> HeaderAccepted(h, fileLength, elf)
    ensures ok ==> DistinctIndices(found) && forall s :: s in found <==> ComesFrom(headers, s)
  {
    found := [];
    for k := 0 to |headers|
      invariant forall i :: 0 <= i < k ==> HeaderAccepted(headers[i], fileLength, elf)
      invariant forall i :: 0 <= i < |found| ==> found[i].index < k
      invariant DistinctIndices(found)
      invariant forall s :: s in found <==> ComesFrom(headers[..k], s)
    {
      var h := headers[k];
      assert h in headers;
      if !HeaderAccepted(h, fileLength, elf) { return false, []; }
      assert headers[..k + 1] == headers[..k] + [h];
      forall s
        ensures ComesFrom(headers[..k + 1], s) <==> ComesFrom(headers[..k], s) || (Loads(h) && s == ToSegment(h))
      {
        if Loads(h) && s == ToSegment(h) { assert h in headers[..k + 1]; }
      }
      if Loads(h) { found := found + [ToSegment(h)]; }
    }
    assert headers[..|headers|] == headers;
    ok := true;
  }

  /** Derive the sorted load mapping. Acceptance is exactly the order-free condition, and the
      result holds every non-empty loadable header once, disjoint and in address order. */
  method DeriveLoadSegments(headers: seq<ProgramHeader>, fileLength: nat, elf: Class)
    returns (result: Option<seq<Segment>>)
    requires forall k :: 0 <= k < |headers| ==> headers[k].index == k
    ensures result.Some? <==> Acceptable(headers, fileLength, elf)
    ensures result.Some? ==>
              && Disjoint(result.value) && result.value != []
              && (forall s :: s in result.value <==> ComesFrom(headers, s))
              && (elf == Elf32 ==> forall s :: s in result.value ==> s.End() <= ELF32_ADDRESS_SPACE_END)
  {
    var ok, found := CollectLoads(headers, fileLength, elf);
    if !ok { return None; }
    var segments := SortByAddress(found);
    if segments == [] {
      assert forall h :: h in headers && Loads(h) ==> ToSegment(h) !in segments ==> !ComesFrom(headers, ToSegment(h));
      return None;
    }
    for k := 1 to |segments|
      invariant forall i :: 0 < i < k ==> segments[i - 1].End() <= segments[i].address
    {
      if segments[k - 1].End() > segments[k].address {
        Overlap(headers, segments, k);
        return None;
      }
    }
    forall i, j | 0 <= i < j < |segments| ensures segments[i].End() <= segments[j].address {
      NeighboursSuffice(segments, i, j);
    }
    DisjointIsAcceptable(headers, fileLength, elf, segments);
    return Some(segments);
  }

  /** Disjoint segments drawn from distinct headers mean that no two headers overlap. */
  lemma DisjointIsAcceptable(headers: seq<ProgramHeader>, fileLength: nat, elf: Class, segments: seq<Segment>)
    requires forall k :: 0 <= k < |headers| ==> headers[k].index == k
    requires forall h :: h in headers ==> HeaderAccepted(h, fileLength, elf)
    requires forall s :: s in segments <==> ComesFrom(headers, s)
    requires Disjoint(segments) && segments != []
    ensures Acceptable(headers, fileLength, elf)
  {
    assert segments[0] in segments;
    forall a, b | a in headers && b in headers && a != b && Loads(a) && Loads(b)
      ensures ToSegment(a).Apart(ToSegment(b))
    {
      assert a.index != b.index;
      assert ComesFrom(headers, ToSegment(a)) && ComesFrom(headers, ToSegment(b));
      var i :| 0 <= i < |segments| && segments[i] == ToSegment(a);
      var j :| 0 <= j < |segments| && segments[j] == ToSegment(b);
      assert i < j || j < i;
    }
  }

  /** Two overlapping neighbours come from two different overlapping headers. */
  lemma Overlap(headers: seq<ProgramHeader>, segments: seq<Segment>, k: nat)
    requires Ordered(segments) && 0 < k < |segments|
    requires forall s :: s in segments <==> ComesFrom(headers, s)
    requires segments[k - 1].End() > segments[k].address
    ensures exists a, b :: a in headers && b in headers && a != b && Loads(a) && Loads(b)
                           && !ToSegment(a).Apart(ToSegment(b))
  {
    assert segments[k - 1] in segments && segments[k] in segments;
    var a :| a in headers && Loads(a) && segments[k - 1] == ToSegment(a);
    var b :| b in headers && Loads(b) && segments[k] == ToSegment(b);
    assert Before(segments[k - 1], segments[k]);
    assert !ToSegment(a).Apart(ToSegment(b));
  }

  // ----- image extent -----

  /** Image base and size: the tightest interval holding every mapping. */
  method ImageExtent(segments: seq<Segment>) returns (base: U64, size: U64)
    requires Disjoint(segments) && segments != []
    ensures 0 < size && base + size < TWO_64
    ensures forall s :: s in segments ==> base <= s.address && s.End() <= base + size
    ensures (exists s :: s in segments && s.address == base) && (exists s :: s in segments && s.End() == base + size)
  {
    assert segments[0] in segments;
    base := segments[0].address;
    var end: nat := base;
    for k := 0 to |segments|
      invariant end < TWO_64 && base <= end
      invariant forall i :: 0 <= i < k ==> base <= segments[i].address && segments[i].End() <= end
      invariant k == 0 ==> end == base
      invariant 0 < k ==> base < end && exists i :: 0 <= i < k && segments[i].End() == end
    {
      var segment := segments[k];
      assert segment in segments;
      if segment.End() > end {
        end := segment.End();
        assert segments[k].End() == end;
      }
    }
    size := end - base;
    var last :| 0 <= last < |segments| && segments[last].End() == end;
    assert segments[last] in segments;
  }

  // ----- span lookup -----

  datatype TargetClass = FullyFileBacked | MappedZeroFill | MappedCrossBoundary | Unmapped

  datatype Resolved = Resolved(kind: TargetClass, segment: Option<Segment>, fileOffset: Option<nat>)

  function Pow2(n: nat): nat { if n == 0 then 1 else 2 * Pow2(n - 1) }

  /** Number of mappings that start at or below an address. */
  ghost predicate IsUpperBound(segments: seq<Segment>, address: nat, bound: nat) {
    && bound <= |segments|
    && (forall i :: 0 <= i < bound ==> segments[i].address <= address)
    && (forall i :: bound <= i < |segments| ==> address < segments[i].address)
  }

  /** Binary search for the first mapping above an address, with its probe count: the number
      of probes is logarithmic in the number of mappings. */
  method StartUpperBound(segments: seq<Segment>, address: nat) returns (bound: nat, probes: nat)
    requires Disjoint(segments)
    ensures IsUpperBound(segments, address, bound)
    ensures segments == [] ==> probes == 0
    ensures segments != [] ==> Pow2(probes) <= 2 * |segments|
  {
    var low, high := 0, |segments|;
    probes := 0;
    while low < high
      invariant 0 <= low <= high <= |segments|
      invariant forall i :: 0 <= i < low ==> segments[i].address <= address
      invariant forall i :: high <= i < |segments| ==> address < segments[i].address
      invariant low < high ==> Pow2(probes) * (high - low) <= |segments|
      invariant low == high && segments != [] ==> Pow2(probes) <= 2 * |segments|
      invariant segments == [] ==> probes == 0
    {
      ghost var width, scale := high - low, Pow2(probes);
      probes := probes + 1;
      var middle := low + (high - low) / 2;
      assert segments[middle] in segments;
      if segments[middle].address <= address {
        forall i | 0 <= i < middle ensures segments[i].address <= address {
          assert segments[i] in segments;
        }
        low := middle + 1;
      } else {
        high := middle;
      }
      Halving(scale, width, high - low, |segments|);
    }
    bound := low;
  }

  lemma Halving(scale: nat, width: nat, next: nat, total: nat)
    requires 0 < width && scale * width <= total && next <= width / 2
    ensures 2 * scale * next <= total && 2 * scale <= 2 * total
  {
    assert scale * 1 <= scale * width;
    assert scale * (2 * next) <= scale * width;
  }

  predicate InFile(s: Segment, start: nat, size: nat) { s.address <= start && start + size <= s.FileEnd() }
  predicate InZeroFill(s: Segment, start: nat, size: nat) { s.FileEnd() <= start && start + size <= s.End() }
  predicate Touches(s: Segment, start: nat, size: nat) { start < s.End() && s.address < start + size }

  /** Reference classification by what the span contains, over all mappings at once. */
  ghost function SpanClass(segments: seq<Segment>, start: nat, size: nat): TargetClass {
    if start + size >= TWO_64 then Unmapped
    else if exists s :: s in segments && InFile(s, start, size) then FullyFileBacked
    else if exists s :: s in segments && InZeroFill(s, start, size) then MappedZeroFill
    else if exists s :: s in segments && Touches(s, start, size) then MappedCrossBoundary
    else Unmapped
  }

  /** The lookup the observer runs for one span. Only the mapping below the upper bound and
      the one at it are inspected. */
  function ClassifyAt(segments: seq<Segment>, bound: nat, start: nat, size: nat): Resolved
    requires IsUpperBound(segments, start, bound)
  {
    if start + size >= TWO_64 then Resolved(Unmapped, None, None)
    else if 0 < bound && start < segments[bound - 1].End() then
      var s := segments[bound - 1];
      if start + size > s.End() then Resolved(MappedCrossBoundary, Some(s), None)
      else if start - s.address >= s.fileSize then Resolved(MappedZeroFill, Some(s), None)
      else if start - s.address + size <= s.fileSize
      then Resolved(FullyFileBacked, Some(s), Some(s.fileOffset + (start - s.address)))
      else Resolved(MappedCrossBoundary, Some(s), None)
    else if bound < |segments| && start + size > segments[bound].address
    then Resolved(MappedCrossBoundary, Some(segments[bound]), None)
    else Resolved(Unmapped, None, None)
  }

  /** Looking at two neighbours classifies a non-empty span exactly as inspecting every mapping does. */
  lemma LookupRefinesScan(segments: seq<Segment>, bound: nat, start: nat, size: nat)
    requires Disjoint(segments) && IsUpperBound(segments, start, bound) && 0 < size
    ensures ClassifyAt(segments, bound, start, size).kind == SpanClass(segments, start, size)
  {
    if 0 < bound { assert segments[bound - 1] in segments; }
    if bound < |segments| { assert segments[bound] in segments; }
    forall s | s in segments && Touches(s, start, size)
      ensures (0 < bound && s == segments[bound - 1]) || (bound < |segments| && segments[bound].address < start + size)
    {
      OnlyNeighboursTouch(segments, bound, start, size, s);
    }
    forall s | s in segments && (InFile(s, start, size) || InZeroFill(s, start, size))
      ensures 0 < bound && s == segments[bound - 1]
    {
      OnlyLowerContains(segments, bound, start, size, s);
    }
  }

  /** The reported mapping is one the span touches, and a file offset is reported exactly for
      spans wholly inside that mapping's file bytes. */
  lemma LookupReportsItsMapping(segments: seq<Segment>, bound: nat, start: nat, size: nat)
    requires Disjoint(segments) && IsUpperBound(segments, start, bound) && 0 < size
    ensures var r := ClassifyAt(segments, bound, start, size);
            && (r.kind == Unmapped <==> r.segment.None?)
            && (r.segment.Some? ==> r.segment.value in segments && Touches(r.segment.value, start, size))
            && (r.fileOffset.Some? <==> r.kind == FullyFileBacked)
            && (r.fileOffset.Some? ==>
                  && InFile(r.segment.value, start, size)
                  && r.fileOffset.value == r.segment.value.fileOffset + (start - r.segment.value.address))
  {
    if 0 < bound { assert segments[bound - 1] in segments; }
    if bound < |segments| { assert segments[bound] in segments; }
  }

  lemma OnlyLowerContains(segments: seq<Segment>, bound: nat, start: nat, size: nat, s: Segment)
    requires Disjoint(segments) && IsUpperBound(segments, start, bound) && 0 < size
    requires s in segments && (InFile(s, start, size) || InZeroFill(s, start, size))
    ensures 0 < bound && s == segments[bound - 1]
  {
    var i :| 0 <= i < |segments| && segments[i] == s;
    assert segments[i].address <= start;
    assert forall k :: 0 <= k < bound - 1 ==> segments[k].End() <= segments[bound - 1].address;
  }

  lemma OnlyNeighboursTouch(segments: seq<Segment>, bound: nat, start: nat, size: nat, s: Segment)
    requires Disjoint(segments) && IsUpperBound(segments, start, bound) && 0 < size
    requires s in segments && Touches(s, start, size)
    ensures (0 < bound && s == segments[bound - 1]) || (bound < |segments| && segments[bound].address < start + size)
  {
    var i :| 0 <= i < |segments| && segments[i] == s;
    assert forall k :: 0 <= k < bound - 1 ==> segments[k].End() <= segments[bound - 1].address;
    if bound < i {
      assert segments[bound] in segments;
      assert segments[bound].End() <= segments[i].address;
    }
  }

  /** An empty span is classified like the single byte at its start. */
  lemma EmptySpanIsItsFirstByte(segments: seq<Segment>, bound: nat, start: nat)
    requires Disjoint(segments) && IsUpperBound(segments, start, bound) && start < TWO_64
    ensures ClassifyAt(segments, bound, start, 0) == ClassifyAt(segments, bound, start, 1)
  {
    if 0 < bound { assert segments[bound - 1] in segments; }
    if bound < |segments| { assert segments[bound] in segments; }
  }

  /** Number of mappings starting at or below an address, as a function. */
  function UpperBound(segments: seq<Segment>, address: nat): (bound: nat)
    requires Disjoint(segments)
    ensures IsUpperBound(segments, address, bound)
  {
    if segments == [] then 0
    else
      var last := segments[|segments| - 1];
      assert last in segments;
      if last.address <= address then
        assert forall i :: 0 <= i < |segments| ==> segments[i] in segments;
        |segments|
      else UpperBound(segments[..|segments| - 1], address)
  }

  function Resolve(segments: seq<Segment>, start: nat, size: nat): Resolved
    requires Disjoint(segments)
  {
    ClassifyAt(segments, UpperBound(segments, start), start, size)
  }

  /** Classify one guest span by binary search. */
  method ClassifySpan(segments: seq<Segment>, start: nat, size: nat) returns (r: Resolved)
    requires Disjoint(segments)
    ensures r == Resolve(segments, start, size)
    ensures 0 < size ==> r.kind == SpanClass(segments, start, size)
  {
    var bound, _ := StartUpperBound(segments, start);
    UpperBoundIsUnique(segments, start, bound, UpperBound(segments, start));
    if 0 < size { LookupRefinesScan(segments, bound, start, size); }
    r := ClassifyAt(segments, bound, start, size);
  }

  lemma UpperBoundIsUnique(segments: seq<Segment>, address: nat, a: nat, b: nat)
    requires IsUpperBound(segments, address, a) && IsUpperBound(segments, address, b)
    ensures a == b
  {
    assert a < |segments| ==> (a < b <==> segments[a].address <= address);
    assert b < |segments| ==> (b < a <==> segments[b].address <= address);
  }
}
