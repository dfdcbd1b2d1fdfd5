/** The PE section layout and the map from relative virtual addresses to file offsets. */
module PeMap {
  import opened Common

  /** One section header; the four characteristics bits that recovery looks at are spelled out. */
  datatype Section = Section(
    virtualAddress: U32, virtualSize: U32, rawOffset: U32, rawSize: U32,
    initialized: bool, execute: bool, read: bool, write: bool)

  datatype Layout = Layout(fileSize: nat, sizeOfImage: U32, sizeOfHeaders: U32, sections: seq<Section>)

  function Loaded(s: Section): nat { if s.virtualSize == 0 then s.rawSize else s.virtualSize }

  function Backed(s: Section): nat { if s.rawSize < Loaded(s) then s.rawSize else Loaded(s) }

  // ----- acceptance -----

  /** The per-section checks made while the section table is read. */
  predicate SectionFits(l: Layout, s: Section) {
    && s.virtualAddress + Loaded(s) <= l.sizeOfImage
    && (Loaded(s) != 0 ==> l.sizeOfHeaders <= s.virtualAddress)
    && (s.rawSize != 0 ==> l.sizeOfHeaders <= s.rawOffset && s.rawOffset + s.rawSize <= l.fileSize)
  }

  predicate Overlap(leftStart: nat, leftSize: nat, rightStart: nat, rightSize: nat) {
    leftSize != 0 && rightSize != 0 && leftStart < rightStart + rightSize && rightStart < leftStart + leftSize
  }

  predicate Collide(a: Section, b: Section) {
    || Overlap(a.virtualAddress, Loaded(a), b.virtualAddress, Loaded(b))
    || Overlap(a.rawOffset, a.rawSize, b.rawOffset, b.rawSize)
  }

  /** No two sections share a loaded address or a file byte. */
  ghost predicate Disjoint(sections: seq<Section>) {
    forall i, j :: 0 <= i < j < |sections| ==> !Collide(sections[i], sections[j])
  }

  /** Addresses never decrease, nor do the file offsets of sections that have file data. */
  ghost predicate Ordered(sections: seq<Section>) { AddressesOrdered(sections) && FileDataOrdered(sections) }

  ghost predicate Accepted(l: Layout) {
    && 0 < l.sizeOfHeaders <= l.sizeOfImage && l.sizeOfHeaders <= l.fileSize
    && (forall s :: s in l.sections ==> SectionFits(l, s))
    && Ordered(l.sections) && Disjoint(l.sections)
  }

  ghost predicate AddressesOrdered(sections: seq<Section>) {
    forall i, j :: 0 <= i < j < |sections| ==> sections[i].virtualAddress <= sections[j].virtualAddress
  }

  ghost predicate FileDataOrdered(sections: seq<Section>) {
    forall i, j :: 0 <= i < j < |sections| && sections[i].rawSize != 0 && sections[j].rawSize != 0 ==>
      sections[i].rawOffset <= sections[j].rawOffset
  }

  /** Neighbouring addresses decide the order of all pairs. */
  method ValidateAddressOrder(sections: seq<Section>) returns (ok: bool)
    ensures ok <==> AddressesOrdered(sections)
  {
    var i := 0;
    while i + 1 < |sections|
      invariant i <= |sections| && AddressesOrdered(sections[..if i < |sections| then i + 1 else i])
    {
      if sections[i].virtualAddress > sections[i + 1].virtualAddress { return false; }
      i := i + 1;
    }
    assert sections[..|sections|] == sections;
    ok := true;
  }

  /** A running last file offset decides the order of all sections with file data. */
  method ValidateFileDataOrder(sections: seq<Section>) returns (ok: bool)
    ensures ok <==> FileDataOrdered(sections)
  {
    var previous: Option<nat> := None;
    for i := 0 to |sections|
      invariant FileDataOrdered(sections[..i])
      invariant previous.None? ==> forall a :: 0 <= a < i ==> sections[a].rawSize == 0
      invariant previous.Some? ==>
                  exists a :: 0 <= a < i && sections[a].rawSize != 0 && sections[a].rawOffset == previous.value
      invariant previous.Some? ==>
                  forall a :: 0 <= a < i && sections[a].rawSize != 0 ==> sections[a].rawOffset <= previous.value
    {
      if sections[i].rawSize != 0 {
        if previous.Some? && sections[i].rawOffset < previous.value { return false; }
        previous := Some(sections[i].rawOffset);
      }
    }
    assert sections[..|sections|] == sections;
    ok := true;
  }

  method ValidateSectionOrder(sections: seq<Section>) returns (ok: bool)
    ensures ok <==> Ordered(sections)
  {
    ok := ValidateAddressOrder(sections);
    if ok { ok := ValidateFileDataOrder(sections); }
  }

  method ValidateSectionOverlaps(sections: seq<Section>) returns (ok: bool)
    ensures ok <==> Disjoint(sections)
  {
    for first := 0 to |sections|
      invariant forall i, j :: 0 <= i < first && i < j < |sections| ==> !Collide(sections[i], sections[j])
    {
      for second := first + 1 to |sections|
        invariant forall j :: first < j < second ==> !Collide(sections[first], sections[j])
      {
        if Collide(sections[first], sections[second]) { return false; }
      }
    }
    ok := true;
  }

  // ----- alignment -----

  const PAGE_SIZE := 0x1000
  const SECTION_HEADER_SIZE := 40

  /** The alignment fields of the optional header, and where the section table starts. */
  datatype Header = Header(sectionAlignment: U32, fileAlignment: U32, sectionsOffset: nat)

  predicate ImageAligned(h: Header, l: Layout) {
    && IsPowerOfTwo(h.sectionAlignment) && IsPowerOfTwo(h.fileAlignment) && h.fileAlignment <= h.sectionAlignment
    && 0x200 <= h.fileAlignment <= 0x1_0000
    && (h.sectionAlignment < PAGE_SIZE ==> h.fileAlignment == h.sectionAlignment)
    && l.sizeOfImage % h.sectionAlignment == 0 && l.sizeOfHeaders % h.fileAlignment == 0
  }

  predicate SectionAligned(h: Header, s: Section)
    requires h.sectionAlignment > 0 && h.fileAlignment > 0
  {
    && (Loaded(s) != 0 ==> s.virtualAddress % h.sectionAlignment == 0)
    && s.rawSize % h.fileAlignment == 0 && s.rawOffset % h.fileAlignment == 0
    && (h.sectionAlignment < PAGE_SIZE && s.rawSize != 0 ==> s.rawOffset == s.virtualAddress)
  }

  /** The image, its header, its section table and every section are aligned and in place. */
  ghost predicate Aligned(h: Header, l: Layout) {
    && ImageAligned(h, l) && h.sectionsOffset + SECTION_HEADER_SIZE * |l.sections| <= l.sizeOfHeaders
    && forall s :: s in l.sections ==> SectionAligned(h, s)
  }

  /** The layout half of reading the headers: every check, in the source's order. */
  method ValidateLayout(h: Header, l: Layout) returns (ok: bool)
    ensures ok <==> Accepted(l) && Aligned(h, l)
  {
    hide IsPowerOfTwo;
    if l.sizeOfHeaders == 0 || l.sizeOfHeaders > l.sizeOfImage { return false; }
    if !ImageAligned(h, l) || l.sizeOfHeaders > l.fileSize { return false; }
    if h.sectionsOffset + SECTION_HEADER_SIZE * |l.sections| > l.sizeOfHeaders { return false; }
    for i := 0 to |l.sections|
      invariant forall k :: 0 <= k < i ==> SectionFits(l, l.sections[k]) && SectionAligned(h, l.sections[k])
    {
      if !SectionAligned(h, l.sections[i]) || !SectionFits(l, l.sections[i]) { return false; }
    }
    ok := ValidateSectionOrder(l.sections);
    if ok { ok := ValidateSectionOverlaps(l.sections); }
  }

  // ----- the mapper -----

  predicate InHeaders(l: Layout, rva: nat, size: nat) { rva < l.sizeOfHeaders && rva + size <= l.sizeOfHeaders }

  predicate InBacked(s: Section, rva: nat, size: nat) {
    s.virtualAddress <= rva && rva + size <= s.virtualAddress + Backed(s)
  }

  predicate InLoaded(s: Section, rva: nat) { s.virtualAddress <= rva < s.virtualAddress + Loaded(s) }

  function InFile(l: Layout, offset: nat, size: nat): Option<nat> {
    if offset + size <= l.fileSize then Some(offset) else None
  }

  /** The first section whose backed bytes hold the range decides. */
  function SectionOffset(l: Layout, i: nat, rva: nat, size: nat): Option<nat>
    requires i <= |l.sections|
    decreases |l.sections| - i
  {
    if i == |l.sections| then None
    else if InBacked(l.sections[i], rva, size)
    then InFile(l, l.sections[i].rawOffset + (rva - l.sections[i].virtualAddress), size)
    else SectionOffset(l, i + 1, rva, size)
  }

  function Offset(l: Layout, rva: nat, size: nat): Option<nat> {
    if InHeaders(l, rva, size) then InFile(l, rva, size) else SectionOffset(l, 0, rva, size)
  }

  predicate MapperBacked(l: Layout, rva: nat, size: nat) { Offset(l, rva, size).Some? }

  /** The first section whose loaded bytes hold an address. */
  function SectionFor(sections: seq<Section>, i: nat, rva: nat): Option<nat>
    requires i <= |sections|
    decreases |sections| - i
  {
    if i == |sections| then None
    else if InLoaded(sections[i], rva) then Some(i)
    else SectionFor(sections, i + 1, rva)
  }

  /** Start and length of the file bytes that follow an address without a gap. */
  function SectionContiguous(l: Layout, i: nat, rva: nat): Option<(nat, nat)>
    requires i <= |l.sections|
    decreases |l.sections| - i
  {
    if i == |l.sections| then None
    else
      var s := l.sections[i];
      if InBacked(s, rva, 1)
      then
        var offset, end := s.rawOffset + (rva - s.virtualAddress), s.rawOffset + Backed(s);
        if end <= l.fileSize then Some((offset, end - offset)) else None
      else SectionContiguous(l, i + 1, rva)
  }

  function Contiguous(l: Layout, rva: nat): Option<(nat, nat)> {
    if rva < l.sizeOfHeaders then
      var end := if l.sizeOfHeaders < l.fileSize then l.sizeOfHeaders else l.fileSize;
      if rva <= end then Some((rva, end - rva)) else None
    else SectionContiguous(l, 0, rva)
  }

  // ----- the definitions validators use -----

  predicate ModelBacked(l: Layout, rva: nat, size: nat) {
    || (rva < l.sizeOfHeaders && rva + size <= l.sizeOfHeaders && rva + size <= l.fileSize)
    || exists s :: s in l.sections && InBacked(s, rva, size)
  }

  predicate ReadableData(s: Section) { s.initialized && s.read && !s.execute }

  predicate ReadOnlyData(s: Section) { ReadableData(s) && !s.write }

  predicate ModelExecutable(l: Layout, rva: nat, size: nat) {
    size != 0 && exists s :: s in l.sections && s.execute && InBacked(s, rva, size)
  }

  predicate ModelReadable(l: Layout, rva: nat, size: nat) {
    exists s :: s in l.sections && ReadableData(s) && size != 0 && InBacked(s, rva, size)
  }

  predicate ModelReadOnly(l: Layout, rva: nat, size: nat) {
    exists s :: s in l.sections && ReadOnlyData(s) && size != 0 && InBacked(s, rva, size)
  }

  predicate BackedExecutable(l: Layout, rva: nat, size: nat) {
    size != 0 && MapperBacked(l, rva, size) && rva + size - 1 < TWO_32 &&
    var first, last := SectionFor(l.sections, 0, rva), SectionFor(l.sections, 0, rva + size - 1);
    first == last && first.Some? && first.value < |l.sections| && l.sections[first.value].execute
  }

  predicate BackedReadable(l: Layout, rva: nat, size: nat) {
    size != 0 && MapperBacked(l, rva, size) && ModelReadable(l, rva, size)
  }

  predicate BackedReadOnly(l: Layout, rva: nat, size: nat) {
    size != 0 && MapperBacked(l, rva, size) && ModelReadOnly(l, rva, size)
  }

  // ----- what an accepted layout gives -----

  /** Where the bytes of a backed range come from. */
  datatype Origin = Headers | InSection(index: nat)

  ghost predicate ComesFrom(l: Layout, origin: Origin, rva: nat, size: nat) {
    match origin
    case Headers => InHeaders(l, rva, size)
    case InSection(k) => k < |l.sections| && InBacked(l.sections[k], rva, size)
  }

  function OffsetIn(l: Layout, origin: Origin, rva: nat): int
    requires origin.InSection? ==> origin.index < |l.sections|
  {
    match origin
    case Headers => rva
    case InSection(k) => l.sections[k].rawOffset + rva - l.sections[k].virtualAddress
  }

  /** A loaded address lies in one section only. */
  lemma OneSection(l: Layout, i: nat, j: nat, rva: nat)
    requires Accepted(l) && i < |l.sections| && j < |l.sections|
    requires InLoaded(l.sections[i], rva) && InLoaded(l.sections[j], rva)
    ensures i == j
  {
    assert i < j ==> !Collide(l.sections[i], l.sections[j]);
    assert j < i ==> !Collide(l.sections[j], l.sections[i]);
  }

  lemma {:induction false} SearchFinds(l: Layout, i: nat, k: nat, rva: nat, size: nat)
    requires Accepted(l) && i <= k < |l.sections| && InBacked(l.sections[k], rva, size) && 1 <= size
    ensures SectionOffset(l, i, rva, size) == Some(l.sections[k].rawOffset + (rva - l.sections[k].virtualAddress))
    decreases k - i
  {
    var s := l.sections[k];
    assert s in l.sections && SectionFits(l, s);
    if InBacked(l.sections[i], rva, size) {
      OneSection(l, i, k, rva);
    } else {
      SearchFinds(l, i + 1, k, rva, size);
    }
  }

  lemma {:induction false} SearchFails(l: Layout, i: nat, rva: nat, size: nat)
    requires i <= |l.sections| && forall k :: i <= k < |l.sections| ==> !InBacked(l.sections[k], rva, size)
    ensures SectionOffset(l, i, rva, size) == None
    decreases |l.sections| - i
  {
    if i < |l.sections| { SearchFails(l, i + 1, rva, size); }
  }

  /** The mapper is exactly the union of its regions: it maps a range iff one region holds it
      whole, and then by that region's own displacement. */
  lemma MapperIsItsRegions(l: Layout, rva: nat, size: nat)
    requires Accepted(l) && 1 <= size
    ensures MapperBacked(l, rva, size) <==> exists origin :: ComesFrom(l, origin, rva, size)
    ensures forall origin :: ComesFrom(l, origin, rva, size) ==> Offset(l, rva, size) == Some(OffsetIn(l, origin, rva))
  {
    forall origin | ComesFrom(l, origin, rva, size) ensures Offset(l, rva, size) == Some(OffsetIn(l, origin, rva)) {
      if origin.InSection? {
        assert l.sections[origin.index] in l.sections && SectionFits(l, l.sections[origin.index]);
        SearchFinds(l, 0, origin.index, rva, size);
      }
    }
    if MapperBacked(l, rva, size) {
      if InHeaders(l, rva, size) {
        assert ComesFrom(l, Headers, rva, size);
      } else if forall k :: 0 <= k < |l.sections| ==> !InBacked(l.sections[k], rva, size) {
        SearchFails(l, 0, rva, size);
      } else {
        var k :| 0 <= k < |l.sections| && InBacked(l.sections[k], rva, size);
        assert ComesFrom(l, InSection(k), rva, size);
      }
    }
  }

  lemma OriginOf(l: Layout, rva: nat, size: nat) returns (origin: Origin)
    requires Accepted(l) && 1 <= size && MapperBacked(l, rva, size)
    ensures ComesFrom(l, origin, rva, size) && Offset(l, rva, size) == Some(OffsetIn(l, origin, rva))
  {
    MapperIsItsRegions(l, rva, size);
    origin :| ComesFrom(l, origin, rva, size);
  }

  /** Distinct backed addresses have distinct file offsets: headers and sections never collide. */
  lemma MapIsInjective(l: Layout, a: nat, b: nat)
    requires Accepted(l) && MapperBacked(l, a, 1) && MapperBacked(l, b, 1)
    requires Offset(l, a, 1) == Offset(l, b, 1)
    ensures a == b
  {
    var x := OriginOf(l, a, 1);
    var y := OriginOf(l, b, 1);
    if x.InSection? { assert SectionFits(l, l.sections[x.index]); }
    if y.InSection? { assert SectionFits(l, l.sections[y.index]); }
  }

  /** A mapped range lies in the file, and each of its bytes maps to the next offset. */
  lemma MapIsContiguous(l: Layout, rva: nat, size: nat, i: nat)
    requires Accepted(l) && MapperBacked(l, rva, size) && i < size
    ensures Offset(l, rva, size).value + size <= l.fileSize
    ensures Offset(l, rva + i, 1) == Some(Offset(l, rva, size).value + i)
  {
    var origin := OriginOf(l, rva, size);
    if origin.InSection? { assert SectionFits(l, l.sections[origin.index]); }
    assert ComesFrom(l, origin, rva + i, 1);
    MapperIsItsRegions(l, rva + i, 1);
  }

  /** Mapper and validators agree on what is backed. */
  lemma BackedDefinitionsAgree(l: Layout, rva: nat, size: nat)
    requires Accepted(l)
    ensures 1 <= size ==> (MapperBacked(l, rva, size) <==> ModelBacked(l, rva, size))
    ensures BackedReadable(l, rva, size) <==> ModelReadable(l, rva, size)
    ensures BackedReadOnly(l, rva, size) <==> ModelReadOnly(l, rva, size)
  {
    if size == 0 { return; }
    MapperIsItsRegions(l, rva, size);
    if MapperBacked(l, rva, size) {
      var origin := OriginOf(l, rva, size);
      assert origin.InSection? ==> l.sections[origin.index] in l.sections;
    }
    forall s | s in l.sections && InBacked(s, rva, size) ensures MapperBacked(l, rva, size) {
      var k :| 0 <= k < |l.sections| && l.sections[k] == s;
      assert ComesFrom(l, InSection(k), rva, size);
    }
    if InHeaders(l, rva, size) { assert ComesFrom(l, Headers, rva, size); }
  }

  lemma {:induction false} FindsItsSection(l: Layout, i: nat, k: nat, rva: nat)
    requires Accepted(l) && i <= k < |l.sections| && InLoaded(l.sections[k], rva)
    ensures SectionFor(l.sections, i, rva) == Some(k)
    decreases k - i
  {
    if InLoaded(l.sections[i], rva) {
      OneSection(l, i, k, rva);
    } else {
      FindsItsSection(l, i + 1, k, rva);
    }
  }

  lemma {:induction false} FoundSectionHolds(sections: seq<Section>, i: nat, rva: nat)
    requires i <= |sections| && SectionFor(sections, i, rva).Some?
    ensures SectionFor(sections, i, rva).value < |sections|
    ensures InLoaded(sections[SectionFor(sections, i, rva).value], rva)
    decreases |sections| - i
  {
    if !InLoaded(sections[i], rva) { FoundSectionHolds(sections, i + 1, rva); }
  }

  lemma BackedExecutableIsModeled(l: Layout, rva: nat, size: nat)
    requires Accepted(l) && BackedExecutable(l, rva, size)
    ensures ModelExecutable(l, rva, size)
  {
    var origin := OriginOf(l, rva, size);
    FoundSectionHolds(l.sections, 0, rva);
    var k := SectionFor(l.sections, 0, rva).value;
    assert SectionFits(l, l.sections[k]);
    assert origin.InSection?;
    OneSection(l, k, origin.index, rva);
    assert l.sections[k] in l.sections;
  }

  lemma ModeledIsBackedExecutable(l: Layout, rva: nat, size: nat)
    requires Accepted(l) && ModelExecutable(l, rva, size)
    ensures BackedExecutable(l, rva, size)
  {
    hide Offset, SectionFor, Accepted;
    var s :| s in l.sections && s.execute && InBacked(s, rva, size);
    var k :| 0 <= k < |l.sections| && l.sections[k] == s;
    FitsAccepted(l, s);
    assert ComesFrom(l, InSection(k), rva, size);
    MapperIsItsRegions(l, rva, size);
    var last := rva + size - 1;
    FindsItsSection(l, 0, k, rva);
    FindsItsSection(l, 0, k, last);
  }

  lemma FitsAccepted(l: Layout, s: Section)
    requires Accepted(l) && s in l.sections
    ensures SectionFits(l, s)
  {
  }

  /** Backed and in one executable section means: in the backed part of an executable section. */
  lemma ExecutableDefinitionsAgree(l: Layout, rva: nat, size: nat)
    requires Accepted(l)
    ensures BackedExecutable(l, rva, size) <==> ModelExecutable(l, rva, size)
  {
    if BackedExecutable(l, rva, size) { BackedExecutableIsModeled(l, rva, size); }
    if ModelExecutable(l, rva, size) { ModeledIsBackedExecutable(l, rva, size); }
  }

  lemma {:induction false} ContiguousInSection(l: Layout, i: nat, k: nat, rva: nat)
    requires Accepted(l) && i <= k < |l.sections| && InBacked(l.sections[k], rva, 1)
    ensures var s := l.sections[k];
            SectionContiguous(l, i, rva) == Some((OffsetIn(l, InSection(k), rva), s.virtualAddress + Backed(s) - rva))
    decreases k - i
  {
    assert SectionFits(l, l.sections[k]);
    if InBacked(l.sections[i], rva, 1) {
      OneSection(l, i, k, rva);
    } else {
      ContiguousInSection(l, i + 1, k, rva);
    }
  }

  lemma {:induction false} NothingContiguous(l: Layout, i: nat, rva: nat)
    requires i <= |l.sections| && forall k :: i <= k < |l.sections| ==> !InBacked(l.sections[k], rva, 1)
    ensures SectionContiguous(l, i, rva) == None
    decreases |l.sections| - i
  {
    if i < |l.sections| { NothingContiguous(l, i + 1, rva); }
  }

  /** The contiguous bytes at an address reach to the end of the region that holds it. */
  lemma ContiguousFrom(l: Layout, origin: Origin, rva: nat)
    requires Accepted(l) && ComesFrom(l, origin, rva, 1)
    ensures Contiguous(l, rva).Some? && Some(Contiguous(l, rva).value.0) == Offset(l, rva, 1)
    ensures forall size :: 1 <= size ==> (size <= Contiguous(l, rva).value.1 <==> ComesFrom(l, origin, rva, size))
  {
    hide Offset, SectionContiguous;
    MapperIsItsRegions(l, rva, 1);
    if origin.InSection? {
      assert SectionFits(l, l.sections[origin.index]);
      ContiguousInSection(l, 0, origin.index, rva);
    }
  }

  /** The region that holds a range is the one that holds its first byte. */
  lemma OneOrigin(l: Layout, wide: Origin, origin: Origin, rva: nat, size: nat)
    requires Accepted(l) && 1 <= size && ComesFrom(l, wide, rva, size) && ComesFrom(l, origin, rva, 1)
    ensures wide == origin
  {
    if wide.InSection? { assert SectionFits(l, l.sections[wide.index]); }
    if origin.InSection? { assert SectionFits(l, l.sections[origin.index]); }
    if wide.InSection? && origin.InSection? { OneSection(l, wide.index, origin.index, rva); }
  }

  lemma NotContiguous(l: Layout, rva: nat)
    requires Accepted(l) && !MapperBacked(l, rva, 1)
    ensures Contiguous(l, rva).None?
  {
    hide Offset;
    MapperIsItsRegions(l, rva, 1);
    assert !ComesFrom(l, Headers, rva, 1);
    forall k | 0 <= k < |l.sections| ensures !InBacked(l.sections[k], rva, 1) {
      assert !ComesFrom(l, InSection(k), rva, 1);
    }
    NothingContiguous(l, 0, rva);
  }

  /** The contiguous bytes at an address are the longest range the mapper maps from it. */
  lemma ContiguousIsMaximal(l: Layout, rva: nat, size: nat)
    requires Accepted(l) && 1 <= size
    ensures Contiguous(l, rva).Some? <==> MapperBacked(l, rva, 1)
    ensures Contiguous(l, rva).Some? ==> Some(Contiguous(l, rva).value.0) == Offset(l, rva, 1)
    ensures MapperBacked(l, rva, size) <==> Contiguous(l, rva).Some? && size <= Contiguous(l, rva).value.1
  {
    hide Offset, SectionContiguous;
    if MapperBacked(l, rva, 1) {
      var origin := OriginOf(l, rva, 1);
      ContiguousFrom(l, origin, rva);
      if MapperBacked(l, rva, size) {
        var wide := OriginOf(l, rva, size);
        OneOrigin(l, wide, origin, rva, size);
      } else if ComesFrom(l, origin, rva, size) {
        MapperIsItsRegions(l, rva, size);
      }
    } else {
      NotContiguous(l, rva);
      if MapperBacked(l, rva, size) {
        var wide := OriginOf(l, rva, size);
        assert ComesFrom(l, wide, rva, 1);
        MapperIsItsRegions(l, rva, 1);
      }
    }
  }

  /** The first section whose backed bytes reach an address, one past their end included. */
  function FirstReaching(sections: seq<Section>, i: nat, rva: nat): (k: nat)
    requires i <= |sections|
    ensures i <= k <= |sections|
    ensures forall j :: i <= j < k ==> !InBacked(sections[j], rva, 0)
    ensures k < |sections| ==> InBacked(sections[k], rva, 0)
    decreases |sections| - i
  {
    if i == |sections| || InBacked(sections[i], rva, 0) then i else FirstReaching(sections, i + 1, rva)
  }

  /** Past the headers, the section that decides has no file data and an offset beyond the file. */
  predicate StrayStart(l: Layout, rva: nat) {
    && l.sizeOfHeaders <= rva
    && var k := FirstReaching(l.sections, 0, rva);
       k < |l.sections| && l.sections[k].rawSize == 0 && l.fileSize < l.sections[k].rawOffset
  }

  lemma {:induction false} EmptyRangeOffset(l: Layout, i: nat, rva: nat)
    requires i <= |l.sections|
    ensures var k := FirstReaching(l.sections, i, rva);
            SectionOffset(l, i, rva, 0) ==
              if k == |l.sections| then None
              else InFile(l, l.sections[k].rawOffset + (rva - l.sections[k].virtualAddress), 0)
    decreases |l.sections| - i
  {
    if i < |l.sections| && !InBacked(l.sections[i], rva, 0) { EmptyRangeOffset(l, i + 1, rva); }
  }

  /** Mapper and validators agree on a range exactly when it has a byte or its start is no stray. */
  lemma AgreementIsExact(l: Layout, rva: nat, size: nat)
    requires Accepted(l)
    ensures (MapperBacked(l, rva, size) <==> ModelBacked(l, rva, size)) <==> 1 <= size || !StrayStart(l, rva)
  {
    if 1 <= size {
      BackedDefinitionsAgree(l, rva, size);
    } else if l.sizeOfHeaders <= rva {
      EmptyRangeOffset(l, 0, rva);
      var k := FirstReaching(l.sections, 0, rva);
      if k < |l.sections| { assert l.sections[k] in l.sections && SectionFits(l, l.sections[k]); }
    }
  }

  /** And a stray start exists in an aligned image: an empty section whose file offset lies past the
      end of the file is backed for validators and unmapped for the mapper. */
  lemma EmptyRangesDisagree()
    ensures var l := Layout(0x400, 0x2000, 0x400, [Section(0x1000, 0x1000, 0x1_0000, 0, true, false, true, false)]);
            && Accepted(l) && Aligned(Header(0x1000, 0x200, 0x188), l)
            && ModelBacked(l, 0x1000, 0) && !MapperBacked(l, 0x1000, 0)
  {
    var s := Section(0x1000, 0x1000, 0x1_0000, 0, true, false, true, false);
    var l := Layout(0x400, 0x2000, 0x400, [s]);
    assert SectionFits(l, s) && s in l.sections && InBacked(s, 0x1000, 0);
    PowersOfTwo();
  }

  lemma PowersOfTwo()
    ensures IsPowerOfTwo(0x200) && IsPowerOfTwo(0x1000)
  {
    assert IsPowerOfTwo(8);
    assert IsPowerOfTwo(0x40);
    assert IsPowerOfTwo(0x200);
  }

  /** An image aligned below the page size is mapped as it lies in the file. */
  lemma SubPageMapIsIdentity(h: Header, l: Layout, rva: nat, size: nat)
    requires Accepted(l) && Aligned(h, l) && h.sectionAlignment < PAGE_SIZE
    requires 1 <= size && MapperBacked(l, rva, size)
    ensures Offset(l, rva, size) == Some(rva)
  {
    MapperIsItsRegions(l, rva, size);
    var origin :| ComesFrom(l, origin, rva, size);
    if origin.InSection? { assert l.sections[origin.index] in l.sections; }
  }
}
