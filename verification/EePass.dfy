/** The observer over one ELF file: from its program headers and bytes to a report in which every
    published address is the address really used. */
module EePass {
  import opened Common
  import opened R5900
  import opened ElfLoad
  import opened EeCoverage
  import opened EeEffects
  import opened EeBlocks
  import opened EeFixpoint
  import opened EeSoundness
  import opened EeReality
  import opened EeLeaders
  import opened EeSites
  import opened EeObserver
  import opened EePropagate

  /** What the caller selects: the pass limits and those of coverage and of one text. */
  datatype Selection = Selection(limits: Limits, executableBytes: nat, executableWords: nat, text: nat)

  datatype Outcome = BadHeaders | TooLarge | NothingExecutable | Stopped | Complete

  function AnchorsIn(mapping: Mapping, bytes: seq<Byte>, text: nat): nat -> Option<seq<Byte>> {
    (target: nat) => Anchor(mapping, bytes, text, target)
  }

  ghost predicate FindsAnchors(mapping: Mapping, bytes: seq<Byte>, text: nat, anchor: nat -> Option<seq<Byte>>) {
    forall target: nat, value :: anchor(target) == Some(value) <==> IsAnchor(mapping, bytes, text, target, value)
  }

  /** The executable words are the whole words in the file bytes of executable mappings. */
  ghost predicate CoversMapping(image: Image, mapping: Mapping) {
    forall pc: nat :: IsExecutable(image, pc) <==> ExecutableWord(mapping, pc)
  }

  /** Each of them is the little-endian word that its mapping puts there. */
  ghost predicate HoldsWords(image: Image, mapping: Mapping, bytes: seq<Byte>) {
    forall s, pc: nat :: s in mapping && WordOf(s, pc) ==>
      && OffsetIn(s, pc) + 4 <= |bytes|
      && image.wordAt(pc) == Some(Split(LittleEndian32(bytes, OffsetIn(s, pc))))
  }

  ghost predicate UsesProfile(image: Image, profile: Profile, alu: Alu) {
    image.alu == alu && forall word: Word, pc: nat :: image.decode(word, pc) == Decode(profile, word, pc)
  }

  ghost predicate IsMapping(mapping: Mapping, headers: seq<ProgramHeader>) {
    forall s :: s in mapping <==> ComesFrom(headers, s)
  }

  /** The observer looks at exactly the mapped words of the file, decodes and computes as selected,
      finds the texts in its bytes, and keeps to the selected limits. */
  ghost predicate Looks(
    o: Observer, headers: seq<ProgramHeader>, bytes: seq<Byte>, profile: Profile, alu: Alu, selection: Selection)
  {
    && IsMapping(o.mapping, headers) && CoversMapping(o.image, o.mapping) && HoldsWords(o.image, o.mapping, bytes)
    && UsesProfile(o.image, profile, alu) && o.tables == BundledTables()
    && FindsAnchors(o.mapping, bytes, selection.text, o.anchor) && o.limits == selection.limits
  }

  /** Every published fact is real where it is published, every edge stays in the graph, and the
      sites are those of the cross-references. */
  ghost predicate Reports(o: Observer, entries: Entries)
    reads o
  {
    var c, p := o.Ctx(), ProblemOf(o.Ctx(), o.seeds.Keys);
    && (forall f :: f in o.xrefs || f in o.materializations ==>
          HasOrigin(c, entries, f) && RealWherePublished(c, p, entries, f) && IsResolved(o.mapping, f))
    && (forall e :: e in o.edges ==> e.target in o.blocks || !IsExecutable(o.image, e.target))
    && o.sites == SitesFor(o.anchor, o.xrefs)
  }

  lemma CompletedReports(o: Observer, entries: Entries)
    requires Analyzed(o, entries) && Agrees(o.image, o.tables) && Publishes(o.Ctx(), o.mapping)
    ensures Reports(o, entries)
  {
    hide Observed, Agrees, Publishes, HasOrigin, RealWherePublished, IsResolved, SitesFor;
    var c, p := o.Ctx(), ProblemOf(o.Ctx(), o.seeds.Keys);
    forall f | f in o.xrefs || f in o.materializations
      ensures HasOrigin(c, entries, f) && RealWherePublished(c, p, entries, f) && IsResolved(o.mapping, f)
    {
      FactsAreReal(o, c, p, entries, f);
    }
    forall e | e in o.edges ensures e.target in o.blocks || !IsExecutable(o.image, e.target) {
      EdgesAreClosed(o, c, p, entries, e);
      ExecutableIsListed(o.image, e.target);
    }
    ObservedSites(o, c, p, entries);
  }

  lemma ExecutableIsListed(m: Image, pc: nat)
    ensures IsExecutable(m, pc) <==> pc in ExecutableWords(m)
  {
  }

  lemma ObservedSites(o: Observer, c: Context, p: Problem, entries: Entries)
    requires Observed(o, c, p, entries)
    ensures o.sites == SitesFor(o.anchor, o.xrefs)
  {
    hide Models, Least, Scanned, SeedsOf;
  }

  lemma AnchorsAreFound(mapping: Mapping, bytes: seq<Byte>, text: nat)
    requires InFileBytes(mapping, bytes)
    ensures FindsAnchors(mapping, bytes, text, AnchorsIn(mapping, bytes, text))
  {
    hide Anchor, IsAnchor;
    forall target: nat, value
      ensures AnchorsIn(mapping, bytes, text)(target) == Some(value) <==> IsAnchor(mapping, bytes, text, target, value)
    {
      AnchorIsExact(mapping, bytes, text, target, value);
    }
  }

  ghost predicate FitsLinear(ranges: seq<Range>) { forall r :: r in ranges ==> r.end <= LINEAR_PC_END }

  lemma CoverageAnswers(mapping: Mapping, bytes: seq<Byte>, ranges: seq<Range>)
    requires ranges == Parts(mapping) && InFileBytes(mapping, bytes) && FitsLinear(ranges)
    ensures EeCoverage.Valid(ranges, |bytes|)
    ensures forall pc: nat :: Covers(ranges, pc) <==> ExecutableWord(mapping, pc)
  {
    hide ExecutableWord, Covers, Parts, EeCoverage.Valid;
    CoverageIsValid(mapping, |bytes|);
  }

  /** The program of the coverage is what the file holds. */
  method NewImage(bytes: seq<Byte>, profile: Profile, alu: Alu, mapping: Mapping, ranges: seq<Range>)
    returns (image: Image)
    requires ranges == Parts(mapping) && InFileBytes(mapping, bytes) && FitsLinear(ranges)
    ensures EeCoverage.Valid(ranges, |bytes|) && forall pc: nat :: image.wordAt(pc).Some? <==> Covers(ranges, pc)
    ensures CoversMapping(image, mapping) && HoldsWords(image, mapping, bytes) && UsesProfile(image, profile, alu)
  {
    hide ExecutableWord, Covers, Parts, EeCoverage.Valid, WordAt, Decode, Split, LittleEndian32;
    CoverageAnswers(mapping, bytes, ranges);
    image := Program(ranges, bytes, profile, alu);
    forall s, pc: nat | s in mapping && WordOf(s, pc)
      ensures OffsetIn(s, pc) + 4 <= |bytes|
      ensures image.wordAt(pc) == Some(Split(LittleEndian32(bytes, OffsetIn(s, pc))))
    {
      FetchReadsFile(mapping, bytes, s, pc);
    }
  }

  /** Build the observer of a derived mapping and its executable coverage. */
  method NewObserver(
    ghost headers: seq<ProgramHeader>, bytes: seq<Byte>, profile: Profile, alu: Alu, mapping: Mapping,
    ranges: seq<Range>, selection: Selection)
    returns (o: Observer)
    requires ranges == Parts(mapping) && IsMapping(mapping, headers) && InFileBytes(mapping, bytes)
    requires FitsLinear(ranges)
    ensures fresh(o) && Looks(o, headers, bytes, profile, alu, selection)
    ensures o.Valid() && o.TableAnswers() && o.SitesMatch()
    ensures o.seeds == map[] && o.boundaries == {} && o.cfgWordSteps == 0
    ensures Publishes(o.Ctx(), o.mapping)
  {
    hide Publishes, Parts, IsMapping, CoversMapping, HoldsWords, UsesProfile, FindsAnchors, InFileBytes,
      EeCoverage.Valid, AnchorsIn, Observer.Valid, Observer.TableAnswers, Observer.SitesMatch, Covers, BundledTables;
    AnchorsAreFound(mapping, bytes, selection.text);
    var image := NewImage(bytes, profile, alu, mapping, ranges);
    o := new Observer(image, BundledTables(), mapping, AnchorsIn(mapping, bytes, selection.text), ranges, |bytes|,
                      selection.limits);
  }

  lemma LookingAgrees(
    o: Observer, headers: seq<ProgramHeader>, bytes: seq<Byte>, profile: Profile, alu: Alu, selection: Selection)
    requires Looks(o, headers, bytes, profile, alu, selection)
    ensures Agrees(o.image, o.tables)
  {
    hide Agrees, BundledTables, IsMapping, CoversMapping, HoldsWords, FindsAnchors, Decode;
    BundledTablesAgree(o.image, profile);
  }

  lemma PublishingIgnoresBoundaries(a: Context, b: Context, mapping: Mapping)
    requires Publishes(a, mapping) && b == a.(boundaries := b.boundaries)
    ensures Publishes(b, mapping)
  {
  }

  /** The entry point and the executable function symbols are among the seeds runs start from. */
  ghost predicate SeedsDeclared(o: Observer, entry: nat, symbols: seq<nat>)
    reads o`seeds
  {
    entry in o.seeds && forall x: nat :: x in symbols && IsExecutable(o.image, x) ==> x in o.seeds
  }

  /** Run the pass over a derived mapping and its executable coverage. */
  method ObserveMapping(
    ghost headers: seq<ProgramHeader>, bytes: seq<Byte>, profile: Profile, alu: Alu, mapping: Mapping,
    ranges: seq<Range>, entry: nat, symbols: seq<nat>, selection: Selection)
    returns (ok: bool, o: Observer, entries: Entries)
    requires ranges == Parts(mapping) && IsMapping(mapping, headers) && InFileBytes(mapping, bytes)
    requires FitsLinear(ranges)
    ensures fresh(o) && Looks(o, headers, bytes, profile, alu, selection) && Publishes(o.Ctx(), o.mapping)
    ensures ok ==> Analyzed(o, entries) && Reports(o, entries) && SeedsDeclared(o, entry, symbols)
    ensures !ok ==> !IsExecutable(o.image, entry) || o.CapReached() || OverLimit(o)
  {
    hide Looks, Analyzed, Reports, OverLimit, Publishes, Agrees, Parts, IsMapping, InFileBytes, FitsLinear,
      Observer.Valid, Observer.TableAnswers, Observer.SitesMatch, Observer.CapReached, IsExecutable;
    o := NewObserver(headers, bytes, profile, alu, mapping, ranges, selection);
    ghost var c := o.Ctx();
    ok, entries := Analyze(o, entry, symbols);
    PublishingIgnoresBoundaries(c, o.Ctx(), o.mapping);
    if ok {
      LookingAgrees(o, headers, bytes, profile, alu, selection);
      CompletedReports(o, entries);
    }
  }

  /** The executable coverage of the mapped file exceeds its limits. */
  ghost predicate IsTooLarge(headers: seq<ProgramHeader>, selection: Selection) {
    exists mapping: Mapping ::
      IsMapping(mapping, headers) && !WithinLimits(Parts(mapping), selection.executableBytes, selection.executableWords)
  }

  /** No whole word of the mapped file is executable. */
  ghost predicate HasNoCode(headers: seq<ProgramHeader>) {
    exists mapping: Mapping :: IsMapping(mapping, headers) && forall pc: nat :: !ExecutableWord(mapping, pc)
  }

  lemma NoRangesNoCode(headers: seq<ProgramHeader>, bytes: seq<Byte>, mapping: Mapping)
    requires IsMapping(mapping, headers) && InFileBytes(mapping, bytes) && Parts(mapping) == []
    ensures HasNoCode(headers)
  {
    hide ExecutableWord, Parts, IsMapping, InFileBytes;
    CoverageAnswers(mapping, bytes, []);
  }

  /** Analyse one file. A complete pass reports only what is real; otherwise the outcome says which
      condition on the file or the limits failed. */
  method ObserveElf(
    headers: seq<ProgramHeader>, bytes: seq<Byte>, profile: Profile, alu: Alu, entry: nat, symbols: seq<nat>,
    selection: Selection)
    returns (outcome: Outcome, o: Observer?, entries: Entries)
    requires forall k :: 0 <= k < |headers| ==> headers[k].index == k
    ensures outcome.BadHeaders? <==> !Acceptable(headers, |bytes|, Elf32)
    ensures outcome.TooLarge? ==> IsTooLarge(headers, selection)
    ensures outcome.NothingExecutable? ==> HasNoCode(headers)
    ensures outcome.Complete? || outcome.Stopped? ==>
              && o != null && fresh(o) && Looks(o, headers, bytes, profile, alu, selection)
              && Publishes(o.Ctx(), o.mapping)
    ensures outcome.Complete? ==> Analyzed(o, entries) && Reports(o, entries) && SeedsDeclared(o, entry, symbols)
    ensures outcome.Stopped? ==> !IsExecutable(o.image, entry) || o.CapReached() || OverLimit(o)
  {
    hide Acceptable, Looks, Analyzed, Reports, OverLimit, Publishes, SeedsDeclared, ComesFrom, Parts, InFileBytes,
      TotalBytes, IsExecutable, Observer.CapReached;
    o, entries := null, map[];
    var derived := DeriveLoadSegments(headers, |bytes|, Elf32);
    if derived.None? { return BadHeaders, o, entries; }
    var mapping: Mapping := derived.value;
    var covered := BuildExecutableCoverage(mapping, selection.executableBytes, selection.executableWords);
    DerivedInFile(headers, bytes, mapping);
    if covered.None? { return TooLarge, o, entries; }
    if covered.value == [] {
      NoRangesNoCode(headers, bytes, mapping);
      return NothingExecutable, o, entries;
    }
    var ok;
    ok, o, entries := ObserveMapping(headers, bytes, profile, alu, mapping, covered.value, entry, symbols, selection);
    outcome := if ok then Complete else Stopped;
  }

  lemma DerivedInFile(headers: seq<ProgramHeader>, bytes: seq<Byte>, mapping: Mapping)
    requires Acceptable(headers, |bytes|, Elf32) && IsMapping(mapping, headers)
    ensures InFileBytes(mapping, bytes)
  {
  }
}
