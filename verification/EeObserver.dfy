/** The observer pass itself: seeds and boundaries collected by a linear scan, a worklist that
    propagates block-entry states, and a second phase that publishes facts from the final
    states only. Every cap is all-or-nothing. */
module EeObserver {
  import opened Common
  import opened R5900
  import opened ElfLoad
  import opened EeCoverage
  import opened EeEffects
  import opened EeBlocks
  import opened EeFixpoint
  import opened EeSoundness
  import opened EeReality
  import opened EeLeaders
  import opened EeSites

  datatype Source = EntryPoint | ExecutableSegmentStart | ElfFunctionSymbol | DirectCallTarget

  datatype Limits = Limits(seeds: nat, blocks: nat, words: nat, edges: nat, xrefs: nat, sites: nat, textBytes: nat)

  /** `after` is `before` with the elements of `extra` added. */
  ghost predicate Added(before: set<nat>, after: set<nat>, extra: set<nat>) {
    forall x :: x in after <==> x in before || x in extra
  }

  /** Two fact sets grow by `extra`, each fact in its own set. */
  ghost predicate Recorded(
    xrefs0: set<Observation>, materializations0: set<Observation>,
    xrefs1: set<Observation>, materializations1: set<Observation>, extra: set<Observation>)
  {
    && (forall o :: o in xrefs1 <==> o in xrefs0 || (o in extra && o.Xref?))
    && (forall o :: o in materializations1 <==> o in materializations0 || (o in extra && o.Materialization?))
  }

  ghost predicate IsStart(ranges: seq<Range>, x: nat) { exists r :: r in ranges && r.start == x }

  function Starts(ranges: seq<Range>): (starts: seq<nat>)
    ensures forall x: nat :: x in starts <==> IsStart(ranges, x)
  {
    if ranges == [] then [] else Starts(ranges[..|ranges| - 1]) + [ranges[|ranges| - 1].start]
  }

  ghost function ExecutableOf(image: Image, addresses: seq<nat>): set<nat> {
    set x | x in addresses && IsExecutable(image, x)
  }

  lemma ExecutablePrefix(image: Image, addresses: seq<nat>, k: nat)
    requires k < |addresses|
    ensures ExecutableOf(image, addresses[..k + 1]) ==
              ExecutableOf(image, addresses[..k]) + Leader(image, Some(addresses[k]))
  {
    assert addresses[..k + 1] == addresses[..k] + [addresses[k]];
  }

  /** `count` consecutive words from an address. */
  ghost function WordsFrom(start: nat, count: nat): set<nat> { set i | 0 <= i < count :: start + 4 * i }

  ghost function WordsIn(r: Range): set<nat> {
    if r.start <= r.end then WordsFrom(r.start, (r.end - r.start) / 4) else {}
  }

  ghost function WordsOf(ranges: seq<Range>): set<nat> { set r, pc | r in ranges && pc in WordsIn(r) :: pc }

  lemma NextWord(start: nat, i: nat, next: nat, pc: nat, count: nat, before: set<nat>)
    requires i < count && next == i + 1 && pc == start + 4 * i
    ensures before + WordsFrom(start, i) + {pc} == before + WordsFrom(start, next)
    ensures pc in WordsFrom(start, count)
  {
  }

  lemma NoWords(start: nat, before: set<nat>)
    ensures before + WordsFrom(start, 0) == before
  {
  }

  lemma WordsAreAligned(r: Range, pc: nat)
    requires r.start % 4 == 0 && r.end % 4 == 0 && r.start < r.end
    ensures pc in WordsIn(r) <==> r.start <= pc < r.end && pc % 4 == 0
  {
    if r.start <= pc < r.end && pc % 4 == 0 {
      var i := (pc - r.start) / 4;
      assert pc == r.start + 4 * i;
    }
  }

  /** `after` holds nothing beyond `before` and `extra`. */
  ghost predicate Within(before: set<nat>, after: set<nat>, extra: set<nat>) {
    forall x :: x in after ==> x in before || x in extra
  }

  /** The capped set has no room for a new element. */
  predicate Full(s: set<nat>, limit: nat, x: nat) { x !in s && |s| >= limit }

  lemma Overfull(before: set<nat>, now: set<nat>, extra: set<nat>, limit: nat, x: nat)
    requires Within(before, now, extra) && x in extra && Full(now, limit, x)
    ensures exists all :: Added(before, all, extra) && |all| > limit
  {
    var all := before + extra;
    assert Added(before, all, extra);
    assert now < all;
    StrictSubsetCardinality(now, all);
  }

  /** Add one reason to a seed, creating the seed if it is new. */
  function WithSource(seeds: map<nat, set<Source>>, pc: nat, source: Source): (r: map<nat, set<Source>>)
    ensures forall x :: x in r.Keys <==> x in seeds.Keys || x == pc
    ensures |r.Keys| == if pc in seeds then |seeds.Keys| else |seeds.Keys| + 1
  {
    if pc in seeds then
      var r := seeds[pc := seeds[pc] + {source}];
      assert r.Keys == seeds.Keys;
      r
    else
      var r := seeds[pc := {source}];
      assert r.Keys == seeds.Keys + {pc};
      r
  }

  class Observer {
    const image: Image
    const tables: Tables
    const mapping: Mapping
    const observe: (Word, nat, State) -> set<Observation>
    const anchor: nat -> Option<seq<Byte>>
    const ranges: seq<Range>
    ghost const fileLength: nat
    const limits: Limits
    var seeds: map<nat, set<Source>>
    var boundaries: set<nat>
    var blocks: map<nat, Block>
    var edges: set<Edge>
    var xrefs: set<Observation>
    var materializations: set<Observation>
    var sites: set<Site>
    var totalTextBytes: nat
    var cfgWordSteps: nat

    constructor (
      image: Image, tables: Tables, mapping: Mapping, anchor: nat -> Option<seq<Byte>>, ranges: seq<Range>,
      ghost fileLength: nat, limits: Limits)
      requires EeCoverage.Valid(ranges, fileLength)
      requires forall pc: nat :: image.wordAt(pc).Some? <==> Covers(ranges, pc)
      ensures Valid() && TableAnswers() && SitesMatch() && seeds == map[] && boundaries == {} && cfgWordSteps == 0
      ensures this.image == image && this.tables == tables && this.mapping == mapping && this.limits == limits
      ensures this.anchor == anchor && this.ranges == ranges
      ensures Publishes(Ctx(), mapping)
    {
      this.image, this.tables, this.mapping, this.ranges, this.limits := image, tables, mapping, ranges, limits;
      this.fileLength, this.anchor := fileLength, anchor;
      observe := (word: Word, pc: nat, state: State) => Observe(image.alu, tables, mapping, word, pc, state);
      seeds, boundaries, blocks, edges := map[], {}, map[], {};
      xrefs, materializations, sites, totalTextBytes, cfgWordSteps := {}, {}, {}, 0, 0;
    }

    /** The range table is valid and lists exactly the executable words. */
    ghost predicate TableAnswers() {
      && EeCoverage.Valid(ranges, fileLength)
      && forall pc: nat :: image.wordAt(pc).Some? <==> Covers(ranges, pc)
    }

    /** Seeds are boundaries, boundaries are executable, and both caps hold. */
    ghost predicate Valid()
      reads this`boundaries, this`seeds
    {
      && (forall pc :: pc in boundaries ==> IsExecutable(image, pc))
      && seeds.Keys <= boundaries
      && |boundaries| <= limits.blocks && |seeds.Keys| <= limits.seeds
    }

    function Ctx(): Context
      reads this`boundaries
    {
      Context(image, tables, observe, boundaries)
    }

    // ----- seeds and boundaries -----

    method AddBoundary(pc: nat) returns (ok: bool)
      modifies this`boundaries
      ensures ok ==> Added(old(boundaries), boundaries, {pc})
      ensures |old(boundaries)| <= limits.blocks ==> |boundaries| <= limits.blocks
      ensures !ok ==> boundaries == old(boundaries) && Full(boundaries, limits.blocks, pc)
    {
      if pc !in boundaries {
        if |boundaries| + 1 > limits.blocks { return false; }
        boundaries := boundaries + {pc};
      }
      ok := true;
    }

    method AddBoundaryIfExecutable(pc: nat) returns (ok: bool)
      requires Valid()
      modifies this`boundaries
      ensures Valid()
      ensures ok ==> Added(old(boundaries), boundaries, Leader(image, Some(pc)))
      ensures !ok ==>
                boundaries == old(boundaries) && pc in Leader(image, Some(pc)) && Full(boundaries, limits.blocks, pc)
    {
      ok := true;
      if IsExecutable(image, pc) { ok := AddBoundary(pc); }
    }

    /** Add a seed and its boundary. When only the boundary finds no room the seed has already
        been added, and the pass is given up. */
    method AddSeed(pc: nat, source: Source) returns (ok: bool)
      requires Valid()
      modifies this`boundaries, this`seeds
      ensures ok ==> Valid()
      ensures ok ==> Added(old(boundaries), boundaries, Leader(image, Some(pc)))
      ensures ok ==> Added(old(seeds).Keys, seeds.Keys, Leader(image, Some(pc)))
      ensures ok ==> seeds == if IsExecutable(image, pc) then WithSource(old(seeds), pc, source) else old(seeds)
      ensures !ok ==> boundaries == old(boundaries) && pc in Leader(image, Some(pc))
      ensures !ok ==> || (seeds == old(seeds) && Full(seeds.Keys, limits.seeds, pc))
                      || (seeds == WithSource(old(seeds), pc, source) && Full(boundaries, limits.blocks, pc))
    {
      ok := true;
      if IsExecutable(image, pc) {
        if pc !in seeds && |seeds.Keys| + 1 > limits.seeds { return false; }
        seeds := WithSource(seeds, pc, source);
        ok := AddBoundary(pc);
      }
    }

    /** Everything a complete scan announces. */
    ghost function AllLeaders(): set<nat> { LeadersOf(image, ExecutableWords(image)) }
    ghost function AllSeeds(): set<nat> { SeedsOf(image, ExecutableWords(image)) }

    /** Some announced leader or seed finds its capped set full. */
    ghost predicate NoRoom(leaders: set<nat>, announced: set<nat>)
      reads this`boundaries, this`seeds
    {
      || (exists x :: x in leaders && Full(boundaries, limits.blocks, x))
      || (exists x :: x in announced && Full(seeds.Keys, limits.seeds, x))
    }

    /** One of the two capped sets is full. */
    ghost predicate CapReached()
      reads this`boundaries, this`seeds
    {
      |boundaries| >= limits.blocks || |seeds.Keys| >= limits.seeds
    }

    /** Record one optional target, as a seed or as a plain boundary. */
    method AddLeader(pc: Option<nat>, isSeed: bool) returns (ok: bool)
      requires Valid()
      modifies this`boundaries, this`seeds
      ensures ok ==> Valid()
      ensures ok ==> && Added(old(boundaries), boundaries, Leader(image, pc))
                     && Added(old(seeds).Keys, seeds.Keys, if isSeed then Leader(image, pc) else {})
      ensures !ok ==> && boundaries == old(boundaries)
                      && Within(old(seeds).Keys, seeds.Keys, if isSeed then Leader(image, pc) else {})
                      && NoRoom(Leader(image, pc), if isSeed then Leader(image, pc) else {})
    {
      ok := true;
      if pc.Some? {
        if isSeed {
          ok := AddSeed(pc.value, DirectCallTarget);
        } else {
          ok := AddBoundaryIfExecutable(pc.value);
        }
      }
    }

    /** Record the leaders and seeds of one word. */
    method ScanWord(pc: nat) returns (ok: bool)
      requires Valid()
      modifies this`boundaries, this`seeds
      ensures ok ==> Valid()
      ensures ok ==> && Added(old(boundaries), boundaries, WordLeaders(image, pc))
                     && Added(old(seeds).Keys, seeds.Keys, WordSeeds(image, pc))
      ensures !ok ==> && Within(old(boundaries), boundaries, WordLeaders(image, pc))
                      && Within(old(seeds).Keys, seeds.Keys, WordSeeds(image, pc))
      ensures !ok ==> NoRoom(WordLeaders(image, pc), WordSeeds(image, pc))
    {
      var announced := Announces(image, pc);
      ok := AddLeader(announced.target, announced.isSeed);
      if ok { ok := AddLeader(announced.continuation, false); }
    }

    /** Add every executable address of a list as a seed. */
    method AddSeeds(addresses: seq<nat>, source: Source) returns (ok: bool)
      requires Valid() && boundaries == seeds.Keys
      modifies this`boundaries, this`seeds
      ensures ok ==> Valid() && boundaries == seeds.Keys
      ensures ok ==> Added(old(seeds).Keys, seeds.Keys, ExecutableOf(image, addresses))
      ensures !ok ==> CapReached()
    {
      for k := 0 to |addresses|
        invariant Valid() && boundaries == seeds.Keys
        invariant Added(old(seeds).Keys, seeds.Keys, ExecutableOf(image, addresses[..k]))
      {
        ExecutablePrefix(image, addresses, k);
        ok := AddSeed(addresses[k], source);
        if !ok { return; }
      }
      assert addresses[..|addresses|] == addresses;
      ok := true;
    }

    /** Seed the analysis from the covered range starts, the entry point and the function
        symbols; an entry point outside coverage refuses the image. */
    method CollectDeclaredSeeds(entry: nat, symbols: seq<nat>) returns (ok: bool)
      requires Valid() && seeds == map[] && boundaries == {}
      modifies this`boundaries, this`seeds
      ensures ok ==> Valid() && IsExecutable(image, entry) && boundaries == seeds.Keys
      ensures ok ==> forall x: nat :: x in seeds <==>
                IsExecutable(image, x) && (x == entry || x in symbols || IsStart(ranges, x))
      ensures !ok ==> !IsExecutable(image, entry) || CapReached()
    {
      if !IsExecutable(image, entry) { return false; }
      ok := AddSeeds(Starts(ranges), ExecutableSegmentStart);
      if !ok { return; }
      ok := AddSeeds([entry], EntryPoint);
      if !ok { return; }
      ok := AddSeeds(symbols, ElfFunctionSymbol);
    }

    /** Boundaries and seeds are the declared ones plus the announcements recorded so far. */
    ghost predicate Progress(boundaries0: set<nat>, seeds0: set<nat>, leaders: set<nat>, announced: set<nat>)
      reads this`boundaries, this`seeds
    {
      && Valid()
      && Added(boundaries0, boundaries, leaders) && leaders <= AllLeaders()
      && Added(seeds0, seeds.Keys, announced) && announced <= AllSeeds()
    }

    /** The boundaries or seeds of a complete scan exceed their cap. */
    ghost predicate Exceeds(boundaries0: set<nat>, seeds0: set<nat>) {
      || (exists all :: Added(boundaries0, all, AllLeaders()) && |all| > limits.blocks)
      || (exists all :: Added(seeds0, all, AllSeeds()) && |all| > limits.seeds)
    }

    method ScanWordAfter(
      pc: nat, ghost boundaries0: set<nat>, ghost seeds0: set<nat>, ghost leaders: set<nat>, ghost announced: set<nat>)
      returns (ok: bool)
      requires Progress(boundaries0, seeds0, leaders, announced) && IsExecutable(image, pc)
      modifies this`boundaries, this`seeds
      ensures ok ==> Progress(boundaries0, seeds0, leaders + WordLeaders(image, pc), announced + WordSeeds(image, pc))
      ensures !ok ==> Exceeds(boundaries0, seeds0) && CapReached()
    {
      ok := ScanWord(pc);
      assert pc in ExecutableWords(image);
      if !ok {
        if x :| x in WordLeaders(image, pc) && Full(boundaries, limits.blocks, x) {
          Overfull(boundaries0, boundaries, AllLeaders(), limits.blocks, x);
        } else {
          var y :| y in WordSeeds(image, pc) && Full(seeds.Keys, limits.seeds, y);
          Overfull(seeds0, seeds.Keys, AllSeeds(), limits.seeds, y);
        }
      }
    }

    /** Scan consecutive words of one range. */
    method ScanRange(
      start: nat, count: nat, ghost boundaries0: set<nat>, ghost seeds0: set<nat>, ghost before: set<nat>)
      returns (ok: bool)
      requires Progress(boundaries0, seeds0, LeadersOf(image, before), SeedsOf(image, before))
      requires forall pc :: pc in WordsFrom(start, count) ==> IsExecutable(image, pc)
      modifies this`boundaries, this`seeds
      ensures ok ==> var done := before + WordsFrom(start, count);
                     Progress(boundaries0, seeds0, LeadersOf(image, done), SeedsOf(image, done))
      ensures !ok ==> Exceeds(boundaries0, seeds0) && CapReached()
    {
      hide LeadersOf, SeedsOf, Exceeds, WordsFrom, Added;
      ghost var done, leaders, announced := before, LeadersOf(image, before), SeedsOf(image, before);
      NoWords(start, before);
      for i := 0 to count
        invariant done == before + WordsFrom(start, i)
        invariant leaders == LeadersOf(image, done) && announced == SeedsOf(image, done)
        invariant Progress(boundaries0, seeds0, leaders, announced)
      {
        var pc := start + 4 * i;
        NextWord(start, i, i + 1, pc, count, before);
        AddedWord(image, done, pc);
        ok := ScanWordAfter(pc, boundaries0, seeds0, leaders, announced);
        if !ok { return; }
        leaders, announced := leaders + WordLeaders(image, pc), announced + WordSeeds(image, pc);
        done := done + {pc};
      }
      ok := true;
    }

    /** Decode every executable word once. A complete scan adds exactly the announced leaders and
        seeds; it stops early only when those sets really exceed their caps. */
    method ScanAllExecutableWords() returns (ok: bool)
      requires Valid() && TableAnswers()
      modifies this`boundaries, this`seeds
      ensures ok ==> Valid()
      ensures ok ==> Added(old(boundaries), boundaries, AllLeaders()) && Added(old(seeds).Keys, seeds.Keys, AllSeeds())
      ensures !ok ==> Exceeds(old(boundaries), old(seeds).Keys) && CapReached()
    {
      ghost var done: set<nat> := {};
      for k := 0 to |ranges|
        invariant done == WordsOf(ranges[..k])
        invariant Progress(old(boundaries), old(seeds).Keys, LeadersOf(image, done), SeedsOf(image, done))
      {
        NextRange(k);
        var count := (ranges[k].end - ranges[k].start) / 4;
        ok := ScanRange(ranges[k].start, count, old(boundaries), old(seeds).Keys, done);
        if !ok { return; }
        done := done + WordsFrom(ranges[k].start, count);
      }
      AllRanges();
      ok := true;
    }

    lemma NextRange(k: nat)
      requires TableAnswers() && k < |ranges|
      ensures ranges[k].start < ranges[k].end
      ensures var words := WordsIn(ranges[k]);
              && WordsOf(ranges[..k + 1]) == WordsOf(ranges[..k]) + words
              && forall pc :: pc in words ==> IsExecutable(image, pc)
    {
      var r := ranges[k];
      assert r in ranges && r in ranges[..k + 1];
      assert ranges[..k + 1] == ranges[..k] + [r];
      forall pc: nat | pc in WordsIn(r) ensures IsExecutable(image, pc) {
        WordsAreAligned(r, pc);
        assert Covers(ranges, pc);
      }
    }

    lemma AllRanges()
      requires TableAnswers()
      ensures WordsOf(ranges[..|ranges|]) == ExecutableWords(image)
    {
      assert ranges[..|ranges|] == ranges;
      forall pc: nat ensures pc in WordsOf(ranges) <==> Covers(ranges, pc) {
        forall r | r in ranges ensures pc in WordsIn(r) <==> r.start <= pc < r.end && pc % 4 == 0 {
          WordsAreAligned(r, pc);
        }
      }
    }

    // ----- block analysis -----

    /** The two fact sets are the earlier ones plus `extra`, each fact in its own set. */
    ghost predicate Published(xrefs0: set<Observation>, materializations0: set<Observation>, extra: set<Observation>)
      reads this`xrefs, this`materializations
    {
      Recorded(xrefs0, materializations0, xrefs, materializations, extra)
    }

    /** The sites are those of the cross-references, and their texts are counted exactly once. */
    ghost predicate SitesMatch()
      reads this`xrefs, this`sites, this`totalTextBytes
    {
      && sites == SitesFor(anchor, xrefs) && |sites| <= limits.sites
      && totalTextBytes == AllTextBytes(sites) <= limits.textBytes
    }

    /** Some fact set or the sites are full, or the text of a retained cross-reference no longer fits. */
    ghost predicate FactsFull()
      reads this`xrefs, this`materializations, this`sites, this`totalTextBytes
    {
      || |xrefs| >= limits.xrefs || |materializations| >= limits.xrefs || |sites| >= limits.sites
      || exists o :: o in xrefs && NoRoomForText(o)
    }

    ghost predicate NoRoomForText(o: Observation)
      reads this`sites, this`totalTextBytes
    {
      && HasSite(o) && SiteOf(anchor, o) !in sites
      && totalTextBytes + TextBytes(SiteOf(anchor, o)) > limits.textBytes
    }

    /** Retain the site of a cross-reference, charging its text. */
    method RecordSite(o: Observation) returns (ok: bool)
      requires o in xrefs && HasSite(o) && |sites| <= limits.sites
      requires totalTextBytes == AllTextBytes(sites) <= limits.textBytes
      modifies this`sites, this`totalTextBytes
      ensures ok ==> sites == old(sites) + {SiteOf(anchor, o)}
      ensures ok ==> |sites| <= limits.sites && totalTextBytes == AllTextBytes(sites) <= limits.textBytes
      ensures !ok ==> FactsFull()
    {
      hide AllTextBytes;
      var site := SiteOf(anchor, o);
      if site in sites { return true; }
      if |sites| + 1 > limits.sites { return false; }
      OneMoreSite(sites, site);
      if site.anchor.Some? {
        if totalTextBytes + |site.anchor.value| > limits.textBytes {
          assert NoRoomForText(o);
          return false;
        }
        totalTextBytes := totalTextBytes + |site.anchor.value|;
      }
      sites := sites + {site};
      ok := true;
    }

    /** Retain one cross-reference and its site. */
    method RecordXref(o: Observation) returns (ok: bool)
      requires SitesMatch() && o.Xref?
      modifies this`xrefs, this`sites, this`totalTextBytes
      ensures ok ==> xrefs == old(xrefs) + {o} && SitesMatch()
      ensures !ok ==> FactsFull()
    {
      hide AllTextBytes, SitesFor;
      OneMoreXref(anchor, xrefs, o);
      if o !in xrefs && |xrefs| + 1 > limits.xrefs { return false; }
      xrefs := xrefs + {o};
      ok := true;
      if HasSite(o) { ok := RecordSite(o); }
    }

    /** Retain one fact, refusing only what no longer fits. */
    method Record(o: Observation) returns (ok: bool)
      requires SitesMatch()
      modifies this`xrefs, this`materializations, this`sites, this`totalTextBytes
      ensures ok ==> Published(old(xrefs), old(materializations), {o}) && SitesMatch()
      ensures !ok ==> FactsFull()
    {
      hide SitesMatch;
      ok := true;
      if o.Xref? {
        ok := RecordXref(o);
      } else if o !in materializations {
        if |materializations| + 1 > limits.xrefs { return false; }
        materializations := materializations + {o};
      }
    }

    /** Retain every fact of a set, stopping at the first refusal. */
    method RecordAll(facts: set<Observation>) returns (ok: bool)
      requires SitesMatch()
      modifies this`xrefs, this`materializations, this`sites, this`totalTextBytes
      ensures ok ==> Published(old(xrefs), old(materializations), facts) && SitesMatch()
      ensures !ok ==> FactsFull()
    {
      hide SitesMatch, FactsFull;
      var rest := facts;
      while rest != {}
        invariant rest <= facts && Published(old(xrefs), old(materializations), facts - rest) && SitesMatch()
      {
        var o :| o in rest;
        ok := Record(o);
        if !ok { return; }
        rest := rest - {o};
      }
      ok := true;
    }

    method BumpWordSteps() returns (ok: bool)
      modifies this`cfgWordSteps
      ensures cfgWordSteps == old(cfgWordSteps) + 1 && (ok <==> cfgWordSteps <= limits.words)
    {
      cfgWordSteps := cfgWordSteps + 1;
      ok := cfgWordSteps <= limits.words;
    }

    /** Run the delay slot of the transfer at `pc` from the linked state: one more word step and,
        when emitting, the slot's fact. */
    method ExecuteDelaySlot(c: Context, pc: nat, linked: State, emit: bool) returns (ok: bool)
      requires SitesMatch()
      modifies this`cfgWordSteps, this`xrefs, this`materializations, this`sites, this`totalTextBytes
      ensures ok ==> SitesMatch()
      ensures cfgWordSteps == old(cfgWordSteps) + SlotSteps(c, pc)
      ensures ok ==> Published(old(xrefs), old(materializations), if emit then SlotObservations(c, pc, linked) else {})
      ensures ok && SlotSteps(c, pc) > 0 ==> cfgWordSteps <= limits.words
      ensures !ok ==> cfgWordSteps > limits.words || (emit && FactsFull())
    {
      hide SitesMatch, FactsFull;
      ok := true;
      if HasWord(c, pc + 4) {
        ok := BumpWordSteps();
        if ok && emit { ok := RecordAll(SlotObservations(c, pc, linked)); }
      }
    }

    lemma NothingPublished()
      ensures Published(xrefs, materializations, {})
    {
    }

    /** Facts published in two steps are the facts of both. */
    lemma PublishedTwice(
      xrefs0: set<Observation>, materializations0: set<Observation>,
      xrefs1: set<Observation>, materializations1: set<Observation>,
      emit: bool, first: set<Observation>, second: set<Observation>)
      requires Recorded(xrefs0, materializations0, xrefs1, materializations1, if emit then first else {})
      requires Published(xrefs1, materializations1, if emit then second else {})
      ensures Published(xrefs0, materializations0, if emit then first + second else {})
    {
    }

    /** A word that continues the block costs one step and, when emitting, publishes its fact. */
    method AnalyzeWord(c: Context, pc: nat, state: State, emit: bool) returns (ok: bool)
      requires SitesMatch()
      modifies this`cfgWordSteps, this`xrefs, this`materializations, this`sites, this`totalTextBytes
      ensures ok ==> SitesMatch()
      ensures cfgWordSteps == old(cfgWordSteps) + 1
      ensures ok ==> cfgWordSteps <= limits.words
      ensures ok ==> Published(old(xrefs), old(materializations), if emit then Facts(c, pc, state) else {})
      ensures !ok ==> cfgWordSteps > limits.words || (emit && FactsFull())
    {
      hide SitesMatch, FactsFull;
      ok := BumpWordSteps();
      if ok && emit { ok := RecordAll(Facts(c, pc, state)); }
    }

    /** `pc` is on the way: the record and successors to come are those of the whole block, and
        the words and facts so far plus those to come make up the whole. */
    ghost predicate Analyzed(here: Rest, whole: Rest, steps: nat, seen: set<Observation>)
      reads this`cfgWordSteps
    {
      && cfgWordSteps <= limits.words
      && here.shape == whole.shape && here.exits == whole.exits
      && cfgWordSteps + here.cost == steps + whole.cost
      && seen + here.facts == whole.facts
    }

    /** Analyse one block. Successors and record are those of the block transfer; the word budget
        is charged with exactly the words fetched; facts are published only when emitting. Without
        emission the analysis fails exactly when the budget does not cover the block. */
    method AnalyzeBlock(c: Context, start: nat, entry: State, emit: bool)
      returns (ok: bool, block: Block, successors: seq<Successor>)
      requires cfgWordSteps <= limits.words
      requires SitesMatch()
      modifies this`cfgWordSteps, this`xrefs, this`materializations, this`sites, this`totalTextBytes
      ensures ok ==> SitesMatch()
      ensures var whole := RestOf(c, start, start, entry, 0);
              && (ok ==> block == whole.shape && successors == whole.exits)
              && (ok ==> cfgWordSteps == old(cfgWordSteps) + whole.cost <= limits.words)
              && (ok ==> Published(old(xrefs), old(materializations), if emit then whole.facts else {}))
              && (!ok ==> old(cfgWordSteps) + whole.cost > limits.words || (emit && FactsFull()))
              && (!ok ==> cfgWordSteps > limits.words || (emit && FactsFull()))
    {
      hide RestOf, Facts, StopBlock, SitesMatch, FactsFull, Recorded;
      NothingPublished();
      var pc, state, words := start, entry, 0;
      ghost var whole, seen: set<Observation> := RestOf(c, start, start, entry, 0), {};
      while (pc == start || pc !in c.boundaries) && After(c, pc, state).Some?
        invariant pc == start || start + 4 <= pc
        invariant Analyzed(RestOf(c, start, pc, state, words), whole, old(cfgWordSteps), seen)
        invariant Published(old(xrefs), old(materializations), if emit then seen else {}) && SitesMatch()
        decreases LINEAR_PC_END - pc
      {
        var following, next := pc + 4, After(c, pc, state).value;
        RestAfterWord(c, start, pc, following, state, words, next);
        ghost var xrefs1, materializations1 := xrefs, materializations;
        ok := AnalyzeWord(c, pc, state, emit);
        if !ok { return false, StopBlock(c, start, pc, state, words), []; }
        PublishedTwice(old(xrefs), old(materializations), xrefs1, materializations1,
                       emit, seen, Facts(c, pc, state));
        seen := seen + Facts(c, pc, state);
        pc, state, words := following, next, words + 1;
      }
      ghost var xrefs1, materializations1 := xrefs, materializations;
      ok, block, successors := EndBlock(c, start, pc, state, words, emit);
      if ok {
        PublishedTwice(old(xrefs), old(materializations), xrefs1, materializations1,
                       emit, seen, RestOf(c, start, pc, state, words).facts);
      }
    }

    /** The end of a block: a boundary, an address without a word, or a word that ends it. */
    method EndBlock(c: Context, start: nat, pc: nat, state: State, words: nat, emit: bool)
      returns (ok: bool, block: Block, successors: seq<Successor>)
      requires (pc != start && pc in c.boundaries) || After(c, pc, state).None?
      requires cfgWordSteps <= limits.words
      requires pc == start || start + 4 <= pc
      requires SitesMatch()
      modifies this`cfgWordSteps, this`xrefs, this`materializations, this`sites, this`totalTextBytes
      ensures ok ==> SitesMatch()
      ensures var rest := RestOf(c, start, pc, state, words);
              && (ok ==> block == rest.shape && successors == rest.exits)
              && (ok ==> cfgWordSteps == old(cfgWordSteps) + rest.cost <= limits.words)
              && (ok ==> Published(old(xrefs), old(materializations), if emit then rest.facts else {}))
              && (!ok ==> old(cfgWordSteps) + rest.cost > limits.words || (emit && FactsFull()))
              && (!ok ==> cfgWordSteps > limits.words || (emit && FactsFull()))
    {
      hide SitesMatch, FactsFull;
      if pc != start && pc in c.boundaries {
        RestAtBoundary(c, start, pc, state, words);
        return true, Block(start, pc, words, None, EndFallThrough), [To(start, pc - 4, pc, FallThroughEdge, state)];
      }
      RestAtStop(c, start, pc, state, words);
      if !HasWord(c, pc) { return true, StopBlock(c, start, pc, state, words), []; }
      ok := BumpWordSteps();
      if !ok { return false, StopBlock(c, start, pc, state, words), []; }
      ok, block, successors := FinishBlock(c, start, pc, state, words, emit);
    }

    /** The word that ends a block: a transfer runs its delay slot before control leaves. */
    method FinishBlock(c: Context, start: nat, pc: nat, state: State, words: nat, emit: bool)
      returns (ok: bool, block: Block, successors: seq<Successor>)
      requires After(c, pc, state).None? && HasWord(c, pc) && cfgWordSteps <= limits.words
      requires pc == start || start + 4 <= pc
      requires SitesMatch()
      modifies this`cfgWordSteps, this`xrefs, this`materializations, this`sites, this`totalTextBytes
      ensures ok ==> SitesMatch()
      ensures block == StopBlock(c, start, pc, state, words) && successors == StopExits(c, start, pc, state)
      ensures ok ==> cfgWordSteps == old(cfgWordSteps) + StopSteps(c, pc) <= limits.words
      ensures ok ==> Published(old(xrefs), old(materializations), if emit then StopEmits(c, pc, state) else {})
      ensures !ok ==> old(cfgWordSteps) + StopSteps(c, pc) > limits.words || (emit && FactsFull())
      ensures !ok ==> cfgWordSteps > limits.words || (emit && FactsFull())
    {
      hide SitesMatch, FactsFull;
      ok, block, successors := true, StopBlock(c, start, pc, state, words), StopExits(c, start, pc, state);
      if IsTransfer(c, pc) { ok := ExecuteDelaySlot(c, pc, LinkedAt(c, pc, state), emit); }
    }
  }
}
