/** Propagation over the scanned image: phase one computes the block-entry states, phase two
    rebuilds blocks, edges and facts once from the final states. */
module EePropagate {
  import opened Common
  import opened R5900
  import opened ElfLoad
  import opened EeEffects
  import opened EeBlocks
  import opened EeFixpoint
  import opened EeSoundness
  import opened EeReality
  import opened EeLeaders
  import opened EeObserver

  // ----- entry states -----

  method InsertEntryState(entries: Entries, pending: set<nat>, target: nat, incoming: State, maximumBlocks: nat)
    returns (ok: bool, entries1: Entries, pending1: set<nat>)
    ensures ok <==> target in entries || |entries| < maximumBlocks
    ensures ok ==> entries1 == Inserted(entries, target, incoming)
    ensures ok ==> pending1 == pending + if entries1 == entries then {} else {target}
  {
    ok, entries1, pending1 := true, entries, pending;
    if target in entries {
      var joined, changed := JoinFrom(entries[target], incoming);
      entries1 := entries[target := joined];
      if changed { pending1 := pending + {target}; }
    } else if |entries| + 1 > maximumBlocks {
      ok := false;
    } else {
      entries1, pending1 := entries[target := incoming], pending + {target};
    }
  }

  /** A block was discovered or a constant forgotten. */
  ghost predicate Advances(before: Entries, after: Entries) {
    || before.Keys < after.Keys
    || (before.Keys == after.Keys && Constants(after) < Constants(before))
  }

  lemma AdvancesIsTransitive(a: Entries, b: Entries, c: Entries)
    requires Advances(a, b) && Advances(b, c)
    ensures Advances(a, c)
  {
  }

  lemma InsertionAdvances(entries: Entries, target: nat, incoming: State)
    requires Inserted(entries, target, incoming) != entries
    ensures Advances(entries, Inserted(entries, target, incoming))
  {
    if target in entries {
      InsertionMakesProgress(entries, target, incoming);
    } else {
      assert Inserted(entries, target, incoming).Keys == entries.Keys + {target};
    }
  }

  /** Blocks start at boundaries, so discovering one more never exceeds the block cap. */
  lemma RoomForLeader(entries: Entries, boundaries: set<nat>, target: nat, maximumBlocks: nat)
    requires entries.Keys <= boundaries && |boundaries| <= maximumBlocks
    requires target in boundaries
    ensures target in entries || |entries| < maximumBlocks
  {
    if target !in entries {
      StrictSubsetCardinality(entries.Keys, boundaries);
      assert |entries| == |entries.Keys|;
    }
  }

  /** Hand the successor states of one block to their targets. */
  method DeliverSuccessors(
    ghost p: Problem, c: Context, entries0: Entries, pending0: set<nat>, current: nat, state: State,
    successors: seq<Successor>, maximumBlocks: nat)
    returns (entries: Entries, pending: set<nat>)
    requires Models(p, c) && Delivering(p, entries0, pending0, current, state, 0)
    requires successors == p.transfer(current, state)
    requires entries0.Keys <= c.boundaries && |c.boundaries| <= maximumBlocks
    requires forall s :: s in successors && IsExecutable(c.image, s.edge.target) ==> s.edge.target in c.boundaries
    ensures Invariant(p, entries, pending) && entries.Keys <= c.boundaries
    ensures Advances(entries0, entries) || (entries == entries0 && pending == pending0)
  {
    entries, pending := entries0, pending0;
    for k := 0 to |successors|
      invariant Delivering(p, entries, pending, current, state, k) && entries.Keys <= c.boundaries
      invariant Advances(entries0, entries) || (entries == entries0 && pending == pending0)
    {
      var s := successors[k];
      assert s in successors;
      if s.state.Some? && IsExecutable(c.image, s.edge.target) {
        ghost var before := entries;
        entries, pending := DeliverState(p, c, entries, pending, current, state, k, s, maximumBlocks);
        if Advances(entries0, before) && Advances(before, entries) { AdvancesIsTransitive(entries0, before, entries); }
      } else {
        DeliverNone(p, entries, pending, current, state, k);
      }
    }
    FinishDelivering(p, entries, pending, current, state);
  }

  method DeliverState(
    ghost p: Problem, c: Context, entries0: Entries, pending0: set<nat>, ghost current: nat, ghost state: State,
    ghost done: nat, s: Successor, maximumBlocks: nat)
    returns (entries: Entries, pending: set<nat>)
    requires p.executable == ExecutableWords(c.image) && Delivering(p, entries0, pending0, current, state, done)
    requires done < |p.transfer(current, state)| && s == p.transfer(current, state)[done]
    requires s.state.Some? && IsExecutable(c.image, s.edge.target) && s.edge.target in c.boundaries
    requires entries0.Keys <= c.boundaries && |c.boundaries| <= maximumBlocks
    ensures Delivering(p, entries, pending, current, state, done + 1) && entries.Keys <= c.boundaries
    ensures Advances(entries0, entries) || (entries == entries0 && pending == pending0)
  {
    RoomForLeader(entries0, c.boundaries, s.edge.target, maximumBlocks);
    assert s.edge.target in p.executable;
    var ok;
    ok, entries, pending := InsertEntryState(entries0, pending0, s.edge.target, s.state.value, maximumBlocks);
    DeliverOne(p, entries0, pending0, current, state, done, if entries == entries0 then {} else {s.edge.target});
    if entries != entries0 { InsertionAdvances(entries0, s.edge.target, s.state.value); }
  }

  // ----- phase one -----

  /** Every seed starts as a pending block about which nothing is known. */
  method InsertSeeds(ghost p: Problem, c: Context, seeds: set<nat>, maximumBlocks: nat)
    returns (entries: Entries, pending: set<nat>)
    requires p.seeds == seeds && seeds <= c.boundaries && |c.boundaries| <= maximumBlocks
    requires seeds <= p.executable
    ensures Invariant(p, entries, pending) && pending <= entries.Keys == seeds
  {
    entries, pending := map[], {};
    while !(seeds <= pending)
      invariant OnlySeeds(entries, pending, seeds)
      decreases seeds - pending
    {
      var seed :| seed in seeds && seed !in pending;
      RoomForLeader(entries, c.boundaries, seed, maximumBlocks);
      entries, pending := InsertSeed(entries, pending, seed, maximumBlocks, seeds);
    }
    SeedsStartTheWorklist(p, entries);
  }

  ghost predicate OnlySeeds(entries: Entries, pending: set<nat>, seeds: set<nat>) {
    entries.Keys == pending && pending <= seeds && forall seed :: seed in entries ==> entries[seed] == UnknownState()
  }

  method InsertSeed(entries: Entries, pending: set<nat>, seed: nat, maximumBlocks: nat, ghost seeds: set<nat>)
    returns (entries1: Entries, pending1: set<nat>)
    requires OnlySeeds(entries, pending, seeds) && seed in seeds && seed !in pending
    requires seed in entries || |entries| < maximumBlocks
    ensures OnlySeeds(entries1, pending1, seeds) && pending < pending1
  {
    var ok;
    ok, entries1, pending1 := InsertEntryState(entries, pending, seed, UnknownState(), maximumBlocks);
  }

  lemma SeedsStartTheWorklist(p: Problem, entries: Entries)
    requires entries.Keys == p.seeds <= p.executable
    requires forall seed :: seed in entries ==> entries[seed] == UnknownState()
    ensures Invariant(p, entries, entries.Keys)
  {
  }

  /** The observer and the propagation problem describe the same scanned image. */
  ghost predicate Ready(o: Observer, p: Problem, c: Context)
    reads o`boundaries, o`seeds
  {
    && o.Valid() && c == o.Ctx() && Scanned(c)
    && Models(p, c) && p.seeds == o.seeds.Keys
  }

  lemma BoundariesAreExecutable(o: Observer, p: Problem, c: Context)
    requires Ready(o, p, c)
    ensures c.boundaries <= p.executable
  {
  }

  lemma ReadyExits(o: Observer, p: Problem, c: Context, start: nat, state: State)
    requires Ready(o, p, c)
    ensures p.transfer(start, state) == RestOf(c, start, start, state, 0).exits
    ensures forall s :: s in p.transfer(start, state) && IsExecutable(c.image, s.edge.target) ==>
              s.edge.target in c.boundaries
  {
    forall s | s in Exits(c, start, start, state) && IsExecutable(c.image, s.edge.target)
      ensures s.edge.target in c.boundaries
    {
      ExitsAreLeaders(c, start, start, state, s);
    }
  }

  /** Take one block off the worklist. */
  method ProcessBlock(o: Observer, ghost p: Problem, c: Context, entries0: Entries, pending0: set<nat>, current: nat)
    returns (ok: bool, entries: Entries, pending: set<nat>)
    requires Ready(o, p, c) && Monotone(p) && o.cfgWordSteps <= o.limits.words && o.SitesMatch()
    requires Invariant(p, entries0, pending0) && entries0.Keys <= c.boundaries && current in pending0
    modifies o`cfgWordSteps, o`xrefs, o`materializations, o`sites, o`totalTextBytes
    ensures o.Valid() && (ok ==> o.SitesMatch()) && (o.cfgWordSteps <= o.limits.words <==> ok)
    ensures ok ==> Invariant(p, entries, pending) && entries.Keys <= c.boundaries
    ensures ok ==> Shrinks(p.executable, entries0, pending0, entries, pending)
  {
    hide Monotone, Delivering, Advances, Shrinks, RestOf, Observer.SitesMatch, Observer.FactsFull, Scanned;
    ReadyBlocks(o, p, c, entries0, pending0);
    StartDelivering(p, entries0, pending0, current);
    ReadyExits(o, p, c, current, entries0[current]);
    hide Ready, Invariant, Models;
    var block, successors;
    ok, block, successors := o.AnalyzeBlock(c, current, entries0[current], false);
    entries, pending := entries0, pending0;
    if ok {
      entries, pending :=
        DeliverSuccessors(p, c, entries0, pending0 - {current}, current, entries0[current], successors,
                          o.limits.blocks);
      StepShrinks(p, entries0, pending0, current, entries, pending);
    }
  }

  lemma ReadyBlocks(o: Observer, p: Problem, c: Context, entries: Entries, pending: set<nat>)
    requires Ready(o, p, c) && Invariant(p, entries, pending)
    ensures Models(p, c) && o.Valid() && |c.boundaries| <= o.limits.blocks && pending <= entries.Keys
  {
    hide Models;
  }

  lemma StepShrinks(
    p: Problem, entries0: Entries, pending0: set<nat>, current: nat, entries: Entries, pending: set<nat>)
    requires current in pending0 && Invariant(p, entries, pending)
    requires Advances(entries0, entries) || (entries == entries0 && pending == pending0 - {current})
    ensures Shrinks(p.executable, entries0, pending0, entries, pending)
  {
    hide Constants;
    if Advances(entries0, entries) { AdvancingShrinks(p.executable, entries0, entries); }
  }

  /** What is left to do after a step: fewer undiscovered words, fewer constants, or fewer pending blocks. */
  ghost predicate Shrinks(
    executable: set<nat>, entries0: Entries, pending0: set<nat>, entries1: Entries, pending1: set<nat>)
  {
    var left0, left1 := executable - entries0.Keys, executable - entries1.Keys;
    || left1 < left0
    || (left1 == left0 && Constants(entries1) < Constants(entries0))
    || (left1 == left0 && Constants(entries1) == Constants(entries0) && pending1 < pending0)
  }

  lemma AdvancingShrinks(executable: set<nat>, before: Entries, after: Entries)
    requires Advances(before, after) && after.Keys <= executable
    ensures || executable - after.Keys < executable - before.Keys
            || (executable - after.Keys == executable - before.Keys && Constants(after) < Constants(before))
  {
    if before.Keys < after.Keys {
      var x :| x in after.Keys && x !in before.Keys;
      assert x in executable - before.Keys;
    }
  }

  /** The worklist, taken in any order. A run that ends within its word budget holds the least
      solution of the join equations; the block cap is never what stops it. */
  method PropagateEntryStates(o: Observer, ghost p: Problem, c: Context) returns (ok: bool, entries: Entries)
    requires Ready(o, p, c) && o.cfgWordSteps <= o.limits.words && o.SitesMatch()
    modifies o`cfgWordSteps, o`xrefs, o`materializations, o`sites, o`totalTextBytes
    ensures ok ==> Least(p, entries) && entries.Keys <= c.boundaries
    ensures !ok ==> o.cfgWordSteps > o.limits.words
  {
    BoundariesAreExecutable(o, p, c);
    ModelsAreMonotone(p, c);
    var pending;
    entries, pending := InsertSeeds(p, c, o.seeds.Keys, o.limits.blocks);
    hide Ready, Monotone, Invariant, Least, Constants, Observer.SitesMatch;
    while pending != {}
      invariant Ready(o, p, c) && o.cfgWordSteps <= o.limits.words && o.SitesMatch()
      invariant Invariant(p, entries, pending) && entries.Keys <= c.boundaries
      decreases p.executable - entries.Keys, Constants(entries), pending
    {
      var current :| current in pending;
      ok, entries, pending := ProcessBlock(o, p, c, entries, pending, current);
      if !ok { return; }
    }
    EmptyWorklistIsLeast(p, entries);
    ok := true;
  }

  // ----- phase two -----

  ghost function EdgesOf(successors: seq<Successor>): set<Edge> { set s | s in successors :: s.edge }

  ghost function BlockAt(c: Context, entries: Entries, start: nat): Rest
    requires start in entries
  {
    RestOf(c, start, start, entries[start], 0)
  }

  ghost function AllEdges(c: Context, entries: Entries, starts: set<nat>): set<Edge>
    requires starts <= entries.Keys
  {
    set start, e | start in starts && e in EdgesOf(BlockAt(c, entries, start).exits) :: e
  }

  ghost function AllFacts(c: Context, entries: Entries, starts: set<nat>): set<Observation>
    requires starts <= entries.Keys
  {
    set start, o | start in starts && o in BlockAt(c, entries, start).facts :: o
  }

  lemma OneMoreBlock(c: Context, entries: Entries, starts: set<nat>, start: nat)
    requires starts <= entries.Keys && start in entries
    ensures AllEdges(c, entries, starts + {start}) ==
              AllEdges(c, entries, starts) + EdgesOf(BlockAt(c, entries, start).exits)
    ensures AllFacts(c, entries, starts + {start}) == AllFacts(c, entries, starts) + BlockAt(c, entries, start).facts
  {
    assert start in starts + {start};
    forall e | e in AllEdges(c, entries, starts) ensures e in AllEdges(c, entries, starts + {start}) {
      var b :| b in starts && e in EdgesOf(BlockAt(c, entries, b).exits);
      assert b in starts + {start};
    }
    forall o | o in AllFacts(c, entries, starts) ensures o in AllFacts(c, entries, starts + {start}) {
      var b :| b in starts && o in BlockAt(c, entries, b).facts;
      assert b in starts + {start};
    }
  }

  method InsertEdges(o: Observer, successors: seq<Successor>) returns (ok: bool)
    modifies o`edges
    ensures ok ==> o.edges == old(o.edges) + EdgesOf(successors)
    ensures !ok ==> |o.edges| >= o.limits.edges
  {
    for k := 0 to |successors|
      invariant o.edges == old(o.edges) + EdgesOf(successors[..k])
    {
      assert successors[..k + 1] == successors[..k] + [successors[k]];
      if successors[k].edge !in o.edges {
        if |o.edges| + 1 > o.limits.edges { return false; }
        o.edges := o.edges + {successors[k].edge};
      }
    }
    assert successors[..|successors|] == successors;
    ok := true;
  }

  /** The word budget, a fact or site cap, or the edge cap stops the pass. */
  ghost predicate OverLimit(o: Observer)
    reads o
  {
    o.cfgWordSteps > o.limits.words || o.FactsFull() || |o.edges| >= o.limits.edges
  }

  /** Analyse one block from its final state and keep everything it yields. */
  method PublishBlock(o: Observer, c: Context, start: nat, state: State) returns (ok: bool)
    requires o.cfgWordSteps <= o.limits.words && o.SitesMatch()
    modifies o`cfgWordSteps, o`xrefs, o`materializations, o`sites, o`totalTextBytes, o`blocks, o`edges
    ensures ok ==> var rest := RestOf(c, start, start, state, 0);
              && o.cfgWordSteps <= o.limits.words
              && o.blocks == old(o.blocks)[start := rest.shape]
              && o.edges == old(o.edges) + EdgesOf(rest.exits)
              && o.Published(old(o.xrefs), old(o.materializations), rest.facts) && o.SitesMatch()
    ensures !ok ==> OverLimit(o)
  {
    hide Observer.SitesMatch, Observer.FactsFull;
    var block, successors;
    ok, block, successors := o.AnalyzeBlock(c, start, state, true);
    if ok {
      o.blocks := o.blocks[start := block];
      ok := InsertEdges(o, successors);
    }
  }

  /** Blocks, edges and facts are exactly those of `starts`, and the sites are those of the facts. */
  ghost predicate Rebuilt(o: Observer, c: Context, entries: Entries, starts: set<nat>)
    requires starts <= entries.Keys
    reads o
  {
    && o.blocks.Keys == starts
    && (forall start :: start in starts ==> o.blocks[start] == BlockAt(c, entries, start).shape)
    && o.edges == AllEdges(c, entries, starts)
    && Recorded({}, {}, o.xrefs, o.materializations, AllFacts(c, entries, starts))
    && o.SitesMatch()
  }

  method PublishNext(o: Observer, c: Context, entries: Entries, start: nat, ghost starts: set<nat>) returns (ok: bool)
    requires o.cfgWordSteps <= o.limits.words && start in entries
    requires starts <= entries.Keys && Rebuilt(o, c, entries, starts)
    modifies o`cfgWordSteps, o`xrefs, o`materializations, o`sites, o`totalTextBytes, o`blocks, o`edges
    ensures ok ==> o.cfgWordSteps <= o.limits.words && o.blocks.Keys == starts + {start}
    ensures ok ==> Rebuilt(o, c, entries, starts + {start})
    ensures !ok ==> OverLimit(o)
  {
    OneMoreBlock(c, entries, starts, start);
    ok := PublishBlock(o, c, start, entries[start]);
  }

  /** Forget what phase one left behind and rebuild once from the final entry states: nothing
      published stems from an earlier, more exact state. */
  method PublishBlocks(o: Observer, c: Context, entries: Entries) returns (ok: bool)
    modifies o`cfgWordSteps, o`xrefs, o`materializations, o`sites, o`totalTextBytes, o`blocks, o`edges
    ensures ok ==> Rebuilt(o, c, entries, entries.Keys)
    ensures !ok ==> OverLimit(o)
  {
    o.blocks, o.edges, o.materializations, o.xrefs := map[], {}, {}, {};
    o.sites, o.totalTextBytes, o.cfgWordSteps := {}, 0, 0;
    NothingRebuilt(o, c, entries);
    hide Rebuilt, OverLimit;
    while o.blocks.Keys != entries.Keys
      invariant o.blocks.Keys <= entries.Keys && Rebuilt(o, c, entries, o.blocks.Keys)
      invariant o.cfgWordSteps <= o.limits.words
      decreases entries.Keys - o.blocks.Keys
    {
      var start :| start in entries && start !in o.blocks;
      ok := PublishNext(o, c, entries, start, o.blocks.Keys);
      if !ok { return; }
    }
    ok := true;
  }

  lemma NothingRebuilt(o: Observer, c: Context, entries: Entries)
    requires o.blocks == map[] && o.edges == {} && o.xrefs == {} && o.materializations == {}
    requires o.sites == {} && o.totalTextBytes == 0
    ensures Rebuilt(o, c, entries, {}) && o.blocks.Keys == {}
  {
  }

  // ----- the whole pass -----

  ghost function ProblemOf(c: Context, seeds: set<nat>): (p: Problem)
    ensures Models(p, c) && p.seeds == seeds
  {
    Problem((start: nat, state: State) => Exits(c, start, start, state), ExecutableWords(c.image), seeds)
  }

  /** A completed pass: the entry states are the least solution of the join equations over the
      scanned image, and blocks, edges and facts are exactly those of the final states. */
  ghost predicate Observed(o: Observer, c: Context, p: Problem, entries: Entries)
    reads o
  {
    && Ready(o, p, c) && SeedsOf(c.image, ExecutableWords(c.image)) <= p.seeds
    && Least(p, entries) && entries.Keys <= c.boundaries
    && Rebuilt(o, c, entries, entries.Keys)
  }

  /** Every edge of the published graph ends at a published block or outside coverage. */
  lemma EdgesAreClosed(o: Observer, c: Context, p: Problem, entries: Entries, e: Edge)
    requires Observed(o, c, p, entries) && e in o.edges
    ensures e.target in o.blocks || e.target !in p.executable
  {
    EdgeIsClosed(c, p, entries, e);
  }

  lemma EdgeIsClosed(c: Context, p: Problem, entries: Entries, e: Edge)
    requires Models(p, c) && Solution(p, entries) && SeedsOf(c.image, ExecutableWords(c.image)) <= p.seeds
    requires e in AllEdges(c, entries, entries.Keys)
    ensures e.target in entries || e.target !in p.executable
  {
    var start :| start in entries && e in EdgesOf(BlockAt(c, entries, start).exits);
    var s :| s in BlockAt(c, entries, start).exits && s.edge == e;
    GraphIsClosed(c, p, entries, start, s);
  }

  lemma ObservedLeaders(o: Observer, c: Context, p: Problem, entries: Entries)
    requires Observed(o, c, p, entries)
    ensures LeadersOnly(c, entries) && o.blocks.Keys == entries.Keys
  {
    hide Models, Least;
  }

  /** Two emitted blocks share a word only as the delay slot of one of them. */
  lemma EmittedBlocksShareOnlySlots(o: Observer, c: Context, p: Problem, entries: Entries, a: nat, b: nat, q: nat)
    requires Observed(o, c, p, entries) && a in o.blocks && b in o.blocks && a != b
    requires a <= q < o.blocks[a].end && b <= q < o.blocks[b].end && q % 4 == 0
    ensures a in entries && b in entries
    ensures IsSlotOf(c, a, entries[a], q) || IsSlotOf(c, b, entries[b], q)
  {
    hide Models, Least, Scanned, SeedsOf, Shape, IsSlotOf, LeadersOnly;
    ObservedLeaders(o, c, p, entries);
    BlocksShareOnlySlots(c, entries, a, b, q);
  }

  /** An emitted record is that of the last word its walk stands at. */
  lemma EmittedRecord(o: Observer, c: Context, p: Problem, entries: Entries, start: nat)
    returns (pc: nat, state: State, count: nat)
    requires Observed(o, c, p, entries) && start in o.blocks
    ensures Walks(c, entries, start, pc, state) && Passing(c, pc, state).None? && pc == start + 4 * count
    ensures o.blocks[start] == RecordAt(c, start, pc, state, count)
  {
    hide Models, Least, Scanned, SeedsOf, Shape, Reaches, RecordAt, Passing;
    pc, state, count := RecordIsAtLast(c, start, start, entries[start], 0);
  }

  /** Every published fact names what really happens in the position it is published for, on every
      run from a seed. */
  lemma FactsAreReal(o: Observer, c: Context, p: Problem, entries: Entries, f: Observation)
    requires Observed(o, c, p, entries) && Agrees(c.image, c.tables) && Publishes(c, o.mapping)
    requires f in o.xrefs || f in o.materializations
    ensures HasOrigin(c, entries, f) && RealWherePublished(c, p, entries, f) && IsResolved(o.mapping, f)
  {
    assert f in AllFacts(c, entries, entries.Keys);
    var start :| start in entries && f in BlockAt(c, entries, start).facts;
    BoundariesAreExecutable(o, p, c);
    ScannedCallsAreSeeds(p, c.image);
    PublishedFactsAreReal(c, o.mapping, p, entries, start, f);
  }

  /** Both phases over a scanned image. */
  method PropagateCfg(o: Observer, c: Context, ghost p: Problem) returns (ok: bool, entries: Entries)
    requires Ready(o, p, c) && SeedsOf(c.image, ExecutableWords(c.image)) <= p.seeds
    requires o.cfgWordSteps <= o.limits.words && o.SitesMatch()
    modifies o`cfgWordSteps, o`xrefs, o`materializations, o`sites, o`totalTextBytes, o`blocks, o`edges
    ensures ok ==> Observed(o, c, p, entries)
    ensures !ok ==> OverLimit(o)
  {
    hide Models, Scanned, Least, Rebuilt, SeedsOf;
    ok, entries := PropagateEntryStates(o, p, c);
    if ok { ok := PublishBlocks(o, c, entries); }
  }

  /** Collect the declared seeds and scan every executable word. */
  method Prepare(o: Observer, entry: nat, symbols: seq<nat>) returns (ok: bool)
    requires o.Valid() && o.TableAnswers() && o.seeds == map[] && o.boundaries == {}
    modifies o`boundaries, o`seeds
    ensures ok ==> o.Valid()
    ensures ok ==> Scanned(o.Ctx()) && SeedsOf(o.image, ExecutableWords(o.image)) <= o.seeds.Keys
    ensures ok ==> entry in o.seeds && forall x: nat :: x in symbols && IsExecutable(o.image, x) ==> x in o.seeds
    ensures !ok ==> !IsExecutable(o.image, entry) || o.CapReached()
  {
    ok := o.CollectDeclaredSeeds(entry, symbols);
    if ok { ok := o.ScanAllExecutableWords(); }
  }

  /** A completed pass over the observer's own scanned image. */
  ghost predicate Analyzed(o: Observer, entries: Entries)
    reads o
  {
    Observed(o, o.Ctx(), ProblemOf(o.Ctx(), o.seeds.Keys), entries)
  }

  method PropagateScanned(o: Observer) returns (ok: bool, entries: Entries)
    requires o.Valid() && o.SitesMatch() && o.cfgWordSteps == 0
    requires Scanned(o.Ctx()) && SeedsOf(o.image, ExecutableWords(o.image)) <= o.seeds.Keys
    modifies o`cfgWordSteps, o`xrefs, o`materializations, o`sites, o`totalTextBytes, o`blocks, o`edges
    ensures ok ==> Analyzed(o, entries)
    ensures !ok ==> OverLimit(o)
  {
    hide Models, Scanned, SeedsOf, Least, Rebuilt, Observer.Valid, Observer.SitesMatch, OverLimit;
    var c := o.Ctx();
    ok, entries := PropagateCfg(o, c, ProblemOf(c, o.seeds.Keys));
  }

  /** The whole pass on a fresh observer. */
  method Analyze(o: Observer, entry: nat, symbols: seq<nat>) returns (ok: bool, entries: Entries)
    requires o.Valid() && o.TableAnswers() && o.SitesMatch()
    requires o.seeds == map[] && o.boundaries == {} && o.cfgWordSteps == 0
    modifies o
    ensures ok ==> Analyzed(o, entries)
    ensures ok ==> entry in o.seeds && forall x: nat :: x in symbols && IsExecutable(o.image, x) ==> x in o.seeds
    ensures !ok ==> !IsExecutable(o.image, entry) || o.CapReached() || OverLimit(o)
  {
    hide Scanned, SeedsOf, Analyzed, Observer.Valid, Observer.SitesMatch, Observer.TableAnswers, OverLimit;
    entries := map[];
    ok := Prepare(o, entry, symbols);
    if ok { ok, entries := PropagateScanned(o); }
  }
}
