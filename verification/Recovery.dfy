/** Code recovery over a whole image: sweep every runtime function, split its instructions into
    blocks, then close over thunks. */
module Recovery {
  import opened Common
  import opened PeMap
  import opened RuntimeTargets
  import opened CodeTargets
  import opened Retention
  import opened CfgBlocks
  import opened Sweep
  import opened Thunks
  import opened CodeWalks
  import opened Cutoffs

  /** The parsed metadata recovery starts from. */
  datatype Metadata = Metadata(
    entryPoint: U32, functions: seq<RuntimeFunction>, exports: set<U32>, guardFunctions: set<U32>,
    tlsCallbacks: set<U32>, virtualFunctions: set<U32>)

  datatype Recovered = Recovered(
    calls: set<Call>, references: set<Reference>, graphs: seq<FunctionCfg>, thunks: set<Thunk>,
    scanTruncated: bool, dataTruncated: bool, cfgTruncated: bool)

  /** Runtime functions as the exception-table parser accepts them. */
  ghost predicate FunctionsOrdered(functions: seq<RuntimeFunction>, sizeOfImage: nat) {
    && (forall f :: f in functions ==> f.begin < f.end <= sizeOfImage)
    && (forall i, j :: 0 <= i < j < |functions| ==>
          functions[i].begin < functions[j].begin && functions[i].end <= functions[j].begin)
  }

  // ----- graphs -----

  function TotalBlocks(graphs: seq<FunctionCfg>): nat {
    if graphs == [] then 0 else TotalBlocks(graphs[..|graphs| - 1]) + |graphs[|graphs| - 1].blocks|
  }

  class CfgAccumulator {
    const limit: nat
    var graphs: seq<FunctionCfg>
    var entries: set<nat>
    var totalBlocks: nat
    var truncated: bool

    constructor (limit: nat)
      ensures Valid() && graphs == [] && !truncated && this.limit == limit
    {
      this.limit := limit;
      graphs, entries, totalBlocks, truncated := [], {}, 0, false;
    }

    /** One non-empty graph per entry, and a running block count within its cap. */
    ghost predicate Valid()
      reads this
    {
      && totalBlocks == TotalBlocks(graphs) <= limit
      && (forall e :: e in entries <==> exists k :: 0 <= k < |graphs| && graphs[k].entry == e)
    }

    predicate Admits(g: FunctionCfg)
      reads this
    {
      g.blocks != [] && g.entry !in entries
    }

    method Push(g: FunctionCfg)
      requires Valid()
      modifies this`graphs, this`entries, this`totalBlocks, this`truncated
      ensures Valid()
      ensures graphs ==
                if old(Admits(g)) && old(totalBlocks) + |g.blocks| <= limit then old(graphs) + [g] else old(graphs)
      ensures truncated == (old(truncated) || (old(Admits(g)) && old(totalBlocks) + |g.blocks| > limit))
    {
      hide TotalBlocks;
      if g.blocks == [] || g.entry in entries { return; }
      if totalBlocks + |g.blocks| > limit {
        truncated := true;
        return;
      }
      PushedEntries(graphs, entries, g);
      entries, totalBlocks, graphs := entries + {g.entry}, totalBlocks + |g.blocks|, graphs + [g];
    }
  }

  lemma PushedEntries(graphs: seq<FunctionCfg>, entries: set<nat>, g: FunctionCfg)
    requires forall e :: e in entries <==> exists k :: 0 <= k < |graphs| && graphs[k].entry == e
    ensures forall e :: e in entries + {g.entry} <==>
              exists k :: 0 <= k < |graphs + [g]| && (graphs + [g])[k].entry == e
    ensures TotalBlocks(graphs + [g]) == TotalBlocks(graphs) + |g.blocks|
  {
    var after := graphs + [g];
    assert after[..|after| - 1] == graphs;
    forall e | e in entries + {g.entry} ensures exists k :: 0 <= k < |after| && after[k].entry == e {
      if e in entries {
        var k :| 0 <= k < |graphs| && graphs[k].entry == e;
        assert after[k].entry == e;
      } else {
        assert after[|graphs|].entry == e;
      }
    }
  }

  lemma {:induction false} TotalGrows(graphs: seq<FunctionCfg>, k: nat)
    requires k <= |graphs|
    ensures TotalBlocks(graphs[..k]) <= TotalBlocks(graphs)
    decreases |graphs| - k
  {
    if k < |graphs| {
      TotalGrows(graphs, k + 1);
      assert graphs[..k + 1][..k] == graphs[..k];
    } else {
      assert graphs[..k] == graphs;
    }
  }

  // ----- what the graph validator demands -----

  function Kinds(b: BasicBlock): seq<EdgeKind> {
    seq(|b.successors|, k requires 0 <= k < |b.successors| => b.successors[k].kind)
  }

  predicate ShapeAccepted(b: BasicBlock) {
    match b.terminator
    case ReturnEnd => b.successors == []
    case IndirectBranch => b.successors == []
    case Invalid => b.successors == []
    case CallEnd => forall e :: e in b.successors ==> e.kind == CallEdge
    case UnconditionalBranch => Kinds(b) == [BranchEdge]
    case ConditionalBranch => Kinds(b) == [TakenEdge, NotTakenEdge] && b.successors[1].target == Some(b.end)
    case FallThrough => Kinds(b) == [FallThroughEdge] && b.successors[0].target == Some(b.end)
  }

  predicate BlockAccepted(c: Context, b: BasicBlock) {
    && b.start < b.end && ModelExecutable(c.layout, b.start, b.end - b.start)
    && (forall e :: e in b.successors && e.target.Some? ==> e.target.value <= c.layout.sizeOfImage)
    && ShapeAccepted(b)
  }

  ghost predicate GraphAccepted(c: Context, functions: seq<RuntimeFunction>, g: FunctionCfg) {
    && g.blocks != [] && g.blocks[0].start == g.entry
    && (exists f :: f in functions && f.begin == g.entry)
    && (forall k :: 0 <= k < |g.blocks| ==> BlockAccepted(c, g.blocks[k]))
    && (forall i, j :: 0 <= i < j < |g.blocks| ==> g.blocks[i].end <= g.blocks[j].start)
  }

  /** Recorded branch targets were resolved inside the image. */
  ghost predicate TargetsInImage(c: Context, s: Stream) {
    forall i :: i in s && TargetOf(s[i].flow).Some? ==> TargetOf(s[i].flow).value < c.layout.sizeOfImage
  }

  lemma FaithfulTargets(c: Context, f: RuntimeFunction, bytes: seq<Byte>, lengths: Lengths, r: Recorder)
    requires Faithful(c, f, bytes, lengths, r)
    ensures TargetsInImage(c, r.instructions)
  {
    forall i | i in r.instructions && TargetOf(r.instructions[i].flow).Some?
      ensures TargetOf(r.instructions[i].flow).value < c.layout.sizeOfImage
    {
      assert r.instructions[i].flow == FlowOf(c, DecodedAt(c, f, bytes, i).action);
    }
  }

  lemma BlockShape(s: Stream, leaders: set<nat>, start: nat, begin: nat, end: nat)
    requires Stream?(s, begin, end) && start in s
    ensures ShapeAccepted(BlockAt(s, leaders, start, begin, end))
  {
  }

  lemma BlockIsAccepted(c: Context, f: RuntimeFunction, s: Stream, leaders: set<nat>, start: nat)
    requires f.begin < f.end <= c.layout.sizeOfImage && ModelExecutable(c.layout, f.begin, f.end - f.begin)
    requires Stream?(s, f.begin, f.end) && start in s && TargetsInImage(c, s)
    ensures BlockAccepted(c, BlockAt(s, leaders, start, f.begin, f.end))
  {
    var b := BlockAt(s, leaders, start, f.begin, f.end);
    BlockBounds(s, leaders, start, f.begin, f.end);
    PartIsExecutable(c, f, b.start, b.end - b.start);
    BlockShape(s, leaders, start, f.begin, f.end);
    forall e | e in b.successors && e.target.Some? ensures e.target.value <= c.layout.sizeOfImage {
      EdgesOfLast(s, leaders, start, f.begin, f.end, e);
    }
  }

  /** The graph of any sweep passes the graph validator. */
  lemma CfgIsAccepted(c: Context, functions: seq<RuntimeFunction>, f: RuntimeFunction, r: Recorder, g: FunctionCfg)
    requires f in functions && f.begin < f.end <= c.layout.sizeOfImage
    requires ModelExecutable(c.layout, f.begin, f.end - f.begin)
    requires IsCfg(r, g, f.begin, f.end) && TargetsInImage(c, r.instructions)
    ensures GraphAccepted(c, functions, g)
  {
    var s, leaders := r.instructions, Leaders(r, f.begin);
    assert IsStart(g.blocks, f.begin);
    assert g.blocks[0].start in s;
    forall k | 0 <= k < |g.blocks| ensures BlockAccepted(c, g.blocks[k]) {
      BlockIsAccepted(c, f, s, leaders, g.blocks[k].start);
    }
    forall i, j | 0 <= i < j < |g.blocks| ensures g.blocks[i].end <= g.blocks[j].start {
      BlocksAreDisjoint(r, g, f.begin, f.end, i, j);
    }
  }

  // ----- sweeping all functions -----

  /** Every retained record fits the functions swept so far, and no two share a site. */
  ghost predicate RecordsAll(c: Context, swept: seq<RuntimeFunction>, calls: set<Call>, references: set<Reference>) {
    && (forall x :: x in calls ==> CallFits(c, swept, x))
    && (forall x, y :: x in calls && y in calls && x.caller == y.caller && x.site == y.site ==> x == y)
    && (forall x :: x in references ==> ReferenceAccepted(c, swept, x))
    && (forall x, y :: x in references && y in references && x.caller == y.caller && x.site == y.site ==> x == y)
  }

  /** Graphs pass their validator and ascend strictly by entry. */
  ghost predicate GraphsAll(c: Context, swept: seq<RuntimeFunction>, graphs: seq<FunctionCfg>) {
    && (forall k :: 0 <= k < |graphs| ==> GraphAccepted(c, swept, graphs[k]))
    && (forall i, j :: 0 <= i < j < |graphs| ==> graphs[i].entry < graphs[j].entry)
  }

  lemma MoreFunctionsAcceptMore(c: Context, swept: seq<RuntimeFunction>, f: RuntimeFunction)
    ensures forall x :: CallFits(c, swept, x) ==> CallFits(c, swept + [f], x)
    ensures forall x :: ReferenceAccepted(c, swept, x) ==> ReferenceAccepted(c, swept + [f], x)
    ensures forall g :: GraphAccepted(c, swept, g) ==> GraphAccepted(c, swept + [f], g)
  {
    assert forall g :: g in swept ==> g in swept + [f];
    forall x | CallFits(c, swept, x) ensures CallFits(c, swept + [f], x) {
      var g :| g in swept && g.begin == x.caller && g.begin <= x.site && x.site + x.size <= g.end
        && ModelExecutable(c.layout, g.begin, g.end - g.begin);
      assert g in swept + [f];
    }
    forall x | ReferenceAccepted(c, swept, x) ensures ReferenceAccepted(c, swept + [f], x) {
      var g :| g in swept && g.begin == x.caller && g.begin <= x.site && x.site + x.size <= g.end;
      assert g in swept + [f];
    }
  }

  lemma EnterFunction(
    c: Context, swept: seq<RuntimeFunction>, f: RuntimeFunction, kept: Kept, limits: Limits)
    requires RecordsAll(c, swept, kept.calls, kept.references) && Genuine(c, swept, kept, limits)
    requires forall g :: g in swept ==> g.begin < f.begin
    ensures RecordsFit(c, swept + [f], kept.calls, kept.references, f.begin, map[]) && Untouched(kept, f.begin)
  {
    hide Genuine;
    MoreFunctionsAcceptMore(c, swept, f);
    NamesEarlier(c, swept, f, kept.calls, kept.references);
    GenuineIsUntouched(c, swept, kept, limits, f.begin);
  }

  lemma NamesEarlier(
    c: Context, swept: seq<RuntimeFunction>, f: RuntimeFunction, calls: set<Call>, references: set<Reference>)
    requires RecordsAll(c, swept, calls, references) && forall g :: g in swept ==> g.begin < f.begin
    ensures forall x :: x in calls ==> x.caller != f.begin
    ensures forall x :: x in references ==> x.caller != f.begin
  {
    forall x | x in calls ensures x.caller != f.begin {
      assert InBackedFunction(c, swept, x.caller, x.site, x.size);
    }
    forall x | x in references ensures x.caller != f.begin {
      assert InFunction(c, swept, x.caller, x.site, x.size);
    }
  }

  lemma LeaveFunction(
    c: Context, swept: seq<RuntimeFunction>, calls: set<Call>, references: set<Reference>, begin: nat, lengths: Lengths)
    requires RecordsFit(c, swept, calls, references, begin, lengths)
    ensures RecordsAll(c, swept, calls, references)
  {
  }

  lemma SkipFunction(
    c: Context, swept: seq<RuntimeFunction>, f: RuntimeFunction, calls: set<Call>, references: set<Reference>,
    graphs: seq<FunctionCfg>)
    requires RecordsAll(c, swept, calls, references) && GraphsAll(c, swept, graphs)
    ensures RecordsAll(c, swept + [f], calls, references) && GraphsAll(c, swept + [f], graphs)
  {
    MoreFunctionsAcceptMore(c, swept, f);
  }

  lemma PushedGraphs(
    c: Context, swept: seq<RuntimeFunction>, f: RuntimeFunction, graphs: seq<FunctionCfg>, g: FunctionCfg)
    requires GraphsAll(c, swept, graphs) && GraphAccepted(c, swept + [f], g) && g.entry == f.begin
    requires forall h :: h in swept ==> h.begin < f.begin
    ensures GraphsAll(c, swept + [f], graphs) && GraphsAll(c, swept + [f], graphs + [g])
  {
    MoreFunctionsAcceptMore(c, swept, f);
    forall k | 0 <= k < |graphs| ensures graphs[k].entry < g.entry {
      assert GraphAccepted(c, swept, graphs[k]);
    }
  }

  /** Recorded instructions of a function, as control reaches and the decoder reads them. */
  ghost predicate IsPart(c: Context, f: RuntimeFunction, r: Recorder) {
    Coherent(r, f.begin, f.end) && IsCodeOf(c, f, r.instructions)
  }

  ghost predicate IsCodeOf(c: Context, f: RuntimeFunction, s: Stream) {
    forall a :: a in s ==>
      var i := InstructionAt(c, f, a);
      Walked(c, f, a) && !i.invalid && s[a] == Recorded(a + i.len, FlowOf(c, i.action))
  }

  lemma TracedIsPart(c: Context, f: RuntimeFunction, e: Exploration)
    requires Traced(c, f, e)
    ensures IsPart(c, f, e.recorder)
  {
    TracedIsCoherent(c, f, e);
    hide Traced, Walked, Coherent;
    forall a | a in e.recorder.instructions
      ensures var i := InstructionAt(c, f, a);
              Walked(c, f, a) && !i.invalid && e.recorder.instructions[a] == Recorded(a + i.len, FlowOf(c, i.action))
    {
      RecordedIsDecoded(c, f, e, a);
      RetainedIsWalked(c, f, e, a);
    }
  }

  lemma TracedIsCoherent(c: Context, f: RuntimeFunction, e: Exploration)
    requires Traced(c, f, e)
    ensures Coherent(e.recorder, f.begin, f.end)
  {
    hide Faithful, Coherent, Grounded, Apart, Within;
  }

  /** The graph of a part of some function is missing and would not fit beside the others. */
  ghost predicate GraphLost(c: Context, functions: seq<RuntimeFunction>, limit: nat, graphs: seq<FunctionCfg>) {
    exists f, r, g :: f in functions && IsBacked(c, f) && GraphMissing(c, f, r, g, limit, graphs)
  }

  ghost predicate GraphMissing(
    c: Context, f: RuntimeFunction, r: Recorder, g: FunctionCfg, limit: nat, graphs: seq<FunctionCfg>)
  {
    && IsPart(c, f, r) && IsCfg(r, g, f.begin, f.end)
    && TotalBlocks(graphs) + |g.blocks| > limit
    && (forall h :: h in graphs ==> h.entry != f.begin)
  }

  lemma LostStaysLost(
    c: Context, swept: seq<RuntimeFunction>, f: RuntimeFunction, limit: nat, graphs0: seq<FunctionCfg>,
    graphs1: seq<FunctionCfg>)
    requires GraphLost(c, swept, limit, graphs0) && graphs0 <= graphs1
    requires forall g :: g in swept ==> g.begin < f.begin
    requires OnlyAdds(f, graphs0, graphs1)
    ensures GraphLost(c, swept + [f], limit, graphs1)
  {
    hide IsBacked, IsPart, IsCfg, TotalBlocks;
    var h, r, g :| h in swept && IsBacked(c, h) && GraphMissing(c, h, r, g, limit, graphs0);
    TotalGrows(graphs1, |graphs0|);
    assert graphs1[..|graphs0|] == graphs0;
    assert h in swept + [f] && GraphMissing(c, h, r, g, limit, graphs1);
  }

  /** Split what a sweep recorded and keep the graph. */
  method KeepGraph(
    c: Context, ghost swept: seq<RuntimeFunction>, f: RuntimeFunction, r: Recorder, cfgs: CfgAccumulator)
    requires f.begin < f.end <= c.layout.sizeOfImage && ModelExecutable(c.layout, f.begin, f.end - f.begin)
    requires IsBacked(c, f) && IsPart(c, f, r) && TargetsInImage(c, r.instructions)
    requires forall g :: g in swept ==> g.begin < f.begin
    requires cfgs.Valid() && GraphsAll(c, swept, cfgs.graphs)
    modifies cfgs
    ensures cfgs.Valid() && GraphsAll(c, swept + [f], cfgs.graphs)
    ensures GraphsGrew(old(cfgs.graphs), old(cfgs.truncated), cfgs.graphs, cfgs.truncated)
    ensures OnlyAdds(f, old(cfgs.graphs), cfgs.graphs)
    ensures Drawn(f, r, cfgs.graphs, cfgs.truncated)
    ensures cfgs.truncated ==> old(cfgs.truncated) || GraphLost(c, swept + [f], cfgs.limit, cfgs.graphs)
  {
    hide IsCfg, GraphsAll, TotalBlocks, IsBacked, IsCodeOf, BlockAccepted, ModelExecutable, TargetsInImage;
    var cfg := Finish(r, f.begin, f.end);
    if cfg.Some? {
      CfgIsAccepted(c, swept + [f], f, r, cfg.value);
      EntryIsNew(c, swept, f, cfgs);
      CfgHasBlocks(r, cfg.value, f.begin, f.end);
      PushedGraphs(c, swept, f, cfgs.graphs, cfg.value);
      cfgs.Push(cfg.value);
      assert f in swept + [f];
      assert old(cfgs.totalBlocks) + |cfg.value.blocks| > cfgs.limit ==>
          GraphMissing(c, f, r, cfg.value, cfgs.limit, cfgs.graphs);
    } else {
      SkipGraphs(c, swept, f, cfgs.graphs);
    }
  }

  /** Any graph added is the function's. */
  ghost predicate OnlyAdds(f: RuntimeFunction, graphs0: seq<FunctionCfg>, graphs1: seq<FunctionCfg>) {
    forall k :: |graphs0| <= k < |graphs1| ==> graphs1[k].entry == f.begin
  }

  ghost predicate GraphsGrew(graphs0: seq<FunctionCfg>, truncated0: bool, graphs1: seq<FunctionCfg>, truncated1: bool) {
    graphs0 <= graphs1 && (truncated0 ==> truncated1)
  }

  /** Unless the block cap was hit, the graph of what was recorded is among the graphs. */
  ghost predicate Drawn(f: RuntimeFunction, r: Recorder, graphs: seq<FunctionCfg>, truncated: bool) {
    !truncated && f.begin in r.instructions ==> exists g :: g in graphs && IsCfg(r, g, f.begin, f.end)
  }

  lemma CfgHasBlocks(r: Recorder, g: FunctionCfg, begin: nat, end: nat)
    requires IsCfg(r, g, begin, end)
    ensures g.blocks != [] && g.entry == begin
  {
    assert IsStart(g.blocks, begin);
  }

  lemma EntryIsNew(c: Context, swept: seq<RuntimeFunction>, f: RuntimeFunction, cfgs: CfgAccumulator)
    requires cfgs.Valid() && GraphsAll(c, swept, cfgs.graphs) && forall g :: g in swept ==> g.begin < f.begin
    ensures f.begin !in cfgs.entries && forall h :: h in cfgs.graphs ==> h.entry != f.begin
  {
    forall k | 0 <= k < |cfgs.graphs| ensures cfgs.graphs[k].entry != f.begin {
      assert GraphAccepted(c, swept, cfgs.graphs[k]);
    }
  }

  lemma SkipGraphs(c: Context, swept: seq<RuntimeFunction>, f: RuntimeFunction, graphs: seq<FunctionCfg>)
    requires GraphsAll(c, swept, graphs)
    ensures GraphsAll(c, swept + [f], graphs)
  {
    MoreFunctionsAcceptMore(c, swept, f);
  }

  // ----- what an uncut recovery has explored -----

  /** A finished exploration of one function: all it retained is on a walk from the entry and as the
      decoder reads it, it leaves nothing to explore, and it accounts for the calls, the references
      and the graph of the function. */
  ghost predicate Explains(
    c: Context, f: RuntimeFunction, e: Exploration, kept: Kept, graphs: seq<FunctionCfg>, cfgTruncated: bool)
  {
    var bytes := FunctionBytes(c, f);
    && Traced(c, f, e)
    && Explored(c, f, bytes, e.lengths, e.recorder, e.discovered, {}, false, {})
    && CallsAccounted(c, f, bytes, e.lengths, kept.calls, kept.droppedCalls)
    && ReferencesAccounted(c, f, bytes, e.lengths, kept.references, kept.droppedReferences)
    && Drawn(f, e.recorder, graphs, cfgTruncated)
  }

  /** Later functions do not disturb an explanation. */
  lemma ExplanationPersists(
    c: Context, f: RuntimeFunction, e: Exploration, kept0: Kept, graphs0: seq<FunctionCfg>, truncated0: bool,
    kept1: Kept, graphs1: seq<FunctionCfg>, truncated1: bool, begin: nat)
    requires Explains(c, f, e, kept0, graphs0, truncated0) && f.begin != begin
    requires GrewFor(kept0, kept1, begin) && GraphsGrew(graphs0, truncated0, graphs1, truncated1)
    ensures Explains(c, f, e, kept1, graphs1, truncated1)
  {
    hide Explored, Faithful, Coheres, CallAt, ReferenceAt, IsCfg;
    assert forall g :: g in graphs0 ==> g in graphs1;
  }

  /** Whatever was cut off has a cause: see `Genuine`. A graph is missing for lack of room or of decodes. */
  ghost predicate Caused(c: Context, swept: seq<RuntimeFunction>, acc: Accumulator, cfgs: CfgAccumulator)
    reads acc, cfgs
  {
    && Genuine(c, swept, KeptBy(acc), acc.limits)
    && (cfgs.truncated ==> GraphLost(c, swept, cfgs.limit, cfgs.graphs) || acc.spent)
  }

  /** Sweep one function, if all of it is backed executable code. */
  method SweepFunction(
    c: Context, ghost swept: seq<RuntimeFunction>, f: RuntimeFunction, acc: Accumulator, cfgs: CfgAccumulator)
    returns (exhausted: bool, ghost e: Exploration)
    requires CodeTargets.Valid(c) && acc.Valid() && cfgs.Valid() && Caused(c, swept, acc, cfgs)
    requires f.begin < f.end <= c.layout.sizeOfImage && forall g :: g in swept ==> g.begin < f.begin
    requires RecordsAll(c, swept, acc.calls, acc.references) && GraphsAll(c, swept, cfgs.graphs)
    modifies acc, cfgs
    ensures acc.Valid() && cfgs.Valid() && Caused(c, swept + [f], acc, cfgs)
    ensures RecordsAll(c, swept + [f], acc.calls, acc.references) && GraphsAll(c, swept + [f], cfgs.graphs)
    ensures GrewFor(old(KeptBy(acc)), KeptBy(acc), f.begin)
    ensures GraphsGrew(old(cfgs.graphs), old(cfgs.truncated), cfgs.graphs, cfgs.truncated)
    ensures exhausted ==> acc.spent
    ensures !acc.scanTruncated && IsBacked(c, f) ==>
              Explains(c, f, e, KeptBy(acc), cfgs.graphs, cfgs.truncated)
  {
    hide RecordsAll, GraphsAll, Explains, GrewFor, GraphsGrew, BackedExecutable, Accumulator.Valid,
      CfgAccumulator.Valid, Caused;
    e := Exploration(map[], Recorder(map[], {}), {});
    var size := f.end - f.begin;
    if !BackedExecutable(c.layout, f.begin, size) {
      SkipFunction(c, swept, f, acc.calls, acc.references, cfgs.graphs);
      SkipCauses(c, swept, f, acc, cfgs);
      NothingGrew(KeptBy(acc), cfgs.graphs, cfgs.truncated, f.begin);
      return false, e;
    }
    var bytes := ReadFunction(c, f, size);
    exhausted, e := SweepBacked(c, swept, f, bytes, acc, cfgs);
  }

  lemma SkipCauses(c: Context, swept: seq<RuntimeFunction>, f: RuntimeFunction, acc: Accumulator, cfgs: CfgAccumulator)
    requires Caused(c, swept, acc, cfgs) && forall g :: g in swept ==> g.begin < f.begin
    ensures Caused(c, swept + [f], acc, cfgs)
  {
    hide SweepTask, IsBlockStart, CallOccurs, ReferenceOccurs, LacksReference, DecodesSpent, GraphLost;
    MoreFunctionsHaveMore(c, swept, swept + [f], {}, acc.limits);
    if GraphLost(c, swept, cfgs.limit, cfgs.graphs) {
      LostStaysLost(c, swept, f, cfgs.limit, cfgs.graphs, cfgs.graphs);
    }
  }

  /** Sweep a function whose bytes are all backed executable code, and keep its graph. */
  method SweepBacked(
    c: Context, ghost swept: seq<RuntimeFunction>, f: RuntimeFunction, bytes: seq<Byte>, acc: Accumulator,
    cfgs: CfgAccumulator)
    returns (exhausted: bool, ghost e: Exploration)
    requires CodeTargets.Valid(c) && acc.Valid() && cfgs.Valid() && Caused(c, swept, acc, cfgs) && IsBacked(c, f)
    requires f.begin < f.end <= c.layout.sizeOfImage && forall g :: g in swept ==> g.begin < f.begin
    requires bytes == FunctionBytes(c, f) && |bytes| == f.end - f.begin && ModelExecutable(c.layout, f.begin, |bytes|)
    requires RecordsAll(c, swept, acc.calls, acc.references) && GraphsAll(c, swept, cfgs.graphs)
    modifies acc, cfgs
    ensures acc.Valid() && cfgs.Valid() && Caused(c, swept + [f], acc, cfgs)
    ensures RecordsAll(c, swept + [f], acc.calls, acc.references) && GraphsAll(c, swept + [f], cfgs.graphs)
    ensures GrewFor(old(KeptBy(acc)), KeptBy(acc), f.begin)
    ensures GraphsGrew(old(cfgs.graphs), old(cfgs.truncated), cfgs.graphs, cfgs.truncated)
    ensures exhausted ==> acc.spent
    ensures !acc.scanTruncated ==> Explains(c, f, e, KeptBy(acc), cfgs.graphs, cfgs.truncated)
  {
    hide RecordsAll, GraphsAll, Drawn, IsCfg, FunctionBytes, ModelExecutable, IsBacked, CodeTargets.Valid, Genuine,
      GrewFor, Traced, Explored, CallsAccounted, ReferencesAccounted, IsPart, GraphLost, OnlyAdds, GraphsGrew,
      DecodesSpent, TargetsInImage, RetentionFits, BudgetsFit;
    var t := new Traversal();
    exhausted, e := SweepRecords(c, swept, f, bytes, t, acc);
    TracedIsPart(c, f, e);
    TracedTargets(c, f, e);
    KeepGraph(c, swept, f, t.recorder, cfgs);
    if cfgs.truncated && old(cfgs.truncated) && GraphLost(c, swept, cfgs.limit, old(cfgs.graphs)) {
      LostAfterAll(c, swept, f, cfgs.limit, old(cfgs.graphs), old(cfgs.truncated), cfgs.graphs, cfgs.truncated);
    }
    if exhausted {
      FlaggedIsGenuine(c, swept + [f], old(KeptBy(acc)), KeptBy(acc), acc.limits, f.begin);
      FlaggedGrew(old(cfgs.graphs), old(cfgs.truncated), cfgs.graphs, cfgs.truncated);
      Flag(acc, cfgs);
    }
  }

  lemma LostAfterAll(
    c: Context, swept: seq<RuntimeFunction>, f: RuntimeFunction, limit: nat, graphs0: seq<FunctionCfg>,
    truncated0: bool, graphs1: seq<FunctionCfg>, truncated1: bool)
    requires GraphLost(c, swept, limit, graphs0) && GraphsGrew(graphs0, truncated0, graphs1, truncated1)
    requires OnlyAdds(f, graphs0, graphs1) && forall g :: g in swept ==> g.begin < f.begin
    ensures GraphLost(c, swept + [f], limit, graphs1)
  {
    LostStaysLost(c, swept, f, limit, graphs0, graphs1);
  }

  lemma FlaggedIsGenuine(c: Context, swept: seq<RuntimeFunction>, a: Kept, b: Kept, limits: Limits, begin: nat)
    requires Genuine(c, swept, b, limits) && DecodesSpent(c, swept, {}, limits) && GrewFor(a, b, begin)
    ensures var flagged := b.(spent := true, scanTruncated := true, dataTruncated := true);
            Genuine(c, swept, flagged, limits) && GrewFor(a, flagged, begin)
  {
    hide SweepTask, IsBlockStart, CallOccurs, ReferenceOccurs, LacksReference, DecodesSpent;
  }

  lemma FlaggedGrew(graphs0: seq<FunctionCfg>, truncated0: bool, graphs1: seq<FunctionCfg>, truncated1: bool)
    requires GraphsGrew(graphs0, truncated0, graphs1, truncated1)
    ensures GraphsGrew(graphs0, truncated0, graphs1, true)
  {
  }

  /** What one sweep leaves behind, whatever happened: a traced exploration that accounts for the
      function's calls and references, explored in full unless the scan was cut off. */
  ghost predicate Leaves(
    c: Context, f: RuntimeFunction, e: Exploration, kept: Kept, exhausted: bool)
  {
    var bytes := FunctionBytes(c, f);
    && Traced(c, f, e)
    && CallsAccounted(c, f, bytes, e.lengths, kept.calls, kept.droppedCalls)
    && ReferencesAccounted(c, f, bytes, e.lengths, kept.references, kept.droppedReferences)
    && (!exhausted ==> Explored(c, f, bytes, e.lengths, e.recorder, e.discovered, {}, kept.scanTruncated, {}))
  }

  /** Sweep a function for its records. */
  method SweepRecords(
    c: Context, ghost swept: seq<RuntimeFunction>, f: RuntimeFunction, bytes: seq<Byte>, t: Traversal, acc: Accumulator)
    returns (exhausted: bool, ghost e: Exploration)
    requires CodeTargets.Valid(c) && acc.Valid() && Genuine(c, swept, KeptBy(acc), acc.limits) && IsBacked(c, f)
    requires f.begin < f.end && forall g :: g in swept ==> g.begin < f.begin
    requires bytes == FunctionBytes(c, f) && |bytes| == f.end - f.begin && ModelExecutable(c.layout, f.begin, |bytes|)
    requires RecordsAll(c, swept, acc.calls, acc.references)
    requires t.pending == {} && t.discovered == {} && t.lengths == map[] && t.recorder == Recorder(map[], {})
    modifies t, acc
    ensures acc.Valid() && Genuine(c, swept + [f], KeptBy(acc), acc.limits) && acc.spent == old(acc.spent)
    ensures RecordsAll(c, swept + [f], acc.calls, acc.references) && GrewFor(old(KeptBy(acc)), KeptBy(acc), f.begin)
    ensures Leaves(c, f, e, KeptBy(acc), exhausted) && e.recorder == t.recorder
    ensures exhausted ==> DecodesSpent(c, swept + [f], {}, acc.limits)
  {
    hide RecordsAll, RecordsFit, Coheres, Faithful, Untouched, CallsAccounted, ReferencesAccounted, AloneFit, Explored,
      FunctionBytes, ModelExecutable, IsBacked, CodeTargets.Valid, Genuine, GrewFor, WorkFits, StartsFit, DecodesSpent,
      TaskFits, Overspends, Accumulator.Valid;
    EnterFunction(c, swept, f, KeptBy(acc), acc.limits);
    exhausted := ScanRuntimeFunction(c, swept + [f], f, bytes, t, acc);
    e := Exploration(t.lengths, t.recorder, t.discovered);
    LeaveFunction(c, swept + [f], acc.calls, acc.references, f.begin, t.lengths);
    NothingPending(t.lengths, t.pending, t.discovered, t.recorder, f.begin, f.end);
    WorkIsFor(c, f, bytes, t.discovered, t.pending, t.recorder.instructions, acc.work);
    UnpairedIsDropped(acc);
    SweepIsGenuine(c, swept, f, e, old(KeptBy(acc)), KeptBy(acc), acc.limits);
    if exhausted { ExhaustedIsSpent(c, swept + [f], f, e, t, acc); }
  }

  lemma NothingPending(
    lengths: Lengths, pending: set<nat>, discovered: set<nat>, r: Recorder, begin: nat, end: nat)
    requires Coheres(lengths, pending, discovered, r, begin, end)
    ensures Coheres(lengths, {}, discovered, r, begin, end)
  {
  }

  lemma WorkIsFor(
    c: Context, f: RuntimeFunction, bytes: seq<Byte>, discovered: set<nat>, pending: set<nat>, s: Stream, work: Work)
    requires WorkFits(c, f, bytes, discovered, pending, s, work)
    ensures forall k :: k in work && IsFor(k, f.begin) ==> TaskFits(c, f, bytes, discovered, s, k, work[k])
  {
  }

  lemma UnpairedIsDropped(acc: Accumulator)
    requires acc.Valid()
    ensures acc.unpaired <= acc.droppedCalls
  {
  }

  /** The bytes of a function that is backed as a whole. */
  method ReadFunction(c: Context, f: RuntimeFunction, size: nat) returns (bytes: seq<Byte>)
    requires CodeTargets.Valid(c) && f.begin < f.end && size == f.end - f.begin
    requires BackedExecutable(c.layout, f.begin, size)
    ensures bytes == FunctionBytes(c, f) && |bytes| == size && ModelExecutable(c.layout, f.begin, size)
  {
    ExecutableDefinitionsAgree(c.layout, f.begin, size);
    MapIsContiguous(c.layout, f.begin, size, 0);
    var offset := Offset(c.layout, f.begin, size).value;
    bytes := c.file[offset..offset + size];
  }

  /** A spent decode budget marks everything truncated. */
  method Flag(acc: Accumulator, cfgs: CfgAccumulator)
    requires acc.Valid() && cfgs.Valid()
    modifies acc`scanTruncated, acc`dataTruncated, acc`spent, cfgs`truncated
    ensures acc.Valid() && cfgs.Valid() && acc.scanTruncated && acc.dataTruncated && acc.spent && cfgs.truncated
  {
    acc.scanTruncated, acc.dataTruncated, acc.spent := true, true, true;
    cfgs.truncated := true;
  }

  lemma TracedTargets(c: Context, f: RuntimeFunction, e: Exploration)
    requires Traced(c, f, e)
    ensures TargetsInImage(c, e.recorder.instructions)
  {
    FaithfulTargets(c, f, FunctionBytes(c, f), e.lengths, e.recorder);
  }

  /** Every backed function so far is explained, unless something was cut off. */
  ghost predicate AllExplained(
    c: Context, swept: seq<RuntimeFunction>, explorations: seq<Exploration>, kept: Kept, graphs: seq<FunctionCfg>,
    cfgTruncated: bool)
  {
    && |explorations| == |swept|
    && (!kept.scanTruncated ==>
          forall k :: 0 <= k < |swept| && IsBacked(c, swept[k]) ==>
            Explains(c, swept[k], explorations[k], kept, graphs, cfgTruncated))
  }

  lemma ExplainOneMore(
    c: Context, swept: seq<RuntimeFunction>, explorations: seq<Exploration>, f: RuntimeFunction, e: Exploration,
    kept0: Kept, graphs0: seq<FunctionCfg>, truncated0: bool, kept1: Kept, graphs1: seq<FunctionCfg>, truncated1: bool)
    requires AllExplained(c, swept, explorations, kept0, graphs0, truncated0)
    requires GrewFor(kept0, kept1, f.begin) && GraphsGrew(graphs0, truncated0, graphs1, truncated1)
    requires forall g :: g in swept ==> g.begin < f.begin
    requires !kept1.scanTruncated && IsBacked(c, f) ==>
               Explains(c, f, e, kept1, graphs1, truncated1)
    ensures AllExplained(c, swept + [f], explorations + [e], kept1, graphs1, truncated1)
  {
    hide Explains, IsBacked;
    forall k | 0 <= k < |swept| && !kept1.scanTruncated && IsBacked(c, swept[k])
      ensures Explains(c, swept[k], explorations[k], kept1, graphs1, truncated1)
    {
      ExplanationPersists(c, swept[k], explorations[k], kept0, graphs0, truncated0,
                          kept1, graphs1, truncated1, f.begin);
    }
  }

  /** What sweeping the functions keeps true between one function and the next. */
  ghost predicate SweptSoFar(
    c: Context, swept: seq<RuntimeFunction>, explorations: seq<Exploration>, acc: Accumulator, cfgs: CfgAccumulator)
    reads acc, cfgs
  {
    && acc.Valid() && cfgs.Valid() && Caused(c, swept, acc, cfgs)
    && RecordsAll(c, swept, acc.calls, acc.references) && GraphsAll(c, swept, cfgs.graphs)
    && AllExplained(c, swept, explorations, KeptBy(acc), cfgs.graphs, cfgs.truncated)
  }

  /** Sweep one more function, or skip it when a budget is spent. */
  method SweepNext(
    c: Context, ghost swept: seq<RuntimeFunction>, f: RuntimeFunction, acc: Accumulator, cfgs: CfgAccumulator,
    spent: bool, ghost explorations: seq<Exploration>)
    returns (exhausted: bool, ghost e: Exploration)
    requires CodeTargets.Valid(c) && SweptSoFar(c, swept, explorations, acc, cfgs) && (spent ==> acc.spent)
    requires f.begin < f.end <= c.layout.sizeOfImage && forall g :: g in swept ==> g.begin < f.begin
    modifies acc, cfgs
    ensures SweptSoFar(c, swept + [f], explorations + [e], acc, cfgs) && (exhausted ==> acc.spent)
  {
    hide RecordsAll, GraphsAll, AllExplained, Explains, GrewFor, GraphsGrew, Caused, RetentionFits, BudgetsFit;
    ghost var kept, graphs, truncated := KeptBy(acc), cfgs.graphs, cfgs.truncated;
    exhausted, e := spent, Exploration(map[], Recorder(map[], {}), {});
    if spent {
      SkipFunction(c, swept, f, acc.calls, acc.references, cfgs.graphs);
      SkipCauses(c, swept, f, acc, cfgs);
      NothingGrew(kept, graphs, truncated, f.begin);
    } else {
      exhausted, e := SweepFunction(c, swept, f, acc, cfgs);
    }
    ExplainOneMore(c, swept, explorations, f, e, kept, graphs, truncated, KeptBy(acc), cfgs.graphs, cfgs.truncated);
  }

  lemma NextInOrder(functions: seq<RuntimeFunction>, sizeOfImage: nat, k: nat)
    requires FunctionsOrdered(functions, sizeOfImage) && k < |functions|
    ensures functions[..k + 1] == functions[..k] + [functions[k]]
    ensures functions[k].begin < functions[k].end <= sizeOfImage
    ensures forall g :: g in functions[..k] ==> g.begin < functions[k].begin
  {
  }

  /** Nothing has been charged or dropped. */
  ghost predicate Unused(kept: Kept) {
    && kept.work == map[] && kept.starts == {} && kept.refused.None? && !kept.spent
    && kept.droppedCalls == {} && kept.unpaired == {} && kept.droppedReferences == {}
  }

  lemma NothingSwept(c: Context, acc: Accumulator, cfgs: CfgAccumulator)
    requires acc.Valid() && cfgs.Valid() && acc.calls == {} && acc.references == {} && cfgs.graphs == []
    requires Unused(KeptBy(acc)) && !cfgs.truncated
    ensures SweptSoFar(c, [], [], acc, cfgs)
  {
  }

  /** Sweep the functions in order until a budget is spent. */
  method SweepFunctions(c: Context, functions: seq<RuntimeFunction>, acc: Accumulator, cfgs: CfgAccumulator)
    returns (ghost explorations: seq<Exploration>)
    requires CodeTargets.Valid(c) && acc.Valid() && cfgs.Valid() && FunctionsOrdered(functions, c.layout.sizeOfImage)
    requires acc.calls == {} && acc.references == {} && cfgs.graphs == [] && Unused(KeptBy(acc)) && !cfgs.truncated
    modifies acc, cfgs
    ensures SweptSoFar(c, functions, explorations, acc, cfgs)
  {
    hide SweptSoFar, FunctionsOrdered;
    var exhausted := false;
    explorations := [];
    NothingSwept(c, acc, cfgs);
    for k := 0 to |functions|
      invariant SweptSoFar(c, functions[..k], explorations, acc, cfgs) && (exhausted ==> acc.spent)
    {
      NextInOrder(functions, c.layout.sizeOfImage, k);
      ghost var e;
      exhausted, e := SweepNext(c, functions[..k], functions[k], acc, cfgs, exhausted, explorations);
      explorations := explorations + [e];
    }
    assert functions[..|functions|] == functions;
  }

  lemma NothingGrew(kept: Kept, graphs: seq<FunctionCfg>, truncated: bool, begin: nat)
    ensures GrewFor(kept, kept, begin) && GraphsGrew(graphs, truncated, graphs, truncated)
  {
  }

  // ----- thunks -----

  function CallTargets(calls: set<Call>): set<U32> {
    set x | x in calls && LocalTarget(x.target).Some? :: LocalTarget(x.target).value
  }

  function FunctionStarts(functions: seq<RuntimeFunction>): set<U32> { set f | f in functions :: f.begin }

  /** Everything the metadata and the recovered calls name as a function. */
  function NamedFunctions(m: Metadata, calls: set<Call>): set<U32> {
    (if m.entryPoint != 0 then {m.entryPoint} else {}) + FunctionStarts(m.functions) + m.exports + CallTargets(calls)
    + m.guardFunctions + m.tlsCallbacks + m.virtualFunctions
  }

  /** Recovery starts its thunk search at the named functions that are backed executable code. */
  function ThunkSeeds(c: Context, m: Metadata, calls: set<Call>): set<U32> {
    set rva | rva in NamedFunctions(m, calls) && BackedExecutable(c.layout, rva, 1)
  }

  /** The validator starts at all of them, leaving out only exports that are not executable. */
  function ModelThunkSeeds(c: Context, m: Metadata, calls: set<Call>): set<U32> {
    var exports := set rva | rva in m.exports && ModelExecutable(c.layout, rva, 1);
    NamedFunctions(m.(exports := exports), calls)
  }

  lemma SeedsAreModeled(c: Context, m: Metadata, calls: set<Call>)
    requires Accepted(c.layout)
    ensures ThunkSeeds(c, m, calls) <= ModelThunkSeeds(c, m, calls)
  {
    forall rva | rva in ThunkSeeds(c, m, calls) ensures rva in ModelThunkSeeds(c, m, calls) {
      ExecutableDefinitionsAgree(c.layout, rva, 1);
    }
  }

  lemma MoreSeedsReachMore(thunks: set<Thunk>, small: set<U32>, large: set<U32>, rva: U32)
    requires small <= large && Reachable(thunks, small, rva)
    ensures Reachable(thunks, large, rva)
  {
  }

  /** Whatever is reached from executable seeds through real thunks is executable. */
  lemma ReachedIsExecutable(c: Context, thunks: set<Thunk>, seeds: set<U32>, rva: U32)
    requires forall s :: s in seeds ==> BackedExecutable(c.layout, s, 1)
    requires forall t :: t in thunks ==> ThunkAt(c, t.rva) == Some(t)
    requires Reachable(thunks, seeds, rva)
    ensures BackedExecutable(c.layout, rva, 1)
  {
    var path :| IsPath(thunks, path) && path[0] in seeds && path[|path| - 1] == rva;
    if |path| > 1 {
      assert Links(thunks, path[|path| - 2], path[|path| - 1]);
      var t :| t in thunks && t.rva == path[|path| - 2] && LocalTarget(t.target) == Some(rva);
      LocalTargetIsExecutable(c, t.rva);
    }
  }

  /** The bytes of a decoded thunk lie in the executable section of its first byte. */
  lemma ThunkBytesAreExecutable(c: Context, rva: U32, size: nat)
    requires Accepted(c.layout) && BackedExecutable(c.layout, rva, 1) && MapperBacked(c.layout, rva, size) && 1 <= size
    ensures ModelExecutable(c.layout, rva, size)
  {
    hide BackedExecutable, Offset, Accepted;
    ExecutableDefinitionsAgree(c.layout, rva, 1);
    var s :| s in c.layout.sections && s.execute && InBacked(s, rva, 1);
    var k :| 0 <= k < |c.layout.sections| && c.layout.sections[k] == s;
    var origin := OriginOf(c.layout, rva, size);
    OneOrigin(c.layout, origin, InSection(k), rva, size);
  }

  lemma ThunkIsAccepted(c: Context, t: Thunk)
    requires CodeTargets.Valid(c) && ThunkAt(c, t.rva) == Some(t) && BackedExecutable(c.layout, t.rva, 1)
    ensures ThunkAccepted(c, t)
  {
    var bytes, i := CandidateBytes(c, t.rva).value, CandidateInstruction(c, t.rva);
    ContiguousIsMaximal(c.layout, t.rva, i.len);
    ThunkBytesAreExecutable(c, t.rva, i.len);
    ThunkTargetIsAccepted(c, t.rva, i, bytes[..i.len]);
  }

  ghost predicate ThunksAll(c: Context, m: Metadata, calls: set<Call>, thunks: set<Thunk>) {
    && (forall t :: t in thunks ==> ThunkAccepted(c, t) && Reachable(thunks, ModelThunkSeeds(c, m, calls), t.rva))
    && (forall t, u :: t in thunks && u in thunks && t.rva == u.rva ==> t == u)
  }

  lemma ClosedThunksAreAccepted(c: Context, m: Metadata, calls: set<Call>, thunks: set<Thunk>)
    requires CodeTargets.Valid(c)
    requires forall t :: t in thunks ==>
               ThunkAt(c, t.rva) == Some(t) && Reachable(thunks, ThunkSeeds(c, m, calls), t.rva)
    ensures ThunksAll(c, m, calls, thunks)
  {
    SeedsAreModeled(c, m, calls);
    forall t | t in thunks ensures ThunkAccepted(c, t) && Reachable(thunks, ModelThunkSeeds(c, m, calls), t.rva) {
      ReachedIsExecutable(c, thunks, ThunkSeeds(c, m, calls), t.rva);
      ThunkIsAccepted(c, t);
      MoreSeedsReachMore(thunks, ThunkSeeds(c, m, calls), ModelThunkSeeds(c, m, calls), t.rva);
    }
  }

  // ----- the whole recovery -----

  /** What every recovery guarantees, cut off or not. */
  ghost predicate Recovers(c: Context, m: Metadata, limits: Limits, r: Recovered) {
    && |r.calls| <= limits.calls && |r.references| <= limits.references && |r.thunks| <= limits.thunks
    && TotalBlocks(r.graphs) <= limits.blocks
    && RecordsAll(c, m.functions, r.calls, r.references) && Paired(r.calls, r.references)
    && GraphsAll(c, m.functions, r.graphs)
    && ThunksAll(c, m, r.calls, r.thunks)
  }

  /** A thunk candidate stopped the search: its bytes decode to nothing, or its thunk found no room. */
  ghost predicate ThunkLost(c: Context, seeds: set<U32>, limits: Limits, thunks: set<Thunk>) {
    exists rva :: IsCandidate(c, seeds, rva) && ThunkStops(c, limits, thunks, rva)
  }

  ghost predicate ThunkStops(c: Context, limits: Limits, thunks: set<Thunk>, rva: U32)
    requires IsDecoded(c, rva)
  {
    || CandidateInstruction(c, rva).len == 0
    || (|thunks| == limits.thunks && ThunkAt(c, rva).Some? && ThunkAt(c, rva).value !in thunks)
  }

  /** No flag is raised without a cause in the code: more block starts or more to decode than the
      budgets allow, or something that control reaches and that found no room. */
  ghost predicate CutsHaveCauses(c: Context, m: Metadata, limits: Limits, r: Recovered) {
    var seeds := ThunkSeeds(c, m, r.calls);
    && (r.scanTruncated ==>
          || ScanCut(c, m.functions, seeds, limits, r.calls, r.references)
          || ThunkLost(c, seeds, limits, r.thunks))
    && (r.dataTruncated ==> DataCut(c, m.functions, limits, r.references))
    && (r.cfgTruncated ==>
          GraphLost(c, m.functions, limits.blocks, r.graphs) || DecodesSpent(c, m.functions, {}, limits))
  }

  /** Recover the code of an image. An uncut recovery is complete, and a recovery is cut only for a
      cause: see `FullyRecovered` and `CutsHaveCauses`. */
  method RecoverCode(c: Context, m: Metadata, limits: Limits) returns (r: Recovered)
    requires CodeTargets.Valid(c) && FunctionsOrdered(m.functions, c.layout.sizeOfImage)
    ensures Recovers(c, m, limits, r) && CutsHaveCauses(c, m, limits, r)
    ensures !r.scanTruncated ==> forall f :: f in m.functions && IsBacked(c, f) ==> FullyRecovered(c, f, r)
    ensures !r.scanTruncated ==> forall t :: t in r.thunks <==>
              t in AllThunks(c) && Reachable(AllThunks(c), ThunkSeeds(c, m, r.calls), t.rva)
  {
    hide RecordsAll, GraphsAll, ThunksAll, ThunkSeeds, ModelThunkSeeds, Reachable, AllExplained, FullyRecovered,
      IsBacked, Genuine, AreTasks, GraphLost, ScanCut, DataCut, ThunkLost, DecodesSpent, BudgetsFit;
    var acc := new Accumulator(limits);
    var cfgs := new CfgAccumulator(limits.blocks);
    ghost var explorations := SweepFunctions(c, m.functions, acc, cfgs);
    FlagsHaveCauses(c, m.functions, ThunkSeeds(c, m, acc.calls), acc);
    SpentIsSpent(c, m.functions, KeptBy(acc), limits);
    ghost var kept := KeptBy(acc);
    var cut, thunks := FindThunks(c, m, acc);
    r := Recovered(acc.calls, acc.references, cfgs.graphs, thunks,
                   acc.scanTruncated || cut, acc.dataTruncated, cfgs.truncated);
    AllFullyRecovered(c, m, explorations, kept, r);
  }

  /** Close the named functions over thunks. */
  method FindThunks(c: Context, m: Metadata, acc: Accumulator) returns (cut: bool, thunks: set<Thunk>)
    requires CodeTargets.Valid(c) && acc.Valid()
    requires AreTasks(c, m.functions, {}, acc.work) && forall k :: k in acc.work ==> !k.Candidate?
    modifies acc`bytes, acc`instructions, acc`work
    ensures acc.Valid() && |thunks| <= acc.limits.thunks && ThunksAll(c, m, acc.calls, thunks)
    ensures var seeds := ThunkSeeds(c, m, acc.calls);
            && (cut ==>
                  || ScanCut(c, m.functions, seeds, acc.limits, acc.calls, acc.references)
                  || ThunkLost(c, seeds, acc.limits, thunks))
            && (!cut ==> forall t :: t in thunks <==> t in AllThunks(c) && Reachable(AllThunks(c), seeds, t.rva))
  {
    hide ThunksAll, ThunkSeeds, Reachable, AreTasks, SearchWork, Stops, ScanCut, ThunkLost, CodeTargets.Valid,
      Accumulator.Valid;
    ghost var work := acc.work;
    var seeds := ThunkSeeds(c, m, acc.calls);
    cut, thunks := CloseThunks(c, seeds, acc);
    CutIsCaused(c, m, seeds, acc.limits, work, acc.work, acc.calls, acc.references, thunks, cut);
    ClosedThunksAreAccepted(c, m, acc.calls, thunks);
  }

  lemma SpentIsSpent(c: Context, functions: seq<RuntimeFunction>, kept: Kept, limits: Limits)
    requires Genuine(c, functions, kept, limits)
    ensures kept.spent ==> DecodesSpent(c, functions, {}, limits)
    ensures AreTasks(c, functions, {}, kept.work) && forall k :: k in kept.work ==> !k.Candidate?
  {
    hide DecodesSpent;
  }

  /** A search that is cut off has spent the decode budget on real tasks, or lost a thunk. */
  lemma CutIsCaused(
    c: Context, m: Metadata, seeds: set<U32>, limits: Limits, work0: Work, work: Work, calls: set<Call>,
    references: set<Reference>, thunks: set<Thunk>, cut: bool)
    requires AreTasks(c, m.functions, {}, work0) && SearchWork(c, seeds, Universe(), work0, work)
    requires cut ==> exists rva :: Stops(c, seeds, limits, work, thunks, rva)
    ensures cut ==> ScanCut(c, m.functions, seeds, limits, calls, references) || ThunkLost(c, seeds, limits, thunks)
  {
    hide SweepTask, CandidateTask, IsCandidate, DecodesSpent, CallLost, StartsSpent, Overspends;
    if cut {
      var rva: U32 :| Stops(c, seeds, limits, work, thunks, rva);
      SearchIsGenuine(c, m.functions, seeds, work0, work);
      CandidateIsTask(c, seeds, rva);
      if Candidate(rva) !in work && CandidateInstruction(c, rva).len > 0
         && Overspends(work, limits, CandidateInstruction(c, rva).len) {
        OneTaskTooMany(c, m.functions, seeds, limits, work, Candidate(rva), CandidateInstruction(c, rva).len);
      }
    }
  }

  lemma CandidateIsTask(c: Context, seeds: set<U32>, rva: U32)
    requires IsCandidate(c, seeds, rva)
    ensures IsDecoded(c, rva)
    ensures CandidateInstruction(c, rva).len > 0 ==>
              CandidateTask(c, seeds, Candidate(rva), CandidateInstruction(c, rva).len)
  {
  }

  lemma SearchIsGenuine(
    c: Context, functions: seq<RuntimeFunction>, seeds: set<U32>, work0: Work, work: Work)
    requires AreTasks(c, functions, {}, work0) && SearchWork(c, seeds, Universe(), work0, work)
    ensures AreTasks(c, functions, seeds, work)
  {
    hide SweepTask, CandidateTask;
    forall k | k in work ensures IsTask(c, functions, seeds, k, work[k]) {
      NoCandidateWithoutSeeds(c, k, work[k]);
    }
  }

  /** One function has been recovered in full: an exploration of everything reachable in it has all
      its calls, its references and its graph among the results. */
  ghost predicate FullyRecovered(c: Context, f: RuntimeFunction, r: Recovered) {
    exists e, kept :: Explains(c, f, e, kept, r.graphs, r.cfgTruncated) && Shows(kept, r)
  }

  /** Of what was kept, the results hold everything but references over their cap. */
  ghost predicate Shows(kept: Kept, r: Recovered) {
    && kept.calls == r.calls && kept.droppedCalls == {}
    && kept.references == r.references && (!r.dataTruncated ==> kept.droppedReferences == {})
  }

  lemma AllFullyRecovered(c: Context, m: Metadata, explorations: seq<Exploration>, kept: Kept, r: Recovered)
    requires AllExplained(c, m.functions, explorations, kept, r.graphs, r.cfgTruncated)
    requires !r.scanTruncated ==> !kept.scanTruncated && Shows(kept, r)
    ensures !r.scanTruncated ==> forall f :: f in m.functions && IsBacked(c, f) ==> FullyRecovered(c, f, r)
  {
    hide Explains, IsBacked, Shows;
    forall f | f in m.functions && !r.scanTruncated && IsBacked(c, f)
      ensures FullyRecovered(c, f, r)
    {
      var k :| 0 <= k < |m.functions| && m.functions[k] == f;
      assert Explains(c, f, explorations[k], kept, r.graphs, r.cfgTruncated);
    }
  }
}
