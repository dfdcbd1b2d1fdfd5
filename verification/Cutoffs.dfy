/** What can cut a recovery off, in terms of the code alone: more block starts than their budget,
    more to decode than its budget, or a relationship that found no room. */
module Cutoffs {
  import opened Common
  import opened PeMap
  import opened RuntimeTargets
  import opened CodeTargets
  import opened Retention
  import opened CfgBlocks
  import opened Sweep
  import opened Thunks
  import opened CodeWalks

  // ----- block starts -----

  ghost predicate IsBlockStart(c: Context, functions: seq<RuntimeFunction>, start: (nat, nat)) {
    exists f :: f in functions && IsBacked(c, f) && f.begin == start.0 && Starts(c, f, start.1)
  }

  /** The functions have more block starts than their budget allows. */
  ghost predicate StartsSpent(c: Context, functions: seq<RuntimeFunction>, limits: Limits) {
    exists starts: set<(nat, nat)> ::
      (forall x :: x in starts ==> IsBlockStart(c, functions, x)) && |starts| > limits.blockStarts
  }

  // ----- decodes -----

  /** A decode of the function: at a block start, or where control goes on. */
  ghost predicate DecodesFor(c: Context, f: RuntimeFunction, task: Task, size: nat) {
    && size > 0 && IsFor(task, f.begin)
    && match task
       case FirstOf(_, at) => Starts(c, f, at) && size == InstructionAt(c, f, at).len
       case NextOf(_, previous) =>
         var at := previous + InstructionAt(c, f, previous).len;
         Continues(c, f, previous, at) && size == InstructionAt(c, f, at).len
       case Candidate(_) => false
  }

  ghost predicate SweepTask(c: Context, functions: seq<RuntimeFunction>, task: Task, size: nat) {
    exists f :: f in functions && IsBacked(c, f) && DecodesFor(c, f, task, size)
  }

  /** A decode that recovery has reason for: in a listed function, or of a thunk candidate. */
  ghost predicate IsTask(c: Context, functions: seq<RuntimeFunction>, seeds: set<U32>, task: Task, size: nat) {
    SweepTask(c, functions, task, size) || CandidateTask(c, seeds, task, size)
  }

  ghost predicate AreTasks(c: Context, functions: seq<RuntimeFunction>, seeds: set<U32>, work: Work) {
    forall k :: k in work ==> IsTask(c, functions, seeds, k, work[k])
  }

  /** There is more to decode than the budget allows. */
  ghost predicate DecodesSpent(c: Context, functions: seq<RuntimeFunction>, seeds: set<U32>, limits: Limits) {
    exists work: Work ::
      AreTasks(c, functions, seeds, work) && (WorkBytes(work) > limits.bytes || |work| > limits.instructions)
  }

  lemma OneTaskTooMany(
    c: Context, functions: seq<RuntimeFunction>, seeds: set<U32>, limits: Limits, work: Work, task: Task, size: nat)
    requires AreTasks(c, functions, seeds, work) && IsTask(c, functions, seeds, task, size)
    requires task !in work && Overspends(work, limits, size)
    ensures DecodesSpent(c, functions, seeds, limits)
  {
    hide IsTask, WorkBytes;
    OneMoreTask(work, task, size);
    assert AreTasks(c, functions, seeds, work[task := size]);
  }

  // ----- relationships -----

  /** The call of an instruction that control reaches in a listed function. */
  ghost predicate CallOccurs(c: Context, functions: seq<RuntimeFunction>, x: Call) {
    exists f :: f in functions && IsBacked(c, f) && f.begin == x.caller && OccursIn(c, f, x)
  }

  ghost predicate OccursIn(c: Context, f: RuntimeFunction, x: Call) {
    Walked(c, f, x.site) && CallIn(c, f, x.site) == Some(x)
  }

  /** A pointer call whose operand is not relative to RIP, so that it has no slot reference. */
  ghost predicate LacksReference(c: Context, functions: seq<RuntimeFunction>, x: Call) {
    exists f ::
      && f in functions && IsBacked(c, f) && f.begin == x.caller && OccursIn(c, f, x)
      && x.target.FunctionPointer? && !InstructionAt(c, f, x.site).ripBase
  }

  ghost predicate ReferenceOccurs(c: Context, functions: seq<RuntimeFunction>, x: Reference) {
    exists f ::
      && f in functions && IsBacked(c, f) && f.begin == x.caller
      && Walked(c, f, x.site) && ReferenceIn(c, f, x.site) == Some(x)
  }

  /** A call that control reaches found no room, or had no slot reference to go with. */
  ghost predicate CallLost(
    c: Context, functions: seq<RuntimeFunction>, limits: Limits, calls: set<Call>, references: set<Reference>)
  {
    exists x ::
      && CallOccurs(c, functions, x) && x !in calls
      && (LacksRoom(limits, calls, references, x) || LacksReference(c, functions, x))
  }

  /** A data reference that control reaches found no room. */
  ghost predicate ReferenceLost(
    c: Context, functions: seq<RuntimeFunction>, limits: Limits, references: set<Reference>)
  {
    |references| == limits.references && exists x :: ReferenceOccurs(c, functions, x) && x !in references
  }

  // ----- the ledger of a whole recovery -----

  /** Whatever was charged, refused or dropped so far stands for something in the functions swept. */
  ghost predicate Genuine(c: Context, swept: seq<RuntimeFunction>, kept: Kept, limits: Limits) {
    && (forall k :: k in kept.work ==> SweepTask(c, swept, k, kept.work[k]))
    && (forall x :: x in kept.starts ==> IsBlockStart(c, swept, x))
    && (kept.refused.Some? ==> IsBlockStart(c, swept, kept.refused.value))
    && (forall x :: x in kept.droppedCalls ==> CallOccurs(c, swept, x) && x !in kept.calls)
    && (forall x :: x in kept.unpaired ==> LacksReference(c, swept, x))
    && (forall x :: x in kept.droppedReferences ==> ReferenceOccurs(c, swept, x) && x !in kept.references)
    && (kept.spent ==> DecodesSpent(c, swept, {}, limits))
  }

  /** More functions have more of everything. */
  lemma MoreFunctionsHaveMore(
    c: Context, small: seq<RuntimeFunction>, large: seq<RuntimeFunction>, seeds: set<U32>, limits: Limits)
    requires forall f :: f in small ==> f in large
    ensures forall k, n :: SweepTask(c, small, k, n) ==> SweepTask(c, large, k, n)
    ensures forall x :: IsBlockStart(c, small, x) ==> IsBlockStart(c, large, x)
    ensures forall x :: CallOccurs(c, small, x) ==> CallOccurs(c, large, x)
    ensures forall x :: LacksReference(c, small, x) ==> LacksReference(c, large, x)
    ensures forall x :: ReferenceOccurs(c, small, x) ==> ReferenceOccurs(c, large, x)
    ensures DecodesSpent(c, small, {}, limits) ==> DecodesSpent(c, large, seeds, limits)
  {
    hide IsBacked, Starts, DecodesFor, OccursIn, Walked, InstructionAt, ReferenceIn;
    MoreFunctionsDecodeMore(c, small, large, seeds, limits);
  }

  lemma MoreFunctionsDecodeMore(
    c: Context, small: seq<RuntimeFunction>, large: seq<RuntimeFunction>, seeds: set<U32>, limits: Limits)
    requires forall f :: f in small ==> f in large
    ensures DecodesSpent(c, small, {}, limits) ==> DecodesSpent(c, large, seeds, limits)
  {
    hide IsBacked, DecodesFor, WorkBytes, CandidateTask;
    if DecodesSpent(c, small, {}, limits) {
      var work :| AreTasks(c, small, {}, work) && (WorkBytes(work) > limits.bytes || |work| > limits.instructions);
      forall k | k in work ensures IsTask(c, large, seeds, k, work[k]) {
        NoCandidateWithoutSeeds(c, k, work[k]);
      }
      assert AreTasks(c, large, seeds, work);
    }
  }

  lemma NoCandidateWithoutSeeds(c: Context, task: Task, size: nat)
    ensures !CandidateTask(c, {}, task, size)
  {
  }

  /** Nothing charged or dropped for the functions swept names a later one. */
  lemma GenuineIsUntouched(c: Context, swept: seq<RuntimeFunction>, kept: Kept, limits: Limits, begin: nat)
    requires Genuine(c, swept, kept, limits) && forall g :: g in swept ==> g.begin < begin
    requires forall x :: x in kept.calls ==> x.caller != begin
    requires forall x :: x in kept.references ==> x.caller != begin
    ensures Untouched(kept, begin)
  {
    hide IsBacked, Starts, OccursIn, Walked, InstructionAt, ReferenceIn, DecodesSpent;
  }

  // ----- one more function -----

  lemma TaskIsGenuine(c: Context, f: RuntimeFunction, e: Exploration, task: Task, size: nat)
    requires Traced(c, f, e)
    requires TaskFits(c, f, FunctionBytes(c, f), e.discovered, e.recorder.instructions, task, size)
    ensures DecodesFor(c, f, task, size)
  {
    hide Traced, Starts, Continues, DecodedAt;
    match task
    case FirstOf(_, at) => DiscoveredStarts(c, f, e, at);
    case NextOf(_, previous) =>
      RecordedContinues(c, f, e, previous);
      RecordedIsDecoded(c, f, e, previous);
  }

  /** The ledger of one function's sweep is genuine: see `Genuine`. */
  lemma WorkIsGenuine(c: Context, swept: seq<RuntimeFunction>, f: RuntimeFunction, e: Exploration, a: Kept, b: Kept)
    requires Traced(c, f, e) && IsBacked(c, f) && ChargedFor(a, b, f.begin)
    requires forall k :: k in a.work ==> SweepTask(c, swept, k, a.work[k])
    requires forall k :: k in b.work && IsFor(k, f.begin) ==>
               TaskFits(c, f, FunctionBytes(c, f), e.discovered, e.recorder.instructions, k, b.work[k])
    ensures forall k :: k in b.work ==> SweepTask(c, swept + [f], k, b.work[k])
  {
    hide IsBacked, DecodesFor, Traced, TaskFits;
    assert f in swept + [f];
    forall k | k in b.work ensures SweepTask(c, swept + [f], k, b.work[k]) {
      if IsFor(k, f.begin) { TaskIsGenuine(c, f, e, k, b.work[k]); }
    }
  }

  lemma StartsAreGenuine(c: Context, swept: seq<RuntimeFunction>, f: RuntimeFunction, e: Exploration, a: Kept, b: Kept)
    requires Traced(c, f, e) && IsBacked(c, f) && ChargedFor(a, b, f.begin)
    requires StartsFit(f, e.discovered, e.recorder, b.starts, b.refused)
    requires forall x :: x in a.starts ==> IsBlockStart(c, swept, x)
    requires a.refused.Some? ==> IsBlockStart(c, swept, a.refused.value)
    ensures forall x :: x in b.starts ==> IsBlockStart(c, swept + [f], x)
    ensures b.refused.Some? ==> IsBlockStart(c, swept + [f], b.refused.value)
  {
    hide Starts, Traced, BackedExecutable;
    assert f in swept + [f];
    forall x | x in b.starts ensures IsBlockStart(c, swept + [f], x) {
      if x.0 == f.begin {
        assert x == (f.begin as nat, x.1);
        DiscoveredStarts(c, f, e, x.1);
      }
    }
    if b.refused.Some? && b.refused.value.0 == f.begin {
      if b.refused.value.1 == f.begin { EntryStarts(c, f); } else { ListedTargetStarts(c, f, e, b.refused.value.1); }
    }
  }

  lemma CallsAreGenuine(c: Context, swept: seq<RuntimeFunction>, f: RuntimeFunction, e: Exploration, a: Kept, b: Kept)
    requires Traced(c, f, e) && IsBacked(c, f) && GrewFor(a, b, f.begin)
    requires CallsAccounted(c, f, FunctionBytes(c, f), e.lengths, b.calls, b.droppedCalls)
    requires forall g :: g in swept ==> g.begin < f.begin
    requires forall x :: x in a.droppedCalls ==> CallOccurs(c, swept, x) && x !in a.calls
    ensures forall x :: x in b.droppedCalls ==> CallOccurs(c, swept + [f], x) && x !in b.calls
  {
    hide IsBacked, Traced, Walked, CallAt;
    assert f in swept + [f];
    forall x | x in b.droppedCalls ensures CallOccurs(c, swept + [f], x) && x !in b.calls {
      if x.caller == f.begin {
        RetainedIsWalked(c, f, e, x.site);
        assert OccursIn(c, f, x);
      } else {
        assert CallOccurs(c, swept, x);
      }
    }
  }

  lemma ReferencesAreGenuine(
    c: Context, swept: seq<RuntimeFunction>, f: RuntimeFunction, e: Exploration, a: Kept, b: Kept)
    requires Traced(c, f, e) && IsBacked(c, f) && GrewFor(a, b, f.begin)
    requires ReferencesAccounted(c, f, FunctionBytes(c, f), e.lengths, b.references, b.droppedReferences)
    requires forall g :: g in swept ==> g.begin < f.begin
    requires forall x :: x in a.droppedReferences ==> ReferenceOccurs(c, swept, x) && x !in a.references
    ensures forall x :: x in b.droppedReferences ==> ReferenceOccurs(c, swept + [f], x) && x !in b.references
  {
    hide IsBacked, Traced, Walked, ReferenceAt;
    assert f in swept + [f];
    forall x | x in b.droppedReferences ensures ReferenceOccurs(c, swept + [f], x) && x !in b.references {
      if x.caller == f.begin {
        RetainedIsWalked(c, f, e, x.site);
      } else {
        assert ReferenceOccurs(c, swept, x);
      }
    }
  }

  /** A call without its slot reference has an operand that is not relative to RIP. */
  lemma AloneIsNotRelative(c: Context, f: RuntimeFunction, x: Call)
    requires CodeTargets.Valid(c) && CallIn(c, f, x.site) == Some(x)
    requires StandsAlone(Some(x), ReferenceIn(c, f, x.site))
    ensures x.target.FunctionPointer? && !InstructionAt(c, f, x.site).ripBase
  {
    var i := InstructionAt(c, f, x.site);
    var raw := BytesAt(f, FunctionBytes(c, f), x.site, i.len);
    PointerCallHasReference(c, i, raw, f.begin, x.site, IpAt(c, x.site));
    hide DecodeCallTarget, DecodeReference, DecodedAt, BytesAt, CodeTargets.Valid;
  }

  lemma UnpairedIsGenuine(c: Context, swept: seq<RuntimeFunction>, f: RuntimeFunction, a: Kept, b: Kept)
    requires CodeTargets.Valid(c) && IsBacked(c, f) && GrewFor(a, b, f.begin)
    requires AloneFit(c, f, FunctionBytes(c, f), b.unpaired) && b.unpaired <= b.droppedCalls
    requires forall x :: x in b.droppedCalls && x.caller == f.begin ==> OccursIn(c, f, x)
    requires forall x :: x in a.unpaired ==> LacksReference(c, swept, x)
    ensures forall x :: x in b.unpaired ==> LacksReference(c, swept + [f], x)
  {
    hide IsBacked, OccursIn, CallAt, ReferenceAt, InstructionAt, StandsAlone, CodeTargets.Valid;
    assert f in swept + [f];
    forall x | x in b.unpaired ensures LacksReference(c, swept + [f], x) {
      if x.caller == f.begin {
        AloneIsNotRelative(c, f, x);
      } else {
        assert LacksReference(c, swept, x);
      }
    }
  }

  lemma DroppedOccur(c: Context, f: RuntimeFunction, e: Exploration, b: Kept)
    requires Traced(c, f, e) && CallsAccounted(c, f, FunctionBytes(c, f), e.lengths, b.calls, b.droppedCalls)
    ensures forall x :: x in b.droppedCalls && x.caller == f.begin ==> OccursIn(c, f, x)
  {
    hide Traced, Walked, CallAt;
    forall x | x in b.droppedCalls && x.caller == f.begin ensures OccursIn(c, f, x) {
      RetainedIsWalked(c, f, e, x.site);
    }
  }

  /** A sweep keeps the whole ledger genuine. */
  lemma SweepIsGenuine(
    c: Context, swept: seq<RuntimeFunction>, f: RuntimeFunction, e: Exploration, a: Kept, b: Kept, limits: Limits)
    requires CodeTargets.Valid(c) && Traced(c, f, e) && IsBacked(c, f)
    requires Genuine(c, swept, a, limits) && GrewFor(a, b, f.begin) && b.unpaired <= b.droppedCalls
    requires b.spent == a.spent
    requires forall g :: g in swept ==> g.begin < f.begin
    requires CallsAccounted(c, f, FunctionBytes(c, f), e.lengths, b.calls, b.droppedCalls)
    requires ReferencesAccounted(c, f, FunctionBytes(c, f), e.lengths, b.references, b.droppedReferences)
    requires AloneFit(c, f, FunctionBytes(c, f), b.unpaired)
    requires StartsFit(f, e.discovered, e.recorder, b.starts, b.refused)
    requires forall k :: k in b.work && IsFor(k, f.begin) ==>
               TaskFits(c, f, FunctionBytes(c, f), e.discovered, e.recorder.instructions, k, b.work[k])
    ensures Genuine(c, swept + [f], b, limits)
  {
    hide CodeTargets.Valid, Traced, IsBacked, CallsAccounted, ReferencesAccounted, AloneFit, StartsFit, TaskFits,
      SweepTask, IsBlockStart, CallOccurs, ReferenceOccurs, LacksReference, OccursIn, DecodesSpent, FunctionBytes,
      IsFor;
    DroppedOccur(c, f, e, b);
    WorkIsGenuine(c, swept, f, e, a, b);
    StartsAreGenuine(c, swept, f, e, a, b);
    CallsAreGenuine(c, swept, f, e, a, b);
    ReferencesAreGenuine(c, swept, f, e, a, b);
    UnpairedIsGenuine(c, swept, f, a, b);
    MoreFunctionsHaveMore(c, swept, swept + [f], {}, limits);
  }

  /** A sweep that ran out of decodes leaves more to decode than the budget allows. */
  lemma ExhaustedIsSpent(
    c: Context, swept: seq<RuntimeFunction>, f: RuntimeFunction, e: Exploration, t: Traversal, acc: Accumulator)
    requires Traced(c, f, e) && IsBacked(c, f) && f in swept && Genuine(c, swept, KeptBy(acc), acc.limits)
    requires OutOfDecodes(c, f, FunctionBytes(c, f), t, acc)
    requires e.discovered == t.discovered && e.recorder == t.recorder
    ensures DecodesSpent(c, swept, {}, acc.limits)
  {
    hide Traced, IsBacked, TaskFits, DecodesFor, Overspends, FunctionBytes, DecodesSpent, CandidateTask;
    var task, size :| && TaskFits(c, f, FunctionBytes(c, f), t.discovered, t.recorder.instructions, task, size)
      && task !in acc.work && Overspends(acc.work, acc.limits, size);
    TaskIsGenuine(c, f, e, task, size);
    OneTaskTooMany(c, swept, {}, acc.limits, acc.work, task, size);
  }

  // ----- the causes -----

  /** The start budget was spent only on block starts, with one more to go. */
  lemma RefusedIsSpent(c: Context, functions: seq<RuntimeFunction>, kept: Kept, limits: Limits)
    requires Genuine(c, functions, kept, limits) && kept.refused.Some?
    requires kept.refused.value !in kept.starts && |kept.starts| == limits.blockStarts
    ensures StartsSpent(c, functions, limits)
  {
    hide IsBlockStart;
    var starts := kept.starts + {kept.refused.value};
    assert forall x :: x in starts ==> IsBlockStart(c, functions, x);
  }

  /** What may raise the scan flag before the thunk search. */
  ghost predicate ScanCut(
    c: Context, functions: seq<RuntimeFunction>, seeds: set<U32>, limits: Limits, calls: set<Call>,
    references: set<Reference>)
  {
    || CallLost(c, functions, limits, calls, references)
    || StartsSpent(c, functions, limits) || DecodesSpent(c, functions, seeds, limits)
  }

  ghost predicate DataCut(
    c: Context, functions: seq<RuntimeFunction>, limits: Limits, references: set<Reference>)
  {
    || ReferenceLost(c, functions, limits, references)
    || StartsSpent(c, functions, limits) || DecodesSpent(c, functions, {}, limits)
  }

  lemma FlagsHaveCauses(
    c: Context, functions: seq<RuntimeFunction>, seeds: set<U32>, acc: Accumulator)
    requires acc.Valid() && Genuine(c, functions, KeptBy(acc), acc.limits)
    ensures acc.scanTruncated ==> ScanCut(c, functions, seeds, acc.limits, acc.calls, acc.references)
    ensures acc.dataTruncated ==> DataCut(c, functions, acc.limits, acc.references)
  {
    hide StartsSpent, DecodesSpent, CallOccurs, LacksReference, ReferenceOccurs, IsBlockStart, SweepTask, WorkBytes;
    if acc.refused.Some? { RefusedIsSpent(c, functions, KeptBy(acc), acc.limits); }
    MoreFunctionsDecodeMore(c, functions, functions, seeds, acc.limits);
    if acc.droppedCalls != {} {
      var x :| x in acc.droppedCalls;
    }
    if acc.droppedReferences != {} {
      var x :| x in acc.droppedReferences;
      assert ReferenceOccurs(c, functions, x) && x !in acc.references;
    }
  }

  // ----- when the budgets cannot be spent -----

  function CodeBytes(functions: seq<RuntimeFunction>): nat {
    if functions == [] then 0
    else
      var f := functions[|functions| - 1];
      CodeBytes(functions[..|functions| - 1]) + if f.begin < f.end then f.end - f.begin else 0
  }

  /** The functions have no more block starts than bytes. */
  lemma {:induction false} StartsAreFew(c: Context, functions: seq<RuntimeFunction>, starts: set<(nat, nat)>)
    requires forall x :: x in starts ==> IsBlockStart(c, functions, x)
    ensures |starts| <= CodeBytes(functions)
  {
    hide BackedExecutable, BranchesTo;
    if functions != [] {
      var f, before := functions[|functions| - 1], functions[..|functions| - 1];
      var earlier := set x | x in starts && IsBlockStart(c, before, x);
      StartsAreFew(c, before, earlier);
      forall x | x in starts - earlier ensures x.0 == f.begin && f.begin <= x.1 < f.end {
        assert IsBlockStart(c, functions, x);
      }
      RangeCardinality(starts - earlier, (x: (nat, nat)) => x.1, f.begin,
                       if f.begin < f.end then f.end else f.begin);
      assert starts == (starts - earlier) + earlier;
    } else {
      assert starts == {};
    }
  }

  function Place(task: Task): nat {
    match task
    case FirstOf(_, at) => 2 * at
    case NextOf(_, previous) => 2 * previous + 1
    case Candidate(rva) => rva
  }

  /** A decode of a function starts or continues at one of its bytes. */
  lemma TaskIsWithin(c: Context, f: RuntimeFunction, task: Task, size: nat)
    requires DecodesFor(c, f, task, size)
    ensures !task.Candidate? && task.caller == f.begin && 2 * f.begin <= Place(task) < 2 * f.end
  {
    if task.NextOf? { WalkedIsWithin(c, f, task.previous); }
  }

  lemma WalkedIsWithin(c: Context, f: RuntimeFunction, at: nat)
    requires Walked(c, f, at)
    ensures Decodes(c, f, at)
  {
  }

  /** So there are at most two decodes for each byte of the functions. */
  lemma {:induction false} SweepTasksAreFew(
    c: Context, functions: seq<RuntimeFunction>, tasks: set<Task>, sizes: Work)
    requires forall k :: k in tasks ==> k in sizes && SweepTask(c, functions, k, sizes[k])
    ensures |tasks| <= 2 * CodeBytes(functions)
  {
    hide IsBacked, DecodesFor;
    if functions != [] {
      var f, before := functions[|functions| - 1], functions[..|functions| - 1];
      var earlier := set k | k in tasks && SweepTask(c, before, k, sizes[k]);
      SweepTasksAreFew(c, before, earlier, sizes);
      var own := tasks - earlier;
      forall k | k in own
        ensures !k.Candidate? && k.caller == f.begin && 2 * f.begin <= Place(k) < 2 * f.end
      {
        var g :| g in functions && IsBacked(c, g) && DecodesFor(c, g, k, sizes[k]);
        assert g == f;
        TaskIsWithin(c, f, k, sizes[k]);
      }
      RangeCardinality(own, Place, 2 * f.begin, if f.begin < f.end then 2 * f.end else 2 * f.begin);
      assert tasks == own + earlier;
    } else {
      assert tasks == {};
    }
  }

  lemma CandidateIsInImage(c: Context, seeds: set<U32>, task: Task, size: nat)
    requires CodeTargets.Valid(c) && CandidateTask(c, seeds, task, size)
    ensures task.Candidate? && task.rva < c.layout.sizeOfImage
  {
    ContiguousIsMaximal(c.layout, task.rva, 1);
    BackedDefinitionsAgree(c.layout, task.rva, 1);
  }

  /** Recovery never has more to decode than two instructions for each byte of its functions and
      one for each address of the image. */
  lemma TasksAreFew(c: Context, functions: seq<RuntimeFunction>, seeds: set<U32>, work: Work)
    requires CodeTargets.Valid(c) && AreTasks(c, functions, seeds, work)
    ensures |work| <= 2 * CodeBytes(functions) + c.layout.sizeOfImage
  {
    hide SweepTask, CandidateTask, CodeTargets.Valid;
    var swept := set k | k in work && SweepTask(c, functions, k, work[k]);
    SweepTasksAreFew(c, functions, swept, work);
    var searched := work.Keys - swept;
    forall k | k in searched ensures k.Candidate? && k.rva < c.layout.sizeOfImage {
      CandidateIsInImage(c, seeds, k, work[k]);
    }
    RangeCardinality(searched, Place, 0, c.layout.sizeOfImage);
    assert work.Keys == swept + searched;
  }

  lemma {:induction false} WorkBytesAreFew(work: Work)
    requires forall k :: k in work ==> work[k] <= MAX_INSTRUCTION_BYTES
    ensures WorkBytes(work) <= MAX_INSTRUCTION_BYTES * |work|
    decreases |work|
  {
    if work != map[] {
      var k :| k in work;
      TotalSplits(work, k, Itself);
      assert (work - {k}).Keys == work.Keys - {k};
      WorkBytesAreFew(work - {k});
    }
  }

  lemma TasksAreShort(c: Context, functions: seq<RuntimeFunction>, seeds: set<U32>, task: Task, size: nat)
    requires CodeTargets.Valid(c) && IsTask(c, functions, seeds, task, size)
    ensures size <= MAX_INSTRUCTION_BYTES
  {
    hide Starts, Continues, BackedExecutable, FunctionBytes, CandidateBytes, Reachable, Accepted;
  }

  /** Budgets that cover this many decodes and starts are never spent. */
  ghost predicate Roomy(c: Context, functions: seq<RuntimeFunction>, limits: Limits) {
    var decodes := 2 * CodeBytes(functions) + c.layout.sizeOfImage;
    && CodeBytes(functions) <= limits.blockStarts
    && decodes <= limits.instructions && MAX_INSTRUCTION_BYTES * decodes <= limits.bytes
  }

  lemma RoomyIsNotSpent(c: Context, functions: seq<RuntimeFunction>, seeds: set<U32>, limits: Limits)
    requires CodeTargets.Valid(c) && Roomy(c, functions, limits)
    ensures !StartsSpent(c, functions, limits) && !DecodesSpent(c, functions, seeds, limits)
  {
    hide IsBlockStart, IsTask, CodeTargets.Valid, WorkBytes;
    forall starts: set<(nat, nat)> | forall x :: x in starts ==> IsBlockStart(c, functions, x)
      ensures |starts| <= limits.blockStarts
    {
      StartsAreFew(c, functions, starts);
    }
    forall work: Work | AreTasks(c, functions, seeds, work)
      ensures WorkBytes(work) <= limits.bytes && |work| <= limits.instructions
    {
      TasksAreFew(c, functions, seeds, work);
      forall k | k in work ensures work[k] <= MAX_INSTRUCTION_BYTES {
        TasksAreShort(c, functions, seeds, k, work[k]);
      }
      WorkBytesAreFew(work);
    }
  }
}
