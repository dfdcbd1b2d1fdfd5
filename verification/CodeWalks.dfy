/** What control reaches in a function, in terms of its code alone, and why whatever a sweep
    retains is reached. */
module CodeWalks {
  import opened Common
  import opened PeMap
  import opened RuntimeTargets
  import opened CodeTargets
  import opened CfgBlocks
  import opened Sweep

  /** The function lies wholly in backed executable code. */
  predicate IsBacked(c: Context, f: RuntimeFunction) {
    f.begin < f.end && BackedExecutable(c.layout, f.begin, f.end - f.begin)
  }

  function FunctionBytes(c: Context, f: RuntimeFunction): seq<Byte> {
    if f.begin < f.end && Offset(c.layout, f.begin, f.end - f.begin).Some? then
      var offset, size := Offset(c.layout, f.begin, f.end - f.begin).value, f.end - f.begin;
      if offset + size <= |c.file| then c.file[offset..offset + size] else []
    else []
  }

  function InstructionAt(c: Context, f: RuntimeFunction, at: nat): Instruction {
    DecodedAt(c, f, FunctionBytes(c, f), at)
  }

  function CallIn(c: Context, f: RuntimeFunction, at: nat): Option<Call> { CallAt(c, f, FunctionBytes(c, f), at) }

  function ReferenceIn(c: Context, f: RuntimeFunction, at: nat): Option<Reference> {
    ReferenceAt(c, f, FunctionBytes(c, f), at)
  }

  /** Some instruction is decoded at an address of the function. */
  predicate Decodes(c: Context, f: RuntimeFunction, at: nat) {
    f.begin <= at < f.end && InstructionAt(c, f, at).len > 0
  }

  /** From the instruction decoded at `a` control can go to `b`. */
  predicate Flows(c: Context, f: RuntimeFunction, a: nat, b: nat) {
    var i := InstructionAt(c, f, a);
    !i.invalid && ((GoesOn(FlowOf(c, i.action)) && a + i.len == b) || TargetOf(FlowOf(c, i.action)) == Some(b))
  }

  predicate CodeWalk(c: Context, f: RuntimeFunction, path: seq<nat>) {
    && path != [] && path[0] == f.begin
    && (forall k :: 0 <= k < |path| ==> Decodes(c, f, path[k]))
    && (forall k :: 0 < k < |path| ==> Flows(c, f, path[k - 1], path[k]))
  }

  /** Control reaches an address from the entry of its function without leaving the function. */
  ghost predicate Walked(c: Context, f: RuntimeFunction, at: nat) {
    exists path: seq<nat> :: CodeWalk(c, f, path) && path[|path| - 1] == at
  }

  // ----- what a sweep leaves behind -----

  datatype Exploration = Exploration(lengths: Lengths, recorder: Recorder, discovered: set<nat>)

  /** Cut off or not, a sweep retains instructions as the decoder reads them, each on a walk over
      recorded ones from the entry. */
  ghost predicate Traced(c: Context, f: RuntimeFunction, e: Exploration) {
    && Coheres(e.lengths, {}, e.discovered, e.recorder, f.begin, f.end)
    && Faithful(c, f, FunctionBytes(c, f), e.lengths, e.recorder)
  }

  lemma RetainedDecodes(c: Context, f: RuntimeFunction, e: Exploration, at: nat)
    requires Traced(c, f, e) && at in e.lengths
    ensures Decodes(c, f, at) && e.lengths[at] == InstructionAt(c, f, at).len
  {
    hide Coherent, Grounded;
  }

  /** A recorded instruction is retained, valid, and recorded with the flow it decodes to. */
  lemma RecordedIsDecoded(c: Context, f: RuntimeFunction, e: Exploration, a: nat)
    requires Traced(c, f, e) && a in e.recorder.instructions
    ensures var i := InstructionAt(c, f, a);
            a in e.lengths && !i.invalid && e.recorder.instructions[a] == Recorded(a + i.len, FlowOf(c, i.action))
  {
    hide Coheres;
  }

  /** Whatever was retained is reached by control, overlapping code or not. */
  lemma RetainedIsWalked(c: Context, f: RuntimeFunction, e: Exploration, at: nat)
    requires Traced(c, f, e) && at in e.lengths
    ensures Walked(c, f, at)
  {
    var s := e.recorder.instructions;
    assert Anchored(s, f.begin, at);
    hide Traced, Decodes, LeadsTo, Flows;
    var path :| IsWalk(s, path) && path[0] == f.begin && path[|path| - 1] == at;
    forall k | 0 <= k < |path| ensures Decodes(c, f, path[k]) {
      if k + 1 < |path| {
        assert LeadsTo(s, path[k + 1 - 1], path[k + 1]);
        LeadingFlows(c, f, e, path[k], path[k + 1]);
      }
      RetainedDecodes(c, f, e, path[k]);
    }
    forall k | 0 < k < |path| ensures Flows(c, f, path[k - 1], path[k]) {
      LeadingFlows(c, f, e, path[k - 1], path[k]);
    }
    assert CodeWalk(c, f, path);
  }

  lemma LeadingFlows(c: Context, f: RuntimeFunction, e: Exploration, a: nat, b: nat)
    requires Traced(c, f, e) && LeadsTo(e.recorder.instructions, a, b)
    ensures a in e.lengths && Flows(c, f, a, b)
  {
    RecordedIsDecoded(c, f, e, a);
    hide Traced;
  }

  // ----- block starts and decodes -----

  /** Control branches from an instruction it reaches to an address. */
  ghost predicate BranchesTo(c: Context, f: RuntimeFunction, a: nat, at: nat) {
    && Walked(c, f, a) && !InstructionAt(c, f, a).invalid
    && TargetOf(FlowOf(c, InstructionAt(c, f, a).action)) == Some(at)
  }

  /** A block starts at an address: it is the entry, or control branches to it. */
  ghost predicate Starts(c: Context, f: RuntimeFunction, at: nat) {
    f.begin <= at < f.end && (at == f.begin || exists a: nat :: BranchesTo(c, f, a, at))
  }

  /** Control goes on from an instruction it reaches to the one after it. */
  ghost predicate Continues(c: Context, f: RuntimeFunction, a: nat, at: nat) {
    && Walked(c, f, a) && !InstructionAt(c, f, a).invalid && GoesOn(FlowOf(c, InstructionAt(c, f, a).action))
    && at == a + InstructionAt(c, f, a).len < f.end
  }

  lemma ListedTargetStarts(c: Context, f: RuntimeFunction, e: Exploration, at: nat)
    requires Traced(c, f, e) && at in e.recorder.branchTargets
    ensures Starts(c, f, at)
  {
    TargetIsFlow(c, f, e, at);
    var a :| a in e.recorder.instructions && TargetOf(e.recorder.instructions[a].flow) == Some(at);
    RecordedIsDecoded(c, f, e, a);
    RetainedIsWalked(c, f, e, a);
    assert BranchesTo(c, f, a, at);
  }

  lemma TargetIsFlow(c: Context, f: RuntimeFunction, e: Exploration, at: nat)
    requires Traced(c, f, e) && at in e.recorder.branchTargets
    ensures f.begin <= at < f.end
    ensures exists a :: a in e.recorder.instructions && TargetOf(e.recorder.instructions[a].flow) == Some(at)
  {
    hide Faithful, Apart, Within, Grounded;
  }

  lemma DiscoveredStarts(c: Context, f: RuntimeFunction, e: Exploration, at: nat)
    requires Traced(c, f, e) && at in e.discovered
    ensures Starts(c, f, at)
  {
    DiscoveredIsListed(c, f, e, at);
    hide Traced, Starts;
    if at != f.begin { ListedTargetStarts(c, f, e, at); } else { EntryStarts(c, f); }
  }

  lemma DiscoveredIsListed(c: Context, f: RuntimeFunction, e: Exploration, at: nat)
    requires Traced(c, f, e) && at in e.discovered
    ensures f.begin <= at < f.end && (at == f.begin || at in e.recorder.branchTargets)
  {
    hide Faithful, Apart, Within, Grounded, Coherent;
  }

  lemma EntryStarts(c: Context, f: RuntimeFunction)
    requires f.begin < f.end
    ensures Starts(c, f, f.begin)
  {
  }

  lemma RecordedContinues(c: Context, f: RuntimeFunction, e: Exploration, a: nat)
    requires Traced(c, f, e) && a in e.recorder.instructions && GoesOn(e.recorder.instructions[a].flow)
    requires e.recorder.instructions[a].end < f.end
    ensures Continues(c, f, a, e.recorder.instructions[a].end)
  {
    RecordedIsDecoded(c, f, e, a);
    RetainedIsWalked(c, f, e, a);
  }
}
