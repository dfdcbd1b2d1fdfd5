/** What an uncut recovery finds, in terms of the code alone: the calls, references and graph of a
    function are those of the instructions that control reaches from its entry. And when a recovery
    is not cut off. */
module Completeness {
  import opened Common
  import opened PeMap
  import opened RuntimeTargets
  import opened CodeTargets
  import opened Retention
  import opened CfgBlocks
  import opened Sweep
  import opened Thunks
  import opened CodeWalks
  import opened Cutoffs
  import opened Recovery

  // ----- overlapping code -----

  /** Two instructions start at different addresses and share a byte. */
  predicate Overlap(c: Context, f: RuntimeFunction, a: nat, b: nat) {
    a < b < a + InstructionAt(c, f, a).len || b < a < b + InstructionAt(c, f, b).len
  }

  /** No instruction that control reaches overlaps the one at `at`. */
  ghost predicate Clear(c: Context, f: RuntimeFunction, at: nat) {
    forall b: nat {:trigger Walked(c, f, b)} :: Walked(c, f, b) ==> !Overlap(c, f, at, b)
  }

  /** No two instructions that control reaches overlap. */
  ghost predicate Unambiguous(c: Context, f: RuntimeFunction) {
    forall a: nat {:trigger Walked(c, f, a)} :: Walked(c, f, a) ==> Clear(c, f, a)
  }

  // ----- one exploration -----

  /** What a finished exploration keeps and leaves unexplored. */
  ghost predicate Finished(c: Context, f: RuntimeFunction, e: Exploration) {
    Traced(c, f, e) && Explored(c, f, FunctionBytes(c, f), e.lengths, e.recorder, e.discovered, {}, false, {})
  }

  /** A settled address was retained, unless code overlaps there. */
  lemma SettledIsRetained(c: Context, f: RuntimeFunction, e: Exploration, at: nat)
    requires Finished(c, f, e) && Clear(c, f, at) && Decodes(c, f, at)
    requires Settled(c, f, FunctionBytes(c, f), e.lengths, at)
    ensures at in e.lengths
  {
    hide Traced, Explored, Walked;
    if at !in e.lengths {
      if FullSearch(e.lengths, at) != Nowhere {
        var start :| Sweep.Covers(e.lengths, start, at);
        RetainedIsWalked(c, f, e, start);
        RetainedDecodes(c, f, e, start);
      } else {
        var x :| at < x < at + InstructionAt(c, f, at).len && x in e.lengths;
        RetainedIsWalked(c, f, e, x);
      }
    }
  }

  lemma PartIsBacked(c: Context, f: RuntimeFunction, at: nat)
    requires CodeTargets.Valid(c) && IsBacked(c, f) && f.begin <= at < f.end
    ensures BackedExecutable(c.layout, at, 1)
  {
    ExecutableDefinitionsAgree(c.layout, f.begin, f.end - f.begin);
    PartIsExecutable(c, f, at, 1);
    ExecutableDefinitionsAgree(c.layout, at, 1);
  }

  lemma EntryIsSettled(c: Context, f: RuntimeFunction, e: Exploration)
    requires Finished(c, f, e) && HasPointer(c, f.begin)
    ensures Settled(c, f, FunctionBytes(c, f), e.lengths, f.begin)
  {
    hide Traced, Settled;
  }

  /** A retained instruction that control leaves is recorded with its flow. */
  lemma LeftIsRecorded(c: Context, f: RuntimeFunction, e: Exploration, a: nat)
    requires Finished(c, f, e) && a in e.lengths && !InstructionAt(c, f, a).invalid
    ensures var i := InstructionAt(c, f, a);
            a in e.recorder.instructions && e.recorder.instructions[a] == Recorded(a + i.len, FlowOf(c, i.action))
  {
    hide Explored, Coheres;
  }

  lemma ContinuationIsSettled(c: Context, f: RuntimeFunction, e: Exploration, a: nat)
    requires Finished(c, f, e) && a in e.recorder.instructions && GoesOn(e.recorder.instructions[a].flow)
    ensures Settled(c, f, FunctionBytes(c, f), e.lengths, e.recorder.instructions[a].end)
  {
    hide Traced, Settled;
  }

  /** A branch target was resolved from a 64-bit address, so it has a pointer. */
  lemma TargetHasPointer(c: Context, f: RuntimeFunction, e: Exploration, b: nat)
    requires Traced(c, f, e) && b in e.recorder.branchTargets
    ensures HasPointer(c, b)
  {
    hide Traced, InstructionAt;
    TargetIsFlow(c, f, e, b);
    var a :| a in e.recorder.instructions && TargetOf(e.recorder.instructions[a].flow) == Some(b);
    RecordedIsDecoded(c, f, e, a);
  }

  lemma TargetIsSettled(c: Context, f: RuntimeFunction, e: Exploration, b: nat)
    requires CodeTargets.Valid(c) && IsBacked(c, f) && Finished(c, f, e) && b in e.recorder.branchTargets
    requires f.begin <= b < f.end
    ensures Settled(c, f, FunctionBytes(c, f), e.lengths, b)
  {
    hide Traced, Settled, BackedExecutable;
    PartIsBacked(c, f, b);
    TargetHasPointer(c, f, e, b);
    if FullSearch(e.lengths, b) != Nowhere { LocatedIsSettled(c, f, FunctionBytes(c, f), e.lengths, b); }
  }

  lemma TargetIsListed(c: Context, f: RuntimeFunction, e: Exploration, a: nat, b: nat)
    requires Finished(c, f, e) && a in e.recorder.instructions
    requires TargetOf(e.recorder.instructions[a].flow) == Some(b) && f.begin <= b < f.end
    ensures b in e.recorder.branchTargets
  {
    hide Explored, Faithful, Grounded, Apart, Within;
    assert IsTarget(e.recorder.instructions, b);
  }

  /** Control leaves a retained instruction only to settled addresses. */
  lemma NextIsSettled(c: Context, f: RuntimeFunction, e: Exploration, a: nat, b: nat)
    requires CodeTargets.Valid(c) && IsBacked(c, f) && Finished(c, f, e)
    requires a in e.lengths && Flows(c, f, a, b) && f.begin <= b < f.end
    ensures Settled(c, f, FunctionBytes(c, f), e.lengths, b)
  {
    hide Traced, Explored, IsBacked, Settled;
    LeftIsRecorded(c, f, e, a);
    if TargetOf(e.recorder.instructions[a].flow) == Some(b) {
      TargetIsListed(c, f, e, a, b);
      TargetIsSettled(c, f, e, b);
    } else {
      ContinuationIsSettled(c, f, e, a);
    }
  }

  lemma Prefix(c: Context, f: RuntimeFunction, path: seq<nat>, k: nat)
    requires CodeWalk(c, f, path) && k < |path|
    ensures CodeWalk(c, f, path[..k + 1]) && Walked(c, f, path[k])
  {
    hide Decodes, Flows;
    var part := path[..k + 1];
    forall i | 0 < i < |part| ensures Flows(c, f, part[i - 1], part[i]) {
      assert Flows(c, f, path[i - 1], path[i]);
    }
    assert part[|part| - 1] == path[k];
  }

  /** Every instruction of a walk without overlaps was retained, however the rest of the function
      overlaps. */
  lemma {:induction false} WalkIsRetained(c: Context, f: RuntimeFunction, e: Exploration, path: seq<nat>, k: nat)
    requires CodeTargets.Valid(c) && IsBacked(c, f) && Finished(c, f, e)
    requires HasPointer(c, f.begin) && CodeWalk(c, f, path) && k < |path|
    requires forall j :: 0 <= j <= k ==> Clear(c, f, path[j])
    ensures path[k] in e.lengths
  {
    hide Traced, Explored, Decodes, Flows, Settled, IsBacked, Clear;
    assert Decodes(c, f, path[k]) && Clear(c, f, path[k]);
    if k == 0 {
      EntryIsSettled(c, f, e);
    } else {
      WalkIsRetained(c, f, e, path, k - 1);
      DecodesWithin(c, f, path[k]);
      NextIsSettled(c, f, e, path[k - 1], path[k]);
    }
    SettledIsRetained(c, f, e, path[k]);
  }

  lemma DecodesWithin(c: Context, f: RuntimeFunction, at: nat)
    requires Decodes(c, f, at)
    ensures f.begin <= at < f.end
  {
  }

  lemma UnambiguousIsClear(c: Context, f: RuntimeFunction, path: seq<nat>)
    requires Unambiguous(c, f) && CodeWalk(c, f, path)
    ensures forall j :: 0 <= j < |path| ==> Clear(c, f, path[j])
  {
    hide Clear, CodeWalk, Walked;
    forall j | 0 <= j < |path| ensures Clear(c, f, path[j]) { Prefix(c, f, path, j); }
  }

  /** Decoding can start at the entry, or finds nothing there. */
  predicate Enterable(c: Context, f: RuntimeFunction) { HasPointer(c, f.begin) || !Decodes(c, f, f.begin) }

  /** An exploration retains exactly what control reaches. */
  ghost predicate RetainsWalked(c: Context, f: RuntimeFunction, e: Exploration) {
    forall at: nat {:trigger Walked(c, f, at)} :: at in e.lengths <==> Walked(c, f, at)
  }

  /** It does so if no code overlaps and the entry has a pointer. */
  lemma ExplorationIsExact(c: Context, f: RuntimeFunction, e: Exploration)
    requires CodeTargets.Valid(c) && IsBacked(c, f) && Finished(c, f, e) && Unambiguous(c, f) && Enterable(c, f)
    ensures RetainsWalked(c, f, e)
  {
    hide Traced, Explored, Unambiguous, IsBacked, Decodes, Flows, Clear;
    forall at: nat ensures at in e.lengths <==> Walked(c, f, at) {
      if at in e.lengths { RetainedIsWalked(c, f, e, at); }
      if Walked(c, f, at) {
        var path :| CodeWalk(c, f, path) && path[|path| - 1] == at;
        assert Decodes(c, f, path[0]);
        UnambiguousIsClear(c, f, path);
        WalkIsRetained(c, f, e, path, |path| - 1);
      }
    }
  }

  /** And only then: retained instructions never overlap, so overlapping code is never retained in
      full, and nothing is retained without a pointer at the entry. */
  lemma ExactOnlyIfUnambiguous(c: Context, f: RuntimeFunction, e: Exploration)
    requires Finished(c, f, e) && RetainsWalked(c, f, e)
    ensures Unambiguous(c, f) && Enterable(c, f)
  {
    hide Explored, Walked, Coheres, Decodes;
    forall a: nat, b: nat | Walked(c, f, a) && Walked(c, f, b) ensures !Overlap(c, f, a, b) {
      if Overlap(c, f, a, b) { OverlapIsNotRetained(c, f, e, a, b); }
    }
    if Decodes(c, f, f.begin) { EntryIsWalked(c, f); }
  }

  lemma RetainedApart(c: Context, f: RuntimeFunction, e: Exploration, a: nat, b: nat)
    requires Finished(c, f, e) && a in e.lengths && b in e.lengths
    ensures a < b ==> a + e.lengths[a] <= b
    ensures b < a ==> b + e.lengths[b] <= a
  {
    hide Explored, Faithful, Grounded, Coherent;
  }

  /** Of two overlapping instructions at most one is retained. */
  lemma OverlapIsNotRetained(c: Context, f: RuntimeFunction, e: Exploration, a: nat, b: nat)
    requires Finished(c, f, e) && Overlap(c, f, a, b)
    ensures a !in e.lengths || b !in e.lengths
  {
    hide Traced, Explored;
    if a in e.lengths { RetainedDecodes(c, f, e, a); }
    if b in e.lengths { RetainedDecodes(c, f, e, b); }
    if a in e.lengths && b in e.lengths { RetainedApart(c, f, e, a, b); }
  }

  // ----- a branch into an instruction -----

  /** Short conditional and unconditional jumps as x86-64 encodes them; anything else returns. */
  function ShortJumps(bytes: seq<Byte>, ip: U64): Instruction {
    if bytes == [] then Instruction(0, true, OtherCode, 0, false, false, 0, Stop(StopReturn))
    else if |bytes| >= 2 && (bytes[0] == 0x74 || bytes[0] == 0xeb) then
      var target := (ip + 2 + bytes[1] + if bytes[1] < 0x80 then 0 else TWO_64 - 0x100) % TWO_64;
      if bytes[0] == 0x74 then Instruction(2, false, OtherCode, target, false, false, 0, ConditionalTo(target))
      else Instruction(2, false, JmpRel8, target, false, false, 0, UnconditionalTo(target))
    else Instruction(1, false, OtherCode, 0, false, false, 0, Stop(StopReturn))
  }

  /** A file whose only section starts with 74 01 EB C3: the conditional jump skips the first byte
      of the two-byte jump behind it and lands on a return inside that jump. */
  function JumpInside(): Context {
    var file: seq<Byte> := seq(0x600, k requires 0 <= k < 0x600 =>
      if k == 0x400 then 0x74 else if k == 0x401 then 0x01 else if k == 0x402 then 0xeb
      else if k == 0x403 then 0xc3 else 0);
    Context(Layout(0x600, 0x2000, 0x400, [Section(0x1000, 0x200, 0x400, 0x200, false, true, true, false)]),
            file, 0x1_4000_0000, {}, Policy({}, []), ShortJumps)
  }

  const JUMP_INSIDE := RuntimeFunction(0x1000, 0x1004)

  lemma JumpInsideIsValid()
    ensures CodeTargets.Valid(JumpInside()) && IsBacked(JumpInside(), JUMP_INSIDE)
    ensures FunctionBytes(JumpInside(), JUMP_INSIDE) == [0x74, 0x01, 0xeb, 0xc3]
  {
    var c, f := JumpInside(), JUMP_INSIDE;
    var l := c.layout;
    assert SectionFits(l, l.sections[0]);
    assert SectionFor(l.sections, 0, 0x1000) == Some(0) && SectionFor(l.sections, 0, 0x1003) == Some(0);
    assert Offset(l, 0x1000, 4) == Some(0x400);
    assert c.file[0x400..0x404] == [0x74, 0x01, 0xeb, 0xc3];
  }

  lemma JumpInsideDecodes()
    ensures var c, f := JumpInside(), JUMP_INSIDE;
            && InstructionAt(c, f, 0x1000).len == 2 && !InstructionAt(c, f, 0x1000).invalid
            && InstructionAt(c, f, 0x1000).action == ConditionalTo(0x1_4000_1003)
            && InstructionAt(c, f, 0x1002).len == 2 && InstructionAt(c, f, 0x1003).len == 1
  {
    JumpInsideIsValid();
    var bytes: seq<Byte> := [0x74, 0x01, 0xeb, 0xc3];
    assert bytes[0..] == [0x74, 0x01, 0xeb, 0xc3] && bytes[2..] == [0xeb, 0xc3] && bytes[3..] == [0xc3];
  }

  /** Both paths through the branch are reached and overlap, so no exploration retains both:
      reachable code is lost, although nothing was cut off. */
  lemma OverlapIsLost(e: Exploration)
    ensures var c, f := JumpInside(), JUMP_INSIDE;
            && CodeTargets.Valid(c) && IsBacked(c, f) && HasPointer(c, f.begin)
            && Walked(c, f, 0x1002) && Walked(c, f, 0x1003) && Overlap(c, f, 0x1002, 0x1003)
            && (Finished(c, f, e) ==> 0x1002 !in e.lengths || 0x1003 !in e.lengths)
  {
    var c, f := JumpInside(), JUMP_INSIDE;
    JumpInsideIsValid();
    JumpInsideDecodes();
    hide InstructionAt, IsBacked, CodeTargets.Valid;
    assert VaToRva(c, 0x1_4000_1003) == Some(0x1003);
    assert Flows(c, f, 0x1000, 0x1002) && Flows(c, f, 0x1000, 0x1003);
    assert CodeWalk(c, f, [0x1000, 0x1002]) && CodeWalk(c, f, [0x1000, 0x1003]);
    hide Finished;
    if Finished(c, f, e) { OverlapIsNotRetained(c, f, e, 0x1002, 0x1003); }
  }

  // ----- the result -----

  /** The exploration behind a fully recovered function. */
  lemma ExplorationOf(c: Context, f: RuntimeFunction, r: Recovered) returns (e: Exploration, dropped: set<Reference>)
    requires FullyRecovered(c, f, r)
    ensures Finished(c, f, e) && Drawn(f, e.recorder, r.graphs, r.cfgTruncated)
    ensures CallsAccounted(c, f, FunctionBytes(c, f), e.lengths, r.calls, {})
    ensures ReferencesAccounted(c, f, FunctionBytes(c, f), e.lengths, r.references, dropped)
    ensures !r.dataTruncated ==> dropped == {}
  {
    hide Traced, Explored, CallsAccounted, ReferencesAccounted, Drawn;
    var kept: Kept;
    e, kept :| Explains(c, f, e, kept, r.graphs, r.cfgTruncated) && Shows(kept, r);
    dropped := kept.droppedReferences;
  }

  /** Nothing is invented: recovered calls and references stand at instructions control reaches. */
  lemma RecoveredIsWalked(c: Context, f: RuntimeFunction, r: Recovered)
    requires FullyRecovered(c, f, r)
    ensures forall x :: x in r.calls && x.caller == f.begin ==> Walked(c, f, x.site) && CallIn(c, f, x.site) == Some(x)
    ensures forall x :: x in r.references && x.caller == f.begin ==>
              Walked(c, f, x.site) && ReferenceIn(c, f, x.site) == Some(x)
  {
    hide FullyRecovered, Traced, Explored, Walked, CallAt, ReferenceAt;
    var e, _ := ExplorationOf(c, f, r);
    forall at | at in e.lengths ensures Walked(c, f, at) { RetainedIsWalked(c, f, e, at); }
  }

  /** Nothing is missed: the call at the end of a walk without overlaps is recovered, and so is the
      data reference there unless their cap was hit. */
  lemma WalkIsRecovered(c: Context, f: RuntimeFunction, r: Recovered, path: seq<nat>)
    requires CodeTargets.Valid(c) && IsBacked(c, f) && FullyRecovered(c, f, r) && HasPointer(c, f.begin)
    requires CodeWalk(c, f, path) && forall j :: 0 <= j < |path| ==> Clear(c, f, path[j])
    ensures var at := path[|path| - 1];
            && (CallIn(c, f, at).Some? ==> CallIn(c, f, at).value in r.calls)
            && (!r.dataTruncated && ReferenceIn(c, f, at).Some? ==> ReferenceIn(c, f, at).value in r.references)
  {
    hide FullyRecovered, Traced, Explored, Clear, IsBacked, Decodes, Flows, CallAt, ReferenceAt;
    var e, _ := ExplorationOf(c, f, r);
    WalkIsRetained(c, f, e, path, |path| - 1);
  }

  /** The calls recovered for a function are exactly those of the instructions control reaches. */
  lemma RecoveredCallsAreExact(c: Context, f: RuntimeFunction, r: Recovered, x: Call)
    requires CodeTargets.Valid(c) && IsBacked(c, f) && FullyRecovered(c, f, r)
    requires Unambiguous(c, f) && Enterable(c, f) && x.caller == f.begin
    ensures x in r.calls <==> Walked(c, f, x.site) && CallIn(c, f, x.site) == Some(x)
  {
    hide FullyRecovered, Traced, Explored, Unambiguous, IsBacked, Walked, CallAt;
    var e, _ := ExplorationOf(c, f, r);
    ExplorationIsExact(c, f, e);
  }

  /** So are the data references, unless their cap was hit. */
  lemma RecoveredReferencesAreExact(c: Context, f: RuntimeFunction, r: Recovered, x: Reference)
    requires CodeTargets.Valid(c) && IsBacked(c, f) && FullyRecovered(c, f, r) && !r.dataTruncated
    requires Unambiguous(c, f) && Enterable(c, f) && x.caller == f.begin
    ensures x in r.references <==> Walked(c, f, x.site) && ReferenceIn(c, f, x.site) == Some(x)
  {
    hide FullyRecovered, Traced, Explored, Unambiguous, IsBacked, Walked, ReferenceAt;
    var e, _ := ExplorationOf(c, f, r);
    ExplorationIsExact(c, f, e);
  }

  /** The stream of valid instructions that control reaches. */
  ghost predicate IsCode(c: Context, f: RuntimeFunction, s: Stream) {
    && (forall at: nat {:trigger Walked(c, f, at)} :: at in s <==> Walked(c, f, at) && !InstructionAt(c, f, at).invalid)
    && (forall at :: at in s ==>
          s[at] == Recorded(at + InstructionAt(c, f, at).len, FlowOf(c, InstructionAt(c, f, at).action)))
  }

  lemma StreamIsCode(c: Context, f: RuntimeFunction, e: Exploration)
    requires Finished(c, f, e) && RetainsWalked(c, f, e)
    ensures IsCode(c, f, e.recorder.instructions) && Coherent(e.recorder, f.begin, f.end)
  {
    hide Explored, Walked, Coherent, Grounded, Apart, Within;
    forall at: nat ensures at in e.recorder.instructions <==> Walked(c, f, at) && !InstructionAt(c, f, at).invalid {
      assert at in e.lengths <==> Walked(c, f, at);
    }
  }

  /** The graph of a function is the block graph of exactly the valid instructions control reaches. */
  lemma RecoveredGraphIsExact(c: Context, f: RuntimeFunction, r: Recovered) returns (recorder: Recorder, g: FunctionCfg)
    requires CodeTargets.Valid(c) && IsBacked(c, f) && FullyRecovered(c, f, r) && !r.cfgTruncated
    requires Unambiguous(c, f) && Enterable(c, f)
    requires Decodes(c, f, f.begin) && !InstructionAt(c, f, f.begin).invalid
    ensures IsCode(c, f, recorder.instructions) && Coherent(recorder, f.begin, f.end)
    ensures g in r.graphs && g.entry == f.begin && IsCfg(recorder, g, f.begin, f.end)
  {
    hide FullyRecovered, Traced, Explored, Unambiguous, IsBacked, Walked, Coherent, IsCfg, Decodes, Flows;
    var e, _ := ExplorationOf(c, f, r);
    ExplorationIsExact(c, f, e);
    StreamIsCode(c, f, e);
    recorder := e.recorder;
    EntryIsWalked(c, f);
    g :| g in r.graphs && IsCfg(recorder, g, f.begin, f.end);
    CfgHasBlocks(recorder, g, f.begin, f.end);
  }

  lemma EntryIsWalked(c: Context, f: RuntimeFunction)
    requires Decodes(c, f, f.begin)
    ensures Walked(c, f, f.begin)
  {
    assert CodeWalk(c, f, [f.begin]);
  }

  // ----- when a recovery is not cut off -----

  /** Every instruction has bytes, and pointer-relative calls are relative to RIP. */
  ghost predicate Regular(decode: Decoder) {
    forall bytes: seq<Byte>, ip: U64 {:trigger decode(bytes, ip)} ::
      var i := decode(bytes, ip);
      (bytes != [] ==> i.len > 0) && (i.code.CallRm64? && i.ipRelative ==> i.ripBase)
  }

  lemma RegularPairsCalls(c: Context, functions: seq<RuntimeFunction>, x: Call)
    requires Regular(c.decode)
    ensures !LacksReference(c, functions, x)
  {
    hide BackedExecutable, FunctionBytes, Walked, FunctionLike;
  }

  lemma RegularDecodesCandidates(c: Context, rva: U32)
    requires CodeTargets.Valid(c) && Regular(c.decode) && IsDecoded(c, rva)
    ensures CandidateInstruction(c, rva).len > 0
  {
    ContiguousIsMaximal(c.layout, rva, 1);
  }

  /** The results stay under every cap. */
  predicate UnderCaps(limits: Limits, r: Recovered) {
    |r.calls| < limits.calls && |r.references| < limits.references && |r.thunks| < limits.thunks
  }

  /** With a regular decoder and budgets that cover the code, a recovery that stays under its caps is
      not cut off. */
  lemma RoomyIsUncut(c: Context, m: Metadata, limits: Limits, r: Recovered)
    requires CodeTargets.Valid(c) && Regular(c.decode) && CutsHaveCauses(c, m, limits, r)
    requires Roomy(c, m.functions, limits) && UnderCaps(limits, r)
    ensures !r.scanTruncated && !r.dataTruncated
    ensures r.cfgTruncated ==> GraphLost(c, m.functions, limits.blocks, r.graphs)
  {
    hide CodeTargets.Valid, Regular, Roomy, StartsSpent, DecodesSpent, GraphLost, CallOccurs, ReferenceOccurs,
      LacksReference, ThunkSeeds, CandidateInstruction;
    var seeds := ThunkSeeds(c, m, r.calls);
    RoomyIsNotSpent(c, m.functions, seeds, limits);
    RoomyIsNotSpent(c, m.functions, {}, limits);
    forall x ensures !LacksReference(c, m.functions, x) { RegularPairsCalls(c, m.functions, x); }
    forall rva: U32 | IsDecoded(c, rva) ensures CandidateInstruction(c, rva).len > 0 {
      RegularDecodesCandidates(c, rva);
    }
  }
}
