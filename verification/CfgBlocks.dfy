/** Basic blocks from a recorded instruction stream, and why the block graph has exactly the
    paths of the instructions. */
module CfgBlocks {
  import opened Common

  datatype Flow =
    | Continue
    | Conditional(target: Option<nat>)
    | Unconditional(target: Option<nat>)
    | Return
    | Indirect
    | Terminal

  predicate EndsBlock(flow: Flow) { !flow.Continue? }

  function TargetOf(flow: Flow): Option<nat> {
    match flow
    case Conditional(target) => target
    case Unconditional(target) => target
    case _ => None
  }

  datatype Recorded = Recorded(end: nat, flow: Flow)

  type Stream = map<nat, Recorded>

  datatype Recorder = Recorder(instructions: Stream, branchTargets: set<nat>)

  datatype EdgeKind = FallThroughEdge | TakenEdge | NotTakenEdge | BranchEdge | CallEdge

  datatype CfgEdge = CfgEdge(kind: EdgeKind, target: Option<nat>)

  /** Recovery never ends a block with a call; the graph validator accepts one that does. */
  datatype Terminator =
    | ConditionalBranch | UnconditionalBranch | ReturnEnd | IndirectBranch | CallEnd | Invalid | FallThrough

  datatype BasicBlock = BasicBlock(start: nat, end: nat, terminator: Terminator, successors: seq<CfgEdge>)

  datatype FunctionCfg = FunctionCfg(entry: nat, blocks: seq<BasicBlock>)

  // ----- recording -----

  function Record(r: Recorder, begin: nat, end: nat, rva: nat, instructionEnd: nat, flow: Flow): Recorder {
    var t := TargetOf(flow);
    Recorder(r.instructions[rva := Recorded(instructionEnd, flow)],
             if t.Some? && begin <= t.value < end then r.branchTargets + {t.value} else r.branchTargets)
  }

  /** Instructions lie in the function and never overlap. */
  ghost predicate Stream?(s: Stream, begin: nat, end: nat) {
    && (forall i :: i in s ==> begin <= i < s[i].end <= end)
    && (forall i, j :: i in s && j in s && i < j ==> s[i].end <= j)
  }

  ghost predicate IsTarget(s: Stream, t: nat) { exists i :: i in s && TargetOf(s[i].flow) == Some(t) }

  ghost predicate IsNext(s: Stream, i: nat) { exists p :: p in s && s[p].end == i }

  /** The branch targets are the in-range targets of the recorded branches. */
  ghost predicate TargetsMatch(r: Recorder, begin: nat, end: nat) {
    forall t: nat :: t in r.branchTargets <==> begin <= t < end && IsTarget(r.instructions, t)
  }

  /** An instruction was reached as the entry, by a branch, or from the instruction before it. */
  ghost predicate Reached(r: Recorder, begin: nat, i: nat) {
    i == begin || i in r.branchTargets || IsNext(r.instructions, i)
  }

  /** What every sweep leaves in its recorder. */
  ghost predicate Coherent(r: Recorder, begin: nat, end: nat) {
    && Stream?(r.instructions, begin, end)
    && TargetsMatch(r, begin, end)
    && (forall i: nat {:trigger Reached(r, begin, i)} :: i in r.instructions ==> Reached(r, begin, i))
    && (r.instructions.Keys != {} ==> begin in r.instructions)
  }

  lemma RecordKeepsStream(r: Recorder, begin: nat, end: nat, rva: nat, instructionEnd: nat, flow: Flow)
    requires Stream?(r.instructions, begin, end) && begin <= rva < instructionEnd <= end
    requires forall i :: i in r.instructions ==> r.instructions[i].end <= rva || instructionEnd <= i
    ensures Stream?(Record(r, begin, end, rva, instructionEnd, flow).instructions, begin, end)
  {
  }

  lemma RecordAddsTarget(s: Stream, rva: nat, recorded: Recorded, t: nat)
    requires rva !in s
    ensures IsTarget(s[rva := recorded], t) <==> IsTarget(s, t) || TargetOf(recorded.flow) == Some(t)
  {
    var after := s[rva := recorded];
    if IsTarget(s, t) {
      var i :| i in s && TargetOf(s[i].flow) == Some(t);
      assert i in after && after[i] == s[i];
    }
    assert rva in after && after[rva] == recorded;
  }

  lemma RecordKeepsTargets(r: Recorder, begin: nat, end: nat, rva: nat, instructionEnd: nat, flow: Flow)
    requires TargetsMatch(r, begin, end) && rva !in r.instructions
    ensures TargetsMatch(Record(r, begin, end, rva, instructionEnd, flow), begin, end)
  {
    forall t: nat ensures IsTarget(r.instructions[rva := Recorded(instructionEnd, flow)], t)
                <==> IsTarget(r.instructions, t) || TargetOf(flow) == Some(t)
    {
      RecordAddsTarget(r.instructions, rva, Recorded(instructionEnd, flow), t);
    }
  }

  lemma RecordKeepsReached(r: Recorder, begin: nat, end: nat, rva: nat, instructionEnd: nat, flow: Flow, i: nat)
    requires rva !in r.instructions && Reached(r, begin, i)
    ensures Reached(Record(r, begin, end, rva, instructionEnd, flow), begin, i)
  {
    if IsNext(r.instructions, i) {
      var p :| p in r.instructions && r.instructions[p].end == i;
      var after := Record(r, begin, end, rva, instructionEnd, flow);
      assert p in after.instructions && after.instructions[p] == r.instructions[p];
    }
  }

  /** Recording an instruction that overlaps nothing keeps the recorder coherent. */
  lemma RecordKeepsCoherent(r: Recorder, begin: nat, end: nat, rva: nat, instructionEnd: nat, flow: Flow)
    requires Coherent(r, begin, end) && begin <= rva < instructionEnd <= end
    requires rva !in r.instructions
    requires forall i :: i in r.instructions ==> r.instructions[i].end <= rva || instructionEnd <= i
    requires Reached(r, begin, rva) && (r.instructions.Keys == {} ==> rva == begin)
    ensures Coherent(Record(r, begin, end, rva, instructionEnd, flow), begin, end)
  {
    RecordKeepsStream(r, begin, end, rva, instructionEnd, flow);
    RecordKeepsTargets(r, begin, end, rva, instructionEnd, flow);
    forall i | i in Record(r, begin, end, rva, instructionEnd, flow).instructions
      ensures Reached(Record(r, begin, end, rva, instructionEnd, flow), begin, i)
    {
      RecordKeepsReached(r, begin, end, rva, instructionEnd, flow, i);
    }
  }

  // ----- splitting into blocks -----

  function Leaders(r: Recorder, begin: nat): set<nat> {
    {begin}
    + (set t | t in r.branchTargets && t in r.instructions)
    + (set i | i in r.instructions && EndsBlock(r.instructions[i].flow) && r.instructions[i].end in r.instructions ::
         r.instructions[i].end)
  }

  /** The walk goes on past `at` without closing the block. */
  predicate Passes(s: Stream, leaders: set<nat>, at: nat) {
    at in s && !EndsBlock(s[at].flow) && s[at].end in s && s[at].end !in leaders
  }

  /** The last instruction of the block that starts at `at`. */
  function Last(s: Stream, leaders: set<nat>, at: nat, ghost begin: nat, ghost end: nat): (last: nat)
    requires Stream?(s, begin, end) && at in s
    ensures at <= last && last in s && !Passes(s, leaders, last)
    decreases end - at
  {
    if Passes(s, leaders, at) then Last(s, leaders, s[at].end, begin, end) else at
  }

  function FallThroughBlock(start: nat, end: nat): BasicBlock {
    BasicBlock(start, end, FallThrough, [CfgEdge(FallThroughEdge, Some(end))])
  }

  function TerminatedBlock(start: nat, last: Recorded): BasicBlock {
    match last.flow
    case Conditional(target) =>
      BasicBlock(start, last.end, ConditionalBranch,
                 [CfgEdge(TakenEdge, target), CfgEdge(NotTakenEdge, Some(last.end))])
    case Unconditional(target) => BasicBlock(start, last.end, UnconditionalBranch, [CfgEdge(BranchEdge, target)])
    case Return => BasicBlock(start, last.end, ReturnEnd, [])
    case Indirect => BasicBlock(start, last.end, IndirectBranch, [])
    case Terminal => BasicBlock(start, last.end, Invalid, [])
    case Continue => BasicBlock(start, last.end, FallThrough, [])
  }

  function BlockAt(s: Stream, leaders: set<nat>, leader: nat, ghost begin: nat, ghost end: nat): BasicBlock
    requires Stream?(s, begin, end) && leader in s
  {
    var last := s[Last(s, leaders, leader, begin, end)];
    if EndsBlock(last.flow) then TerminatedBlock(leader, last) else FallThroughBlock(leader, last.end)
  }

  /** Follow the stream from one leader until its block closes. */
  method CloseBlock(s: Stream, leaders: set<nat>, leader: nat, ghost begin: nat, ghost end: nat) returns (b: BasicBlock)
    requires Stream?(s, begin, end) && leader in s
    ensures b == BlockAt(s, leaders, leader, begin, end)
  {
    var cursor := leader;
    while cursor in s
      invariant cursor in s ==> Last(s, leaders, cursor, begin, end) == Last(s, leaders, leader, begin, end)
      invariant cursor !in s ==>
                  var last := s[Last(s, leaders, leader, begin, end)]; !EndsBlock(last.flow) && last.end == cursor
      decreases end - cursor, cursor in s
    {
      var instruction := s[cursor];
      if EndsBlock(instruction.flow) { return TerminatedBlock(leader, instruction); }
      if instruction.end in leaders { return FallThroughBlock(leader, instruction.end); }
      cursor := instruction.end;
    }
    b := FallThroughBlock(leader, cursor);
  }

  /** One block for each leader, ascending, each the walk from its leader. */
  ghost predicate IsCfg(r: Recorder, cfg: FunctionCfg, begin: nat, end: nat) {
    var s, leaders, blocks := r.instructions, Leaders(r, begin), cfg.blocks;
    && Stream?(s, begin, end) && cfg.entry == begin && begin in s
    && (forall k :: 0 <= k < |blocks| ==>
          && blocks[k].start in leaders && blocks[k].start in s
          && blocks[k] == BlockAt(s, leaders, blocks[k].start, begin, end))
    && (forall x :: x in leaders ==> IsStart(blocks, x))
    && (forall i, j :: 0 <= i < j < |blocks| ==> blocks[i].start < blocks[j].start)
  }

  predicate IsStart(blocks: seq<BasicBlock>, x: nat) { exists k :: 0 <= k < |blocks| && blocks[k].start == x }

  /** The blocks of the first leaders in order. */
  ghost predicate Closed(
    s: Stream, leaders: set<nat>, order: seq<nat>, blocks: seq<BasicBlock>, begin: nat, end: nat)
    requires Stream?(s, begin, end) && |blocks| <= |order|
  {
    forall i :: 0 <= i < |blocks| ==>
      order[i] in s && blocks[i].start == order[i] && blocks[i] == BlockAt(s, leaders, order[i], begin, end)
  }

  lemma LeadersAreRecorded(r: Recorder, begin: nat)
    requires begin in r.instructions
    ensures forall x :: x in Leaders(r, begin) ==> x in r.instructions
  {
  }

  lemma ClosedIsCfg(r: Recorder, order: seq<nat>, blocks: seq<BasicBlock>, begin: nat, end: nat)
    requires Stream?(r.instructions, begin, end) && begin in r.instructions && |blocks| == |order|
    requires Ascending(order) && forall x :: x in order <==> x in Leaders(r, begin)
    requires Closed(r.instructions, Leaders(r, begin), order, blocks, begin, end)
    ensures IsCfg(r, FunctionCfg(begin, blocks), begin, end)
  {
    hide Leaders, BlockAt, Stream?;
    forall x | x in Leaders(r, begin) ensures IsStart(blocks, x) {
      var k :| 0 <= k < |order| && order[k] == x;
      assert blocks[k].start == x;
    }
  }

  lemma ClosedOneMore(
    s: Stream, leaders: set<nat>, order: seq<nat>, blocks: seq<BasicBlock>, b: BasicBlock, begin: nat, end: nat)
    requires Stream?(s, begin, end) && |blocks| < |order| && Closed(s, leaders, order, blocks, begin, end)
    requires order[|blocks|] in s && b == BlockAt(s, leaders, order[|blocks|], begin, end)
    ensures Closed(s, leaders, order, blocks + [b], begin, end)
  {
    hide Last, Passes;
  }

  /** Split the recorded stream. */
  method Finish(r: Recorder, begin: nat, ghost end: nat) returns (cfg: Option<FunctionCfg>)
    requires Stream?(r.instructions, begin, end)
    ensures cfg.None? <==> begin !in r.instructions
    ensures cfg.Some? ==> IsCfg(r, cfg.value, begin, end)
  {
    hide Leaders, BlockAt, IsCfg, Closed, Stream?, Ascending;
    if begin !in r.instructions { return None; }
    var leaders := Leaders(r, begin);
    LeadersAreRecorded(r, begin);
    var order := InOrder(leaders);
    var blocks: seq<BasicBlock> := [];
    NothingClosed(r.instructions, leaders, order, begin, end);
    for k := 0 to |order|
      invariant |blocks| == k && Closed(r.instructions, leaders, order, blocks, begin, end)
    {
      assert order[k] in leaders;
      var b := CloseBlock(r.instructions, leaders, order[k], begin, end);
      ClosedOneMore(r.instructions, leaders, order, blocks, b, begin, end);
      blocks := blocks + [b];
    }
    ClosedIsCfg(r, order, blocks, begin, end);
    cfg := Some(FunctionCfg(begin, blocks));
  }

  lemma NothingClosed(s: Stream, leaders: set<nat>, order: seq<nat>, begin: nat, end: nat)
    requires Stream?(s, begin, end)
    ensures Closed(s, leaders, order, [], begin, end)
  {
  }

  // ----- blocks partition the instructions -----

  /** The walk from `from` visits `i`. */
  ghost predicate OnChain(s: Stream, leaders: set<nat>, from: nat, i: nat, begin: nat, end: nat)
    requires Stream?(s, begin, end) && from in s
    decreases end - from
  {
    from == i || (Passes(s, leaders, from) && OnChain(s, leaders, s[from].end, i, begin, end))
  }

  /** A visited instruction lies ahead, shares the walk's end, and no leader is visited midway. */
  lemma {:induction false} ChainFacts(s: Stream, leaders: set<nat>, from: nat, i: nat, begin: nat, end: nat)
    requires Stream?(s, begin, end) && from in s && OnChain(s, leaders, from, i, begin, end)
    ensures i in s && from <= i && Last(s, leaders, i, begin, end) == Last(s, leaders, from, begin, end)
    ensures i != from ==> i !in leaders
    decreases end - from
  {
    if from != i { ChainFacts(s, leaders, s[from].end, i, begin, end); }
  }

  /** The walk visits exactly the recorded instructions of its address range. */
  lemma {:induction false} ChainIsRange(s: Stream, leaders: set<nat>, from: nat, i: nat, begin: nat, end: nat)
    requires Stream?(s, begin, end) && from in s
    ensures OnChain(s, leaders, from, i, begin, end) <==>
              i in s && from <= i < s[Last(s, leaders, from, begin, end)].end
    decreases end - from
  {
    if OnChain(s, leaders, from, i, begin, end) {
      ChainFacts(s, leaders, from, i, begin, end);
      assert i <= Last(s, leaders, i, begin, end);
    }
    if from != i && Passes(s, leaders, from) { ChainIsRange(s, leaders, s[from].end, i, begin, end); }
  }

  /** A visited instruction that passes leads to the next visited one. */
  lemma {:induction false} ChainExtends(s: Stream, leaders: set<nat>, from: nat, i: nat, begin: nat, end: nat)
    requires Stream?(s, begin, end) && from in s && OnChain(s, leaders, from, i, begin, end) && Passes(s, leaders, i)
    ensures OnChain(s, leaders, from, s[i].end, begin, end)
    decreases end - from
  {
    if from != i { ChainExtends(s, leaders, s[from].end, i, begin, end); }
  }

  lemma BlockBounds(s: Stream, leaders: set<nat>, leader: nat, begin: nat, end: nat)
    requires Stream?(s, begin, end) && leader in s
    ensures var b := BlockAt(s, leaders, leader, begin, end);
            b.start == leader < b.end <= end && b.end == s[Last(s, leaders, leader, begin, end)].end
  {
  }

  /** Blocks are ascending and disjoint. */
  lemma BlocksAreDisjoint(r: Recorder, cfg: FunctionCfg, begin: nat, end: nat, i: nat, j: nat)
    requires IsCfg(r, cfg, begin, end) && i < j < |cfg.blocks|
    ensures cfg.blocks[i].start < cfg.blocks[i].end <= cfg.blocks[j].start
  {
    var s, leaders, a, b := r.instructions, Leaders(r, begin), cfg.blocks[i].start, cfg.blocks[j].start;
    BlockBounds(s, leaders, a, begin, end);
    ChainIsRange(s, leaders, a, b, begin, end);
    if OnChain(s, leaders, a, b, begin, end) { ChainFacts(s, leaders, a, b, begin, end); }
  }

  /** Every address from `from` up to `to` belongs to a recorded instruction. */
  predicate Tiles(s: Stream, from: nat, to: nat)
    decreases to - from
  {
    from == to || (from in s && from < s[from].end <= to && Tiles(s, s[from].end, to))
  }

  lemma {:induction false} WalkTiles(s: Stream, leaders: set<nat>, from: nat, begin: nat, end: nat)
    requires Stream?(s, begin, end) && from in s
    ensures Tiles(s, from, s[Last(s, leaders, from, begin, end)].end)
    decreases end - from
  {
    if Passes(s, leaders, from) {
      WalkTiles(s, leaders, s[from].end, begin, end);
    }
  }

  lemma {:induction false} LeaderOf(r: Recorder, begin: nat, end: nat, i: nat) returns (leader: nat)
    requires Coherent(r, begin, end) && i in r.instructions
    ensures leader in Leaders(r, begin) && leader in r.instructions
    ensures OnChain(r.instructions, Leaders(r, begin), leader, i, begin, end)
    decreases i
  {
    var s, leaders := r.instructions, Leaders(r, begin);
    if i in leaders { return i; }
    assert Reached(r, begin, i);
    var p :| p in s && s[p].end == i;
    leader := LeaderOf(r, begin, end, p);
    assert Passes(s, leaders, p);
    ChainExtends(s, leaders, leader, p, begin, end);
  }

  predicate InBlock(b: BasicBlock, i: nat) { b.start <= i < b.end }

  lemma SomeBlockHolds(r: Recorder, cfg: FunctionCfg, begin: nat, end: nat, i: nat) returns (k: nat)
    requires Coherent(r, begin, end) && IsCfg(r, cfg, begin, end) && i in r.instructions
    ensures k < |cfg.blocks| && InBlock(cfg.blocks[k], i)
    ensures OnChain(r.instructions, Leaders(r, begin), cfg.blocks[k].start, i, begin, end)
  {
    var leader := LeaderOf(r, begin, end, i);
    ChainIsRange(r.instructions, Leaders(r, begin), leader, i, begin, end);
    BlockBounds(r.instructions, Leaders(r, begin), leader, begin, end);
    assert IsStart(cfg.blocks, leader);
    k :| 0 <= k < |cfg.blocks| && cfg.blocks[k].start == leader;
  }

  /** Ascending, disjoint blocks that hold every instruction and consist of nothing else. */
  ghost predicate Partition(s: Stream, blocks: seq<BasicBlock>) {
    && (forall k, l :: 0 <= k < l < |blocks| ==> blocks[k].end <= blocks[l].start)
    && (forall i :: i in s ==> exists k :: 0 <= k < |blocks| && InBlock(blocks[k], i))
    && (forall k :: 0 <= k < |blocks| ==> Tiles(s, blocks[k].start, blocks[k].end))
  }

  lemma BlocksPartition(r: Recorder, cfg: FunctionCfg, begin: nat, end: nat)
    requires Coherent(r, begin, end) && IsCfg(r, cfg, begin, end)
    ensures Partition(r.instructions, cfg.blocks)
  {
    forall k, l | 0 <= k < l < |cfg.blocks| ensures cfg.blocks[k].end <= cfg.blocks[l].start {
      BlocksAreDisjoint(r, cfg, begin, end, k, l);
    }
    forall i | i in r.instructions ensures exists k :: 0 <= k < |cfg.blocks| && InBlock(cfg.blocks[k], i) {
      var k := SomeBlockHolds(r, cfg, begin, end, i);
    }
    forall k | 0 <= k < |cfg.blocks| ensures Tiles(r.instructions, cfg.blocks[k].start, cfg.blocks[k].end) {
      BlockTiles(r, cfg, begin, end, k);
    }
  }

  lemma BlockTiles(r: Recorder, cfg: FunctionCfg, begin: nat, end: nat, k: nat)
    requires IsCfg(r, cfg, begin, end) && k < |cfg.blocks|
    ensures Tiles(r.instructions, cfg.blocks[k].start, cfg.blocks[k].end)
  {
    WalkTiles(r.instructions, Leaders(r, begin), cfg.blocks[k].start, begin, end);
    BlockBounds(r.instructions, Leaders(r, begin), cfg.blocks[k].start, begin, end);
  }

  // ----- paths -----

  function Recorded?(s: Stream, target: Option<nat>): Option<nat> {
    if target.Some? && target.value in s then target else None
  }

  /** The recorded instruction that control reaches from `i` along one kind of edge. */
  function InstructionStep(s: Stream, i: nat, kind: EdgeKind): Option<nat> {
    if i !in s then None
    else
      match (s[i].flow, kind)
      case (Continue, FallThroughEdge) => Recorded?(s, Some(s[i].end))
      case (Conditional(target), TakenEdge) => Recorded?(s, target)
      case (Conditional(_), NotTakenEdge) => Recorded?(s, Some(s[i].end))
      case (Unconditional(target), BranchEdge) => Recorded?(s, target)
      case _ => None
  }

  function EdgeTarget(successors: seq<CfgEdge>, kind: EdgeKind): Option<nat> {
    if successors == [] then None
    else if successors[0].kind == kind then successors[0].target
    else EdgeTarget(successors[1..], kind)
  }

  /** The block that control reaches from the block at `start` along one kind of edge. */
  ghost function BlockStep(blocks: seq<BasicBlock>, start: nat, kind: EdgeKind): Option<nat> {
    if IsStart(blocks, start) then
      var k :| 0 <= k < |blocks| && blocks[k].start == start;
      var target := EdgeTarget(blocks[k].successors, kind);
      if target.Some? && IsStart(blocks, target.value) then target else None
    else None
  }

  /** Every recorded target of the last instruction of a block is a leader. */
  lemma TargetsAreLeaders(r: Recorder, begin: nat, end: nat, i: nat, kind: EdgeKind)
    requires Coherent(r, begin, end) && i in r.instructions && !Passes(r.instructions, Leaders(r, begin), i)
    requires InstructionStep(r.instructions, i, kind).Some?
    ensures InstructionStep(r.instructions, i, kind).value in Leaders(r, begin)
  {
    var t := InstructionStep(r.instructions, i, kind).value;
    if TargetOf(r.instructions[i].flow) == Some(t) {
      assert begin <= t < end && IsTarget(r.instructions, t);
    }
  }

  /** A block's edges lead to the branch target or the end of its last instruction. */
  lemma EdgesOfLast(s: Stream, leaders: set<nat>, start: nat, begin: nat, end: nat, e: CfgEdge)
    requires Stream?(s, begin, end) && start in s && e in BlockAt(s, leaders, start, begin, end).successors
    ensures var last := s[Last(s, leaders, start, begin, end)];
            e.target == TargetOf(last.flow) || e.target == Some(last.end)
  {
  }

  lemma RecordedTargetsLead(r: Recorder, begin: nat, end: nat, i: nat, t: nat)
    requires Coherent(r, begin, end) && i in r.instructions && !Passes(r.instructions, Leaders(r, begin), i)
    requires t in r.instructions && (TargetOf(r.instructions[i].flow) == Some(t) || t == r.instructions[i].end)
    ensures t in Leaders(r, begin)
  {
    if TargetOf(r.instructions[i].flow) == Some(t) {
      assert begin <= t < end && IsTarget(r.instructions, t);
    }
  }

  /** Every published edge into a recorded instruction leads to a block start. */
  lemma EdgeTargetsAreStarts(r: Recorder, cfg: FunctionCfg, begin: nat, end: nat, k: nat, e: CfgEdge)
    requires Coherent(r, begin, end) && IsCfg(r, cfg, begin, end)
    requires k < |cfg.blocks| && e in cfg.blocks[k].successors
    requires e.target.Some? && e.target.value in r.instructions
    ensures IsStart(cfg.blocks, e.target.value)
  {
    EdgesOfLast(r.instructions, Leaders(r, begin), cfg.blocks[k].start, begin, end, e);
    var last := Last(r.instructions, Leaders(r, begin), cfg.blocks[k].start, begin, end);
    RecordedTargetsLead(r, begin, end, last, e.target.value);
  }

  /** Leaving a block along an edge is leaving its last instruction along that edge. */
  lemma BlockStepIsLastStep(r: Recorder, cfg: FunctionCfg, begin: nat, end: nat, start: nat, kind: EdgeKind)
    requires Coherent(r, begin, end) && IsCfg(r, cfg, begin, end) && start in Leaders(r, begin)
    requires start in r.instructions
    ensures BlockStep(cfg.blocks, start, kind)
         == InstructionStep(r.instructions, Last(r.instructions, Leaders(r, begin), start, begin, end), kind)
  {
    var s, leaders := r.instructions, Leaders(r, begin);
    var last := Last(s, leaders, start, begin, end);
    PublishedEdges(r, cfg, begin, end, start, kind);
    EdgesOfBlock(s, leaders, start, begin, end, kind);
    if InstructionStep(s, last, kind).Some? { TargetsAreLeaders(r, begin, end, last, kind); }
  }

  /** The block graph is the walk's edges, kept where they lead to a leader. */
  lemma PublishedEdges(r: Recorder, cfg: FunctionCfg, begin: nat, end: nat, start: nat, kind: EdgeKind)
    requires IsCfg(r, cfg, begin, end) && start in Leaders(r, begin) && start in r.instructions
    ensures var leaders := Leaders(r, begin);
            var target := EdgeTarget(BlockAt(r.instructions, leaders, start, begin, end).successors, kind);
            BlockStep(cfg.blocks, start, kind) == if target.Some? && target.value in leaders then target else None
    ensures forall x :: x in Leaders(r, begin) ==> x in r.instructions
  {
    StartsAreLeaders(r, cfg, begin, end);
    assert IsStart(cfg.blocks, start);
    var k :| 0 <= k < |cfg.blocks| && cfg.blocks[k].start == start;
    StartsAreUnique(cfg.blocks, k);
    assert cfg.blocks[k] == BlockAt(r.instructions, Leaders(r, begin), start, begin, end);
  }

  lemma StartsAreUnique(blocks: seq<BasicBlock>, k: nat)
    requires k < |blocks| && forall i, j :: 0 <= i < j < |blocks| ==> blocks[i].start < blocks[j].start
    ensures forall l :: 0 <= l < |blocks| && blocks[l].start == blocks[k].start ==> l == k
  {
  }

  lemma StartsAreLeaders(r: Recorder, cfg: FunctionCfg, begin: nat, end: nat)
    requires IsCfg(r, cfg, begin, end)
    ensures forall x :: IsStart(cfg.blocks, x) <==> x in Leaders(r, begin)
    ensures Stream?(r.instructions, begin, end) && forall x :: x in Leaders(r, begin) ==> x in r.instructions
  {
  }

  lemma EdgesOfBlock(s: Stream, leaders: set<nat>, start: nat, begin: nat, end: nat, kind: EdgeKind)
    requires Stream?(s, begin, end) && start in s
    ensures var last := Last(s, leaders, start, begin, end);
            InstructionStep(s, last, kind) ==
              Recorded?(s, EdgeTarget(BlockAt(s, leaders, start, begin, end).successors, kind))
  {
    var successors := BlockAt(s, leaders, start, begin, end).successors;
    if |successors| == 1 { assert successors == [successors[0]]; }
    if |successors| == 2 { assert successors[1..] == [successors[1]]; }
    forall e: CfgEdge ensures EdgeTarget([e], kind) == if e.kind == kind then e.target else None {
      assert [e][1..] == [];
    }
  }

  /** Where a sequence of edge kinds leads, instruction by instruction. */
  function InstructionRun(s: Stream, i: nat, kinds: seq<EdgeKind>): Option<nat>
    decreases |kinds|
  {
    if kinds == [] then Some(i)
    else
      match InstructionStep(s, i, kinds[0])
      case None => None
      case Some(next) => InstructionRun(s, next, kinds[1..])
  }

  /** Where a sequence of edge kinds leads, block by block. */
  ghost function BlockRun(blocks: seq<BasicBlock>, start: nat, kinds: seq<EdgeKind>): Option<nat>
    decreases |kinds|
  {
    if kinds == [] then Some(start)
    else
      match BlockStep(blocks, start, kinds[0])
      case None => None
      case Some(next) => BlockRun(blocks, next, kinds[1..])
  }

  /** The block-level part of an instruction path: steps inside a block are dropped. */
  function Erase(s: Stream, leaders: set<nat>, i: nat, kinds: seq<EdgeKind>): seq<EdgeKind>
    decreases |kinds|
  {
    if kinds == [] then []
    else
      match InstructionStep(s, i, kinds[0])
      case None => []
      case Some(next) => (if Passes(s, leaders, i) then [] else [kinds[0]]) + Erase(s, leaders, next, kinds[1..])
  }

  lemma LastOfChain(s: Stream, leaders: set<nat>, start: nat, i: nat, begin: nat, end: nat)
    requires Stream?(s, begin, end) && start in s && OnChain(s, leaders, start, i, begin, end) && !Passes(s, leaders, i)
    ensures Last(s, leaders, start, begin, end) == i
  {
    ChainFacts(s, leaders, start, i, begin, end);
  }

  /** Crossing from one block to the next. */
  lemma Crossing(r: Recorder, cfg: FunctionCfg, begin: nat, end: nat, start: nat, i: nat, kind: EdgeKind)
    requires Coherent(r, begin, end) && IsCfg(r, cfg, begin, end) && start in Leaders(r, begin)
    requires start in r.instructions
    requires OnChain(r.instructions, Leaders(r, begin), start, i, begin, end)
    requires !Passes(r.instructions, Leaders(r, begin), i)
    ensures BlockStep(cfg.blocks, start, kind) == InstructionStep(r.instructions, i, kind)
    ensures InstructionStep(r.instructions, i, kind).Some? ==>
              InstructionStep(r.instructions, i, kind).value in Leaders(r, begin)
  {
    LastOfChain(r.instructions, Leaders(r, begin), start, i, begin, end);
    BlockStepIsLastStep(r, cfg, begin, end, start, kind);
    if InstructionStep(r.instructions, i, kind).Some? { TargetsAreLeaders(r, begin, end, i, kind); }
  }

  /** An instruction path, erased, is a path of the block graph to the block of its end. */
  lemma {:induction false} ErasedPath(
    r: Recorder, cfg: FunctionCfg, begin: nat, end: nat, start: nat, i: nat, kinds: seq<EdgeKind>) returns (last: nat)
    requires Coherent(r, begin, end) && IsCfg(r, cfg, begin, end) && start in Leaders(r, begin)
    requires start in r.instructions
    requires OnChain(r.instructions, Leaders(r, begin), start, i, begin, end)
    requires InstructionRun(r.instructions, i, kinds).Some?
    ensures BlockRun(cfg.blocks, start, Erase(r.instructions, Leaders(r, begin), i, kinds)) == Some(last)
    ensures last in Leaders(r, begin) && last in r.instructions
    ensures OnChain(r.instructions, Leaders(r, begin), last, InstructionRun(r.instructions, i, kinds).value, begin, end)
    decreases |kinds|
  {
    var s, leaders := r.instructions, Leaders(r, begin);
    if kinds == [] { return start; }
    var next := InstructionStep(s, i, kinds[0]).value;
    if Passes(s, leaders, i) {
      ChainExtends(s, leaders, start, i, begin, end);
      last := ErasedPath(r, cfg, begin, end, start, next, kinds[1..]);
      assert Erase(s, leaders, i, kinds) == Erase(s, leaders, next, kinds[1..]);
    } else {
      Crossing(r, cfg, begin, end, start, i, kinds[0]);
      last := ErasedPath(r, cfg, begin, end, next, next, kinds[1..]);
      assert Erase(s, leaders, i, kinds)[1..] == Erase(s, leaders, next, kinds[1..]);
    }
  }

  /** A path that stays inside its block moves strictly forward. */
  lemma {:induction false} InsideMovesForward(
    s: Stream, leaders: set<nat>, begin: nat, end: nat, i: nat, kinds: seq<EdgeKind>)
    requires Stream?(s, begin, end) && kinds != []
    requires InstructionRun(s, i, kinds).Some? && Erase(s, leaders, i, kinds) == []
    ensures i < InstructionRun(s, i, kinds).value
    decreases |kinds|
  {
    assert Passes(s, leaders, i);
    if |kinds| > 1 { InsideMovesForward(s, leaders, begin, end, s[i].end, kinds[1..]); }
  }

  /** Erasure loses nothing: two paths between the same instructions with the same erasure are
      the same path. */
  lemma {:induction false} ErasureIsInjective(
    s: Stream, leaders: set<nat>, begin: nat, end: nat, i: nat, a: seq<EdgeKind>, b: seq<EdgeKind>)
    requires Stream?(s, begin, end)
    requires InstructionRun(s, i, a).Some? && InstructionRun(s, i, a) == InstructionRun(s, i, b)
    requires Erase(s, leaders, i, a) == Erase(s, leaders, i, b)
    ensures a == b
    decreases |a|
  {
    if a == [] || b == [] {
      if a != [] { InsideMovesForward(s, leaders, begin, end, i, a); }
      if b != [] { InsideMovesForward(s, leaders, begin, end, i, b); }
    } else {
      var next := InstructionStep(s, i, a[0]).value;
      if !Passes(s, leaders, i) {
        assert Erase(s, leaders, i, a)[0] == a[0] && Erase(s, leaders, i, b)[0] == b[0];
        assert Erase(s, leaders, i, a)[1..] == Erase(s, leaders, next, a[1..]);
        assert Erase(s, leaders, i, b)[1..] == Erase(s, leaders, next, b[1..]);
      } else {
        assert Erase(s, leaders, i, a) == Erase(s, leaders, next, a[1..]);
        assert Erase(s, leaders, i, b) == Erase(s, leaders, next, b[1..]);
      }
      ErasureIsInjective(s, leaders, begin, end, next, a[1..], b[1..]);
      assert a == [a[0]] + a[1..] && b == [b[0]] + b[1..];
    }
  }

  lemma Prepend(s: Stream, leaders: set<nat>, i: nat, kind: EdgeKind, rest: seq<EdgeKind>)
    requires InstructionStep(s, i, kind).Some?
    ensures var next := InstructionStep(s, i, kind).value;
            && InstructionRun(s, i, [kind] + rest) == InstructionRun(s, next, rest)
            && Erase(s, leaders, i, [kind] + rest) ==
                 (if Passes(s, leaders, i) then [] else [kind]) + Erase(s, leaders, next, rest)
  {
    assert ([kind] + rest)[1..] == rest;
  }

  lemma {:induction false} InsidePath(s: Stream, leaders: set<nat>, begin: nat, end: nat, i: nat, j: nat)
    returns (kinds: seq<EdgeKind>)
    requires Stream?(s, begin, end) && i in s && OnChain(s, leaders, i, j, begin, end)
    ensures InstructionRun(s, i, kinds) == Some(j) && Erase(s, leaders, i, kinds) == []
    decreases end - i
  {
    if i == j { return []; }
    var rest := InsidePath(s, leaders, begin, end, s[i].end, j);
    Prepend(s, leaders, i, FallThroughEdge, rest);
    kinds := [FallThroughEdge] + rest;
  }

  /** Every block path is the erasure of an instruction path to any instruction of its last block. */
  lemma {:induction false} ExpandedPath(
    r: Recorder, cfg: FunctionCfg, begin: nat, end: nat, start: nat, i: nat, path: seq<EdgeKind>, last: nat, j: nat)
    returns (kinds: seq<EdgeKind>)
    requires Coherent(r, begin, end) && IsCfg(r, cfg, begin, end) && start in Leaders(r, begin)
    requires start in r.instructions
    requires OnChain(r.instructions, Leaders(r, begin), start, i, begin, end) && i in r.instructions
    requires path != [] && BlockRun(cfg.blocks, start, path) == Some(last)
    requires last in r.instructions && OnChain(r.instructions, Leaders(r, begin), last, j, begin, end)
    ensures InstructionRun(r.instructions, i, kinds) == Some(j)
    ensures Erase(r.instructions, Leaders(r, begin), i, kinds) == path
    decreases |path|, end - i
  {
    hide Coherent, IsCfg, Leaders, BlockStep, Erase, InstructionRun;
    StartsAreLeaders(r, cfg, begin, end);
    var s, leaders := r.instructions, Leaders(r, begin);
    var kind, rest := FallThroughEdge, [];
    if Passes(s, leaders, i) {
      ChainExtends(s, leaders, start, i, begin, end);
      rest := ExpandedPath(r, cfg, begin, end, start, s[i].end, path, last, j);
    } else {
      kind := path[0];
      Crossing(r, cfg, begin, end, start, i, kind);
      var next := InstructionStep(s, i, kind).value;
      if path[1..] == [] {
        rest := InsidePath(s, leaders, begin, end, next, j);
      } else {
        rest := ExpandedPath(r, cfg, begin, end, next, next, path[1..], last, j);
      }
      assert path == [kind] + path[1..];
    }
    Prepend(s, leaders, i, kind, rest);
    kinds := [kind] + rest;
  }

  /** An instruction belongs to the block of one leader only. */
  lemma OneLeader(s: Stream, leaders: set<nat>, begin: nat, end: nat, a: nat, b: nat, i: nat)
    requires Stream?(s, begin, end) && a in s && b in s && a in leaders && b in leaders
    requires OnChain(s, leaders, a, i, begin, end) && OnChain(s, leaders, b, i, begin, end)
    ensures a == b
  {
    ChainIsRange(s, leaders, a, i, begin, end);
    ChainIsRange(s, leaders, b, i, begin, end);
    ChainIsRange(s, leaders, a, b, begin, end);
    ChainIsRange(s, leaders, b, a, begin, end);
    if a < b { ChainFacts(s, leaders, a, b, begin, end); }
    if b < a { ChainFacts(s, leaders, b, a, begin, end); }
  }

  /** The instruction paths from the entry to `i`. */
  ghost predicate ReachesInstruction(r: Recorder, begin: nat, i: nat, kinds: seq<EdgeKind>) {
    InstructionRun(r.instructions, begin, kinds) == Some(i)
  }

  /** Blocks preserve meaning: erasure is a bijection between the instruction paths from the entry
      to an instruction and the block paths from the entry to the block that holds it. */
  lemma PathsCorrespond(r: Recorder, cfg: FunctionCfg, begin: nat, end: nat, block: nat, i: nat)
    requires Coherent(r, begin, end) && IsCfg(r, cfg, begin, end)
    requires block in Leaders(r, begin) && block in r.instructions
    requires OnChain(r.instructions, Leaders(r, begin), block, i, begin, end)
    ensures forall kinds :: ReachesInstruction(r, begin, i, kinds) ==>
              BlockRun(cfg.blocks, begin, Erase(r.instructions, Leaders(r, begin), begin, kinds)) == Some(block)
    ensures forall a, b :: ReachesInstruction(r, begin, i, a) && ReachesInstruction(r, begin, i, b) && a != b ==>
              Erase(r.instructions, Leaders(r, begin), begin, a) != Erase(r.instructions, Leaders(r, begin), begin, b)
    ensures forall path :: BlockRun(cfg.blocks, begin, path) == Some(block) ==>
              exists kinds :: ReachesInstruction(r, begin, i, kinds)
                && Erase(r.instructions, Leaders(r, begin), begin, kinds) == path
  {
    var s, leaders := r.instructions, Leaders(r, begin);
    forall kinds | ReachesInstruction(r, begin, i, kinds)
      ensures BlockRun(cfg.blocks, begin, Erase(s, leaders, begin, kinds)) == Some(block)
    {
      var last := ErasedPath(r, cfg, begin, end, begin, begin, kinds);
      OneLeader(s, leaders, begin, end, last, block, i);
    }
    forall a, b | ReachesInstruction(r, begin, i, a) && ReachesInstruction(r, begin, i, b) && a != b
      ensures Erase(s, leaders, begin, a) != Erase(s, leaders, begin, b)
    {
      if Erase(s, leaders, begin, a) == Erase(s, leaders, begin, b) {
        ErasureIsInjective(s, leaders, begin, end, begin, a, b);
      }
    }
    forall path | BlockRun(cfg.blocks, begin, path) == Some(block)
      ensures exists kinds :: ReachesInstruction(r, begin, i, kinds) && Erase(s, leaders, begin, kinds) == path
    {
      var kinds;
      if path == [] {
        kinds := InsidePath(s, leaders, begin, end, begin, i);
      } else {
        kinds := ExpandedPath(r, cfg, begin, end, begin, begin, path, block, i);
      }
      assert ReachesInstruction(r, begin, i, kinds);
    }
  }
}
