/** Basic blocks over delay slots: what analysing one block yields, that the result is monotone
    in the entry state, and that it covers every architectural step out of the block. */
module EeBlocks {
  import opened Common
  import opened R5900
  import opened ElfLoad
  import opened EeCoverage
  import opened EeEffects

  type Mapping = segments: seq<Segment> | Disjoint(segments) witness []

  /** Everything a block analysis reads; `observe` gives the facts one word publishes. */
  datatype Context = Context(
    image: Image, tables: Tables, observe: (Word, nat, State) -> set<Observation>, boundaries: set<nat>)

  datatype EdgeKind = FallThroughEdge | BranchEdge | TakenEdge | NotTakenEdge | CallEdge | ContinuationEdge

  datatype Edge = Edge(source: nat, instruction: nat, target: nat, kind: EdgeKind)

  /** A control transfer and the register state it carries; a direct call carries none. */
  datatype Successor = Successor(edge: Edge, state: Option<State>)

  datatype Terminator =
    | EndFallThrough | EndConditional | EndUnconditional | EndIndirectBranch | EndDirectCall
    | EndIndirectCall | EndReturn | EndInterrupt | EndArithmeticTrap | EndUnsupported | EndInvalid
    | EndMissingDelaySlot | EndOfCoverage

  datatype Block = Block(start: nat, end: nat, words: nat, terminatorPc: Option<nat>, terminator: Terminator)

  datatype Observation =
    | Materialization(pc: nat, register: nat, target: nat, kind: TargetClass)
    | Xref(pc: nat, target: nat, span: nat, form: Form, width: nat, resolved: Resolved)

  // ----- observations -----

  /** Sign- or zero-extended 32-bit values name the zero-extended guest address. */
  function Canonical(value: U64): nat {
    var low := Low32(value);
    if value == low || value == SignExtendU32(low) then low else value
  }

  /** Canonical addresses keep the low word, and fall in the 32-bit guest space exactly for
      extended 32-bit values. */
  lemma CanonicalIsLowWord(value: U64)
    ensures Canonical(value) % TWO_32 == value % TWO_32
    ensures Canonical(value) < TWO_32 <==> value == Low32(value) || value == SignExtendU32(Low32(value))
  {
  }

  function XrefAt(mapping: Mapping, pc: nat, access: Access, base: U64): Observation {
    var target := Canonical((base + access.offset) % TWO_64);
    var span :=
      if access.form == ScalarLoad || access.form == ScalarStore then target
      else if access.width == 8 then target - target % 8 else target - target % 4;
    Xref(pc, target, span, access.form, access.width, Resolve(mapping, span, access.width))
  }

  function MaterializationAt(mapping: Mapping, pc: nat, register: nat, value: U64): set<Observation> {
    var target := Canonical(value);
    var kind := Resolve(mapping, target, 1).kind;
    if kind == FullyFileBacked || kind == MappedZeroFill then {Materialization(pc, register, target, kind)} else {}
  }

  /** What emitting one sequential word publishes in a given state. */
  function Observe(
    alu: Alu, tables: Tables, mapping: Mapping, word: Word, pc: nat, state: State): set<Observation>
  {
    match tables.access(word)
    case Some(access) =>
      if access.base < 32 && state[access.base].Exact?
      then {XrefAt(mapping, pc, access, state[access.base].value)} else {}
    case None =>
      var register := tables.published(word);
      var after := Apply(alu, tables.action(word), state);
      if register.Some? && 0 < register.value < 32 && after.Continue? && after.state[register.value].Exact?
      then MaterializationAt(mapping, pc, register.value, after.state[register.value].value)
      else {}
  }

  /** The context publishes exactly what the closed rules say. */
  ghost predicate Publishes(c: Context, mapping: Mapping) {
    forall word: Word, pc: nat, state: State ::
      c.observe(word, pc, state) == Observe(c.image.alu, c.tables, mapping, word, pc, state)
  }

  predicate HasWord(c: Context, pc: nat) { c.image.wordAt(pc).Some? }

  /** The facts the word at `pc` publishes in a state. */
  function Facts(c: Context, pc: nat, state: State): set<Observation> {
    if HasWord(c, pc) then c.observe(c.image.wordAt(pc).value, pc, state) else {}
  }

  // ----- delay slots -----

  datatype SlotOutcome = SlotContinue(state: State) | SlotTrap | SlotMissing

  function DelaySlot(c: Context, pc: nat, state: State): SlotOutcome {
    match Fetch(c.image, pc + 4)
    case Decoded(Sequential(_)) =>
      (match Apply(c.image.alu, c.tables.action(c.image.wordAt(pc + 4).value), state)
       case DefiniteTrap => SlotTrap
       case Continue(next) => SlotContinue(next))
    case _ => SlotMissing
  }

  function SlotObservations(c: Context, pc: nat, state: State): set<Observation> {
    match Fetch(c.image, pc + 4)
    case Decoded(Sequential(_)) => Facts(c, pc + 4, state)
    case _ => {}
  }

  function SlotSteps(c: Context, pc: nat): nat { if HasWord(c, pc + 4) then 1 else 0 }

  // ----- terminators -----

  function To(start: nat, pc: nat, target: nat, kind: EdgeKind, state: State): Successor {
    Successor(Edge(start, pc, target, kind), Some(state))
  }

  /** The state a transfer hands to its delay slot: the link register is already written. */
  function Linked(word: Word, flow: Flow, pc: nat, state: State): State
    requires pc + 8 < TWO_64
  {
    match flow
    case ConditionalBranch(_, _) => if IsRegimmLink(word) then Set(state, 31, Exact(pc + 8)) else state
    case Call(_) => Set(state, 31, Exact(pc + 8))
    case IndirectCall => Set(state, word.rd, Exact(pc + 8))
    case _ => state
  }

  function Continuation(start: nat, pc: nat): Successor {
    To(start, pc, pc + 8, ContinuationEdge, UnknownState())
  }

  /** Successors of a transfer: `linked` is the state before the delay slot. */
  function SuccessorsOf(c: Context, start: nat, pc: nat, word: Word, flow: Flow, linked: State): seq<Successor> {
    var slot := DelaySlot(c, pc, linked);
    match flow
    case ConditionalBranch(_, target) =>
      var resume := if IsRegimmLink(word) then [Continuation(start, pc)] else [];
      if IsBranchLikely(word) then
        [To(start, pc, pc + 8, NotTakenEdge, linked)]
        + (if slot.SlotContinue? then [To(start, pc, target, TakenEdge, slot.state)] + resume else [])
      else if slot.SlotContinue? then
        [To(start, pc, target, TakenEdge, slot.state), To(start, pc, pc + 8, NotTakenEdge, slot.state)] + resume
      else []
    case UnconditionalBranch(target) =>
      if slot.SlotContinue? then [To(start, pc, target, BranchEdge, slot.state)] else []
    case Call(target) =>
      if slot.SlotContinue?
      then [Successor(Edge(start, pc, target, CallEdge), None), Continuation(start, pc)] else []
    case IndirectCall => if slot.SlotContinue? then [Continuation(start, pc)] else []
    case _ => []
  }

  function TerminatorOf(word: Word, flow: Flow): Terminator {
    match flow
    case Sequential(_) => EndFallThrough
    case ConditionalBranch(_, _) => EndConditional
    case UnconditionalBranch(_) => EndUnconditional
    case Call(_) => EndDirectCall
    case IndirectCall => EndIndirectCall
    case IndirectBranch =>
      if word.opcode == 0 && word.funct == 0x08 && word.rs == 31 then EndReturn else EndIndirectBranch
    case Interrupt => EndInterrupt
  }

  // ----- whole blocks -----

  /** The state after the word at `pc`, when it is sequential and does not definitely trap. */
  function After(c: Context, pc: nat, state: State): (r: Option<State>)
    ensures r.Some? ==> c.image.wordAt(pc).Some?
  {
    match Fetch(c.image, pc)
    case Decoded(Sequential(_)) =>
      (match Apply(c.image.alu, c.tables.action(c.image.wordAt(pc).value), state)
       case DefiniteTrap => None
       case Continue(next) => Some(next))
    case _ => None
  }

  /** Successors of the word that stops the walk. */
  function StopExits(c: Context, start: nat, pc: nat, state: State): seq<Successor> {
    var outcome := Fetch(c.image, pc);
    if outcome.Decoded? then
      var word := c.image.wordAt(pc).value;
      SuccessorsOf(c, start, pc, word, outcome.flow, Linked(word, outcome.flow, pc, state))
    else []
  }

  /** Successors of the block that is at `pc` in `state`. */
  function Exits(c: Context, start: nat, pc: nat, state: State): seq<Successor>
    requires pc == start || start + 4 <= pc
    decreases LINEAR_PC_END - pc
  {
    if pc != start && pc in c.boundaries then [To(start, pc - 4, pc, FallThroughEdge, state)]
    else
      match After(c, pc, state)
      case None => StopExits(c, start, pc, state)
      case Some(next) => Exits(c, start, pc + 4, next)
  }

  predicate HasSlot(flow: Flow) { !flow.Sequential? && !flow.Interrupt? }

  /** The word at `pc` is a transfer that runs a delay slot. */
  predicate IsTransfer(c: Context, pc: nat) {
    Fetch(c.image, pc).Decoded? && HasSlot(Fetch(c.image, pc).flow)
  }

  /** The state the transfer at `pc` hands to its delay slot. */
  function LinkedAt(c: Context, pc: nat, state: State): State
    requires IsTransfer(c, pc)
  {
    Linked(c.image.wordAt(pc).value, Fetch(c.image, pc).flow, pc, state)
  }

  /** Observations of the word that stops the walk: those of its delay slot. */
  function StopEmits(c: Context, pc: nat, state: State): set<Observation> {
    if IsTransfer(c, pc) then SlotObservations(c, pc, LinkedAt(c, pc, state)) else {}
  }

  /** Everything emitting the block publishes from `pc` on. */
  function Emits(c: Context, start: nat, pc: nat, state: State): set<Observation>
    decreases LINEAR_PC_END - pc
  {
    if pc != start && pc in c.boundaries then {}
    else
      match After(c, pc, state)
      case None => StopEmits(c, pc, state)
      case Some(next) => Facts(c, pc, state) + Emits(c, start, pc + 4, next)
  }

  /** The block record when the word at `pc` stops the walk after `words` decoded words. */
  function StopBlock(c: Context, start: nat, pc: nat, state: State, words: nat): Block {
    if c.image.wordAt(pc).None? then Block(start, pc, words, None, EndOfCoverage)
    else
      var word := c.image.wordAt(pc).value;
      match Fetch(c.image, pc)
      case Unsupported => Block(start, pc + 4, words, Some(pc), EndUnsupported)
      case Invalid => Block(start, pc + 4, words, Some(pc), EndInvalid)
      case Decoded(Sequential(_)) => Block(start, pc + 4, words + 1, Some(pc), EndArithmeticTrap)
      case Decoded(Interrupt) => Block(start, pc + 4, words + 1, Some(pc), EndInterrupt)
      case Decoded(flow) =>
        var linked := Linked(word, flow, pc, state);
        match DelaySlot(c, pc, linked)
        case SlotContinue(_) => Block(start, pc + 8, words + 2, Some(pc), TerminatorOf(word, flow))
        case SlotTrap =>
          if SuccessorsOf(c, start, pc, word, flow, linked) != []
          then Block(start, pc + 8, words + 2, Some(pc), EndConditional)
          else Block(start, pc + 8, words + 2, Some(pc + 4), EndArithmeticTrap)
        case SlotMissing =>
          if SuccessorsOf(c, start, pc, word, flow, linked) != []
          then Block(start, pc + 8, words + 1, Some(pc), EndConditional)
          else Block(start, pc + 8, words + 1, Some(pc), EndMissingDelaySlot)
  }

  /** The record of the block that is at `pc` in `state` after `words` decoded words. */
  function Shape(c: Context, start: nat, pc: nat, state: State, words: nat): Block
    decreases LINEAR_PC_END - pc
  {
    if pc != start && pc in c.boundaries then Block(start, pc, words, None, EndFallThrough)
    else
      match After(c, pc, state)
      case None => StopBlock(c, start, pc, state, words)
      case Some(next) => Shape(c, start, pc + 4, next, words + 1)
  }

  /** Further words fetched at the word that stops the walk. */
  function StopSteps(c: Context, pc: nat): nat {
    if IsTransfer(c, pc) then SlotSteps(c, pc) else 0
  }

  /** Words fetched by the analysis from `pc` on, delay slot included. */
  function Cost(c: Context, start: nat, pc: nat, state: State): nat
    decreases LINEAR_PC_END - pc
  {
    if pc != start && pc in c.boundaries then 0
    else if c.image.wordAt(pc).None? then 0
    else
      match After(c, pc, state)
      case None => 1 + StopSteps(c, pc)
      case Some(next) => 1 + Cost(c, start, pc + 4, next)
  }

  /** What is still to come of a block analysis. */
  datatype Rest = Rest(shape: Block, exits: seq<Successor>, cost: nat, facts: set<Observation>)

  /** The whole analysis from `pc` on: record, successors, words fetched and facts published. */
  ghost function RestOf(c: Context, start: nat, pc: nat, state: State, words: nat): Rest
    requires pc == start || start + 4 <= pc
  {
    Rest(Shape(c, start, pc, state, words), Exits(c, start, pc, state),
         Cost(c, start, pc, state), Emits(c, start, pc, state))
  }

  /** A word that continues the block hands the rest of the analysis to the next word. */
  lemma RestAfterWord(c: Context, start: nat, pc: nat, following: nat, state: State, words: nat, next: State)
    requires pc == start || (start + 4 <= pc && pc !in c.boundaries)
    requires After(c, pc, state) == Some(next) && following == pc + 4
    ensures var rest, later := RestOf(c, start, pc, state, words), RestOf(c, start, following, next, words + 1);
            && later.shape == rest.shape && later.exits == rest.exits && later.cost + 1 == rest.cost
            && rest.facts == Facts(c, pc, state) + later.facts
  {
  }

  lemma RestAtBoundary(c: Context, start: nat, pc: nat, state: State, words: nat)
    requires start + 4 <= pc && pc in c.boundaries
    ensures RestOf(c, start, pc, state, words)
         == Rest(Block(start, pc, words, None, EndFallThrough), [To(start, pc - 4, pc, FallThroughEdge, state)], 0, {})
  {
  }

  lemma RestAtStop(c: Context, start: nat, pc: nat, state: State, words: nat)
    requires pc == start || (start + 4 <= pc && pc !in c.boundaries)
    requires After(c, pc, state).None?
    ensures var rest := RestOf(c, start, pc, state, words);
            && rest.shape == StopBlock(c, start, pc, state, words) && rest.exits == StopExits(c, start, pc, state)
            && rest.facts == StopEmits(c, pc, state)
            && rest.cost == (if HasWord(c, pc) then 1 + StopSteps(c, pc) else 0)
            && (!HasWord(c, pc) ==> rest.exits == [] && rest.facts == {})
  {
  }

  // ----- monotonicity -----

  /** Same transfer, weaker state. */
  predicate WeakerSuccessor(strong: Successor, weak: Successor) {
    && strong.edge == weak.edge
    && (strong.state.None? <==> weak.state.None?)
    && (strong.state.Some? ==> Weaker(strong.state.value, weak.state.value))
  }

  predicate Covered(strong: seq<Successor>, weak: seq<Successor>) {
    forall s :: s in strong ==> exists w :: w in weak && WeakerSuccessor(s, w)
  }

  lemma SlotIsMonotone(c: Context, pc: nat, strong: State, weak: State)
    requires Weaker(strong, weak)
    ensures DelaySlot(c, pc, strong).SlotContinue? ==>
              && DelaySlot(c, pc, weak).SlotContinue?
              && Weaker(DelaySlot(c, pc, strong).state, DelaySlot(c, pc, weak).state)
  {
    if DelaySlot(c, pc, strong).SlotContinue? {
      ApplyIsMonotone(c.image.alu, c.tables.action(c.image.wordAt(pc + 4).value), strong, weak);
    }
  }

  lemma SuccessorsAreMonotone(
    c: Context, start: nat, pc: nat, word: Word, flow: Flow, strong: State, weak: State)
    requires Weaker(strong, weak)
    ensures Covered(SuccessorsOf(c, start, pc, word, flow, strong), SuccessorsOf(c, start, pc, word, flow, weak))
  {
    SlotIsMonotone(c, pc, strong, weak);
    var a, b := SuccessorsOf(c, start, pc, word, flow, strong), SuccessorsOf(c, start, pc, word, flow, weak);
    forall s | s in a ensures exists w :: w in b && WeakerSuccessor(s, w) {
      var i :| 0 <= i < |a| && a[i] == s;
      assert i < |b| && WeakerSuccessor(a[i], b[i]);
    }
  }

  lemma AfterIsMonotone(c: Context, pc: nat, strong: State, weak: State)
    requires Weaker(strong, weak)
    ensures After(c, pc, strong).Some? ==>
              After(c, pc, weak).Some? && Weaker(After(c, pc, strong).value, After(c, pc, weak).value)
  {
    if After(c, pc, strong).Some? {
      ApplyIsMonotone(c.image.alu, c.tables.action(c.image.wordAt(pc).value), strong, weak);
    }
  }

  /** Degrading the state of a block only adds successors and weakens the states they carry;
      a definite trap can disappear but never appear. */
  lemma {:induction false} ExitsAreMonotone(c: Context, start: nat, pc: nat, strong: State, weak: State)
    requires pc == start || start + 4 <= pc
    requires Weaker(strong, weak)
    ensures Covered(Exits(c, start, pc, strong), Exits(c, start, pc, weak))
    decreases LINEAR_PC_END - pc
  {
    if pc != start && pc in c.boundaries {
      BoundaryIsMonotone(start, pc, strong, weak);
    } else {
      AfterIsMonotone(c, pc, strong, weak);
      if After(c, pc, strong).Some? {
        ExitsAreMonotone(c, start, pc + 4, After(c, pc, strong).value, After(c, pc, weak).value);
      } else {
        StopIsMonotone(c, start, pc, strong, weak);
      }
    }
  }

  lemma BoundaryIsMonotone(start: nat, pc: nat, strong: State, weak: State)
    requires 4 <= pc && Weaker(strong, weak)
    ensures Covered([To(start, pc - 4, pc, FallThroughEdge, strong)], [To(start, pc - 4, pc, FallThroughEdge, weak)])
  {
    var b := To(start, pc - 4, pc, FallThroughEdge, weak);
    assert b in [b] && WeakerSuccessor(To(start, pc - 4, pc, FallThroughEdge, strong), b);
  }

  /** At a word that stops the stronger walk: a transfer hands on weaker states, and a trap that
      disappears only adds successors. */
  lemma StopIsMonotone(c: Context, start: nat, pc: nat, strong: State, weak: State)
    requires Weaker(strong, weak) && After(c, pc, strong).None?
    ensures After(c, pc, weak).Some? ==> StopExits(c, start, pc, strong) == []
    ensures Covered(StopExits(c, start, pc, strong), StopExits(c, start, pc, weak))
  {
    if Fetch(c.image, pc).Decoded? {
      var word, flow := c.image.wordAt(pc).value, Fetch(c.image, pc).flow;
      LinkedIsMonotone(word, flow, pc, strong, weak);
      SuccessorsAreMonotone(c, start, pc, word, flow, Linked(word, flow, pc, strong), Linked(word, flow, pc, weak));
    }
  }

  lemma LinkedIsMonotone(word: Word, flow: Flow, pc: nat, strong: State, weak: State)
    requires pc + 8 < TWO_64 && Weaker(strong, weak)
    ensures Weaker(Linked(word, flow, pc, strong), Linked(word, flow, pc, weak))
  {
    SetIsMonotone(strong, weak, 31, Exact(pc + 8), Exact(pc + 8));
    SetIsMonotone(strong, weak, word.rd, Exact(pc + 8), Exact(pc + 8));
  }
}
