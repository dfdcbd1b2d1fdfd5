/** Constant-propagation soundness: along every run that starts at a seed, the registers are
    described by the state the analysis holds at that point, so every published address is the
    address the access really uses. */
module EeSoundness {
  import opened Common
  import opened R5900
  import opened ElfLoad
  import opened EeEffects
  import opened EeBlocks
  import opened EeFixpoint

  ghost function ExecutableWords(m: Image): set<nat> {
    set pc: nat | pc < LINEAR_PC_END && m.wordAt(pc).Some?
  }

  /** The propagation problem of one context. */
  ghost predicate Models(p: Problem, c: Context) {
    && p.executable == ExecutableWords(c.image)
    && forall start: nat, state: State {:trigger Exits(c, start, start, state)} ::
         p.transfer(start, state) == Exits(c, start, start, state)
  }

  /** Every executable direct-call target is a seed. */
  ghost predicate CallsAreSeeds(p: Problem, m: Image) {
    forall pc: nat :: Fetch(m, pc).Decoded? && Fetch(m, pc).flow.Call? && Fetch(m, pc).flow.target in p.executable ==>
      Fetch(m, pc).flow.target in p.seeds
  }

  lemma ModelsAreMonotone(p: Problem, c: Context)
    requires Models(p, c)
    ensures Monotone(p)
  {
    forall block: nat, strong: State, weak: State | Weaker(strong, weak)
      ensures Covered(p.transfer(block, strong), p.transfer(block, weak))
    {
      ExitsAreMonotone(c, block, block, strong, weak);
    }
  }

  // ----- the straight-line part of a block -----

  /** The state after a sequential word that does not end its block, if it continues. */
  function Passing(c: Context, pc: nat, state: State): Option<State> {
    if pc + 4 in c.boundaries then None else After(c, pc, state)
  }

  /** Walking straight from `from` with `entry` arrives at `pc` with `state`. */
  ghost predicate Reaches(c: Context, from: nat, entry: State, pc: nat, state: State)
    decreases LINEAR_PC_END - from
  {
    || (from == pc && entry == state)
    || (Passing(c, from, entry).Some? && Reaches(c, from + 4, Passing(c, from, entry).value, pc, state))
  }

  /** A walk goes forward over words that pass, never onto a boundary. */
  lemma {:induction false} WalkIsStraight(c: Context, from: nat, entry: State, pc: nat, state: State)
    requires Reaches(c, from, entry, pc, state)
    ensures from <= pc && (pc == from || from + 4 <= pc)
    ensures pc % 4 == from % 4
    ensures forall q :: from < q <= pc && q % 4 == from % 4 ==> q !in c.boundaries
    decreases LINEAR_PC_END - from
  {
    hide After;
    if !(from == pc && entry == state) {
      WalkIsStraight(c, from + 4, Passing(c, from, entry).value, pc, state);
      forall q | from < q <= pc && q % 4 == from % 4 ensures q !in c.boundaries {
        assert q == from + 4 || from + 4 < q;
      }
    }
  }

  /** The successors at a point of the walk are those of the block. */
  lemma {:induction false} WalkKeepsExits(c: Context, start: nat, from: nat, entry: State, pc: nat, state: State)
    requires from == start || (start + 4 <= from && from !in c.boundaries)
    requires Reaches(c, from, entry, pc, state)
    ensures pc == start || (start + 4 <= pc && pc !in c.boundaries)
    ensures Exits(c, start, from, entry) == Exits(c, start, pc, state)
    decreases LINEAR_PC_END - from
  {
    if !(from == pc && entry == state) {
      WalkKeepsExits(c, start, from + 4, Passing(c, from, entry).value, pc, state);
    }
  }

  lemma {:induction false} WalkExtends(c: Context, from: nat, entry: State, pc: nat, state: State)
    requires Reaches(c, from, entry, pc, state) && Passing(c, pc, state).Some?
    ensures Reaches(c, from, entry, pc + 4, Passing(c, pc, state).value)
    decreases LINEAR_PC_END - from
  {
    if !(from == pc && entry == state) {
      WalkExtends(c, from + 4, Passing(c, from, entry).value, pc, state);
    }
  }

  /** Two walks from one entry state that arrive at the same word arrive in the same state. */
  lemma {:induction false} WalkIsDeterministic(c: Context, from: nat, entry: State, pc: nat, a: State, b: State)
    requires Reaches(c, from, entry, pc, a) && Reaches(c, from, entry, pc, b)
    ensures a == b
    decreases LINEAR_PC_END - from
  {
    if from == pc {
      if entry != a { WalkIsStraight(c, from + 4, Passing(c, from, entry).value, pc, a); }
      if entry != b { WalkIsStraight(c, from + 4, Passing(c, from, entry).value, pc, b); }
    } else {
      WalkIsDeterministic(c, from + 4, Passing(c, from, entry).value, pc, a, b);
    }
  }

  // ----- one step -----

  /** The delay slot's abstract effect covers the concrete one. */
  lemma SlotIsSound(c: Context, pc: nat, state: State, x: Registers, oracle: Oracle)
    requires Agrees(c.image, c.tables) && Describes(state, x) && Slot(c.image, pc, x, oracle).Next?
    ensures DelaySlot(c, pc, state).SlotContinue?
    ensures Describes(DelaySlot(c, pc, state).state, Slot(c.image, pc, x, oracle).registers)
  {
    var word := c.image.wordAt(pc + 4).value;
    WordIsSound(c, word, pc + 4, state, x, oracle);
  }

  lemma WordIsSound(c: Context, word: Word, pc: nat, state: State, x: Registers, oracle: Oracle)
    requires Agrees(c.image, c.tables) && Describes(state, x)
    requires c.image.decode(word, pc).Decoded? && c.image.decode(word, pc).flow.Sequential?
    requires Execute(c.image.alu, c.image.decode(word, pc).flow.op, word, x, oracle).Next?
    ensures Apply(c.image.alu, c.tables.action(word), state).Continue?
    ensures Describes(Apply(c.image.alu, c.tables.action(word), state).state,
                      Execute(c.image.alu, c.image.decode(word, pc).flow.op, word, x, oracle).registers)
  {
    assert ReadsWord(c.image, c.tables, word, c.image.decode(word, pc).flow.op);
    ApplyIsSound(c.image.alu, c.tables.action(word), state, x, oracle);
  }

  /** Some recorded successor leads where the run goes and describes the registers it carries;
      only a direct call may carry no state. */
  ghost predicate Follows(successors: seq<Successor>, flow: Flow, pc: nat, x: Registers) {
    exists s :: s in successors && s.edge.target == pc &&
      if s.state.Some? then Describes(s.state.value, x) else flow.Call? && flow.target == pc
  }

  /** The registers a transfer hands to its delay slot. */
  function LinkedRegisters(word: Word, flow: Flow, pc: nat, x: Registers): Registers
    requires pc + 8 < TWO_64
  {
    match flow
    case ConditionalBranch(branch, _) => if LinksRa(branch) then Write(x, 31, pc + 8) else x
    case Call(_) => Write(x, 31, pc + 8)
    case IndirectCall => Write(x, word.rd, pc + 8)
    case _ => x
  }

  lemma LinkedIsSound(c: Context, pc: nat, state: State, x: Registers)
    requires Agrees(c.image, c.tables) && Describes(state, x) && Fetch(c.image, pc).Decoded?
    ensures var word, flow := c.image.wordAt(pc).value, Fetch(c.image, pc).flow;
            Describes(Linked(word, flow, pc, state), LinkedRegisters(word, flow, pc, x))
  {
    var word, flow := c.image.wordAt(pc).value, Fetch(c.image, pc).flow;
    SetIsSound(state, x, 31, Exact(pc + 8), pc + 8);
    SetIsSound(state, x, word.rd, Exact(pc + 8), pc + 8);
    if flow.ConditionalBranch? { assert ReadsBranch(word, flow.branch); }
  }

  /** Every architectural step out of a transfer follows one of its recorded successors. */
  lemma TransferIsSound(
    c: Context, start: nat, pc: nat, state: State, x: Registers, oracle: Oracle, next: (nat, Registers))
    requires Agrees(c.image, c.tables) && Describes(state, x)
    requires Fetch(c.image, pc).Decoded? && !Fetch(c.image, pc).flow.Sequential?
    requires Step(c.image, pc, x, oracle) == Some(next)
    ensures Follows(StopExits(c, start, pc, state), Fetch(c.image, pc).flow, next.0, next.1)
  {
    hide Agrees, Describes, Apply, Execute, Follows, StopExits;
    var word, flow := c.image.wordAt(pc).value, Fetch(c.image, pc).flow;
    LinkedIsSound(c, pc, state, x);
    var linked, y := Linked(word, flow, pc, state), LinkedRegisters(word, flow, pc, x);
    if Slot(c.image, pc, y, oracle).Next? { SlotIsSound(c, pc, linked, y, oracle); }
    if flow.ConditionalBranch? {
      BranchFollows(c, start, pc, state, x, oracle, next, linked, y);
    } else {
      JumpFollows(c, start, pc, state, x, oracle, next, linked, y);
    }
  }

  /** The delay slot, run from `linked`, covers the slot run from the registers `y`. */
  ghost predicate SlotCovers(c: Context, pc: nat, linked: State, y: Registers, oracle: Oracle) {
    && Describes(linked, y)
    && (Slot(c.image, pc, y, oracle).Next? ==>
          && DelaySlot(c, pc, linked).SlotContinue?
          && Describes(DelaySlot(c, pc, linked).state, Slot(c.image, pc, y, oracle).registers))
  }

  lemma BranchFollows(
    c: Context, start: nat, pc: nat, state: State, x: Registers, oracle: Oracle, next: (nat, Registers),
    linked: State, y: Registers)
    requires Agrees(c.image, c.tables) && Fetch(c.image, pc).Decoded? && Fetch(c.image, pc).flow.ConditionalBranch?
    requires Step(c.image, pc, x, oracle) == Some(next) && SlotCovers(c, pc, linked, y, oracle)
    requires var word, flow := c.image.wordAt(pc).value, Fetch(c.image, pc).flow;
             linked == Linked(word, flow, pc, state) && y == LinkedRegisters(word, flow, pc, x)
    ensures Follows(StopExits(c, start, pc, state), Fetch(c.image, pc).flow, next.0, next.1)
  {
    hide Describes, Apply, Execute, DelaySlot, Slot, Taken, Set;
    var word, flow := c.image.wordAt(pc).value, Fetch(c.image, pc).flow;
    var successors, branch := SuccessorsOf(c, start, pc, word, flow, linked), flow.branch;
    assert ReadsBranch(word, branch);
    if !Taken(branch, word, x) {
      var k := if IsBranchLikely(word) then 0 else 1;
      assert successors[k] in successors;
    } else if LinksRa(branch) && oracle.returned {
      UnknownDescribesAll(next.1);
      assert successors[2] in successors;
    } else {
      var k := if IsBranchLikely(word) then 1 else 0;
      assert successors[k] in successors;
    }
  }

  lemma UnknownDescribesAll(x: Registers)
    ensures Describes(UnknownState(), x)
  {
  }

  lemma JumpFollows(
    c: Context, start: nat, pc: nat, state: State, x: Registers, oracle: Oracle, next: (nat, Registers),
    linked: State, y: Registers)
    requires Fetch(c.image, pc).Decoded? && Step(c.image, pc, x, oracle) == Some(next)
    requires SlotCovers(c, pc, linked, y, oracle)
    requires var word, flow := c.image.wordAt(pc).value, Fetch(c.image, pc).flow;
             && !flow.Sequential? && !flow.ConditionalBranch?
             && linked == Linked(word, flow, pc, state) && y == LinkedRegisters(word, flow, pc, x)
    ensures Follows(StopExits(c, start, pc, state), Fetch(c.image, pc).flow, next.0, next.1)
  {
    hide Describes, Apply, Execute, DelaySlot, Slot, Set;
    UnknownDescribesAll(next.1);
    var word, flow := c.image.wordAt(pc).value, Fetch(c.image, pc).flow;
    var successors := SuccessorsOf(c, start, pc, word, flow, linked);
    match flow
    case UnconditionalBranch(target) => assert successors[0] in successors;
    case Call(target) => assert successors[0] in successors && successors[1] in successors;
    case IndirectCall => assert successors[0] in successors;
  }

  /** The analysis of one word covers the step `next`: either the walk passes over it to the next
      word in a describing state, or a recorded successor follows it. */
  ghost predicate CoversStep(c: Context, start: nat, pc: nat, state: State, next: (nat, Registers)) {
    Fetch(c.image, pc).Decoded? &&
    if Fetch(c.image, pc).flow.Sequential?
    then next.0 == pc + 4 && After(c, pc, state).Some? && Describes(After(c, pc, state).value, next.1)
    else Follows(StopExits(c, start, pc, state), Fetch(c.image, pc).flow, next.0, next.1)
  }

  lemma StepIsCovered(
    c: Context, start: nat, pc: nat, state: State, x: Registers, oracle: Oracle, next: (nat, Registers))
    requires Agrees(c.image, c.tables) && Describes(state, x) && Step(c.image, pc, x, oracle) == Some(next)
    ensures CoversStep(c, start, pc, state, next)
  {
    if Fetch(c.image, pc).flow.Sequential? {
      WordIsSound(c, c.image.wordAt(pc).value, pc, state, x, oracle);
    } else {
      TransferIsSound(c, start, pc, state, x, oracle, next);
    }
  }

  // ----- whole runs -----

  /** The analysis accounts for the registers at `pc`: some discovered block walks there in a
      state that describes them. */
  ghost predicate Tracks(c: Context, entries: Entries, pc: nat, x: Registers) {
    exists start, state: State ::
      start in entries && Reaches(c, start, entries[start], pc, state) && Describes(state, x)
  }

  lemma EntryTracks(c: Context, entries: Entries, pc: nat, x: Registers)
    requires pc in entries && Describes(entries[pc], x)
    ensures Tracks(c, entries, pc, x)
  {
    assert Reaches(c, pc, entries[pc], pc, entries[pc]);
  }

  /** Tracking survives every covered step that stays in coverage. */
  lemma CoveredStepTracks(
    c: Context, p: Problem, entries: Entries, start: nat, pc: nat, state: State, next: (nat, Registers))
    requires Models(p, c) && CallsAreSeeds(p, c.image) && Solution(p, entries) && c.boundaries <= p.executable
    requires start in entries && Reaches(c, start, entries[start], pc, state)
    requires CoversStep(c, start, pc, state, next) && next.0 in p.executable
    ensures Tracks(c, entries, next.0, next.1)
  {
    hide Models, Solution, Follows, StopExits, Exits, Reaches, Describes;
    if !Fetch(c.image, pc).flow.Sequential? {
      var flow := Fetch(c.image, pc).flow;
      LeavesByTransfer(c, entries, start, pc, state);
      FollowedTracks(c, p, entries, start, StopExits(c, start, pc, state), flow, next);
    } else if pc + 4 in c.boundaries {
      LeavesByFallThrough(c, entries, start, pc, state);
      Delivered(c, p, entries, start, To(start, pc, pc + 4, FallThroughEdge, After(c, pc, state).value), next.1);
    } else {
      WalkExtends(c, start, entries[start], pc, state);
    }
  }

  lemma LeavesByTransfer(c: Context, entries: Entries, start: nat, pc: nat, state: State)
    requires start in entries && Reaches(c, start, entries[start], pc, state)
    requires Fetch(c.image, pc).Decoded? && !Fetch(c.image, pc).flow.Sequential?
    ensures Exits(c, start, start, entries[start]) == StopExits(c, start, pc, state)
  {
    WalkKeepsExits(c, start, start, entries[start], pc, state);
  }

  lemma LeavesByFallThrough(c: Context, entries: Entries, start: nat, pc: nat, state: State)
    requires start in entries && Reaches(c, start, entries[start], pc, state)
    requires After(c, pc, state).Some? && pc + 4 in c.boundaries
    ensures Exits(c, start, start, entries[start]) ==
              [To(start, pc, pc + 4, FallThroughEdge, After(c, pc, state).value)]
  {
    WalkKeepsExits(c, start, start, entries[start], pc, state);
    WalkIsStraight(c, start, entries[start], pc, state);
  }

  lemma FollowedTracks(
    c: Context, p: Problem, entries: Entries, start: nat, exits: seq<Successor>, flow: Flow, next: (nat, Registers))
    requires Models(p, c) && Solution(p, entries) && start in entries
    requires exits == Exits(c, start, start, entries[start]) && Follows(exits, flow, next.0, next.1)
    requires next.0 in p.executable && (flow.Call? && flow.target in p.executable ==> flow.target in p.seeds)
    ensures Tracks(c, entries, next.0, next.1)
  {
    var s :| s in exits && s.edge.target == next.0 &&
      if s.state.Some? then Describes(s.state.value, next.1) else flow.Call? && flow.target == next.0;
    if s.state.Some? {
      Delivered(c, p, entries, start, s, next.1);
    } else {
      EntryTracks(c, entries, next.0, next.1);
    }
  }

  /** A recorded successor state that describes the registers makes its target track them. */
  lemma Delivered(c: Context, p: Problem, entries: Entries, start: nat, s: Successor, x: Registers)
    requires Models(p, c) && Solution(p, entries) && start in entries
    requires s in Exits(c, start, start, entries[start])
    requires s.state.Some? && s.edge.target in p.executable && Describes(s.state.value, x)
    ensures Tracks(c, entries, s.edge.target, x)
  {
    assert Solved(p, entries, start);
    assert Accepts(p, entries, s);
    WeakerDescribesMore(s.state.value, entries[s.edge.target], x);
    EntryTracks(c, entries, s.edge.target, x);
  }

  /** A finite run: program counters, register files and what each step took from outside. */
  ghost predicate IsRun(m: Image, pcs: seq<nat>, files: seq<Registers>, oracles: seq<Oracle>) {
    && |pcs| == |files| == |oracles| + 1
    && forall i :: 0 <= i < |oracles| ==> Step(m, pcs[i], files[i], oracles[i]) == Some((pcs[i + 1], files[i + 1]))
  }

  /** Soundness over whole runs: from a seed with any registers, every covered point of every run
      is tracked, so each register held as exact has that value there. */
  lemma {:induction false} RunsAreTracked(
    c: Context, p: Problem, entries: Entries, pcs: seq<nat>, files: seq<Registers>, oracles: seq<Oracle>, i: nat)
    requires Agrees(c.image, c.tables) && Models(p, c) && CallsAreSeeds(p, c.image) && Solution(p, entries)
    requires c.boundaries <= p.executable
    requires IsRun(c.image, pcs, files, oracles) && pcs[0] in p.seeds
    requires i < |pcs| && pcs[i] in p.executable
    ensures Tracks(c, entries, pcs[i], files[i])
  {
    if i == 0 {
      EntryTracks(c, entries, pcs[0], files[0]);
    } else {
      var pc, x, next := pcs[i - 1], files[i - 1], (pcs[i], files[i]);
      assert Step(c.image, pc, x, oracles[i - 1]) == Some(next);
      RunsAreTracked(c, p, entries, pcs, files, oracles, i - 1);
      var start, state: State :|
        start in entries && Reaches(c, start, entries[start], pc, state) && Describes(state, x);
      StepIsCovered(c, start, pc, state, x, oracles[i - 1], next);
      CoveredStepTracks(c, p, entries, start, pc, state, next);
    }
  }
}
