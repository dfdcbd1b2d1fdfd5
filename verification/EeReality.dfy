/** What the published facts mean: every cross-reference and materialised address names the
    real address on every run, in the straight-line or delay-slot position it was published
    for, and each word outside a delay slot is analysed by one block only. */
module EeReality {
  import opened Common
  import opened R5900
  import opened ElfLoad
  import opened EeEffects
  import opened EeBlocks
  import opened EeFixpoint
  import opened EeSoundness

  /** Block starts are boundaries of covered, aligned words. */
  ghost predicate LeadersOnly(c: Context, entries: Entries) {
    && entries.Keys <= c.boundaries
    && forall start :: start in c.boundaries ==> c.image.wordAt(start).Some?
  }

  /** A word is walked over by at most one block, and in one state. */
  lemma OneBlockPerWord(c: Context, entries: Entries, pc: nat, b1: nat, s1: State, b2: nat, s2: State)
    requires LeadersOnly(c, entries) && b1 in entries && b2 in entries
    requires Reaches(c, b1, entries[b1], pc, s1) && Reaches(c, b2, entries[b2], pc, s2)
    ensures b1 == b2 && s1 == s2
  {
    WalkIsStraight(c, b1, entries[b1], pc, s1);
    WalkIsStraight(c, b2, entries[b2], pc, s2);
    assert c.image.wordAt(b1).Some? && c.image.wordAt(b2).Some?;
    assert b1 % 4 == b2 % 4;
    WalkIsDeterministic(c, b1, entries[b1], pc, s1, s2);
  }

  // ----- what a block record means -----

  /** The record of a block whose walk ends at `pc` in `state` after `words` words. */
  function RecordAt(c: Context, start: nat, pc: nat, state: State, words: nat): Block {
    if After(c, pc, state).Some? then Block(start, pc + 4, words + 1, None, EndFallThrough)
    else StopBlock(c, start, pc, state, words)
  }

  lemma ShapePasses(c: Context, start: nat, from: nat, following: nat, entry: State, words: nat)
    requires from == start || (start + 4 <= from && from !in c.boundaries)
    requires Passing(c, from, entry).Some? && following == from + 4
    ensures Shape(c, start, from, entry, words) == Shape(c, start, following, Passing(c, from, entry).value, words + 1)
    ensures following !in c.boundaries
  {
  }

  lemma ShapeEnds(c: Context, start: nat, from: nat, entry: State, words: nat)
    requires from == start || (start + 4 <= from && from !in c.boundaries)
    requires Passing(c, from, entry).None?
    ensures Shape(c, start, from, entry, words) == RecordAt(c, start, from, entry, words)
  {
    hide StopBlock;
  }

  lemma ReachesOn(c: Context, from: nat, following: nat, entry: State, pc: nat, state: State)
    requires Passing(c, from, entry).Some? && following == from + 4
    requires Reaches(c, following, Passing(c, from, entry).value, pc, state)
    ensures Reaches(c, from, entry, pc, state)
  {
  }

  /** A record is that of the last point of its walk: there the next word is a boundary, or the word
      stops the walk. */
  lemma {:induction false} RecordIsAtLast(c: Context, start: nat, from: nat, entry: State, words: nat)
    returns (pc: nat, state: State, count: nat)
    requires from == start || (start + 4 <= from && from !in c.boundaries)
    requires from == start + 4 * words
    ensures Reaches(c, from, entry, pc, state) && Passing(c, pc, state).None? && pc == start + 4 * count
    ensures Shape(c, start, from, entry, words) == RecordAt(c, start, pc, state, count)
    decreases LINEAR_PC_END - from
  {
    hide Shape, RecordAt, Fetch, Apply;
    pc, state, count := from, entry, words;
    if Passing(c, from, entry).Some? {
      var following, next := from + 4, Passing(c, from, entry).value;
      ShapePasses(c, start, from, following, entry, words);
      pc, state, count := RecordIsAtLast(c, start, following, next, words + 1);
      ReachesOn(c, from, following, entry, pc, state);
    } else {
      ShapeEnds(c, start, from, entry, words);
    }
  }

  /** The walk passes every word up to the one it stands at. */
  lemma {:induction false} PassesBefore(c: Context, from: nat, entry: State, pc: nat, state: State, q: nat, steps: nat)
    returns (there: State)
    requires Reaches(c, from, entry, pc, state) && q == from + 4 * steps <= pc
    ensures Reaches(c, from, entry, q, there)
    decreases steps
  {
    hide Passing;
    if steps == 0 { return entry; }
    there := PassesBefore(c, from + 4, Passing(c, from, entry).value, pc, state, q, steps - 1);
  }

  /** Where a record ends and how many words it counts, given the word its walk ends at: a decoded
      last word and a decoded delay slot count, an undecoded word is only covered. */
  lemma RecordEnds(c: Context, start: nat, pc: nat, state: State, words: nat)
    requires Passing(c, pc, state).None?
    ensures var b := RecordAt(c, start, pc, state, words);
            && b.start == start
            && b.end == (if !HasWord(c, pc) then pc else if IsTransfer(c, pc) then pc + 8 else pc + 4)
            && b.words == words
                        + (if Fetch(c.image, pc).Decoded? then 1 else 0)
                        + (if IsTransfer(c, pc) && !DelaySlot(c, pc, LinkedAt(c, pc, state)).SlotMissing? then 1 else 0)
  {
    hide Apply, Linked, SuccessorsOf;
  }

  /** The walk of a block passes `q`. */
  ghost predicate Owns(c: Context, start: nat, entry: State, q: nat) {
    exists state: State :: Reaches(c, start, entry, q, state)
  }

  /** `q` is the delay slot of a transfer that the walk of a block stands at. */
  ghost predicate IsSlotOf(c: Context, start: nat, entry: State, q: nat) {
    4 <= q && Owns(c, start, entry, q - 4) && IsTransfer(c, q - 4)
  }

  /** The words between the start and the end of a record are those its walk passes and the delay
      slot of its last. */
  lemma RecordHoldsItsWords(c: Context, start: nat, entry: State, q: nat, steps: nat)
    requires q == start + 4 * steps < Shape(c, start, start, entry, 0).end
    ensures Owns(c, start, entry, q) || IsSlotOf(c, start, entry, q)
  {
    hide Reaches, Shape, RecordAt, IsTransfer, Passing, Fetch;
    var pc, state, count := RecordIsAtLast(c, start, start, entry, 0);
    RecordReaches(c, start, pc, state, count);
    if steps <= count {
      var there := PassesBefore(c, start, entry, pc, state, q, steps);
    } else {
      assert steps == count + 1;
    }
  }

  lemma RecordReaches(c: Context, start: nat, pc: nat, state: State, words: nat)
    requires Passing(c, pc, state).None?
    ensures var b := RecordAt(c, start, pc, state, words);
            b.end <= (if IsTransfer(c, pc) then pc + 8 else pc + 4)
  {
    hide Passing, RecordAt, IsTransfer;
    RecordEnds(c, start, pc, state, words);
  }

  /** Two blocks share a word only as the delay slot of one of them. */
  lemma BlocksShareOnlySlots(c: Context, entries: Entries, a: nat, b: nat, q: nat)
    requires LeadersOnly(c, entries) && a in entries && b in entries && a != b
    requires a <= q < Shape(c, a, a, entries[a], 0).end && b <= q < Shape(c, b, b, entries[b], 0).end && q % 4 == 0
    ensures IsSlotOf(c, a, entries[a], q) || IsSlotOf(c, b, entries[b], q)
  {
    hide Shape, Reaches, IsSlotOf, LeadersOnly, Owns;
    AlignedLeader(c, entries, a);
    AlignedLeader(c, entries, b);
    var i, j := StepsTo(a, q), StepsTo(b, q);
    RecordHoldsItsWords(c, a, entries[a], q, i);
    RecordHoldsItsWords(c, b, entries[b], q, j);
    if Owns(c, a, entries[a], q) && Owns(c, b, entries[b], q) { OneOwner(c, entries, a, b, q); }
  }

  function StepsTo(from: nat, to: nat): (steps: nat)
    requires from <= to && from % 4 == 0 && to % 4 == 0
    ensures to == from + 4 * steps
  {
    (to - from) / 4
  }

  lemma OneOwner(c: Context, entries: Entries, a: nat, b: nat, q: nat)
    requires LeadersOnly(c, entries) && a in entries && b in entries
    requires Owns(c, a, entries[a], q) && Owns(c, b, entries[b], q)
    ensures a == b
  {
    hide Reaches, LeadersOnly;
    var s: State :| Reaches(c, a, entries[a], q, s);
    var t: State :| Reaches(c, b, entries[b], q, t);
    OneBlockPerWord(c, entries, q, a, s, b, t);
  }

  lemma AlignedLeader(c: Context, entries: Entries, start: nat)
    requires LeadersOnly(c, entries) && start in entries
    ensures start % 4 == 0
  {
    assert c.image.wordAt(start).Some?;
  }

  // ----- where an observation comes from -----

  /** Published for the word at `pc` itself, in the state the walk has there. */
  ghost predicate FromWord(c: Context, pc: nat, state: State, o: Observation) {
    After(c, pc, state).Some? && o in Facts(c, pc, state)
  }

  /** Published for the delay slot of the transfer at `pc`. */
  ghost predicate FromSlot(c: Context, pc: nat, state: State, o: Observation) {
    After(c, pc, state).None? && o in StopEmits(c, pc, state)
  }

  /** Every observation of a block stems from a point of its walk. */
  lemma {:induction false} Origin(c: Context, start: nat, from: nat, entry: State, o: Observation)
    returns (pc: nat, state: State)
    requires start <= from && o in Emits(c, start, from, entry)
    ensures Reaches(c, from, entry, pc, state)
    ensures FromWord(c, pc, state, o) || FromSlot(c, pc, state, o)
    decreases LINEAR_PC_END - from
  {
    pc, state := from, entry;
    if After(c, from, entry).Some? {
      var next := After(c, from, entry).value;
      if o !in Facts(c, from, entry) {
        OriginIsLater(c, start, from, entry, o);
        pc, state := Origin(c, start, from + 4, next, o);
        assert Passing(c, from, entry) == Some(next);
      }
    }
  }

  lemma OriginIsLater(c: Context, start: nat, from: nat, entry: State, o: Observation)
    requires start <= from && o in Emits(c, start, from, entry) && After(c, from, entry).Some?
    requires o !in Facts(c, from, entry)
    ensures o in Emits(c, start, from + 4, After(c, from, entry).value) && from + 4 !in c.boundaries
  {
  }

  /** Conversely the walk publishes what each of its words observes. */
  lemma {:induction false} WordIsPublished(c: Context, start: nat, from: nat, entry: State, pc: nat, state: State)
    requires from == start || (start + 4 <= from && from !in c.boundaries)
    requires Reaches(c, from, entry, pc, state)
    ensures After(c, pc, state).Some? ==> Facts(c, pc, state) <= Emits(c, start, from, entry)
    ensures After(c, pc, state).None? ==> StopEmits(c, pc, state) <= Emits(c, start, from, entry)
    decreases LINEAR_PC_END - from
  {
    hide After, Facts, StopEmits;
    if !(from == pc && entry == state) {
      var following := from + 4;
      WordIsPublished(c, start, following, Passing(c, from, entry).value, pc, state);
    }
  }

  // ----- one published fact at one word -----

  /** An observation of a word names the real access or the real result of that word. */
  ghost predicate Names(c: Context, o: Observation, word: Word, pc: nat, x: Registers, y: Registers) {
    && o.pc == pc
    && c.image.decode(word, pc).Decoded? && c.image.decode(word, pc).flow.Sequential?
    && (o.Xref? ==>
          var op := c.image.decode(word, pc).flow.op;
          && op.Memory? && (o.form, o.width) == AccessOf(op.memory)
          && o.target == Canonical(EffectiveAddress(word, x)))
    && (o.Materialization? ==> 0 < o.register < 32 && o.target == Canonical(y[o.register]))
  }

  lemma ObservationNames(
    c: Context, mapping: Mapping, word: Word, pc: nat, state: State, x: Registers, oracle: Oracle, o: Observation)
    requires Publishes(c, mapping) && Agrees(c.image, c.tables) && Describes(state, x)
    requires o in c.observe(word, pc, state)
    requires c.image.decode(word, pc).Decoded? && c.image.decode(word, pc).flow.Sequential?
    requires Execute(c.image.alu, c.image.decode(word, pc).flow.op, word, x, oracle).Next?
    ensures Names(c, o, word, pc, x, Execute(c.image.alu, c.image.decode(word, pc).flow.op, word, x, oracle).registers)
  {
    var op := c.image.decode(word, pc).flow.op;
    assert ReadsWord(c.image, c.tables, word, op);
    hide Agrees, Execute, Apply, Describes, XrefAt, MaterializationAt;
    if c.tables.access(word).Some? {
      XrefNames(c, mapping, word, pc, state, x, o);
    } else {
      WordIsSound(c, word, pc, state, x, oracle);
      MaterializationNames(c, mapping, word, pc, state, Execute(c.image.alu, op, word, x, oracle).registers, o);
    }
  }

  lemma XrefNames(c: Context, mapping: Mapping, word: Word, pc: nat, state: State, x: Registers, o: Observation)
    requires Publishes(c, mapping) && Describes(state, x) && o in c.observe(word, pc, state)
    requires c.image.decode(word, pc).Decoded? && c.image.decode(word, pc).flow.Sequential?
    requires ReadsWord(c.image, c.tables, word, c.image.decode(word, pc).flow.op) && c.tables.access(word).Some?
    ensures forall y :: Names(c, o, word, pc, x, y)
  {
    hide Canonical, Execute, Perform;
  }

  lemma MaterializationNames(
    c: Context, mapping: Mapping, word: Word, pc: nat, state: State, y: Registers, o: Observation)
    requires Publishes(c, mapping) && o in c.observe(word, pc, state) && c.tables.access(word).None?
    requires c.image.decode(word, pc).Decoded? && c.image.decode(word, pc).flow.Sequential?
    requires Apply(c.image.alu, c.tables.action(word), state).Continue?
    requires Describes(Apply(c.image.alu, c.tables.action(word), state).state, y)
    ensures forall x :: Names(c, o, word, pc, x, y)
  {
    hide Canonical, Apply, Resolve;
  }

  // ----- published facts over whole runs -----

  /** On every run from a seed, whenever the word `o` was published for executes in its own
      right, `o` names what it really accesses or computes. */
  ghost predicate RealAtWord(c: Context, p: Problem, o: Observation) {
    forall pcs: seq<nat>, files: seq<Registers>, oracles: seq<Oracle>, i: nat ::
      IsRun(c.image, pcs, files, oracles) && pcs[0] in p.seeds && i < |oracles| && pcs[i] == o.pc ==>
        c.image.wordAt(o.pc).Some? && Names(c, o, c.image.wordAt(o.pc).value, o.pc, files[i], files[i + 1])
  }

  /** If the transfer at `pc` runs its delay slot from registers `x`, `o` names what the slot
      really accesses or computes. */
  ghost predicate SlotNames(c: Context, o: Observation, pc: nat, x: Registers, oracle: Oracle) {
    && Fetch(c.image, pc).Decoded? && c.image.wordAt(pc + 4).Some?
    && var y := LinkedRegisters(c.image.wordAt(pc).value, Fetch(c.image, pc).flow, pc, x);
       Slot(c.image, pc, y, oracle).Next? ==>
         Names(c, o, c.image.wordAt(pc + 4).value, pc + 4, y, Slot(c.image, pc, y, oracle).registers)
  }

  /** On every run from a seed, whenever the run stands at the transfer before that word and the
      word executes as its delay slot, `o` names what the slot really accesses or computes. The
      transfer need not have a step of its own: the slots of indirect jumps and returns count. */
  ghost predicate RealInSlot(c: Context, p: Problem, o: Observation) {
    forall pcs: seq<nat>, files: seq<Registers>, oracles: seq<Oracle>, i: nat, oracle: Oracle ::
      IsRun(c.image, pcs, files, oracles) && pcs[0] in p.seeds && i < |pcs| && pcs[i] + 4 == o.pc ==>
        SlotNames(c, o, pcs[i], files[i], oracle)
  }

  /** Form and class of a fact follow from its address and the mapping: the span of a merging access
      is the aligned one, and a materialised address lies in a mapping. */
  ghost predicate IsResolved(mapping: Mapping, o: Observation) {
    match o
    case Xref(_, target, span, form, width, resolved) =>
      && 0 < width && resolved == Resolve(mapping, span, width)
      && span == if form == ScalarLoad || form == ScalarStore then target else target - target % width
    case Materialization(_, _, target, kind) =>
      kind == Resolve(mapping, target, 1).kind && (kind == FullyFileBacked || kind == MappedZeroFill)
  }

  lemma PublishedIsResolved(c: Context, mapping: Mapping, pc: nat, state: State, o: Observation)
    requires Publishes(c, mapping) && Agrees(c.image, c.tables)
    requires FromWord(c, pc, state, o) || FromSlot(c, pc, state, o)
    ensures IsResolved(mapping, o)
  {
    var at, there := if FromWord(c, pc, state, o) then pc else pc + 4,
                     if FromWord(c, pc, state, o) then state else LinkedAt(c, pc, state);
    var word := c.image.wordAt(at).value;
    assert ReadsWord(c.image, c.tables, word, c.image.decode(word, at).flow.op);
    ObservedIsResolved(c, mapping, word, at, there, o);
  }

  lemma ObservedIsResolved(c: Context, mapping: Mapping, word: Word, pc: nat, state: State, o: Observation)
    requires Publishes(c, mapping) && o in c.observe(word, pc, state)
    requires c.tables.access(word).Some? ==>
               exists op: MemoryOp ::
                 (c.tables.access(word).value.form, c.tables.access(word).value.width) == AccessOf(op)
    ensures IsResolved(mapping, o)
  {
    hide Resolve, Canonical;
  }

  /** The walk of a discovered block passes `pc` in `state`. */
  ghost predicate Walks(c: Context, entries: Entries, start: nat, pc: nat, state: State) {
    start in entries && Reaches(c, start, entries[start], pc, state)
  }

  /** Some point of some walk publishes `o`, for its own word or for its delay slot. */
  ghost predicate HasOrigin(c: Context, entries: Entries, o: Observation) {
    exists start: nat, pc: nat, state: State ::
      Walks(c, entries, start, pc, state) && (FromWord(c, pc, state, o) || FromSlot(c, pc, state, o))
  }

  /** In every position it is published for, `o` names what really happens there. */
  ghost predicate RealWherePublished(c: Context, p: Problem, entries: Entries, o: Observation) {
    forall start: nat, pc: nat, state: State :: Walks(c, entries, start, pc, state) ==>
      && (FromWord(c, pc, state, o) ==> o.pc == pc && RealAtWord(c, p, o))
      && (FromSlot(c, pc, state, o) ==> o.pc == pc + 4 && RealInSlot(c, p, o))
  }

  /** Every published fact stems from a point of a walk, and in each position it is published for
      it names the actual address on every execution of every run from a seed. */
  lemma PublishedFactsAreReal(c: Context, mapping: Mapping, p: Problem, entries: Entries, start: nat, o: Observation)
    requires Publishes(c, mapping) && Agrees(c.image, c.tables) && Models(p, c) && CallsAreSeeds(p, c.image)
    requires Solution(p, entries)
    requires LeadersOnly(c, entries) && c.boundaries <= p.executable
    requires start in entries && o in Emits(c, start, start, entries[start])
    ensures HasOrigin(c, entries, o) && RealWherePublished(c, p, entries, o) && IsResolved(mapping, o)
  {
    hide Publishes, Agrees, Models, CallsAreSeeds, Solution, LeadersOnly, Reaches, FromWord, FromSlot, RealAtWord,
      RealInSlot, IsResolved;
    var at, there := Origin(c, start, start, entries[start], o);
    PublishedIsResolved(c, mapping, at, there, o);
    assert Walks(c, entries, start, at, there);
    forall b: nat, pc: nat, state: State | Walks(c, entries, b, pc, state)
      ensures FromWord(c, pc, state, o) ==> o.pc == pc && RealAtWord(c, p, o)
      ensures FromSlot(c, pc, state, o) ==> o.pc == pc + 4 && RealInSlot(c, p, o)
    {
      PublishedAt(c, mapping, pc, state, o);
      if FromWord(c, pc, state, o) { WordFactIsReal(c, mapping, p, entries, b, pc, state, o); }
      if FromSlot(c, pc, state, o) { SlotFactIsReal(c, mapping, p, entries, b, pc, state, o); }
    }
  }

  lemma WordFactIsReal(
    c: Context, mapping: Mapping, p: Problem, entries: Entries, start: nat, pc: nat, state: State, o: Observation)
    requires Publishes(c, mapping) && Agrees(c.image, c.tables) && Models(p, c) && CallsAreSeeds(p, c.image)
    requires Solution(p, entries)
    requires LeadersOnly(c, entries) && c.boundaries <= p.executable
    requires start in entries && Reaches(c, start, entries[start], pc, state) && FromWord(c, pc, state, o)
    ensures RealAtWord(c, p, o)
  {
    PublishedAt(c, mapping, pc, state, o);
    forall pcs: seq<nat>, files: seq<Registers>, oracles: seq<Oracle>, i: nat
      | IsRun(c.image, pcs, files, oracles) && pcs[0] in p.seeds && i < |oracles| && pcs[i] == o.pc
      ensures Names(c, o, c.image.wordAt(o.pc).value, o.pc, files[i], files[i + 1])
    {
      TrackedState(c, p, entries, start, pc, state, pcs, files, oracles, i);
      WordFactAtStep(c, mapping, pc, state, files[i], oracles[i], (pcs[i + 1], files[i + 1]), o);
    }
  }

  lemma SlotFactIsReal(
    c: Context, mapping: Mapping, p: Problem, entries: Entries, start: nat, pc: nat, state: State, o: Observation)
    requires Publishes(c, mapping) && Agrees(c.image, c.tables) && Models(p, c) && CallsAreSeeds(p, c.image)
    requires Solution(p, entries)
    requires LeadersOnly(c, entries) && c.boundaries <= p.executable
    requires start in entries && Reaches(c, start, entries[start], pc, state) && FromSlot(c, pc, state, o)
    ensures RealInSlot(c, p, o)
  {
    PublishedAt(c, mapping, pc, state, o);
    forall pcs: seq<nat>, files: seq<Registers>, oracles: seq<Oracle>, i: nat, oracle: Oracle
      | IsRun(c.image, pcs, files, oracles) && pcs[0] in p.seeds && i < |pcs| && pcs[i] + 4 == o.pc
      ensures SlotNames(c, o, pcs[i], files[i], oracle)
    {
      TrackedState(c, p, entries, start, pc, state, pcs, files, oracles, i);
      SlotFactAtStep(c, mapping, pc, state, files[i], oracle, o);
    }
  }

  /** An observation carries the address of the word it was published for. */
  lemma PublishedAt(c: Context, mapping: Mapping, pc: nat, state: State, o: Observation)
    requires Publishes(c, mapping)
    ensures FromWord(c, pc, state, o) ==> o.pc == pc && c.image.wordAt(pc).Some?
    ensures FromSlot(c, pc, state, o) ==> o.pc == pc + 4 && c.image.wordAt(pc).Some? && c.image.wordAt(pc + 4).Some?
  {
  }

  lemma WordFactAtStep(
    c: Context, mapping: Mapping, pc: nat, state: State, x: Registers, oracle: Oracle, next: (nat, Registers),
    o: Observation)
    requires Publishes(c, mapping) && Agrees(c.image, c.tables) && Describes(state, x) && FromWord(c, pc, state, o)
    requires Step(c.image, pc, x, oracle) == Some(next)
    ensures Names(c, o, c.image.wordAt(pc).value, pc, x, next.1)
  {
    ObservationNames(c, mapping, c.image.wordAt(pc).value, pc, state, x, oracle, o);
  }

  lemma SlotFactAtStep(
    c: Context, mapping: Mapping, pc: nat, state: State, x: Registers, oracle: Oracle, o: Observation)
    requires Publishes(c, mapping) && Agrees(c.image, c.tables) && Describes(state, x) && FromSlot(c, pc, state, o)
    ensures o.pc == pc + 4 && SlotNames(c, o, pc, x, oracle)
  {
    hide Agrees, Publishes, Execute, Linked, LinkedRegisters, Describes;
    PublishedAt(c, mapping, pc, state, o);
    var word, flow := c.image.wordAt(pc).value, Fetch(c.image, pc).flow;
    LinkedIsSound(c, pc, state, x);
    var y := LinkedRegisters(word, flow, pc, x);
    if Slot(c.image, pc, y, oracle).Next? {
      ObservationNames(c, mapping, c.image.wordAt(pc + 4).value, pc + 4, Linked(word, flow, pc, state), y, oracle, o);
    }
  }

  /** At every visit of a run to a walked word, the walk's own state describes the registers. */
  lemma TrackedState(
    c: Context, p: Problem, entries: Entries, start: nat, pc: nat, state: State,
    pcs: seq<nat>, files: seq<Registers>, oracles: seq<Oracle>, i: nat)
    requires Agrees(c.image, c.tables) && Models(p, c) && CallsAreSeeds(p, c.image) && Solution(p, entries)
    requires LeadersOnly(c, entries) && c.boundaries <= p.executable
    requires start in entries && Reaches(c, start, entries[start], pc, state) && c.image.wordAt(pc).Some?
    requires IsRun(c.image, pcs, files, oracles) && pcs[0] in p.seeds && i < |pcs| && pcs[i] == pc
    ensures Describes(state, files[i])
  {
    RunsAreTracked(c, p, entries, pcs, files, oracles, i);
    var b, s: State :| b in entries && Reaches(c, b, entries[b], pc, s) && Describes(s, files[i]);
    OneBlockPerWord(c, entries, pc, start, state, b, s);
  }
}
