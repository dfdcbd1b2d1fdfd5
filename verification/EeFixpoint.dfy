/** Block-entry states as a least fixpoint. The join equations are stated for any monotone block
    transfer; the lemmas here say what one worklist step keeps and why it terminates. */
module EeFixpoint {
  import opened Common
  import opened EeEffects
  import opened EeBlocks

  type Entries = map<nat, State>

  /** A propagation problem: the block transfer, the executable words and the seed blocks. */
  datatype Problem = Problem(transfer: (nat, State) -> seq<Successor>, executable: set<nat>, seeds: set<nat>)

  ghost predicate Monotone(p: Problem) {
    forall block: nat, strong: State, weak: State :: Weaker(strong, weak) ==>
      Covered(p.transfer(block, strong), p.transfer(block, weak))
  }

  /** A successor that carries a state into an executable word is accounted for. */
  predicate Accepts(p: Problem, entries: Entries, s: Successor) {
    s.state.Some? && s.edge.target in p.executable ==>
      s.edge.target in entries && Weaker(s.state.value, entries[s.edge.target])
  }

  predicate Solved(p: Problem, entries: Entries, block: nat)
    requires block in entries
  {
    forall s :: s in p.transfer(block, entries[block]) ==> Accepts(p, entries, s)
  }

  /** Seeds start unknown and every discovered block's successors are accounted for. */
  ghost predicate Solution(p: Problem, entries: Entries) {
    && (forall seed :: seed in p.seeds ==> seed in entries && entries[seed] == UnknownState())
    && (forall block: nat {:trigger Solved(p, entries, block)} :: block in entries ==> Solved(p, entries, block))
  }

  /** `entries` discovers no block and forgets no constant that `other` does not. */
  predicate Below(entries: Entries, other: Entries) {
    forall block :: block in entries ==> block in other && Weaker(entries[block], other[block])
  }

  ghost predicate BelowAll(p: Problem, entries: Entries) {
    forall other: Entries :: Solution(p, other) ==> Below(entries, other)
  }

  ghost predicate Least(p: Problem, entries: Entries) {
    Solution(p, entries) && BelowAll(p, entries)
  }

  /** The least solution is unique, so the order in which blocks are taken cannot matter. */
  lemma LeastIsUnique(p: Problem, a: Entries, b: Entries)
    requires Least(p, a) && Least(p, b)
    ensures a == b
  {
    assert Below(a, b) && Below(b, a);
    forall block | block in a ensures block in b && a[block] == b[block] {
      WeakerIsAntisymmetric(a[block], b[block]);
    }
  }

  // ----- one insertion -----

  /** The incoming state is accounted for in every solution. */
  ghost predicate Justified(p: Problem, target: nat, incoming: State) {
    forall other: Entries :: Solution(p, other) ==> target in other && Weaker(incoming, other[target])
  }

  function Inserted(entries: Entries, target: nat, incoming: State): Entries {
    entries[target := if target in entries then Join(entries[target], incoming) else incoming]
  }

  predicate Grows(before: Entries, after: Entries) { Below(before, after) }

  lemma InsertedGrows(entries: Entries, target: nat, incoming: State)
    ensures Grows(entries, Inserted(entries, target, incoming))
    ensures Weaker(incoming, Inserted(entries, target, incoming)[target])
  {
    if target in entries { JoinIsLeastUpperBound(entries[target], incoming); }
  }

  lemma GrowthKeepsAccepts(p: Problem, before: Entries, after: Entries, s: Successor)
    requires Grows(before, after) && Accepts(p, before, s)
    ensures Accepts(p, after, s)
  {
    if s.state.Some? && s.edge.target in p.executable {
      WeakerIsTransitive(s.state.value, before[s.edge.target], after[s.edge.target]);
    }
  }

  /** A block whose own entry state is untouched stays solved while other entries grow. */
  lemma GrowthKeepsSolved(p: Problem, before: Entries, after: Entries, block: nat)
    requires Grows(before, after) && block in before && Solved(p, before, block)
    requires before[block] == after[block]
    ensures Solved(p, after, block)
  {
    forall s | s in p.transfer(block, after[block]) ensures Accepts(p, after, s) {
      GrowthKeepsAccepts(p, before, after, s);
    }
  }

  lemma InsertionStaysBelow(p: Problem, entries: Entries, target: nat, incoming: State)
    requires BelowAll(p, entries) && Justified(p, target, incoming)
    ensures BelowAll(p, Inserted(entries, target, incoming))
  {
    forall other: Entries | Solution(p, other) ensures Below(Inserted(entries, target, incoming), other) {
      assert Below(entries, other);
      if target in entries { JoinIsLeastUpperBound(entries[target], incoming); }
    }
  }

  /** Monotonicity turns "below every solution" at a block into justified successors. */
  lemma SuccessorIsJustified(p: Problem, entries: Entries, block: nat, s: Successor)
    requires Monotone(p) && BelowAll(p, entries) && block in entries
    requires s in p.transfer(block, entries[block]) && s.state.Some? && s.edge.target in p.executable
    ensures Justified(p, s.edge.target, s.state.value)
  {
    forall other: Entries | Solution(p, other)
      ensures s.edge.target in other && Weaker(s.state.value, other[s.edge.target])
    {
      assert Below(entries, other) && Solved(p, other, block);
      assert Covered(p.transfer(block, entries[block]), p.transfer(block, other[block]));
      var w :| w in p.transfer(block, other[block]) && WeakerSuccessor(s, w);
      assert Accepts(p, other, w);
      WeakerIsTransitive(s.state.value, w.state.value, other[s.edge.target]);
    }
  }

  // ----- termination -----

  /** The register constants still held somewhere. */
  ghost function Constants(entries: Entries): set<(nat, nat)> {
    set block, i | block in entries.Keys && 0 <= i < 32 && entries[block][i].Exact? :: (block, i)
  }

  /** Inserting discovers a block, forgets a constant, or changes nothing. */
  lemma InsertionMakesProgress(entries: Entries, target: nat, incoming: State)
    requires target in entries
    ensures Inserted(entries, target, incoming).Keys == entries.Keys
    ensures var after := Inserted(entries, target, incoming);
            after == entries || Constants(after) < Constants(entries)
  {
    var after := Inserted(entries, target, incoming);
    if after[target] != entries[target] {
      var i :| 0 <= i < 32 && after[target][i] != entries[target][i];
      assert (target, i) in Constants(entries) && (target, i) !in Constants(after);
      assert Constants(after) <= Constants(entries);
    }
  }

  // ----- the worklist invariant -----

  /** Outside the pending set everything discovered is solved, seeds are in place, and nothing
      is recorded that some solution lacks. */
  ghost predicate Invariant(p: Problem, entries: Entries, pending: set<nat>) {
    && entries.Keys <= p.executable && pending <= entries.Keys
    && (forall seed :: seed in p.seeds ==> seed in entries && entries[seed] == UnknownState())
    && (forall block: nat {:trigger Solved(p, entries, block)} ::
          block in entries && block !in pending ==> Solved(p, entries, block))
    && BelowAll(p, entries)
  }

  /** The invariant while the first `done` successors of `current` have been delivered. */
  ghost predicate Delivering(
    p: Problem, entries: Entries, pending: set<nat>, current: nat, state: State, done: nat)
  {
    var successors := p.transfer(current, state);
    && done <= |successors|
    && current in entries
    && entries.Keys <= p.executable && pending <= entries.Keys
    && (forall seed :: seed in p.seeds ==> seed in entries && entries[seed] == UnknownState())
    && (forall block: nat {:trigger Solved(p, entries, block)} ::
          block in entries && block !in pending && block != current ==> Solved(p, entries, block))
    && (current !in pending ==>
          entries[current] == state && forall i :: 0 <= i < done ==> Accepts(p, entries, successors[i]))
    && (forall i :: 0 <= i < |successors| && successors[i].state.Some? && successors[i].edge.target in p.executable ==>
          Justified(p, successors[i].edge.target, successors[i].state.value))
    && BelowAll(p, entries)
  }

  lemma StartDelivering(p: Problem, entries: Entries, pending: set<nat>, current: nat)
    requires Monotone(p) && Invariant(p, entries, pending) && current in pending
    ensures Delivering(p, entries, pending - {current}, current, entries[current], 0)
  {
    var successors := p.transfer(current, entries[current]);
    forall i | 0 <= i < |successors| && successors[i].state.Some? && successors[i].edge.target in p.executable
      ensures Justified(p, successors[i].edge.target, successors[i].state.value)
    {
      SuccessorIsJustified(p, entries, current, successors[i]);
    }
  }

  /** Delivering one successor keeps the invariant, whether or not its target changes. */
  lemma DeliverOne(
    p: Problem, entries: Entries, pending: set<nat>, current: nat, state: State, done: nat, changed: set<nat>)
    requires Delivering(p, entries, pending, current, state, done) && done < |p.transfer(current, state)|
    requires var s := p.transfer(current, state)[done];
             && s.state.Some? && s.edge.target in p.executable
             && changed == if Inserted(entries, s.edge.target, s.state.value) == entries then {} else {s.edge.target}
    ensures var s := p.transfer(current, state)[done];
            Delivering(p, Inserted(entries, s.edge.target, s.state.value), pending + changed, current, state, done + 1)
  {
    var successors := p.transfer(current, state);
    var s := successors[done];
    var after := Inserted(entries, s.edge.target, s.state.value);
    InsertedGrows(entries, s.edge.target, s.state.value);
    InsertionStaysBelow(p, entries, s.edge.target, s.state.value);
    forall seed | seed in p.seeds ensures after[seed] == UnknownState() {
      UnknownIsWeakest(after[seed]);
    }
    forall block | block in after && block !in pending + changed && block != current ensures Solved(p, after, block) {
      assert after[block] == entries[block];
      GrowthKeepsSolved(p, entries, after, block);
    }
    if current !in pending + changed {
      forall i | 0 <= i < done ensures Accepts(p, after, successors[i]) {
        GrowthKeepsAccepts(p, entries, after, successors[i]);
      }
    }
  }

  /** A successor without a state, or out of coverage, needs no delivery. */
  lemma DeliverNone(p: Problem, entries: Entries, pending: set<nat>, current: nat, state: State, done: nat)
    requires Delivering(p, entries, pending, current, state, done) && done < |p.transfer(current, state)|
    requires var s := p.transfer(current, state)[done]; s.state.None? || s.edge.target !in p.executable
    ensures Delivering(p, entries, pending, current, state, done + 1)
  {
  }

  lemma FinishDelivering(p: Problem, entries: Entries, pending: set<nat>, current: nat, state: State)
    requires Delivering(p, entries, pending, current, state, |p.transfer(current, state)|)
    ensures Invariant(p, entries, pending)
  {
    if current !in pending {
      forall s | s in p.transfer(current, entries[current]) ensures Accepts(p, entries, s) {
        var i :| 0 <= i < |p.transfer(current, state)| && p.transfer(current, state)[i] == s;
      }
    }
  }

  /** With nothing pending the recorded entry states are the least solution. */
  lemma EmptyWorklistIsLeast(p: Problem, entries: Entries)
    requires Invariant(p, entries, {})
    ensures Least(p, entries)
  {
  }

  // ----- the join equations -----

  /** A discovered block hands `incoming` to `target`. */
  ghost predicate Hands(p: Problem, entries: Entries, block: nat, target: nat, incoming: State) {
    && block in entries
    && exists s :: s in p.transfer(block, entries[block]) && s.state == Some(incoming) && s.edge.target == target
  }

  ghost predicate Delivered(p: Problem, entries: Entries, target: nat, incoming: State) {
    exists block: nat :: Hands(p, entries, block, target, incoming)
  }

  ghost predicate Bounds(p: Problem, entries: Entries, target: nat, bound: State) {
    forall incoming: State :: Delivered(p, entries, target, incoming) ==> Weaker(incoming, bound)
  }

  /** The entry state is the join of the states delivered to it: at least one is delivered, it bounds
      them all, and it is the least state that does. */
  ghost predicate IsJoin(p: Problem, entries: Entries, target: nat)
    requires target in entries
  {
    && (exists incoming: State :: Delivered(p, entries, target, incoming))
    && Bounds(p, entries, target, entries[target])
    && forall bound: State :: Bounds(p, entries, target, bound) ==> Weaker(entries[target], bound)
  }

  lemma DeliveredIsAccepted(p: Problem, entries: Entries, target: nat)
    requires Solution(p, entries) && target in entries && target in p.executable
    ensures Bounds(p, entries, target, entries[target])
  {
    forall incoming: State | Delivered(p, entries, target, incoming) ensures Weaker(incoming, entries[target]) {
      var block: nat :| Hands(p, entries, block, target, incoming);
      var s :| s in p.transfer(block, entries[block]) && s.state == Some(incoming) && s.edge.target == target;
      assert Solved(p, entries, block) && Accepts(p, entries, s);
    }
  }

  /** Without a delivery, or outside coverage, a block that is no seed could be left out. */
  lemma WithoutIsSolution(p: Problem, entries: Entries, target: nat)
    requires Solution(p, entries) && target in entries && target !in p.seeds
    requires target in p.executable ==> forall incoming: State :: !Delivered(p, entries, target, incoming)
    ensures Solution(p, entries - {target})
  {
    var rest := entries - {target};
    forall block: nat | block in rest ensures Solved(p, rest, block) {
      assert Solved(p, entries, block);
      forall s | s in p.transfer(block, rest[block]) ensures Accepts(p, rest, s) {
        assert Accepts(p, entries, s);
        if s.state.Some? && s.edge.target == target {
          assert Hands(p, entries, block, target, s.state.value);
          assert Delivered(p, entries, target, s.state.value);
        }
      }
    }
  }

  lemma LeastIsDelivered(p: Problem, entries: Entries, target: nat)
    requires Least(p, entries) && target in entries && target !in p.seeds
    ensures target in p.executable && exists incoming: State :: Delivered(p, entries, target, incoming)
  {
    hide Delivered, Solution;
    NotBelowWithout(entries, target);
    if target !in p.executable || forall incoming: State :: !Delivered(p, entries, target, incoming) {
      WithoutIsSolution(p, entries, target);
    }
  }

  lemma NotBelowWithout(entries: Entries, target: nat)
    requires target in entries
    ensures !Below(entries, entries - {target})
  {
  }

  /** Keep the constants of `a`, and take those of `b` where `a` has none. */
  function Refine(a: State, b: State): State {
    seq(32, i requires 0 <= i < 32 => if a[i].Exact? then a[i] else b[i])
  }

  lemma RefineIsBetween(a: State, b: State, incoming: State)
    requires Weaker(incoming, a) && Weaker(incoming, b)
    ensures Weaker(incoming, Refine(a, b)) && Weaker(Refine(a, b), a) && Weaker(Refine(a, b), b)
  {
  }

  lemma RefinedIsSolution(p: Problem, entries: Entries, target: nat, bound: State)
    requires Monotone(p) && Solution(p, entries) && target in entries && target !in p.seeds
    requires target in p.executable && Bounds(p, entries, target, bound)
    requires exists incoming: State :: Delivered(p, entries, target, incoming)
    ensures Solution(p, entries[target := Refine(entries[target], bound)])
    ensures Weaker(Refine(entries[target], bound), bound)
  {
    hide Delivered, Refine;
    var refined := Refine(entries[target], bound);
    var better := entries[target := refined];
    DeliveredIsAccepted(p, entries, target);
    forall incoming: State | Delivered(p, entries, target, incoming)
      ensures Weaker(incoming, refined) && Weaker(refined, entries[target]) && Weaker(refined, bound)
    {
      RefineIsBetween(entries[target], bound, incoming);
    }
    forall block: nat | block in better ensures Solved(p, better, block) {
      forall s | s in p.transfer(block, better[block]) ensures Accepts(p, better, s) {
        RefinedAccepts(p, entries, target, refined, block, s);
      }
    }
  }

  lemma RefinedAccepts(p: Problem, entries: Entries, target: nat, refined: State, block: nat, s: Successor)
    requires Monotone(p) && Solution(p, entries) && target in entries && block in entries
    requires Weaker(refined, entries[target]) && Bounds(p, entries, target, refined)
    requires s in p.transfer(block, if block == target then refined else entries[block])
    ensures Accepts(p, entries[target := refined], s)
  {
    hide Weaker, Monotone, Delivered;
    if s.state.Some? && s.edge.target in p.executable {
      SelfIsWeaker(entries[block]);
      var strong := if block == target then refined else entries[block];
      var w := Weakened(p, block, strong, entries[block], s);
      assert Solved(p, entries, block) && Accepts(p, entries, w);
      if s.edge.target == target {
        HandedIsDelivered(p, entries, block, w);
        WeakerIsTransitive(s.state.value, w.state.value, refined);
      } else {
        WeakerIsTransitive(s.state.value, w.state.value, entries[s.edge.target]);
      }
    }
  }

  lemma HandedIsDelivered(p: Problem, entries: Entries, block: nat, w: Successor)
    requires block in entries && w in p.transfer(block, entries[block]) && w.state.Some?
    ensures Delivered(p, entries, w.edge.target, w.state.value)
  {
    assert Hands(p, entries, block, w.edge.target, w.state.value);
  }

  /** Weakening the state of a block keeps each of its transfers, with a weaker state. */
  lemma Weakened(p: Problem, block: nat, strong: State, weak: State, s: Successor) returns (w: Successor)
    requires Monotone(p) && Weaker(strong, weak) && s in p.transfer(block, strong)
    ensures w in p.transfer(block, weak) && WeakerSuccessor(s, w)
  {
    hide Weaker;
    assert Covered(p.transfer(block, strong), p.transfer(block, weak));
    w :| w in p.transfer(block, weak) && WeakerSuccessor(s, w);
  }

  lemma SelfIsWeaker(state: State)
    ensures Weaker(state, state)
  {
  }

  /** In the least solution every entry state that is no seed is exactly the join of the states
      delivered to it. */
  lemma LeastIsJoin(p: Problem, entries: Entries, target: nat)
    requires Monotone(p) && Least(p, entries) && target in entries && target !in p.seeds
    ensures IsJoin(p, entries, target)
  {
    LeastIsDelivered(p, entries, target);
    DeliveredIsAccepted(p, entries, target);
    hide Delivered, Bounds, Solution, Refine;
    forall bound: State | Bounds(p, entries, target, bound) ensures Weaker(entries[target], bound) {
      RefinedIsSolution(p, entries, target, bound);
      var refined := Refine(entries[target], bound);
      assert Below(entries, entries[target := refined]);
      WeakerIsTransitive(entries[target], refined, bound);
    }
  }
}
