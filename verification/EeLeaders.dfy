/** Leader discipline: what the linear scan must record so that every block start reached by
    propagation is already a boundary, and what that implies for the emitted graph. */
module EeLeaders {
  import opened Common
  import opened R5900
  import opened EeEffects
  import opened EeBlocks
  import opened EeFixpoint
  import opened EeSoundness
  import opened EeReality

  predicate IsExecutable(m: Image, pc: nat) { m.wordAt(pc).Some? }

  /** What one word tells the linear scan: a direct target, whether that target starts a
      function, and the word after its delay slot. */
  datatype Announcement = Announcement(target: Option<nat>, isSeed: bool, continuation: Option<nat>)

  function Announces(m: Image, pc: nat): Announcement {
    match Fetch(m, pc)
    case Decoded(ConditionalBranch(_, target)) =>
      Announcement(Some(target), IsRegimmLink(m.wordAt(pc).value), Some(pc + 8))
    case Decoded(UnconditionalBranch(target)) => Announcement(Some(target), false, None)
    case Decoded(Call(target)) => Announcement(Some(target), true, Some(pc + 8))
    case Decoded(IndirectCall) => Announcement(None, false, Some(pc + 8))
    case _ => Announcement(None, false, None)
  }

  function Leader(m: Image, pc: Option<nat>): set<nat> {
    if pc.Some? && IsExecutable(m, pc.value) then {pc.value} else {}
  }

  /** Block starts that the word at `pc` announces: executable targets and continuations. */
  function WordLeaders(m: Image, pc: nat): set<nat> {
    Leader(m, Announces(m, pc).target) + Leader(m, Announces(m, pc).continuation)
  }

  /** Function seeds that the word at `pc` announces: targets of calls and linking branches. */
  function WordSeeds(m: Image, pc: nat): (r: set<nat>)
    ensures r <= WordLeaders(m, pc)
  {
    if Announces(m, pc).isSeed then Leader(m, Announces(m, pc).target) else {}
  }

  ghost function LeadersOf(m: Image, pcs: set<nat>): set<nat> {
    set pc, leader | pc in pcs && leader in WordLeaders(m, pc) :: leader
  }

  ghost function SeedsOf(m: Image, pcs: set<nat>): set<nat> {
    set pc, seed | pc in pcs && seed in WordSeeds(m, pc) :: seed
  }

  /** The scan has seen every executable word, and only executable words became boundaries. */
  ghost predicate Scanned(c: Context) {
    && (forall pc :: pc in c.boundaries ==> IsExecutable(c.image, pc))
    && LeadersOf(c.image, ExecutableWords(c.image)) <= c.boundaries
  }

  lemma {:induction false} AddedWord(m: Image, pcs: set<nat>, pc: nat)
    ensures LeadersOf(m, pcs + {pc}) == LeadersOf(m, pcs) + WordLeaders(m, pc)
    ensures SeedsOf(m, pcs + {pc}) == SeedsOf(m, pcs) + WordSeeds(m, pc)
  {
    assert pc in pcs + {pc};
    forall leader | leader in LeadersOf(m, pcs) + WordLeaders(m, pc) ensures leader in LeadersOf(m, pcs + {pc}) {
      if leader in LeadersOf(m, pcs) {
        var q :| q in pcs && leader in WordLeaders(m, q);
        assert q in pcs + {pc};
      }
    }
    forall seed | seed in SeedsOf(m, pcs) + WordSeeds(m, pc) ensures seed in SeedsOf(m, pcs + {pc}) {
      if seed in SeedsOf(m, pcs) {
        var q :| q in pcs && seed in WordSeeds(m, q);
        assert q in pcs + {pc};
      }
    }
  }

  /** Every executable target of every successor of every block was announced by the scan, no
      matter in which state the block is analysed. */
  lemma {:induction false} ExitsAreLeaders(c: Context, start: nat, pc: nat, state: State, s: Successor)
    requires Scanned(c) && (pc == start || start + 4 <= pc)
    requires s in Exits(c, start, pc, state) && IsExecutable(c.image, s.edge.target)
    ensures s.edge.target in c.boundaries
    decreases LINEAR_PC_END - pc
  {
    hide After, StopExits, Scanned;
    if !(pc != start && pc in c.boundaries) {
      if After(c, pc, state).Some? {
        var following := pc + 4;
        ExitsAreLeaders(c, start, following, After(c, pc, state).value, s);
      } else {
        StopTargets(c, start, pc, state, s);
        AnnouncedIsBoundary(c, pc, s.edge.target);
      }
    }
  }

  lemma AnnouncedIsBoundary(c: Context, pc: nat, leader: nat)
    requires Scanned(c) && IsExecutable(c.image, pc) && leader in WordLeaders(c.image, pc)
    ensures leader in c.boundaries
  {
    hide WordLeaders;
    assert pc in ExecutableWords(c.image);
    assert leader in LeadersOf(c.image, ExecutableWords(c.image));
  }

  lemma StopTargets(c: Context, start: nat, pc: nat, state: State, s: Successor)
    requires s in StopExits(c, start, pc, state) && IsExecutable(c.image, s.edge.target)
    ensures IsExecutable(c.image, pc) && s.edge.target in WordLeaders(c.image, pc)
  {
  }

  /** Only direct calls leave a state-free successor, and their executable targets are seeds. */
  lemma {:induction false} StateFreeExitsAreSeeds(c: Context, start: nat, pc: nat, state: State, s: Successor)
    requires pc == start || start + 4 <= pc
    requires s in Exits(c, start, pc, state) && s.state.None? && IsExecutable(c.image, s.edge.target)
    ensures s.edge.target in SeedsOf(c.image, ExecutableWords(c.image))
    decreases LINEAR_PC_END - pc
  {
    hide After, StopExits, WordSeeds;
    if !(pc != start && pc in c.boundaries) {
      if After(c, pc, state).Some? {
        var following := pc + 4;
        StateFreeExitsAreSeeds(c, start, following, After(c, pc, state).value, s);
      } else {
        StateFreeStop(c, start, pc, state, s);
        assert pc in ExecutableWords(c.image);
      }
    }
  }

  lemma StateFreeStop(c: Context, start: nat, pc: nat, state: State, s: Successor)
    requires s in StopExits(c, start, pc, state) && s.state.None? && IsExecutable(c.image, s.edge.target)
    ensures IsExecutable(c.image, pc) && s.edge.target in WordSeeds(c.image, pc)
  {
  }

  /** The graph of a solution is closed: each successor of a discovered block is itself
      discovered or lies outside the executable words. */
  lemma GraphIsClosed(c: Context, p: Problem, entries: Entries, start: nat, s: Successor)
    requires Models(p, c) && Solution(p, entries) && start in entries
    requires SeedsOf(c.image, ExecutableWords(c.image)) <= p.seeds
    requires s in Exits(c, start, start, entries[start])
    ensures s.edge.target in entries || s.edge.target !in p.executable
  {
    if s.edge.target in p.executable {
      if s.state.None? {
        StateFreeExitsAreSeeds(c, start, start, entries[start], s);
      } else {
        assert Solved(p, entries, start) && Accepts(p, entries, s);
      }
    }
  }

  /** The scan's call seeds are all the seeds soundness needs. */
  lemma ScannedCallsAreSeeds(p: Problem, m: Image)
    requires p.executable == ExecutableWords(m) && SeedsOf(m, ExecutableWords(m)) <= p.seeds
    ensures CallsAreSeeds(p, m)
  {
    forall pc: nat | Fetch(m, pc).Decoded? && Fetch(m, pc).flow.Call? && Fetch(m, pc).flow.target in p.executable
      ensures Fetch(m, pc).flow.target in p.seeds
    {
      assert pc in ExecutableWords(m) && Fetch(m, pc).flow.target in WordSeeds(m, pc);
    }
  }
}
