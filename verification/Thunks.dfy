/** Transitive closure over jump thunks, layer by layer. */
module Thunks {
  import opened Common
  import opened PeMap
  import opened CodeTargets
  import opened Retention

  // ----- one candidate -----

  /** The bytes a thunk candidate is decoded from: at most one instruction's worth. */
  function CandidateBytes(c: Context, rva: nat): Option<seq<Byte>> {
    var span := Contiguous(c.layout, rva);
    if span.None? || span.value.0 + span.value.1 > |c.file| then None
    else
      var size := if span.value.1 < MAX_INSTRUCTION_BYTES then span.value.1 else MAX_INSTRUCTION_BYTES;
      Some(c.file[span.value.0..span.value.0 + size])
  }

  /** The candidate has bytes and a 64-bit address, so its instruction is decoded. */
  predicate IsDecoded(c: Context, rva: nat) { CandidateBytes(c, rva).Some? && c.imageBase + rva < TWO_64 }

  function CandidateInstruction(c: Context, rva: nat): Instruction
    requires IsDecoded(c, rva)
  {
    c.decode(CandidateBytes(c, rva).value, c.imageBase + rva)
  }

  /** The thunk whose first instruction stands at an address, if there is one. */
  function ThunkAt(c: Context, rva: U32): Option<Thunk> {
    if !IsDecoded(c, rva) then None
    else
      var bytes, i := CandidateBytes(c, rva).value, CandidateInstruction(c, rva);
      if i.len == 0 || i.invalid || i.len > |bytes| then None
      else
        var target := DecodeThunkTarget(c, rva, i, bytes[..i.len]);
        if target.Some? then Some(Thunk(rva, i.len, target.value)) else None
  }

  // ----- reachability -----

  /** Consecutive addresses of a path are thunk and local target. */
  ghost predicate IsPath(thunks: set<Thunk>, path: seq<U32>) {
    && path != []
    && forall k :: 0 <= k < |path| - 1 ==> Links(thunks, path[k], path[k + 1])
  }

  ghost predicate Links(thunks: set<Thunk>, from: U32, to: U32) {
    exists t :: t in thunks && t.rva == from && LocalTarget(t.target) == Some(to)
  }

  /** Reached from a seed through the given thunks. */
  ghost predicate Reachable(thunks: set<Thunk>, seeds: set<U32>, rva: U32) {
    exists path :: IsPath(thunks, path) && path[0] in seeds && path[|path| - 1] == rva
  }

  predicate IsAddress(n: nat, x: nat) { x < n }

  ghost function AllThunks(c: Context): set<Thunk> {
    set x: nat | 0 <= x < TWO_32 && IsAddress(TWO_32, x) && ThunkAt(c, x).Some? :: ThunkAt(c, x).value
  }

  lemma SeedIsReachable(thunks: set<Thunk>, seeds: set<U32>, rva: U32)
    requires rva in seeds
    ensures Reachable(thunks, seeds, rva)
  {
    assert IsPath(thunks, [rva]);
  }

  lemma ReachOneMore(thunks: set<Thunk>, seeds: set<U32>, from: U32, to: U32)
    requires Reachable(thunks, seeds, from) && Links(thunks, from, to)
    ensures Reachable(thunks, seeds, to)
  {
    var path :| IsPath(thunks, path) && path[0] in seeds && path[|path| - 1] == from;
    var longer := path + [to];
    forall k | 0 <= k < |longer| - 1 ensures Links(thunks, longer[k], longer[k + 1]) {
      assert k < |path| - 1 ==> longer[k] == path[k] && longer[k + 1] == path[k + 1];
    }
    assert longer[0] == path[0] && longer[|longer| - 1] == to;
  }

  lemma MoreThunksReachMore(small: set<Thunk>, large: set<Thunk>, seeds: set<U32>, rva: U32)
    requires small <= large && Reachable(small, seeds, rva)
    ensures Reachable(large, seeds, rva)
  {
    var path :| IsPath(small, path) && path[0] in seeds && path[|path| - 1] == rva;
    forall k | 0 <= k < |path| - 1 ensures Links(large, path[k], path[k + 1]) {
      assert Links(small, path[k], path[k + 1]);
    }
  }

  /** A set that holds the seeds and is closed under links holds everything reachable. */
  lemma {:induction false} ClosedHoldsPath(thunks: set<Thunk>, seeds: set<U32>, closed: set<U32>, path: seq<U32>)
    requires seeds <= closed && IsPath(thunks, path) && path[0] in seeds
    requires forall from, to :: from in closed && Links(thunks, from, to) ==> to in closed
    ensures path[|path| - 1] in closed
    decreases |path|
  {
    if |path| > 1 {
      var shorter := path[..|path| - 1];
      forall k | 0 <= k < |shorter| - 1 ensures Links(thunks, shorter[k], shorter[k + 1]) {
        assert Links(thunks, path[k], path[k + 1]);
      }
      ClosedHoldsPath(thunks, seeds, closed, shorter);
      assert Links(thunks, path[|path| - 2], path[|path| - 1]);
    }
  }

  // ----- the search -----

  datatype Search = Search(visited: set<U32>, thunks: set<Thunk>, next: set<U32>)

  /** Whatever happens: retained thunks are real, visited, and reachable through each other. */
  ghost predicate Sound(c: Context, seeds: set<U32>, s: Search) {
    && (forall t :: t in s.thunks ==> t.rva in s.visited && ThunkAt(c, t.rva) == Some(t))
    && (forall rva :: rva in s.visited || rva in s.next ==> Reachable(s.thunks, seeds, rva))
  }

  /** Not cut off so far: nothing reachable has been forgotten. */
  ghost predicate Thorough(c: Context, seeds: set<U32>, s: Search, todo: set<U32>) {
    && (forall rva :: rva in seeds ==> rva in s.visited || rva in todo)
    && (forall rva: U32 {:trigger ThunkAt(c, rva)} :: rva in s.visited && ThunkAt(c, rva).Some? ==>
          && ThunkAt(c, rva).value in s.thunks
          && var t := LocalTarget(ThunkAt(c, rva).value.target);
             t.Some? ==> t.value in s.visited || t.value in s.next || t.value in todo)
  }

  /** The search after visiting one more candidate. */
  function Visit(c: Context, s: Search, rva: U32): Search {
    match ThunkAt(c, rva)
    case None => s.(visited := s.visited + {rva})
    case Some(t) =>
      var local := LocalTarget(t.target);
      Search(s.visited + {rva}, s.thunks + {t},
             if local.Some? && local.value !in s.visited + {rva} && BackedExecutable(c.layout, local.value, 1)
             then s.next + {local.value} else s.next)
  }

  lemma VisitIsSound(c: Context, seeds: set<U32>, s: Search, rva: U32)
    requires Sound(c, seeds, s) && Reachable(s.thunks, seeds, rva)
    ensures Sound(c, seeds, Visit(c, s, rva))
  {
    var after := Visit(c, s, rva);
    forall x | x in after.visited || x in after.next ensures Reachable(after.thunks, seeds, x) {
      if x in s.visited || x in s.next || x == rva {
        MoreThunksReachMore(s.thunks, after.thunks, seeds, x);
      } else {
        MoreThunksReachMore(s.thunks, after.thunks, seeds, rva);
        assert ThunkAt(c, rva).value in after.thunks;
        ReachOneMore(after.thunks, seeds, rva, x);
      }
    }
  }

  /** A local target is always executable, so the seed filter never drops one. */
  lemma LocalTargetIsExecutable(c: Context, rva: U32)
    requires ThunkAt(c, rva).Some? && LocalTarget(ThunkAt(c, rva).value.target).Some?
    ensures BackedExecutable(c.layout, LocalTarget(ThunkAt(c, rva).value.target).value, 1)
  {
  }

  lemma VisitIsThorough(c: Context, seeds: set<U32>, s: Search, todo: set<U32>, rva: U32)
    requires Thorough(c, seeds, s, todo)
    ensures Thorough(c, seeds, Visit(c, s, rva), todo - {rva})
  {
    if ThunkAt(c, rva).Some? && LocalTarget(ThunkAt(c, rva).value.target).Some? { LocalTargetIsExecutable(c, rva); }
  }

  // ----- what the search is charged for, and what stops it -----

  /** A candidate the search has reason to decode: it is reached from a seed through real thunks. */
  ghost predicate IsCandidate(c: Context, seeds: set<U32>, rva: U32) {
    IsDecoded(c, rva) && Reachable(AllThunks(c), seeds, rva)
  }

  ghost predicate CandidateTask(c: Context, seeds: set<U32>, task: Task, size: nat) {
    task.Candidate? && IsCandidate(c, seeds, task.rva) && size == CandidateInstruction(c, task.rva).len && size > 0
  }

  /** Beyond `work0`, only candidates already visited were decoded. */
  ghost predicate SearchWork(c: Context, seeds: set<U32>, visited: set<U32>, work0: Work, work: Work) {
    forall k :: k in work ==>
      || (k in work0 && work[k] == work0[k] && !k.Candidate?)
      || (CandidateTask(c, seeds, k, work[k]) && k.rva in visited)
  }

  /** What stops the search at a candidate: its bytes decode to nothing, its decode does not fit the
      budget, or its thunk does not fit the cap. */
  ghost predicate Stops(c: Context, seeds: set<U32>, limits: Limits, work: Work, thunks: set<Thunk>, rva: U32) {
    && IsCandidate(c, seeds, rva)
    && var i := CandidateInstruction(c, rva);
       || i.len == 0
       || (Candidate(rva) !in work && Overspends(work, limits, i.len))
       || (|thunks| == limits.thunks && ThunkAt(c, rva).Some? && ThunkAt(c, rva).value !in thunks)
  }

  /** Visit one candidate: charge its instruction, keep its thunk, queue its local target. The
      search is cut off by the decode budget or by the cap on thunks. */
  method VisitCandidate(
    c: Context, ghost seeds: set<U32>, s: Search, rva: U32, acc: Accumulator, ghost work0: Work)
    returns (cut: bool, after: Search)
    requires acc.Valid() && rva !in s.visited && |s.thunks| <= acc.limits.thunks
    requires SearchWork(c, seeds, s.visited, work0, acc.work) && Reachable(AllThunks(c), seeds, rva)
    modifies acc`bytes, acc`instructions, acc`work
    ensures acc.Valid() && |after.thunks| <= acc.limits.thunks
    ensures SearchWork(c, seeds, after.visited, work0, acc.work)
    ensures !cut ==> after == Visit(c, s, rva)
    ensures cut ==>
              after == s.(visited := s.visited + {rva}) && Stops(c, seeds, acc.limits, acc.work, after.thunks, rva)
  {
    hide Reachable, Accumulator.Valid, Overspends;
    cut, after := false, s.(visited := s.visited + {rva});
    if !IsDecoded(c, rva) { return; }
    var i := CandidateInstruction(c, rva);
    if i.len == 0 { return true, after; }
    var ok := acc.ConsumeInstruction(i.len, Candidate(rva));
    if !ok { return true, after; }
    var thunk := ThunkAt(c, rva);
    if thunk.None? { return; }
    if thunk.value !in s.thunks && |s.thunks| == acc.limits.thunks { return true, after; }
    after := Visit(c, s, rva);
    assert thunk.value in s.thunks ==> s.thunks + {thunk.value} == s.thunks;
  }

  /** The invariant with `todo` still to be visited in the current layer. */
  ghost predicate Searching(c: Context, seeds: set<U32>, s: Search, todo: set<U32>) {
    && Sound(c, seeds, s) && Thorough(c, seeds, s, todo)
    && (forall rva :: rva in todo ==> Reachable(s.thunks, seeds, rva))
  }

  lemma VisitKeepsSearching(c: Context, seeds: set<U32>, s: Search, todo: set<U32>, rva: U32)
    requires Searching(c, seeds, s, todo) && rva in todo
    ensures Searching(c, seeds, Visit(c, s, rva), todo - {rva})
  {
    VisitIsSound(c, seeds, s, rva);
    VisitIsThorough(c, seeds, s, todo, rva);
    forall x | x in todo ensures Reachable(Visit(c, s, rva).thunks, seeds, x) {
      MoreThunksReachMore(s.thunks, Visit(c, s, rva).thunks, seeds, x);
    }
  }

  lemma SkipKeepsSearching(c: Context, seeds: set<U32>, s: Search, todo: set<U32>, rva: U32)
    requires Searching(c, seeds, s, todo) && rva in s.visited
    ensures Searching(c, seeds, s, todo - {rva})
  {
  }

  lemma CutIsSound(c: Context, seeds: set<U32>, s: Search, rva: U32)
    requires Sound(c, seeds, s) && Reachable(s.thunks, seeds, rva)
    ensures Sound(c, seeds, s.(visited := s.visited + {rva}))
  {
  }

  /** Visit every candidate of a layer that was not visited before. */
  method VisitLayer(
    c: Context, ghost seeds: set<U32>, s0: Search, layer: set<U32>, acc: Accumulator, ghost work0: Work)
    returns (cut: bool, s: Search)
    requires acc.Valid() && |s0.thunks| <= acc.limits.thunks && s0.next == {} && Searching(c, seeds, s0, layer)
    requires SearchWork(c, seeds, s0.visited, work0, acc.work)
    modifies acc`bytes, acc`instructions, acc`work
    ensures acc.Valid() && |s.thunks| <= acc.limits.thunks && Sound(c, seeds, s)
    ensures SearchWork(c, seeds, s.visited, work0, acc.work)
    ensures cut ==> exists rva :: Stops(c, seeds, acc.limits, acc.work, s.thunks, rva)
    ensures !cut ==> Searching(c, seeds, s, {})
    ensures !cut ==> s0.visited < s.visited || (s.visited == s0.visited && s.next == {})
  {
    hide Sound, Thorough, Visit, Reachable, Stops, SearchWork, Accumulator.Valid;
    s := s0;
    var rest := layer;
    while rest != {}
      invariant acc.Valid() && |s.thunks| <= acc.limits.thunks && Searching(c, seeds, s, rest)
      invariant SearchWork(c, seeds, s.visited, work0, acc.work)
      invariant s0.visited < s.visited || s == s0
    {
      var rva :| rva in rest;
      if rva in s.visited {
        SkipKeepsSearching(c, seeds, s, rest, rva);
      } else {
        VisitKeepsSearching(c, seeds, s, rest, rva);
        CutIsSound(c, seeds, s, rva);
        VisitGrows(c, s, rva);
        TodoIsReachable(c, seeds, s, rva);
        cut, s := VisitCandidate(c, seeds, s, rva, acc, work0);
        if cut { return; }
      }
      rest := rest - {rva};
    }
    cut := false;
  }

  lemma TodoIsReachable(c: Context, seeds: set<U32>, s: Search, rva: U32)
    requires Sound(c, seeds, s) && Reachable(s.thunks, seeds, rva)
    ensures Reachable(AllThunks(c), seeds, rva)
  {
    forall t | t in s.thunks ensures t in AllThunks(c) { RealThunk(c, t); }
    MoreThunksReachMore(s.thunks, AllThunks(c), seeds, rva);
  }

  lemma VisitGrows(c: Context, s: Search, rva: U32)
    ensures Visit(c, s, rva).visited == s.visited + {rva}
  {
  }

  ghost function Universe(): set<U32> { set x: nat | 0 <= x < TWO_32 && IsAddress(TWO_32, x) :: x }

  lemma StartsSearching(c: Context, seeds: set<U32>)
    ensures Searching(c, seeds, Search({}, {}, {}), seeds)
  {
    forall rva | rva in seeds ensures Reachable({}, seeds, rva) {
      SeedIsReachable({}, seeds, rva);
    }
  }

  lemma NextLayer(c: Context, seeds: set<U32>, s: Search)
    requires Searching(c, seeds, s, {})
    ensures Searching(c, seeds, s.(next := {}), s.next)
  {
  }

  /** Close the seeds under thunk edges. Retained thunks are always real and reachable from a
      seed through retained thunks; a search that is not cut off retains exactly the thunks
      that are reachable at all. */
  method CloseThunks(c: Context, seeds: set<U32>, acc: Accumulator) returns (cut: bool, thunks: set<Thunk>)
    requires acc.Valid() && forall k :: k in acc.work ==> !k.Candidate?
    modifies acc`bytes, acc`instructions, acc`work
    ensures acc.Valid() && |thunks| <= acc.limits.thunks
    ensures SearchWork(c, seeds, Universe(), old(acc.work), acc.work)
    ensures forall t :: t in thunks ==> ThunkAt(c, t.rva) == Some(t) && Reachable(thunks, seeds, t.rva)
    ensures cut ==> exists rva :: Stops(c, seeds, acc.limits, acc.work, thunks, rva)
    ensures !cut ==> forall t :: t in thunks <==> t in AllThunks(c) && Reachable(AllThunks(c), seeds, t.rva)
  {
    hide Reachable, Stops, SearchWork, Searching, Accumulator.Valid;
    var s, layer := Search({}, {}, {}), seeds;
    ghost var work0 := acc.work;
    NothingSearched(c, seeds, work0);
    StartsSearching(c, seeds);
    while layer != {}
      invariant acc.Valid() && |s.thunks| <= acc.limits.thunks && s.next == {} && Searching(c, seeds, s, layer)
      invariant SearchWork(c, seeds, s.visited, work0, acc.work)
      decreases Universe() - s.visited, layer
    {
      ghost var before := s.visited;
      cut, s := VisitLayer(c, seeds, s, layer, acc, work0);
      AllVisited(c, seeds, s.visited, work0, acc.work);
      if cut {
        SoundIsReal(c, seeds, s);
        return true, s.thunks;
      }
      NextLayer(c, seeds, s);
      if before < s.visited { Shrinks(before, s.visited); }
      layer, s := s.next, s.(next := {});
    }
    AllVisited(c, seeds, s.visited, work0, acc.work);
    FinishedSearch(c, seeds, s);
    cut, thunks := false, s.thunks;
  }

  lemma NothingSearched(c: Context, seeds: set<U32>, work: Work)
    requires forall k :: k in work ==> !k.Candidate?
    ensures SearchWork(c, seeds, {}, work, work)
  {
  }

  lemma AllVisited(c: Context, seeds: set<U32>, visited: set<U32>, work0: Work, work: Work)
    requires SearchWork(c, seeds, visited, work0, work)
    ensures SearchWork(c, seeds, Universe(), work0, work)
  {
    hide CandidateTask;
    forall x: U32 ensures x in Universe() { assert IsAddress(TWO_32, x); }
  }

  lemma SoundIsReal(c: Context, seeds: set<U32>, s: Search)
    requires Sound(c, seeds, s)
    ensures forall t :: t in s.thunks ==> ThunkAt(c, t.rva) == Some(t) && Reachable(s.thunks, seeds, t.rva)
  {
  }

  lemma Shrinks(before: set<U32>, after: set<U32>)
    requires before < after
    ensures Universe() - after < Universe() - before
  {
    var x :| x in after && x !in before;
    assert IsAddress(TWO_32, x) && x in Universe();
  }

  /** With nothing left to visit, exactly the reachable thunks are retained. */
  lemma FinishedSearch(c: Context, seeds: set<U32>, s: Search)
    requires Searching(c, seeds, s, {}) && s.next == {}
    ensures forall t :: t in s.thunks <==> t in AllThunks(c) && Reachable(AllThunks(c), seeds, t.rva)
    ensures forall t :: t in s.thunks ==> ThunkAt(c, t.rva) == Some(t) && Reachable(s.thunks, seeds, t.rva)
  {
    SoundIsReal(c, seeds, s);
    forall t | t in s.thunks ensures t in AllThunks(c) && Reachable(AllThunks(c), seeds, t.rva) {
      RealThunk(c, t);
      assert Reachable(s.thunks, seeds, t.rva);
      forall u | u in s.thunks ensures u in AllThunks(c) { RealThunk(c, u); }
      MoreThunksReachMore(s.thunks, AllThunks(c), seeds, t.rva);
    }
    forall from, to | from in s.visited && Links(AllThunks(c), from, to) ensures to in s.visited {
      var t :| t in AllThunks(c) && t.rva == from && LocalTarget(t.target) == Some(to);
    }
    forall t | t in AllThunks(c) && Reachable(AllThunks(c), seeds, t.rva) ensures t in s.thunks {
      var path :| IsPath(AllThunks(c), path) && path[0] in seeds && path[|path| - 1] == t.rva;
      ClosedHoldsPath(AllThunks(c), seeds, s.visited, path);
    }
  }

  lemma RealThunk(c: Context, t: Thunk)
    requires ThunkAt(c, t.rva) == Some(t)
    ensures t in AllThunks(c)
  {
    assert IsAddress(TWO_32, t.rva);
  }
}
