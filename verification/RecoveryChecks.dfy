/** The validators run over recovered records, and why recovery never fails them. */
module RecoveryChecks {
  import opened Common
  import opened PeMap
  import opened RuntimeTargets
  import opened CodeTargets
  import opened Retention
  import opened CfgBlocks
  import opened Sweep
  import opened Thunks
  import opened CodeWalks
  import opened Recovery

  // ----- the record order -----

  predicate PairLess(a: (nat, nat), b: (nat, nat)) { a.0 < b.0 || (a.0 == b.0 && a.1 < b.1) }

  function Rank(t: Target): nat {
    match t
    case Function(_) => 0
    case ImportIat(_) => 1
    case FunctionPointer(_, _) => 2
  }

  predicate TargetLess(a: Target, b: Target) {
    || Rank(a) < Rank(b)
    || (a.Function? && b.Function? && a.rva < b.rva)
    || (a.ImportIat? && b.ImportIat? && a.iat < b.iat)
    || (a.FunctionPointer? && b.FunctionPointer? && PairLess((a.slot, a.rva), (b.slot, b.rva)))
  }

  predicate CallLess(a: Call, b: Call) {
    || PairLess((a.caller, a.site), (b.caller, b.site))
    || (a.caller == b.caller && a.site == b.site && a.size < b.size)
    || (a.caller == b.caller && a.site == b.site && a.size == b.size && TargetLess(a.target, b.target))
  }

  predicate ReferenceLess(a: Reference, b: Reference) {
    || PairLess((a.caller, a.site), (b.caller, b.site))
    || (a.caller == b.caller && a.site == b.site && PairLess((a.size, a.target), (b.size, b.target)))
  }

  predicate ThunkLess(a: Thunk, b: Thunk) {
    || PairLess((a.rva, a.size), (b.rva, b.size))
    || (a.rva == b.rva && a.size == b.size && TargetLess(a.target, b.target))
  }

  ghost predicate Sorted<T(!new)>(s: seq<T>, less: (T, T) -> bool) {
    forall k :: 0 < k < |s| ==> less(s[k - 1], s[k])
  }

  /** A sorted listing of a set, as iterating an ordered set produces it. */
  ghost predicate Lists<T(!new)>(s: seq<T>, elements: set<T>, less: (T, T) -> bool) {
    Sorted(s, less) && (forall x :: x in s <==> x in elements)
  }

  /** Neighbours in key order put all pairs in key order. */
  lemma {:induction false} NeighboursOrderAll(keys: seq<(nat, nat)>, i: nat, j: nat)
    requires forall k :: 0 < k < |keys| ==> PairLess(keys[k - 1], keys[k])
    requires i < j < |keys|
    ensures PairLess(keys[i], keys[j])
    decreases j - i
  {
    if i + 1 < j { NeighboursOrderAll(keys, i, j - 1); }
    assert PairLess(keys[j - 1], keys[j]);
  }

  function CallKeys(calls: seq<Call>): seq<(nat, nat)> {
    seq(|calls|, k requires 0 <= k < |calls| => (calls[k].caller, calls[k].site))
  }

  function ReferenceKeys(references: seq<Reference>): seq<(nat, nat)> {
    seq(|references|, k requires 0 <= k < |references| => (references[k].caller, references[k].site))
  }

  function ThunkKeys(thunks: seq<Thunk>): seq<(nat, nat)> {
    seq(|thunks|, k requires 0 <= k < |thunks| => (thunks[k].rva, 0))
  }

  ghost predicate Distinct(keys: seq<(nat, nat)>) { forall i, j :: 0 <= i < j < |keys| ==> keys[i] != keys[j] }

  /** In a sorted list, comparing each key with the one before is enough to see that all differ. */
  lemma SortedKeysDistinct(keys: seq<(nat, nat)>)
    requires forall k :: 0 < k < |keys| ==> keys[k - 1] == keys[k] || PairLess(keys[k - 1], keys[k])
    ensures Distinct(keys) <==> forall k :: 0 < k < |keys| ==> keys[k - 1] != keys[k]
  {
    if forall k :: 0 < k < |keys| ==> keys[k - 1] != keys[k] {
      forall i, j | 0 <= i < j < |keys| ensures keys[i] != keys[j] {
        NeighboursOrderAll(keys, i, j);
      }
    }
  }

  // ----- validators -----

  method StrictlySorted<T(!new)>(s: seq<T>, less: (T, T) -> bool) returns (ok: bool)
    ensures ok <==> Sorted(s, less)
  {
    var k := 1;
    while k < |s|
      invariant 1 <= k && forall j :: 0 < j < k && j < |s| ==> less(s[j - 1], s[j])
    {
      if !less(s[k - 1], s[k]) { return false; }
      k := k + 1;
    }
    ok := true;
  }

  /** One pass that remembers the previous key. */
  method NoRepeats(keys: seq<(nat, nat)>) returns (ok: bool)
    requires forall k :: 0 < k < |keys| ==> keys[k - 1] == keys[k] || PairLess(keys[k - 1], keys[k])
    ensures ok <==> Distinct(keys)
  {
    SortedKeysDistinct(keys);
    var previous: Option<(nat, nat)> := None;
    for k := 0 to |keys|
      invariant previous == if k == 0 then None else Some(keys[k - 1])
      invariant forall j :: 0 < j < k ==> keys[j - 1] != keys[j]
    {
      if previous == Some(keys[k]) { return false; }
      previous := Some(keys[k]);
    }
    ok := true;
  }

  ghost predicate CallsAcceptable(
    c: Context, functions: seq<RuntimeFunction>, limit: nat, calls: seq<Call>, references: set<Reference>)
  {
    && |calls| <= limit && Sorted(calls, CallLess) && Distinct(CallKeys(calls))
    && forall k :: 0 <= k < |calls| ==> CallAccepted(c, functions, references, calls[k])
  }

  method ValidateCalls(
    c: Context, functions: seq<RuntimeFunction>, limit: nat, calls: seq<Call>, references: set<Reference>)
    returns (ok: bool)
    ensures ok <==> CallsAcceptable(c, functions, limit, calls, references)
  {
    hide CallAccepted, TargetLess;
    if |calls| > limit { return false; }
    ok := StrictlySorted(calls, CallLess);
    if !ok { return; }
    ok := NoRepeats(CallKeys(calls));
    if !ok { return; }
    for k := 0 to |calls|
      invariant forall j :: 0 <= j < k ==> CallAccepted(c, functions, references, calls[j])
    {
      if !CallAccepted(c, functions, references, calls[k]) { return false; }
    }
  }

  ghost predicate ReferencesAcceptable(
    c: Context, functions: seq<RuntimeFunction>, limit: nat, references: seq<Reference>)
  {
    && |references| <= limit && Sorted(references, ReferenceLess) && Distinct(ReferenceKeys(references))
    && forall k :: 0 <= k < |references| ==> ReferenceAccepted(c, functions, references[k])
  }

  method ValidateReferences(c: Context, functions: seq<RuntimeFunction>, limit: nat, references: seq<Reference>)
    returns (ok: bool)
    ensures ok <==> ReferencesAcceptable(c, functions, limit, references)
  {
    hide ReferenceAccepted;
    if |references| > limit { return false; }
    ok := StrictlySorted(references, ReferenceLess);
    if !ok { return; }
    ok := NoRepeats(ReferenceKeys(references));
    if !ok { return; }
    for k := 0 to |references|
      invariant forall j :: 0 <= j < k ==> ReferenceAccepted(c, functions, references[j])
    {
      if !ReferenceAccepted(c, functions, references[k]) { return false; }
    }
  }

  ghost function Elements(thunks: seq<Thunk>): set<Thunk> { set t | t in thunks }

  /** The reachability worklist: everything reachable from the seeds through the listed thunks. */
  method ReachableSources(thunks: seq<Thunk>, seeds: set<U32>) returns (reachable: set<U32>)
    requires forall i, j :: 0 <= i < j < |thunks| ==> thunks[i].rva != thunks[j].rva
    ensures forall rva :: rva in reachable <==> Reachable(Elements(thunks), seeds, rva)
  {
    hide Reachable, Links;
    reachable := seeds;
    var pending := seeds;
    SeedsReach(Elements(thunks), seeds);
    while pending != {}
      invariant seeds <= reachable && pending <= reachable
      invariant forall rva :: rva in reachable ==> Reachable(Elements(thunks), seeds, rva)
      invariant forall from, to :: from in reachable && from !in pending && Links(Elements(thunks), from, to) ==>
                  to in reachable
      decreases Universe() - reachable, pending
    {
      var source :| source in pending;
      pending := pending - {source};
      var target := TargetFrom(thunks, source);
      if target.Some? && target.value !in reachable {
        ReachOneMore(Elements(thunks), seeds, source, target.value);
        Shrinks(reachable, reachable + {target.value});
        reachable, pending := reachable + {target.value}, pending + {target.value};
      }
    }
    forall rva | Reachable(Elements(thunks), seeds, rva) ensures rva in reachable {
      ClosedHolds(Elements(thunks), seeds, reachable, rva);
    }
  }

  lemma SeedsReach(thunks: set<Thunk>, seeds: set<U32>)
    ensures forall rva :: rva in seeds ==> Reachable(thunks, seeds, rva)
  {
    forall rva | rva in seeds ensures Reachable(thunks, seeds, rva) {
      SeedIsReachable(thunks, seeds, rva);
    }
  }

  lemma ClosedHolds(thunks: set<Thunk>, seeds: set<U32>, closed: set<U32>, rva: U32)
    requires seeds <= closed && Reachable(thunks, seeds, rva)
    requires forall from, to :: from in closed && Links(thunks, from, to) ==> to in closed
    ensures rva in closed
  {
    var path :| IsPath(thunks, path) && path[0] in seeds && path[|path| - 1] == rva;
    ClosedHoldsPath(thunks, seeds, closed, path);
  }

  /** The local target of the thunk at an address, if one is listed there. */
  method TargetFrom(thunks: seq<Thunk>, source: U32) returns (target: Option<U32>)
    requires forall i, j :: 0 <= i < j < |thunks| ==> thunks[i].rva != thunks[j].rva
    ensures forall to: U32 :: Links(Elements(thunks), source, to) <==> target == Some(to)
  {
    for k := 0 to |thunks|
      invariant forall j :: 0 <= j < k ==> thunks[j].rva != source
    {
      if thunks[k].rva == source {
        assert thunks[k] in Elements(thunks);
        return LocalTarget(thunks[k].target);
      }
    }
    target := None;
  }

  ghost predicate ThunksAcceptable(c: Context, m: Metadata, limit: nat, calls: set<Call>, thunks: seq<Thunk>) {
    && |thunks| <= limit && Sorted(thunks, ThunkLess) && Distinct(ThunkKeys(thunks))
    && (forall k :: 0 <= k < |thunks| ==> ThunkAccepted(c, thunks[k]))
    && (forall k :: 0 <= k < |thunks| ==> Reachable(Elements(thunks), ModelThunkSeeds(c, m, calls), thunks[k].rva))
  }

  lemma DistinctSources(thunks: seq<Thunk>)
    requires Distinct(ThunkKeys(thunks))
    ensures forall i, j :: 0 <= i < j < |thunks| ==> thunks[i].rva != thunks[j].rva
  {
    var keys := ThunkKeys(thunks);
    forall i, j | 0 <= i < j < |thunks| ensures thunks[i].rva != thunks[j].rva {
      assert keys[i] != keys[j];
    }
  }

  method ValidateThunks(c: Context, m: Metadata, limit: nat, calls: set<Call>, thunks: seq<Thunk>) returns (ok: bool)
    ensures ok <==> ThunksAcceptable(c, m, limit, calls, thunks)
  {
    hide ThunkAccepted, TargetLess, Reachable, ModelThunkSeeds;
    if |thunks| > limit { return false; }
    ok := StrictlySorted(thunks, ThunkLess);
    if !ok { return; }
    ok := NoRepeats(ThunkKeys(thunks));
    if !ok { return; }
    DistinctSources(thunks);
    for k := 0 to |thunks|
      invariant forall j :: 0 <= j < k ==> ThunkAccepted(c, thunks[j])
    {
      if !ThunkAccepted(c, thunks[k]) { return false; }
    }
    var reachable := ReachableSources(thunks, ModelThunkSeeds(c, m, calls));
    for k := 0 to |thunks|
      invariant forall j :: 0 <= j < k ==> thunks[j].rva in reachable
    {
      if thunks[k].rva !in reachable { return false; }
    }
  }

  /** One graph: entry, first block, and each block against the end of the one before. */
  method ValidateGraph(c: Context, functions: seq<RuntimeFunction>, g: FunctionCfg) returns (ok: bool)
    ensures ok <==> GraphAccepted(c, functions, g)
  {
    hide BlockAccepted;
    if g.blocks == [] || g.blocks[0].start != g.entry { return false; }
    if !exists f :: f in functions && f.begin == g.entry { return false; }
    for k := 0 to |g.blocks|
      invariant forall i :: 0 <= i < k ==> BlockAccepted(c, g.blocks[i])
      invariant forall i, j :: 0 <= i < j < k ==> g.blocks[i].end <= g.blocks[j].start
    {
      if !BlockAccepted(c, g.blocks[k]) { return false; }
      if k > 0 {
        if g.blocks[k].start < g.blocks[k - 1].end { return false; }
        EndsAscend(c, g.blocks, k);
      }
    }
    ok := true;
  }

  lemma EndsAscend(c: Context, blocks: seq<BasicBlock>, k: nat)
    requires 0 < k < |blocks| && forall i :: 0 <= i < k ==> BlockAccepted(c, blocks[i])
    requires forall i, j :: 0 <= i < j < k ==> blocks[i].end <= blocks[j].start
    requires blocks[k - 1].end <= blocks[k].start
    ensures forall i :: 0 <= i < k ==> blocks[i].end <= blocks[k].start
  {
    forall i | 0 <= i < k ensures blocks[i].end <= blocks[k].start {
      if i < k - 1 { assert blocks[i].end <= blocks[k - 1].start && BlockAccepted(c, blocks[k - 1]); }
    }
  }

  method ValidateGraphs(
    c: Context, functions: seq<RuntimeFunction>, limit: nat, graphs: seq<FunctionCfg>) returns (ok: bool)
    ensures ok <==> TotalBlocks(graphs) <= limit && GraphsAll(c, functions, graphs)
  {
    hide GraphAccepted;
    var total := 0;
    for k := 0 to |graphs|
      invariant total == TotalBlocks(graphs[..k]) <= limit
      invariant forall i :: 0 <= i < k ==> GraphAccepted(c, functions, graphs[i])
      invariant forall i, j :: 0 <= i < j < k ==> graphs[i].entry < graphs[j].entry
    {
      if k > 0 && graphs[k].entry <= graphs[k - 1].entry { return false; }
      ok := ValidateGraph(c, functions, graphs[k]);
      if !ok { return; }
      total := total + |graphs[k].blocks|;
      assert graphs[..k + 1][..k] == graphs[..k];
      if total > limit {
        TotalGrows(graphs, k + 1);
        return false;
      }
    }
    assert graphs[..|graphs|] == graphs;
    ok := true;
  }

  // ----- no self-rejection -----

  lemma {:induction false} ListingLength<T>(s: seq<T>, elements: set<T>)
    requires forall x :: x in s <==> x in elements
    requires forall i, j :: 0 <= i < j < |s| ==> s[i] != s[j]
    ensures |s| == |elements|
    decreases |s|
  {
    if s != [] {
      var last, rest := s[|s| - 1], s[..|s| - 1];
      forall x ensures x in rest <==> x in elements - {last} {
        if x in rest { assert x in s; }
        if x in elements - {last} { assert x in s; }
      }
      ListingLength(rest, elements - {last});
    }
  }

  lemma ListedCalls(calls: seq<Call>, elements: set<Call>)
    requires Lists(calls, elements, CallLess)
    requires forall x, y :: x in elements && y in elements && x.caller == y.caller && x.site == y.site ==> x == y
    ensures Distinct(CallKeys(calls)) && |calls| == |elements|
  {
    var keys := CallKeys(calls);
    forall k | 0 < k < |keys| ensures PairLess(keys[k - 1], keys[k]) {
      assert CallLess(calls[k - 1], calls[k]) && calls[k - 1] in elements && calls[k] in elements;
    }
    forall i, j | 0 <= i < j < |keys| ensures keys[i] != keys[j] && calls[i] != calls[j] {
      NeighboursOrderAll(keys, i, j);
    }
    ListingLength(calls, elements);
  }

  lemma ListedReferences(references: seq<Reference>, elements: set<Reference>)
    requires Lists(references, elements, ReferenceLess)
    requires forall x, y :: x in elements && y in elements && x.caller == y.caller && x.site == y.site ==> x == y
    ensures Distinct(ReferenceKeys(references)) && |references| == |elements|
  {
    var keys := ReferenceKeys(references);
    forall k | 0 < k < |keys| ensures PairLess(keys[k - 1], keys[k]) {
      assert ReferenceLess(references[k - 1], references[k]);
      assert references[k - 1] in elements && references[k] in elements;
    }
    forall i, j | 0 <= i < j < |keys| ensures keys[i] != keys[j] && references[i] != references[j] {
      NeighboursOrderAll(keys, i, j);
    }
    ListingLength(references, elements);
  }

  lemma ListedThunks(thunks: seq<Thunk>, elements: set<Thunk>)
    requires Lists(thunks, elements, ThunkLess)
    requires forall x, y :: x in elements && y in elements && x.rva == y.rva ==> x == y
    ensures Distinct(ThunkKeys(thunks)) && |thunks| == |elements| && Elements(thunks) == elements
  {
    var keys := ThunkKeys(thunks);
    forall k | 0 < k < |keys| ensures PairLess(keys[k - 1], keys[k]) {
      assert ThunkLess(thunks[k - 1], thunks[k]) && thunks[k - 1] in elements && thunks[k] in elements;
    }
    forall i, j | 0 <= i < j < |keys| ensures keys[i] != keys[j] && thunks[i] != thunks[j] {
      NeighboursOrderAll(keys, i, j);
    }
    ListingLength(thunks, elements);
  }

  lemma RecoveredRecordsPass(
    c: Context, m: Metadata, limits: Limits, r: Recovered, calls: seq<Call>, references: seq<Reference>)
    requires Recovers(c, m, limits, r)
    requires Lists(calls, r.calls, CallLess) && Lists(references, r.references, ReferenceLess)
    ensures CallsAcceptable(c, m.functions, limits.calls, calls, r.references)
    ensures ReferencesAcceptable(c, m.functions, limits.references, references)
  {
    ListedCalls(calls, r.calls);
    ListedReferences(references, r.references);
    forall k | 0 <= k < |calls| ensures CallAccepted(c, m.functions, r.references, calls[k]) {
      assert calls[k] in r.calls;
    }
    forall k | 0 <= k < |references| ensures ReferenceAccepted(c, m.functions, references[k]) {
      assert references[k] in r.references;
    }
  }

  lemma RecoveredThunksPass(c: Context, m: Metadata, limits: Limits, r: Recovered, thunks: seq<Thunk>)
    requires Recovers(c, m, limits, r) && Lists(thunks, r.thunks, ThunkLess)
    ensures ThunksAcceptable(c, m, limits.thunks, r.calls, thunks)
  {
    ListedThunks(thunks, r.thunks);
    forall k | 0 <= k < |thunks|
      ensures ThunkAccepted(c, thunks[k]) && Reachable(Elements(thunks), ModelThunkSeeds(c, m, r.calls), thunks[k].rva)
    {
      assert thunks[k] in r.thunks;
    }
  }

  /** No self-rejection: for any bounded decoder, accepted layout, ordered functions and limits,
      all three validators accept what recovery produced, however it was cut off. */
  method CheckRecovered(
    c: Context, m: Metadata, limits: Limits, r: Recovered,
    calls: seq<Call>, references: seq<Reference>, thunks: seq<Thunk>)
    returns (ok: bool)
    requires Recovers(c, m, limits, r)
    requires Lists(calls, r.calls, CallLess) && Lists(references, r.references, ReferenceLess)
    requires Lists(thunks, r.thunks, ThunkLess)
    ensures ok
  {
    hide CallsAcceptable, ReferencesAcceptable, ThunksAcceptable, Recovers, Lists;
    var callsOk := ValidateCalls(c, m.functions, limits.calls, calls, r.references);
    var thunksOk := ValidateThunks(c, m, limits.thunks, r.calls, thunks);
    var referencesOk := ValidateReferences(c, m.functions, limits.references, references);
    var graphsOk := ValidateGraphs(c, m.functions, limits.blocks, r.graphs);
    RecoveredRecordsPass(c, m, limits, r, calls, references);
    RecoveredThunksPass(c, m, limits, r, thunks);
    RecoveredGraphsPass(c, m, limits, r);
    ok := callsOk && thunksOk && referencesOk && graphsOk;
  }

  lemma RecoveredGraphsPass(c: Context, m: Metadata, limits: Limits, r: Recovered)
    requires Recovers(c, m, limits, r)
    ensures TotalBlocks(r.graphs) <= limits.blocks && GraphsAll(c, m.functions, r.graphs)
  {
  }

  // ----- recovering, listing and checking -----

  ghost predicate TotalOrder<T(!new)>(less: (T, T) -> bool) {
    && (forall a, b :: a == b || less(a, b) || less(b, a))
    && (forall a, b, c :: less(a, b) && less(b, c) ==> less(a, c))
  }

  lemma {:induction false} LeastOf<T(!new)>(elements: set<T>, less: (T, T) -> bool) returns (least: T)
    requires elements != {} && TotalOrder(less)
    ensures least in elements && forall x :: x in elements ==> x == least || less(least, x)
    decreases |elements|
  {
    least :| least in elements;
    var rest := elements - {least};
    if rest == {} {
      assert elements == {least};
      return;
    }
    var first := least;
    var other := LeastOf(rest, less);
    if less(other, first) { least := other; }
    forall x | x in elements ensures x == least || less(least, x) {
      if x != first && x != other {
        assert x in rest && less(other, x);
        assert less(first, other) && less(other, x) ==> less(first, x);
      }
    }
  }

  /** The elements of an ordered set, as iterating it yields them. */
  method ListInOrder<T(!new,==)>(elements: set<T>, less: (T, T) -> bool) returns (list: seq<T>)
    requires TotalOrder(less)
    ensures Lists(list, elements, less)
    decreases |elements|
  {
    if elements == {} { return []; }
    ghost var witnessed := LeastOf(elements, less);
    var least :| least in elements && forall x :: x in elements ==> x == least || less(least, x);
    var rest := ListInOrder(elements - {least}, less);
    list := [least] + rest;
    ListedFirst(least, rest, elements, less);
  }

  lemma ListedFirst<T(!new)>(least: T, rest: seq<T>, elements: set<T>, less: (T, T) -> bool)
    requires least in elements && forall x :: x in elements ==> x == least || less(least, x)
    requires Lists(rest, elements - {least}, less)
    ensures Lists([least] + rest, elements, less)
  {
    var list := [least] + rest;
    forall k | 0 < k < |list| ensures less(list[k - 1], list[k]) {
      if k == 1 { assert rest[0] in rest; } else { assert less(rest[k - 2], rest[k - 1]); }
    }
  }

  lemma TargetsAreOrdered()
    ensures TotalOrder(TargetLess)
  {
  }

  lemma CallsAreOrdered()
    ensures TotalOrder(CallLess)
  {
    TargetsAreOrdered();
    hide TargetLess;
    forall a, b ensures a == b || CallLess(a, b) || CallLess(b, a) {
      assert a.target == b.target || TargetLess(a.target, b.target) || TargetLess(b.target, a.target);
    }
    forall a, b, c | CallLess(a, b) && CallLess(b, c) ensures CallLess(a, c) {
      assert TargetLess(a.target, b.target) && TargetLess(b.target, c.target) ==> TargetLess(a.target, c.target);
    }
  }

  lemma ReferencesAreOrdered()
    ensures TotalOrder(ReferenceLess)
  {
  }

  lemma ThunksAreOrdered()
    ensures TotalOrder(ThunkLess)
  {
    TargetsAreOrdered();
    hide TargetLess;
    forall a, b ensures a == b || ThunkLess(a, b) || ThunkLess(b, a) {
      assert a.target == b.target || TargetLess(a.target, b.target) || TargetLess(b.target, a.target);
    }
    forall a, b, c | ThunkLess(a, b) && ThunkLess(b, c) ensures ThunkLess(a, c) {
      assert TargetLess(a.target, b.target) && TargetLess(b.target, c.target) ==> TargetLess(a.target, c.target);
    }
  }

  /** Recover, list the records in order and validate them: the validators always accept. */
  method RecoverAndCheck(c: Context, m: Metadata, limits: Limits) returns (r: Recovered, ok: bool)
    requires CodeTargets.Valid(c) && FunctionsOrdered(m.functions, c.layout.sizeOfImage)
    ensures ok && Recovers(c, m, limits, r) && CutsHaveCauses(c, m, limits, r)
    ensures !r.scanTruncated ==> forall f :: f in m.functions && IsBacked(c, f) ==> FullyRecovered(c, f, r)
    ensures !r.scanTruncated ==> forall t :: t in r.thunks <==>
              t in AllThunks(c) && Reachable(AllThunks(c), ThunkSeeds(c, m, r.calls), t.rva)
  {
    hide Recovers, CutsHaveCauses, Reachable, ThunkSeeds, FullyRecovered, IsBacked, CodeTargets.Valid, FunctionsOrdered,
      Lists, TotalOrder;
    CallsAreOrdered();
    ReferencesAreOrdered();
    ThunksAreOrdered();
    r := RecoverCode(c, m, limits);
    var calls := ListInOrder(r.calls, CallLess);
    var references := ListInOrder(r.references, ReferenceLess);
    var thunks := ListInOrder(r.thunks, ThunkLess);
    ok := CheckRecovered(c, m, limits, r, calls, references, thunks);
  }
}
