/** The index over runtime functions that decides which addresses may be function targets. */
module RuntimeTargets {
  import opened Common

  datatype RuntimeFunction = RuntimeFunction(begin: U32, end: U32)

  type Interval = (U32, U32)

  /** Known function starts, and the merged runtime-function ranges. */
  datatype Policy = Policy(knownStarts: set<U32>, covered: seq<Interval>)

  predicate Holds(interval: Interval, rva: U32) { interval.0 <= rva < interval.1 }

  ghost predicate InSome(intervals: seq<Interval>, rva: U32) {
    exists k :: 0 <= k < |intervals| && Holds(intervals[k], rva)
  }

  /** The rule itself: a known start, or an address inside no runtime function. */
  ghost predicate Allowed(functions: seq<RuntimeFunction>, extraStarts: set<U32>, rva: U32) {
    || rva in extraStarts
    || (exists f :: f in functions && f.begin == rva)
    || !(exists f :: f in functions && f.begin <= rva < f.end)
  }

  ghost predicate Increasing(intervals: seq<Interval>) {
    forall i, j :: 0 <= i < j < |intervals| ==> intervals[i].0 <= intervals[j].0
  }

  /** Non-empty, disjoint, with a gap between neighbours. */
  ghost predicate Separated(intervals: seq<Interval>) {
    && (forall k :: 0 <= k < |intervals| ==> intervals[k].0 < intervals[k].1)
    && (forall i, j :: 0 <= i < j < |intervals| ==> intervals[i].1 < intervals[j].0)
  }

  function Insert(x: Interval, sorted: seq<Interval>): (r: seq<Interval>)
    requires Increasing(sorted)
    ensures Increasing(r) && forall y :: y in r <==> y in sorted || y == x
  {
    if sorted == [] || x.0 < sorted[0].0 || (x.0 == sorted[0].0 && x.1 <= sorted[0].1) then [x] + sorted
    else
      var rest := Insert(x, sorted[1..]);
      assert forall i :: 0 <= i < |rest| ==> rest[i] in rest;
      [sorted[0]] + rest
  }

  /** Sort by begin, then by end. */
  function Sort(intervals: seq<Interval>): (r: seq<Interval>)
    ensures Increasing(r) && forall y :: y in r <==> y in intervals
  {
    if intervals == [] then [] else Insert(intervals[0], Sort(intervals[1..]))
  }

  lemma SameElements(a: seq<Interval>, b: seq<Interval>, rva: U32)
    requires forall y :: y in a <==> y in b
    ensures InSome(a, rva) <==> InSome(b, rva)
  {
    if InSome(a, rva) {
      var k :| 0 <= k < |a| && Holds(a[k], rva);
      assert a[k] in b;
    }
    if InSome(b, rva) {
      var k :| 0 <= k < |b| && Holds(b[k], rva);
      assert b[k] in a;
    }
  }

  /** One sorted range joins the last interval or opens a new one. */
  function Extend(covered: seq<Interval>, next: Interval): seq<Interval> {
    if covered == [] || covered[|covered| - 1].1 < next.0 then covered + [next]
    else
      var last := covered[|covered| - 1];
      covered[|covered| - 1 := (last.0, if last.1 < next.1 then next.1 else last.1)]
  }

  lemma ExtendCovers(covered: seq<Interval>, next: Interval, rva: U32)
    requires Separated(covered) && next.0 < next.1
    requires covered != [] ==> covered[|covered| - 1].0 <= next.0
    ensures Separated(Extend(covered, next)) && Extend(covered, next) != []
    ensures Extend(covered, next)[|Extend(covered, next)| - 1].0 <= next.0
    ensures InSome(Extend(covered, next), rva) <==> InSome(covered, rva) || Holds(next, rva)
  {
    var after, n := Extend(covered, next), |covered|;
    forall k | 0 <= k < n && Holds(covered[k], rva) ensures Holds(after[k], rva) {
    }
    assert forall k :: 0 <= k < n - 1 ==> after[k] == covered[k];
    assert Holds(next, rva) ==> Holds(after[|after| - 1], rva);
    assert Holds(after[|after| - 1], rva) ==> Holds(next, rva) || (n > 0 && Holds(covered[n - 1], rva));
  }

  /** Build the index. */
  method NewPolicy(functions: seq<RuntimeFunction>, extraStarts: set<U32>) returns (p: Policy)
    ensures forall rva :: rva in p.knownStarts <==> rva in extraStarts || exists f :: f in functions && f.begin == rva
    ensures Separated(p.covered)
    ensures forall rva: U32 :: InSome(p.covered, rva) <==> exists f :: f in functions && f.begin <= rva < f.end
  {
    var starts, ranges := extraStarts, [];
    for i := 0 to |functions|
      invariant forall rva :: rva in starts <==> rva in extraStarts || exists f :: f in functions[..i] && f.begin == rva
      invariant forall x :: x in ranges <==> exists f :: f in functions[..i] && f.begin < f.end && x == (f.begin, f.end)
    {
      assert functions[..i + 1] == functions[..i] + [functions[i]];
      starts := starts + {functions[i].begin};
      if functions[i].begin < functions[i].end { ranges := ranges + [(functions[i].begin, functions[i].end)]; }
    }
    assert functions[..|functions|] == functions;
    var covered := MergeRanges(ranges);
    p := Policy(starts, covered);
    forall rva: U32 ensures InSome(covered, rva) <==> exists f :: f in functions && f.begin <= rva < f.end {
      RangesCover(functions, ranges, rva);
    }
  }

  lemma RangesCover(functions: seq<RuntimeFunction>, ranges: seq<Interval>, rva: U32)
    requires forall x :: x in ranges <==> exists f :: f in functions && f.begin < f.end && x == (f.begin, f.end)
    ensures InSome(ranges, rva) <==> exists f :: f in functions && f.begin <= rva < f.end
  {
    if InSome(ranges, rva) {
      var k :| 0 <= k < |ranges| && Holds(ranges[k], rva);
      assert ranges[k] in ranges;
    }
    if f :| f in functions && f.begin <= rva < f.end {
      assert (f.begin, f.end) in ranges;
    }
  }

  ghost predicate SameCover(a: seq<Interval>, b: seq<Interval>) {
    forall rva: U32 :: InSome(a, rva) <==> InSome(b, rva)
  }

  /** After `k` sorted ranges. */
  ghost predicate Merged(covered: seq<Interval>, sorted: seq<Interval>, k: nat)
    requires k <= |sorted|
  {
    && Separated(covered) && SameCover(covered, sorted[..k])
    && (covered != [] ==> k > 0 && covered[|covered| - 1].0 <= sorted[k - 1].0)
  }

  lemma MergeOne(covered: seq<Interval>, sorted: seq<Interval>, k: nat)
    requires k < |sorted| && Increasing(sorted) && sorted[k].0 < sorted[k].1 && Merged(covered, sorted, k)
    ensures Merged(Extend(covered, sorted[k]), sorted, k + 1)
  {
    ExtendCovers(covered, sorted[k], 0);
    forall rva: U32 ensures InSome(Extend(covered, sorted[k]), rva) <==> InSome(sorted[..k + 1], rva) {
      ExtendCovers(covered, sorted[k], rva);
      PrefixCovers(sorted, k, rva);
    }
  }

  /** Sort and merge: the result is separated and covers exactly the same addresses. */
  method MergeRanges(ranges: seq<Interval>) returns (covered: seq<Interval>)
    requires forall x :: x in ranges ==> x.0 < x.1
    ensures Separated(covered) && SameCover(covered, ranges)
  {
    var sorted := Sort(ranges);
    covered := [];
    for k := 0 to |sorted|
      invariant Merged(covered, sorted, k)
    {
      assert sorted[k] in ranges;
      MergeOne(covered, sorted, k);
      covered := Extend(covered, sorted[k]);
    }
    assert sorted[..|sorted|] == sorted;
    forall rva: U32 ensures InSome(sorted, rva) <==> InSome(ranges, rva) {
      SameElements(sorted, ranges, rva);
    }
  }

  lemma PrefixCovers(intervals: seq<Interval>, k: nat, rva: U32)
    requires k < |intervals|
    ensures InSome(intervals[..k + 1], rva) <==> InSome(intervals[..k], rva) || Holds(intervals[k], rva)
  {
    assert intervals[..k + 1] == intervals[..k] + [intervals[k]];
    assert intervals[..k + 1][k] == intervals[k];
    assert forall j :: 0 <= j < k ==> intervals[..k + 1][j] == intervals[..k][j];
  }

  /** The first interval that begins after an address. */
  method FirstBeginningAfter(covered: seq<Interval>, rva: U32) returns (point: nat)
    requires Separated(covered)
    ensures point <= |covered|
    ensures forall k :: 0 <= k < |covered| ==> (covered[k].0 <= rva <==> k < point)
  {
    var low, high := 0, |covered|;
    while low < high
      invariant 0 <= low <= high <= |covered|
      invariant forall k :: 0 <= k < low ==> covered[k].0 <= rva
      invariant forall k :: high <= k < |covered| ==> rva < covered[k].0
    {
      var middle := low + (high - low) / 2;
      if covered[middle].0 <= rva { low := middle + 1; } else { high := middle; }
    }
    point := low;
  }

  method AllowsFunctionTarget(p: Policy, rva: U32) returns (allowed: bool)
    requires Separated(p.covered)
    ensures allowed <==> rva in p.knownStarts || !InSome(p.covered, rva)
  {
    if rva in p.knownStarts { return true; }
    var candidate := FirstBeginningAfter(p.covered, rva);
    allowed := candidate == 0 || rva >= p.covered[candidate - 1].1;
    if candidate > 0 {
      assert forall k :: 0 <= k < candidate - 1 ==> p.covered[k].1 < p.covered[candidate - 1].0;
      assert !allowed ==> Holds(p.covered[candidate - 1], rva);
    }
  }

  /** Index and query together are the rule, for any functions and any extra starts. */
  method IndexedTarget(functions: seq<RuntimeFunction>, extraStarts: set<U32>, rva: U32) returns (allowed: bool)
    ensures allowed <==> Allowed(functions, extraStarts, rva)
  {
    var p := NewPolicy(functions, extraStarts);
    allowed := AllowsFunctionTarget(p, rva);
  }
}
