/** Preorder listings of base-class trees: each class is followed by its bases, and carries the
    number of bases contained in it. */
module Preorder {
  import opened Common

  datatype Tree = Node(bases: seq<Tree>)

  /** Classes in a tree and in a forest. */
  function Count(t: Tree): (n: nat)
    ensures n >= 1
    decreases t, 1
  {
    1 + CountAll(t.bases)
  }

  function CountAll(forest: seq<Tree>): nat
    decreases forest, 0
  {
    if forest == [] then 0 else Count(forest[0]) + CountAll(forest[1..])
  }

  /** The listing of a tree: the number of proper descendants, then the listings of the bases. */
  function Flatten(t: Tree): (listing: seq<nat>)
    ensures |listing| == Count(t)
    decreases t, 1
  {
    [CountAll(t.bases)] + FlattenAll(t.bases)
  }

  function FlattenAll(forest: seq<Tree>): (listing: seq<nat>)
    ensures |listing| == CountAll(forest)
    decreases forest, 0
  {
    if forest == [] then [] else Flatten(forest[0]) + FlattenAll(forest[1..])
  }

  // ----- listings as nested spans -----

  /** One past the last class contained in class `i`. */
  function End(counts: seq<nat>, i: nat): nat
    requires i < |counts|
  {
    i + 1 + counts[i]
  }

  /** Positions `from` to `to` list a forest. */
  predicate Forest(counts: seq<nat>, from: nat, to: nat)
    requires to <= |counts|
    decreases if from <= to then to - from else 0
  {
    if from >= to then from == to
    else End(counts, from) <= to && Forest(counts, from + 1, End(counts, from)) && Forest(counts, End(counts, from), to)
  }

  predicate Listing(counts: seq<nat>) { counts != [] && End(counts, 0) == |counts| && Forest(counts, 1, |counts|) }

  /** Rebuild the forest that a range lists. */
  function Rebuild(counts: seq<nat>, from: nat, to: nat): (forest: seq<Tree>)
    requires from <= to <= |counts| && Forest(counts, from, to)
    ensures FlattenAll(forest) == counts[from..to]
    decreases if from <= to then to - from else 0
  {
    if from == to then []
    else
      var end := End(counts, from);
      var bases, rest := Rebuild(counts, from + 1, end), Rebuild(counts, end, to);
      FlattenFirst(bases, rest);
      SliceInThree(counts, from, end, to);
      [Node(bases)] + rest
  }

  lemma FlattenFirst(bases: seq<Tree>, rest: seq<Tree>)
    ensures FlattenAll([Node(bases)] + rest) == [|FlattenAll(bases)|] + FlattenAll(bases) + FlattenAll(rest)
  {
    assert ([Node(bases)] + rest)[1..] == rest;
  }

  lemma SliceInThree(counts: seq<nat>, from: nat, end: nat, to: nat)
    requires from < end <= to <= |counts|
    ensures counts[from..to] == [counts[from]] + counts[from + 1..end] + counts[end..to]
  {
  }

  function RebuildTree(counts: seq<nat>): (t: Tree)
    requires Listing(counts)
    ensures Flatten(t) == counts
  {
    var bases := Rebuild(counts, 1, |counts|);
    assert counts == [counts[0]] + counts[1..|counts|];
    Node(bases)
  }

  /** Where the first tree of a flattened forest ends, and what lies on either side. */
  lemma SplitFlattened(forest: seq<Tree>, counts: seq<nat>, from: nat, to: nat) returns (end: nat)
    requires from <= to <= |counts| && counts[from..to] == FlattenAll(forest) && forest != []
    ensures from < end <= to && end == End(counts, from)
    ensures counts[from + 1..end] == FlattenAll(forest[0].bases) && counts[end..to] == FlattenAll(forest[1..])
  {
    var first := Flatten(forest[0]);
    end := from + |first|;
    assert counts[from..end] == counts[from..to][..|first|] == first;
    assert counts[end..to] == counts[from..to][|first|..] == FlattenAll(forest[1..]);
    assert counts[from] == first[0] && counts[from + 1..end] == first[1..] == FlattenAll(forest[0].bases);
  }

  /** A flattened forest is a forest, wherever it stands. */
  lemma {:induction false} FlattenedIsForest(forest: seq<Tree>, counts: seq<nat>, from: nat, to: nat)
    requires from <= to <= |counts| && counts[from..to] == FlattenAll(forest)
    ensures Forest(counts, from, to)
    decreases forest
  {
    if forest != [] {
      var end := SplitFlattened(forest, counts, from, to);
      FlattenedIsForest(forest[0].bases, counts, from + 1, end);
      FlattenedIsForest(forest[1..], counts, end, to);
    }
  }

  /** Rebuilding undoes flattening. */
  lemma {:induction false} RebuildUndoesFlatten(forest: seq<Tree>, counts: seq<nat>, from: nat, to: nat)
    requires from <= to <= |counts| && counts[from..to] == FlattenAll(forest)
    ensures Forest(counts, from, to) && Rebuild(counts, from, to) == forest
    decreases forest
  {
    FlattenedIsForest(forest, counts, from, to);
    if forest != [] {
      var end := SplitFlattened(forest, counts, from, to);
      RebuildUndoesFlatten(forest[0].bases, counts, from + 1, end);
      RebuildUndoesFlatten(forest[1..], counts, end, to);
      assert Node(forest[0].bases) == forest[0] && forest == [forest[0]] + forest[1..];
    }
  }

  /** Nested spans are exactly the listings of trees, and flattening and rebuilding are inverse. */
  lemma ListingsAreTrees(counts: seq<nat>)
    ensures Listing(counts) <==> exists t :: Flatten(t) == counts
    ensures forall t :: Flatten(t) == counts ==> Listing(counts) && RebuildTree(counts) == t
  {
    if Listing(counts) {
      assert Flatten(RebuildTree(counts)) == counts;
    }
    forall t | Flatten(t) == counts ensures Listing(counts) && RebuildTree(counts) == t {
      assert counts[1..|counts|] == FlattenAll(t.bases);
      RebuildUndoesFlatten(t.bases, counts, 1, |counts|);
    }
  }

  // ----- the stack algorithm -----

  /** The open ends nest: from bottom to top they do not grow, and all lie ahead. */
  ghost predicate Open(counts: seq<nat>, index: nat, ends: seq<nat>) {
    && (forall k :: 0 <= k < |ends| ==> index <= ends[k] <= |counts|)
    && (forall j, k :: 0 <= j < k < |ends| ==> ends[k] <= ends[j])
  }

  /** From `index` on, the classes fill every open span in turn, and then the array is used up. */
  ghost predicate Fits(counts: seq<nat>, index: nat, ends: seq<nat>)
    requires index <= |counts| && Open(counts, index, ends)
    decreases |ends|
  {
    if ends == [] then index == |counts|
    else
      var top, rest := ends[|ends| - 1], ends[..|ends| - 1];
      Forest(counts, index, top) && Fits(counts, top, rest)
  }

  /** Closing a span that ends here changes nothing. */
  lemma PopFits(counts: seq<nat>, index: nat, ends: seq<nat>)
    requires index <= |counts| && Open(counts, index, ends) && ends != [] && ends[|ends| - 1] == index
    ensures Open(counts, index, ends[..|ends| - 1])
    ensures Fits(counts, index, ends) <==> Fits(counts, index, ends[..|ends| - 1])
  {
  }

  lemma ForestSplits(counts: seq<nat>, from: nat, to: nat)
    requires from < to <= |counts|
    ensures Forest(counts, from, to) <==>
            && End(counts, from) <= to
            && Forest(counts, from + 1, End(counts, from)) && Forest(counts, End(counts, from), to)
  {
  }

  lemma FitsTop(counts: seq<nat>, index: nat, rest: seq<nat>, top: nat)
    requires index <= top <= |counts| && Open(counts, index, rest + [top])
    ensures Open(counts, top, rest)
    ensures Fits(counts, index, rest + [top]) <==> Forest(counts, index, top) && Fits(counts, top, rest)
  {
    hide Forest;
    var ends := rest + [top];
    assert ends[..|ends| - 1] == rest && ends[|ends| - 1] == top;
    forall k | 0 <= k < |rest| ensures top <= rest[k] <= |counts| {
      assert ends[k] == rest[k] && ends[|ends| - 1] <= ends[k];
    }
    forall j, k | 0 <= j < k < |rest| ensures rest[k] <= rest[j] {
      assert ends[k] <= ends[j];
    }
  }

  /** Taking one class inside an open span opens its own. */
  lemma PushFits(counts: seq<nat>, index: nat, ends: seq<nat>)
    requires index < |counts| && Open(counts, index, ends) && ends != [] && index < ends[|ends| - 1]
    ensures End(counts, index) > ends[|ends| - 1] ==> !Fits(counts, index, ends)
    ensures End(counts, index) <= ends[|ends| - 1] ==>
              && Open(counts, index + 1, ends + [End(counts, index)])
              && (Fits(counts, index, ends) <==> Fits(counts, index + 1, ends + [End(counts, index)]))
  {
    hide Forest, Fits;
    var end, top, rest := End(counts, index), ends[|ends| - 1], ends[..|ends| - 1];
    assert ends == rest + [top];
    FitsTop(counts, index, rest, top);
    ForestSplits(counts, index, top);
    if end <= top {
      assert Open(counts, end, ends);
      FitsTop(counts, end, rest, top);
      assert Open(counts, index + 1, ends + [end]);
      FitsTop(counts, index + 1, ends, end);
    }
  }

  /** The stack of open ends recognises exactly the listings, on every non-empty array; an empty
      array is accepted. */
  method HasValidPreorderSpans(counts: seq<nat>) returns (ok: bool)
    ensures ok <==> counts == [] || Listing(counts)
  {
    hide Fits, Listing;
    var ends: seq<nat> := [];
    for index := 0 to |counts|
      invariant Open(counts, index, ends)
      invariant index == 0 ==> ends == []
      invariant index > 0 ==> (Listing(counts) <==> Fits(counts, index, ends))
    {
      ends := CloseSpans(counts, index, ends);
      if index != 0 && ends == [] {
        NothingOpen(counts, index);
        return false;
      }
      var end := index + 1 + counts[index];
      if end > |counts| || (ends != [] && end > ends[|ends| - 1]) {
        if index == 0 { TooLong(counts); } else { PushFits(counts, index, ends); }
        return false;
      }
      ghost var pushed := ends + [end];
      assert pushed[..|pushed| - 1] == ends && (ends == [] ==> pushed == [end]);
      if index == 0 { FirstFits(counts); } else { PushFits(counts, index, ends); }
      if end > index + 1 { ends := ends + [end]; } else { PopFits(counts, index + 1, pushed); }
    }
    ends := CloseSpans(counts, |counts|, ends);
    NothingOpen(counts, |counts|);
    ok := ends == [];
  }

  lemma NothingOpen(counts: seq<nat>, index: nat)
    requires index <= |counts|
    ensures Fits(counts, index, []) <==> index == |counts|
  {
  }

  lemma TooLong(counts: seq<nat>)
    requires counts != [] && End(counts, 0) > |counts|
    ensures !Listing(counts)
  {
  }

  lemma FirstFits(counts: seq<nat>)
    requires counts != [] && End(counts, 0) <= |counts|
    ensures Open(counts, 1, [End(counts, 0)]) && (Listing(counts) <==> Fits(counts, 1, [End(counts, 0)]))
  {
    assert [End(counts, 0)][..0] == [];
  }

  /** Drop the spans that end at `index`. */
  method CloseSpans(counts: seq<nat>, index: nat, ends0: seq<nat>) returns (ends: seq<nat>)
    requires index <= |counts| && Open(counts, index, ends0)
    ensures Open(counts, index, ends) && (ends0 == [] ==> ends == [])
    ensures ends != [] ==> index < ends[|ends| - 1]
    ensures Fits(counts, index, ends) <==> Fits(counts, index, ends0)
  {
    ends := ends0;
    while ends != [] && ends[|ends| - 1] == index
      invariant Open(counts, index, ends) && (ends0 == [] ==> ends == [])
      invariant Fits(counts, index, ends) <==> Fits(counts, index, ends0)
      decreases |ends|
    {
      PopFits(counts, index, ends);
      ends := ends[..|ends| - 1];
    }
  }

  /** The root's own count is implied: a listing says that everything after the root is in it. */
  lemma RootCountIsImplied(counts: seq<nat>)
    requires Listing(counts)
    ensures counts[0] + 1 == |counts| == Count(RebuildTree(counts))
  {
  }
}
