/** Small shared vocabulary: options, fixed-width integers and set counting. */
module Common {

  datatype Option<+T> = None | Some(value: T)

  const TWO_16 := 0x1_0000
  const TWO_31 := 0x8000_0000
  const TWO_32 := 0x1_0000_0000
  const TWO_63 := 0x8000_0000_0000_0000
  const TWO_64 := 0x1_0000_0000_0000_0000

  type Byte = x: int | 0 <= x < 256 witness 0
  type U32 = x: int | 0 <= x < TWO_32 witness 0
  type U64 = x: int | 0 <= x < TWO_64 witness 0

  predicate Printable(b: int) { 0x20 <= b <= 0x7e }

  function LittleEndian32(bytes: seq<Byte>, offset: nat): U32
    requires offset + 4 <= |bytes|
  {
    var b: seq<int> := bytes[offset..offset + 4];
    b[0] + b[1] * 0x100 + b[2] * 0x1_0000 + b[3] * 0x100_0000
  }

  function LittleEndian64(bytes: seq<Byte>, offset: nat): U64
    requires offset + 8 <= |bytes|
  {
    LittleEndian32(bytes, offset) + TWO_32 * LittleEndian32(bytes, offset + 4)
  }

  predicate IsPowerOfTwo(x: nat) { x == 1 || (x > 1 && x % 2 == 0 && IsPowerOfTwo(x / 2)) }

  /** A subset never has more elements than its superset. */
  lemma {:induction false} SubsetCardinality<T>(small: set<T>, large: set<T>)
    requires small <= large
    ensures |small| <= |large|
  {
    if small != {} {
      var x :| x in small;
      SubsetCardinality(small - {x}, large - {x});
    }
  }

  /** A strict subset has strictly fewer elements than its superset. */
  lemma StrictSubsetCardinality<T>(small: set<T>, large: set<T>)
    requires small < large
    ensures |small| < |large|
  {
    var x :| x in large && x !in small;
    SubsetCardinality(small, large - {x});
  }

  /** A set whose elements have different keys in a range is no larger than the range. */
  lemma {:induction false} RangeCardinality<T>(s: set<T>, key: T -> nat, lo: nat, hi: nat)
    requires lo <= hi && forall x :: x in s ==> lo <= key(x) < hi
    requires forall x, y :: x in s && y in s && key(x) == key(y) ==> x == y
    ensures |s| <= hi - lo
    decreases hi - lo
  {
    if top :| top in s && key(top) == hi - 1 {
      RangeCardinality(s - {top}, key, lo, hi - 1);
    } else if lo < hi {
      RangeCardinality(s, key, lo, hi - 1);
    } else {
      assert s == {};
    }
  }

  /** The sum of the weights of all entries of a table. */
  ghost function Total<K(!new), T(!new)>(table: map<K, T>, weight: T -> nat): nat {
    if table == map[] then 0 else var x :| x in table; weight(table[x]) + Total(table - {x}, weight)
  }

  lemma {:induction false} TotalSplits<K(!new), T(!new)>(table: map<K, T>, x: K, weight: T -> nat)
    requires x in table
    ensures Total(table, weight) == weight(table[x]) + Total(table - {x}, weight)
    decreases |table|
  {
    var y :| y in table && Total(table, weight) == weight(table[y]) + Total(table - {y}, weight);
    if x != y {
      TotalSplits(table - {y}, x, weight);
      TotalSplits(table - {x}, y, weight);
      assert table - {y} - {x} == table - {x} - {y};
    }
  }

  lemma TotalInsert<K(!new), T(!new)>(table: map<K, T>, key: K, entry: T, weight: T -> nat)
    requires key !in table
    ensures Total(table[key := entry], weight) == Total(table, weight) + weight(entry)
  {
    TotalSplits(table[key := entry], key, weight);
    assert table[key := entry] - {key} == table;
  }

  ghost predicate Ascending(list: seq<nat>) { forall i, j :: 0 <= i < j < |list| ==> list[i] < list[j] }

  lemma {:induction false} Smallest(s: set<nat>) returns (least: nat)
    requires s != {}
    ensures least in s && forall x :: x in s ==> least <= x
  {
    least :| least in s;
    if s != {least} {
      var other := Smallest(s - {least});
      assert forall x :: x in s ==> x == least || x in s - {least};
      if other < least { least := other; }
    }
  }

  /** The elements of a set in increasing order. */
  method InOrder(s: set<nat>) returns (list: seq<nat>)
    ensures Ascending(list) && forall x :: x in list <==> x in s
  {
    if s == {} { return []; }
    ghost var first := Smallest(s);
    var least :| least in s && forall x :: x in s ==> least <= x;
    var rest := InOrder(s - {least});
    list := [least] + rest;
    assert forall k :: 0 < k < |list| ==> list[k] in rest;
  }

  function Without<T>(s: seq<T>, k: nat): seq<T>
    requires k < |s|
  {
    s[..k] + s[k + 1..]
  }

  lemma WithoutCounts<T>(s: seq<T>, k: nat)
    requires k < |s|
    ensures multiset(s) == multiset(Without(s, k)) + multiset{s[k]}
  {
    assert s == s[..k] + [s[k]] + s[k + 1..];
  }

  /** Taking the same element out of two permutations leaves permutations. */
  lemma WithoutPermutes<T>(a: seq<T>, i: nat, b: seq<T>, k: nat)
    requires multiset(a) == multiset(b) && i < |a| && k < |b| && a[i] == b[k]
    ensures multiset(Without(a, i)) == multiset(Without(b, k))
  {
    WithoutCounts(a, i);
    WithoutCounts(b, k);
    assert multiset(Without(a, i)) == multiset(a) - multiset{a[i]};
    assert multiset(Without(b, k)) == multiset(b) - multiset{b[k]};
  }
}
