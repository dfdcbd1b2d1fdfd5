/** The session ledger: plugin runs, their claims, and the counts that tie them together. */
module Session {
  import opened Common

  /** One plugin run. `wellFormed` stands for the checks on its version, id and fingerprint. */
  datatype Run = Run(plugin: string, version: string, id: string, wellFormed: bool, successful: bool, accepted: U64)

  datatype Subject = Function(rva: nat) | OtherSubject

  datatype Assertion =
    | PointerCall(site: nat, slot: nat)
    | DataReference(site: nat, size: nat, target: nat)
    | OtherAssertion

  datatype Producer = Plugin(id: string, version: string) | Core

  /** One claim. `valid` stands for its own validity, binary binding, ranges and section policy. */
  datatype Claim = Claim(valid: bool, subject: Subject, assertion: Assertion, producer: Producer, runId: Option<string>)

  // ----- weighing lists -----

  /** The sum of a weight over a list. */
  function Weigh<T>(s: seq<T>, weight: T -> nat): nat {
    if s == [] then 0 else Weigh(s[..|s| - 1], weight) + weight(s[|s| - 1])
  }

  lemma {:induction false} WeighRemove<T>(s: seq<T>, k: nat, weight: T -> nat)
    requires k < |s|
    ensures Weigh(s, weight) == Weigh(Without(s, k), weight) + weight(s[k])
    decreases |s|
  {
    var without, last := Without(s, k), |s| - 1;
    if k < last {
      WeighRemove(s[..last], k, weight);
      assert Without(s[..last], k) == without[..|without| - 1];
      assert without[|without| - 1] == s[last];
    } else {
      assert without == s[..last];
    }
  }

  /** A weight does not depend on order. */
  lemma {:induction false} WeighPermutes<T>(a: seq<T>, b: seq<T>, weight: T -> nat)
    requires multiset(a) == multiset(b)
    ensures Weigh(a, weight) == Weigh(b, weight)
    decreases |a|
  {
    assert |a| == |multiset(a)| == |multiset(b)| == |b|;
    if a != [] {
      assert a[0] in multiset(b);
      var k :| 0 <= k < |b| && b[k] == a[0];
      WeighRemove(a, 0, weight);
      WeighRemove(b, k, weight);
      WithoutPermutes(a, 0, b, k);
      WeighPermutes(Without(a, 0), Without(b, k), weight);
    }
  }

  lemma {:induction false} WeighIsPositive<T>(s: seq<T>, k: nat, weight: T -> nat)
    requires k < |s|
    ensures Weigh(s, weight) >= weight(s[k])
  {
    WeighRemove(s, k, weight);
  }

  // ----- acceptance -----

  predicate RunValid(r: Run) { r.wellFormed && (r.successful || r.accepted == 0) }

  function HasId(id: string): Run -> nat { (r: Run) => if r.id == id then 1 else 0 }

  function OwnedBy(id: string): Claim -> nat { (c: Claim) => if c.runId == Some(id) then 1 else 0 }

  function Accepted(): Run -> nat { (r: Run) => r.accepted }

  /** No run id occurs twice. */
  ghost predicate UniqueIds(runs: seq<Run>) { forall id :: Weigh(runs, HasId(id)) <= 1 }

  predicate Backs(r: Run, c: Claim) {
    r.successful && c.runId == Some(r.id) && c.producer == Plugin(r.plugin, r.version)
  }

  ghost predicate ClaimBacked(runs: seq<Run>, c: Claim) { c.valid && exists r :: r in runs && Backs(r, c) }

  function CompanionKey(c: Claim): Option<(nat, nat, nat)> {
    if c.subject.Function? && c.assertion.DataReference? && (c.assertion.size == 6 || c.assertion.size == 7)
    then Some((c.subject.rva, c.assertion.site, c.assertion.target)) else None
  }

  /** The reference a pointer call must be accompanied by. */
  function NeededKey(c: Claim): Option<(nat, nat, nat)> {
    if c.subject.Function? && c.assertion.PointerCall?
    then Some((c.subject.rva, c.assertion.site, c.assertion.slot)) else None
  }

  ghost predicate Accompanied(base: seq<Claim>, claims: seq<Claim>, c: Claim) {
    NeededKey(c).Some? ==> exists d :: d in base + claims && CompanionKey(d) == NeededKey(c)
  }

  /** What an accepted session is, without reference to the order of anything. */
  ghost predicate Acceptable(base: seq<Claim>, runs: seq<Run>, claims: seq<Claim>) {
    && (forall r :: r in runs ==> RunValid(r)) && UniqueIds(runs)
    && (forall c :: c in claims ==> ClaimBacked(runs, c))
    && (forall c :: c in claims ==> Accompanied(base, claims, c))
    && (forall r :: r in runs ==> r.accepted == Weigh(claims, OwnedBy(r.id)))
  }

  // ----- consequences -----

  /** Acceptance is unchanged by permuting claims, runs or base claims. */
  lemma AcceptanceIgnoresOrder(
    base: seq<Claim>, runs: seq<Run>, claims: seq<Claim>, base1: seq<Claim>, runs1: seq<Run>, claims1: seq<Claim>)
    requires multiset(base) == multiset(base1) && multiset(runs) == multiset(runs1)
    requires multiset(claims) == multiset(claims1)
    requires Acceptable(base, runs, claims)
    ensures Acceptable(base1, runs1, claims1)
  {
    SameMembers(base, base1);
    SameMembers(runs, runs1);
    SameMembers(claims, claims1);
    forall id ensures Weigh(runs1, HasId(id)) <= 1 {
      WeighPermutes(runs, runs1, HasId(id));
    }
    forall r | r in runs1 ensures r.accepted == Weigh(claims1, OwnedBy(r.id)) {
      WeighPermutes(claims, claims1, OwnedBy(r.id));
    }
  }

  lemma SameMembers<T>(a: seq<T>, b: seq<T>)
    requires multiset(a) == multiset(b)
    ensures forall x :: x in a <==> x in b
  {
    forall x ensures x in a <==> x in b {
      assert x in a <==> x in multiset(a);
      assert x in b <==> x in multiset(b);
    }
  }

  /** The claims owned by the runs, run by run. */
  function OwnedInAll(runs: seq<Run>, claims: seq<Claim>): nat {
    if runs == [] then 0
    else OwnedInAll(runs[..|runs| - 1], claims) + Weigh(claims, OwnedBy(runs[|runs| - 1].id))
  }

  lemma {:induction false} OneMoreClaim(runs: seq<Run>, claims: seq<Claim>, c: Claim)
    requires c.runId.Some?
    ensures OwnedInAll(runs, claims + [c]) == OwnedInAll(runs, claims) + Weigh(runs, HasId(c.runId.value))
    decreases |runs|
  {
    if runs != [] {
      OneMoreClaim(runs[..|runs| - 1], claims, c);
      assert (claims + [c])[..|claims|] == claims;
    }
  }

  lemma {:induction false} NoClaims(runs: seq<Run>)
    ensures OwnedInAll(runs, []) == 0
    decreases |runs|
  {
    if runs != [] { NoClaims(runs[..|runs| - 1]); }
  }

  /** Every claim has exactly one owner. */
  lemma {:induction false} OwnersCoverClaims(runs: seq<Run>, claims: seq<Claim>)
    requires UniqueIds(runs) && forall c :: c in claims ==> ClaimBacked(runs, c)
    ensures OwnedInAll(runs, claims) == |claims|
    decreases |claims|
  {
    if claims == [] {
      NoClaims(runs);
    } else {
      var rest, c := claims[..|claims| - 1], claims[|claims| - 1];
      OwnersCoverClaims(runs, rest);
      assert ClaimBacked(runs, c);
      var r :| r in runs && Backs(r, c);
      var k :| 0 <= k < |runs| && runs[k] == r;
      WeighIsPositive(runs, k, HasId(r.id));
      OneMoreClaim(runs, rest, c);
      assert claims == rest + [c];
    }
  }

  lemma {:induction false} RecordedIsOwned(runs: seq<Run>, claims: seq<Claim>)
    requires forall r :: r in runs ==> r.accepted == Weigh(claims, OwnedBy(r.id))
    ensures Weigh(runs, Accepted()) == OwnedInAll(runs, claims)
    decreases |runs|
  {
    if runs != [] {
      RecordedIsOwned(runs[..|runs| - 1], claims);
      assert runs[|runs| - 1] in runs;
    }
  }

  /** Conservation: the recorded counts add up to exactly the number of plugin claims. */
  lemma LedgerBalances(base: seq<Claim>, runs: seq<Run>, claims: seq<Claim>)
    requires Acceptable(base, runs, claims)
    ensures Weigh(runs, Accepted()) == |claims|
  {
    RecordedIsOwned(runs, claims);
    OwnersCoverClaims(runs, claims);
  }

  /** No claim belongs to a failed run, and run ids tell runs apart. */
  lemma FailedRunsOwnNothing(base: seq<Claim>, runs: seq<Run>, claims: seq<Claim>, i: nat)
    requires Acceptable(base, runs, claims) && i < |runs| && !runs[i].successful
    ensures forall c :: c in claims ==> c.runId != Some(runs[i].id)
    ensures forall j :: 0 <= j < |runs| && j != i ==> runs[j].id != runs[i].id
  {
    forall j | 0 <= j < |runs| && j != i ensures runs[j].id != runs[i].id {
      IdsDiffer(runs, i, j);
    }
    forall c | c in claims ensures c.runId != Some(runs[i].id) {
      assert ClaimBacked(runs, c);
      var r :| r in runs && Backs(r, c);
      var k :| 0 <= k < |runs| && runs[k] == r;
    }
  }

  /** Unique ids: two runs of a session never share one. */
  lemma IdsDiffer(runs: seq<Run>, i: nat, j: nat)
    requires UniqueIds(runs) && i < |runs| && j < |runs| && i != j
    ensures runs[i].id != runs[j].id
  {
    var id, rest := runs[i].id, Without(runs, i);
    WeighRemove(runs, i, HasId(id));
    var k := if j < i then j else j - 1;
    assert rest[k] == runs[j];
    WeighIsPositive(rest, k, HasId(id));
  }

  // ----- the validator -----

  /** The table lists exactly the runs so far, one per id. */
  ghost predicate Indexes(byId: map<string, Run>, runs: seq<Run>) {
    && (forall id :: id in byId ==> byId[id] in runs && byId[id].id == id)
    && (forall id :: Weigh(runs, HasId(id)) == if id in byId then 1 else 0)
  }

  lemma IndexNext(byId: map<string, Run>, runs: seq<Run>, r: Run)
    requires Indexes(byId, runs)
    ensures r.id in byId ==> Weigh(runs + [r], HasId(r.id)) == 2
    ensures r.id !in byId ==> Indexes(byId[r.id := r], runs + [r])
  {
    assert (runs + [r])[..|runs|] == runs;
  }

  lemma {:induction false} PrefixWeighsLess<T>(s: seq<T>, k: nat, weight: T -> nat)
    requires k <= |s|
    ensures Weigh(s[..k], weight) <= Weigh(s, weight)
    decreases |s| - k
  {
    if k < |s| {
      PrefixWeighsLess(s, k + 1, weight);
      assert s[..k + 1][..k] == s[..k];
    } else {
      assert s[..k] == s;
    }
  }

  method IndexRuns(runs: seq<Run>) returns (ok: bool, byId: map<string, Run>)
    ensures ok <==> (forall r :: r in runs ==> RunValid(r)) && UniqueIds(runs)
    ensures ok ==> Indexes(byId, runs)
  {
    hide Indexes, Weigh;
    byId := map[];
    NothingIndexed();
    for k := 0 to |runs|
      invariant Indexes(byId, runs[..k]) && forall i :: 0 <= i < k ==> RunValid(runs[i])
    {
      assert runs[..k + 1] == runs[..k] + [runs[k]];
      if !RunValid(runs[k]) { return false, byId; }
      IndexNext(byId, runs[..k], runs[k]);
      if runs[k].id in byId {
        PrefixWeighsLess(runs, k + 1, HasId(runs[k].id));
        return false, byId;
      }
      byId := byId[runs[k].id := runs[k]];
    }
    assert runs[..|runs|] == runs;
    IndexedIsUnique(byId, runs);
    ok := true;
  }

  lemma NothingIndexed()
    ensures Indexes(map[], [])
  {
  }

  lemma IndexedIsUnique(byId: map<string, Run>, runs: seq<Run>)
    requires Indexes(byId, runs)
    ensures UniqueIds(runs)
  {
  }

  /** A claim is backed by a run exactly if its id leads to one that backs it. */
  lemma LookupFinds(byId: map<string, Run>, runs: seq<Run>, c: Claim)
    requires Indexes(byId, runs)
    ensures (exists r :: r in runs && Backs(r, c)) <==>
              c.runId.Some? && c.runId.value in byId && Backs(byId[c.runId.value], c)
  {
    if r :| r in runs && Backs(r, c) {
      var k :| 0 <= k < |runs| && runs[k] == r;
      WeighIsPositive(runs, k, HasId(r.id));
      assert r.id in byId;
      var m :| 0 <= m < |runs| && runs[m] == byId[r.id];
      if m != k {
        IndexedIsUnique(byId, runs);
        IdsDiffer(runs, k, m);
      }
    }
  }

  function CountIn(counts: map<string, U64>, id: string): U64 { if id in counts then counts[id] else 0 }

  ghost predicate Tallies(counts: map<string, U64>, claims: seq<Claim>) {
    forall id :: CountIn(counts, id) == Weigh(claims, OwnedBy(id))
  }

  lemma TallyNext(counts: map<string, U64>, claims: seq<Claim>, c: Claim)
    requires Tallies(counts, claims) && c.runId.Some? && CountIn(counts, c.runId.value) + 1 < TWO_64
    ensures Tallies(counts[c.runId.value := CountIn(counts, c.runId.value) + 1], claims + [c])
  {
    assert (claims + [c])[..|claims|] == claims;
  }

  /** Every run's claims can be counted in 64 bits. */
  ghost predicate Countable(claims: seq<Claim>) { forall id :: Weigh(claims, OwnedBy(id)) < TWO_64 }

  lemma Overflows(counts: map<string, U64>, claims: seq<Claim>, k: nat)
    requires k < |claims| && Tallies(counts, claims[..k]) && claims[k].runId.Some?
    requires CountIn(counts, claims[k].runId.value) + 1 >= TWO_64
    ensures !Countable(claims)
  {
    var id := claims[k].runId.value;
    assert claims[..k + 1][..k] == claims[..k];
    assert Weigh(claims[..k + 1], OwnedBy(id)) >= TWO_64;
    PrefixWeighsLess(claims, k + 1, OwnedBy(id));
  }

  lemma TalliedIsCountable(counts: map<string, U64>, claims: seq<Claim>)
    requires Tallies(counts, claims)
    ensures Countable(claims)
  {
    forall id ensures Weigh(claims, OwnedBy(id)) < TWO_64 {
      assert CountIn(counts, id) == Weigh(claims, OwnedBy(id));
    }
  }

  lemma {:induction false} SomeOwned(claims: seq<Claim>, id: string) returns (k: nat)
    requires Weigh(claims, OwnedBy(id)) > 0
    ensures k < |claims| && claims[k].runId == Some(id)
    decreases |claims|
  {
    k := |claims| - 1;
    if claims[k].runId != Some(id) { k := SomeOwned(claims[..k], id); }
  }

  /** Recorded counts are 64-bit, so an acceptable session never overflows one. */
  lemma AcceptableIsCountable(base: seq<Claim>, runs: seq<Run>, claims: seq<Claim>)
    requires Acceptable(base, runs, claims)
    ensures Countable(claims)
  {
    forall id ensures Weigh(claims, OwnedBy(id)) < TWO_64 {
      if Weigh(claims, OwnedBy(id)) > 0 {
        var k := SomeOwned(claims, id);
        assert ClaimBacked(runs, claims[k]);
        var r :| r in runs && Backs(r, claims[k]);
        assert r.accepted == Weigh(claims, OwnedBy(id));
      }
    }
  }

  /** Check each claim against its run and count it; a count that leaves 64 bits is refused. */
  method TallyClaims(byId: map<string, Run>, ghost runs: seq<Run>, claims: seq<Claim>)
    returns (ok: bool, counts: map<string, U64>)
    requires Indexes(byId, runs)
    ensures ok <==> (forall c :: c in claims ==> ClaimBacked(runs, c)) && Countable(claims)
    ensures ok ==> Tallies(counts, claims)
  {
    hide Indexes, Tallies, Weigh, Countable;
    counts := map[];
    NothingTallied();
    for k := 0 to |claims|
      invariant Tallies(counts, claims[..k]) && forall i :: 0 <= i < k ==> ClaimBacked(runs, claims[i])
    {
      var c := claims[k];
      assert claims[..k + 1] == claims[..k] + [c];
      LookupFinds(byId, runs, c);
      if !c.valid || c.producer.Core? || c.runId.None? || c.runId.value !in byId {
        assert c in claims && !ClaimBacked(runs, c);
        return false, counts;
      }
      var run := byId[c.runId.value];
      if !run.successful || c.producer != Plugin(run.plugin, run.version) {
        assert c in claims && !ClaimBacked(runs, c);
        return false, counts;
      }
      LookupIsExact(byId, runs, c);
      if CountIn(counts, c.runId.value) + 1 >= TWO_64 {
        Overflows(counts, claims, k);
        return false, counts;
      }
      TallyNext(counts, claims[..k], c);
      counts := counts[c.runId.value := CountIn(counts, c.runId.value) + 1];
    }
    assert claims[..|claims|] == claims;
    TalliedIsCountable(counts, claims);
    ok := true;
  }

  lemma LookupIsExact(byId: map<string, Run>, runs: seq<Run>, c: Claim)
    requires Indexes(byId, runs) && c.valid && c.runId.Some? && c.runId.value in byId
    requires var run := byId[c.runId.value]; run.successful && c.producer == Plugin(run.plugin, run.version)
    ensures ClaimBacked(runs, c)
  {
    LookupFinds(byId, runs, c);
  }

  lemma NothingTallied()
    ensures Tallies(map[], [])
  {
  }

  /** Accept a session or not. */
  method Validate(base: seq<Claim>, runs: seq<Run>, claims: seq<Claim>) returns (ok: bool)
    ensures ok <==> Acceptable(base, runs, claims)
  {
    hide Indexes, Weigh, UniqueIds, ClaimBacked, Countable;
    var byId;
    ok, byId := IndexRuns(runs);
    if !ok { return; }
    var counts;
    ok, counts := TallyClaims(byId, runs, claims);
    if !ok {
      if Acceptable(base, runs, claims) { AcceptableIsCountable(base, runs, claims); }
      return;
    }
    var companions := set d | d in base + claims && CompanionKey(d).Some? :: CompanionKey(d).value;
    for k := 0 to |claims|
      invariant forall i :: 0 <= i < k ==> Accompanied(base, claims, claims[i])
    {
      var needed := NeededKey(claims[k]);
      if needed.Some? && needed.value !in companions {
        assert claims[k] in claims && !Accompanied(base, claims, claims[k]);
        return false;
      }
    }
    for k := 0 to |runs|
      invariant forall i :: 0 <= i < k ==> runs[i].accepted == Weigh(claims, OwnedBy(runs[i].id))
    {
      if runs[k].accepted != CountIn(counts, runs[k].id) { return false; }
    }
  }
}
