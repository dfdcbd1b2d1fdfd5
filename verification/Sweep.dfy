/** The worklist sweep over one runtime function. */
module Sweep {
  import opened Common
  import opened PeMap
  import opened RuntimeTargets
  import opened CodeTargets
  import opened Retention
  import opened CfgBlocks

  // ----- retained instructions -----

  type Lengths = map<nat, nat>

  datatype Location = Nowhere | AtStart | Interior

  predicate Covers(lengths: Lengths, start: nat, rva: nat) { start in lengths && start < rva < start + lengths[start] }

  /** The location of an address, by looking at every retained instruction. */
  ghost function FullSearch(lengths: Lengths, rva: nat): Location {
    if rva in lengths then AtStart
    else if exists start :: Covers(lengths, start, rva) then Interior
    else Nowhere
  }

  /** Retained instructions are one to fifteen bytes long and pairwise disjoint. */
  ghost predicate Apart(lengths: Lengths) {
    && (forall s :: s in lengths ==> 1 <= lengths[s] <= MAX_INSTRUCTION_BYTES)
    && (forall a, b :: a in lengths && b in lengths && a < b ==> a + lengths[a] <= b)
  }

  ghost predicate Within(lengths: Lengths, begin: nat, end: nat) {
    forall s :: s in lengths ==> begin <= s && s + lengths[s] <= end
  }

  datatype QueueResult = Queued | AlreadyKnown | LimitExceeded

  class Traversal {
    var pending: set<nat>
    var discovered: set<nat>
    var lengths: Lengths
    var recorder: Recorder

    constructor ()
      ensures pending == {} && discovered == {} && lengths == map[] && recorder == Recorder(map[], {})
    {
      pending, discovered, lengths, recorder := {}, {}, map[], Recorder(map[], {});
    }

    /** Looking back fourteen bytes finds what a search of all retained instructions finds. */
    method DecodedLocation(rva: nat) returns (location: Location)
      requires Apart(lengths)
      ensures location == FullSearch(lengths, rva)
    {
      if rva in lengths { return AtStart; }
      for delta := 1 to MAX_INSTRUCTION_BYTES
        invariant forall start: nat :: rva < start + delta ==> !Covers(lengths, start, rva)
      {
        if delta > rva { break; }
        if rva - delta in lengths && lengths[rva - delta] > delta {
          assert Covers(lengths, rva - delta, rva);
          return Interior;
        }
      }
      location := Nowhere;
    }

    /** Queue an address that is neither queued before nor decoded, within the start budget. */
    method Queue(rva: nat, acc: Accumulator, ghost begin: nat) returns (result: QueueResult)
      requires Apart(lengths) && (rva !in discovered ==> (begin, rva) !in acc.starts)
      requires BudgetsFit(acc.limits, acc.bytes, acc.instructions, acc.blockStarts, acc.work, acc.starts, acc.refused)
      modifies this`pending, this`discovered, acc`blockStarts, acc`starts, acc`refused
      ensures BudgetsFit(acc.limits, acc.bytes, acc.instructions, acc.blockStarts, acc.work, acc.starts, acc.refused)
      ensures result == if rva in old(discovered) || FullSearch(lengths, rva) != Nowhere then AlreadyKnown
                        else if old(acc.blockStarts) >= acc.limits.blockStarts then LimitExceeded
                        else Queued
      ensures discovered == if result.Queued? then old(discovered) + {rva} else old(discovered)
      ensures pending == if result.Queued? then old(pending) + {rva} else old(pending)
      ensures acc.blockStarts == if result.Queued? then old(acc.blockStarts) + 1 else old(acc.blockStarts)
      ensures acc.starts == if result.Queued? then old(acc.starts) + {(begin, rva)} else old(acc.starts)
      ensures acc.refused == if result.LimitExceeded? then Some((begin, rva)) else old(acc.refused)
    {
      hide WorkBytes;
      if rva in discovered { return AlreadyKnown; }
      var location := DecodedLocation(rva);
      if location != Nowhere { return AlreadyKnown; }
      var ok := acc.ConsumeBlockStart((begin, rva));
      if !ok { return LimitExceeded; }
      discovered, pending := discovered + {rva}, pending + {rva};
      result := Queued;
    }

    /** Retain an instruction unless it would run into one already retained. */
    method RetainInstruction(rva: nat, length: nat) returns (ok: bool)
      requires Apart(lengths) && 1 <= length <= MAX_INSTRUCTION_BYTES && FullSearch(lengths, rva) == Nowhere
      modifies this`lengths
      ensures ok <==> forall x :: rva < x < rva + length ==> x !in old(lengths)
      ensures lengths == if ok then old(lengths)[rva := length] else old(lengths)
      ensures Apart(lengths)
    {
      for interior := rva + 1 to rva + length
        invariant forall x :: rva < x < interior ==> x !in lengths
      {
        if interior in lengths { return false; }
      }
      RetainKeepsApart(lengths, rva, length);
      lengths := lengths[rva := length];
      ok := true;
    }
  }

  lemma RetainKeepsApart(lengths: Lengths, rva: nat, length: nat)
    requires Apart(lengths) && 1 <= length <= MAX_INSTRUCTION_BYTES && FullSearch(lengths, rva) == Nowhere
    requires forall x :: rva < x < rva + length ==> x !in lengths
    ensures Apart(lengths[rva := length])
    ensures forall a :: a in lengths ==> a + lengths[a] <= rva || rva + length <= a
  {
    forall a | a in lengths ensures a + lengths[a] <= rva || rva + length <= a {
      assert !Covers(lengths, a, rva);
    }
  }

  // ----- walks from the entry -----

  /** Control goes on to the following instruction. */
  predicate GoesOn(flow: Flow) { flow.Continue? || flow.Conditional? }

  /** Control can go from the recorded instruction at `a` to `b`: it falls through or branches there. */
  ghost predicate LeadsTo(s: Stream, a: nat, b: nat) {
    a in s && ((GoesOn(s[a].flow) && s[a].end == b) || TargetOf(s[a].flow) == Some(b))
  }

  ghost predicate IsWalk(s: Stream, path: seq<nat>) {
    path != [] && forall k :: 0 < k < |path| ==> LeadsTo(s, path[k - 1], path[k])
  }

  /** A walk over recorded instructions leads from the entry to `at`. */
  ghost predicate Anchored(s: Stream, begin: nat, at: nat) {
    exists path: seq<nat> :: IsWalk(s, path) && path[0] == begin && path[|path| - 1] == at
  }

  lemma EntryIsAnchored(s: Stream, begin: nat)
    ensures Anchored(s, begin, begin)
  {
    assert IsWalk(s, [begin]);
  }

  lemma StepIsAnchored(s: Stream, begin: nat, a: nat, b: nat)
    requires Anchored(s, begin, a) && LeadsTo(s, a, b)
    ensures Anchored(s, begin, b)
  {
    var path :| IsWalk(s, path) && path[0] == begin && path[|path| - 1] == a;
    assert IsWalk(s, path + [b]);
  }

  lemma StaysAnchored(s: Stream, at: nat, recorded: Recorded, begin: nat, x: nat)
    requires Anchored(s, begin, x) && at !in s
    ensures Anchored(s[at := recorded], begin, x)
  {
    var path :| IsWalk(s, path) && path[0] == begin && path[|path| - 1] == x;
    assert IsWalk(s[at := recorded], path);
  }

  /** Everything retained or discovered lies on a walk from the entry. */
  ghost predicate Grounded(lengths: Lengths, discovered: set<nat>, s: Stream, begin: nat) {
    forall x: nat {:trigger Anchored(s, begin, x)} :: x in lengths || x in discovered ==> Anchored(s, begin, x)
  }

  /** The sweep arrives at `at`: it continues from something recorded, on a walk from the entry. */
  ghost predicate Arrived(r: Recorder, begin: nat, at: nat) {
    Reached(r, begin, at) && Anchored(r.instructions, begin, at)
  }

  // ----- what the sweep keeps -----

  /** Retained, recorded and discovered addresses stay in the function and fit together: what is
      recorded is retained with the same extent, what is discovered is the entry or a target, and
      all of it is on a walk from the entry. */
  ghost predicate Coheres(
    lengths: Lengths, pending: set<nat>, discovered: set<nat>, r: Recorder, begin: nat, end: nat)
  {
    && Apart(lengths) && Within(lengths, begin, end)
    && pending <= discovered
    && Coherent(r, begin, end)
    && (forall s :: s in r.instructions ==> s in lengths && r.instructions[s].end == s + lengths[s])
    && (forall d :: d in discovered ==> begin <= d < end && (d == begin || d in r.branchTargets))
    && Grounded(lengths, discovered, r.instructions, begin)
  }

  lemma RetainCoheres(
    lengths: Lengths, pending: set<nat>, discovered: set<nat>, r: Recorder, begin: nat, end: nat, at: nat, length: nat)
    requires Coheres(lengths, pending, discovered, r, begin, end)
    requires FullSearch(lengths, at) == Nowhere && Apart(lengths[at := length]) && begin <= at && at + length <= end
    requires Anchored(r.instructions, begin, at)
    ensures Coheres(lengths[at := length], pending, discovered, r, begin, end)
  {
    hide Anchored;
  }

  lemma RecordedApart(lengths: Lengths, s: Stream, at: nat)
    requires Apart(lengths) && at in lengths && at !in s
    requires forall i :: i in s ==> i in lengths && s[i].end == i + lengths[i]
    ensures forall i :: i in s ==> s[i].end <= at || at + lengths[at] <= i
  {
  }

  lemma FirstIsEntry(r: Recorder, begin: nat, end: nat, at: nat)
    requires TargetsMatch(r, begin, end) && Reached(r, begin, at) && r.instructions.Keys == {}
    ensures at == begin
  {
  }

  lemma PopCoheres(
    lengths: Lengths, pending: set<nat>, discovered: set<nat>, r: Recorder, begin: nat, end: nat, start: nat)
    requires Coheres(lengths, pending, discovered, r, begin, end)
    ensures Coheres(lengths, pending - {start}, discovered, r, begin, end)
    ensures Apart(lengths) && (start in pending ==> start in discovered)
  {
  }

  lemma IsApart(lengths: Lengths, pending: set<nat>, discovered: set<nat>, r: Recorder, begin: nat, end: nat)
    requires Coheres(lengths, pending, discovered, r, begin, end)
    ensures Apart(lengths)
  {
  }

  lemma NowhereIsUnrecorded(
    lengths: Lengths, pending: set<nat>, discovered: set<nat>, r: Recorder, begin: nat, end: nat, at: nat)
    requires Coheres(lengths, pending, discovered, r, begin, end) && FullSearch(lengths, at) == Nowhere
    ensures at !in r.instructions
  {
  }

  lemma RecordCoheres(
    lengths: Lengths, pending: set<nat>, discovered: set<nat>, r: Recorder, begin: nat, end: nat, at: nat, after: nat,
    flow: Flow)
    requires Coheres(lengths, pending, discovered, r, begin, end)
    requires at in lengths && after == at + lengths[at] && at !in r.instructions && Reached(r, begin, at)
    ensures Coheres(lengths, pending, discovered, Record(r, begin, end, at, after, flow), begin, end)
  {
    hide Reached, Grounded, Apart, Coherent;
    RecordIsCoherent(lengths, r, begin, end, at, after, flow);
    StaysGrounded(lengths, discovered, r.instructions, begin, at, Recorded(after, flow));
  }

  lemma RecordIsCoherent(lengths: Lengths, r: Recorder, begin: nat, end: nat, at: nat, after: nat, flow: Flow)
    requires Apart(lengths) && Within(lengths, begin, end) && Coherent(r, begin, end)
    requires forall s :: s in r.instructions ==> s in lengths && r.instructions[s].end == s + lengths[s]
    requires at in lengths && after == at + lengths[at] && at !in r.instructions && Reached(r, begin, at)
    ensures Coherent(Record(r, begin, end, at, after, flow), begin, end)
  {
    hide Reached, TargetsMatch, Record;
    if r.instructions.Keys == {} { FirstIsEntry(r, begin, end, at); }
    RecordedApart(lengths, r.instructions, at);
    RecordKeepsCoherent(r, begin, end, at, after, flow);
  }

  lemma StaysGrounded(lengths: Lengths, discovered: set<nat>, s: Stream, begin: nat, at: nat, recorded: Recorded)
    requires Grounded(lengths, discovered, s, begin) && at !in s
    ensures Grounded(lengths, discovered, s[at := recorded], begin)
  {
    hide Anchored;
    forall x: nat | x in lengths || x in discovered ensures Anchored(s[at := recorded], begin, x) {
      StaysAnchored(s, at, recorded, begin, x);
    }
  }

  /** A call that satisfies its validator up to the presence of its slot reference. */
  ghost predicate CallFits(c: Context, functions: seq<RuntimeFunction>, call: Call) {
    && call.site + call.size < TWO_32
    && InBackedFunction(c, functions, call.caller, call.site, call.size)
    && LocalTarget(call.target) != Some(call.site + call.size)
    && TargetAccepted(c, call.target) && CallSizeAccepted(call)
  }

  /** Every retained record fits, no two share a site, and those of the function being swept sit
      on retained instructions. */
  ghost predicate CallsFit(
    c: Context, functions: seq<RuntimeFunction>, calls: set<Call>, begin: nat, lengths: Lengths)
  {
    && (forall x :: x in calls ==> CallFits(c, functions, x) && (x.caller == begin ==> x.site in lengths))
    && (forall x, y :: x in calls && y in calls && x.caller == y.caller && x.site == y.site ==> x == y)
  }

  ghost predicate ReferencesFit(
    c: Context, functions: seq<RuntimeFunction>, references: set<Reference>, begin: nat, lengths: Lengths)
  {
    && (forall x :: x in references ==> ReferenceAccepted(c, functions, x) && (x.caller == begin ==> x.site in lengths))
    && (forall x, y :: x in references && y in references && x.caller == y.caller && x.site == y.site ==> x == y)
  }

  /** One more retained instruction and at most one more record, at that instruction. */
  lemma CallsStillFit(
    c: Context, functions: seq<RuntimeFunction>, calls0: set<Call>, calls1: set<Call>, begin: nat, lengths: Lengths,
    at: nat, length: nat, call: Option<Call>)
    requires CallsFit(c, functions, calls0, begin, lengths) && at !in lengths
    requires call.Some? ==> call.value.caller == begin && call.value.site == at && CallFits(c, functions, call.value)
    requires calls1 == calls0 || (call.Some? && calls1 == calls0 + {call.value})
    ensures CallsFit(c, functions, calls1, begin, lengths[at := length])
  {
  }

  lemma ReferencesStillFit(
    c: Context, functions: seq<RuntimeFunction>, references0: set<Reference>, references1: set<Reference>, begin: nat,
    lengths: Lengths, at: nat, length: nat, r: Option<Reference>)
    requires ReferencesFit(c, functions, references0, begin, lengths) && at !in lengths
    requires r.Some? ==> r.value.caller == begin && r.value.site == at && ReferenceAccepted(c, functions, r.value)
    requires references1 == references0 || (r.Some? && references1 == references0 + {r.value})
    ensures ReferencesFit(c, functions, references1, begin, lengths[at := length])
  {
  }

  /** The function being swept: listed, and backed as a whole by one executable section. */
  ghost predicate Sweepable(c: Context, functions: seq<RuntimeFunction>, f: RuntimeFunction, bytes: seq<Byte>) {
    && f in functions && f.begin < f.end && |bytes| == f.end - f.begin
    && ModelExecutable(c.layout, f.begin, f.end - f.begin)
  }

  lemma PartIsExecutable(c: Context, f: RuntimeFunction, at: nat, size: nat)
    requires f.begin < f.end && ModelExecutable(c.layout, f.begin, f.end - f.begin)
    requires f.begin <= at && at + size <= f.end && size != 0
    ensures ModelExecutable(c.layout, at, size)
  {
    var s :| s in c.layout.sections && s.execute && InBacked(s, f.begin, f.end - f.begin);
    assert InBacked(s, at, size);
  }

  /** What one instruction yields fits. */
  lemma DecodedCallFits(
    c: Context, functions: seq<RuntimeFunction>, f: RuntimeFunction, at: U32, ip: U64, i: Instruction, raw: seq<Byte>)
    requires CodeTargets.Valid(c) && f in functions && f.begin < f.end
    requires ModelExecutable(c.layout, f.begin, f.end - f.begin)
    requires f.begin <= at && at + i.len <= f.end && |raw| == i.len && IsIp(c, at, ip)
    requires DecodeCallTarget(c, i, raw, ip).Some?
    ensures CallFits(c, functions, Call(f.begin, at, i.len, DecodeCallTarget(c, i, raw, ip).value))
  {
    hide DecodeCallTarget, TargetAccepted, ModelExecutable;
    CallTargetIsAccepted(c, i, raw, at, ip);
    assert InBackedFunction(c, functions, f.begin, at, i.len);
  }

  lemma DecodedReferenceFits(
    c: Context, functions: seq<RuntimeFunction>, f: RuntimeFunction, at: U32, i: Instruction, raw: seq<Byte>)
    requires CodeTargets.Valid(c) && f in functions && f.begin < f.end
    requires ModelExecutable(c.layout, f.begin, f.end - f.begin)
    requires f.begin <= at && at + i.len <= f.end && 1 <= i.len <= MAX_INSTRUCTION_BYTES
    requires DecodeReference(c, f.begin, at, i, raw).Some?
    ensures ReferenceAccepted(c, functions, DecodeReference(c, f.begin, at, i, raw).value)
  {
    ReferenceTargetIsAccepted(c, f.begin, at, i, raw);
    PartIsExecutable(c, f, at, i.len);
  }

  // ----- what the sweep explores -----

  /** The instruction the decoder reads at an address of the function. */
  function DecodedAt(c: Context, f: RuntimeFunction, bytes: seq<Byte>, at: nat): Instruction {
    if f.begin <= at <= f.begin + |bytes|
    then c.decode(bytes[at - f.begin..], IpAt(c, at)) else c.decode([], IpAt(c, at))
  }

  function BytesAt(f: RuntimeFunction, bytes: seq<Byte>, at: nat, length: nat): seq<Byte> {
    if f.begin <= at && at + length - f.begin <= |bytes| then bytes[at - f.begin..at + length - f.begin] else []
  }

  function FlowOf(c: Context, action: Action): Flow {
    match action
    case Proceed => Continue
    case ConditionalTo(va) => Conditional(VaToRva(c, va))
    case UnconditionalTo(va) => Unconditional(VaToRva(c, va))
    case Stop(StopReturn) => Return
    case Stop(StopIndirect) => Indirect
    case Stop(StopTerminal) => Terminal
  }

  ghost predicate RunsInto(lengths: Lengths, at: nat, length: nat) { exists x :: at < x < at + length && x in lengths }

  /** There is nothing more to decode at an address: it is outside, already decoded, inside a
      decoded instruction, undecodable, or its instruction would overlap a retained one. */
  ghost predicate Settled(c: Context, f: RuntimeFunction, bytes: seq<Byte>, lengths: Lengths, at: nat) {
    || at >= f.end
    || FullSearch(lengths, at) != Nowhere
    || DecodedAt(c, f, bytes, at).len == 0
    || RunsInto(lengths, at, DecodedAt(c, f, bytes, at).len)
  }

  /** Decoding cannot start at an address that has no 64-bit pointer. */
  predicate HasPointer(c: Context, at: nat) { c.imageBase + at < TWO_64 }

  function Opened(c: Context, start: nat): set<nat> { if HasPointer(c, start) then {start} else {} }

  /** The entry, everything discovered, every continuation and every executable in-range target is settled,
      still pending, or the one address being worked on; a target is left out only when the scan was
      cut short. */
  ghost predicate Explored(
    c: Context, f: RuntimeFunction, bytes: seq<Byte>, lengths: Lengths, r: Recorder,
    discovered: set<nat>, pending: set<nat>, truncated: bool, open: set<nat>)
  {
    && (truncated || f.begin in discovered || Settled(c, f, bytes, lengths, f.begin))
    && (forall d :: d in discovered && HasPointer(c, d) ==>
          d in pending || d in open || Settled(c, f, bytes, lengths, d))
    && (forall t: nat :: t in r.branchTargets && BackedExecutable(c.layout, t, 1) ==>
          t in discovered || FullSearch(lengths, t) != Nowhere || truncated)
    && (forall i :: i in r.instructions && GoesOn(r.instructions[i].flow) ==>
          r.instructions[i].end in open || Settled(c, f, bytes, lengths, r.instructions[i].end))
  }

  lemma GrowthKeepsLocation(lengths: Lengths, at: nat, length: nat, x: nat)
    requires at !in lengths && FullSearch(lengths, x) != Nowhere
    ensures FullSearch(lengths[at := length], x) != Nowhere
  {
    if x !in lengths {
      var start :| Covers(lengths, start, x);
      assert Covers(lengths[at := length], start, x);
    }
  }

  lemma GrowthKeepsSettled(
    c: Context, f: RuntimeFunction, bytes: seq<Byte>, lengths: Lengths, at: nat, length: nat, x: nat)
    requires at !in lengths && Settled(c, f, bytes, lengths, x)
    ensures Settled(c, f, bytes, lengths[at := length], x)
  {
    if FullSearch(lengths, x) != Nowhere { GrowthKeepsLocation(lengths, at, length, x); }
    if RunsInto(lengths, x, DecodedAt(c, f, bytes, x).len) {
      var y :| x < y < x + DecodedAt(c, f, bytes, x).len && y in lengths;
      assert y in lengths[at := length];
    }
  }

  /** Retaining the instruction at the open address settles it and unsettles nothing. */
  lemma RetainExplores(
    c: Context, f: RuntimeFunction, bytes: seq<Byte>, lengths: Lengths, r: Recorder,
    discovered: set<nat>, pending: set<nat>, truncated: bool, at: nat, length: nat)
    requires Explored(c, f, bytes, lengths, r, discovered, pending, truncated, {at}) && at !in lengths
    ensures Explored(c, f, bytes, lengths[at := length], r, discovered, pending, truncated, {})
  {
    var after := lengths[at := length];
    forall x: nat | x == at || Settled(c, f, bytes, lengths, x) ensures Settled(c, f, bytes, after, x) {
      if x != at { GrowthKeepsSettled(c, f, bytes, lengths, at, length, x); }
    }
    forall x: nat | FullSearch(lengths, x) != Nowhere ensures FullSearch(after, x) != Nowhere {
      GrowthKeepsLocation(lengths, at, length, x);
    }
  }

  /** An address that turns out settled need not stay open. */
  lemma SettleExplores(
    c: Context, f: RuntimeFunction, bytes: seq<Byte>, lengths: Lengths, r: Recorder,
    discovered: set<nat>, pending: set<nat>, truncated: bool, at: nat)
    requires Explored(c, f, bytes, lengths, r, discovered, pending, truncated, {at})
    requires Settled(c, f, bytes, lengths, at)
    ensures Explored(c, f, bytes, lengths, r, discovered, pending, truncated, {})
  {
  }

  /** Taking a start off the queue opens it, if it can be decoded from. */
  lemma PopExplores(
    c: Context, f: RuntimeFunction, bytes: seq<Byte>, lengths: Lengths, r: Recorder,
    discovered: set<nat>, pending: set<nat>, truncated: bool, start: nat)
    requires Explored(c, f, bytes, lengths, r, discovered, pending, truncated, {})
    ensures Explored(c, f, bytes, lengths, r, discovered, pending - {start}, truncated, Opened(c, start))
  {
  }

  /** Recording an instruction opens its continuation, if it has one. */
  lemma FollowExplores(
    c: Context, f: RuntimeFunction, bytes: seq<Byte>, lengths: Lengths, r: Recorder, at: nat, after: nat, flow: Flow,
    discovered0: set<nat>, pending0: set<nat>, truncated0: bool, discovered1: set<nat>, pending1: set<nat>,
    truncated1: bool)
    requires Explored(c, f, bytes, lengths, r, discovered0, pending0, truncated0, {})
    requires Discovered(f, TargetOf(flow), discovered0, discovered1, pending0, pending1) && (truncated0 ==> truncated1)
    requires TargetKnown(c, f, lengths, TargetOf(flow), discovered1, truncated1)
    ensures Explored(c, f, bytes, lengths, Record(r, f.begin, f.end, at, after, flow),
                     discovered1, pending1, truncated1, if GoesOn(flow) then {after} else {})
  {
  }

  /** What is retained is what the decoder reads, starting from an entry that has a pointer, and
      exactly the valid instructions are recorded. */
  ghost predicate Faithful(c: Context, f: RuntimeFunction, bytes: seq<Byte>, lengths: Lengths, r: Recorder) {
    && (lengths != map[] ==> HasPointer(c, f.begin))
    && (forall i :: i in r.instructions ==> i in lengths)
    && (forall i :: i in lengths ==>
          var d := DecodedAt(c, f, bytes, i);
          && lengths[i] == d.len
          && (i in r.instructions <==> !d.invalid)
          && (i in r.instructions ==> r.instructions[i] == Recorded(i + d.len, FlowOf(c, d.action))))
  }

  lemma StaysFaithful(
    c: Context, f: RuntimeFunction, bytes: seq<Byte>, lengths: Lengths, r: Recorder, at: nat, after: nat)
    requires Faithful(c, f, bytes, lengths, r) && at !in lengths && after == at + DecodedAt(c, f, bytes, at).len
    requires HasPointer(c, f.begin)
    ensures var d := DecodedAt(c, f, bytes, at);
            Faithful(c, f, bytes, lengths[at := d.len],
                     if d.invalid then r else Record(r, f.begin, f.end, at, after, FlowOf(c, d.action)))
  {
  }

  /** Nothing was discovered, or the in-range target was, once. */
  ghost predicate Discovered(
    f: RuntimeFunction, target: Option<nat>, before: set<nat>, after: set<nat>, pending0: set<nat>, pending1: set<nat>)
  {
    || (after == before && pending1 == pending0)
    || (target.Some? && f.begin <= target.value < f.end && target.value !in before
        && after == before + {target.value} && pending1 == pending0 + {target.value})
  }

  /** An in-range executable target is discovered or decoded, unless the scan was cut short. */
  ghost predicate TargetKnown(
    c: Context, f: RuntimeFunction, lengths: Lengths, target: Option<nat>, discovered: set<nat>, truncated: bool)
  {
    target.Some? && f.begin <= target.value < f.end && BackedExecutable(c.layout, target.value, 1) ==>
      target.value in discovered || FullSearch(lengths, target.value) != Nowhere || truncated
  }

  function CallOf(c: Context, f: RuntimeFunction, at: U32, ip: U64, i: Instruction, raw: seq<Byte>): Option<Call> {
    var target := DecodeCallTarget(c, i, raw, ip);
    if target.Some? then Some(Call(f.begin, at, i.len, target.value)) else None
  }

  /** The call and the data reference that the instruction at an address stands for. */
  function CallAt(c: Context, f: RuntimeFunction, bytes: seq<Byte>, at: nat): Option<Call> {
    var i := DecodedAt(c, f, bytes, at);
    if i.invalid || at >= TWO_32 then None else CallOf(c, f, at, IpAt(c, at), i, BytesAt(f, bytes, at, i.len))
  }

  function ReferenceAt(c: Context, f: RuntimeFunction, bytes: seq<Byte>, at: nat): Option<Reference> {
    var i := DecodedAt(c, f, bytes, at);
    if i.invalid || at >= TWO_32 then None else DecodeReference(c, f.begin, at, i, BytesAt(f, bytes, at, i.len))
  }

  /** The relationships of the retained instructions are all retained or dropped, and those
      retained or dropped for this function are theirs and no others. */
  ghost predicate CallsAccounted(
    c: Context, f: RuntimeFunction, bytes: seq<Byte>, lengths: Lengths, calls: set<Call>, dropped: set<Call>)
  {
    && (forall i :: i in lengths && CallAt(c, f, bytes, i).Some? ==>
          CallAt(c, f, bytes, i).value in calls || CallAt(c, f, bytes, i).value in dropped)
    && (forall x :: x in calls && x.caller == f.begin ==> x.site in lengths && CallAt(c, f, bytes, x.site) == Some(x))
    && (forall x :: x in dropped && x.caller == f.begin ==>
          x.site in lengths && CallAt(c, f, bytes, x.site) == Some(x) && x !in calls)
  }

  ghost predicate ReferencesAccounted(
    c: Context, f: RuntimeFunction, bytes: seq<Byte>, lengths: Lengths, references: set<Reference>,
    dropped: set<Reference>)
  {
    && (forall i :: i in lengths && ReferenceAt(c, f, bytes, i).Some? ==>
          ReferenceAt(c, f, bytes, i).value in references || ReferenceAt(c, f, bytes, i).value in dropped)
    && (forall x :: x in references && x.caller == f.begin ==>
          x.site in lengths && ReferenceAt(c, f, bytes, x.site) == Some(x))
    && (forall x :: x in dropped && x.caller == f.begin ==>
          x.site in lengths && ReferenceAt(c, f, bytes, x.site) == Some(x) && x !in references)
  }

  /** Calls dropped without their slot reference are pointer calls that were not decoded with it. */
  ghost predicate AloneFit(c: Context, f: RuntimeFunction, bytes: seq<Byte>, unpaired: set<Call>) {
    forall x :: x in unpaired && x.caller == f.begin ==>
      CallAt(c, f, bytes, x.site) == Some(x) && StandsAlone(Some(x), ReferenceAt(c, f, bytes, x.site))
  }

  lemma CallsStayAccounted(
    c: Context, f: RuntimeFunction, bytes: seq<Byte>, lengths: Lengths, at: nat, length: nat, call: Option<Call>,
    alone: bool, kept: bool, calls0: set<Call>, calls1: set<Call>, dropped0: set<Call>, dropped1: set<Call>,
    unpaired0: set<Call>, unpaired1: set<Call>)
    requires CallsAccounted(c, f, bytes, lengths, calls0, dropped0) && at !in lengths && call == CallAt(c, f, bytes, at)
    requires call.Some? ==> call.value.site == at
    requires CallHandled(call, alone, kept, calls0, calls1, dropped0, dropped1, unpaired0, unpaired1)
    ensures CallsAccounted(c, f, bytes, lengths[at := length], calls1, dropped1)
  {
  }

  lemma ReferencesStayAccounted(
    c: Context, f: RuntimeFunction, bytes: seq<Byte>, lengths: Lengths, at: nat, length: nat, r: Option<Reference>,
    kept: bool,
    references0: set<Reference>, references1: set<Reference>, dropped0: set<Reference>, dropped1: set<Reference>)
    requires ReferencesAccounted(c, f, bytes, lengths, references0, dropped0) && at !in lengths
    requires r == ReferenceAt(c, f, bytes, at) && (r.Some? ==> r.value.site == at)
    requires ReferenceHandled(r, kept, references0, references1, dropped0, dropped1)
    ensures ReferencesAccounted(c, f, bytes, lengths[at := length], references1, dropped1)
  {
  }

  ghost predicate Accounted(c: Context, f: RuntimeFunction, bytes: seq<Byte>, lengths: Lengths, acc: Accumulator)
    reads acc`calls, acc`droppedCalls, acc`references, acc`droppedReferences, acc`unpaired
  {
    && CallsAccounted(c, f, bytes, lengths, acc.calls, acc.droppedCalls)
    && ReferencesAccounted(c, f, bytes, lengths, acc.references, acc.droppedReferences)
    && AloneFit(c, f, bytes, acc.unpaired)
  }

  // ----- what the budgets were used for -----

  predicate IsFor(task: Task, begin: nat) { !task.Candidate? && task.caller == begin }

  /** A decode the sweep of `f` has reason for: at a discovered start, or after a recorded
      instruction that goes on. */
  ghost predicate TaskFits(
    c: Context, f: RuntimeFunction, bytes: seq<Byte>, discovered: set<nat>, s: Stream, task: Task, size: nat)
  {
    && size > 0 && IsFor(task, f.begin)
    && match task
       case FirstOf(_, at) => at in discovered && size == DecodedAt(c, f, bytes, at).len
       case NextOf(_, previous) =>
         && previous in s && GoesOn(s[previous].flow) && s[previous].end < f.end
         && size == DecodedAt(c, f, bytes, s[previous].end).len
       case Candidate(_) => false
  }

  /** The decodes charged to `f` are such tasks, and no queued start has been decoded. */
  ghost predicate WorkFits(
    c: Context, f: RuntimeFunction, bytes: seq<Byte>, discovered: set<nat>, pending: set<nat>, s: Stream, work: Work)
  {
    forall k :: k in work && IsFor(k, f.begin) ==>
      TaskFits(c, f, bytes, discovered, s, k, work[k]) && (k.FirstOf? ==> k.at !in pending)
  }

  /** The starts charged to `f` are the discovered ones; one refused is the entry or a target. */
  ghost predicate StartsFit(
    f: RuntimeFunction, discovered: set<nat>, r: Recorder, starts: set<(nat, nat)>, refused: Option<(nat, nat)>)
  {
    && (forall d: nat :: (f.begin as nat, d) in starts <==> d in discovered)
    && (refused.Some? && refused.value.0 == f.begin ==>
          refused.value.1 == f.begin || refused.value.1 in r.branchTargets)
  }

  ghost predicate LedgerFits(c: Context, f: RuntimeFunction, bytes: seq<Byte>, t: Traversal, acc: Accumulator)
    reads t`discovered, t`pending, t`recorder, acc`work, acc`starts, acc`refused
  {
    && WorkFits(c, f, bytes, t.discovered, t.pending, t.recorder.instructions, acc.work)
    && StartsFit(f, t.discovered, t.recorder, acc.starts, acc.refused)
  }

  /** The task of decoding at `at` is still to be done: `at` is a start just taken off the queue,
      or follows a recorded instruction. */
  ghost predicate Awaits(
    f: RuntimeFunction, discovered: set<nat>, pending: set<nat>, s: Stream, work: Work, task: Task, at: nat)
  {
    && task !in work && IsFor(task, f.begin)
    && match task
       case FirstOf(_, start) => start == at && at in discovered && at !in pending
       case NextOf(_, previous) => previous in s && GoesOn(s[previous].flow) && s[previous].end == at
       case Candidate(_) => false
  }

  /** Some task of `f` is still to be done and does not fit the decode budget. */
  ghost predicate OutOfDecodes(c: Context, f: RuntimeFunction, bytes: seq<Byte>, t: Traversal, acc: Accumulator)
    reads t`discovered, t`recorder, acc`work
  {
    exists task, size ::
      && TaskFits(c, f, bytes, t.discovered, t.recorder.instructions, task, size)
      && task !in acc.work && Overspends(acc.work, acc.limits, size)
  }

  lemma AwaitedFits(
    c: Context, f: RuntimeFunction, bytes: seq<Byte>, discovered: set<nat>, pending: set<nat>, s: Stream, work: Work,
    task: Task, at: nat)
    requires Awaits(f, discovered, pending, s, work, task, at) && at < f.end && DecodedAt(c, f, bytes, at).len > 0
    ensures TaskFits(c, f, bytes, discovered, s, task, DecodedAt(c, f, bytes, at).len)
    ensures WorkFits(c, f, bytes, discovered, pending, s, work) ==>
              WorkFits(c, f, bytes, discovered, pending, s, work[task := DecodedAt(c, f, bytes, at).len])
  {
    hide DecodedAt;
  }

  /** A start off the queue awaits its first decode. */
  lemma PopAwaits(
    c: Context, f: RuntimeFunction, bytes: seq<Byte>, discovered: set<nat>, pending: set<nat>, s: Stream, work: Work,
    start: nat)
    requires WorkFits(c, f, bytes, discovered, pending, s, work) && start in pending && start in discovered
    ensures WorkFits(c, f, bytes, discovered, pending - {start}, s, work)
    ensures Awaits(f, discovered, pending - {start}, s, work, FirstOf(f.begin, start), start)
  {
    hide DecodedAt;
  }

  /** Recording an instruction keeps the ledger, and its continuation awaits a decode. */
  lemma FollowWork(
    c: Context, f: RuntimeFunction, bytes: seq<Byte>, r: Recorder, at: nat, after: nat, flow: Flow, work: Work,
    discovered0: set<nat>, pending0: set<nat>, discovered1: set<nat>, pending1: set<nat>)
    requires WorkFits(c, f, bytes, discovered0, pending0, r.instructions, work) && at !in r.instructions
    requires Discovered(f, TargetOf(flow), discovered0, discovered1, pending0, pending1)
    ensures var s := Record(r, f.begin, f.end, at, after, flow).instructions;
            && WorkFits(c, f, bytes, discovered1, pending1, s, work)
            && (GoesOn(flow) ==> Awaits(f, discovered1, pending1, s, work, NextOf(f.begin, at), after))
  {
    hide DecodedAt;
  }

  lemma RecordKeepsStarts(
    f: RuntimeFunction, discovered: set<nat>, r: Recorder, starts: set<(nat, nat)>, refused: Option<(nat, nat)>,
    at: nat, after: nat, flow: Flow)
    requires StartsFit(f, discovered, r, starts, refused)
    ensures StartsFit(f, discovered, Record(r, f.begin, f.end, at, after, flow), starts, refused)
  {
  }

  /** Starts were charged as they were discovered, and one refused is the target. */
  ghost predicate Charged(
    f: RuntimeFunction, target: Option<nat>, before: set<nat>, after: set<nat>, starts0: set<(nat, nat)>,
    starts1: set<(nat, nat)>, refused0: Option<(nat, nat)>, refused1: Option<(nat, nat)>)
  {
    && (|| (after == before && starts1 == starts0)
        || (target.Some? && after == before + {target.value} && starts1 == starts0 + {(f.begin as nat, target.value)}))
    && (|| refused1 == refused0
        || (target.Some? && f.begin <= target.value < f.end && refused1 == Some((f.begin as nat, target.value))))
  }

  lemma FollowStarts(
    f: RuntimeFunction, r: Recorder, at: nat, after: nat, flow: Flow, discovered0: set<nat>, discovered1: set<nat>,
    starts0: set<(nat, nat)>, starts1: set<(nat, nat)>, refused0: Option<(nat, nat)>, refused1: Option<(nat, nat)>)
    requires StartsFit(f, discovered0, r, starts0, refused0)
    requires Charged(f, TargetOf(flow), discovered0, discovered1, starts0, starts1, refused0, refused1)
    ensures StartsFit(f, discovered1, Record(r, f.begin, f.end, at, after, flow), starts1, refused1)
  {
  }

  // ----- the sweep -----

  datatype Step = GoOn(next: nat) | StopBlock | Exhausted

  /** Everything the sweep of `f` keeps true between instructions. */
  ghost predicate Sweeping(
    c: Context, functions: seq<RuntimeFunction>, f: RuntimeFunction, t: Traversal, acc: Accumulator)
    reads t, acc
  {
    && CodeTargets.Valid(c) && acc.Valid() && TraversalCoheres(t, f.begin, f.end)
    && RecordsFit(c, functions, acc.calls, acc.references, f.begin, t.lengths)
  }

  /** Queue an address for the function that begins at `begin`; a refusal marks everything truncated. */
  method Offer(t: Traversal, acc: Accumulator, rva: nat, ghost begin: nat) returns (result: QueueResult)
    requires Apart(t.lengths) && acc.Valid() && (rva !in t.discovered ==> (begin, rva) !in acc.starts)
    modifies t`pending, t`discovered, acc`blockStarts, acc`starts, acc`refused, acc`scanTruncated, acc`dataTruncated
    ensures acc.Valid()
    ensures result.AlreadyKnown? <==> rva in old(t.discovered) || FullSearch(t.lengths, rva) != Nowhere
    ensures t.discovered == if result.Queued? then old(t.discovered) + {rva} else old(t.discovered)
    ensures t.pending == if result.Queued? then old(t.pending) + {rva} else old(t.pending)
    ensures acc.blockStarts == if result.Queued? then old(acc.blockStarts) + 1 else old(acc.blockStarts)
    ensures acc.starts == if result.Queued? then old(acc.starts) + {(begin, rva)} else old(acc.starts)
    ensures acc.refused == if result.LimitExceeded? then Some((begin, rva)) else old(acc.refused)
    ensures acc.scanTruncated == (old(acc.scanTruncated) || result.LimitExceeded?)
    ensures GrewFor(old(KeptBy(acc)), KeptBy(acc), begin)
  {
    hide BudgetsFit, FullSearch, GrewFor;
    result := t.Queue(rva, acc, begin);
    if result.LimitExceeded? { acc.scanTruncated, acc.dataTruncated := true, true; }
    OfferGrew(old(KeptBy(acc)), KeptBy(acc), begin, rva);
  }

  lemma OfferGrew(a: Kept, b: Kept, begin: nat, rva: nat)
    requires b == a.(starts := b.starts, refused := b.refused, scanTruncated := b.scanTruncated,
                     dataTruncated := b.dataTruncated)
    requires b.starts == a.starts || b.starts == a.starts + {(begin, rva)}
    requires b.refused == a.refused || b.refused == Some((begin, rva))
    requires (a.scanTruncated ==> b.scanTruncated) && (a.dataTruncated ==> b.dataTruncated)
    ensures GrewFor(a, b, begin)
  {
  }

  /** Queue a branch target that lies in the function and in backed executable bytes. */
  method QueueTarget(c: Context, f: RuntimeFunction, t: Traversal, acc: Accumulator, target: Option<nat>)
    requires Apart(t.lengths) && acc.Valid() && StartsFit(f, t.discovered, t.recorder, acc.starts, acc.refused)
    modifies t`pending, t`discovered, acc`blockStarts, acc`starts, acc`refused, acc`scanTruncated, acc`dataTruncated
    ensures acc.Valid()
    ensures Charged(f, target, old(t.discovered), t.discovered, old(acc.starts), acc.starts,
                    old(acc.refused), acc.refused)
    ensures Discovered(f, target, old(t.discovered), t.discovered, old(t.pending), t.pending)
    ensures TargetKnown(c, f, t.lengths, target, t.discovered, acc.scanTruncated)
    ensures acc.blockStarts == old(acc.blockStarts) + if t.discovered == old(t.discovered) then 0 else 1
    ensures GrewFor(old(KeptBy(acc)), KeptBy(acc), f.begin)
  {
    hide Accumulator.Valid, FullSearch, GrewFor, BackedExecutable;
    NothingGrewFor(KeptBy(acc), f.begin);
    if target.Some? && f.begin <= target.value < f.end && BackedExecutable(c.layout, target.value, 1) {
      var result := Offer(t, acc, target.value, f.begin);
      assert result.Queued? ==> target.value in t.discovered;
    }
  }

  lemma DiscoverCoheres(
    f: RuntimeFunction, lengths: Lengths, r: Recorder, target: Option<nat>,
    before: set<nat>, after: set<nat>, pending0: set<nat>, pending1: set<nat>)
    requires Coheres(lengths, pending0, before, r, f.begin, f.end)
    requires Discovered(f, target, before, after, pending0, pending1)
    requires target.Some? && f.begin <= target.value < f.end ==>
               target.value in r.branchTargets && Anchored(r.instructions, f.begin, target.value)
    ensures Coheres(lengths, pending1, after, r, f.begin, f.end)
    ensures after == before ==> pending1 == pending0
    ensures after != before ==> |after| == |before| + 1
  {
    hide Anchored, Apart, Within, Coherent;
  }

  /** Recording an instruction arrives at its continuation and at its target. */
  lemma RecordedIsReached(r: Recorder, begin: nat, end: nat, at: nat, after: nat, flow: Flow)
    requires Anchored(r.instructions, begin, at) && at !in r.instructions
    ensures var r1 := Record(r, begin, end, at, after, flow);
            && (GoesOn(flow) ==> Arrived(r1, begin, after))
            && (TargetOf(flow).Some? && begin <= TargetOf(flow).value < end ==>
                  TargetOf(flow).value in r1.branchTargets && Anchored(r1.instructions, begin, TargetOf(flow).value))
  {
    hide Anchored;
    var r1 := Record(r, begin, end, at, after, flow);
    assert at in r1.instructions && r1.instructions[at].end == after;
    StaysAnchored(r.instructions, at, Recorded(after, flow), begin, at);
    if GoesOn(flow) { StepIsAnchored(r1.instructions, begin, at, after); }
    if TargetOf(flow).Some? { StepIsAnchored(r1.instructions, begin, at, TargetOf(flow).value); }
  }

  ghost predicate TraversalCoheres(t: Traversal, begin: nat, end: nat)
    reads t
  {
    Coheres(t.lengths, t.pending, t.discovered, t.recorder, begin, end)
  }

  /** Record a retained instruction and queue its branch target. */
  method Follow(
    c: Context, f: RuntimeFunction, t: Traversal, acc: Accumulator, at: nat, after: nat, flow: Flow)
    returns (step: Step)
    requires acc.Valid() && TraversalCoheres(t, f.begin, f.end)
    requires StartsFit(f, t.discovered, t.recorder, acc.starts, acc.refused)
    requires at in t.lengths && after == at + t.lengths[at] && at !in t.recorder.instructions
    requires Arrived(t.recorder, f.begin, at)
    modifies t`recorder, t`pending, t`discovered, acc`blockStarts, acc`starts, acc`refused, acc`scanTruncated,
             acc`dataTruncated
    ensures acc.Valid() && TraversalCoheres(t, f.begin, f.end)
    ensures StartsFit(f, t.discovered, t.recorder, acc.starts, acc.refused)
    ensures Advanced(old(acc.blockStarts), acc.blockStarts, old(t.pending), t.pending)
    ensures t.recorder == Record(old(t.recorder), f.begin, f.end, at, after, flow)
    ensures Discovered(f, TargetOf(flow), old(t.discovered), t.discovered, old(t.pending), t.pending)
    ensures TargetKnown(c, f, t.lengths, TargetOf(flow), t.discovered, acc.scanTruncated)
    ensures GrewFor(old(KeptBy(acc)), KeptBy(acc), f.begin)
    ensures step == if GoesOn(flow) then GoOn(after) else StopBlock
    ensures step.GoOn? ==> Arrived(t.recorder, f.begin, after)
  {
    hide Reached, Anchored, TargetKnown, Discovered, GrewFor, Coheres, Record, Apart, StartsFit, Charged,
      Accumulator.Valid;
    IsApart(t.lengths, t.pending, t.discovered, t.recorder, f.begin, f.end);
    RecordCoheres(t.lengths, t.pending, t.discovered, t.recorder, f.begin, f.end, at, after, flow);
    RecordedIsReached(t.recorder, f.begin, f.end, at, after, flow);
    RecordKeepsStarts(f, t.discovered, t.recorder, acc.starts, acc.refused, at, after, flow);
    t.recorder := Record(t.recorder, f.begin, f.end, at, after, flow);
    QueueTarget(c, f, t, acc, TargetOf(flow));
    DiscoverCoheres(f, t.lengths, t.recorder, TargetOf(flow), old(t.discovered), t.discovered,
                    old(t.pending), t.pending);
    FollowStarts(f, old(t.recorder), at, after, flow, old(t.discovered), t.discovered, old(acc.starts), acc.starts,
                 old(acc.refused), acc.refused);
    step := if GoesOn(flow) then GoOn(after) else StopBlock;
  }

  /** A start was queued, or nothing changed in the queue. */
  ghost predicate Advanced(starts0: nat, starts1: nat, pending0: set<nat>, pending1: set<nat>) {
    starts1 > starts0 || (starts1 == starts0 && pending1 == pending0)
  }

  ghost predicate RecordsFit(
    c: Context, functions: seq<RuntimeFunction>, calls: set<Call>, references: set<Reference>, begin: nat,
    lengths: Lengths)
  {
    CallsFit(c, functions, calls, begin, lengths) && ReferencesFit(c, functions, references, begin, lengths)
  }

  /** Retain the relationships of the instruction just retained at `at`. */
  method RetainFound(
    c: Context, ghost functions: seq<RuntimeFunction>, f: RuntimeFunction, bytes: seq<Byte>, acc: Accumulator, at: U32,
    ip: U64, i: Instruction, raw: seq<Byte>, ghost lengths: Lengths)
    requires CodeTargets.Valid(c) && acc.Valid() && Sweepable(c, functions, f, bytes)
    requires Reads(c, f, bytes, at, ip, i, raw) && 1 <= i.len && !i.invalid
    requires at !in lengths && RecordsFit(c, functions, acc.calls, acc.references, f.begin, lengths)
    requires Accounted(c, f, bytes, lengths, acc)
    modifies acc`calls, acc`references, acc`droppedCalls, acc`droppedReferences, acc`unpaired,
             acc`scanTruncated, acc`dataTruncated
    ensures acc.Valid() && RecordsFit(c, functions, acc.calls, acc.references, f.begin, lengths[at := i.len])
    ensures Accounted(c, f, bytes, lengths[at := i.len], acc)
    ensures GrewFor(old(KeptBy(acc)), KeptBy(acc), f.begin)
  {
    hide RecordsFit, CallsAccounted, ReferencesAccounted, AloneFit, CallFits, ReferenceAccepted, GrewFor,
      DecodeReference, CallOf, CallAt, ReferenceAt, CallHandled, ReferenceHandled, Sweepable, Reads,
      CodeTargets.Valid, Accumulator.Valid;
    FoundFits(c, functions, f, bytes, at, ip, i, raw);
    var reference, call := DecodeReference(c, f.begin, at, i, raw), CallOf(c, f, at, ip, i, raw);
    ghost var before := KeptBy(acc);
    assert CallsAccounted(c, f, bytes, lengths, before.calls, before.droppedCalls);
    assert ReferencesAccounted(c, f, bytes, lengths, before.references, before.droppedReferences);
    var keptCall, keptReference := acc.RetainRelationships(call, reference);
    RetainedStep(c, functions, f, bytes, lengths, at, i.len, call, reference, keptCall, keptReference,
                 before, KeptBy(acc));
  }

  /** The instruction's call and reference were each retained or dropped, and nothing else changed. */
  ghost predicate Retains(
    a: Kept, b: Kept, call: Option<Call>, reference: Option<Reference>, keptCall: bool, keptReference: bool)
  {
    && CallHandled(call, StandsAlone(call, reference), keptCall, a.calls, b.calls, a.droppedCalls, b.droppedCalls,
                   a.unpaired, b.unpaired)
    && ReferenceHandled(reference, keptReference, a.references, b.references, a.droppedReferences, b.droppedReferences)
    && b.work == a.work && b.starts == a.starts && b.refused == a.refused && b.spent == a.spent
    && (a.scanTruncated ==> b.scanTruncated) && (a.dataTruncated ==> b.dataTruncated)
  }

  lemma RetainedStep(
    c: Context, functions: seq<RuntimeFunction>, f: RuntimeFunction, bytes: seq<Byte>, lengths: Lengths, at: nat,
    length: nat, call: Option<Call>, reference: Option<Reference>, keptCall: bool, keptReference: bool,
    a: Kept, b: Kept)
    requires Retains(a, b, call, reference, keptCall, keptReference) && at !in lengths
    requires call == CallAt(c, f, bytes, at) && reference == ReferenceAt(c, f, bytes, at)
    requires call.Some? ==> call.value.caller == f.begin && call.value.site == at && CallFits(c, functions, call.value)
    requires reference.Some? ==>
               && reference.value.caller == f.begin && reference.value.site == at
               && ReferenceAccepted(c, functions, reference.value)
    requires RecordsFit(c, functions, a.calls, a.references, f.begin, lengths)
    requires CallsAccounted(c, f, bytes, lengths, a.calls, a.droppedCalls)
    requires ReferencesAccounted(c, f, bytes, lengths, a.references, a.droppedReferences)
    requires AloneFit(c, f, bytes, a.unpaired)
    ensures RecordsFit(c, functions, b.calls, b.references, f.begin, lengths[at := length])
    ensures CallsAccounted(c, f, bytes, lengths[at := length], b.calls, b.droppedCalls)
    ensures ReferencesAccounted(c, f, bytes, lengths[at := length], b.references, b.droppedReferences)
    ensures AloneFit(c, f, bytes, b.unpaired) && GrewFor(a, b, f.begin)
  {
    hide CallsFit, ReferencesFit, CallsAccounted, ReferencesAccounted, AloneFit, CallFits, ReferenceAccepted, GrewFor,
      CallAt, ReferenceAt;
    CallsStillFit(c, functions, a.calls, b.calls, f.begin, lengths, at, length, call);
    ReferencesStillFit(c, functions, a.references, b.references, f.begin, lengths, at, length, reference);
    CallsStayAccounted(c, f, bytes, lengths, at, length, call, StandsAlone(call, reference), keptCall,
                       a.calls, b.calls, a.droppedCalls, b.droppedCalls, a.unpaired, b.unpaired);
    ReferencesStayAccounted(c, f, bytes, lengths, at, length, reference, keptReference,
                            a.references, b.references, a.droppedReferences, b.droppedReferences);
    AloneStillFit(c, f, bytes, a.unpaired, b.unpaired, at, call, reference);
    RetainedGrew(a, b, call, reference, keptCall, keptReference, f.begin);
  }

  /** Whatever an instruction yields fits, and names its own function and site. */
  lemma FoundFits(
    c: Context, functions: seq<RuntimeFunction>, f: RuntimeFunction, bytes: seq<Byte>, at: U32, ip: U64, i: Instruction,
    raw: seq<Byte>)
    requires CodeTargets.Valid(c) && Sweepable(c, functions, f, bytes)
    requires Reads(c, f, bytes, at, ip, i, raw) && 1 <= i.len && !i.invalid
    ensures var call := CallOf(c, f, at, ip, i, raw);
            && call == CallAt(c, f, bytes, at)
            && (call.Some? ==>
                  call.value.caller == f.begin && call.value.site == at && CallFits(c, functions, call.value))
    ensures var r := DecodeReference(c, f.begin, at, i, raw);
            && r == ReferenceAt(c, f, bytes, at)
            && (r.Some? ==>
                  r.value.caller == f.begin && r.value.site == at && ReferenceAccepted(c, functions, r.value))
  {
    hide CallFits, ReferenceAccepted, DecodeCallTarget;
    if DecodeReference(c, f.begin, at, i, raw).Some? { DecodedReferenceFits(c, functions, f, at, i, raw); }
    if CallOf(c, f, at, ip, i, raw).Some? { DecodedCallFits(c, functions, f, at, ip, i, raw); }
  }

  lemma AloneStillFit(
    c: Context, f: RuntimeFunction, bytes: seq<Byte>, unpaired0: set<Call>, unpaired1: set<Call>, at: nat,
    call: Option<Call>, reference: Option<Reference>)
    requires AloneFit(c, f, bytes, unpaired0)
    requires call == CallAt(c, f, bytes, at) && reference == ReferenceAt(c, f, bytes, at)
    requires call.Some? ==> call.value.site == at
    requires unpaired1 == if StandsAlone(call, reference) then unpaired0 + {call.value} else unpaired0
    ensures AloneFit(c, f, bytes, unpaired1)
  {
    hide CallAt, ReferenceAt;
  }

  lemma RetainedGrew(
    a: Kept, b: Kept, call: Option<Call>, reference: Option<Reference>, keptCall: bool, keptReference: bool, begin: nat)
    requires Retains(a, b, call, reference, keptCall, keptReference)
    requires (call.Some? ==> call.value.caller == begin) && (reference.Some? ==> reference.value.caller == begin)
    ensures GrewFor(a, b, begin)
  {
  }

  /** `i` is the instruction the decoder reads at `at`. */
  ghost predicate Reads(
    c: Context, f: RuntimeFunction, bytes: seq<Byte>, at: nat, ip: U64, i: Instruction, raw: seq<Byte>)
  {
    && f.begin <= at && at + i.len <= f.end && i.len <= MAX_INSTRUCTION_BYTES
    && ip == IpAt(c, at) && IsIp(c, at, ip)
    && i == DecodedAt(c, f, bytes, at) && raw == BytesAt(f, bytes, at, i.len) && |raw| == i.len
  }

  /** An invalid instruction stands for no relationship. */
  lemma InvalidKeepsRecords(
    c: Context, functions: seq<RuntimeFunction>, f: RuntimeFunction, bytes: seq<Byte>, acc: Accumulator,
    lengths: Lengths, at: nat, length: nat)
    requires RecordsFit(c, functions, acc.calls, acc.references, f.begin, lengths) && at !in lengths
    requires Accounted(c, f, bytes, lengths, acc) && DecodedAt(c, f, bytes, at).invalid
    ensures RecordsFit(c, functions, acc.calls, acc.references, f.begin, lengths[at := length])
    ensures Accounted(c, f, bytes, lengths[at := length], acc)
  {
    CallsStillFit(c, functions, acc.calls, acc.calls, f.begin, lengths, at, length, None);
    ReferencesStillFit(c, functions, acc.references, acc.references, f.begin, lengths, at, length, None);
  }

  /** Retain an instruction and, if it is valid, its relationships. */
  method Keep(
    c: Context, ghost functions: seq<RuntimeFunction>, f: RuntimeFunction, bytes: seq<Byte>, t: Traversal,
    acc: Accumulator, at: nat, ip: U64, i: Instruction, raw: seq<Byte>)
    returns (ok: bool)
    requires Sweeping(c, functions, f, t, acc) && Sweepable(c, functions, f, bytes)
    requires Reads(c, f, bytes, at, ip, i, raw) && 1 <= i.len
    requires FullSearch(t.lengths, at) == Nowhere && Accounted(c, f, bytes, t.lengths, acc)
    requires Anchored(t.recorder.instructions, f.begin, at)
    modifies t`lengths, acc`calls, acc`references, acc`droppedCalls, acc`droppedReferences, acc`unpaired,
             acc`scanTruncated, acc`dataTruncated
    ensures Sweeping(c, functions, f, t, acc)
    ensures Accounted(c, f, bytes, t.lengths, acc)
    ensures ok <==> !RunsInto(old(t.lengths), at, i.len)
    ensures GrewFor(old(KeptBy(acc)), KeptBy(acc), f.begin)
    ensures t.lengths == if ok then old(t.lengths)[at := i.len] else old(t.lengths)
  {
    hide CallsAccounted, ReferencesAccounted, AloneFit, RecordsFit, Anchored, Accumulator.Valid;
    ok := t.RetainInstruction(at, i.len);
    if !ok { return; }
    RetainCoheres(old(t.lengths), t.pending, t.discovered, t.recorder, f.begin, f.end, at, i.len);
    if i.invalid {
      InvalidKeepsRecords(c, functions, f, bytes, acc, old(t.lengths), at, i.len);
    } else {
      RetainFound(c, functions, f, bytes, acc, at, ip, i, raw, old(t.lengths));
    }
  }

  /** The instruction at an address of the function, its bytes and its pointer. */
  method DecodeAt(c: Context, f: RuntimeFunction, bytes: seq<Byte>, at: nat)
    returns (i: Instruction, raw: seq<Byte>, ip: U64)
    requires Bounded(c.decode) && |bytes| == f.end - f.begin && f.begin <= at < f.end
    ensures Reads(c, f, bytes, at, ip, i, raw)
  {
    ip := IpAt(c, at);
    i := c.decode(bytes[at - f.begin..], ip);
    raw := bytes[at - f.begin..at + i.len - f.begin];
  }

  /** What has been retained and dropped so far, and what the budgets were used for. */
  datatype Kept = Kept(
    calls: set<Call>, references: set<Reference>, droppedCalls: set<Call>, droppedReferences: set<Reference>,
    unpaired: set<Call>, work: Work, starts: set<(nat, nat)>, refused: Option<(nat, nat)>, spent: bool,
    scanTruncated: bool, dataTruncated: bool)

  ghost function KeptBy(acc: Accumulator): Kept
    reads acc`calls, acc`references, acc`droppedCalls, acc`droppedReferences, acc`unpaired, acc`work, acc`starts,
          acc`refused, acc`spent, acc`scanTruncated, acc`dataTruncated
  {
    Kept(acc.calls, acc.references, acc.droppedCalls, acc.droppedReferences, acc.unpaired, acc.work, acc.starts,
         acc.refused, acc.spent, acc.scanTruncated, acc.dataTruncated)
  }

  /** Nothing is lost, and whatever is new belongs to the function that begins at `begin`. */
  ghost predicate GrewFor(a: Kept, b: Kept, begin: nat) {
    && a.calls <= b.calls && a.references <= b.references
    && a.droppedCalls <= b.droppedCalls && a.droppedReferences <= b.droppedReferences
    && (a.scanTruncated ==> b.scanTruncated) && (a.dataTruncated ==> b.dataTruncated)
    && (forall x :: x in b.calls ==> x in a.calls || x.caller == begin)
    && (forall x :: x in b.references ==> x in a.references || x.caller == begin)
    && (forall x :: x in b.droppedCalls ==> x in a.droppedCalls || x.caller == begin)
    && (forall x :: x in b.droppedReferences ==> x in a.droppedReferences || x.caller == begin)
    && (forall x :: x in b.unpaired ==> x in a.unpaired || x.caller == begin)
    && ChargedFor(a, b, begin)
  }

  /** So is whatever was charged. */
  ghost predicate ChargedFor(a: Kept, b: Kept, begin: nat) {
    && (forall k :: k in b.work ==> (k in a.work && a.work[k] == b.work[k]) || IsFor(k, begin))
    && (forall x :: x in b.starts ==> x in a.starts || x.0 == begin)
    && (b.refused.Some? ==> b.refused == a.refused || b.refused.value.0 == begin)
    && (a.spent ==> b.spent)
  }

  lemma GrewTwice(a: Kept, b: Kept, c: Kept, begin: nat)
    requires GrewFor(a, b, begin) && GrewFor(b, c, begin)
    ensures GrewFor(a, c, begin)
  {
  }

  /** The part of the sweep's invariant that holds however it was cut off: what is retained, dropped
      and charged is what the code stands for. */
  ghost predicate Truthful(c: Context, f: RuntimeFunction, bytes: seq<Byte>, t: Traversal, acc: Accumulator)
    reads t, acc`calls, acc`droppedCalls, acc`references, acc`droppedReferences, acc`unpaired, acc`work, acc`starts,
          acc`refused
  {
    && Faithful(c, f, bytes, t.lengths, t.recorder)
    && Accounted(c, f, bytes, t.lengths, acc)
    && LedgerFits(c, f, bytes, t, acc)
  }

  /** The exact part, with one address still open. */
  ghost predicate Exact(
    c: Context, f: RuntimeFunction, bytes: seq<Byte>, t: Traversal, acc: Accumulator, open: set<nat>)
    reads t, acc`calls, acc`droppedCalls, acc`references, acc`droppedReferences, acc`unpaired, acc`work, acc`starts,
          acc`refused, acc`scanTruncated
  {
    && Explored(c, f, bytes, t.lengths, t.recorder, t.discovered, t.pending, acc.scanTruncated, open)
    && Truthful(c, f, bytes, t, acc)
  }

  /** Retaining the instruction at the open address closes it; a valid one is then to be recorded. */
  method KeepExact(
    c: Context, ghost functions: seq<RuntimeFunction>, f: RuntimeFunction, bytes: seq<Byte>, t: Traversal,
    acc: Accumulator, at: nat, after: nat, ip: U64, i: Instruction, raw: seq<Byte>)
    returns (ok: bool)
    requires Sweeping(c, functions, f, t, acc) && Sweepable(c, functions, f, bytes)
    requires Reads(c, f, bytes, at, ip, i, raw) && 1 <= i.len && after == at + i.len
    requires FullSearch(t.lengths, at) == Nowhere && Exact(c, f, bytes, t, acc, {at})
    requires Anchored(t.recorder.instructions, f.begin, at) && HasPointer(c, f.begin)
    modifies t`lengths, acc`calls, acc`references, acc`droppedCalls, acc`droppedReferences, acc`unpaired,
             acc`scanTruncated, acc`dataTruncated
    ensures Sweeping(c, functions, f, t, acc) && Accounted(c, f, bytes, t.lengths, acc)
    ensures Explored(c, f, bytes, t.lengths, t.recorder, t.discovered, t.pending, acc.scanTruncated, {})
    ensures !ok || i.invalid ==> Faithful(c, f, bytes, t.lengths, t.recorder)
    ensures ok && !i.invalid ==>
              Faithful(c, f, bytes, t.lengths, Record(t.recorder, f.begin, f.end, at, after, FlowOf(c, i.action)))
    ensures GrewFor(old(KeptBy(acc)), KeptBy(acc), f.begin)
    ensures ok ==> at in t.lengths && t.lengths[at] == i.len
  {
    hide Faithful, CallsAccounted, ReferencesAccounted, AloneFit, RecordsFit, Coheres, Anchored, LedgerFits,
      Accumulator.Valid;
    ok := Keep(c, functions, f, bytes, t, acc, at, ip, i, raw);
    if !ok {
      SettleExplores(c, f, bytes, t.lengths, t.recorder, t.discovered, t.pending, acc.scanTruncated, at);
    } else {
      RetainExplores(c, f, bytes, old(t.lengths), t.recorder, t.discovered, t.pending, acc.scanTruncated, at, i.len);
      StaysFaithful(c, f, bytes, old(t.lengths), t.recorder, at, after);
    }
  }

  /** Retain, record and follow one decoded instruction. */
  method ScanDecoded(
    c: Context, ghost functions: seq<RuntimeFunction>, f: RuntimeFunction, bytes: seq<Byte>, t: Traversal,
    acc: Accumulator, at: nat, after: nat, ip: U64, i: Instruction, raw: seq<Byte>)
    returns (step: Step)
    requires Sweeping(c, functions, f, t, acc) && Sweepable(c, functions, f, bytes) && HasPointer(c, f.begin)
    requires Reads(c, f, bytes, at, ip, i, raw) && 1 <= i.len && after == at + i.len
    requires FullSearch(t.lengths, at) == Nowhere && Arrived(t.recorder, f.begin, at) && at !in t.recorder.instructions
    requires Exact(c, f, bytes, t, acc, {at})
    modifies t`lengths, t`recorder, t`pending, t`discovered, acc`blockStarts, acc`starts, acc`refused,
             acc`calls, acc`references, acc`droppedCalls, acc`droppedReferences, acc`unpaired, acc`scanTruncated,
             acc`dataTruncated
    ensures Sweeping(c, functions, f, t, acc)
    ensures Advanced(old(acc.blockStarts), acc.blockStarts, old(t.pending), t.pending)
    ensures step.StopBlock? || (step == GoOn(after) && Arrived(t.recorder, f.begin, after))
    ensures step.GoOn? ==>
              Awaits(f, t.discovered, t.pending, t.recorder.instructions, acc.work, NextOf(f.begin, at), after)
    ensures Exact(c, f, bytes, t, acc, if step.GoOn? then {after} else {})
    ensures GrewFor(old(KeptBy(acc)), KeptBy(acc), f.begin)
  {
    hide Explored, Faithful, CallsAccounted, ReferencesAccounted, AloneFit, RecordsFit, Coheres, FullSearch, Reached,
      Anchored, Record, WorkFits, StartsFit, Awaits, GrewFor, Accumulator.Valid;
    var ok := KeepExact(c, functions, f, bytes, t, acc, at, after, ip, i, raw);
    if !ok || i.invalid { return StopBlock; }
    var flow := FlowOf(c, i.action);
    ghost var kept := KeptBy(acc);
    step := Follow(c, f, t, acc, at, after, flow);
    GrewTwice(old(KeptBy(acc)), kept, KeptBy(acc), f.begin);
    assert (old(acc.scanTruncated) ==> kept.scanTruncated) && (kept.scanTruncated ==> acc.scanTruncated) by {
      GrowthKeepsFlags(old(KeptBy(acc)), kept, f.begin);
      GrowthKeepsFlags(kept, KeptBy(acc), f.begin);
    }
    FollowExplores(c, f, bytes, t.lengths, old(t.recorder), at, after, flow,
                   old(t.discovered), old(t.pending), kept.scanTruncated, t.discovered, t.pending, acc.scanTruncated);
    FollowWork(c, f, bytes, old(t.recorder), at, after, flow, acc.work,
               old(t.discovered), old(t.pending), t.discovered, t.pending);
  }

  lemma GrowthKeepsFlags(a: Kept, b: Kept, begin: nat)
    requires GrewFor(a, b, begin)
    ensures a.scanTruncated ==> b.scanTruncated
  {
  }

  /** Charge the task at hand to the decode budget, unless it does not fit. */
  method Charge(
    c: Context, f: RuntimeFunction, bytes: seq<Byte>, t: Traversal, acc: Accumulator, at: nat, size: nat,
    ghost task: Task)
    returns (ok: bool)
    requires acc.Valid() && LedgerFits(c, f, bytes, t, acc)
    requires Awaits(f, t.discovered, t.pending, t.recorder.instructions, acc.work, task, at)
    requires at < f.end && size == DecodedAt(c, f, bytes, at).len && size > 0
    modifies acc`bytes, acc`instructions, acc`work
    ensures acc.Valid() && LedgerFits(c, f, bytes, t, acc)
    ensures !ok ==> OutOfDecodes(c, f, bytes, t, acc)
    ensures GrewFor(old(KeptBy(acc)), KeptBy(acc), f.begin)
  {
    hide WorkFits, StartsFit, TaskFits, Awaits, GrewFor, Overspends, DecodedAt, Accumulator.Valid;
    NothingGrewFor(KeptBy(acc), f.begin);
    AwaitedFits(c, f, bytes, t.discovered, t.pending, t.recorder.instructions, acc.work, task, at);
    WorkGrew(f, t.discovered, t.pending, t.recorder.instructions, KeptBy(acc), task, at, size);
    ok := acc.ConsumeInstruction(size, task);
  }

  /** Decode one instruction within the decode budget and scan it. The budget is exhausted only
      when the task at hand does not fit it. */
  method ScanInstruction(
    c: Context, ghost functions: seq<RuntimeFunction>, f: RuntimeFunction, bytes: seq<Byte>,
    t: Traversal, acc: Accumulator, at: nat, ghost task: Task)
    returns (step: Step)
    requires Sweeping(c, functions, f, t, acc) && Sweepable(c, functions, f, bytes) && HasPointer(c, f.begin)
    requires f.begin <= at < f.end && FullSearch(t.lengths, at) == Nowhere && Arrived(t.recorder, f.begin, at)
    requires Exact(c, f, bytes, t, acc, {at})
    requires Awaits(f, t.discovered, t.pending, t.recorder.instructions, acc.work, task, at)
    modifies t, acc`bytes, acc`instructions, acc`work, acc`blockStarts, acc`starts, acc`refused, acc`calls,
             acc`references, acc`droppedCalls, acc`droppedReferences, acc`unpaired, acc`scanTruncated,
             acc`dataTruncated
    ensures Sweeping(c, functions, f, t, acc)
    ensures Advanced(old(acc.blockStarts), acc.blockStarts, old(t.pending), t.pending)
    ensures step.GoOn? ==>
              && at < step.next <= f.end && Arrived(t.recorder, f.begin, step.next)
              && Awaits(f, t.discovered, t.pending, t.recorder.instructions, acc.work, NextOf(f.begin, at), step.next)
    ensures !step.Exhausted? ==> Exact(c, f, bytes, t, acc, if step.GoOn? then {step.next} else {})
    ensures step.Exhausted? ==> Truthful(c, f, bytes, t, acc) && OutOfDecodes(c, f, bytes, t, acc)
    ensures GrewFor(old(KeptBy(acc)), KeptBy(acc), f.begin)
  {
    hide Explored, Faithful, CallsAccounted, ReferencesAccounted, AloneFit, RecordsFit, Coheres, FullSearch, Arrived,
      LedgerFits, OutOfDecodes, Awaits, GrewFor, Accumulator.Valid;
    NothingGrewFor(KeptBy(acc), f.begin);
    var i, raw, ip := DecodeAt(c, f, bytes, at);
    if i.len == 0 {
      SettleExplores(c, f, bytes, t.lengths, t.recorder, t.discovered, t.pending, acc.scanTruncated, at);
      return StopBlock;
    }
    var ok := Charge(c, f, bytes, t, acc, at, i.len, task);
    if !ok { return Exhausted; }
    ghost var kept := KeptBy(acc);
    NowhereIsUnrecorded(t.lengths, t.pending, t.discovered, t.recorder, f.begin, f.end, at);
    step := ScanDecoded(c, functions, f, bytes, t, acc, at, at + i.len, ip, i, raw);
    GrewTwice(old(KeptBy(acc)), kept, KeptBy(acc), f.begin);
  }

  lemma NothingGrewFor(kept: Kept, begin: nat)
    ensures GrewFor(kept, kept, begin)
  {
  }

  lemma WorkGrew(
    f: RuntimeFunction, discovered: set<nat>, pending: set<nat>, s: Stream, kept: Kept, task: Task, at: nat, size: nat)
    requires Awaits(f, discovered, pending, s, kept.work, task, at)
    ensures task !in kept.work && GrewFor(kept, kept.(work := kept.work[task := size]), f.begin)
  {
  }

  lemma DiscoveredArrives(
    lengths: Lengths, pending: set<nat>, discovered: set<nat>, r: Recorder, begin: nat, end: nat, start: nat)
    requires Coheres(lengths, pending, discovered, r, begin, end) && start in discovered
    ensures begin <= start < end && Arrived(r, begin, start)
  {
    hide Anchored;
    assert Anchored(r.instructions, begin, start);
  }

  /** Decode forward from one queued start until the path ends, meets a retained instruction or
      runs out of budget. */
  method ScanBlock(
    c: Context, ghost functions: seq<RuntimeFunction>, f: RuntimeFunction, bytes: seq<Byte>,
    t: Traversal, acc: Accumulator, start: nat)
    returns (exhausted: bool)
    requires Sweeping(c, functions, f, t, acc) && Sweepable(c, functions, f, bytes) && start in t.discovered
    requires Exact(c, f, bytes, t, acc, Opened(c, start))
    requires Awaits(f, t.discovered, t.pending, t.recorder.instructions, acc.work, FirstOf(f.begin, start), start)
    modifies t, acc`bytes, acc`instructions, acc`work, acc`blockStarts, acc`starts, acc`refused, acc`calls,
             acc`references, acc`droppedCalls, acc`droppedReferences, acc`unpaired, acc`scanTruncated,
             acc`dataTruncated
    ensures Sweeping(c, functions, f, t, acc)
    ensures Advanced(old(acc.blockStarts), acc.blockStarts, old(t.pending), t.pending)
    ensures !exhausted ==> Exact(c, f, bytes, t, acc, {})
    ensures exhausted ==> Truthful(c, f, bytes, t, acc) && OutOfDecodes(c, f, bytes, t, acc)
    ensures GrewFor(old(KeptBy(acc)), KeptBy(acc), f.begin)
  {
    hide Explored, Truthful, RecordsFit, FullSearch, Coheres, Arrived, Awaits, OutOfDecodes, GrewFor,
      Accumulator.Valid;
    DiscoveredArrives(t.lengths, t.pending, t.discovered, t.recorder, f.begin, f.end, start);
    NothingGrewFor(KeptBy(acc), f.begin);
    if !HasPointer(c, start) { return false; }
    var at, open := start, true;
    ghost var kept, task := KeptBy(acc), FirstOf(f.begin, start);
    while open && at < f.end
      invariant Sweeping(c, functions, f, t, acc) && f.begin <= at && Arrived(t.recorder, f.begin, at)
      invariant Advanced(old(acc.blockStarts), acc.blockStarts, old(t.pending), t.pending)
      invariant Exact(c, f, bytes, t, acc, {at}) && (!open ==> Settled(c, f, bytes, t.lengths, at))
      invariant open ==> Awaits(f, t.discovered, t.pending, t.recorder.instructions, acc.work, task, at)
      invariant GrewFor(kept, KeptBy(acc), f.begin)
      decreases f.end - at, open
    {
      IsApart(t.lengths, t.pending, t.discovered, t.recorder, f.begin, f.end);
      var location := t.DecodedLocation(at);
      if location != Nowhere {
        open := false;
      } else {
        ghost var before := KeptBy(acc);
        var step := ScanInstruction(c, functions, f, bytes, t, acc, at, task);
        GrewTwice(kept, before, KeptBy(acc), f.begin);
        if step.Exhausted? { return true; }
        if step.StopBlock? { return false; }
        task := NextOf(f.begin, at);
        at := step.next;
      }
    }
    SettleExplores(c, f, bytes, t.lengths, t.recorder, t.discovered, t.pending, acc.scanTruncated, at);
    exhausted := false;
  }

  lemma NothingCoheres(c: Context, f: RuntimeFunction, bytes: seq<Byte>, start: set<nat>, truncated: bool)
    requires start <= {f.begin as nat} && f.begin < f.end && (f.begin in start || truncated)
    ensures Coheres(map[], start, start, Recorder(map[], {}), f.begin, f.end)
    ensures Explored(c, f, bytes, map[], Recorder(map[], {}), start, start, truncated, {})
    ensures Faithful(c, f, bytes, map[], Recorder(map[], {}))
  {
    EntryIsAnchored(map[], f.begin);
  }

  /** Nothing kept for an earlier function names this one. */
  ghost predicate Untouched(kept: Kept, begin: nat) {
    && (forall x :: x in kept.calls + kept.droppedCalls + kept.unpaired ==> x.caller != begin)
    && (forall x :: x in kept.references + kept.droppedReferences ==> x.caller != begin)
    && (forall k :: k in kept.work ==> !IsFor(k, begin))
    && (forall x :: x in kept.starts ==> x.0 != begin)
    && (kept.refused.Some? ==> kept.refused.value.0 != begin)
  }

  lemma UntouchedIsAccounted(c: Context, f: RuntimeFunction, bytes: seq<Byte>, acc: Accumulator)
    requires Untouched(KeptBy(acc), f.begin)
    ensures Accounted(c, f, bytes, map[], acc)
    ensures forall start: set<nat> :: WorkFits(c, f, bytes, start, start, map[], acc.work)
    ensures StartsFit(f, {}, Recorder(map[], {}), acc.starts, acc.refused)
  {
  }

  lemma NothingIsNowhere(rva: nat)
    ensures Apart(map[]) && FullSearch(map[], rva) == Nowhere
  {
  }

  /** Queue the entry of a function. */
  method StartSweep(
    c: Context, ghost functions: seq<RuntimeFunction>, f: RuntimeFunction, bytes: seq<Byte>, t: Traversal,
    acc: Accumulator)
    requires CodeTargets.Valid(c) && acc.Valid() && f.begin < f.end
    requires t.pending == {} && t.discovered == {} && t.lengths == map[] && t.recorder == Recorder(map[], {})
    requires RecordsFit(c, functions, acc.calls, acc.references, f.begin, map[])
    requires Untouched(KeptBy(acc), f.begin)
    modifies t`pending, t`discovered, acc`blockStarts, acc`starts, acc`refused, acc`scanTruncated, acc`dataTruncated
    ensures Sweeping(c, functions, f, t, acc) && Exact(c, f, bytes, t, acc, {})
    ensures GrewFor(old(KeptBy(acc)), KeptBy(acc), f.begin)
  {
    hide Explored, Faithful, Coheres, CallsAccounted, ReferencesAccounted, AloneFit, RecordsFit, Untouched, WorkFits,
      FullSearch, Apart, GrewFor, Accumulator.Valid;
    UntouchedIsAccounted(c, f, bytes, acc);
    NothingIsNowhere(f.begin);
    var _ := Offer(t, acc, f.begin, f.begin);
    NothingCoheres(c, f, bytes, t.pending, acc.scanTruncated);
  }

  lemma LocatedIsSettled(c: Context, f: RuntimeFunction, bytes: seq<Byte>, lengths: Lengths, at: nat)
    requires FullSearch(lengths, at) != Nowhere
    ensures Settled(c, f, bytes, lengths, at)
  {
  }

  /** Take one queued start, in whatever order, and decode from it. */
  method ScanNext(
    c: Context, ghost functions: seq<RuntimeFunction>, f: RuntimeFunction, bytes: seq<Byte>,
    t: Traversal, acc: Accumulator, start: nat)
    returns (exhausted: bool)
    requires Sweeping(c, functions, f, t, acc) && Sweepable(c, functions, f, bytes) && start in t.pending
    requires Exact(c, f, bytes, t, acc, {})
    modifies t, acc`bytes, acc`instructions, acc`work, acc`blockStarts, acc`starts, acc`refused, acc`calls,
             acc`references, acc`droppedCalls, acc`droppedReferences, acc`unpaired, acc`scanTruncated,
             acc`dataTruncated
    ensures Sweeping(c, functions, f, t, acc)
    ensures Advanced(old(acc.blockStarts), acc.blockStarts, old(t.pending) - {start}, t.pending)
    ensures !exhausted ==> Exact(c, f, bytes, t, acc, {})
    ensures exhausted ==> Truthful(c, f, bytes, t, acc) && OutOfDecodes(c, f, bytes, t, acc)
    ensures GrewFor(old(KeptBy(acc)), KeptBy(acc), f.begin)
  {
    hide Explored, Faithful, Accounted, RecordsFit, FullSearch, Settled, Coheres, WorkFits, StartsFit, Awaits,
      OutOfDecodes, GrewFor, Accumulator.Valid;
    PopCoheres(t.lengths, t.pending, t.discovered, t.recorder, f.begin, f.end, start);
    PopExplores(c, f, bytes, t.lengths, t.recorder, t.discovered, t.pending, acc.scanTruncated, start);
    PopAwaits(c, f, bytes, t.discovered, t.pending, t.recorder.instructions, acc.work, start);
    NothingGrewFor(KeptBy(acc), f.begin);
    t.pending := t.pending - {start};
    var location := t.DecodedLocation(start);
    if location != Nowhere {
      LocatedIsSettled(c, f, bytes, t.lengths, start);
      if HasPointer(c, start) {
        SettleExplores(c, f, bytes, t.lengths, t.recorder, t.discovered, t.pending, acc.scanTruncated, start);
      }
      return false;
    }
    exhausted := ScanBlock(c, functions, f, bytes, t, acc, start);
  }

  /** Sweep one function. A sweep that is not cut off has explored everything reachable: see
      `Explored`, `Faithful` and `Accounted` with nothing open or pending. One that is exhausted has
      a task left that does not fit the decode budget. */
  method ScanRuntimeFunction(
    c: Context, ghost functions: seq<RuntimeFunction>, f: RuntimeFunction, bytes: seq<Byte>, t: Traversal,
    acc: Accumulator)
    returns (exhausted: bool)
    requires CodeTargets.Valid(c) && acc.Valid() && Sweepable(c, functions, f, bytes)
    requires t.pending == {} && t.discovered == {} && t.lengths == map[] && t.recorder == Recorder(map[], {})
    requires RecordsFit(c, functions, acc.calls, acc.references, f.begin, map[])
    requires Untouched(KeptBy(acc), f.begin)
    modifies t, acc`bytes, acc`instructions, acc`work, acc`blockStarts, acc`starts, acc`refused, acc`calls,
             acc`references, acc`droppedCalls, acc`droppedReferences, acc`unpaired, acc`scanTruncated,
             acc`dataTruncated
    ensures Sweeping(c, functions, f, t, acc) && Truthful(c, f, bytes, t, acc)
    ensures !exhausted ==> t.pending == {} && Exact(c, f, bytes, t, acc, {})
    ensures exhausted ==> OutOfDecodes(c, f, bytes, t, acc)
    ensures GrewFor(old(KeptBy(acc)), KeptBy(acc), f.begin)
  {
    hide Explored, Truthful, RecordsFit, Coheres, OutOfDecodes, GrewFor, RetentionFits, WorkBytes;
    ghost var kept := KeptBy(acc);
    StartSweep(c, functions, f, bytes, t, acc);
    exhausted := false;
    while t.pending != {} && !exhausted
      invariant Sweeping(c, functions, f, t, acc) && (!exhausted ==> Exact(c, f, bytes, t, acc, {}))
      invariant exhausted ==> Truthful(c, f, bytes, t, acc) && OutOfDecodes(c, f, bytes, t, acc)
      invariant GrewFor(kept, KeptBy(acc), f.begin)
      decreases acc.limits.blockStarts - acc.blockStarts, t.pending
    {
      var start :| start in t.pending;
      ghost var before := KeptBy(acc);
      exhausted := ScanNext(c, functions, f, bytes, t, acc, start);
      GrewTwice(kept, before, KeptBy(acc), f.begin);
    }
  }
}
