/** Budgets and bounded retention of the relationships found by recovery. */
module Retention {
  import opened Common
  import opened CodeTargets

  datatype Limits = Limits(
    bytes: nat, instructions: nat, blockStarts: nat, calls: nat, references: nat, thunks: nat, blocks: nat)

  const LIMITS := Limits(64 * 1024 * 1024, 1_000_000, 262_144, 8_192, 32_768, 4_096, 1_048_576)

  /** The slot reference a pointer call depends on. */
  function SlotReference(call: Call): Reference
    requires call.target.FunctionPointer?
  {
    Reference(call.caller, call.site, call.size, call.target.slot)
  }

  /** Every retained pointer call has its exact same-site slot reference retained. */
  ghost predicate Paired(calls: set<Call>, references: set<Reference>) {
    forall call :: call in calls && call.target.FunctionPointer? ==> SlotReference(call) in references
  }

  /** What a decode is done for: the start of a block, the continuation of an instruction, or a
      thunk candidate. No task is done twice. */
  datatype Task = FirstOf(caller: nat, at: nat) | NextOf(caller: nat, previous: nat) | Candidate(rva: U32)

  type Work = map<Task, nat>

  function Itself(n: nat): nat { n }

  ghost function WorkBytes(work: Work): nat { Total(work, Itself) }

  lemma OneMoreTask(work: Work, task: Task, size: nat)
    requires task !in work
    ensures WorkBytes(work[task := size]) == WorkBytes(work) + size && |work[task := size]| == |work| + 1
  {
    TotalInsert(work, task, size, Itself);
    assert work[task := size].Keys == work.Keys + {task};
  }

  /** One more decode of `size` bytes does not fit the budget that `work` has used. */
  ghost predicate Overspends(work: Work, limits: Limits, size: nat) {
    WorkBytes(work) + size > limits.bytes || |work| >= limits.instructions
  }

  /** An item is retained already, or there is room for it under the cap. */
  predicate HasRoom<T(==)>(item: Option<T>, retained: set<T>, cap: nat) {
    item.Some? && (item.value in retained || |retained| < cap)
  }

  /** A reference, if there is one, was retained or dropped. */
  ghost predicate ReferenceHandled(
    reference: Option<Reference>, kept: bool, retained0: set<Reference>, retained1: set<Reference>,
    dropped0: set<Reference>, dropped1: set<Reference>)
  {
    && (kept ==> reference.Some?)
    && retained1 == (if kept then retained0 + {reference.value} else retained0)
    && dropped1 == (if reference.Some? && !kept then dropped0 + {reference.value} else dropped0)
  }

  /** A call, if there is one, was retained or dropped; one dropped without its slot reference is noted. */
  ghost predicate CallHandled(
    call: Option<Call>, alone: bool, kept: bool, retained0: set<Call>, retained1: set<Call>,
    dropped0: set<Call>, dropped1: set<Call>, unpaired0: set<Call>, unpaired1: set<Call>)
  {
    && (kept ==> call.Some?)
    && retained1 == (if kept then retained0 + {call.value} else retained0)
    && dropped1 == (if call.Some? && !kept then dropped0 + {call.value} else dropped0)
    && unpaired1 == (if call.Some? && alone then unpaired0 + {call.value} else unpaired0)
  }

  /** The budgets are exactly what was used, and a start was refused only when they were spent. */
  ghost predicate BudgetsFit(
    limits: Limits, bytes: nat, instructions: nat, blockStarts: nat, work: Work, starts: set<(nat, nat)>,
    refused: Option<(nat, nat)>)
  {
    && bytes == WorkBytes(work) <= limits.bytes && instructions == |work| <= limits.instructions
    && blockStarts == |starts| <= limits.blockStarts
    && (refused.Some? ==> refused.value !in starts && |starts| == limits.blockStarts)
  }

  /** Caps hold, calls are paired, and whatever was dropped lacked room or its slot reference. */
  ghost predicate RetentionFits(
    limits: Limits, calls: set<Call>, references: set<Reference>, droppedCalls: set<Call>,
    droppedReferences: set<Reference>, unpaired: set<Call>)
  {
    && |calls| <= limits.calls && |references| <= limits.references
    && Paired(calls, references)
    && (forall x :: x in droppedCalls ==> LacksRoom(limits, calls, references, x) || x in unpaired)
    && (droppedReferences != {} ==> |references| == limits.references)
    && references !! droppedReferences && unpaired <= droppedCalls
  }

  /** A cap that the call needs room under is reached. */
  ghost predicate LacksRoom(limits: Limits, calls: set<Call>, references: set<Reference>, call: Call) {
    |calls| == limits.calls || (call.target.FunctionPointer? && |references| == limits.references)
  }

  /** Each flag is raised if and only if a relationship of its kind was dropped, a start was refused or
      a decode was. */
  ghost predicate FlagsFit(
    droppedCalls: set<Call>, droppedReferences: set<Reference>, refused: Option<(nat, nat)>, spent: bool,
    scanTruncated: bool, dataTruncated: bool)
  {
    && (scanTruncated <==> droppedCalls != {} || refused.Some? || spent)
    && (dataTruncated <==> droppedReferences != {} || refused.Some? || spent)
  }

  class Accumulator {
    const limits: Limits
    var bytes: nat
    var instructions: nat
    var blockStarts: nat
    var calls: set<Call>
    var references: set<Reference>
    var scanTruncated: bool
    var dataTruncated: bool
    /** Relationships dropped, and the pointer calls among them that lacked their slot reference. */
    ghost var droppedCalls: set<Call>
    ghost var droppedReferences: set<Reference>
    ghost var unpaired: set<Call>
    /** What the budgets were used for: decodes, and block starts by function; a start that was
        refused; and whether a decode was. */
    ghost var work: Work
    ghost var starts: set<(nat, nat)>
    ghost var refused: Option<(nat, nat)>
    ghost var spent: bool

    constructor (limits: Limits)
      ensures Valid() && this.limits == limits
      ensures bytes == 0 && instructions == 0 && blockStarts == 0 && calls == {} && references == {}
      ensures droppedCalls == {} && droppedReferences == {} && !scanTruncated && !dataTruncated
      ensures unpaired == {} && work == map[] && starts == {} && refused == None && !spent
    {
      this.limits := limits;
      bytes, instructions, blockStarts, calls, references := 0, 0, 0, {}, {};
      scanTruncated, dataTruncated, droppedCalls, droppedReferences := false, false, {}, {};
      unpaired, work, starts, refused, spent := {}, map[], {}, None, false;
    }

    /** See `BudgetsFit`, `RetentionFits` and `FlagsFit`. */
    ghost predicate Valid()
      reads this
    {
      && BudgetsFit(limits, bytes, instructions, blockStarts, work, starts, refused)
      && RetentionMatches()
    }

    ghost predicate RetentionMatches()
      reads this`calls, this`references, this`scanTruncated, this`dataTruncated, this`droppedCalls,
            this`droppedReferences, this`unpaired, this`refused, this`spent
    {
      && RetentionFits(limits, calls, references, droppedCalls, droppedReferences, unpaired)
      && FlagsFit(droppedCalls, droppedReferences, refused, spent, scanTruncated, dataTruncated)
    }

    /** Charge one decoded instruction, or refuse without charging. */
    method ConsumeInstruction(size: nat, ghost task: Task) returns (ok: bool)
      requires Valid() && task !in work
      modifies this`bytes, this`instructions, this`work
      ensures Valid() && (ok <==> !Overspends(old(work), limits, size))
      ensures ok <==> old(bytes) + size <= limits.bytes && old(instructions) + 1 <= limits.instructions
      ensures bytes == old(bytes) + (if ok then size else 0)
      ensures instructions == old(instructions) + (if ok then 1 else 0)
      ensures work == if ok then old(work)[task := size] else old(work)
    {
      hide RetentionFits, WorkBytes;
      ok := bytes + size <= limits.bytes && instructions + 1 <= limits.instructions;
      OneMoreTask(work, task, size);
      if ok {
        bytes, instructions := bytes + size, instructions + 1;
        work := work[task := size];
      }
    }

    /** Charge one block start, or refuse it and remember which. */
    method ConsumeBlockStart(ghost start: (nat, nat)) returns (ok: bool)
      requires BudgetsFit(limits, bytes, instructions, blockStarts, work, starts, refused) && start !in starts
      modifies this`blockStarts, this`starts, this`refused
      ensures BudgetsFit(limits, bytes, instructions, blockStarts, work, starts, refused)
      ensures ok <==> old(blockStarts) < limits.blockStarts
      ensures blockStarts == old(blockStarts) + if ok then 1 else 0
      ensures starts == (if ok then old(starts) + {start} else old(starts))
      ensures refused == if ok then old(refused) else Some(start)
    {
      hide WorkBytes;
      ok := blockStarts < limits.blockStarts;
      if ok { blockStarts, starts := blockStarts + 1, starts + {start}; } else { refused := Some(start); }
    }

    method RetainReference(reference: Option<Reference>) returns (kept: bool)
      requires RetentionMatches()
      modifies this`references, this`droppedReferences, this`dataTruncated
      ensures RetentionMatches() && kept == HasRoom(reference, old(references), limits.references)
      ensures reference.Some? ==> if kept then reference.value in references else |references| == limits.references
      ensures ReferenceHandled(
                reference, kept, old(references), references, old(droppedReferences), droppedReferences)
      ensures dataTruncated == (old(dataTruncated) || (reference.Some? && !kept))
    {
      kept := reference.Some?;
      if reference.Some? && reference.value !in references {
        if |references| >= limits.references {
          kept, dataTruncated, droppedReferences := false, true, droppedReferences + {reference.value};
        } else {
          references := references + {reference.value};
        }
      }
    }

    /** Retain a call that may be retained and fits; `alone` tells that its slot reference was not
        decoded beside it. */
    method RetainCall(call: Option<Call>, paired: bool, ghost alone: bool) returns (kept: bool)
      requires RetentionMatches()
      requires paired && call.Some? && call.value.target.FunctionPointer? ==> SlotReference(call.value) in references
      requires !paired && call.Some? ==>
                 call.value.target.FunctionPointer? && (alone || |references| == limits.references)
      requires alone ==> !paired
      modifies this`calls, this`droppedCalls, this`unpaired, this`scanTruncated
      ensures RetentionMatches()
      ensures kept == (paired && HasRoom(call, old(calls), limits.calls))
      ensures CallHandled(
                call, alone, kept, old(calls), calls, old(droppedCalls), droppedCalls, old(unpaired), unpaired)
      ensures scanTruncated == (old(scanTruncated) || (call.Some? && !kept))
    {
      if call.None? { return false; }
      kept := paired;
      if paired && call.value !in calls {
        if |calls| >= limits.calls { kept := false; } else { calls := calls + {call.value}; }
      }
      if !kept { scanTruncated, droppedCalls := true, droppedCalls + {call.value}; }
      if alone { unpaired := unpaired + {call.value}; }
      assert kept ==> calls == old(calls) + {call.value};
    }

    /** One instruction's relationships: each is retained or dropped, and a flag is raised by the
        step iff the step drops a relationship of that kind. */
    method RetainRelationships(
      call: Option<Call>, reference: Option<Reference>) returns (keptCall: bool, keptReference: bool)
      requires Valid()
      modifies this`calls, this`references, this`droppedCalls, this`droppedReferences, this`unpaired,
               this`scanTruncated, this`dataTruncated
      ensures Valid()
      ensures keptReference == HasRoom(reference, old(references), limits.references)
      ensures keptCall == (MayRetain(call, reference, keptReference) && HasRoom(call, old(calls), limits.calls))
      ensures ReferenceHandled(
                reference, keptReference, old(references), references, old(droppedReferences), droppedReferences)
      ensures CallHandled(
                call, StandsAlone(call, reference), keptCall, old(calls), calls, old(droppedCalls), droppedCalls,
                old(unpaired), unpaired)
      ensures dataTruncated == (old(dataTruncated) || (reference.Some? && !keptReference))
      ensures scanTruncated == (old(scanTruncated) || (call.Some? && !keptCall))
    {
      hide BudgetsFit, RetentionFits, FlagsFit, ReferenceHandled, CallHandled, SlotReference, MayRetain, StandsAlone,
        HasRoom;
      keptReference := RetainReference(reference);
      PairingDecides(call, reference, keptReference, references, limits);
      keptCall := RetainCall(call, MayRetain(call, reference, keptReference), StandsAlone(call, reference));
    }
  }

  predicate MayRetain(call: Option<Call>, reference: Option<Reference>, keptReference: bool) {
    call.Some? && call.value.target.FunctionPointer? ==> keptReference && reference == Some(SlotReference(call.value))
  }

  /** A call that may not be retained stands alone or lost its slot reference to the cap. */
  lemma PairingDecides(
    call: Option<Call>, reference: Option<Reference>, kept: bool, references: set<Reference>, limits: Limits)
    requires reference.Some? ==> if kept then reference.value in references else |references| == limits.references
    ensures MayRetain(call, reference, kept) && call.Some? && call.value.target.FunctionPointer? ==>
              SlotReference(call.value) in references
    ensures !MayRetain(call, reference, kept) && call.Some? ==>
              call.value.target.FunctionPointer? && (StandsAlone(call, reference) || |references| == limits.references)
    ensures StandsAlone(call, reference) ==> !MayRetain(call, reference, kept)
  {
  }

  /** A pointer call whose slot reference is not the one decoded beside it. */
  predicate StandsAlone(call: Option<Call>, reference: Option<Reference>) {
    call.Some? && call.value.target.FunctionPointer? && reference != Some(SlotReference(call.value))
  }
}
