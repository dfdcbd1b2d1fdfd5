/** What one decoded x86-64 instruction says about calls, jumps and data, and why the record
    validators agree with it. The decoder itself is arbitrary. */
module CodeTargets {
  import opened Common
  import opened PeMap
  import opened RuntimeTargets

  const MAX_INSTRUCTION_BYTES := 15

  datatype Code = CallRel32 | CallRm64 | JmpRel32 | JmpRel8 | JmpRm64 | OtherCode

  datatype StopKind = StopReturn | StopIndirect | StopTerminal

  datatype Action =
    | Proceed
    | ConditionalTo(target: U64)
    | UnconditionalTo(target: U64)
    | Stop(kind: StopKind)

  datatype Instruction = Instruction(
    len: nat, invalid: bool, code: Code, nearTarget: U64,
    ripBase: bool, ipRelative: bool, ipRelativeAddress: U64, action: Action)

  type Decoder = (seq<Byte>, U64) -> Instruction

  /** The image and the metadata that recovery consults. */
  datatype Context = Context(
    layout: Layout, file: seq<Byte>, imageBase: U64, imports: set<U32>, policy: Policy, decode: Decoder)

  ghost predicate Bounded(decode: Decoder) {
    forall bytes: seq<Byte>, ip: U64 {:trigger decode(bytes, ip)} ::
      decode(bytes, ip).len <= MAX_INSTRUCTION_BYTES && decode(bytes, ip).len <= |bytes|
  }

  ghost predicate Valid(c: Context) {
    Accepted(c.layout) && |c.file| == c.layout.fileSize && Separated(c.policy.covered) && Bounded(c.decode)
  }

  datatype Target = Function(rva: U32) | ImportIat(iat: U32) | FunctionPointer(slot: U32, rva: U32)

  datatype Call = Call(caller: U32, site: U32, size: nat, target: Target)

  datatype Reference = Reference(caller: U32, site: U32, size: nat, target: U32)

  datatype Thunk = Thunk(rva: U32, size: nat, target: Target)

  // ----- decoding -----

  function VaToRva(c: Context, va: nat): Option<U32> {
    if c.imageBase <= va && va - c.imageBase < c.layout.sizeOfImage then Some(va - c.imageBase) else None
  }

  predicate Allows(p: Policy, rva: U32) {
    rva in p.knownStarts || !exists k :: 0 <= k < |p.covered| && Holds(p.covered[k], rva)
  }

  /** The 64-bit instruction pointer of an address. */
  function IpAt(c: Context, rva: nat): U64 { (c.imageBase + rva) % TWO_64 }

  /** The part of that definition acceptance depends on. */
  predicate IsIp(c: Context, rva: nat, ip: U64) { c.imageBase + rva < TWO_64 ==> ip == c.imageBase + rva }

  function NextIp(ip: U64, i: Instruction): U64 { (ip + i.len) % TWO_64 }

  /** FF /modrm with a 32-bit displacement, bare or with a REX.W prefix. */
  predicate ExactIndirect(raw: seq<Byte>, modrm: Byte) {
    || (|raw| == 6 && raw[0] == 0xff && raw[1] == modrm)
    || (|raw| == 7 && raw[0] == 0x48 && raw[1] == 0xff && raw[2] == modrm)
  }

  function ReadU64(c: Context, rva: nat): Option<U64> {
    var offset := Offset(c.layout, rva, 8);
    if offset.Some? && offset.value + 8 <= |c.file|
    then Some(LittleEndian64(c.file, offset.value)) else None
  }

  /** An internal address that may be a function. */
  predicate FunctionLike(c: Context, rva: U32) { Allows(c.policy, rva) && BackedExecutable(c.layout, rva, 1) }

  function DecodeIndirect(
    c: Context, i: Instruction, raw: seq<Byte>, modrm: Byte, rejected: Option<U32>): Option<Target>
  {
    if !ExactIndirect(raw, modrm) || !i.ipRelative then None
    else
      match VaToRva(c, i.ipRelativeAddress)
      case None => None
      case Some(slot) =>
        if slot in c.imports then Some(ImportIat(slot))
        else if !BackedReadOnly(c.layout, slot, 8) || ReadU64(c, slot).None? then None
        else
          match VaToRva(c, ReadU64(c, slot).value)
          case None => None
          case Some(rva) =>
            if rejected == Some(rva) || !FunctionLike(c, rva) then None else Some(FunctionPointer(slot, rva))
  }

  function DecodeCallTarget(c: Context, i: Instruction, raw: seq<Byte>, ip: U64): Option<Target> {
    if i.code.CallRel32? && |raw| == 5 && raw[0] == 0xe8 then
      if i.nearTarget == NextIp(ip, i) then None
      else
        match VaToRva(c, i.nearTarget)
        case None => None
        case Some(rva) => if FunctionLike(c, rva) then Some(Function(rva)) else None
    else if i.code.CallRm64? then DecodeIndirect(c, i, raw, 0x15, VaToRva(c, NextIp(ip, i)))
    else None
  }

  function DecodeThunkTarget(c: Context, source: U32, i: Instruction, raw: seq<Byte>): Option<Target> {
    if (i.code.JmpRel32? && |raw| == 5 && raw[0] == 0xe9) || (i.code.JmpRel8? && |raw| == 2 && raw[0] == 0xeb) then
      match VaToRva(c, i.nearTarget)
      case None => None
      case Some(rva) => if rva != source && FunctionLike(c, rva) then Some(Function(rva)) else None
    else if i.code.JmpRm64? then DecodeIndirect(c, i, raw, 0x25, Some(source))
    else None
  }

  /** The exact import call or jump is modelled as control flow, not as data. */
  predicate ModelledImport(c: Context, i: Instruction, raw: seq<Byte>, target: U32) {
    && ((i.code.CallRm64? && ExactIndirect(raw, 0x15)) || (i.code.JmpRm64? && ExactIndirect(raw, 0x25)))
    && target in c.imports
  }

  function DecodeReference(c: Context, caller: U32, site: U32, i: Instruction, raw: seq<Byte>): Option<Reference> {
    if !i.ripBase then None
    else
      match VaToRva(c, i.ipRelativeAddress)
      case None => None
      case Some(target) =>
        if ModelledImport(c, i, raw, target) || !BackedReadable(c.layout, target, 1) then None
        else Some(Reference(caller, site, i.len, target))
  }

  function LocalTarget(t: Target): Option<U32> {
    match t
    case Function(rva) => Some(rva)
    case FunctionPointer(_, rva) => Some(rva)
    case ImportIat(_) => None
  }

  // ----- what the validators demand of one record -----

  predicate TargetAccepted(c: Context, t: Target) {
    match t
    case Function(rva) => Allows(c.policy, rva) && ModelExecutable(c.layout, rva, 1)
    case ImportIat(iat) => iat in c.imports
    case FunctionPointer(slot, rva) =>
      && slot !in c.imports && ModelReadOnly(c.layout, slot, 8)
      && Allows(c.policy, rva) && ModelExecutable(c.layout, rva, 1)
  }

  predicate CallSizeAccepted(call: Call) {
    if call.target.Function? then call.size == 5 else call.size == 6 || call.size == 7
  }

  predicate ThunkSizeAccepted(t: Thunk) {
    if t.target.Function? then t.size == 2 || t.size == 5 else t.size == 6 || t.size == 7
  }

  predicate InFunction(c: Context, functions: seq<RuntimeFunction>, caller: U32, site: U32, size: nat) {
    exists f :: f in functions && f.begin == caller && f.begin <= site && site + size <= f.end
  }

  predicate InBackedFunction(c: Context, functions: seq<RuntimeFunction>, caller: U32, site: U32, size: nat) {
    exists f :: f in functions && f.begin == caller && f.begin <= site && site + size <= f.end
      && ModelExecutable(c.layout, f.begin, f.end - f.begin)
  }

  predicate CallAccepted(c: Context, functions: seq<RuntimeFunction>, references: set<Reference>, call: Call) {
    && call.site + call.size < TWO_32
    && InBackedFunction(c, functions, call.caller, call.site, call.size)
    && LocalTarget(call.target) != Some(call.site + call.size)
    && TargetAccepted(c, call.target)
    && (call.target.FunctionPointer? ==> Reference(call.caller, call.site, call.size, call.target.slot) in references)
    && CallSizeAccepted(call)
  }

  predicate ReferenceAccepted(c: Context, functions: seq<RuntimeFunction>, r: Reference) {
    && 1 <= r.size <= MAX_INSTRUCTION_BYTES && r.site + r.size < TWO_32
    && InFunction(c, functions, r.caller, r.site, r.size) && ModelExecutable(c.layout, r.site, r.size)
    && r.target < c.layout.sizeOfImage && ModelReadable(c.layout, r.target, 1)
  }

  predicate ThunkAccepted(c: Context, t: Thunk) {
    && ModelExecutable(c.layout, t.rva, t.size)
    && TargetAccepted(c, t.target)
    && LocalTarget(t.target) != Some(t.rva)
    && ThunkSizeAccepted(t)
  }

  // ----- decoding produces only acceptable targets -----

  lemma NextIpAdds(ip: U64, i: Instruction)
    requires ip + i.len < TWO_64
    ensures NextIp(ip, i) == ip + i.len
  {
  }

  lemma FunctionLikeIsAccepted(c: Context, rva: U32)
    requires Valid(c) && FunctionLike(c, rva)
    ensures Allows(c.policy, rva) && ModelExecutable(c.layout, rva, 1)
  {
    ExecutableDefinitionsAgree(c.layout, rva, 1);
  }

  lemma IndirectIsAccepted(c: Context, i: Instruction, raw: seq<Byte>, modrm: Byte, rejected: Option<U32>)
    requires Valid(c) && DecodeIndirect(c, i, raw, modrm, rejected).Some?
    ensures var t := DecodeIndirect(c, i, raw, modrm, rejected).value;
            && TargetAccepted(c, t) && !t.Function? && (|raw| == 6 || |raw| == 7)
            && (t.FunctionPointer? ==> VaToRva(c, i.ipRelativeAddress) == Some(t.slot) && rejected != Some(t.rva))
  {
    var t := DecodeIndirect(c, i, raw, modrm, rejected).value;
    if t.FunctionPointer? {
      BackedDefinitionsAgree(c.layout, t.slot, 8);
      FunctionLikeIsAccepted(c, t.rva);
    }
  }

  /** A decoded call has an acceptable target of the right size that is not the next instruction. */
  lemma CallTargetIsAccepted(c: Context, i: Instruction, raw: seq<Byte>, site: U32, ip: U64)
    requires Valid(c) && |raw| == i.len && IsIp(c, site, ip)
    requires DecodeCallTarget(c, i, raw, ip).Some?
    ensures var t := DecodeCallTarget(c, i, raw, ip).value;
            && TargetAccepted(c, t) && LocalTarget(t) != Some(site + i.len)
            && (if t.Function? then i.len == 5 else i.len == 6 || i.len == 7)
            && (t.FunctionPointer? ==> i.code.CallRm64? && VaToRva(c, i.ipRelativeAddress) == Some(t.slot))
  {
    var t := DecodeCallTarget(c, i, raw, ip).value;
    if i.code.CallRel32? && |raw| == 5 && raw[0] == 0xe8 {
      FunctionLikeIsAccepted(c, t.rva);
      if c.imageBase + site + i.len < TWO_64 { NextIpAdds(ip, i); }
    } else {
      IndirectIsAccepted(c, i, raw, 0x15, VaToRva(c, NextIp(ip, i)));
      if t.FunctionPointer? { PointerIsNotNext(c, i, raw, site, ip); }
    }
  }

  /** The rejected pointer target is the address after the call even where that address is the
      end of the image or of the address space. */
  lemma PointerIsNotNext(c: Context, i: Instruction, raw: seq<Byte>, site: U32, ip: U64)
    requires IsIp(c, site, ip)
    requires var t := DecodeIndirect(c, i, raw, 0x15, VaToRva(c, NextIp(ip, i))); t.Some? && t.value.FunctionPointer?
    ensures DecodeIndirect(c, i, raw, 0x15, VaToRva(c, NextIp(ip, i))).value.rva != site + i.len
  {
    if c.imageBase + site + i.len < TWO_64 { NextIpAdds(ip, i); }
  }

  /** A decoded thunk has an acceptable target of the right size other than itself. */
  lemma ThunkTargetIsAccepted(c: Context, source: U32, i: Instruction, raw: seq<Byte>)
    requires Valid(c) && |raw| == i.len && DecodeThunkTarget(c, source, i, raw).Some?
    requires ModelExecutable(c.layout, source, i.len)
    ensures ThunkAccepted(c, Thunk(source, i.len, DecodeThunkTarget(c, source, i, raw).value))
  {
    var t := DecodeThunkTarget(c, source, i, raw).value;
    if t.Function? {
      FunctionLikeIsAccepted(c, t.rva);
    } else {
      IndirectIsAccepted(c, i, raw, 0x25, Some(source));
    }
  }

  lemma ReferenceTargetIsAccepted(c: Context, caller: U32, site: U32, i: Instruction, raw: seq<Byte>)
    requires Valid(c) && DecodeReference(c, caller, site, i, raw).Some?
    ensures var r := DecodeReference(c, caller, site, i, raw).value;
            && r.caller == caller && r.site == site && r.size == i.len
            && r.target < c.layout.sizeOfImage && ModelReadable(c.layout, r.target, 1)
  {
    BackedDefinitionsAgree(c.layout, DecodeReference(c, caller, site, i, raw).value.target, 1);
  }

  /** A read-only slot is readable. */
  lemma SlotIsReadable(c: Context, slot: U32)
    requires Valid(c) && BackedReadOnly(c.layout, slot, 8)
    ensures BackedReadable(c.layout, slot, 1)
  {
    hide Accepted;
    var s :| s in c.layout.sections && ReadOnlyData(s) && InBacked(s, slot, 8);
    assert InBacked(s, slot, 1);
    assert ModelReadable(c.layout, slot, 1);
    BackedDefinitionsAgree(c.layout, slot, 1);
  }

  /** A pointer call is decoded beside the reference to its slot exactly when its memory operand is
      relative to RIP; a pointer-relative operand over another register has none. */
  lemma PointerCallHasReference(c: Context, i: Instruction, raw: seq<Byte>, caller: U32, site: U32, ip: U64)
    requires Valid(c)
    requires DecodeCallTarget(c, i, raw, ip).Some? && DecodeCallTarget(c, i, raw, ip).value.FunctionPointer?
    ensures var slot := DecodeCallTarget(c, i, raw, ip).value.slot;
            DecodeReference(c, caller, site, i, raw) == Some(Reference(caller, site, i.len, slot)) <==> i.ripBase
  {
    hide Valid;
    SlotIsReadable(c, DecodeCallTarget(c, i, raw, ip).value.slot);
    hide BackedReadable, BackedReadOnly, FunctionLike;
  }

  /** The indexed query answers the same rule. */
  method PolicyAllows(p: Policy, rva: U32) returns (allowed: bool)
    requires Separated(p.covered)
    ensures allowed <==> Allows(p, rva)
  {
    allowed := AllowsFunctionTarget(p, rva);
  }
}
