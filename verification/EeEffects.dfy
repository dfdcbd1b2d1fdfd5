/** The observer's constant lattice and its per-word transfer, with the two facts every
    later result rests on: the transfer is sound for the reference semantics of each word
    the decoder accepts, and it is monotone in the entry state, traps included. */
module EeEffects {
  import opened Common
  import opened R5900

  // ----- the flat lattice of 32 registers -----

  datatype Constant = Unknown | Exact(value: U64)

  type State = s: seq<Constant> | |s| == 32 && s[0] == Exact(0)
    witness [Exact(0)] + seq(31, i => Unknown)

  function UnknownState(): State { [Exact(0)] + seq(31, i => Unknown) }

  function Set(state: State, register: nat, value: Constant): State
    requires register < 32
  {
    if register == 0 then state else state[register := value]
  }

  /** `b` claims no more about a register than `a` does. */
  predicate WeakerValue(a: Constant, b: Constant) { b.Exact? ==> a == b }

  /** `weak` holds whenever `strong` does. */
  predicate Weaker(strong: State, weak: State) {
    forall i :: 0 <= i < 32 ==> WeakerValue(strong[i], weak[i])
  }

  /** The concrete registers are among those the abstract state describes. */
  predicate Describes(state: State, x: Registers) {
    forall i :: 0 <= i < 32 && state[i].Exact? ==> x[i] == state[i].value
  }

  function JoinValue(a: Constant, b: Constant): Constant { if a == b then a else Unknown }

  function Join(a: State, b: State): State { seq(32, i requires 0 <= i < 32 => JoinValue(a[i], b[i])) }

  /** Join is the least upper bound of two states, and re-joining changes nothing. */
  lemma JoinIsLeastUpperBound(a: State, b: State)
    ensures Weaker(a, Join(a, b)) && Weaker(b, Join(a, b))
    ensures forall c :: Weaker(a, c) && Weaker(b, c) ==> Weaker(Join(a, b), c)
    ensures Weaker(b, a) <==> Join(a, b) == a
  {
    if Weaker(b, a) {
      assert forall i :: 0 <= i < 32 ==> WeakerValue(b[i], a[i]) && Join(a, b)[i] == a[i];
    }
  }

  lemma WeakerIsTransitive(a: State, b: State, c: State)
    requires Weaker(a, b) && Weaker(b, c)
    ensures Weaker(a, c)
  {
    assert forall i :: 0 <= i < 32 ==> WeakerValue(a[i], b[i]) && WeakerValue(b[i], c[i]);
  }

  lemma WeakerIsAntisymmetric(a: State, b: State)
    requires Weaker(a, b) && Weaker(b, a)
    ensures a == b
  {
    assert forall i :: 0 <= i < 32 ==> WeakerValue(a[i], b[i]) && WeakerValue(b[i], a[i]) && a[i] == b[i];
  }

  lemma WeakerDescribesMore(strong: State, weak: State, x: Registers)
    requires Weaker(strong, weak) && Describes(strong, x)
    ensures Describes(weak, x)
  {
    assert forall i :: 0 <= i < 32 ==> WeakerValue(strong[i], weak[i]);
  }

  lemma UnknownIsWeakest(state: State)
    ensures Weaker(state, UnknownState())
    ensures Weaker(UnknownState(), state) ==> state == UnknownState()
  {
    if Weaker(UnknownState(), state) { WeakerIsAntisymmetric(state, UnknownState()); }
  }

  /** In-place join of one entry state: reports a change exactly when the incoming state is
      not already covered, and leaves the least upper bound behind. */
  method JoinFrom(existing: State, incoming: State) returns (joined: State, changed: bool)
    ensures joined == Join(existing, incoming)
    ensures changed <==> joined != existing
    ensures changed <==> !Weaker(incoming, existing)
  {
    joined, changed := existing, false;
    for index := 1 to 32
      invariant forall i :: 0 <= i < index ==> joined[i] == JoinValue(existing[i], incoming[i])
      invariant forall i :: index <= i < 32 ==> joined[i] == existing[i]
      invariant changed <==> exists i :: 0 <= i < index && joined[i] != existing[i]
    {
      var value := if joined[index] == incoming[index] then joined[index] else Unknown;
      if value != joined[index] {
        joined, changed := joined[index := value], true;
        assert joined[index] != existing[index];
      }
    }
    assert joined == Join(existing, incoming);
    JoinIsLeastUpperBound(existing, incoming);
  }

  // ----- what one accepted word does -----

  datatype PureOp =
    | Bits(op: BitOp) | ShiftLow5(op: BitOp) | ShiftLow6(op: BitOp)
    | AddWord | SubWord | AddDouble | SubDouble | LessSigned | LessUnsigned

  datatype Width = Word32 | Double64

  /** The closed list of effects the raw refinement distinguishes. */
  datatype Action =
    | Load(destination: nat)
    | NoWrite
    | Forget
    | WriteUnknown(destination: nat)
    | WriteConstant(destination: nat, value: U64)
    | Immediate(destination: nat, source: nat, pure: PureOp, operand: U64)
    | Binary(destination: nat, left: nat, right: nat, pure: PureOp)
    | CheckedImmediate(destination: nat, source: nat, immediate: int, width: Width)
    | Checked(destination: nat, left: nat, right: nat, width: Width, subtract: bool)
    | Move(destination: nat, source: nat, condition: nat, ifNonzero: bool)
  {
    predicate Valid() {
      match this
      case Load(d) => d < 32
      case NoWrite => true
      case Forget => true
      case WriteUnknown(d) => d < 32
      case WriteConstant(d, _) => d < 32
      case Immediate(d, s, _, _) => d < 32 && s < 32
      case Binary(d, l, r, _) => d < 32 && l < 32 && r < 32
      case CheckedImmediate(d, s, i, _) => d < 32 && s < 32 && -0x8000 <= i < 0x8000
      case Checked(d, l, r, _, _) => d < 32 && l < 32 && r < 32
      case Move(d, s, c, _) => d < 32 && s < 32 && c < 32
    }
  }

  type ValidAction = action: Action | action.Valid() witness NoWrite

  datatype Access = Access(base: nat, valueRegister: nat, offset: int, form: Form, width: nat)

  predicate Reads(form: Form) { form == ScalarLoad || form == MergeLoadLeft || form == MergeLoadRight }

  /** Scalar and merge memory forms recognised from the raw opcode. */
  function MemoryAccess(word: Word): Option<Access> {
    var shape: Option<(Form, nat)> :=
      match word.opcode
      case 0x1a => Some((MergeLoadLeft, 8))
      case 0x1b => Some((MergeLoadRight, 8))
      case 0x1e => Some((ScalarLoad, 16))
      case 0x1f => Some((ScalarStore, 16))
      case 0x20 => Some((ScalarLoad, 1))
      case 0x24 => Some((ScalarLoad, 1))
      case 0x21 => Some((ScalarLoad, 2))
      case 0x25 => Some((ScalarLoad, 2))
      case 0x22 => Some((MergeLoadLeft, 4))
      case 0x23 => Some((ScalarLoad, 4))
      case 0x27 => Some((ScalarLoad, 4))
      case 0x26 => Some((MergeLoadRight, 4))
      case 0x28 => Some((ScalarStore, 1))
      case 0x29 => Some((ScalarStore, 2))
      case 0x2a => Some((MergeStoreLeft, 4))
      case 0x2b => Some((ScalarStore, 4))
      case 0x2c => Some((MergeStoreLeft, 8))
      case 0x2d => Some((MergeStoreRight, 8))
      case 0x2e => Some((MergeStoreRight, 4))
      case 0x37 => Some((ScalarLoad, 8))
      case 0x3f => Some((ScalarStore, 8))
      case _ => None;
    match shape
    case None => None
    case Some((form, width)) => Some(Access(word.rs, word.rt, Signed(word), form, width))
  }

  function SignExtendU32(value: U32): U64 {
    if value < TWO_31 then value else value + (TWO_64 - TWO_32)
  }

  function SignExtendI16(value: int): U64
    requires -0x8000 <= value < 0x8000
  {
    if value < 0 then value + TWO_64 else value
  }

  /** The raw refinement of one word that the selected decoder accepted as sequential. */
  function Classify(word: Word): (action: ValidAction)
  {
    var s, t := word.rs, word.rt;
    match MemoryAccess(word)
    case Some(access) => if Reads(access.form) then Load(t) else NoWrite
    case None =>
      match word.opcode
      case 0x00 => ClassifySpecial(word)
      case 0x01 => NoWrite
      case 0x08 => CheckedImmediate(t, s, Signed(word), Word32)
      case 0x09 => Immediate(t, s, AddWord, SignExtendI16(Signed(word)))
      case 0x0a => Immediate(t, s, LessSigned, SignExtendI16(Signed(word)))
      case 0x0b => Immediate(t, s, LessUnsigned, SignExtendI16(Signed(word)))
      case 0x0c => Immediate(t, s, Bits(BitAnd), word.logical)
      case 0x0d => Immediate(t, s, Bits(BitOr), word.logical)
      case 0x0e => Immediate(t, s, Bits(BitXor), word.logical)
      case 0x0f => WriteConstant(t, SignExtendU32(word.logical * 0x1_0000))
      case 0x18 => CheckedImmediate(t, s, Signed(word), Double64)
      case 0x19 => Immediate(t, s, AddDouble, SignExtendI16(Signed(word)))
      case 0x2f => NoWrite
      case 0x33 => NoWrite
      case _ => Forget
  }

  function ClassifySpecial(word: Word): (action: ValidAction)
  {
    var s, t, d := word.rs, word.rt, word.rd;
    match word.funct
    case 0x20 => Checked(d, s, t, Word32, false)
    case 0x22 => Checked(d, s, t, Word32, true)
    case 0x2c => Checked(d, s, t, Double64, false)
    case 0x2e => Checked(d, s, t, Double64, true)
    case 0x00 => Immediate(d, t, Bits(Shl32), word.sa)
    case 0x02 => Immediate(d, t, Bits(Shr32), word.sa)
    case 0x03 => Immediate(d, t, Bits(Sar32), word.sa)
    case 0x04 => Binary(d, t, s, ShiftLow5(Shl32))
    case 0x06 => Binary(d, t, s, ShiftLow5(Shr32))
    case 0x07 => Binary(d, t, s, ShiftLow5(Sar32))
    case 0x0a => Move(d, s, t, false)
    case 0x0b => Move(d, s, t, true)
    case 0x10 => WriteUnknown(d)
    case 0x12 => WriteUnknown(d)
    case 0x28 => WriteUnknown(d)
    case 0x14 => Binary(d, t, s, ShiftLow6(Shl64))
    case 0x16 => Binary(d, t, s, ShiftLow6(Shr64))
    case 0x17 => Binary(d, t, s, ShiftLow6(Sar64))
    case 0x18 => WriteUnknown(d)
    case 0x19 => WriteUnknown(d)
    case 0x21 => Binary(d, s, t, AddWord)
    case 0x23 => Binary(d, s, t, SubWord)
    case 0x24 => Binary(d, s, t, Bits(BitAnd))
    case 0x25 => Binary(d, s, t, Bits(BitOr))
    case 0x26 => Binary(d, s, t, Bits(BitXor))
    case 0x27 => Binary(d, s, t, Bits(BitNor))
    case 0x2a => Binary(d, s, t, LessSigned)
    case 0x2b => Binary(d, s, t, LessUnsigned)
    case 0x2d => Binary(d, s, t, AddDouble)
    case 0x2f => Binary(d, s, t, SubDouble)
    case 0x38 => Immediate(d, t, Bits(Shl64), word.sa)
    case 0x3a => Immediate(d, t, Bits(Shr64), word.sa)
    case 0x3b => Immediate(d, t, Bits(Sar64), word.sa)
    case 0x3c => Immediate(d, t, Bits(Shl64), word.sa + 32)
    case 0x3e => Immediate(d, t, Bits(Shr64), word.sa + 32)
    case 0x3f => Immediate(d, t, Bits(Sar64), word.sa + 32)
    case 0x0f => NoWrite
    case 0x11 => NoWrite
    case 0x13 => NoWrite
    case 0x1a => NoWrite
    case 0x1b => NoWrite
    case 0x29 => NoWrite
    case _ => Forget
  }

  /** The value functions the lattice folds over exact operands. */
  function Pure(alu: Alu, pure: PureOp, a: U64, b: U64): U64 {
    match pure
    case Bits(op) => alu(op, a, b)
    case ShiftLow5(op) => alu(op, a, Low32(b) % 32)
    case ShiftLow6(op) => alu(op, a, Low32(b) % 64)
    case AddWord => SignExtendU32((Low32(a) + Low32(b)) % TWO_32)
    case SubWord => SignExtendU32((Low32(a) - Low32(b)) % TWO_32)
    case AddDouble => (a + b) % TWO_64
    case SubDouble => (a - b) % TWO_64
    case LessSigned => Bool64(AsI64(a) < AsI64(b))
    case LessUnsigned => Bool64(a < b)
  }

  function Operand(width: Width, value: U64): int {
    if width == Word32 then AsI32(Low32(value)) else AsI64(value)
  }

  function Combine(left: int, right: int, subtract: bool): int {
    if subtract then left - right else left + right
  }

  predicate InWidth(width: Width, value: int) {
    if width == Word32 then -TWO_31 <= value < TWO_31 else -TWO_63 <= value < TWO_63
  }

  datatype Transfer = DefiniteTrap | Continue(state: State)

  function MapExact(alu: Alu, pure: PureOp, a: Constant, b: U64): Constant {
    if a.Exact? then Exact(Pure(alu, pure, a.value, b)) else Unknown
  }

  function BinaryExact(alu: Alu, pure: PureOp, a: Constant, b: Constant): Constant {
    if a.Exact? && b.Exact? then Exact(Pure(alu, pure, a.value, b.value)) else Unknown
  }

  /** Checked arithmetic: unknown operands give an unknown value, exact operands either a
      value or a definite overflow. */
  function CheckedExact(state: State, destination: nat, width: Width, operands: Option<int>): Transfer
    requires destination < 32
  {
    match operands
    case None => Continue(Set(state, destination, Unknown))
    case Some(value) =>
      if InWidth(width, value) then Continue(Set(state, destination, Exact(FromI64(value)))) else DefiniteTrap
  }

  function MovedValue(condition: Constant, source: Constant, previous: Constant, ifNonzero: bool): Constant {
    if condition.Exact? && (condition.value != 0) == ifNonzero then source
    else if condition.Exact? then previous
    else if previous == source then previous
    else Unknown
  }

  /** Abstract effect of one classified word on the register constants. */
  function Apply(alu: Alu, action: ValidAction, state: State): Transfer
  {
    match action
    case Load(d) => Continue(Set(state, d, Unknown))
    case NoWrite => Continue(state)
    case Forget => Continue(UnknownState())
    case WriteUnknown(d) => Continue(Set(state, d, Unknown))
    case WriteConstant(d, value) => Continue(Set(state, d, Exact(value)))
    case Immediate(d, s, pure, operand) => Continue(Set(state, d, MapExact(alu, pure, state[s], operand)))
    case Binary(d, l, r, pure) => Continue(Set(state, d, BinaryExact(alu, pure, state[l], state[r])))
    case CheckedImmediate(d, s, immediate, width) =>
      CheckedExact(state, d, width,
        if state[s].Exact? then Some(Operand(width, state[s].value) + immediate) else None)
    case Checked(d, l, r, width, subtract) =>
      CheckedExact(state, d, width,
        if state[l].Exact? && state[r].Exact?
        then Some(Combine(Operand(width, state[l].value), Operand(width, state[r].value), subtract))
        else None)
    case Move(d, s, c, ifNonzero) =>
      Continue(Set(state, d, MovedValue(state[c], state[s], state[d], ifNonzero)))
  }

  /** The observer's raw readings of an accepted word: its action on the constants, the memory
      access it performs, and the register whose result it may publish as an address. */
  datatype Tables = Tables(action: Word -> ValidAction, access: Word -> Option<Access>, published: Word -> Option<nat>)

  /** The register whose exact result a word may publish as a materialised address; the two
      immediate comparisons and all loads publish nothing. */
  function Published(word: Word): Option<nat> {
    if word.opcode == 0x0a || word.opcode == 0x0b then None
    else
      match Classify(word)
      case WriteConstant(d, _) => Some(d)
      case Immediate(d, _, _, _) => Some(d)
      case Binary(d, _, _, _) => Some(d)
      case CheckedImmediate(d, _, _, _) => Some(d)
      case Checked(d, _, _, _, _) => Some(d)
      case Move(d, _, _, _) => Some(d)
      case _ => None
  }

  /** The closed v1 tables. */
  function BundledTables(): Tables {
    Tables((w: Word) => Classify(w), (w: Word) => MemoryAccess(w), (w: Word) => Published(w))
  }

  // ----- monotonicity -----

  lemma SetIsMonotone(strong: State, weak: State, register: nat, a: Constant, b: Constant)
    requires register < 32 && Weaker(strong, weak) && WeakerValue(a, b)
    ensures Weaker(Set(strong, register, a), Set(weak, register, b))
  {
    assert forall i :: 0 <= i < 32 ==> WeakerValue(strong[i], weak[i]);
  }

  /** Degrading the state never introduces a trap and only weakens the result. */
  lemma ApplyIsMonotone(alu: Alu, action: ValidAction, strong: State, weak: State)
    requires Weaker(strong, weak)
    ensures Apply(alu, action, strong).Continue? ==>
              && Apply(alu, action, weak).Continue?
              && Weaker(Apply(alu, action, strong).state, Apply(alu, action, weak).state)
  {
    match action
    case Load(d) => SetIsMonotone(strong, weak, d, Unknown, Unknown);
    case NoWrite =>
    case Forget =>
    case WriteUnknown(d) => SetIsMonotone(strong, weak, d, Unknown, Unknown);
    case WriteConstant(d, value) => SetIsMonotone(strong, weak, d, Exact(value), Exact(value));
    case Immediate(d, s, pure, operand) =>
      assert WeakerValue(strong[s], weak[s]);
      SetIsMonotone(strong, weak, d, MapExact(alu, pure, strong[s], operand), MapExact(alu, pure, weak[s], operand));
    case Binary(d, l, r, pure) =>
      assert WeakerValue(strong[l], weak[l]) && WeakerValue(strong[r], weak[r]);
      SetIsMonotone(strong, weak, d,
        BinaryExact(alu, pure, strong[l], strong[r]), BinaryExact(alu, pure, weak[l], weak[r]));
    case CheckedImmediate(d, s, immediate, width) =>
      assert WeakerValue(strong[s], weak[s]);
      CheckedIsMonotone(strong, weak, d, width,
        if strong[s].Exact? then Some(Operand(width, strong[s].value) + immediate) else None,
        if weak[s].Exact? then Some(Operand(width, weak[s].value) + immediate) else None);
    case Checked(d, l, r, width, subtract) =>
      assert WeakerValue(strong[l], weak[l]) && WeakerValue(strong[r], weak[r]);
      CheckedIsMonotone(strong, weak, d, width,
        if strong[l].Exact? && strong[r].Exact?
        then Some(Combine(Operand(width, strong[l].value), Operand(width, strong[r].value), subtract)) else None,
        if weak[l].Exact? && weak[r].Exact?
        then Some(Combine(Operand(width, weak[l].value), Operand(width, weak[r].value), subtract)) else None);
    case Move(d, s, c, ifNonzero) =>
      assert WeakerValue(strong[s], weak[s]) && WeakerValue(strong[c], weak[c]) && WeakerValue(strong[d], weak[d]);
      SetIsMonotone(strong, weak, d,
        MovedValue(strong[c], strong[s], strong[d], ifNonzero), MovedValue(weak[c], weak[s], weak[d], ifNonzero));
  }

  lemma CheckedIsMonotone(strong: State, weak: State, d: nat, width: Width, a: Option<int>, b: Option<int>)
    requires d < 32 && Weaker(strong, weak) && (b.Some? ==> a == b)
    ensures CheckedExact(strong, d, width, a).Continue? ==>
              && CheckedExact(weak, d, width, b).Continue?
              && Weaker(CheckedExact(strong, d, width, a).state, CheckedExact(weak, d, width, b).state)
  {
    if CheckedExact(strong, d, width, a).Continue? {
      var va := if a.Some? then Exact(FromI64(a.value)) else Unknown;
      var vb := if b.Some? then Exact(FromI64(b.value)) else Unknown;
      SetIsMonotone(strong, weak, d, va, vb);
    }
  }

  // ----- soundness -----

  /** Concrete reading of a classified action. */
  function Perform(alu: Alu, action: ValidAction, x: Registers, oracle: Oracle): Effect
  {
    match action
    case Load(d) => Next(Write(x, d, oracle.value))
    case NoWrite => Next(x)
    case Forget => Next(oracle.registers)
    case WriteUnknown(d) => Next(Write(x, d, oracle.value))
    case WriteConstant(d, value) => Next(Write(x, d, value))
    case Immediate(d, s, pure, operand) => Next(Write(x, d, Pure(alu, pure, x[s], operand)))
    case Binary(d, l, r, pure) => Next(Write(x, d, Pure(alu, pure, x[l], x[r])))
    case CheckedImmediate(d, s, immediate, width) =>
      PerformChecked(x, d, width, Operand(width, x[s]) + immediate)
    case Checked(d, l, r, width, subtract) =>
      PerformChecked(x, d, width, Combine(Operand(width, x[l]), Operand(width, x[r]), subtract))
    case Move(d, s, c, ifNonzero) => Next(if (x[c] != 0) == ifNonzero then Write(x, d, x[s]) else x)
  }

  function PerformChecked(x: Registers, d: nat, width: Width, value: int): Effect
    requires d < 32
  {
    if InWidth(width, value) then Next(Write(x, d, FromI64(value))) else Trap
  }

  /** Unsigned wrap-and-sign-extend is the architectural signed 32-bit wrap. */
  lemma WordArithmeticWraps(alu: Alu, a: U64, b: U64)
    ensures Pure(alu, AddWord, a, b) == FromI64(WrapI32(AsI32(Low32(a)) + AsI32(Low32(b))))
    ensures Pure(alu, SubWord, a, b) == FromI64(WrapI32(AsI32(Low32(a)) - AsI32(Low32(b))))
  {
    var ka, kb := if Low32(a) < TWO_31 then 0 else 1, if Low32(b) < TWO_31 then 0 else 1;
    WrapsTo(Low32(a) + Low32(b), AsI32(Low32(a)) + AsI32(Low32(b)), ka + kb);
    WrapsTo(Low32(a) - Low32(b), AsI32(Low32(a)) - AsI32(Low32(b)), ka - kb);
  }

  /** Congruent sums of small magnitude wrap to the same sign-extended word. */
  lemma WrapsTo(unsigned: int, signed: int, k: int)
    requires -1 <= k <= 2 && unsigned == signed + k * TWO_32
    ensures SignExtendU32(unsigned % TWO_32) == FromI64(WrapI32(signed))
  {
    var q, r := signed / TWO_32, signed % TWO_32;
    Remainder(q + k, r);
    Remainder(if r < TWO_31 then q else q + 1, if r < TWO_31 then r + TWO_31 else r - TWO_31);
  }

  lemma Remainder(q: int, r: int)
    requires 0 <= r < TWO_32
    ensures (q * TWO_32 + r) % TWO_32 == r
  {
  }

  /** Sign-extended 16-bit immediates read back as themselves in both widths. */
  lemma ImmediateReadsBack(imm: int)
    requires -0x8000 <= imm < 0x8000
    ensures AsI32(Low32(SignExtendI16(imm))) == imm
    ensures AsI64(SignExtendI16(imm)) == imm
    ensures SignExtendI16(imm) == FromI64(imm)
  {
  }

  /** Adding a sign-extended immediate is adding the signed immediate, in both widths. */
  lemma ImmediateArithmeticWraps(alu: Alu, a: U64, imm: int)
    requires -0x8000 <= imm < 0x8000
    ensures Pure(alu, AddWord, a, SignExtendI16(imm)) == FromI64(WrapI32(AsI32(Low32(a)) + imm))
    ensures Pure(alu, AddDouble, a, SignExtendI16(imm)) == (a + imm) % TWO_64
  {
    ImmediateReadsBack(imm);
    WordArithmeticWraps(alu, a, SignExtendI16(imm));
    OneTurn(a + imm);
    hide WrapI32, AsI32, Low32, FromI64;
  }

  lemma OneTurn(value: int)
    ensures (value + TWO_64) % TWO_64 == value % TWO_64
  {
  }

  lemma Low32KeepsShiftAmounts(value: U64)
    ensures Low32(value) % 32 == value % 32 && Low32(value) % 64 == value % 64
  {
    var q, r := value / TWO_32, value % TWO_32;
    SameRemainder(0x400_0000 * q, 64, r);
    SameRemainder(0x800_0000 * q, 32, r);
  }

  lemma SameRemainder(q: nat, n: nat, r: nat)
    requires n == 32 || n == 64
    ensures (n * q + r) % n == r % n
  {
    var k, m := r / n, r % n;
    assert n * q + r == n * (q + k) + m;
  }

  /** LUI: shifting the unsigned immediate and sign-extending is the signed shift. */
  lemma UpperImmediate(word: Word)
    ensures SignExtendU32(word.logical * 0x1_0000) == FromI64(Signed(word) * 0x1_0000)
  {
  }

  function ShiftAction(op: ShiftOp, word: Word): ValidAction {
    var s, t, d := word.rs, word.rt, word.rd;
    match op
    case Sll => Immediate(d, t, Bits(Shl32), word.sa)
    case Srl => Immediate(d, t, Bits(Shr32), word.sa)
    case Sra => Immediate(d, t, Bits(Sar32), word.sa)
    case Sllv => Binary(d, t, s, ShiftLow5(Shl32))
    case Srlv => Binary(d, t, s, ShiftLow5(Shr32))
    case Srav => Binary(d, t, s, ShiftLow5(Sar32))
    case Dsllv => Binary(d, t, s, ShiftLow6(Shl64))
    case Dsrlv => Binary(d, t, s, ShiftLow6(Shr64))
    case Dsrav => Binary(d, t, s, ShiftLow6(Sar64))
    case Dsll => Immediate(d, t, Bits(Shl64), word.sa)
    case Dsrl => Immediate(d, t, Bits(Shr64), word.sa)
    case Dsra => Immediate(d, t, Bits(Sar64), word.sa)
    case Dsll32 => Immediate(d, t, Bits(Shl64), word.sa + 32)
    case Dsrl32 => Immediate(d, t, Bits(Shr64), word.sa + 32)
    case Dsra32 => Immediate(d, t, Bits(Sar64), word.sa + 32)
  }

  lemma ShiftAgrees(alu: Alu, op: ShiftOp, word: Word, x: Registers, oracle: Oracle)
    requires Encodes(ShiftEncoding(op), word)
    ensures ExecuteShift(alu, op, word, x) == Perform(alu, Classify(word), x, oracle)
  {
    hide Perform, ExecuteShift;
    assert Classify(word) == ShiftAction(op, word);
    ShiftValue(alu, op, word, x, oracle);
  }

  lemma ShiftValue(alu: Alu, op: ShiftOp, word: Word, x: Registers, oracle: Oracle)
    ensures ExecuteShift(alu, op, word, x) == Perform(alu, ShiftAction(op, word), x, oracle)
  {
    hide Low32;
    Low32KeepsShiftAmounts(x[word.rs]);
  }

  lemma TrappingAgrees(alu: Alu, op: TrappingOp, word: Word, x: Registers, oracle: Oracle)
    requires Encodes(TrappingEncoding(op), word)
    ensures ExecuteTrapping(op, word, x) == Perform(alu, Classify(word), x, oracle)
  {
    hide Write, Pure, Low32, AsI32, AsI64, SignExtendI16, SignExtendU32;
  }

  function WrappingAction(op: WrappingOp, word: Word): ValidAction {
    match op
    case Addu => Binary(word.rd, word.rs, word.rt, AddWord)
    case Subu => Binary(word.rd, word.rs, word.rt, SubWord)
    case Addiu => Immediate(word.rt, word.rs, AddWord, SignExtendI16(Signed(word)))
    case Daddu => Binary(word.rd, word.rs, word.rt, AddDouble)
    case Dsubu => Binary(word.rd, word.rs, word.rt, SubDouble)
    case Daddiu => Immediate(word.rt, word.rs, AddDouble, SignExtendI16(Signed(word)))
  }

  lemma WrappingAgrees(alu: Alu, op: WrappingOp, word: Word, x: Registers, oracle: Oracle)
    requires Encodes(WrappingEncoding(op), word)
    ensures ExecuteWrapping(op, word, x) == Perform(alu, Classify(word), x, oracle)
  {
    hide Perform, ExecuteWrapping;
    assert Classify(word) == WrappingAction(op, word);
    WrappingValue(alu, op, word, x, oracle);
  }

  lemma WrappingValue(alu: Alu, op: WrappingOp, word: Word, x: Registers, oracle: Oracle)
    ensures ExecuteWrapping(op, word, x) == Perform(alu, WrappingAction(op, word), x, oracle)
  {
    match op
    case Addu => WordArithmeticWraps(alu, x[word.rs], x[word.rt]);
    case Subu => WordArithmeticWraps(alu, x[word.rs], x[word.rt]);
    case Addiu => ImmediateArithmeticWraps(alu, x[word.rs], Signed(word));
    case Daddiu => ImmediateArithmeticWraps(alu, x[word.rs], Signed(word));
    case Daddu =>
    case Dsubu =>
  }

  lemma LogicAgrees(alu: Alu, op: LogicOp, word: Word, x: Registers, oracle: Oracle)
    requires Encodes(LogicEncoding(op), word)
    ensures ExecuteLogic(alu, op, word, x) == Perform(alu, Classify(word), x, oracle)
  {
    hide Write, PerformChecked, Signed, SignExtendI16, SignExtendU32, Combine, Operand;
  }

  lemma CompareAgrees(alu: Alu, op: CompareOp, word: Word, x: Registers, oracle: Oracle)
    requires Encodes(CompareEncoding(op), word)
    ensures ExecuteCompare(op, word, x) == Perform(alu, Classify(word), x, oracle)
  {
    hide Write, PerformChecked, SignExtendI16, SignExtendU32, Combine, Operand, FromI64, AsI64;
    ImmediateReadsBack(Signed(word));
    UpperImmediate(word);
  }

  lemma OtherSpecialAgrees(alu: Alu, op: OtherOp, word: Word, x: Registers, oracle: Oracle)
    requires OtherEncoding(op).Special? && Encodes(OtherEncoding(op), word)
    ensures ExecuteOther(op, word, x, oracle) == Perform(alu, ClassifySpecial(word), x, oracle)
  {
    hide Write, Pure, PerformChecked, Combine, Operand;
  }

  lemma OtherPrimaryAgrees(alu: Alu, op: OtherOp, word: Word, x: Registers, oracle: Oracle)
    requires !OtherEncoding(op).Special? && Encodes(OtherEncoding(op), word)
    ensures ExecuteOther(op, word, x, oracle) == Perform(alu, Classify(word), x, oracle)
  {
    hide Write, Pure, PerformChecked, Signed, SignExtendI16, SignExtendU32, Combine, Operand, ClassifySpecial;
  }

  lemma SpecialIsClassified(word: Word)
    requires word.opcode == 0
    ensures Classify(word) == ClassifySpecial(word)
  {
    hide ClassifySpecial;
  }

  lemma OtherAgrees(alu: Alu, op: OtherOp, word: Word, x: Registers, oracle: Oracle)
    requires Encodes(OtherEncoding(op), word)
    ensures ExecuteOther(op, word, x, oracle) == Perform(alu, Classify(word), x, oracle)
  {
    hide Classify, ClassifySpecial, ExecuteOther, Perform;
    if OtherEncoding(op).Special? {
      SpecialIsClassified(word);
      OtherSpecialAgrees(alu, op, word, x, oracle);
    } else {
      OtherPrimaryAgrees(alu, op, word, x, oracle);
    }
  }

  lemma MemoryAgrees(alu: Alu, op: MemoryOp, word: Word, x: Registers, oracle: Oracle)
    requires Encodes(MemoryEncoding(op), word)
    ensures ExecuteMemory(op, word, x, oracle) == Perform(alu, Classify(word), x, oracle)
  {
  }

  /** The raw refinement reads every accepted sequential word as the instruction set does. */
  lemma RefinementAgrees(profile: Profile, alu: Alu, word: Word, pc: nat, x: Registers, oracle: Oracle)
    requires Decode(profile, word, pc).Decoded? && Decode(profile, word, pc).flow.Sequential?
    ensures Execute(alu, Decode(profile, word, pc).flow.op, word, x, oracle) == Perform(alu, Classify(word), x, oracle)
  {
    DecodeInvertsEncoding(profile, word, pc);
    match Decode(profile, word, pc).flow.op
    case Shift(op) => ShiftAgrees(alu, op, word, x, oracle);
    case Trapping(op) => TrappingAgrees(alu, op, word, x, oracle);
    case Wrapping(op) => WrappingAgrees(alu, op, word, x, oracle);
    case Logic(op) => LogicAgrees(alu, op, word, x, oracle);
    case Compare(op) => CompareAgrees(alu, op, word, x, oracle);
    case Other(op) => OtherAgrees(alu, op, word, x, oracle);
    case Memory(op) => MemoryAgrees(alu, op, word, x, oracle);
  }

  lemma SetIsSound(state: State, x: Registers, register: nat, constant: Constant, value: U64)
    requires register < 32 && Describes(state, x) && (constant.Exact? ==> constant.value == value)
    ensures Describes(Set(state, register, constant), Write(x, register, value))
  {
  }

  /** The abstract effect covers the concrete one; in particular a definite trap is reported
      only when every described register file traps. */
  lemma ApplyIsSound(alu: Alu, action: ValidAction, state: State, x: Registers, oracle: Oracle)
    requires Describes(state, x) && Perform(alu, action, x, oracle).Next?
    ensures Apply(alu, action, state).Continue?
    ensures Describes(Apply(alu, action, state).state, Perform(alu, action, x, oracle).registers)
  {
    match action
    case Load(d) => SetIsSound(state, x, d, Unknown, oracle.value);
    case NoWrite =>
    case Forget =>
    case WriteUnknown(d) => SetIsSound(state, x, d, Unknown, oracle.value);
    case WriteConstant(d, value) => SetIsSound(state, x, d, Exact(value), value);
    case Immediate(d, s, pure, operand) =>
      SetIsSound(state, x, d, MapExact(alu, pure, state[s], operand), Pure(alu, pure, x[s], operand));
    case Binary(d, l, r, pure) =>
      SetIsSound(state, x, d, BinaryExact(alu, pure, state[l], state[r]), Pure(alu, pure, x[l], x[r]));
    case CheckedImmediate(d, s, immediate, width) =>
      var value := Operand(width, x[s]) + immediate;
      SetIsSound(state, x, d, if state[s].Exact? then Exact(FromI64(value)) else Unknown, FromI64(value));
    case Checked(d, l, r, width, subtract) =>
      var value := Combine(Operand(width, x[l]), Operand(width, x[r]), subtract);
      SetIsSound(state, x, d,
        if state[l].Exact? && state[r].Exact? then Exact(FromI64(value)) else Unknown, FromI64(value));
    case Move(d, s, c, ifNonzero) =>
      var moved := MovedValue(state[c], state[s], state[d], ifNonzero);
      if (x[c] != 0) == ifNonzero {
        SetIsSound(state, x, d, moved, x[s]);
      } else {
        SetIsSound(state, x, d, moved, x[d]);
      }
  }

  /** The tables read one accepted sequential word as the instruction set does. */
  ghost predicate ReadsWord(m: Machine, tables: Tables, word: Word, op: Op) {
    && (forall x: Registers, oracle: Oracle ::
          Execute(m.alu, op, word, x, oracle) == Perform(m.alu, tables.action(word), x, oracle))
    && tables.access(word) ==
         if op.Memory?
         then Some(Access(word.rs, word.rt, Signed(word), AccessOf(op.memory).0, AccessOf(op.memory).1))
         else None
  }

  /** The raw tests read one accepted conditional branch as its mnemonic does. */
  predicate ReadsBranch(word: Word, branch: BranchOp) {
    && (IsRegimmLink(word) <==> LinksRa(branch))
    && (IsBranchLikely(word) <==> NullifiesSlot(branch))
  }

  /** The tables agree with the decoder on every word it accepts. */
  ghost predicate Agrees(m: Machine, tables: Tables) {
    forall word: Word, pc: nat :: m.decode(word, pc).Decoded? ==>
      (match m.decode(word, pc).flow
       case Sequential(op) => ReadsWord(m, tables, word, op)
       case ConditionalBranch(branch, _) => ReadsBranch(word, branch)
       case _ => true)
  }

  // ----- raw tests that must agree with the decoder -----

  predicate IsRegimmLink(word: Word) { word.opcode == 0x01 && 0x10 <= word.rt <= 0x13 }

  predicate IsBranchLikely(word: Word) {
    || 0x14 <= word.opcode <= 0x17
    || (word.opcode == 0x01 && (word.rt == 0x02 || word.rt == 0x03 || word.rt == 0x12 || word.rt == 0x13))
  }

  /** The raw link and likely tests are exact on every conditional branch the decoder accepts. */
  lemma BranchTestsAgree(profile: Profile, word: Word, pc: nat)
    requires Decode(profile, word, pc).Decoded? && Decode(profile, word, pc).flow.ConditionalBranch?
    ensures IsRegimmLink(word) <==> LinksRa(Decode(profile, word, pc).flow.branch)
    ensures IsBranchLikely(word) <==> NullifiesSlot(Decode(profile, word, pc).flow.branch)
  {
  }

  /** The raw memory table lists exactly the accepted scalar and merge accesses, with the form
      and width of the instruction; CACHE, PREF and every other word stay out. */
  lemma MemoryFormsAgree(profile: Profile, word: Word, pc: nat)
    requires Decode(profile, word, pc).Decoded? && Decode(profile, word, pc).flow.Sequential?
    ensures var op := Decode(profile, word, pc).flow.op;
            MemoryAccess(word) ==
              if op.Memory?
              then Some(Access(word.rs, word.rt, Signed(word), AccessOf(op.memory).0, AccessOf(op.memory).1))
              else None
  {
    DecodeInvertsEncoding(profile, word, pc);
  }

  /** Each bundled profile of the core-v1 decoder agrees with the closed v1 tables. */
  lemma BundledTablesAgree(m: Machine, profile: Profile)
    requires forall word: Word, pc: nat :: m.decode(word, pc) == Decode(profile, word, pc)
    ensures Agrees(m, BundledTables())
  {
    forall word: Word, pc: nat | m.decode(word, pc).Decoded?
      ensures match m.decode(word, pc).flow
              case Sequential(op) => ReadsWord(m, BundledTables(), word, op)
              case ConditionalBranch(branch, _) => ReadsBranch(word, branch)
              case _ => true
    {
      match Decode(profile, word, pc).flow
      case Sequential(op) =>
        MemoryFormsAgree(profile, word, pc);
        forall x: Registers, oracle: Oracle
          ensures Execute(m.alu, op, word, x, oracle) == Perform(m.alu, Classify(word), x, oracle)
        {
          RefinementAgrees(profile, m.alu, word, pc, x, oracle);
        }
      case ConditionalBranch(_, _) => BranchTestsAgree(profile, word, pc);
      case _ =>
    }
  }
}
