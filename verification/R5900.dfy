/** The frozen little-endian EE/R5900 core-v1 decoder together with an instruction-set
    reference semantics that the constant-propagation observer is proved sound against.

    The decoder maps one word to a mnemonic, a flow class and a direct target. The
    reference semantics gives each mnemonic its architectural meaning on 64-bit
    registers; loads, HI/LO reads and multimedia words take their results from an
    oracle, so every statement about a run holds for every memory content. */
module R5900 {
  import opened Common

  // ----- raw fields -----

  /** The fixed bit fields of one 32-bit word. */
  datatype Fields = Fields(
    opcode: nat, rs: nat, rt: nat, rd: nat, sa: nat, funct: nat,
    logical: nat,  // low sixteen bits, zero-extended
    index: nat     // low twenty-six bits
  )

  type Word = f: Fields |
    && f.opcode < 64 && f.rs < 32 && f.rt < 32 && f.rd < 32 && f.sa < 32 && f.funct < 64
    && f.logical < TWO_16 && f.index < 0x400_0000
    witness Fields(0, 0, 0, 0, 0, 0, 0, 0)

  function Split(word: U32): Word {
    Fields(
      word / 0x400_0000 % 64, word / 0x20_0000 % 32, word / 0x1_0000 % 32, word / 0x800 % 32,
      word / 0x40 % 32, word % 64, word % 0x1_0000, word % 0x400_0000)
  }

  function Signed(f: Word): (r: int)
    ensures -0x8000 <= r < 0x8000
  {
    if f.logical < 0x8000 then f.logical else f.logical - 0x1_0000
  }

  // ----- two's complement views -----

  function Low32(value: U64): U32 { value % TWO_32 }

  function AsI32(value: U32): (r: int)
    ensures -TWO_31 <= r < TWO_31
  {
    if value < TWO_31 then value else value - TWO_32
  }

  function AsI64(value: U64): (r: int)
    ensures -TWO_63 <= r < TWO_63
  {
    if value < TWO_63 then value else value - TWO_64
  }

  function FromI64(value: int): U64
    requires -TWO_63 <= value < TWO_63
  {
    if value < 0 then value + TWO_64 else value
  }

  /** The signed 32-bit integer congruent to `value`. */
  function WrapI32(value: int): (r: int)
    ensures -TWO_31 <= r < TWO_31
  {
    (value + TWO_31) % TWO_32 - TWO_31
  }

  // ----- mnemonics and decode outcomes -----

  datatype ShiftOp =
    | Sll | Srl | Sra | Sllv | Srlv | Srav | Dsllv | Dsrlv | Dsrav
    | Dsll | Dsrl | Dsra | Dsll32 | Dsrl32 | Dsra32

  datatype TrappingOp = Add | Sub | Dadd | Dsub | Addi | Daddi

  datatype WrappingOp = Addu | Subu | Addiu | Daddu | Dsubu | Daddiu

  datatype LogicOp = And | Or | Xor | Nor | Andi | Ori | Xori

  datatype CompareOp = Slt | Sltu | Slti | Sltiu | Lui

  datatype OtherOp =
    | Movz | Movn | Mfhi | Mflo | Mfsa | Mult | Multu | Div | Divu | Sync
    | Mthi | Mtlo | Mtsa | Mtsab | Mtsah | Cache | Pref | Multimedia

  datatype MemoryOp =
    | Lb | Lbu | Lh | Lhu | Lw | Lwu | Ld | Lq | Sb | Sh | Sw | Sd | Sq
    | Lwl | Lwr | Ldl | Ldr | Swl | Swr | Sdl | Sdr

  datatype BranchOp =
    | Beq | Bne | Blez | Bgtz | Bltz | Bgez | Beql | Bnel | Blezl | Bgtzl | Bltzl | Bgezl
    | Bltzal | Bgezal | Bltzall | Bgezall

  datatype Op =
    | Shift(shift: ShiftOp) | Trapping(trapping: TrappingOp) | Wrapping(wrapping: WrappingOp)
    | Logic(logic: LogicOp) | Compare(compare: CompareOp) | Other(other: OtherOp) | Memory(memory: MemoryOp)

  /** How an accepted word transfers control, with the target the decoder always supplies
      for direct transfers. */
  datatype Flow =
    | Sequential(op: Op)
    | ConditionalBranch(branch: BranchOp, target: U64)
    | UnconditionalBranch(target: U64)
    | Call(target: U64)
    | IndirectBranch
    | IndirectCall
    | Interrupt

  datatype Outcome = Decoded(flow: Flow) | Unsupported | Invalid

  /** How one of the six bundled profiles treats a word of the multimedia space. */
  datatype MultimediaClass = Accepted | Recognised | Malformed

  type Profile = Word -> MultimediaClass

  function Seq(op: Op): Outcome { Decoded(Sequential(op)) }

  function JumpTarget(pc: U32, word: Word): U64 {
    var pc4 := (pc + 4) % TWO_32;
    pc4 - pc4 % 0x1000_0000 + word.index * 4
  }

  function BranchTarget(pc: U32, word: Word): U64 {
    (pc + 4 + Signed(word) * 4) % TWO_32
  }

  function BranchTo(op: BranchOp, pc: U32, word: Word): Outcome {
    Decoded(ConditionalBranch(op, BranchTarget(pc, word)))
  }

  function SeqIf(guard: bool, op: Op): Outcome {
    if guard then Seq(op) else Invalid
  }

  /** Decode one word of the selected profile at a guest address. */
  function Decode(profile: Profile, word: Word, pc: nat): Outcome {
    if pc >= TWO_32 || pc % 4 != 0 then Invalid
    else if word.opcode == 0x1c then
      match profile(word)
      case Accepted => Seq(Other(Multimedia))
      case Recognised => Unsupported
      case Malformed => Invalid
    else DecodeWord(word, pc)
  }

  function DecodeWord(word: Word, pc: U32): Outcome {
    match word.opcode
    case 0x00 => DecodeSpecial(word)
    case 0x01 => DecodeRegimm(word, pc)
    case 0x02 => Decoded(UnconditionalBranch(JumpTarget(pc, word)))
    case 0x03 => Decoded(Call(JumpTarget(pc, word)))
    case 0x04 => BranchTo(Beq, pc, word)
    case 0x05 => BranchTo(Bne, pc, word)
    case 0x06 => if word.rt == 0 then BranchTo(Blez, pc, word) else Invalid
    case 0x07 => if word.rt == 0 then BranchTo(Bgtz, pc, word) else Invalid
    case 0x08 => Seq(Trapping(Addi))
    case 0x09 => Seq(Wrapping(Addiu))
    case 0x0a => Seq(Compare(Slti))
    case 0x0b => Seq(Compare(Sltiu))
    case 0x0c => Seq(Logic(Andi))
    case 0x0d => Seq(Logic(Ori))
    case 0x0e => Seq(Logic(Xori))
    case 0x0f => SeqIf(word.rs == 0, Compare(Lui))
    case 0x10 => Unsupported
    case 0x11 => Unsupported
    case 0x12 => Unsupported
    case 0x14 => BranchTo(Beql, pc, word)
    case 0x15 => BranchTo(Bnel, pc, word)
    case 0x16 => if word.rt == 0 then BranchTo(Blezl, pc, word) else Invalid
    case 0x17 => if word.rt == 0 then BranchTo(Bgtzl, pc, word) else Invalid
    case 0x18 => Seq(Trapping(Daddi))
    case 0x19 => Seq(Wrapping(Daddiu))
    case 0x1a => Seq(Memory(Ldl))
    case 0x1b => Seq(Memory(Ldr))
    case 0x1c => Unsupported
    case 0x1e => Seq(Memory(Lq))
    case 0x1f => Seq(Memory(Sq))
    case 0x20 => Seq(Memory(Lb))
    case 0x21 => Seq(Memory(Lh))
    case 0x22 => Seq(Memory(Lwl))
    case 0x23 => Seq(Memory(Lw))
    case 0x24 => Seq(Memory(Lbu))
    case 0x25 => Seq(Memory(Lhu))
    case 0x26 => Seq(Memory(Lwr))
    case 0x27 => Seq(Memory(Lwu))
    case 0x28 => Seq(Memory(Sb))
    case 0x29 => Seq(Memory(Sh))
    case 0x2a => Seq(Memory(Swl))
    case 0x2b => Seq(Memory(Sw))
    case 0x2c => Seq(Memory(Sdl))
    case 0x2d => Seq(Memory(Sdr))
    case 0x2e => Seq(Memory(Swr))
    case 0x2f => Seq(Other(Cache))
    case 0x31 => Unsupported
    case 0x33 => Seq(Other(Pref))
    case 0x36 => Unsupported
    case 0x37 => Seq(Memory(Ld))
    case 0x39 => Unsupported
    case 0x3e => Unsupported
    case 0x3f => Seq(Memory(Sd))
    case _ => Invalid
  }

  function DecodeSpecial(word: Word): Outcome {
    var noRs, noRt, noRd, noSa := word.rs == 0, word.rt == 0, word.rd == 0, word.sa == 0;
    match word.funct
    case 0x00 => SeqIf(noRs, Shift(Sll))
    case 0x02 => SeqIf(noRs, Shift(Srl))
    case 0x03 => SeqIf(noRs, Shift(Sra))
    case 0x04 => SeqIf(noSa, Shift(Sllv))
    case 0x06 => SeqIf(noSa, Shift(Srlv))
    case 0x07 => SeqIf(noSa, Shift(Srav))
    case 0x08 => if noRt && noRd && noSa then Decoded(IndirectBranch) else Invalid
    case 0x09 =>
      if !(noRt && noSa) then Invalid
      else Decoded(if noRd then IndirectBranch else IndirectCall)
    case 0x0a => SeqIf(noSa, Other(Movz))
    case 0x0b => SeqIf(noSa, Other(Movn))
    case 0x0c => Decoded(Interrupt)
    case 0x0d => Decoded(Interrupt)
    case 0x0f => SeqIf(noRs && noRt && noRd, Other(Sync))
    case 0x10 => SeqIf(noRs && noRt && noSa, Other(Mfhi))
    case 0x11 => SeqIf(noRt && noRd && noSa, Other(Mthi))
    case 0x12 => SeqIf(noRs && noRt && noSa, Other(Mflo))
    case 0x13 => SeqIf(noRt && noRd && noSa, Other(Mtlo))
    case 0x14 => SeqIf(noSa, Shift(Dsllv))
    case 0x16 => SeqIf(noSa, Shift(Dsrlv))
    case 0x17 => SeqIf(noSa, Shift(Dsrav))
    case 0x18 => SeqIf(noSa, Other(Mult))
    case 0x19 => SeqIf(noSa, Other(Multu))
    case 0x1a => SeqIf(noRd && noSa, Other(Div))
    case 0x1b => SeqIf(noRd && noSa, Other(Divu))
    case 0x20 => SeqIf(noSa, Trapping(Add))
    case 0x21 => SeqIf(noSa, Wrapping(Addu))
    case 0x22 => SeqIf(noSa, Trapping(Sub))
    case 0x23 => SeqIf(noSa, Wrapping(Subu))
    case 0x24 => SeqIf(noSa, Logic(And))
    case 0x25 => SeqIf(noSa, Logic(Or))
    case 0x26 => SeqIf(noSa, Logic(Xor))
    case 0x27 => SeqIf(noSa, Logic(Nor))
    case 0x28 => SeqIf(noRs && noRt && noSa, Other(Mfsa))
    case 0x29 => SeqIf(noRt && noRd && noSa, Other(Mtsa))
    case 0x2a => SeqIf(noSa, Compare(Slt))
    case 0x2b => SeqIf(noSa, Compare(Sltu))
    case 0x2c => SeqIf(noSa, Trapping(Dadd))
    case 0x2d => SeqIf(noSa, Wrapping(Daddu))
    case 0x2e => SeqIf(noSa, Trapping(Dsub))
    case 0x2f => SeqIf(noSa, Wrapping(Dsubu))
    case 0x30 => Unsupported
    case 0x31 => Unsupported
    case 0x32 => Unsupported
    case 0x33 => Unsupported
    case 0x34 => Unsupported
    case 0x36 => Unsupported
    case 0x38 => SeqIf(noRs, Shift(Dsll))
    case 0x3a => SeqIf(noRs, Shift(Dsrl))
    case 0x3b => SeqIf(noRs, Shift(Dsra))
    case 0x3c => SeqIf(noRs, Shift(Dsll32))
    case 0x3e => SeqIf(noRs, Shift(Dsrl32))
    case 0x3f => SeqIf(noRs, Shift(Dsra32))
    case _ => Invalid
  }

  function DecodeRegimm(word: Word, pc: U32): Outcome {
    match word.rt
    case 0x00 => BranchTo(Bltz, pc, word)
    case 0x01 => BranchTo(Bgez, pc, word)
    case 0x02 => BranchTo(Bltzl, pc, word)
    case 0x03 => BranchTo(Bgezl, pc, word)
    case 0x08 => Unsupported
    case 0x09 => Unsupported
    case 0x0a => Unsupported
    case 0x0b => Unsupported
    case 0x0c => Unsupported
    case 0x0e => Unsupported
    case 0x10 => BranchTo(Bltzal, pc, word)
    case 0x11 => BranchTo(Bgezal, pc, word)
    case 0x12 => BranchTo(Bltzall, pc, word)
    case 0x13 => BranchTo(Bgezall, pc, word)
    case 0x18 => Seq(Other(Mtsab))
    case 0x19 => Seq(Other(Mtsah))
    case _ => Invalid
  }

  // ----- encodings -----

  /** Where an instruction lives: a primary opcode, or a SPECIAL or REGIMM sub-opcode. */
  datatype Encoding = Primary(opcode: nat) | Special(funct: nat) | Regimm(rt: nat)

  predicate Encodes(encoding: Encoding, word: Word) {
    match encoding
    case Primary(opcode) => word.opcode == opcode
    case Special(funct) => word.opcode == 0 && word.funct == funct
    case Regimm(rt) => word.opcode == 1 && word.rt == rt
  }

  function ShiftEncoding(op: ShiftOp): Encoding {
    match op
    case Sll => Special(0x00)
    case Srl => Special(0x02)
    case Sra => Special(0x03)
    case Sllv => Special(0x04)
    case Srlv => Special(0x06)
    case Srav => Special(0x07)
    case Dsllv => Special(0x14)
    case Dsrlv => Special(0x16)
    case Dsrav => Special(0x17)
    case Dsll => Special(0x38)
    case Dsrl => Special(0x3a)
    case Dsra => Special(0x3b)
    case Dsll32 => Special(0x3c)
    case Dsrl32 => Special(0x3e)
    case Dsra32 => Special(0x3f)
  }

  function TrappingEncoding(op: TrappingOp): Encoding {
    match op
    case Addi => Primary(0x08)
    case Daddi => Primary(0x18)
    case Add => Special(0x20)
    case Sub => Special(0x22)
    case Dadd => Special(0x2c)
    case Dsub => Special(0x2e)
  }

  function WrappingEncoding(op: WrappingOp): Encoding {
    match op
    case Addiu => Primary(0x09)
    case Daddiu => Primary(0x19)
    case Addu => Special(0x21)
    case Subu => Special(0x23)
    case Daddu => Special(0x2d)
    case Dsubu => Special(0x2f)
  }

  function LogicEncoding(op: LogicOp): Encoding {
    match op
    case Andi => Primary(0x0c)
    case Ori => Primary(0x0d)
    case Xori => Primary(0x0e)
    case And => Special(0x24)
    case Or => Special(0x25)
    case Xor => Special(0x26)
    case Nor => Special(0x27)
  }

  function CompareEncoding(op: CompareOp): Encoding {
    match op
    case Slti => Primary(0x0a)
    case Sltiu => Primary(0x0b)
    case Lui => Primary(0x0f)
    case Slt => Special(0x2a)
    case Sltu => Special(0x2b)
  }

  function OtherEncoding(op: OtherOp): Encoding {
    match op
    case Cache => Primary(0x2f)
    case Pref => Primary(0x33)
    case Movz => Special(0x0a)
    case Movn => Special(0x0b)
    case Sync => Special(0x0f)
    case Mfhi => Special(0x10)
    case Mthi => Special(0x11)
    case Mflo => Special(0x12)
    case Mtlo => Special(0x13)
    case Mult => Special(0x18)
    case Multu => Special(0x19)
    case Div => Special(0x1a)
    case Divu => Special(0x1b)
    case Mfsa => Special(0x28)
    case Mtsa => Special(0x29)
    case Mtsab => Regimm(0x18)
    case Mtsah => Regimm(0x19)
    case Multimedia => Primary(0x1c)
  }

  function MemoryEncoding(op: MemoryOp): Encoding {
    match op
    case Ldl => Primary(0x1a)
    case Ldr => Primary(0x1b)
    case Lq => Primary(0x1e)
    case Sq => Primary(0x1f)
    case Lb => Primary(0x20)
    case Lh => Primary(0x21)
    case Lwl => Primary(0x22)
    case Lw => Primary(0x23)
    case Lbu => Primary(0x24)
    case Lhu => Primary(0x25)
    case Lwr => Primary(0x26)
    case Lwu => Primary(0x27)
    case Sb => Primary(0x28)
    case Sh => Primary(0x29)
    case Swl => Primary(0x2a)
    case Sw => Primary(0x2b)
    case Sdl => Primary(0x2c)
    case Sdr => Primary(0x2d)
    case Swr => Primary(0x2e)
    case Ld => Primary(0x37)
    case Sd => Primary(0x3f)
  }

  function EncodingOf(op: Op): Encoding {
    match op
    case Shift(shift) => ShiftEncoding(shift)
    case Trapping(trapping) => TrappingEncoding(trapping)
    case Wrapping(wrapping) => WrappingEncoding(wrapping)
    case Logic(logic) => LogicEncoding(logic)
    case Compare(compare) => CompareEncoding(compare)
    case Other(other) => OtherEncoding(other)
    case Memory(memory) => MemoryEncoding(memory)
  }

  /** The outcome is not sequential, or its mnemonic's encoding is the one the word carries. */
  predicate Inverts(outcome: Outcome, word: Word) {
    outcome.Decoded? && outcome.flow.Sequential? ==> Encodes(EncodingOf(outcome.flow.op), word)
  }

  /** Decoding inverts the encoding table: a word decodes to a sequential mnemonic only if it
      carries exactly that mnemonic's encoding. */
  lemma DecodeInvertsEncoding(profile: Profile, word: Word, pc: nat)
    ensures Inverts(Decode(profile, word, pc), word)
  {
    if pc < TWO_32 && pc % 4 == 0 && word.opcode != 0x1c {
      if word.opcode == 0 { SpecialInvertsEncoding(word); } else { PrimaryInvertsEncoding(word, pc); }
    }
  }

  lemma LowSpecialInverts(word: Word)
    requires word.opcode == 0 && word.funct < 0x20
    ensures Inverts(DecodeSpecial(word), word)
  {
  }

  lemma HighSpecialInverts(word: Word)
    requires word.opcode == 0 && word.funct >= 0x20
    ensures Inverts(DecodeSpecial(word), word)
  {
  }

  lemma SpecialInvertsEncoding(word: Word)
    requires word.opcode == 0
    ensures Inverts(DecodeSpecial(word), word)
  {
    hide DecodeSpecial, Inverts;
    if word.funct < 0x20 { LowSpecialInverts(word); } else { HighSpecialInverts(word); }
  }

  lemma RegimmInverts(word: Word, pc: U32)
    requires word.opcode == 1
    ensures Inverts(DecodeRegimm(word, pc), word)
  {
  }

  lemma LowPrimaryInverts(word: Word, pc: U32)
    requires 1 < word.opcode < 0x20
    ensures Inverts(DecodeWord(word, pc), word)
  {
    hide DecodeSpecial, DecodeRegimm, JumpTarget;
  }

  lemma HighPrimaryInverts(word: Word, pc: U32)
    requires word.opcode >= 0x20
    ensures Inverts(DecodeWord(word, pc), word)
  {
    hide DecodeSpecial, DecodeRegimm, JumpTarget;
  }

  lemma PrimaryInvertsEncoding(word: Word, pc: U32)
    requires word.opcode != 0
    ensures Inverts(DecodeWord(word, pc), word)
  {
    hide DecodeRegimm, Inverts;
    if word.opcode == 1 {
      RegimmInverts(word, pc);
    } else {
      hide DecodeWord;
      if word.opcode < 0x20 { LowPrimaryInverts(word, pc); } else { HighPrimaryInverts(word, pc); }
    }
  }

  // ----- reference semantics -----

  /** Thirty-two 64-bit registers; register zero always reads as zero. */
  type Registers = s: seq<U64> | |s| == 32 && s[0] == 0 witness seq(32, i => 0)

  /** Bit-level operations whose value tables do not matter to any statement here. */
  datatype BitOp = BitAnd | BitOr | BitXor | BitNor | Shl32 | Shr32 | Sar32 | Shl64 | Shr64 | Sar64

  type Alu = (BitOp, U64, U64) -> U64

  /** What a run takes from outside the modelled registers: a loaded value, a whole register
      file after multimedia words or callees, and whether a call is seen from its return. */
  datatype Oracle = Oracle(value: U64, registers: Registers, returned: bool)

  datatype Effect = Trap | Next(registers: Registers)

  function Write(registers: Registers, index: nat, value: U64): Registers
    requires index < 32
  {
    if index == 0 then registers else registers[index := value]
  }

  function Bool64(b: bool): U64 { if b then 1 else 0 }

  /** Signed 32-bit result, sign-extended into the register, or an overflow trap. */
  function Trapping32(registers: Registers, index: nat, value: int): Effect
    requires index < 32
  {
    if -TWO_31 <= value < TWO_31 then Next(Write(registers, index, FromI64(value))) else Trap
  }

  function Trapping64(registers: Registers, index: nat, value: int): Effect
    requires index < 32
  {
    if -TWO_63 <= value < TWO_63 then Next(Write(registers, index, FromI64(value))) else Trap
  }

  /** The architectural effect of one sequential instruction. */
  function Execute(alu: Alu, op: Op, word: Word, x: Registers, oracle: Oracle): Effect {
    match op
    case Shift(shift) => ExecuteShift(alu, shift, word, x)
    case Trapping(trapping) => ExecuteTrapping(trapping, word, x)
    case Wrapping(wrapping) => ExecuteWrapping(wrapping, word, x)
    case Logic(logic) => ExecuteLogic(alu, logic, word, x)
    case Compare(compare) => ExecuteCompare(compare, word, x)
    case Other(other) => ExecuteOther(other, word, x, oracle)
    case Memory(memory) => ExecuteMemory(memory, word, x, oracle)
  }

  function ExecuteShift(alu: Alu, op: ShiftOp, word: Word, x: Registers): Effect {
    var t, d := x[word.rt], word.rd;
    match op
    case Sll => Next(Write(x, d, alu(Shl32, t, word.sa)))
    case Srl => Next(Write(x, d, alu(Shr32, t, word.sa)))
    case Sra => Next(Write(x, d, alu(Sar32, t, word.sa)))
    case Sllv => Next(Write(x, d, alu(Shl32, t, x[word.rs] % 32)))
    case Srlv => Next(Write(x, d, alu(Shr32, t, x[word.rs] % 32)))
    case Srav => Next(Write(x, d, alu(Sar32, t, x[word.rs] % 32)))
    case Dsllv => Next(Write(x, d, alu(Shl64, t, x[word.rs] % 64)))
    case Dsrlv => Next(Write(x, d, alu(Shr64, t, x[word.rs] % 64)))
    case Dsrav => Next(Write(x, d, alu(Sar64, t, x[word.rs] % 64)))
    case Dsll => Next(Write(x, d, alu(Shl64, t, word.sa)))
    case Dsrl => Next(Write(x, d, alu(Shr64, t, word.sa)))
    case Dsra => Next(Write(x, d, alu(Sar64, t, word.sa)))
    case Dsll32 => Next(Write(x, d, alu(Shl64, t, word.sa + 32)))
    case Dsrl32 => Next(Write(x, d, alu(Shr64, t, word.sa + 32)))
    case Dsra32 => Next(Write(x, d, alu(Sar64, t, word.sa + 32)))
  }

  function ExecuteTrapping(op: TrappingOp, word: Word, x: Registers): Effect {
    var s, t, d := word.rs, word.rt, word.rd;
    var s32, t32 := AsI32(Low32(x[s])), AsI32(Low32(x[t]));
    var imm := Signed(word);
    match op
    case Add => Trapping32(x, d, s32 + t32)
    case Sub => Trapping32(x, d, s32 - t32)
    case Dadd => Trapping64(x, d, AsI64(x[s]) + AsI64(x[t]))
    case Dsub => Trapping64(x, d, AsI64(x[s]) - AsI64(x[t]))
    case Addi => Trapping32(x, t, s32 + imm)
    case Daddi => Trapping64(x, t, AsI64(x[s]) + imm)
  }

  function ExecuteWrapping(op: WrappingOp, word: Word, x: Registers): Effect {
    var s, t, d := word.rs, word.rt, word.rd;
    var s32, t32 := AsI32(Low32(x[s])), AsI32(Low32(x[t]));
    var imm := Signed(word);
    match op
    case Addu => Next(Write(x, d, FromI64(WrapI32(s32 + t32))))
    case Subu => Next(Write(x, d, FromI64(WrapI32(s32 - t32))))
    case Addiu => Next(Write(x, t, FromI64(WrapI32(s32 + imm))))
    case Daddu => Next(Write(x, d, (x[s] + x[t]) % TWO_64))
    case Dsubu => Next(Write(x, d, (x[s] - x[t]) % TWO_64))
    case Daddiu => Next(Write(x, t, (x[s] + imm) % TWO_64))
  }

  function ExecuteLogic(alu: Alu, op: LogicOp, word: Word, x: Registers): Effect {
    var s, t, d := word.rs, word.rt, word.rd;
    match op
    case And => Next(Write(x, d, alu(BitAnd, x[s], x[t])))
    case Or => Next(Write(x, d, alu(BitOr, x[s], x[t])))
    case Xor => Next(Write(x, d, alu(BitXor, x[s], x[t])))
    case Nor => Next(Write(x, d, alu(BitNor, x[s], x[t])))
    case Andi => Next(Write(x, t, alu(BitAnd, x[s], word.logical)))
    case Ori => Next(Write(x, t, alu(BitOr, x[s], word.logical)))
    case Xori => Next(Write(x, t, alu(BitXor, x[s], word.logical)))
  }

  function ExecuteCompare(op: CompareOp, word: Word, x: Registers): Effect {
    var s, t, d := word.rs, word.rt, word.rd;
    var imm := Signed(word);
    match op
    case Lui => Next(Write(x, t, FromI64(imm * 0x1_0000)))
    case Slt => Next(Write(x, d, Bool64(AsI64(x[s]) < AsI64(x[t]))))
    case Sltu => Next(Write(x, d, Bool64(x[s] < x[t])))
    case Slti => Next(Write(x, t, Bool64(AsI64(x[s]) < imm)))
    case Sltiu => Next(Write(x, t, Bool64(x[s] < FromI64(imm))))
  }

  function ExecuteOther(op: OtherOp, word: Word, x: Registers, oracle: Oracle): Effect {
    var s, t, d := word.rs, word.rt, word.rd;
    match op
    case Movz => Next(if x[t] == 0 then Write(x, d, x[s]) else x)
    case Movn => Next(if x[t] != 0 then Write(x, d, x[s]) else x)
    case Mfhi => Next(Write(x, d, oracle.value))
    case Mflo => Next(Write(x, d, oracle.value))
    case Mfsa => Next(Write(x, d, oracle.value))
    case Mult => Next(Write(x, d, oracle.value))
    case Multu => Next(Write(x, d, oracle.value))
    case Multimedia => Next(oracle.registers)
    // HI/LO/SA writes, DIV, SYNC, CACHE and PREF leave every register alone.
    case _ => Next(x)
  }

  /** Loads overwrite their register with memory content; stores write no register. */
  function ExecuteMemory(op: MemoryOp, word: Word, x: Registers, oracle: Oracle): Effect {
    match op
    case Sb => Next(x)
    case Sh => Next(x)
    case Sw => Next(x)
    case Sd => Next(x)
    case Sq => Next(x)
    case Swl => Next(x)
    case Swr => Next(x)
    case Sdl => Next(x)
    case Sdr => Next(x)
    case _ => Next(Write(x, word.rt, oracle.value))
  }

  /** The branch decision, taken on the registers before the link write and the delay slot. */
  predicate Taken(op: BranchOp, word: Word, x: Registers) {
    var s, t := x[word.rs], x[word.rt];
    match op
    case Beq => s == t
    case Beql => s == t
    case Bne => s != t
    case Bnel => s != t
    case Blez => AsI64(s) <= 0
    case Blezl => AsI64(s) <= 0
    case Bgtz => AsI64(s) > 0
    case Bgtzl => AsI64(s) > 0
    case Bltz => AsI64(s) < 0
    case Bltzl => AsI64(s) < 0
    case Bltzal => AsI64(s) < 0
    case Bltzall => AsI64(s) < 0
    case _ => AsI64(s) >= 0
  }

  predicate LinksRa(op: BranchOp) {
    op == Bltzal || op == Bgezal || op == Bltzall || op == Bgezall
  }

  predicate NullifiesSlot(op: BranchOp) {
    || op == Beql || op == Bnel || op == Blezl || op == Bgtzl
    || op == Bltzl || op == Bgezl || op == Bltzall || op == Bgezall
  }

  // ----- memory forms -----

  datatype Form = ScalarLoad | ScalarStore | MergeLoadLeft | MergeLoadRight | MergeStoreLeft | MergeStoreRight

  /** The access one mnemonic performs: its form and its width in bytes. */
  function AccessOf(op: MemoryOp): (Form, nat) {
    match op
    case Lb => (ScalarLoad, 1)
    case Lbu => (ScalarLoad, 1)
    case Lh => (ScalarLoad, 2)
    case Lhu => (ScalarLoad, 2)
    case Lw => (ScalarLoad, 4)
    case Lwu => (ScalarLoad, 4)
    case Ld => (ScalarLoad, 8)
    case Lq => (ScalarLoad, 16)
    case Sb => (ScalarStore, 1)
    case Sh => (ScalarStore, 2)
    case Sw => (ScalarStore, 4)
    case Sd => (ScalarStore, 8)
    case Sq => (ScalarStore, 16)
    case Lwl => (MergeLoadLeft, 4)
    case Lwr => (MergeLoadRight, 4)
    case Ldl => (MergeLoadLeft, 8)
    case Ldr => (MergeLoadRight, 8)
    case Swl => (MergeStoreLeft, 4)
    case Swr => (MergeStoreRight, 4)
    case Sdl => (MergeStoreLeft, 8)
    case Sdr => (MergeStoreRight, 8)
  }

  /** The 64-bit effective address of a memory instruction. */
  function EffectiveAddress(word: Word, x: Registers): U64 {
    (x[word.rs] + Signed(word)) % TWO_64
  }

  // ----- guest programs and runs -----

  /** Exclusive upper bound of executable coverage; both pc + 4 and pc + 8 stay below 2^32. */
  const LINEAR_PC_END := TWO_32 - 8

  /** A guest program: which words are executable, how the selected decoder reads them, and
      the bit-level operations. */
  datatype Machine = Machine(wordAt: nat -> Option<Word>, decode: (Word, nat) -> Outcome, alu: Alu)

  /** A machine whose executable words are aligned and below the linear end. */
  type Image = m: Machine | forall pc: nat :: m.wordAt(pc).Some? ==> pc % 4 == 0 && pc < LINEAR_PC_END
    ghost witness Machine((pc: nat) => None, (w: Word, pc: nat) => Invalid, (op: BitOp, a: U64, b: U64) => 0)

  function Fetch(m: Image, pc: nat): (r: Outcome)
    ensures r.Decoded? ==> m.wordAt(pc).Some?
  {
    match m.wordAt(pc)
    case None => Invalid
    case Some(word) => m.decode(word, pc)
  }

  /** Run the delay slot of the transfer at `pc`; only sequential slots are defined. */
  function Slot(m: Image, pc: nat, x: Registers, oracle: Oracle): Effect {
    match Fetch(m, pc + 4)
    case Decoded(Sequential(op)) => Execute(m.alu, op, m.wordAt(pc + 4).value, x, oracle)
    case _ => Trap
  }

  /** One architectural step. Indirect jumps, interrupts and undecoded words have none;
      a call either enters its target or, when `returned`, resumes after its delay slot
      with whatever registers the callee left. */
  function Step(m: Image, pc: nat, x: Registers, oracle: Oracle): Option<(nat, Registers)> {
    match Fetch(m, pc)
    case Decoded(Sequential(op)) => Then(pc + 4, Execute(m.alu, op, m.wordAt(pc).value, x, oracle))
    case Decoded(ConditionalBranch(branch, target)) =>
      var taken := Taken(branch, m.wordAt(pc).value, x);
      var linked := if LinksRa(branch) then Write(x, 31, pc + 8) else x;
      if !taken && NullifiesSlot(branch) then Some((pc + 8, linked))
      else if taken && LinksRa(branch) then CallThen(pc, Some(target), Slot(m, pc, linked, oracle), oracle)
      else Then(if taken then target else pc + 8, Slot(m, pc, linked, oracle))
    case Decoded(UnconditionalBranch(target)) => Then(target, Slot(m, pc, x, oracle))
    case Decoded(Call(target)) =>
      CallThen(pc, Some(target), Slot(m, pc, Write(x, 31, pc + 8), oracle), oracle)
    case Decoded(IndirectCall) =>
      CallThen(pc, None, Slot(m, pc, Write(x, m.wordAt(pc).value.rd, pc + 8), oracle), oracle)
    case _ => None
  }

  function Then(pc: nat, effect: Effect): Option<(nat, Registers)> {
    match effect
    case Trap => None
    case Next(y) => Some((pc, y))
  }

  function CallThen(pc: nat, target: Option<U64>, effect: Effect, oracle: Oracle): Option<(nat, Registers)> {
    if effect.Trap? then None
    else if oracle.returned then Some((pc + 8, oracle.registers))
    else if target.Some? then Some((target.value, effect.registers))
    else None
  }
}
