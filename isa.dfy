/**
 * The instruction set shared by the assembler, the disassembler and the
 * execution engine: the opcode values of include/isa.h, the register count of
 * include/cpu.h, and the decoded form of one instruction.
 */
module Isa {

  /** An 8-bit unsigned value (`uint8_t`). */
  type Byte = x: int | 0 <= x < 0x100

  /** A 16-bit unsigned value (`uint16_t`). */
  type Word = x: int | 0 <= x < 0x10000

  const REG_COUNT := 8

  const OP_LOAD_IMM: Byte := 1
  const OP_SUB: Byte := 2
  const OP_ADD: Byte := 3
  const OP_STORE: Byte := 4
  const OP_LOAD_MEM: Byte := 5
  const OP_MLP: Byte := 6
  const OP_DIV: Byte := 7
  const OP_HALT: Byte := 255

  /** The byte values that the `Opcode` enumeration names. */
  predicate IsOpcode(b: int) {
    b == OP_LOAD_IMM || b == OP_SUB || b == OP_ADD || b == OP_STORE ||
    b == OP_LOAD_MEM || b == OP_MLP || b == OP_DIV || b == OP_HALT
  }

  /** `a + n` computed in a `uint16_t`, as `PC++` and `pc += size` do. */
  function Next(a: Word, n: nat): Word {
    (a + n) % 0x10000
  }

  /** Below the top of the address space, the `uint16_t` addition does not wrap. */
  lemma NextInRange(a: Word, n: nat)
    requires a + n < 0x10000
    ensures Next(a, n) == a + n
  {
  }

  /** Adding to a count already cut to 16 bits is cutting the sum. */
  lemma NextOfCut(c: nat, n: nat)
    ensures Next(c % 0x10000, n) == (c + n) % 0x10000
  {
  }

  /** Two `uint16_t` additions in a row are one. */
  lemma NextNext(a: Word, x: nat, y: nat)
    ensures Next(Next(a, x), y) == Next(a, x + y)
  {
  }

  /** `(hi << 8) | lo`: the two bit ranges do not overlap, so the `|` is a sum. */
  function Word16(hi: Byte, lo: Byte): Word {
    hi * 256 + lo
  }

  /** The four register-to-register operations. */
  datatype ArithOp = Add | Sub | Mlp | Div

  /** The two operations that take a register and a 16-bit address. */
  datatype MemOp = Store | LoadMem

  /**
   * One instruction with its operands as they sit in memory. Register
   * operands are raw bytes: nothing in the encoding keeps them below
   * REG_COUNT. `Db` is a byte outside the instruction set, which the
   * disassembler lists as data.
   */
  datatype Instruction =
    | LoadImm(reg: Byte, imm: Byte)
    | TwoReg(op: ArithOp, dst: Byte, src: Byte)
    | RegAddr(mop: MemOp, reg: Byte, addr: Word)
    | Halt
    | Db(value: Byte)

  function ArithOpcode(op: ArithOp): (b: Byte)
    ensures IsOpcode(b)
  {
    match op
    case Add => OP_ADD
    case Sub => OP_SUB
    case Mlp => OP_MLP
    case Div => OP_DIV
  }

  function MemOpcode(op: MemOp): (b: Byte)
    ensures IsOpcode(b)
  {
    match op
    case Store => OP_STORE
    case LoadMem => OP_LOAD_MEM
  }

  /** The operation an arithmetic opcode selects. */
  function ArithOf(b: Byte): (op: ArithOp)
    requires b == OP_ADD || b == OP_SUB || b == OP_MLP || b == OP_DIV
    ensures ArithOpcode(op) == b
  {
    if b == OP_ADD then Add else if b == OP_SUB then Sub else if b == OP_MLP then Mlp else Div
  }

  /** The operation a memory opcode selects. */
  function MemOf(b: Byte): (op: MemOp)
    requires b == OP_STORE || b == OP_LOAD_MEM
    ensures MemOpcode(op) == b
  {
    if b == OP_STORE then Store else LoadMem
  }

  /** The first byte of the instruction's encoding. */
  function OpcodeOf(i: Instruction): Byte {
    match i
    case LoadImm(_, _) => OP_LOAD_IMM
    case TwoReg(op, _, _) => ArithOpcode(op)
    case RegAddr(op, _, _) => MemOpcode(op)
    case Halt => OP_HALT
    case Db(v) => v
  }

  /** An instruction the assembler can produce: anything but a data byte. */
  predicate IsInstruction(i: Instruction) {
    !i.Db?
  }

  /**
   * A data byte the disassembler can list: a `Db` never holds a byte that
   * starts an instruction.
   */
  predicate Canonical(i: Instruction) {
    i.Db? ==> !IsOpcode(i.value)
  }

  /**
   * The length of the instruction format an opcode starts: 3 for LOAD_IMM and
   * the arithmetic opcodes, 4 for STORE and LOAD_MEM, 1 for HALT and for a
   * byte outside the instruction set.
   */
  function Width(op: Byte): nat {
    if op == OP_LOAD_IMM || op == OP_ADD || op == OP_SUB || op == OP_MLP || op == OP_DIV then 3
    else if op == OP_STORE || op == OP_LOAD_MEM then 4
    else 1
  }

  /** `emit16`: the high byte, then the low byte; `(hi << 8) | lo` reads it back. */
  function Be16(v: Word): (r: seq<Byte>)
    ensures |r| == 2 && Word16(r[0], r[1]) == v
  {
    [v / 256, v % 256]
  }

  /**
   * The bytes of an instruction, in the formats listed at the top of
   * src/cpu_exec.c: [opcode][reg][imm], [opcode][dst][src],
   * [opcode][reg][hi][lo], and [HALT]; a data byte is itself.
   */
  function Encode(i: Instruction): (bs: seq<Byte>)
    ensures |bs| > 0 && bs[0] == OpcodeOf(i)
    ensures Canonical(i) ==> |bs| == Width(OpcodeOf(i))
  {
    match i
    case LoadImm(reg, imm) => [OP_LOAD_IMM, reg, imm]
    case TwoReg(op, dst, src) => [ArithOpcode(op), dst, src]
    case RegAddr(op, reg, addr) => [MemOpcode(op), reg] + Be16(addr)
    case Halt => [OP_HALT]
    case Db(v) => [v]
  }

  /**
   * An encoding names one instruction: two instructions a disassembler can
   * list and whose bytes agree are the same instruction.
   */
  lemma EncodeInjective(a: Instruction, b: Instruction)
    requires Canonical(a) && Canonical(b) && Encode(a) == Encode(b)
    ensures a == b
  {
    if a.RegAddr? && b.RegAddr? {
      assert Be16(a.addr) == Encode(a)[2..] == Encode(b)[2..] == Be16(b.addr);
    }
  }

  /** The bytes of a sequence of instructions, one after the other. */
  function EncodeAll(prog: seq<Instruction>): seq<Byte> {
    if |prog| == 0 then [] else Encode(prog[0]) + EncodeAll(prog[1..])
  }

  lemma {:induction false} EncodeAllAppend(prog: seq<Instruction>, i: Instruction)
    ensures EncodeAll(prog + [i]) == EncodeAll(prog) + Encode(i)
  {
    if |prog| > 0 {
      assert (prog + [i])[1..] == prog[1..] + [i];
      EncodeAllAppend(prog[1..], i);
    } else {
      assert prog + [i] == [i];
    }
  }
}
