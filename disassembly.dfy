/**
 * The disassembler of src/disassembler.c: it walks memory from a start
 * address to an end address, lists the instruction that starts at each
 * address it stops at, and moves on by that instruction's length. The lines
 * it logs are modelled as a listing of (address, instruction) entries.
 */
module Disassembly {
  import opened Isa
  import opened Memory

  /** `read8`: the byte at `addr`. */
  function Read8(mem: seq<Byte>, addr: Word): (b: Byte)
    requires |mem| == RAM_SIZE
    ensures Holds(mem, addr, [b])
  {
    mem[addr]
  }

  /**
   * `read16`: the byte at `addr` is the high half, the byte after it (the
   * address computed in a `uint16_t`) the low half; the inverse of `emit16`.
   */
  function Read16(mem: seq<Byte>, addr: Word): (w: Word)
    requires |mem| == RAM_SIZE
    ensures Be16(w) == [mem[addr], mem[Next(addr, 1)]]
  {
    Word16(Read8(mem, addr), Read8(mem, Next(addr, 1)))
  }

  /** What a `disasm_*` helper logs about the instruction at `pc`, and `*next_pc`. */
  datatype Decoded = Decoded(instr: Instruction, next: Word)

  /** `disasm_load_imm`: `[LOAD_IMM][reg][imm]`. */
  function DisasmLoadImm(mem: seq<Byte>, pc: Word): (d: Decoded)
    requires |mem| == RAM_SIZE && mem[pc] == OP_LOAD_IMM
    ensures d.instr.LoadImm? && Holds(mem, pc, Encode(d.instr)) && d.next == Next(pc, 3)
  {
    Decoded(LoadImm(Read8(mem, Next(pc, 1)), Read8(mem, Next(pc, 2))), Next(pc, 3))
  }

  /** `disasm_two_reg`: `[opcode][dst][src]`, named after the operation. */
  function DisasmTwoReg(mem: seq<Byte>, pc: Word, op: ArithOp): (d: Decoded)
    requires |mem| == RAM_SIZE && mem[pc] == ArithOpcode(op)
    ensures d.instr.TwoReg? && d.instr.op == op && Holds(mem, pc, Encode(d.instr)) && d.next == Next(pc, 3)
  {
    Decoded(TwoReg(op, Read8(mem, Next(pc, 1)), Read8(mem, Next(pc, 2))), Next(pc, 3))
  }

  /** `disasm_mem_op`: `[opcode][reg][hi][lo]`. */
  function DisasmMemOp(mem: seq<Byte>, pc: Word, mop: MemOp): (d: Decoded)
    requires |mem| == RAM_SIZE && mem[pc] == MemOpcode(mop)
    ensures d.instr.RegAddr? && d.instr.mop == mop && Holds(mem, pc, Encode(d.instr)) && d.next == Next(pc, 4)
  {
    NextNext(pc, 2, 1);
    var d := Decoded(RegAddr(mop, Read8(mem, Next(pc, 1)), Read16(mem, Next(pc, 2))), Next(pc, 4));
    assert Encode(d.instr) == [mem[pc], mem[Next(pc, 1)]] + [mem[Next(pc, 2)], mem[Next(pc, 3)]];
    d
  }

  /** `disasm_halt`: HALT is one byte long; memory is not read. */
  function DisasmHalt(pc: Word): (d: Decoded)
    ensures d.instr.Halt? && d.next == Next(pc, |Encode(d.instr)|)
  {
    Decoded(Halt, Next(pc, 1))
  }

  /** `disasm_unknown`: the byte is listed as data. */
  function DisasmUnknown(mem: seq<Byte>, pc: Word): (d: Decoded)
    requires |mem| == RAM_SIZE
    ensures d.instr.Db? && Holds(mem, pc, Encode(d.instr)) && d.next == Next(pc, 1)
  {
    Decoded(Db(Read8(mem, pc)), Next(pc, 1))
  }

  /**
   * The `switch` of `disassemble_memory` for the byte at `pc`. What it lists
   * is exactly the instruction whose encoding sits in memory from `pc` on,
   * with a byte outside the instruction set listed as data, and the walk
   * moves on by that encoding's length.
   */
  function Decode(mem: seq<Byte>, pc: Word): (d: Decoded)
    requires |mem| == RAM_SIZE
    ensures Canonical(d.instr) && OpcodeOf(d.instr) == mem[pc]
    ensures Holds(mem, pc, Encode(d.instr))
    ensures d.next == Next(pc, |Encode(d.instr)|)
  {
    var opcode := Read8(mem, pc);
    if opcode == OP_LOAD_IMM then DisasmLoadImm(mem, pc)
    else if opcode == OP_ADD then DisasmTwoReg(mem, pc, Add)
    else if opcode == OP_SUB then DisasmTwoReg(mem, pc, Sub)
    else if opcode == OP_MLP then DisasmTwoReg(mem, pc, Mlp)
    else if opcode == OP_DIV then DisasmTwoReg(mem, pc, Div)
    else if opcode == OP_STORE then DisasmMemOp(mem, pc, Store)
    else if opcode == OP_LOAD_MEM then DisasmMemOp(mem, pc, LoadMem)
    else if opcode == OP_HALT then DisasmHalt(pc)
    else DisasmUnknown(mem, pc)
  }


  /** Decoding the bytes of an instruction the disassembler can list gives that instruction back. */
  lemma DecodeEncoded(mem: seq<Byte>, pc: Word, i: Instruction)
    requires |mem| == RAM_SIZE && Canonical(i) && Holds(mem, pc, Encode(i))
    ensures Decode(mem, pc) == Decoded(i, Next(pc, |Encode(i)|))
  {
    var d := Decode(mem, pc);
    assert Next(pc, 0) == pc;
    assert |Encode(d.instr)| == Width(mem[pc]) == |Encode(i)|;
    assert Encode(d.instr) == Encode(i);
    EncodeInjective(d.instr, i);
  }

  /** One logged line: the address and the instruction listed there. */
  datatype Entry = Entry(addr: Word, instr: Instruction)

  /**
   * The PC of the loop of `disassemble_memory` as written, after `n`
   * iterations from `pc`: each iteration sets it to the `uint16_t` next PC
   * the helper computes.
   */
  function WrappedWalk(mem: seq<Byte>, pc: Word, n: nat): Word
    requires |mem| == RAM_SIZE
    decreases n
  {
    if n == 0 then pc else WrappedWalk(mem, Decode(mem, pc).next, n - 1)
  }

  /**
   * With `end_addr` 0xFFFF the loop of `disassemble_memory` never ends: its
   * guard `pc <= end_addr` holds after every number of iterations, and the
   * PC runs past the top of memory back to 0 (here through a HALT at 0xFFFF).
   */
  lemma {:induction false} TopEndNeverStops(mem: seq<Byte>, start: Word, n: nat)
    requires |mem| == RAM_SIZE
    ensures WrappedWalk(mem, start, n) <= 0xFFFF
    ensures mem[0xFFFF] == OP_HALT ==> WrappedWalk(mem, 0xFFFF, 1) == 0
  {
    assert WrappedWalk(mem, 0xFFFF, 1) == WrappedWalk(mem, Decode(mem, 0xFFFF).next, 0);
  }

  /**
   * The lines `disassemble_memory` logs from `pc` on while `pc <= end`, with
   * the PC kept wide enough not to wrap: one line at least when
   * `pc <= end`, and none outside the range.
   */
  function Listing(mem: seq<Byte>, pc: nat, end: Word): (l: seq<Entry>)
    requires |mem| == RAM_SIZE && pc <= RAM_SIZE + 3
    ensures |l| > 0 <==> pc <= end
    decreases RAM_SIZE + 3 - pc
  {
    if pc > end then []
    else
      [Entry(pc, Decode(mem, pc).instr)] + Listing(mem, pc + Width(mem[pc]), end)
  }

  /**
   * The listing tiles memory from `pc` to `end`: the first line is at `pc`,
   * each next one starts where the one before ends, every one shows the
   * bytes found at its address, and the last one reaches past `end`.
   */
  lemma {:induction false} ListingTiles(mem: seq<Byte>, pc: nat, end: Word)
    requires |mem| == RAM_SIZE && pc <= RAM_SIZE + 3
    ensures var l := Listing(mem, pc, end);
      (|l| > 0 ==> l[0].addr == pc && l[|l| - 1].addr + |Encode(l[|l| - 1].instr)| > end) &&
      (forall k :: 0 <= k < |l| ==> pc <= l[k].addr <= end) &&
      (forall k :: 0 <= k < |l| ==> Canonical(l[k].instr) && Holds(mem, l[k].addr, Encode(l[k].instr))) &&
      (forall k :: 1 <= k < |l| ==> l[k].addr == l[k - 1].addr + |Encode(l[k - 1].instr)|)
    decreases RAM_SIZE + 3 - pc
  {
    if pc <= end {
      var d := Decode(mem, pc);
      var next := pc + Width(mem[pc]);
      assert |Encode(d.instr)| == Width(mem[pc]);
      var rest := Listing(mem, next, end);
      ListingTiles(mem, next, end);
      var l := Listing(mem, pc, end);
      assert l == [Entry(pc, d.instr)] + rest;
      forall k | 0 <= k < |l|
        ensures Canonical(l[k].instr) && Holds(mem, l[k].addr, Encode(l[k].instr))
      {
        if k > 0 {
          assert l[k] == rest[k - 1];
        }
      }
      forall k | 1 <= k < |l|
        ensures l[k].addr == l[k - 1].addr + |Encode(l[k - 1].instr)|
      {
        assert l[k] == rest[k - 1];
        if k > 1 {
          assert l[k - 1] == rest[k - 2];
        } else {
          assert rest[0].addr == next;
        }
      }
    }
  }

  /** The entries for the instructions of `prog` laid out one after the other from `addr`. */
  function Entries(prog: seq<Instruction>, addr: Word): seq<Entry> {
    if |prog| == 0 then []
    else [Entry(addr, prog[0])] + Entries(prog[1..], Next(addr, |Encode(prog[0])|))
  }

  /**
   * Disassembling the bytes of a program lists that program: when memory
   * holds the encodings of `prog` from `start` on, and `end` is the last of
   * those bytes, the listing is `prog` with each instruction's address.
   */
  lemma {:induction false} ListingOfProgram(mem: seq<Byte>, prog: seq<Instruction>, start: Word, end: Word)
    requires |mem| == RAM_SIZE
    requires forall k :: 0 <= k < |prog| ==> Canonical(prog[k])
    requires start + |EncodeAll(prog)| == end + 1
    requires Holds(mem, start, EncodeAll(prog))
    ensures Listing(mem, start, end) == Entries(prog, start)
    decreases |prog|
  {
    if |prog| > 0 {
      ProgramHead(mem, prog, start);
      var width := Width(mem[start]);
      var next := start + width;
      assert Listing(mem, start, end) == [Entry(start, prog[0])] + Listing(mem, next, end);
      if |prog| > 1 {
        NextInRange(start, width);
        ListingOfProgram(mem, prog[1..], next, end);
      }
    }
  }

  /**
   * The first instruction of a program held in memory is the one decoded at
   * its start, and the rest of the program follows right after it.
   */
  lemma ProgramHead(mem: seq<Byte>, prog: seq<Instruction>, start: Word)
    requires |mem| == RAM_SIZE && |prog| > 0 && Canonical(prog[0])
    requires Holds(mem, start, EncodeAll(prog))
    ensures Decode(mem, start).instr == prog[0]
    ensures Width(mem[start]) == |Encode(prog[0])|
    ensures |EncodeAll(prog)| == |Encode(prog[0])| + |EncodeAll(prog[1..])|
    ensures |prog| > 1 ==> |EncodeAll(prog[1..])| > 0
    ensures Holds(mem, Next(start, |Encode(prog[0])|), EncodeAll(prog[1..]))
  {
    ProgramSplit(mem, prog, start);
    DecodeEncoded(mem, start, prog[0]);
    assert Next(start, 0) == start;
  }

  /** A program's bytes in memory are its first instruction's, then the rest's. */
  lemma ProgramSplit(mem: seq<Byte>, prog: seq<Instruction>, start: Word)
    requires |mem| == RAM_SIZE && |prog| > 0
    requires Holds(mem, start, EncodeAll(prog))
    ensures Holds(mem, start, Encode(prog[0]))
    ensures |EncodeAll(prog)| == |Encode(prog[0])| + |EncodeAll(prog[1..])|
    ensures |prog| > 1 ==> |EncodeAll(prog[1..])| > 0
    ensures Holds(mem, Next(start, |Encode(prog[0])|), EncodeAll(prog[1..]))
  {
    var first, rest := Encode(prog[0]), EncodeAll(prog[1..]);
    assert EncodeAll(prog) == first + rest;
    HoldsSplit(mem, start, first, rest);
    if |prog| > 1 {
      assert rest == Encode(prog[1..][0]) + EncodeAll(prog[1..][1..]);
    }
  }

  /**
   * `disassemble_memory`, with the PC kept wider than 16 bits so that the
   * loop ends for every end address: from `start_addr`, while the PC is at
   * most `end_addr`, let the `disasm_*` helper for the opcode at the PC log
   * its line, and move the PC past the instruction.
   */
  method DisassembleMemory(memory: array<Byte>, start: Word, end: Word) returns (listing: seq<Entry>)
    requires memory.Length == RAM_SIZE
    ensures listing == Listing(memory[..], start, end)
  {
    ghost var mem := memory[..];
    listing := [];
    var pc: nat := start;
    while pc <= end
      invariant pc <= RAM_SIZE + 3
      invariant listing + Listing(mem, pc, end) == Listing(mem, start, end)
      decreases RAM_SIZE + 3 - pc
    {
      var d := DisassembleAt(memory, pc);
      ListingStep(mem, pc, end, listing, Listing(mem, start, end));
      listing := listing + [Entry(pc, d.instr)];
      pc := pc + Width(memory[pc]);
    }
  }

  /**
   * One iteration of the walk: the lines logged so far, then the line at
   * `pc`, then the walk from past its instruction.
   */
  lemma ListingStep(mem: seq<Byte>, pc: Word, end: Word, logged: seq<Entry>, whole: seq<Entry>)
    requires |mem| == RAM_SIZE && pc <= end
    requires logged + Listing(mem, pc, end) == whole
    ensures (logged + [Entry(pc, Decode(mem, pc).instr)]) + Listing(mem, pc + Width(mem[pc]), end) == whole
  {
    var rest := Listing(mem, pc + Width(mem[pc]), end);
    assert Listing(mem, pc, end) == [Entry(pc, Decode(mem, pc).instr)] + rest;
    assert logged + ([Entry(pc, Decode(mem, pc).instr)] + rest) == (logged + [Entry(pc, Decode(mem, pc).instr)]) + rest;
  }

  /** The body of the loop of `disassemble_memory`: the `switch` on the opcode at `pc`. */
  method DisassembleAt(memory: array<Byte>, pc: Word) returns (d: Decoded)
    requires memory.Length == RAM_SIZE
    ensures d == Decode(memory[..], pc)
  {
    var opcode := memory[pc];
    if opcode == OP_LOAD_IMM {
      d := DisasmLoadImm(memory[..], pc);
    } else if opcode == OP_ADD {
      d := DisasmTwoReg(memory[..], pc, Add);
    } else if opcode == OP_SUB {
      d := DisasmTwoReg(memory[..], pc, Sub);
    } else if opcode == OP_MLP {
      d := DisasmTwoReg(memory[..], pc, Mlp);
    } else if opcode == OP_DIV {
      d := DisasmTwoReg(memory[..], pc, Div);
    } else if opcode == OP_STORE {
      d := DisasmMemOp(memory[..], pc, Store);
    } else if opcode == OP_LOAD_MEM {
      d := DisasmMemOp(memory[..], pc, LoadMem);
    } else if opcode == OP_HALT {
      d := DisasmHalt(pc);
    } else {
      d := DisasmUnknown(memory[..], pc);
    }
  }
}
