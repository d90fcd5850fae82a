/**
 * The `Cpu` record of include/cpu.h, initialised by `cpu_init` (src/cpu.c)
 * and driven by the handlers and the fetch loop of src/cpu_exec.c. Every
 * method is proved to do to the record and to the `Ram` exactly what the
 * functions of `Semantics` say.
 */
module Processor {
  import opened Isa
  import opened Memory
  import Semantics

  class Cpu {
    var pc: Word
    const regs: array<Byte>
    var running: bool
    var privileged: bool

    ghost predicate Valid()
      reads this
    {
      regs.Length == REG_COUNT
    }

    /** The record and the RAM it runs on, as a value. */
    function State(ram: Ram): Semantics.Machine
      reads this, regs, ram, ram.cells
      requires Valid() && ram.Valid()
    {
      Semantics.Machine(pc, regs[..], running, privileged, ram.cells[..])
    }

    /** A `Cpu` as declared, before `cpu_init`. */
    constructor ()
      ensures Valid() && fresh(regs)
    {
      regs := new Byte[REG_COUNT];
    }

    /**
     * `cpu_init`: every register zero, PC zero, running, and the privilege
     * mode given by the caller.
     */
    method Init(privileged: bool)
      requires Valid()
      modifies this, regs
      ensures Valid()
      ensures forall i :: 0 <= i < REG_COUNT ==> regs[i] == 0
      ensures pc == 0 && running && this.privileged == privileged
    {
      var i := 0;
      while i < REG_COUNT
        invariant 0 <= i <= REG_COUNT
        invariant forall j :: 0 <= j < i ==> regs[j] == 0
      {
        regs[i] := 0;
        i := i + 1;
      }
      pc := 0;
      running := true;
      this.privileged := privileged;
    }

    /** `ram_read(ram, cpu->PC++, &x, cpu->privileged)`: one operand byte. */
    method FetchByte(ram: Ram) returns (ok: bool, b: Byte)
      requires Valid() && ram.Valid()
      modifies this
      ensures pc == Next(old(pc), 1)
      ensures ok == IsAddressValid(old(pc), privileged) && (ok ==> b == ram.cells[old(pc)])
      ensures running == old(running) && privileged == old(privileged)
    {
      ok, b := ram.Read(pc, privileged, 0);
      pc := Next(pc, 1);
    }

    /** `op_load_imm`: read `reg` and `imm`, then `R[reg] = imm`. */
    method OpLoadImm(ram: Ram)
      requires Valid() && ram.Valid() && regs != ram.cells
      modifies this, regs
      ensures Valid()
      ensures State(ram) == Semantics.Dispatch(old(State(ram)), OP_LOAD_IMM)
    {
      var ok, reg := FetchByte(ram);
      if !ok {
        running := false;
        return;
      }
      var imm;
      ok, imm := FetchByte(ram);
      if !ok {
        running := false;
        return;
      }
      if reg >= REG_COUNT {
        running := false;
        return;
      }
      regs[reg] := imm;
    }

    /**
     * `op_add`, `op_sub`, `op_mlp` and `op_div`: read `dst` and `src`, then
     * `R[dst] op= R[src]` on `uint8_t`. The four handlers differ only in the
     * operator.
     */
    method OpArith(ram: Ram, op: ArithOp)
      requires Valid() && ram.Valid() && regs != ram.cells
      requires !Semantics.DividesByZero(State(ram), ArithOpcode(op))
      modifies this, regs
      ensures Valid()
      ensures State(ram) == Semantics.Dispatch(old(State(ram)), ArithOpcode(op))
    {
      var ok, dst := FetchByte(ram);
      if !ok {
        running := false;
        return;
      }
      var src;
      ok, src := FetchByte(ram);
      if !ok {
        running := false;
        return;
      }
      if dst >= REG_COUNT || src >= REG_COUNT {
        running := false;
        return;
      }
      regs[dst] := Semantics.Alu(op, regs[dst], regs[src]);
    }

    /**
     * `op_store`: read `reg`, `hi` and `lo` (stopping at the first refused
     * read), then `ram_write(ram, (hi << 8) | lo, R[reg], ..)`.
     */
    method OpStore(ram: Ram)
      requires Valid() && ram.Valid() && regs != ram.cells
      modifies this, ram.cells
      ensures Valid()
      ensures State(ram) == Semantics.Dispatch(old(State(ram)), OP_STORE)
    {
      var ok, reg := FetchByte(ram);
      var hi, lo := 0, 0;
      if ok {
        ok, hi := FetchByte(ram);
        if ok {
          ok, lo := FetchByte(ram);
        }
      }
      if !ok {
        running := false;
        return;
      }
      if reg >= REG_COUNT {
        running := false;
        return;
      }
      var addr := Word16(hi, lo);
      ok := ram.Write(addr, regs[reg], privileged);
      if !ok {
        running := false;
        return;
      }
    }

    /**
     * `op_load_mem`: read `reg`, `hi` and `lo`, then
     * `ram_read(ram, (hi << 8) | lo, &R[reg], ..)`, which leaves `R[reg]` as
     * it was when the read is refused.
     */
    method OpLoadMem(ram: Ram)
      requires Valid() && ram.Valid() && regs != ram.cells
      modifies this, regs
      ensures Valid()
      ensures State(ram) == Semantics.Dispatch(old(State(ram)), OP_LOAD_MEM)
    {
      var ok, reg := FetchByte(ram);
      if !ok {
        running := false;
        return;
      }
      var hi, lo;
      ok, hi := FetchByte(ram);
      if !ok {
        running := false;
        return;
      }
      ok, lo := FetchByte(ram);
      if !ok {
        running := false;
        return;
      }
      if reg >= REG_COUNT {
        running := false;
        return;
      }
      var addr := Word16(hi, lo);
      var value;
      ok, value := ram.Read(addr, privileged, regs[reg]);
      regs[reg] := value;
      if !ok {
        running := false;
        return;
      }
    }

    /** `op_halt`. */
    method OpHalt(ram: Ram)
      requires Valid() && ram.Valid()
      modifies this
      ensures Valid()
      ensures State(ram) == Semantics.Dispatch(old(State(ram)), OP_HALT)
    {
      running := false;
    }

    /** `op_invalid`, for an opcode with no entry in `handlers`. */
    method OpInvalid(ram: Ram, opcode: Byte)
      requires Valid() && ram.Valid() && !IsOpcode(opcode)
      modifies this
      ensures Valid()
      ensures State(ram) == Semantics.Dispatch(old(State(ram)), opcode)
    {
      running := false;
    }

    /**
     * One iteration of the loop in `cpu_run`: fetch the opcode at PC++, then
     * call `handlers[opcode]`, or `op_invalid` when the table has no entry.
     */
    method Step(ram: Ram)
      requires Valid() && ram.Valid() && regs != ram.cells
      requires !Semantics.StepDividesByZero(State(ram))
      modifies this, regs, ram.cells
      ensures Valid()
      ensures State(ram) == Semantics.Step(old(State(ram)))
    {
      var ok, opcode := FetchByte(ram);
      if !ok {
        running := false;
        return;
      }
      if opcode == OP_LOAD_IMM {
        OpLoadImm(ram);
      } else if opcode == OP_ADD || opcode == OP_SUB || opcode == OP_MLP || opcode == OP_DIV {
        OpArith(ram, ArithOf(opcode));
      } else if opcode == OP_STORE {
        OpStore(ram);
      } else if opcode == OP_LOAD_MEM {
        OpLoadMem(ram);
      } else if opcode == OP_HALT {
        OpHalt(ram);
      } else {
        OpInvalid(ram, opcode);
      }
    }

    /**
     * `cpu_run`: set the privilege mode to `kernel`, then step while the CPU
     * runs, for at most `fuel` steps.
     */
    method Run(ram: Ram, kernel: bool, fuel: nat)
      requires Valid() && ram.Valid() && regs != ram.cells
      requires Semantics.DivisionSafe(State(ram).(privileged := kernel), fuel)
      modifies this, regs, ram.cells
      ensures Valid()
      ensures State(ram) == Semantics.Run(old(State(ram)).(privileged := kernel), fuel)
    {
      privileged := kernel;
      ghost var trace := Semantics.Trace(State(ram), fuel);
      var n := 0;
      while running && n < fuel
        invariant Valid() && 0 <= n < |trace| && n <= fuel && State(ram) == trace[n]
        decreases fuel - n
      {
        Step(ram);
        n := n + 1;
      }
    }
  }
}
