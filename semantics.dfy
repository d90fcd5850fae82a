/**
 * The execution engine of src/cpu_exec.c as a function from machine state to
 * machine state. The class `Processor.Cpu` runs the same steps imperatively
 * and is proved equal to these functions; the lemmas below state what the
 * handlers promise.
 */
module Semantics {
  import opened Isa
  import opened Results
  import opened Memory

  /** The `Cpu` record together with the contents of the `Ram` it runs on. */
  datatype Machine = Machine(pc: Word, regs: seq<Byte>, running: bool, privileged: bool, mem: seq<Byte>)

  predicate WellFormed(m: Machine) {
    |m.regs| == REG_COUNT && |m.mem| == RAM_SIZE
  }

  /** Every fault, and HALT, clears `running` and leaves PC where the reads left it. */
  function Halted(m: Machine, pc: Word): Machine {
    m.(pc := pc, running := false)
  }

  /**
   * `k` operand reads `ram_read(ram, cpu->PC++, ..)` starting at `pc`. The
   * reads stop at the first refused one; PC has then already moved past the
   * refused byte, since the post-increment happens before the call.
   */
  function FetchOperands(mem: seq<Byte>, pc: Word, privileged: bool, k: nat): (r: (Option<seq<Byte>>, Word))
    requires |mem| == RAM_SIZE
    ensures r.0.Some? ==> |r.0.value| == k
    decreases k
  {
    if k == 0 then (Some([]), pc)
    else if !IsAddressValid(pc, privileged) then (None, Next(pc, 1))
    else
      var (rest, next) := FetchOperands(mem, Next(pc, 1), privileged, k - 1);
      if rest.None? then (None, next) else (Some([mem[pc]] + rest.value), next)
  }

  /**
   * The reads succeed exactly when all `k` addresses are readable; they then
   * deliver the `k` bytes from `pc` on and leave PC `k` further on.
   */
  lemma {:induction false} FetchOperandsReads(mem: seq<Byte>, pc: Word, privileged: bool, k: nat)
    requires |mem| == RAM_SIZE
    ensures var r := FetchOperands(mem, pc, privileged, k);
      (r.0.Some? <==> forall j :: 0 <= j < k ==> IsAddressValid(Next(pc, j), privileged)) &&
      (r.0.Some? ==> r.1 == Next(pc, k) && forall j :: 0 <= j < k ==> r.0.value[j] == mem[Next(pc, j)])
    decreases k
  {
    assert Next(pc, 0) == pc;
    if k > 0 && IsAddressValid(pc, privileged) {
      FetchOperandsReads(mem, Next(pc, 1), privileged, k - 1);
      forall j | 0 <= j < k - 1 ensures Next(Next(pc, 1), j) == Next(pc, j + 1) {
        NextNext(pc, 1, j);
      }
      NextNext(pc, 1, k - 1);
      var r := FetchOperands(mem, pc, privileged, k);
      if r.0.Some? {
        forall j | 0 <= j < k ensures IsAddressValid(Next(pc, j), privileged) && r.0.value[j] == mem[Next(pc, j)] {
          if j > 0 {
            assert Next(Next(pc, 1), j - 1) == Next(pc, j);
          }
        }
      }
    }
  }

  /** The outcome of a handler's operand reads. */
  datatype Fetch = Faulted(next: Word) | Fetched(instr: Instruction, next: Word)

  /**
   * The operand reads of `handlers[op]`, with PC just past the opcode:
   * two bytes for LOAD_IMM and the arithmetic handlers, three for STORE and
   * LOAD_MEM (address `(hi << 8) | lo`), none for HALT and for a byte that has
   * no handler (`op_invalid`).
   */
  function FetchInstruction(m: Machine, op: Byte): (f: Fetch)
    requires WellFormed(m)
    ensures f.Fetched? ==> Canonical(f.instr) && OpcodeOf(f.instr) == op
    ensures f.Faulted? ==> IsOpcode(op) && Width(op) > 1
  {
    if op == OP_LOAD_IMM then
      var (bs, next) := FetchOperands(m.mem, m.pc, m.privileged, 2);
      if bs.None? then Faulted(next) else Fetched(LoadImm(bs.value[0], bs.value[1]), next)
    else if op == OP_ADD || op == OP_SUB || op == OP_MLP || op == OP_DIV then
      var (bs, next) := FetchOperands(m.mem, m.pc, m.privileged, 2);
      if bs.None? then Faulted(next) else Fetched(TwoReg(ArithOf(op), bs.value[0], bs.value[1]), next)
    else if op == OP_STORE || op == OP_LOAD_MEM then
      var (bs, next) := FetchOperands(m.mem, m.pc, m.privileged, 3);
      if bs.None? then Faulted(next)
      else Fetched(RegAddr(MemOf(op), bs.value[0], Word16(bs.value[1], bs.value[2])), next)
    else if op == OP_HALT then Fetched(Halt, m.pc)
    else Fetched(Db(op), m.pc)
  }

  /**
   * The register operation of ADD, SUB, MLP and DIV on `uint8_t` registers:
   * the result is the true sum, difference or product modulo 256, and the
   * truncated quotient. A zero divisor is undefined in C and is excluded.
   */
  function Alu(op: ArithOp, a: Byte, b: Byte): (r: Byte)
    requires op == Div ==> b != 0
    ensures op == Add ==> (r - (a + b)) % 256 == 0
    ensures op == Sub ==> (r - (a - b)) % 256 == 0
    ensures op == Mlp ==> (r - a * b) % 256 == 0
    ensures op == Div ==> r * b <= a < (r + 1) * b
  {
    match op
    case Add => Wrap8(a + b)
    case Sub => Wrap8(a - b)
    case Mlp => Wrap8(a * b)
    case Div => TruncatedQuotient(a, b)
  }

  /** Conversion of an `int` to `uint8_t`. */
  function Wrap8(x: int): (r: Byte)
    ensures (r - x) % 256 == 0
  {
    x % 256
  }

  /** C's `/` on non-negative operands. */
  function TruncatedQuotient(a: Byte, b: Byte): (q: Byte)
    requires b != 0
    ensures q * b <= a < (q + 1) * b
  {
    a / b
  }

  /** The one case the C code leaves undefined: DIV with a zero divisor. */
  predicate DivisionByZero(m: Machine, i: Instruction)
    requires WellFormed(m)
  {
    i.TwoReg? && i.op == Div && i.dst < REG_COUNT && i.src < REG_COUNT && m.regs[i.src] == 0
  }

  /** The register, arithmetic and memory part of a handler, after its operand reads. */
  function Execute(m: Machine, i: Instruction): (r: Machine)
    requires WellFormed(m) && !DivisionByZero(m, i)
    ensures WellFormed(r) && r.privileged == m.privileged
  {
    match i
    case LoadImm(reg, imm) =>
      if reg >= REG_COUNT then Halted(m, m.pc) else m.(regs := m.regs[reg := imm])
    case TwoReg(op, dst, src) =>
      if dst >= REG_COUNT || src >= REG_COUNT then Halted(m, m.pc)
      else m.(regs := m.regs[dst := Alu(op, m.regs[dst], m.regs[src])])
    case RegAddr(Store, reg, addr) =>
      if reg >= REG_COUNT then Halted(m, m.pc)
      else (match WriteCell(m.mem, addr, m.regs[reg], m.privileged)
        case None => Halted(m, m.pc)
        case Some(mem') => m.(mem := mem'))
    case RegAddr(LoadMem, reg, addr) =>
      if reg >= REG_COUNT then Halted(m, m.pc)
      else (match ReadCell(m.mem, addr, m.privileged)
        case None => Halted(m, m.pc)
        case Some(v) => m.(regs := m.regs[reg := v]))
    case Halt => Halted(m, m.pc)
    case Db(_) => Halted(m, m.pc)
  }

  /** The handler for `op` would divide by zero. */
  predicate DividesByZero(m: Machine, op: Byte)
    requires WellFormed(m)
  {
    match FetchInstruction(m, op)
    case Faulted(_) => false
    case Fetched(i, next) => DivisionByZero(m, i)
  }

  /** `handlers[op](cpu, ram)`, or `op_invalid`, with PC just past the opcode. */
  function Dispatch(m: Machine, op: Byte): (r: Machine)
    requires WellFormed(m) && !DividesByZero(m, op)
    ensures WellFormed(r) && r.privileged == m.privileged
  {
    match FetchInstruction(m, op)
    case Faulted(next) => Halted(m, next)
    case Fetched(i, next) => Execute(m.(pc := next), i)
  }

  /** The instruction at PC would divide by zero. */
  predicate StepDividesByZero(m: Machine)
    requires WellFormed(m)
  {
    IsAddressValid(m.pc, m.privileged) && DividesByZero(m.(pc := Next(m.pc, 1)), m.mem[m.pc])
  }

  /** One iteration of the loop in `cpu_run`: fetch the opcode, then dispatch. */
  function Step(m: Machine): (r: Machine)
    requires WellFormed(m) && !StepDividesByZero(m)
    ensures WellFormed(r) && r.privileged == m.privileged
  {
    if !IsAddressValid(m.pc, m.privileged) then Halted(m, Next(m.pc, 1))
    else Dispatch(m.(pc := Next(m.pc, 1)), m.mem[m.pc])
  }

  /** None of the next `fuel` steps from `m` divides by zero. */
  predicate DivisionSafe(m: Machine, fuel: nat)
    requires WellFormed(m)
    decreases fuel
  {
    fuel == 0 || !m.running || (!StepDividesByZero(m) && DivisionSafe(Step(m), fuel - 1))
  }

  /**
   * `while (cpu->running)` in `cpu_run`, cut off after `fuel` iterations: a
   * program need not halt (PC wraps, and privileged code may run anywhere).
   */
  function Run(m: Machine, fuel: nat): (r: Machine)
    requires WellFormed(m) && DivisionSafe(m, fuel)
    ensures WellFormed(r) && r.privileged == m.privileged
    decreases fuel
  {
    if fuel == 0 || !m.running then m else Run(Step(m), fuel - 1)
  }

  /**
   * The states the loop of `cpu_run` passes through, from `m` to the state it
   * stops in: every state but the last runs and steps to the next one.
   */
  function Trace(m: Machine, fuel: nat): (t: seq<Machine>)
    requires WellFormed(m) && DivisionSafe(m, fuel)
    ensures 1 <= |t| <= fuel + 1 && t[0] == m
    ensures forall i :: 0 <= i < |t| ==> WellFormed(t[i])
    ensures forall i :: 0 <= i < |t| - 1 ==> t[i].running && !StepDividesByZero(t[i]) && t[i + 1] == Step(t[i])
    ensures |t| == fuel + 1 || !t[|t| - 1].running
    ensures t[|t| - 1] == Run(m, fuel)
    decreases fuel
  {
    if fuel == 0 || !m.running then [m]
    else
      var rest := Trace(Step(m), fuel - 1);
      assert forall i :: 0 < i <= |rest| ==> ([m] + rest)[i] == rest[i - 1];
      [m] + rest
  }

  // ---------------------------------------------------------------------
  // What the handlers promise

  /** The `n` bytes from `pc` on may be read in the machine's privilege mode. */
  ghost predicate Readable(m: Machine, pc: Word, n: nat) {
    forall j :: 0 <= j < n ==> IsAddressValid(Next(pc, j), m.privileged)
  }

  /** When every byte of the instruction can be read, the operand reads deliver them. */
  lemma {:induction false} FetchReadable(m: Machine, op: Byte, k: nat)
    requires WellFormed(m) && Readable(m, m.pc, k + 1) && m.mem[m.pc] == op
    ensures IsAddressValid(m.pc, m.privileged)
    ensures var (bs, next) := FetchOperands(m.mem, Next(m.pc, 1), m.privileged, k);
            bs.Some? && next == Next(m.pc, k + 1) &&
            forall j :: 0 <= j < k ==> bs.value[j] == m.mem[Next(m.pc, j + 1)]
  {
    assert Next(m.pc, 0) == m.pc;
    FetchOperandsReads(m.mem, Next(m.pc, 1), m.privileged, k);
    forall j | 0 <= j < k
      ensures IsAddressValid(Next(Next(m.pc, 1), j), m.privileged)
      ensures Next(Next(m.pc, 1), j) == Next(m.pc, j + 1)
    {
      NextNext(m.pc, 1, j);
      assert 0 <= j + 1 < k + 1;
    }
    NextNext(m.pc, 1, k);
  }

  /** A refused opcode fetch halts with PC one past it and nothing else changed. */
  lemma OpcodeFetchRefused(m: Machine)
    requires WellFormed(m) && !IsAddressValid(m.pc, m.privileged)
    ensures !StepDividesByZero(m) && Step(m) == m.(pc := Next(m.pc, 1), running := false)
  {
  }

  /** A byte with no entry in `handlers` halts through `op_invalid`. */
  lemma UnknownOpcodeHalts(m: Machine)
    requires WellFormed(m) && IsAddressValid(m.pc, m.privileged) && !IsOpcode(m.mem[m.pc])
    ensures !StepDividesByZero(m) && Step(m) == m.(pc := Next(m.pc, 1), running := false)
  {
  }

  /** HALT clears `running`, moves PC past itself, and changes nothing else. */
  lemma HaltStops(m: Machine)
    requires WellFormed(m) && IsAddressValid(m.pc, m.privileged) && m.mem[m.pc] == OP_HALT
    ensures !StepDividesByZero(m) && Step(m) == m.(pc := Next(m.pc, 1), running := false)
  {
  }

  /**
   * LOAD_IMM with a valid register loads the immediate into it; PC moves by 3
   * and nothing else changes.
   */
  lemma LoadImmediateStep(m: Machine, reg: Byte, imm: Byte)
    requires WellFormed(m) && Readable(m, m.pc, 3) && Holds(m.mem, m.pc, [OP_LOAD_IMM, reg, imm])
    requires reg < REG_COUNT
    ensures !StepDividesByZero(m)
    ensures Step(m) == m.(pc := Next(m.pc, 3), regs := m.regs[reg := imm])
  {
    assert m.mem[Next(m.pc, 0)] == OP_LOAD_IMM;
    assert Next(m.pc, 0) == m.pc;
    FetchReadable(m, OP_LOAD_IMM, 2);
    assert m.mem[Next(m.pc, 1)] == reg && m.mem[Next(m.pc, 2)] == imm;
  }

  /**
   * ADD, SUB, MLP and DIV with valid registers replace R[dst] by the 8-bit
   * result of R[dst] op R[src] (a zero divisor excluded); PC moves by 3, no
   * other register and no memory cell changes.
   */
  lemma ArithmeticStep(m: Machine, op: ArithOp, dst: Byte, src: Byte)
    requires WellFormed(m) && Readable(m, m.pc, 3) && Holds(m.mem, m.pc, [ArithOpcode(op), dst, src])
    requires dst < REG_COUNT && src < REG_COUNT
    requires op == Div ==> m.regs[src] != 0
    ensures !StepDividesByZero(m)
    ensures Step(m) == m.(pc := Next(m.pc, 3), regs := m.regs[dst := Alu(op, m.regs[dst], m.regs[src])])
  {
    assert m.mem[Next(m.pc, 0)] == ArithOpcode(op);
    assert Next(m.pc, 0) == m.pc;
    FetchReadable(m, ArithOpcode(op), 2);
    assert m.mem[Next(m.pc, 1)] == dst && m.mem[Next(m.pc, 2)] == src;
  }

  /**
   * A register operand of REG_COUNT or more halts the CPU once the operands
   * are read: registers and memory are left as they were and PC is past the
   * instruction.
   */
  lemma InvalidRegisterHalts(m: Machine, operands: seq<Byte>)
    requires WellFormed(m) && IsOpcode(m.mem[m.pc]) && |operands| == Width(m.mem[m.pc]) - 1
    requires Readable(m, m.pc, Width(m.mem[m.pc])) && Holds(m.mem, m.pc, [m.mem[m.pc]] + operands)
    requires var op := m.mem[m.pc];
      ((op == OP_LOAD_IMM || op == OP_STORE || op == OP_LOAD_MEM) && operands[0] >= REG_COUNT) ||
      ((op == OP_ADD || op == OP_SUB || op == OP_MLP || op == OP_DIV) &&
       (operands[0] >= REG_COUNT || operands[1] >= REG_COUNT))
    ensures !StepDividesByZero(m)
    ensures !Step(m).running && Step(m).regs == m.regs && Step(m).mem == m.mem
    ensures Step(m).pc == Next(m.pc, Width(m.mem[m.pc]))
  {
    var op := m.mem[m.pc];
    forall j | 0 <= j < |operands| ensures m.mem[Next(m.pc, j + 1)] == operands[j] {
      assert m.mem[Next(m.pc, j + 1)] == ([op] + operands)[j + 1];
    }
    if op == OP_STORE || op == OP_LOAD_MEM {
      FetchReadable(m, op, 3);
    } else {
      FetchReadable(m, op, 2);
    }
  }

  /**
   * When the opcode is read but one of its operand bytes is refused, the
   * handler's read fails and the CPU halts with registers and memory as they
   * were.
   */
  lemma OperandFetchFaultHalts(m: Machine)
    requires WellFormed(m) && Readable(m, m.pc, 1) && IsOpcode(m.mem[m.pc])
    requires !Readable(m, m.pc, Width(m.mem[m.pc]))
    ensures !StepDividesByZero(m)
    ensures !Step(m).running && Step(m).regs == m.regs && Step(m).mem == m.mem
  {
    var op := m.mem[m.pc];
    var k := Width(op) - 1;
    assert Next(m.pc, 0) == m.pc;
    assert IsAddressValid(m.pc, m.privileged);
    var j :| 0 <= j < k + 1 && !IsAddressValid(Next(m.pc, j), m.privileged);
    NextNext(m.pc, 1, j - 1);
    FetchOperandsReads(m.mem, Next(m.pc, 1), m.privileged, k);
  }

  /**
   * STORE with a valid register writes R[reg] to `hi * 256 + lo` and to no
   * other cell; if the privilege gate refuses the address, the CPU halts and
   * memory is unchanged. Either way PC ends past the four bytes.
   */
  lemma StoreStep(m: Machine, reg: Byte, hi: Byte, lo: Byte)
    requires WellFormed(m) && Readable(m, m.pc, 4) && Holds(m.mem, m.pc, [OP_STORE, reg, hi, lo])
    requires reg < REG_COUNT
    ensures !StepDividesByZero(m)
    ensures var addr := hi * 256 + lo;
      if IsAddressValid(addr, m.privileged)
      then Step(m) == m.(pc := Next(m.pc, 4), mem := m.mem[addr := m.regs[reg]])
      else Step(m) == m.(pc := Next(m.pc, 4), running := false)
  {
    assert m.mem[Next(m.pc, 0)] == OP_STORE;
    assert Next(m.pc, 0) == m.pc;
    FetchReadable(m, OP_STORE, 3);
    assert m.mem[Next(m.pc, 1)] == reg && m.mem[Next(m.pc, 2)] == hi && m.mem[Next(m.pc, 3)] == lo;
  }

  /**
   * LOAD_MEM with a valid register copies the cell `hi * 256 + lo` into it;
   * if the read is refused, the CPU halts with the register unchanged.
   */
  lemma LoadMemoryStep(m: Machine, reg: Byte, hi: Byte, lo: Byte)
    requires WellFormed(m) && Readable(m, m.pc, 4) && Holds(m.mem, m.pc, [OP_LOAD_MEM, reg, hi, lo])
    requires reg < REG_COUNT
    ensures !StepDividesByZero(m)
    ensures var addr := hi * 256 + lo;
      if IsAddressValid(addr, m.privileged)
      then Step(m) == m.(pc := Next(m.pc, 4), regs := m.regs[reg := m.mem[addr]])
      else Step(m) == m.(pc := Next(m.pc, 4), running := false)
  {
    assert m.mem[Next(m.pc, 0)] == OP_LOAD_MEM;
    assert Next(m.pc, 0) == m.pc;
    FetchReadable(m, OP_LOAD_MEM, 3);
    assert m.mem[Next(m.pc, 1)] == reg && m.mem[Next(m.pc, 2)] == hi && m.mem[Next(m.pc, 3)] == lo;
  }

  // ---------------------------------------------------------------------
  // The privilege gate, over whole runs

  /** The cells an unprivileged access may never reach. */
  function PrivilegedRange(mem: seq<Byte>): seq<Byte>
    requires |mem| == RAM_SIZE
  {
    mem[..RAM_PRIVILEGED_MODE_END + 1]
  }

  /** The cells an unprivileged access may reach. */
  function UserRange(mem: seq<Byte>): seq<Byte>
    requires |mem| == RAM_SIZE
  {
    mem[RAM_PRIVILEGED_MODE_END + 1..]
  }

  /** A step in user mode leaves every cell of the privileged range as it was. */
  lemma StepKeepsPrivilegedMemory(m: Machine)
    requires WellFormed(m) && !m.privileged && !StepDividesByZero(m)
    ensures PrivilegedRange(Step(m).mem) == PrivilegedRange(m.mem)
  {
  }

  /** However long a user-mode run goes on, no cell of the privileged range is written. */
  lemma RunKeepsPrivilegedMemory(m: Machine, fuel: nat)
    requires WellFormed(m) && !m.privileged && DivisionSafe(m, fuel)
    ensures PrivilegedRange(Run(m, fuel).mem) == PrivilegedRange(m.mem)
  {
    var t := Trace(m, fuel);
    TraceKeepsPrivilegedMemory(t, |t| - 1);
  }

  /** Along the states the loop passes through in user mode, the privileged range stays as it was. */
  lemma {:induction false} TraceKeepsPrivilegedMemory(t: seq<Machine>, i: nat)
    requires i < |t| && WellFormed(t[0]) && !t[0].privileged
    requires forall j :: 0 <= j < |t| ==> WellFormed(t[j])
    requires forall j :: 0 <= j < |t| - 1 ==> t[j].running && !StepDividesByZero(t[j]) && t[j + 1] == Step(t[j])
    ensures WellFormed(t[i]) && !t[i].privileged && PrivilegedRange(t[i].mem) == PrivilegedRange(t[0].mem)
  {
    if i > 0 {
      TraceKeepsPrivilegedMemory(t, i - 1);
      StepKeepsPrivilegedMemory(t[i - 1]);
    }
  }

  /**
   * Two machines an unprivileged observer cannot tell apart: they differ at
   * most in the cells of the privileged range.
   */
  predicate SameUserView(m1: Machine, m2: Machine)
    requires WellFormed(m1) && WellFormed(m2)
  {
    m1.pc == m2.pc && m1.regs == m2.regs && m1.running == m2.running &&
    m1.privileged == m2.privileged && UserRange(m1.mem) == UserRange(m2.mem)
  }

  lemma UserRangeAt(mem1: seq<Byte>, mem2: seq<Byte>, a: nat)
    requires |mem1| == RAM_SIZE && |mem2| == RAM_SIZE && UserRange(mem1) == UserRange(mem2)
    requires RAM_PRIVILEGED_MODE_END < a < RAM_SIZE
    ensures mem1[a] == mem2[a]
  {
    assert mem1[a] == UserRange(mem1)[a - RAM_PRIVILEGED_MODE_END - 1];
    assert mem2[a] == UserRange(mem2)[a - RAM_PRIVILEGED_MODE_END - 1];
  }

  /** Unprivileged operand reads see the same bytes in memories that agree above the gate. */
  lemma {:induction false} FetchIgnoresPrivilegedMemory(mem1: seq<Byte>, mem2: seq<Byte>, pc: Word, k: nat)
    requires |mem1| == RAM_SIZE && |mem2| == RAM_SIZE && UserRange(mem1) == UserRange(mem2)
    ensures FetchOperands(mem1, pc, false, k) == FetchOperands(mem2, pc, false, k)
    decreases k
  {
    if k > 0 && IsAddressValid(pc, false) {
      UserRangeAt(mem1, mem2, pc);
      FetchIgnoresPrivilegedMemory(mem1, mem2, Next(pc, 1), k - 1);
    }
  }

  /**
   * Non-interference of one user-mode step: what it does, and whether it
   * divides by zero, never depends on the privileged range, and it keeps two
   * machines indistinguishable.
   */
  lemma StepIgnoresPrivilegedMemory(m1: Machine, m2: Machine)
    requires WellFormed(m1) && WellFormed(m2) && !m1.privileged && SameUserView(m1, m2)
    ensures StepDividesByZero(m1) == StepDividesByZero(m2)
    ensures !StepDividesByZero(m1) ==> SameUserView(Step(m1), Step(m2))
  {
    if IsAddressValid(m1.pc, false) {
      var p := Next(m1.pc, 1);
      UserRangeAt(m1.mem, m2.mem, m1.pc);
      DispatchIgnoresPrivilegedMemory(m1.(pc := p), m2.(pc := p), m1.mem[m1.pc]);
    }
  }

  lemma DispatchIgnoresPrivilegedMemory(m1: Machine, m2: Machine, op: Byte)
    requires WellFormed(m1) && WellFormed(m2) && !m1.privileged && SameUserView(m1, m2)
    ensures DividesByZero(m1, op) == DividesByZero(m2, op)
    ensures !DividesByZero(m1, op) ==> SameUserView(Dispatch(m1, op), Dispatch(m2, op))
  {
    FetchIgnoresPrivilegedMemory(m1.mem, m2.mem, m1.pc, 2);
    FetchIgnoresPrivilegedMemory(m1.mem, m2.mem, m1.pc, 3);
    var f := FetchInstruction(m1, op);
    assert f == FetchInstruction(m2, op);
    if f.Fetched? {
      ExecuteIgnoresPrivilegedMemory(m1.(pc := f.next), m2.(pc := f.next), f.instr);
    }
  }

  lemma ExecuteIgnoresPrivilegedMemory(m1: Machine, m2: Machine, i: Instruction)
    requires WellFormed(m1) && WellFormed(m2) && !m1.privileged && SameUserView(m1, m2)
    ensures DivisionByZero(m1, i) == DivisionByZero(m2, i)
    ensures !DivisionByZero(m1, i) ==> SameUserView(Execute(m1, i), Execute(m2, i))
  {
    match i
    case RegAddr(mop, reg, addr) =>
      if reg < REG_COUNT && IsAddressValid(addr, false) {
        UserRangeAt(m1.mem, m2.mem, addr);
        if mop == Store {
          var v := m1.regs[reg];
          assert UserRange(m1.mem[addr := v]) == UserRange(m1.mem)[addr - RAM_PRIVILEGED_MODE_END - 1 := v];
          assert UserRange(m2.mem[addr := v]) == UserRange(m2.mem)[addr - RAM_PRIVILEGED_MODE_END - 1 := v];
        }
      }
    case _ =>
  }

  /** A halted machine stays as it is. */
  lemma HaltedRunIsIdle(m: Machine, fuel: nat)
    requires WellFormed(m) && !m.running
    ensures DivisionSafe(m, fuel) && Run(m, fuel) == m
  {
  }
}
