/**
 * What ties the three programs of the repository together: the engine
 * executes exactly what the disassembler lists, and disassembling what the
 * assembler wrote lists the assembled program back.
 */
module Agreement {
  import opened Isa
  import opened Memory
  import opened Results
  import Assembly
  import Disassembly
  import Semantics

  /**
   * When every byte of the instruction at PC may be read, one step of
   * `cpu_run` executes exactly the instruction the disassembler lists at PC,
   * with PC moved past it, and divides by zero exactly when that
   * instruction does.
   */
  lemma StepExecutesListedInstruction(m: Semantics.Machine)
    requires Semantics.WellFormed(m)
    requires Semantics.Readable(m, m.pc, |Encode(Disassembly.Decode(m.mem, m.pc).instr)|)
    ensures var d := Disassembly.Decode(m.mem, m.pc);
      Semantics.StepDividesByZero(m) == Semantics.DivisionByZero(m.(pc := d.next), d.instr) &&
      (!Semantics.StepDividesByZero(m) ==> Semantics.Step(m) == Semantics.Execute(m.(pc := d.next), d.instr))
  {
    var d := Disassembly.Decode(m.mem, m.pc);
    var bytes := Encode(d.instr);
    var op := m.mem[m.pc];
    Semantics.FetchReadable(m, op, |bytes| - 1);
    var p := m.(pc := Next(m.pc, 1));
    var f := Semantics.FetchInstruction(p, op);
    assert f == Semantics.Fetched(d.instr, d.next) by {
      if d.instr.RegAddr? {
        var (bs, next) := Semantics.FetchOperands(m.mem, Next(m.pc, 1), m.privileged, 3);
        assert bs.value == bytes[1..];
        assert Be16(d.instr.addr) == bytes[2..];
      } else if d.instr.LoadImm? || d.instr.TwoReg? {
        var (bs, next) := Semantics.FetchOperands(m.mem, Next(m.pc, 1), m.privileged, 2);
        assert bs.value == bytes[1..];
      }
    }
  }

  /**
   * Disassembling what the assembler wrote: when pass 1 and pass 2 succeed
   * on the source lines and their bytes are loaded from `start` on, the
   * listing from `start` to the last loaded byte `end` is the program of the
   * source lines, statement by statement, each at its address.
   */
  lemma AssembledCodeLists(lines: seq<Assembly.SourceLine>, bytes: seq<Byte>, mem: seq<Byte>, start: Word, end: Word)
    requires Assembly.AssembledLines(lines) == Ok(bytes)
    requires |mem| == RAM_SIZE && start + |bytes| == end + 1 && Holds(mem, start, bytes)
    ensures Assembly.Pass1(lines, |lines|).Ok?
    ensures Disassembly.Listing(mem, start, end) ==
      Disassembly.Entries(Assembly.Program(Assembly.Pass1(lines, |lines|).value.labels, lines, |lines|), start)
  {
    Assembly.AssembledIsProgram(lines);
    var prog := Assembly.Program(Assembly.Pass1(lines, |lines|).value.labels, lines, |lines|);
    assert forall k :: 0 <= k < |prog| ==> Canonical(prog[k]);
    Disassembly.ListingOfProgram(mem, prog, start, end);
  }
}
