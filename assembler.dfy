/**
 * The assembler of src/assembler.c as the C file runs it: the static label
 * table, output buffer and location counter are the fields of `Assembler`,
 * each helper updates them in place, and `pass1`, `pass2` and `assemble`
 * loop over the source lines. Every method is proved to compute what the
 * functions of `Assembly` say.
 */
module Passes {
  import opened Isa
  import opened Results
  import opened Syntax
  import opened Assembly

  /** `find_instr`: a linear search of `instr_table`. */
  method FindInstr(mnemonic: string) returns (d: Option<TableRow>)
    ensures d == InstrNamed(mnemonic)
  {
    var i := 0;
    while i < |INSTR_TABLE|
      invariant 0 <= i <= |INSTR_TABLE|
      invariant InstrIndexFrom(mnemonic, i) == InstrIndexFrom(mnemonic, 0)
    {
      if INSTR_TABLE[i].mnemonic == mnemonic {
        return Some(INSTR_TABLE[i]);
      }
      i := i + 1;
    }
    return None;
  }

  /**
   * The line handling `pass1` and `pass2` share: `trim`, the blank-line and
   * comment test, `strchr` for the label, the `.org` test and `strtok` with
   * `find_instr` for a statement.
   */
  method ReadLine(text: string) returns (src: SourceLine)
    ensures src == ParseLine(text)
  {
    var p := Trim(text);
    if |p| == 0 || p[0] == ';' {
      return SourceLine(None, Empty);
    }
    var colon := IndexOf(p, ':');
    var labelName: Option<string> := None;
    if colon.Some? {
      var name := Trim(p[..colon.value]);
      labelName := Some(name);
      p := Trim(p[colon.value + 1..]);
      if |p| == 0 {
        return SourceLine(labelName, Empty);
      }
    }
    var body := ReadBody(p);
    return SourceLine(labelName, body);
  }

  /** What is left of a line after its label: a `.org` directive or a statement. */
  method ReadBody(p: string) returns (body: Body)
    ensures body == ParseBody(p)
  {
    if |p| == 0 {
      return Empty;
    }
    if |p| >= 4 && p[..4] == ".org" {
      var operand := Trim(p[4..]);
      return Org(ParseNumber(operand));
    }
    var tokens := Tokens(p);
    if |tokens| == 0 {
      return Statement(None, []);
    }
    var d := FindInstr(tokens[0]);
    return Statement(d, tokens[1..]);
  }

  class Assembler {
    /** `labels[0 .. label_count)`. */
    var labels: seq<Label>
    /** `output_buf[0 .. out_pos)`. */
    var output: seq<Byte>
    /** The location counter `pc`. */
    var pc: Word

    /** The static state as the program starts: no labels, no output, `pc` 0. */
    constructor ()
      ensures labels == [] && output == [] && pc == 0
    {
      labels := [];
      output := [];
      pc := 0;
    }

    /** `find_label`: the index of the first entry named `name`, or -1. */
    method FindLabel(name: string) returns (index: int)
      ensures index == LabelIndex(labels, name)
      ensures index >= 0 ==> index < |labels| && labels[index].name == name
    {
      var i := 0;
      while i < |labels|
        invariant 0 <= i <= |labels|
        invariant LabelIndexFrom(labels, name, i) == LabelIndex(labels, name)
      {
        if labels[i].name == name {
          return i;
        }
        i := i + 1;
      }
      return -1;
    }

    /** `add_label`: refuse a name already defined, otherwise append the entry. */
    method AddLabel(name: string, addr: Word, line: nat) returns (err: Option<AsmError>)
      modifies this
      ensures output == old(output) && pc == old(pc)
      ensures match Define(old(labels), name, addr, line)
        case Err(e) => err == Some(e) && labels == old(labels)
        case Ok(table) => err.None? && labels == table
    {
      var k := FindLabel(name);
      if k >= 0 {
        return Some(AsmError(line, "Duplicate label"));
      }
      labels := labels + [Label(name, addr)];
      return None;
    }

    /** `emit8`: append one byte to the output. */
    method Emit8(v: Byte)
      modifies this
      ensures output == old(output) + [v]
      ensures labels == old(labels) && pc == old(pc)
    {
      output := output + [v];
    }

    /** `emit16`: append a word, high byte first. */
    method Emit16(v: Word)
      modifies this
      ensures output == old(output) + Be16(v)
      ensures labels == old(labels) && pc == old(pc)
    {
      Emit8(v / 256);
      Emit8(v % 256);
    }

    /**
     * `emit_reg_imm_instruction` for LOAD_IMM, with the operand tokens `strtok`
     * would hand out. `reg_num` returns a `uint8_t`, so its `reg < 0` test
     * never fires and is left out.
     */
    method EmitRegImm(name: string, operands: seq<string>, line: nat) returns (err: Option<AsmError>)
      modifies this
      ensures labels == old(labels) && pc == old(pc)
      ensures match RegImm(name, operands, line)
        case Ok(i) => err.None? && output == old(output) + Encode(i)
        case Err(e) => err == Some(e) && output == old(output)
    {
      if |operands| < 1 {
        return Some(AsmError(line, "[" + name + "] Missing register operand"));
      }
      if |operands| < 2 {
        return Some(AsmError(line, "[" + name + "] Missing immediate operand"));
      }
      var reg := RegNum(operands[0]);
      var immediate := operands[1];
      if |immediate| > 0 && immediate[0] == '#' {
        immediate := immediate[1..];
      }
      assert immediate == Immediate(operands[1]);
      var imm: Byte := ParseNumber(immediate) % 256;
      ghost var start := output;
      Emit8(OP_LOAD_IMM);
      Emit8(reg);
      Emit8(imm);
      assert output == start + [OP_LOAD_IMM, reg, imm];
      assert output == start + Encode(LoadImm(reg, imm));
      return None;
    }

    /**
     * `emit_two_register_instruction` for the arithmetic operation `op`. The
     * `reg_num` results are never negative, so the invalid-register tests are
     * left out.
     */
    method EmitTwoRegister(op: ArithOp, name: string, operands: seq<string>, line: nat) returns (err: Option<AsmError>)
      modifies this
      ensures labels == old(labels) && pc == old(pc)
      ensures match TwoRegister(op, name, operands, line)
        case Ok(i) => err.None? && output == old(output) + Encode(i)
        case Err(e) => err == Some(e) && output == old(output)
    {
      if |operands| < 1 {
        return Some(AsmError(line, "[" + name + "] missing [DST] operand"));
      }
      if |operands| < 2 {
        return Some(AsmError(line, "[" + name + "] missing [SRC] operand"));
      }
      var dst := RegNum(operands[0]);
      var src := RegNum(operands[1]);
      Emit8(ArithOpcode(op));
      Emit8(dst);
      Emit8(src);
      return None;
    }

    /**
     * `emit_reg_addr_instruction` for STORE or LOAD_MEM: the address is a
     * number when its token starts with a digit, otherwise a label's address.
     */
    method EmitRegAddr(mop: MemOp, operands: seq<string>, line: nat) returns (err: Option<AsmError>)
      modifies this
      ensures labels == old(labels) && pc == old(pc)
      ensures match RegAddress(mop, operands, labels, line)
        case Ok(i) => err.None? && output == old(output) + Encode(i)
        case Err(e) => err == Some(e) && output == old(output)
    {
      if |operands| < 2 {
        return Some(AsmError(line, "Missing operands"));
      }
      var reg := RegNum(operands[0]);
      var address := ResolveAddress(operands[1]);
      if address.None? {
        return Some(AsmError(line, "Unknown label"));
      }
      ghost var start := output;
      Emit8(MemOpcode(mop));
      Emit8(reg);
      ghost var prefix := output;
      Emit16(address.value);
      assert output == prefix + Be16(address.value);
      assert prefix == start + [MemOpcode(mop), reg];
      assert output == start + Encode(RegAddr(mop, reg, address.value));
      return None;
    }

    /** The address token of `emit_reg_addr_instruction`: a number, or a label looked up. */
    method ResolveAddress(token: string) returns (address: Option<Word>)
      ensures address == AddressOperand(token, labels)
    {
      if StartsWithDigit(token) {
        return Some(ParseNumber(token));
      }
      var k := FindLabel(token);
      if k < 0 {
        return None;
      }
      return Some(labels[k].addr);
    }

    /**
     * `pass1`: number the lines from 1 and handle each in turn, stopping at
     * the first error. It relies on the static state being as the program
     * starts.
     */
    method Pass1(lines: seq<SourceLine>) returns (err: Option<AsmError>)
      requires labels == [] && pc == 0
      modifies this
      ensures output == old(output)
      ensures match Assembly.Pass1(lines, |lines|)
        case Ok(layout) => err.None? && labels == layout.labels && pc == layout.pc
        case Err(e) => err == Some(e)
    {
      var n := 0;
      while n < |lines|
        invariant 0 <= n <= |lines| && output == old(output)
        invariant Assembly.Pass1(lines, n) == Ok(Layout(labels, pc))
      {
        n := n + 1;
        err := Pass1Line(lines[n - 1], n);
        if err.Some? {
          Pass1Stops(lines, n, |lines|);
          return;
        }
      }
      return None;
    }

    /**
     * The body of the loop of `pass1` for a line already read: define its
     * label at the current location, follow `.org`, or advance by the
     * instruction's size.
     */
    method Pass1Line(src: SourceLine, line: nat) returns (err: Option<AsmError>)
      modifies this
      ensures output == old(output)
      ensures match Assembly.Pass1Line(Layout(old(labels), old(pc)), line, src)
        case Ok(layout) => err.None? && labels == layout.labels && pc == layout.pc
        case Err(e) => err == Some(e)
    {
      if src.labelName.Some? {
        err := AddLabel(src.labelName.value, pc, line);
        if err.Some? {
          return;
        }
      }
      err := None;
      match src.body {
        case Empty =>
        case Org(origin) =>
          pc := origin;
        case Statement(d, _) =>
          if d.None? {
            return Some(AsmError(line, "Unknown instruction"));
          }
          pc := Next(pc, d.value.size);
      }
    }

    /**
     * `pass2`: reset `pc` and `out_pos`, then go over the lines again,
     * stopping at the first error.
     */
    method Pass2(lines: seq<SourceLine>) returns (err: Option<AsmError>)
      modifies this
      ensures labels == old(labels)
      ensures match Assembly.Pass2(old(labels), lines, |lines|)
        case Ok(image) => err.None? && pc == image.pc && output == image.output
        case Err(e) => err == Some(e)
    {
      pc := 0;
      output := [];
      var n := 0;
      while n < |lines|
        invariant 0 <= n <= |lines| && labels == old(labels)
        invariant Assembly.Pass2(labels, lines, n) == Ok(Image(pc, output))
      {
        n := n + 1;
        err := Pass2Line(lines[n - 1], n);
        if err.Some? {
          Pass2Stops(labels, lines, n, |lines|);
          return;
        }
      }
      return None;
    }

    /**
     * The body of the loop of `pass2` for a line already read: follow
     * `.org`, or emit the statement and advance by its size.
     */
    method Pass2Line(src: SourceLine, line: nat) returns (err: Option<AsmError>)
      modifies this
      ensures labels == old(labels)
      ensures match Assembly.Pass2Line(labels, Image(old(pc), old(output)), line, src)
        case Ok(image) => err.None? && pc == image.pc && output == image.output
        case Err(e) => err == Some(e)
    {
      err := None;
      match src.body {
        case Empty =>
        case Org(origin) =>
          pc := origin;
        case Statement(d, operands) =>
          if d.None? {
            return Some(AsmError(line, "Unknown instruction"));
          }
          err := EmitStatement(d.value, operands, line);
          if err.None? {
            pc := Next(pc, d.value.size);
          }
      }
    }

    /**
     * The `switch` of `pass2`. Every row of `instr_table` has a case, so its
     * `default` never runs and is left out.
     */
    method EmitStatement(d: TableRow, operands: seq<string>, line: nat) returns (err: Option<AsmError>)
      modifies this
      ensures labels == old(labels) && pc == old(pc)
      ensures match Assemble1(d, operands, labels, line)
        case Ok(i) => err.None? && output == old(output) + Encode(i)
        case Err(e) => err == Some(e) && output == old(output)
    {
      if d.opcode == OP_LOAD_IMM {
        err := EmitRegImm("LOAD", operands, line);
      } else if d.opcode == OP_ADD {
        err := EmitTwoRegister(Add, "ADD", operands, line);
      } else if d.opcode == OP_SUB {
        err := EmitTwoRegister(Sub, "SUB", operands, line);
      } else if d.opcode == OP_MLP {
        err := EmitTwoRegister(Mlp, "MLP", operands, line);
      } else if d.opcode == OP_DIV {
        err := EmitTwoRegister(Div, "DIV", operands, line);
      } else if d.opcode == OP_STORE || d.opcode == OP_LOAD_MEM {
        err := EmitRegAddr(MemOf(d.opcode), operands, line);
      } else {
        Emit8(OP_HALT);
        err := None;
      }
    }
  }

  /**
   * The `fgets` loops of `pass1` and `pass2`: every line of the file, read
   * as `ReadLine` reads it. Reading a line changes nothing, so the lines are
   * read once here and both passes go over the same list.
   */
  method ReadLines(text: seq<string>) returns (lines: seq<SourceLine>)
    ensures lines == Parsed(text)
  {
    lines := [];
    var n := 0;
    while n < |text|
      invariant 0 <= n <= |text| && lines == Parsed(text[..n])
    {
      assert text[..n + 1][..n] == text[..n];
      var src := ReadLine(text[n]);
      lines := lines + [src];
      n := n + 1;
    }
    assert text[..n] == text;
  }

  /**
   * `assemble`: pass 1, then pass 2, on an assembler in its initial state;
   * the bytes it writes out, or the error `fatal` reports.
   */
  method Assemble(text: seq<string>) returns (r: Result<seq<Byte>, AsmError>)
    ensures r == Assembled(text)
  {
    var lines := ReadLines(text);
    var asm := new Assembler();
    var err := asm.Pass1(lines);
    if err.Some? {
      return Err(err.value);
    }
    err := asm.Pass2(lines);
    if err.Some? {
      return Err(err.value);
    }
    return Ok(asm.output);
  }
}
