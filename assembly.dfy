/**
 * The two-pass assembler of src/assembler.c. The functions state what each
 * pass computes, line by line; the class `Assembler` runs the passes with the
 * global state of the C file (label table, output buffer, location counter)
 * as its fields and is proved to compute exactly those functions.
 */
module Assembly {
  import opened Isa
  import opened Results
  import opened Syntax

  // ---------------------------------------------------------------------
  // instr_table and the label table

  /** An `instr_table` row. */
  datatype InstrDef = InstrDef(mnemonic: string, opcode: Byte, size: nat)

  const INSTR_TABLE: seq<InstrDef> := [
    InstrDef("LOAD_IMM", OP_LOAD_IMM, 3),
    InstrDef("ADD", OP_ADD, 3),
    InstrDef("SUB", OP_SUB, 3),
    InstrDef("MLP", OP_MLP, 3),
    InstrDef("DIV", OP_DIV, 3),
    InstrDef("STORE", OP_STORE, 4),
    InstrDef("LOAD_MEM", OP_LOAD_MEM, 4),
    InstrDef("HALT", OP_HALT, 1)
  ]

  /** A row that is in `instr_table`. */
  type TableRow = d: InstrDef | d in INSTR_TABLE witness InstrDef("HALT", OP_HALT, 1)

  /**
   * Every row of `instr_table` is an opcode of the instruction set, and its
   * size is the length of that opcode's format, which the disassembler and
   * the handlers use to move PC on.
   */
  lemma TableSizesAreWidths(d: InstrDef)
    requires d in INSTR_TABLE
    ensures IsOpcode(d.opcode) && d.size == Width(d.opcode)
  {
  }

  /** The first row of `instr_table` from row `k` on whose mnemonic is `mnemonic`, or -1. */
  function InstrIndexFrom(mnemonic: string, k: nat): (r: int)
    requires k <= |INSTR_TABLE|
    ensures r == -1 || k <= r < |INSTR_TABLE|
    ensures r >= 0 ==> INSTR_TABLE[r].mnemonic == mnemonic
    ensures forall j :: k <= j < |INSTR_TABLE| && (r < 0 || j < r) ==> INSTR_TABLE[j].mnemonic != mnemonic
    decreases |INSTR_TABLE| - k
  {
    if k == |INSTR_TABLE| then -1
    else if INSTR_TABLE[k].mnemonic == mnemonic then k
    else InstrIndexFrom(mnemonic, k + 1)
  }

  /** What `find_instr` finds: the row named `mnemonic`, or nothing (NULL). */
  function InstrNamed(mnemonic: string): (r: Option<TableRow>)
    ensures r.Some? ==> r.value.mnemonic == mnemonic
    ensures r.None? ==> forall d :: d in INSTR_TABLE ==> d.mnemonic != mnemonic
  {
    var k := InstrIndexFrom(mnemonic, 0);
    if k < 0 then None else Some(INSTR_TABLE[k])
  }

  /** A `Label` entry. Names are compared whole (the 64-character cut is not modelled). */
  datatype Label = Label(name: string, addr: Word)

  /** The first entry from entry `k` on named `name`, or -1. */
  function LabelIndexFrom(labels: seq<Label>, name: string, k: nat): (r: int)
    requires k <= |labels|
    ensures r == -1 || k <= r < |labels|
    ensures r >= 0 ==> labels[r].name == name
    ensures forall j :: k <= j < |labels| && (r < 0 || j < r) ==> labels[j].name != name
    decreases |labels| - k
  {
    if k == |labels| then -1
    else if labels[k].name == name then k
    else LabelIndexFrom(labels, name, k + 1)
  }

  /** What `find_label` returns: the index of the first entry named `name`, or -1. */
  function LabelIndex(labels: seq<Label>, name: string): (r: int)
    ensures r == -1 || 0 <= r < |labels|
    ensures r >= 0 ==> labels[r].name == name && forall j :: 0 <= j < r ==> labels[j].name != name
    ensures r == -1 <==> forall j :: 0 <= j < |labels| ==> labels[j].name != name
  {
    LabelIndexFrom(labels, name, 0)
  }

  /** What `exit(1)` after `fatal` reports: the 1-based line number and the message. */
  datatype AsmError = AsmError(line: nat, message: string)

  /**
   * `add_label` on the table `labels`: a name already in the table is the
   * fatal error "Duplicate label"; otherwise the entry is appended.
   */
  function Define(labels: seq<Label>, name: string, addr: Word, line: nat): (r: Result<seq<Label>, AsmError>)
    ensures r.Err? <==> exists j :: 0 <= j < |labels| && labels[j].name == name
    ensures r.Err? ==> r.error == AsmError(line, "Duplicate label")
    ensures r.Ok? ==> r.value == labels + [Label(name, addr)]
  {
    if LabelIndex(labels, name) >= 0 then Err(AsmError(line, "Duplicate label"))
    else Ok(labels + [Label(name, addr)])
  }

  // ---------------------------------------------------------------------
  // One source line

  /**
   * What is left of a line once blank lines, comments and a label are taken
   * off: nothing, an `.org` directive, or a statement, given as the
   * `instr_table` row its first token names (if any) and the operand tokens.
   */
  datatype Body = Empty | Org(origin: Word) | Statement(def: Option<TableRow>, operands: seq<string>)

  datatype SourceLine = SourceLine(labelName: Option<string>, body: Body)

  /**
   * The line handling both passes share: trim; skip an empty line or one that
   * starts with ';'; split at the first ':' into a trimmed label and the
   * trimmed rest (nothing left: skip); a rest starting with ".org" sets the
   * location counter; anything else is split into tokens at blanks and
   * commas, and its first token is looked up in `instr_table`.
   */
  function ParseLine(text: string): (r: SourceLine)
    ensures (forall k :: 0 <= k < |text| ==> text[k] != ':') ==> r.labelName.None?
    ensures r.labelName.Some? ==> NoColon(r.labelName.value) && Trimmed(r.labelName.value) == r.labelName.value
  {
    var p := Trimmed(text);
    TrimmedIsSlice(text);
    if |p| == 0 || p[0] == ';' then SourceLine(None, Empty)
    else match IndexOf(p, ':')
      case None => SourceLine(None, ParseBody(p))
      case Some(c) =>
        TrimmedIsSlice(p[..c]);
        TrimIdempotent(p[..c]);
        SourceLine(Some(Trimmed(p[..c])), ParseBody(Trimmed(p[c + 1..])))
  }

  /** `s` holds no ':'. */
  predicate NoColon(s: string) {
    forall k :: 0 <= k < |s| ==> s[k] != ':'
  }

  /**
   * The body of a line: nothing exactly when it is empty, an `.org` exactly
   * when it starts with ".org", and otherwise a statement whose tokens are
   * the mnemonic followed by the operands.
   */
  function ParseBody(p: string): (b: Body)
    ensures b == Empty <==> |p| == 0
    ensures b.Org? <==> |p| >= 4 && p[..4] == ".org"
    ensures b.Statement? && b.def.Some? ==> Tokens(p) == [b.def.value.mnemonic] + b.operands
    ensures b.Statement? ==> forall k :: 0 <= k < |b.operands| ==> |b.operands[k]| > 0 && NoDelim(b.operands[k])
  {
    if |p| == 0 then Empty
    else if |p| >= 4 && p[..4] == ".org" then Org(ParseNumber(Trimmed(p[4..])))
    else
      var tokens := Tokens(p);
      if |tokens| == 0 then Statement(None, [])
      else
        assert tokens == [tokens[0]] + tokens[1..];
        Statement(InstrNamed(tokens[0]), tokens[1..])
  }

  // ---------------------------------------------------------------------
  // The emit_* helpers, as the instruction they emit

  /**
   * `emit_reg_imm_instruction`: a register and an immediate, an optional '#'
   * dropped from the immediate, which is cut to 8 bits.
   */
  function RegImm(name: string, operands: seq<string>, line: nat): (r: Result<Instruction, AsmError>)
    ensures r.Err? <==> |operands| < 2
    ensures r.Ok? ==> r.value == LoadImm(RegNum(operands[0]), ParseNumber(Immediate(operands[1])) % 256)
  {
    if |operands| < 1 then Err(AsmError(line, "[" + name + "] Missing register operand"))
    else if |operands| < 2 then Err(AsmError(line, "[" + name + "] Missing immediate operand"))
    else
      var reg := RegNum(operands[0]);
      if reg < 0 then Err(AsmError(line, "[" + name + "] Invalid register"))
      else Ok(LoadImm(reg, ParseNumber(Immediate(operands[1])) % 256))
  }

  /** An immediate token without its leading '#', if it has one. */
  function Immediate(token: string): string {
    if |token| > 0 && token[0] == '#' then token[1..] else token
  }

  /** `emit_two_register_instruction`: a destination and a source register. */
  function TwoRegister(op: ArithOp, name: string, operands: seq<string>, line: nat): (r: Result<Instruction, AsmError>)
    ensures r.Err? <==> |operands| < 2
    ensures r.Ok? ==> r.value == TwoReg(op, RegNum(operands[0]), RegNum(operands[1]))
  {
    if |operands| < 1 then Err(AsmError(line, "[" + name + "] missing [DST] operand"))
    else if |operands| < 2 then Err(AsmError(line, "[" + name + "] missing [SRC] operand"))
    else
      var dst := RegNum(operands[0]);
      var src := RegNum(operands[1]);
      if dst < 0 then Err(AsmError(line, "[" + name + "] Invalid [DST] register"))
      else if src < 0 then Err(AsmError(line, "[" + name + "] Invalid [SRC] register"))
      else Ok(TwoReg(op, dst, src))
  }

  /**
   * `emit_reg_addr_instruction`: a register and an address, which is a number
   * when its token starts with a digit and otherwise must name a label.
   */
  function RegAddress(mop: MemOp, operands: seq<string>, labels: seq<Label>, line: nat): (r: Result<Instruction, AsmError>)
    ensures r.Err? <==> |operands| < 2 || (!StartsWithDigit(operands[1]) && LabelIndex(labels, operands[1]) < 0)
    ensures r.Ok? ==> r.value.RegAddr? && r.value.mop == mop && r.value.reg == RegNum(operands[0])
    ensures r.Ok? && StartsWithDigit(operands[1]) ==> r.value.addr == ParseNumber(operands[1])
    ensures r.Ok? && !StartsWithDigit(operands[1]) ==> r.value.addr == labels[LabelIndex(labels, operands[1])].addr
  {
    if |operands| < 2 then Err(AsmError(line, "Missing operands"))
    else
      var reg := RegNum(operands[0]);
      if reg < 0 then Err(AsmError(line, "Invalid register"))
      else
        match AddressOperand(operands[1], labels)
        case None => Err(AsmError(line, "Unknown label"))
        case Some(addr) => Ok(RegAddr(mop, reg, addr))
  }

  /**
   * The address operand of `emit_reg_addr_instruction`: a number when the
   * token starts with a digit, otherwise the address of the label it names.
   */
  function AddressOperand(token: string, labels: seq<Label>): (r: Option<Word>)
    ensures r.None? <==> !StartsWithDigit(token) && LabelIndex(labels, token) < 0
    ensures StartsWithDigit(token) ==> r == Some(ParseNumber(token))
    ensures !StartsWithDigit(token) && r.Some? ==> r.value == labels[LabelIndex(labels, token)].addr
  {
    if StartsWithDigit(token) then Some(ParseNumber(token))
    else
      var k := LabelIndex(labels, token);
      if k < 0 then None else Some(labels[k].addr)
  }

  predicate StartsWithDigit(token: string) {
    |token| > 0 && IsDigit(token[0])
  }

  /**
   * The `switch` of pass 2: the instruction a table row and its operand
   * tokens assemble to. Its encoding starts with the row's opcode and is
   * exactly the row's size long.
   */
  function Assemble1(d: TableRow, operands: seq<string>, labels: seq<Label>, line: nat): (r: Result<Instruction, AsmError>)
    ensures r.Ok? ==> IsInstruction(r.value) && OpcodeOf(r.value) == d.opcode && |Encode(r.value)| == d.size
  {
    TableSizesAreWidths(d);
    if d.opcode == OP_LOAD_IMM then RegImm("LOAD", operands, line)
    else if d.opcode == OP_ADD then TwoRegister(Add, "ADD", operands, line)
    else if d.opcode == OP_SUB then TwoRegister(Sub, "SUB", operands, line)
    else if d.opcode == OP_MLP then TwoRegister(Mlp, "MLP", operands, line)
    else if d.opcode == OP_DIV then TwoRegister(Div, "DIV", operands, line)
    else if d.opcode == OP_STORE || d.opcode == OP_LOAD_MEM then RegAddress(MemOf(d.opcode), operands, labels, line)
    else if d.opcode == OP_HALT then Ok(Halt)
    else Err(AsmError(line, "Unhandled opcode"))
  }

  // ---------------------------------------------------------------------
  // pass1 and pass2

  /** The state pass 1 builds: the label table and the location counter `pc`. */
  datatype Layout = Layout(labels: seq<Label>, pc: Word)

  /** One line of `pass1`; `line` is its 1-based number. */
  function Pass1Line(st: Layout, line: nat, src: SourceLine): (r: Result<Layout, AsmError>)
    ensures r.Err? ==> r.error.line == line
    ensures r.Ok? ==> r.value.labels == st.labels + LabelOf(src, st.pc)
    ensures r.Ok? ==> r.value.pc == if src.body.Org? then src.body.origin else Next(st.pc, LineSize(src))
  {
    var labels :- if src.labelName.Some? then Define(st.labels, src.labelName.value, st.pc, line) else Ok(st.labels);
    match src.body
    case Empty => Ok(Layout(labels, st.pc))
    case Org(a) => Ok(Layout(labels, a))
    case Statement(d, _) =>
      if d.None? then Err(AsmError(line, "Unknown instruction"))
      else Ok(Layout(labels, Next(st.pc, d.value.size)))
  }

  /** `pass1` over the first `n` lines, from an empty table and `pc` 0. */
  function Pass1(lines: seq<SourceLine>, n: nat): (r: Result<Layout, AsmError>)
    requires n <= |lines|
    ensures r.Err? ==> 1 <= r.error.line <= n
  {
    if n == 0 then Ok(Layout([], 0))
    else
      match Pass1(lines, n - 1)
      case Err(e) => Err(e)
      case Ok(st) => Pass1Line(st, n, lines[n - 1])
  }

  /** The state pass 2 builds: the location counter and the output buffer. */
  datatype Image = Image(pc: Word, output: seq<Byte>)

  /** One line of `pass2`, with the label table pass 1 built. */
  function Pass2Line(labels: seq<Label>, st: Image, line: nat, src: SourceLine): (r: Result<Image, AsmError>)
    ensures r.Err? ==> r.error.line == line
  {
    match src.body
    case Empty => Ok(st)
    case Org(a) => Ok(st.(pc := a))
    case Statement(d, operands) =>
      if d.None? then Err(AsmError(line, "Unknown instruction"))
      else
        var i :- Assemble1(d.value, operands, labels, line);
        Ok(Image(Next(st.pc, d.value.size), st.output + Encode(i)))
  }

  /** `pass2` over the first `n` lines: `pc` and `out_pos` start at 0. */
  function Pass2(labels: seq<Label>, lines: seq<SourceLine>, n: nat): (r: Result<Image, AsmError>)
    requires n <= |lines|
    ensures r.Err? ==> 1 <= r.error.line <= n
  {
    if n == 0 then Ok(Image(0, []))
    else
      match Pass2(labels, lines, n - 1)
      case Err(e) => Err(e)
      case Ok(st) => Pass2Line(labels, st, n, lines[n - 1])
  }

  /** `assemble`: pass 1 over all lines, then pass 2; the bytes written out. */
  function Assembled(text: seq<string>): (r: Result<seq<Byte>, AsmError>)
    ensures r.Err? ==> 1 <= r.error.line <= |text|
    ensures r.Ok? ==> Pass1(Parsed(text), |text|).Ok?
    ensures r.Ok? ==> r.value == EncodeAll(Program(Pass1(Parsed(text), |text|).value.labels, Parsed(text), |text|))
  {
    var r := AssembledLines(Parsed(text));
    if r.Ok? then AssembledIsProgram(Parsed(text)); r else r
  }

  /** Both passes over lines already parsed. */
  function AssembledLines(lines: seq<SourceLine>): (r: Result<seq<Byte>, AsmError>)
    ensures r.Err? ==> 1 <= r.error.line <= |lines|
    ensures r.Ok? ==> Pass1(lines, |lines|).Ok? && Pass2(Pass1(lines, |lines|).value.labels, lines, |lines|).Ok?
  {
    var layout :- Pass1(lines, |lines|);
    var image :- Pass2(layout.labels, lines, |lines|);
    Ok(image.output)
  }

  /** Every line of the source, parsed. */
  function Parsed(text: seq<string>): (lines: seq<SourceLine>)
    ensures |lines| == |text| && forall i :: 0 <= i < |text| ==> lines[i] == ParseLine(text[i])
  {
    if |text| == 0 then [] else Parsed(text[..|text| - 1]) + [ParseLine(text[|text| - 1])]
  }

  /** The entry a line adds to the label table when it is at location `pc`. */
  function LabelOf(src: SourceLine, pc: Word): seq<Label> {
    if src.labelName.Some? then [Label(src.labelName.value, pc)] else []
  }

  // ---------------------------------------------------------------------
  // What the passes promise

  /** The first entry from `k` on named `name` is at `i`. */
  lemma {:induction false} LabelIndexIs(labels: seq<Label>, name: string, k: nat, i: nat)
    requires k <= i < |labels| && labels[i].name == name
    requires forall j :: k <= j < i ==> labels[j].name != name
    ensures LabelIndexFrom(labels, name, k) == i
    decreases i - k
  {
    if k < i {
      LabelIndexIs(labels, name, k + 1, i);
    }
  }

  /** Appending entries does not move the first entry of a name already present. */
  lemma LabelIndexExtend(labels: seq<Label>, more: seq<Label>, name: string)
    requires LabelIndex(labels, name) >= 0
    ensures LabelIndex(labels + more, name) == LabelIndex(labels, name)
  {
    var i := LabelIndex(labels, name);
    assert forall j :: 0 <= j < |labels| ==> (labels + more)[j] == labels[j];
    LabelIndexIs(labels + more, name, 0, i);
  }

  /** A name new to the table is found at the entry appended for it. */
  lemma LabelIndexNew(labels: seq<Label>, name: string, addr: Word)
    requires LabelIndex(labels, name) < 0
    ensures LabelIndex(labels + [Label(name, addr)], name) == |labels|
  {
    var ls := labels + [Label(name, addr)];
    assert forall j :: 0 <= j < |labels| ==> ls[j] == labels[j];
    LabelIndexIs(ls, name, 0, |labels|);
  }

  /** Once pass 1 has failed, it stops there: later lines change nothing. */
  lemma {:induction false} Pass1Stops(lines: seq<SourceLine>, m: nat, n: nat)
    requires m <= n <= |lines| && Pass1(lines, m).Err?
    ensures Pass1(lines, n) == Pass1(lines, m)
    decreases n
  {
    if n > m {
      Pass1Stops(lines, m, n - 1);
    }
  }

  /** Once pass 2 has failed, it stops there: later lines change nothing. */
  lemma {:induction false} Pass2Stops(labels: seq<Label>, lines: seq<SourceLine>, m: nat, n: nat)
    requires m <= n <= |lines| && Pass2(labels, lines, m).Err?
    ensures Pass2(labels, lines, n) == Pass2(labels, lines, m)
    decreases n
  {
    if n > m {
      Pass2Stops(labels, lines, m, n - 1);
      var prev := Pass2(labels, lines, n - 1);
      assert Pass2(labels, lines, n) == Err(prev.error);
    }
  }

  /** Pass 1 only ever appends to the label table. */
  lemma {:induction false} LabelsGrow(lines: seq<SourceLine>, m: nat, n: nat)
    requires m <= n <= |lines| && Pass1(lines, n).Ok?
    ensures Pass1(lines, m).Ok? && Pass1(lines, m).value.labels <= Pass1(lines, n).value.labels
    decreases n
  {
    if n > m {
      LabelsGrow(lines, m, n - 1);
    }
  }

  /**
   * After a successful pass 1, looking up a label defined on line `k` gives
   * the location counter as it stood when pass 1 reached that line.
   */
  lemma LabelBoundToCursor(lines: seq<SourceLine>, k: nat, name: string)
    requires 1 <= k <= |lines| && Pass1(lines, |lines|).Ok?
    requires lines[k - 1].labelName == Some(name)
    ensures Pass1(lines, k - 1).Ok?
    ensures var labels := Pass1(lines, |lines|).value.labels;
      0 <= LabelIndex(labels, name) < |labels| && labels[LabelIndex(labels, name)].addr == Pass1(lines, k - 1).value.pc
  {
    LabelsGrow(lines, k, |lines|);
    var before := Pass1(lines, k - 1).value;
    var at := Pass1(lines, k).value.labels;
    var labels := Pass1(lines, |lines|).value.labels;
    assert at == before.labels + [Label(name, before.pc)];
    assert LabelIndex(before.labels, name) < 0;
    LabelIndexNew(before.labels, name, before.pc);
    assert labels == at + labels[|at|..];
    LabelIndexExtend(at, labels[|at|..], name);
  }

  /** Defining the same label on two lines makes pass 1, and so the assembly, fail. */
  lemma DuplicateLabelRejected(lines: seq<SourceLine>, j: nat, k: nat, name: string)
    requires 1 <= j < k <= |lines|
    requires lines[j - 1].labelName == Some(name) && lines[k - 1].labelName == Some(name)
    ensures Pass1(lines, |lines|).Err? && Pass1(lines, |lines|).error.line <= k
    ensures AssembledLines(lines) == Err(Pass1(lines, |lines|).error)
  {
    if Pass1(lines, k - 1).Ok? {
      RedefinitionFails(lines, j, k, name);
    }
    Pass1Stops(lines, k, |lines|);
  }

  /** When pass 1 reaches line `k` intact, the second definition of `name` there fails. */
  lemma RedefinitionFails(lines: seq<SourceLine>, j: nat, k: nat, name: string)
    requires 1 <= j < k <= |lines| && Pass1(lines, k - 1).Ok?
    requires lines[j - 1].labelName == Some(name) && lines[k - 1].labelName == Some(name)
    ensures Pass1(lines, k) == Err(AsmError(k, "Duplicate label"))
  {
    LabelsGrow(lines, j, k - 1);
    var atJ := Pass1(lines, j).value.labels;
    var before := Pass1(lines, k - 1).value.labels;
    var st := Pass1(lines, j - 1).value;
    assert atJ == st.labels + [Label(name, st.pc)];
    assert LabelIndex(st.labels, name) < 0;
    LabelIndexNew(st.labels, name, st.pc);
    assert before == atJ + before[|atJ|..];
    LabelIndexExtend(atJ, before[|atJ|..], name);
  }

  /**
   * A statement whose first token is not in `instr_table` makes pass 1 fail,
   * so the assembly fails before pass 2 emits a byte.
   */
  lemma UnknownInstructionRejected(lines: seq<SourceLine>, k: nat)
    requires 1 <= k <= |lines|
    requires lines[k - 1].body.Statement? && lines[k - 1].body.def.None?
    ensures Pass1(lines, |lines|).Err? && Pass1(lines, |lines|).error.line <= k
    ensures AssembledLines(lines) == Err(Pass1(lines, |lines|).error)
  {
    if Pass1(lines, k - 1).Ok? {
      assert Pass1(lines, k).Err?;
    }
    Pass1Stops(lines, k, |lines|);
  }

  /**
   * Both passes move the location counter the same way: at every line the
   * counter of pass 2 equals the counter of pass 1.
   */
  lemma {:induction false} CursorsAgree(labels: seq<Label>, lines: seq<SourceLine>, n: nat)
    requires n <= |lines| && Pass1(lines, n).Ok? && Pass2(labels, lines, n).Ok?
    ensures Pass2(labels, lines, n).value.pc == Pass1(lines, n).value.pc
  {
    if n > 0 {
      CursorsAgree(labels, lines, n - 1);
    }
  }

  /** The bytes line `text` contributes: its row's size, or none. */
  function LineSize(src: SourceLine): nat {
    match src.body
    case Statement(d, _) => (if d.Some? then d.value.size else 0)
    case _ => 0
  }

  /** The total size of the instructions in the first `n` lines. */
  function CodeSize(lines: seq<SourceLine>, n: nat): nat
    requires n <= |lines|
  {
    if n == 0 then 0 else CodeSize(lines, n - 1) + LineSize(lines[n - 1])
  }

  /**
   * Pass 2 emits exactly each instruction's table size, whatever `.org` says:
   * the output holds the sizes of the instructions so far, end to end.
   */
  lemma {:induction false} OutputSize(labels: seq<Label>, lines: seq<SourceLine>, n: nat)
    requires n <= |lines| && Pass2(labels, lines, n).Ok?
    ensures |Pass2(labels, lines, n).value.output| == CodeSize(lines, n)
  {
    if n > 0 {
      OutputSize(labels, lines, n - 1);
      Pass2LineOutput(labels, Pass2(labels, lines, n - 1).value, n, lines[n - 1]);
    }
  }

  /** No line among the first `n` is an `.org` directive. */
  predicate NoOrg(lines: seq<SourceLine>, n: nat)
    requires n <= |lines|
  {
    forall k :: 0 <= k < n ==> !lines[k].body.Org?
  }

  /** Without `.org`, the location counter of pass 1 is the size of the code so far, in 16 bits. */
  lemma {:induction false} Pass1PcIsCodeSize(lines: seq<SourceLine>, n: nat)
    requires n <= |lines| && NoOrg(lines, n) && Pass1(lines, n).Ok?
    ensures Pass1(lines, n).value.pc == CodeSize(lines, n) % 0x10000
  {
    if n > 0 {
      var src := lines[n - 1];
      assert !src.body.Org?;
      Pass1PcIsCodeSize(lines, n - 1);
      NextOfCut(CodeSize(lines, n - 1), LineSize(src));
    }
  }

  /**
   * Without `.org`, a label is bound to the offset in the output of the code
   * that follows it: the number of bytes pass 2 has written before its line,
   * in 16 bits.
   */
  lemma LabelIsOutputOffset(lines: seq<SourceLine>, k: nat, name: string)
    requires 1 <= k <= |lines| && NoOrg(lines, |lines|) && AssembledLines(lines).Ok?
    requires lines[k - 1].labelName == Some(name)
    ensures Pass1(lines, |lines|).Ok? && Pass2(Pass1(lines, |lines|).value.labels, lines, k - 1).Ok?
    ensures var labels := Pass1(lines, |lines|).value.labels;
      0 <= LabelIndex(labels, name) &&
      labels[LabelIndex(labels, name)].addr == |Pass2(labels, lines, k - 1).value.output| % 0x10000
  {
    var labels := Pass1(lines, |lines|).value.labels;
    LabelBoundToCursor(lines, k, name);
    if Pass2(labels, lines, k - 1).Err? {
      Pass2Stops(labels, lines, k - 1, |lines|);
    }
    Pass1PcIsCodeSize(lines, k - 1);
    OutputSize(labels, lines, k - 1);
  }

  /** What one line adds to the output of pass 2: nothing, or its instruction's encoding. */
  lemma Pass2LineOutput(labels: seq<Label>, st: Image, line: nat, src: SourceLine)
    requires Pass2Line(labels, st, line, src).Ok?
    ensures src.body.Statement? ==> src.body.def.Some? && Assemble1(src.body.def.value, src.body.operands, labels, line).Ok?
    ensures var out := Pass2Line(labels, st, line, src).value.output;
      if src.body.Statement? then
        out == st.output + Encode(Assemble1(src.body.def.value, src.body.operands, labels, line).value) &&
        |out| == |st.output| + LineSize(src)
      else out == st.output
  {
  }

  /** Every element is an instruction, not a data byte. */
  predicate AllInstructions(prog: seq<Instruction>) {
    forall k :: 0 <= k < |prog| ==> IsInstruction(prog[k])
  }

  /** The instruction a line assembles to: one for a statement that assembles, none otherwise. */
  function LineProgram(labels: seq<Label>, src: SourceLine, line: nat): (prog: seq<Instruction>)
    ensures |prog| <= 1 && AllInstructions(prog)
  {
    match src.body
    case Statement(Some(d), operands) =>
      (match Assemble1(d, operands, labels, line)
       case Ok(i) => [i]
       case Err(_) => [])
    case _ => []
  }

  /**
   * The program the first `n` lines stand for: the instruction each
   * statement line assembles to, in the order of the lines, with no data
   * bytes among them.
   */
  function Program(labels: seq<Label>, lines: seq<SourceLine>, n: nat): (prog: seq<Instruction>)
    requires n <= |lines|
    ensures |prog| <= n && AllInstructions(prog)
  {
    if n == 0 then []
    else
      var before := Program(labels, lines, n - 1);
      var line := LineProgram(labels, lines[n - 1], n);
      assert forall k :: 0 <= k < |before| ==> (before + line)[k] == before[k];
      assert forall k :: |before| <= k < |before| + |line| ==> (before + line)[k] == line[k - |before|];
      before + line
  }

  /** What the assembler writes out is the encoding of the program of its lines. */
  lemma AssembledIsProgram(lines: seq<SourceLine>)
    requires AssembledLines(lines).Ok?
    ensures Pass1(lines, |lines|).Ok?
    ensures AssembledLines(lines).value == EncodeAll(Program(Pass1(lines, |lines|).value.labels, lines, |lines|))
  {
    OutputIsProgram(Pass1(lines, |lines|).value.labels, lines, |lines|);
  }

  /** The output of pass 2 is the encoding of the program of the lines read. */
  lemma {:induction false} OutputIsProgram(labels: seq<Label>, lines: seq<SourceLine>, n: nat)
    requires n <= |lines| && Pass2(labels, lines, n).Ok?
    ensures EncodeAll(Program(labels, lines, n)) == Pass2(labels, lines, n).value.output
  {
    if n > 0 {
      OutputIsProgram(labels, lines, n - 1);
      var before := Program(labels, lines, n - 1);
      var src := lines[n - 1];
      Pass2LineOutput(labels, Pass2(labels, lines, n - 1).value, n, src);
      if src.body.Statement? {
        var i := Assemble1(src.body.def.value, src.body.operands, labels, n).value;
        assert LineProgram(labels, src, n) == [i];
        EncodeAllAppend(before, i);
      } else {
        assert before + LineProgram(labels, src, n) == before;
      }
    }
  }

  /** An immediate with or without its '#' reads as the same numeral. */
  lemma ImmediateOfDecimal(n: nat, hash: bool)
    ensures Immediate((if hash then "#" else "") + Decimal(n)) == Decimal(n)
  {
    var imm := (if hash then "#" else "") + Decimal(n);
    if !hash {
      assert imm == Decimal(n) && IsDigit(imm[0]);
    }
  }

  lemma CutToByte(n: nat)
    ensures (n % 0x10000) % 256 == n % 256
  {
    assert n == 256 * (256 * (n / 0x10000)) + n % 0x10000;
  }

  /** LOAD_IMM with a register name loads that register's number. */
  lemma RegImmOfRegister(r: nat, imm: string, line: nat)
    requires r < REG_COUNT
    ensures RegImm("LOAD", [RegisterName(r), imm], line) == Ok(LoadImm(r, ParseNumber(Immediate(imm)) % 256))
  {
    RegNumOfName(r);
  }

  /**
   * LOAD_IMM with a register name and a decimal immediate, with or without
   * '#', loads that register with the immediate cut to 8 bits.
   */
  lemma LoadImmediateOperands(r: nat, n: nat, hash: bool, line: nat)
    requires r < REG_COUNT && n <= LONG_MAX
    ensures RegImm("LOAD", [RegisterName(r), (if hash then "#" else "") + Decimal(n)], line) == Ok(LoadImm(r, n % 256))
  {
    RegImmOfRegister(r, (if hash then "#" else "") + Decimal(n), line);
    ImmediateOfDecimal(n, hash);
    ParseDecimal(n);
    CutToByte(n);
  }



  /**
   * A register operand other than "R0".."R7" is not rejected: it is emitted
   * as the byte 0xFF right after the opcode.
   */
  lemma BadRegisterEmitted(d: TableRow, operands: seq<string>, labels: seq<Label>, line: nat)
    requires d.opcode != OP_HALT && Assemble1(d, operands, labels, line).Ok?
    requires |operands| > 0 && forall r :: 0 <= r < REG_COUNT ==> operands[0] != RegisterName(r)
    ensures Encode(Assemble1(d, operands, labels, line).value)[1] == BAD_REGISTER
  {
    assert RegNum(operands[0]) == BAD_REGISTER;
  }
}
