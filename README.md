# 8-bit CPU emulator core, in Dafny

This project models the core of a small 8-bit CPU emulator:

- **Protected RAM** (`src/ram.c`): 65536 byte cells. Addresses 0..8192, both included, are open only to a privileged caller.
- **CPU record** (`src/cpu.c`): eight 8-bit registers, a 16-bit PC, a `running` flag and a privilege flag.
- **Execution engine** (`src/cpu_exec.c`): one handler per opcode, the `handlers` table and the `cpu_run` fetch loop.
- **Two-pass assembler** (`src/assembler.c`): pass 1 builds the label table and the location counter; pass 2 emits the bytes.
- **Linear disassembler** (`src/disassembler.c`).

The model keeps the source's form.

- **Memory**: `Memory.Ram` is a class over an `array` of cells. `ram_read` and `ram_write` are its methods, each specified by a pure function.
- **Processor**: `Processor.Cpu` is a class with the fields of the `Cpu` record. Each handler, one step of the fetch loop and `cpu_run` itself are methods. Each is proved to change the record and the RAM exactly as the functions of `Semantics` say.
- **Semantics**: these functions are the specification of the engine. Lemmas state what each handler does, and that an unprivileged program never touches the privileged range.
- **Assembler**: `Passes.Assembler` is a class whose fields are the file-level state of `src/assembler.c`: the label table, the output buffer and the location counter. Its methods are the C helpers and the two passes.
  - Each method is proved equal to a function of `Assembly`.
  - `Assembly` states what a pass computes line by line. Its lemmas cover label binding, the rejection of duplicate labels and unknown mnemonics, pass 1 and pass 2 agreeing on every address, and the output being the encoding of the source's statements in order.
  - `Assembly.TableSizesAreWidths` states that `instr_table` gives every opcode the length the disassembler and the engine use.
  - `Syntax` models `trim`, the `strtok(.., " ,")` tokenizer, `strtol` with `parse_number`, and `reg_num`.
- **Disassembler**: `Disassembly` has a pure `Decode` and `Listing`, and the `DisassembleMemory` loop proved equal to `Listing`. The walk keeps its PC wider than 16 bits; see "## Findings".
- **Agreement**: `Agreement` ties the components together:
  - the engine executes exactly the instruction the disassembler lists;
  - disassembling the assembler's output lists the source's statements back, in order, each at its address.

Integers are unbounded in Dafny, so C's fixed widths are written out:

- `Byte` and `Word` are subset types.
- `uint16_t` additions are `Next(a, n) = (a + n) % 65536`.
- `uint8_t` arithmetic is taken modulo 256.
- `strtol` saturates to a 64-bit `long`.
- The `(uint16_t)` cast of `parse_number` is taken modulo 65536.

Where the code does less than its own checks and declarations suggest (the `reg < 0` tests that can never fire, the `origin` field declared in `include/assembler.h`), the model follows the code:

- **Invalid register**: `reg_num` returns `uint8_t`, so its `-1` becomes 255 and the `reg < 0` checks never fire. An invalid register token is emitted as the byte 0xFF rather than rejected with "Invalid register". `Assembly.BadRegisterEmitted` states this; `Semantics.InvalidRegisterHalts` shows the CPU halts on such an instruction.
- **Comments after a label**: the comment test runs only on the trimmed line before the label is split off. A `;` after a label makes the `;` token an unknown instruction. A `:` inside a comment-less line always starts a label.
- **Operand separators**: `strtok` splits at blanks and commas only, so a tab inside a statement does not separate tokens.
- **`.org`**: it moves the location counter but does not place output. The output buffer is contiguous, and its length is the sum of the emitted sizes (`Assembly.OutputSize`).
- **Origin**: `assemble` returns the byte count and does not report an origin.

## Model

| member | source | states |
|---|---|---|
| `Memory.IsAddressValid` | src/ram.c:43-62 | a valid address is inside the RAM; unprivileged, it lies above RAM_PRIVILEGED_MODE_END; privileged, every address inside the RAM is valid |
| `Memory.ReadCell` | src/ram.c:15-27 | a read succeeds exactly when the address is valid for the caller's privilege, and then yields that cell |
| `Memory.WriteCell` | src/ram.c:29-41 | a write succeeds exactly when the address is valid; it then sets that cell and no other, otherwise memory is unchanged |
| `Memory.Ram.Init` | src/ram.c:8-13 | `ram_init` leaves every one of the 65536 cells zero |
| `Memory.Ram.Read` | src/ram.c:15-27 | `ram_read` on the array: success iff the address is valid; the cell on success, the caller's old output byte on failure |
| `Memory.Ram.Write` | src/ram.c:29-41 | `ram_write` on the array: success iff the address is valid; on success exactly one cell changes, on failure none |
| `Memory.OutOfBoundsRefused` | src/ram.c:43-62 | an address at or past RAM_SIZE is refused in both modes |
| `Memory.UnprivilegedRange` | src/ram.c:43-62 | an unprivileged caller reaches exactly the addresses 8193..65535 |
| `Memory.PrivilegedRange` | src/ram.c:43-62 | a privileged caller reaches exactly the addresses below 65536 |
| `Memory.ReadAfterWrite` | src/ram.c:15-41 | reading back a successfully written address in the same mode yields the written value |
| `Processor.Cpu.Init` | src/cpu.c:4-26 | `cpu_init`: all eight registers zero, PC 0, running, privilege as given |
| `Processor.Cpu.FetchByte` | src/cpu_exec.c:19-24 | `ram_read(ram, cpu->PC++, ..)`: PC advances by one (mod 65536) whether or not the read succeeds; the byte is the cell when the address is valid |
| `Processor.Cpu.OpLoadImm` | src/cpu_exec.c:15-43 | `op_load_imm` changes the record exactly as `Semantics.Dispatch` for LOAD_IMM |
| `Processor.Cpu.OpArith` | src/cpu_exec.c:45-163 | `op_add`, `op_sub`, `op_mlp` and `op_div` change the record exactly as `Semantics.Dispatch` for their opcode |
| `Processor.Cpu.OpStore` | src/cpu_exec.c:165-197 | `op_store` changes the record and RAM exactly as `Semantics.Dispatch` for STORE |
| `Processor.Cpu.OpLoadMem` | src/cpu_exec.c:199-246 | `op_load_mem` changes the record exactly as `Semantics.Dispatch` for LOAD_MEM |
| `Processor.Cpu.OpHalt` | src/cpu_exec.c:248-254 | `op_halt` equals `Semantics.Dispatch` for HALT: only `running` is cleared |
| `Processor.Cpu.OpInvalid` | src/cpu_exec.c:256-265 | `op_invalid` equals `Semantics.Dispatch` for a byte with no handler: only `running` is cleared |
| `Processor.Cpu.Step` | src/cpu_exec.c:267-310 | one loop iteration (opcode fetch, then `handlers[opcode]` or `op_invalid`) equals `Semantics.Step` |
| `Processor.Cpu.Run` | src/cpu_exec.c:281-313 | `cpu_run` sets the privilege to `kernel` and ends in the state `Semantics.Run` gives for at most `fuel` iterations |
| `Semantics.FetchOperands` | src/cpu_exec.c:19-31 | the successive `ram_read(.., PC++, ..)` operand reads: on success exactly `k` bytes |
| `Semantics.FetchOperandsReads` | src/cpu_exec.c:19-31 | the reads succeed iff all `k` addresses are readable; they then deliver the bytes at PC..PC+k-1 and leave PC k further on |
| `Semantics.FetchInstruction` | src/cpu_exec.c:15-265 | what a handler's operand reads yield: an instruction whose opcode is the dispatched byte and which the disassembler could list; only an opcode with operands can fault |
| `Semantics.Alu` | src/cpu_exec.c:45-163 | ADD, SUB and MLP give the true result modulo 256; DIV gives the truncated quotient |
| `Semantics.Execute` | src/cpu_exec.c:15-254 | the register, arithmetic and memory part of a handler keeps the machine well formed and its privilege |
| `Semantics.Dispatch` | src/cpu_exec.c:267-279 | `handlers[op]` or `op_invalid` keeps the machine well formed and its privilege |
| `Semantics.Step` | src/cpu_exec.c:287-310 | one iteration of the fetch loop keeps the machine well formed and its privilege |
| `Semantics.Run` | src/cpu_exec.c:281-313 | the loop of `cpu_run` cut off after `fuel` iterations keeps the machine well formed and the privilege set at entry |
| `Semantics.Trace` | src/cpu_exec.c:287-310 | the states the loop passes through: each but the last is running and steps to the next, and the last is `Run`'s result |
| `Semantics.FetchReadable` | src/cpu_exec.c:19-31 | when every byte of an instruction is readable, the operand reads deliver exactly those bytes and leave PC past them |
| `Semantics.OpcodeFetchRefused` | src/cpu_exec.c:291-297 | a refused opcode fetch stops the CPU with PC one further and nothing else changed |
| `Semantics.UnknownOpcodeHalts` | src/cpu_exec.c:301-309 | a byte with no handler stops the CPU with PC one past it and nothing else changed |
| `Semantics.HaltStops` | src/cpu_exec.c:248-254 | HALT stops the CPU with PC one past it and nothing else changed |
| `Semantics.LoadImmediateStep` | src/cpu_exec.c:15-43 | LOAD_IMM with a valid register sets that register to the immediate, PC moves by 3, nothing else changes |
| `Semantics.ArithmeticStep` | src/cpu_exec.c:45-163 | ADD, SUB, MLP and DIV with valid registers replace R[dst] by R[dst] op R[src], PC moves by 3, nothing else changes |
| `Semantics.InvalidRegisterHalts` | src/cpu_exec.c:33-38 | an out-of-range register operand, with the instruction's own bytes readable, stops the CPU with PC past the instruction and registers and memory untouched |
| `Semantics.OperandFetchFaultHalts` | src/cpu_exec.c:19-31 | when the opcode is readable but one of its operand bytes is not, the step stops the CPU with registers and memory untouched |
| `Semantics.StoreStep` | src/cpu_exec.c:165-197 | STORE writes R[reg] to `hi*256+lo` when the gate allows and only there, otherwise it halts with memory unchanged; PC moves by 4 |
| `Semantics.LoadMemoryStep` | src/cpu_exec.c:199-246 | LOAD_MEM copies cell `hi*256+lo` into R[reg] when the gate allows, otherwise it halts with the register unchanged; PC moves by 4 |
| `Semantics.StepKeepsPrivilegedMemory` | src/cpu_exec.c:165-197 | one unprivileged step leaves the cells 0..8192 unchanged |
| `Semantics.RunKeepsPrivilegedMemory` | src/cpu_exec.c:281-313 | however many steps an unprivileged run takes, no cell in 0..8192 changes |
| `Semantics.TraceKeepsPrivilegedMemory` | src/cpu_exec.c:287-310 | along the states an unprivileged loop passes through, the privilege stays off and the cells 0..8192 stay as they were |
| `Semantics.UserRangeAt` | src/ram.c:43-62 | memories equal above the gate agree on every cell an unprivileged access reaches |
| `Semantics.FetchIgnoresPrivilegedMemory` | src/cpu_exec.c:19-31 | unprivileged operand reads give the same result in memories that differ only in the privileged range |
| `Semantics.StepIgnoresPrivilegedMemory` | src/cpu_exec.c:287-310 | one unprivileged step never depends on the privileged range and keeps two such machines indistinguishable |
| `Semantics.DispatchIgnoresPrivilegedMemory` | src/cpu_exec.c:267-279 | the same for one handler, after the opcode fetch |
| `Semantics.ExecuteIgnoresPrivilegedMemory` | src/cpu_exec.c:165-246 | the same for the register and memory part of a handler |
| `Semantics.HaltedRunIsIdle` | src/cpu_exec.c:287 | a CPU that is not running stays exactly as it is |
| `Isa.Width` | src/assembler.c:28-38 | the length of the format an opcode starts: 3, 4 or 1 |
| `Isa.Be16` | src/assembler.c:141-145 | `emit16` writes the high byte, then the low byte, and `(hi << 8) \| lo` reads the word back |
| `Isa.Encode` | src/cpu_exec.c:6-13 | an instruction's bytes start with its opcode and are as long as its format |
| `Isa.EncodeInjective` | src/disassembler.c:55-105 | two listable instructions with the same bytes are the same instruction |
| `Isa.EncodeAllAppend` | src/assembler.c:136-145 | encoding a program and one more instruction appends that instruction's bytes |
| `Isa.NextNext` | src/cpu_exec.c:19-26 | two `uint16_t` advances in a row are one advance by the sum |
| `Isa.NextInRange` | src/cpu_exec.c:19-26 | a `uint16_t` advance that stays below 65536 does not wrap |
| `Isa.NextOfCut` | src/assembler.c:301 | `pc += ins->size` on a counter already cut to 16 bits cuts the running sum |
| `Syntax.LeadingSpaces` | src/assembler.c:67-75 | the white space a string starts with, and a non-space after it |
| `Syntax.TrailingSpaces` | src/assembler.c:67-75 | the white space a string ends with, and a non-space before it |
| `Syntax.Trimmed` | src/assembler.c:67-75 | `trim` returns a slice of its input with only white space cut off either end, and neither end of the result is white space |
| `Syntax.Trim` | src/assembler.c:67-75 | the two loops of `trim` compute `Trimmed` |
| `Syntax.LeadingIsUnique` | src/assembler.c:67-70 | a white-space prefix followed by a non-space is the one `trim` skips |
| `Syntax.TrailingIsUnique` | src/assembler.c:71-73 | a white-space suffix preceded by a non-space is the one `trim` cuts |
| `Syntax.TrimmedIsSlice` | src/assembler.c:67-75 | `trim` only cuts: every character of its result is a character of its input |
| `Syntax.TrimIdempotent` | src/assembler.c:67-75 | trimming twice is trimming once |
| `Syntax.IndexOf` | src/assembler.c:279 | `strchr`: the first occurrence of the character, or none iff it does not occur |
| `Syntax.TokenLength` | src/assembler.c:147-150 | a token runs up to the first blank or comma |
| `Syntax.Tokens` | src/assembler.c:147-150 | `strtok(.., " ,")` yields non-empty tokens free of blanks and commas |
| `Syntax.TokenLengthIs` | src/assembler.c:147-150 | a delimiter-free prefix followed by a delimiter or the end is the token |
| `Syntax.TokensOfJoin` | src/assembler.c:147-150 | tokenizing words joined by blanks gives the words back |
| `Syntax.DigitRun` | src/assembler.c:111-116 | the run of digits `strtol` consumes, stopping at the first non-digit |
| `Syntax.DigitRunIs` | src/assembler.c:111-116 | digits followed by a non-digit or the end are exactly that run |
| `Syntax.Numeral` | src/assembler.c:111-116 | what `strtol` consumes contains only digits of the base |
| `Syntax.Saturate` | src/assembler.c:111-116 | `strtol` returns the exact value when it fits in a `long`, LONG_MAX above it and LONG_MIN below it |
| `Syntax.StrToL` | src/assembler.c:111-116 | `strtol` stays within the range of a `long` |
| `Syntax.Decimal` | src/assembler.c:111-116 | a decimal numeral is a non-empty run of digits |
| `Syntax.Hex` | src/assembler.c:111-116 | a hexadecimal numeral is a non-empty run of hex digits |
| `Syntax.DecimalValue` | src/assembler.c:111-116 | a decimal numeral spells its value |
| `Syntax.HexValue` | src/assembler.c:111-116 | a hexadecimal numeral spells its value |
| `Syntax.NumeralOfDigits` | src/assembler.c:111-116 | `strtol` consumes a whole run of digits with no sign |
| `Syntax.ParseNumber` | src/assembler.c:111-116 | `parse_number` of a plain decimal numeral, or of "0x" and plain hex digits, is the numeral's value modulo 65536 |
| `Syntax.ReadsNumerals` | src/assembler.c:111-116 | a decimal numeral never takes the "0x" branch, and `strtol` consumes a plain numeral whole |
| `Syntax.ParseDecimal` | src/assembler.c:111-116 | `parse_number` of a decimal numeral is its value modulo 65536 |
| `Syntax.ParseHex` | src/assembler.c:111-116 | `parse_number` of "0x" and a hex numeral is its value modulo 65536 |
| `Syntax.RegNum` | src/assembler.c:118-124 | `reg_num` gives 0..7 only for the names "R0".."R7", and 255 (`(uint8_t)-1`) for everything else |
| `Syntax.RegNumOfName` | src/assembler.c:118-124 | `reg_num` reads every register name back |
| `Assembly.InstrIndexFrom` | src/assembler.c:126-134 | the first table row from a position on with the mnemonic, or -1 when no later row has it |
| `Assembly.InstrNamed` | src/assembler.c:126-134 | `find_instr` gives a row with the mnemonic, or nothing exactly when no row has it |
| `Assembly.LabelIndexFrom` | src/assembler.c:90-98 | the first label from a position on with the name, or -1 when no later entry has it |
| `Assembly.LabelIndex` | src/assembler.c:90-98 | `find_label` gives the first entry with the name, and -1 exactly when no entry has it |
| `Assembly.Define` | src/assembler.c:100-109 | `add_label` fails with "Duplicate label" on the line exactly when the name is already in the table; otherwise it appends the one entry |
| `Assembly.ParseLine` | src/assembler.c:272-287 | a line without ':' defines no label; a label has no ':' in it and no white space around it |
| `Assembly.ParseBody` | src/assembler.c:285-297 | the rest of a line is nothing exactly when empty, an `.org` exactly when it starts with ".org", and otherwise a statement whose tokens are the mnemonic followed by the operands |
| `Assembly.RegImm` | src/assembler.c:169-193 | `emit_reg_imm_instruction` fails iff an operand is missing, otherwise encodes LOAD_IMM with `reg_num` of the register and the immediate (an optional `#` dropped) cut to 8 bits |
| `Assembly.TwoRegister` | src/assembler.c:195-229 | `emit_two_register_instruction` fails iff an operand is missing, otherwise encodes the operation with both `reg_num`s |
| `Assembly.RegAddress` | src/assembler.c:231-263 | `emit_reg_addr_instruction` fails iff an operand is missing or a non-numeric address names no label; the address is the number, or the label's |
| `Assembly.AddressOperand` | src/assembler.c:244-256 | an address token starting with a digit is parsed as a number; otherwise it is the address of the label, and nothing when the label is unknown |
| `Assembly.Assemble1` | src/assembler.c:335-375 | the `switch` of `pass2`: the emitted bytes start with the row's opcode and are exactly the row's size long |
| `Assembly.Pass1Line` | src/assembler.c:272-300 | one line of `pass1` appends the line's label (at the current location) to the table, moves the location counter to the `.org` origin or by the line's size, and an error carries this line's number |
| `Assembly.Pass1` | src/assembler.c:267-302 | an error of `pass1` names a line among those read |
| `Assembly.Pass2Line` | src/assembler.c:313-377 | an error of one `pass2` line carries this line's number |
| `Assembly.Pass2` | src/assembler.c:306-379 | an error of `pass2` names a line among those read |
| `Assembly.AssembledLines` | src/assembler.c:383-390 | an error of either pass names a line of the source; success means both passes succeeded |
| `Assembly.Assembled` | src/assembler.c:383-390 | an error of `assemble` names a line of the text; its bytes are the encoding of the program of the text's statements |
| `Assembly.Parsed` | src/assembler.c:272-296 | every line is read the same way in both passes |
| `Assembly.LabelIndexIs` | src/assembler.c:90-98 | the first entry with the name is found by `find_label` |
| `Assembly.LabelIndexExtend` | src/assembler.c:90-109 | appending entries does not change the lookup of a name already defined |
| `Assembly.LabelIndexNew` | src/assembler.c:100-109 | a new label is found at the index it was appended at |
| `Assembly.RedefinitionFails` | src/assembler.c:100-104 | once pass 1 reaches a second definition of a name intact, that line fails with "Duplicate label" |
| `Assembly.Pass1Stops` | src/assembler.c:54-58 | once pass 1 fails (`fatal` exits), later lines change nothing |
| `Assembly.Pass2Stops` | src/assembler.c:54-58 | once pass 2 fails, later lines change nothing |
| `Assembly.LabelsGrow` | src/assembler.c:100-109 | pass 1 only ever appends to the label table |
| `Assembly.LabelBoundToCursor` | src/assembler.c:277-283 | a label defined on line k is bound, in the final table, to the location counter pass 1 had before line k |
| `Assembly.DuplicateLabelRejected` | src/assembler.c:100-104 | a name defined on two lines makes pass 1, and so the whole assembly, fail by that line |
| `Assembly.UnknownInstructionRejected` | src/assembler.c:292-296 | an unknown mnemonic makes pass 1, and so the whole assembly, fail by that line |
| `Assembly.CursorsAgree` | src/assembler.c:267-379 | when both passes succeed they have the same location counter after every line |
| `Assembly.OutputSize` | src/assembler.c:306-379 | the output of pass 2 is exactly as long as the sum of the instruction sizes of the statements read |
| `Assembly.Pass2LineOutput` | src/assembler.c:335-377 | a successful line appends exactly the bytes of its instruction |
| `Assembly.LineProgram` | src/assembler.c:335-375 | a line stands for at most one instruction, never a data byte |
| `Assembly.Program` | src/assembler.c:306-379 | the statements of the first n lines, in order, as `Assemble1` builds them: at most one instruction per line, none of them a data byte |
| `Assembly.OutputIsProgram` | src/assembler.c:306-379 | the output of pass 2 is exactly the encoding of `Program` of the lines read |
| `Assembly.AssembledIsProgram` | src/assembler.c:383-390 | what `assemble` writes out is exactly the encoding of `Program` of the source, with pass 1's labels |
| `Assembly.Pass1PcIsCodeSize` | src/assembler.c:289-301 | without `.org`, the location counter of pass 1 is the total size of the statements so far, modulo 65536 |
| `Assembly.LabelIsOutputOffset` | src/assembler.c:279-301 | without `.org`, a label is bound to the number of bytes pass 2 has written before its line, modulo 65536 |
| `Assembly.ImmediateOfDecimal` | src/assembler.c:180-183 | dropping the optional `#` leaves the numeral |
| `Assembly.CutToByte` | src/assembler.c:184-192 | cutting to 16 bits and then to 8 bits is cutting to 8 bits |
| `Assembly.RegImmOfRegister` | src/assembler.c:169-193 | LOAD_IMM with a register name encodes that register |
| `Assembly.LoadImmediateOperands` | src/assembler.c:169-193 | `LOAD_IMM Rr, #n` and `LOAD_IMM Rr, n` encode register r and the immediate n modulo 256 |
| `Assembly.BadRegisterEmitted` | src/assembler.c:118-124 | an invalid register token is emitted as the byte 255, not rejected |
| `Passes.FindInstr` | src/assembler.c:126-134 | the loop of `find_instr` computes `InstrNamed` |
| `Passes.ReadLine` | src/assembler.c:272-296 | the line handling shared by both passes computes `ParseLine` |
| `Passes.ReadBody` | src/assembler.c:289-296 | the `.org` test and `strtok` with `find_instr` compute `ParseBody` |
| `Passes.ReadLines` | src/assembler.c:272-276 | reading every line gives `Parsed` |
| `Passes.Assembler.constructor` | src/assembler.c:40-52 | the file-level state starts with no labels, no output and location 0 |
| `Passes.Assembler.FindLabel` | src/assembler.c:90-98 | the loop of `find_label` returns the first index with the name, or -1 |
| `Passes.Assembler.AddLabel` | src/assembler.c:100-109 | `add_label` fails on a duplicate and otherwise appends exactly one entry, as `Define` says |
| `Passes.Assembler.Emit8` | src/assembler.c:136-139 | `emit8` appends exactly one byte and changes nothing else |
| `Passes.Assembler.Emit16` | src/assembler.c:141-145 | `emit16` appends the high and then the low byte |
| `Passes.Assembler.EmitRegImm` | src/assembler.c:169-193 | on success appends exactly the encoding `RegImm` gives, on error appends nothing |
| `Passes.Assembler.EmitTwoRegister` | src/assembler.c:195-229 | on success appends exactly the encoding `TwoRegister` gives, on error appends nothing |
| `Passes.Assembler.EmitRegAddr` | src/assembler.c:231-263 | on success appends exactly the encoding `RegAddress` gives, on error appends nothing |
| `Passes.Assembler.ResolveAddress` | src/assembler.c:244-256 | the address token is resolved as `AddressOperand` says |
| `Passes.Assembler.Pass1` | src/assembler.c:267-302 | the loop of `pass1` leaves the label table and the location counter `Assembly.Pass1` gives, or its error |
| `Passes.Assembler.Pass1Line` | src/assembler.c:272-300 | one iteration of `pass1` as `Assembly.Pass1Line` |
| `Passes.Assembler.Pass2` | src/assembler.c:306-379 | `pass2` resets location and output, keeps the label table, and leaves what `Assembly.Pass2` gives, or its error |
| `Passes.Assembler.Pass2Line` | src/assembler.c:313-377 | one iteration of `pass2` as `Assembly.Pass2Line` |
| `Passes.Assembler.EmitStatement` | src/assembler.c:335-375 | the `switch` of `pass2` appends exactly the encoding `Assemble1` gives |
| `Passes.Assemble` | src/assembler.c:383-390 | `assemble` returns exactly the bytes, or the error, `Assembly.Assembled` gives |
| `Disassembly.Read8` | src/disassembler.c:6-9 | `read8` gives the byte held at the address |
| `Disassembly.Read16` | src/disassembler.c:11-16 | `read16` is the inverse of `emit16` on the two bytes at `addr` and `addr + 1` (mod 65536) |
| `Disassembly.DisasmLoadImm` | src/disassembler.c:18-24 | at a LOAD_IMM opcode, lists the LOAD_IMM whose three bytes sit at PC and moves PC on by 3 |
| `Disassembly.DisasmTwoReg` | src/disassembler.c:26-32 | at an ADD, SUB, MLP or DIV opcode, lists that operation with the two register bytes after it and moves PC on by 3 |
| `Disassembly.DisasmMemOp` | src/disassembler.c:34-40 | at a STORE or LOAD_MEM opcode, lists that operation with the register byte and the big-endian address after it and moves PC on by 4 |
| `Disassembly.DisasmHalt` | src/disassembler.c:42-46 | lists HALT and moves PC on by its one byte |
| `Disassembly.DisasmUnknown` | src/disassembler.c:48-53 | lists the byte at PC as data and moves PC on by 1 |
| `Disassembly.Decode` | src/disassembler.c:18-53 | the instruction listed at PC is the one whose bytes sit in memory there, a byte outside the set listed as data; the next PC is past its bytes |
| `Disassembly.DecodeEncoded` | src/disassembler.c:18-53 | decoding the bytes of a listable instruction gives that instruction back |
| `Disassembly.TopEndNeverStops` | src/disassembler.c:55-105 | with the 16-bit PC as written and `end_addr` 0xFFFF, the loop guard holds after any number of iterations, and the PC wraps from 0xFFFF back to 0 |
| `Disassembly.Listing` | src/disassembler.c:55-105 | the walk with a wide PC: lines are logged iff `start <= end` |
| `Disassembly.ListingTiles` | src/disassembler.c:55-105 | the listing covers memory from `start` to `end` without gaps: the first line is at `start`, each line starts where the one before ends and shows the bytes at its address, every address is in the range, and the last line reaches past `end` |
| `Disassembly.ListingStep` | src/disassembler.c:59-104 | one iteration logs the line at PC and goes on past its instruction |
| `Disassembly.ProgramSplit` | src/disassembler.c:59-104 | a program's bytes in memory are its first instruction's, then the rest's |
| `Disassembly.ProgramHead` | src/disassembler.c:59-104 | at the start of a program in memory the disassembler lists its first instruction, whose length is the width of the opcode there |
| `Disassembly.ListingOfProgram` | src/disassembler.c:55-105 | disassembling the bytes of a program lists that program, each instruction at its address, for any end address up to 0xFFFF |
| `Disassembly.DisassembleMemory` | src/disassembler.c:55-105 | the loop of `disassemble_memory`, with a wide PC, logs exactly `Listing` and ends for every end address |
| `Disassembly.DisassembleAt` | src/disassembler.c:61-101 | the `switch` on the opcode computes `Decode` |
| `Assembly.TableSizesAreWidths` | src/assembler.c:28-38 | every table row is an opcode, and its size is the length the disassembler and the engine use |
| `Agreement.StepExecutesListedInstruction` | src/cpu_exec.c:287-310 | when an instruction's bytes are readable, one step executes exactly the instruction the disassembler lists there and moves PC past it |
| `Agreement.AssembledCodeLists` | src/assembler.c:383-390 | the assembler's output, loaded at any address where it fits, disassembles to `Program` of the source: its statements in order, each at its address |

## Left out

- Logging: the `log_write` lines and their text. The disassembler's log lines become `Entry` values holding the address and the decoded instruction; their printf formatting is not modelled.
- `src/log.c`, `src/main.c`, `cpu_print` and the API of `include/assembler.h` are not part of this model. File handles are replaced by the list of source lines: `fgets`, `rewind` and `fwrite` are not modelled.
- `fgets` reads lines of at most 255 characters. The model reads whole lines.
- The 64-character `strncpy` of label names is not modelled. Names are compared whole.
- `realloc` failure ("Out of memory") is not modelled.
- The output buffer has a fixed size of 65536 bytes; writing past it is not modelled.
- `fatal` prints and calls `exit(1)`. It is modelled as an `AsmError` result carrying the line number and the message.
- The label table and output buffer are file-level statics that are never freed or reset between calls. The model assembles with a fresh `Assembler`, so a second `assemble` in one process, which would still see the old labels, is not modelled.
- Each pass reads the file again. `Passes.Assemble` reads the lines once and hands the same list to both passes. Reading a line changes nothing, so the outcome is the same.
- A line made only of commas makes `strtok` return NULL, and `find_instr(NULL)` is undefined in C. It is modelled as "Unknown instruction".
- The `reg < 0` tests and the `default:` branch of the `pass2` switch can never fire. The methods leave them out; the functions keep them as dead branches.
- `strtol` is modelled with a 64-bit `long`.
- `Processor.Cpu.OpArith`: the four handlers `op_add`, `op_sub`, `op_mlp` and `op_div` are one method, since they differ only in the operator.
- `Processor.Cpu.OpArith`: DIV by a zero register is undefined behaviour in C. It is excluded by a precondition.
- `Processor.Cpu.Run`: `cpu_run` can run forever (the PC wraps). The model bounds it by a `fuel` parameter.
- `Processor.Cpu.Run`: DIV by zero is excluded for every step by the `DivisionSafe` precondition.
- `Semantics.StepIgnoresPrivilegedMemory`: non-interference is proved for one step. Over whole runs, only the integrity of the privileged range is proved (`Semantics.RunKeepsPrivilegedMemory`).
- `Agreement.AssembledCodeLists`: it is stated over the parsed source lines (`Assembly.AssembledLines`), which `Passes.ReadLines` produces from the text.

## Findings

| source | as written | input that shows it | evidently intended | confidence | as-written member | corrected member |
|---|---|---|---|---|---|---|
| src/disassembler.c:57-104 | the walk keeps its PC in a `uint16_t`, so `pc <= end_addr` is always true for `end_addr` 0xFFFF and the next PC wraps past 0xFFFF to a low address | `disassemble_memory(memory, 0, 0xFFFF)`; from PC 0xFFFF holding HALT the next PC is 0 | list every instruction that starts between `start_addr` and `end_addr`, then stop | not executed | `Disassembly.TopEndNeverStops` | `Disassembly.DisassembleMemory` |
