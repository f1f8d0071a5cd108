# StackMachine in Dafny

A model of StackMachine, a small concatenative ("stack-based") language
implemented in one C++ file. A program is plain text. It runs through four
stages:

1. **Tokenizer**: the text is split on whitespace, as repeated `file >> token` does.
2. **Label resolver**, with two passes over the tokens.
   - Pass 1 records every declaration `name:` at its token index and rewrites it to `nop`.
   - Pass 2 rewrites every reference `:name` to the decimal text of that index.
   - An undefined reference stops the program with exit code 69.
3. **Assembler**: token `i` becomes instruction `i` of a fixed-capacity program.
   - An integer literal becomes `Push(value)`.
   - Any other token is looked up in a table of sixteen mnemonics.
   - Slots after the last token hold `Quit`.
4. **Interpreter**: a fetch/execute loop runs the program. Its state is a
   program counter, an operand stack of fixed capacity and an output stream.

Modules, in dependency order:

- `Results` (results.dfy): `Option` and a failure-compatible `Result`.
- `Faults` (faults.dfy): the error kinds, one constructor per kind of failure.
- `Text` (text.dfy): the C-locale character classes and decimal text
  (`std::to_string`, `printf("%d")`), with the decimal round trip.
- `Tokenizer` (tokenizer.dfy): `Tokenize` as a character scanner. It comes
  with a complete characterization:
  - a single token tokenizes to itself;
  - a whitespace character splits the input into two independently tokenized halves;
  - joining tokens with spaces round-trips;
  - no non-whitespace character is lost.
- `Lexer` (lexer.dfy): `Opcode`, `IsInt`, `IsLabelDecl`, `IsLabelRef`,
  `ParseOpcode` over the mnemonic table, and `IntValue` (`std::stoi`).
- `Resolver` (resolver.dfy): pass 1 (`DeclarePass`), pass 2 (`ResolvePass`)
  and `Resolve`. These are specified against a declarative "last declaration
  of a name" predicate.
- `Assembler` (assembler.dfy): `Inst`, `AssembleToken` and `Assemble`, with
  `Disassemble` as the inverse.
- `Interpreter` (interpreter.dfy): `Machine` state, a pure `Step` and a
  fuel-bounded `Run`. `Step` is specified against a stack-effect table
  (`Needs`, `Effect`) and a fault table (`FaultOf`).
- `Pipeline` (pipeline.dfy): `Load` (tokenize, resolve, assemble) and
  `Interpret`, with end-to-end lemmas.
- `Scenarios` (scenarios.dfy): whole runs of small programs, from source text to output bytes.

The original does nothing defined in several situations:

- it writes past the program array when there are too many tokens;
- it reads and writes past the operand stack on underflow or overflow (except
  `drop`, which only decrements `sp`; see "## Left out");
- it fetches at a negative program counter;
- it calls `__debugbreak` on an unknown opcode.

The model turns each of these, and `drop` on an empty stack, into an explicit error: `ProgramOverflow`,
`StackUnderflow`, `StackOverflow`, `PcOutOfRange` and `UnknownOpcode`.
`UndefinedLabel` is the original's exit code 69.

Choices the code makes that a reader might not expect:

- Execution ends normally whenever `pc >= PROGRAM_SIZE`. So a `goto` past the
  end of the program halts, even when the target lies beyond the capacity; it
  is not a fault.
- `quit` clears `running`, and the unconditional `pc++` still runs, so the
  halted machine's `pc` is one past the `quit`.
- Duplicate declarations keep the last one: the table entry is overwritten in
  index order.
- The resolution error carries the name of the first undefined reference in
  token order, which is where the original returns 69.
- `.c` writes `putchar(v)`, which is `v` converted to `unsigned char`: `v % 256`.

Determinism holds by construction: every stage is a function.

## Model

| member | source | states |
|---|---|---|
| Tokenizer.TokenizeToken | StackMachine/Main.cpp:166-168 | a non-empty run without whitespace is read as exactly one token, itself |
| Tokenizer.TokenizeSeparator | StackMachine/Main.cpp:166-168 | a whitespace character separates: the tokens of `s1 c s2` are the tokens of `s1` followed by those of `s2`, so no token ever spans whitespace |
| Tokenizer.TokenizeJoin | StackMachine/Main.cpp:166-168 | tokens joined with single spaces tokenize back to the same sequence |
| Tokenizer.TokenizeKeepsText | StackMachine/Main.cpp:166-168 | the tokens, concatenated in order, are the source with its whitespace deleted: nothing else is lost, added or reordered |
| Tokenizer.TokenizeYieldsTokens | StackMachine/Main.cpp:166-168 | every token is non-empty and free of whitespace |
| Text.NatToStringRoundTrip | StackMachine/Main.cpp:195 | the decimal text `std::to_string` writes for an index reads back as that index |
| Lexer.IsIntForms | StackMachine/Main.cpp:50-78 | an integer literal is a non-empty digit string or one `+`/`-` followed by a non-empty digit string; "", "+" and "-" are rejected |
| Lexer.NatToStringIsInt | StackMachine/Main.cpp:195-207 | the text pass 2 writes for an index is an integer literal whose value is that index |
| Lexer.IntToStringRoundTrip | StackMachine/Main.cpp:207 | `std::stoi` reads the `%d` text of any integer back as the same integer |
| Lexer.LabelDeclGrammar | StackMachine/Main.cpp:80-102 | `name:` is a declaration exactly when `name` is one or more alnum/underscore characters, and it declares `name` |
| Lexer.LabelRefGrammar | StackMachine/Main.cpp:104-126 | `:name` is a reference exactly when `name` is one or more alnum/underscore characters, and it refers to `name` |
| Lexer.LabelClassesDisjoint | StackMachine/Main.cpp:50-126 | no token is both a declaration and a reference, and neither is an integer literal or a mnemonic |
| Lexer.Lookup | StackMachine/Main.cpp:150-158 | the table lookup returns the opcode of the first entry spelled like the token, and the unknown opcode when no entry is |
| Lexer.ParseOpcode | StackMachine/Main.cpp:128-159 | never yields `Push`; yields the unknown opcode exactly for tokens outside the sixteen mnemonics; otherwise yields the opcode whose mnemonic is the token |
| Lexer.MnemonicRoundTrip | StackMachine/Main.cpp:130-148 | each mnemonic parses back to its own opcode and is not an integer literal, so `+` and `-` are operators |
| Resolver.DeclarePassTokens | StackMachine/Main.cpp:172-182 | pass 1 keeps the token count, turns each declaration into `nop` at the same index and leaves every other token unchanged |
| Resolver.DeclarePassLabels | StackMachine/Main.cpp:171-182 | the label table holds exactly the declared names, each mapped to the index of its last declaration |
| Resolver.ResolvePassSpec | StackMachine/Main.cpp:183-197 | pass 2 succeeds exactly when every reference's name is in the table. On success it keeps the count, rewrites each reference to the decimal index and leaves other tokens alone. On failure it names the first undefined reference |
| Resolver.ResolveSpec | StackMachine/Main.cpp:171-197 | resolution succeeds exactly when every reference is declared somewhere, before or after it. Declarations then become `nop` and references become the decimal index of the last declaration; other tokens are unchanged |
| Assembler.Fill | StackMachine/Main.cpp:201-214 | the assembly loop writes slot `i` from token `i` and leaves every other slot as it was |
| Assembler.Assemble | StackMachine/Main.cpp:200-214 | assembly fails with a program overflow exactly when there are more tokens than slots. Otherwise slot `i` is token `i` assembled and every slot past the last token is `Quit` |
| Assembler.AssembleTokenKinds | StackMachine/Main.cpp:203-213 | integer literals become `Push` of their value; mnemonics become their opcode with literal 0; every other token becomes the unknown opcode |
| Assembler.AssembleDisassemble | StackMachine/Main.cpp:203-213 | assembling the text of any well-formed instruction gives that instruction back |
| Assembler.AssembleRoundTrip | StackMachine/Main.cpp:200-214 | a program written out as tokens and assembled again is itself, padded with `Quit` |
| Interpreter.Step | StackMachine/Main.cpp:225-346 | one iteration matches the fault table: a negative pc, the unknown opcode, too few operands and a full stack each give their own fault. On success the depth changes by the opcode's stack effect and the elements below the operands are kept. Only `quit` stops; all but `then`/`goto` advance pc by one; only `.`/`.c` write, and only by appending |
| Interpreter.StepStackOps | StackMachine/Main.cpp:235-326 | push adds its literal, `dup` copies the top, `over` copies the second, `drop` removes the top, `!` maps the top to 1 if it was 0 and to 0 otherwise, and `nop` changes only pc |
| Interpreter.StepArithmetic | StackMachine/Main.cpp:269-321 | with top `b` over `a`: `+` leaves `a+b`, `-` leaves `b-a`, `*` leaves `a*b`, and `==`, `>`, `<` leave 1 exactly when `a==b`, `a>b`, `a<b` |
| Interpreter.StepOutput | StackMachine/Main.cpp:259-267 | `.` pops and appends the decimal text; `.c` pops and appends one byte, the value modulo 256 |
| Interpreter.StepControl | StackMachine/Main.cpp:328-339 | `goto` continues at the popped target; `then` continues at the target when the condition under it is non-zero and at pc+1 otherwise |
| Interpreter.Run | StackMachine/Main.cpp:224-347 | the stack never exceeds its capacity and output is only ever appended. A halted run has cleared `running` or moved pc past the program. A fault is the fault table's verdict on the state it occurred in |
| Interpreter.RunMoreFuel | StackMachine/Main.cpp:224-347 | the outcome of a run that halts or faults does not depend on the fuel bound |
| Pipeline.Load | StackMachine/Main.cpp:166-214 | a loaded program has exactly the capacity's slots and at least as many as the source has tokens |
| Pipeline.LoadSpec | StackMachine/Main.cpp:171-214 | loading succeeds exactly when all references are declared and the tokens fit. Slot by slot, declarations become `nop`, references push their label's last index, other tokens assemble as they stand and the rest is `Quit`. An undefined label is reported before an overflow |
| Pipeline.UndefinedLabelPreventsExecution | StackMachine/Main.cpp:187-194 | a reference to an undeclared label makes the whole run an undefined-label error, so nothing is assembled or executed |
| Pipeline.PushGoto | StackMachine/Main.cpp:238-339 | a push of `j` followed by `goto` continues at `j` with the stack unchanged |
| Pipeline.GotoLabel | StackMachine/Main.cpp:179-339 | a label reference followed by `goto` continues at the last declaration of that label |
| Interpreter.RunStep | StackMachine/Main.cpp:225-346 | while `running` holds and pc is inside the program, the loop performs exactly one step and carries on from the resulting state |
| Interpreter.RunStopped | StackMachine/Main.cpp:225 | the loop exits without a further step once `running` is cleared or pc reaches the end of the program |
| Interpreter.RunFaults | StackMachine/Main.cpp:225-346 | a step that faults ends the run in that fault, at the state it was attempted in |
| Scenarios.PrintsBinary | StackMachine/Main.cpp:259-321 | for any integers `x`, `y` and any of `+ - * == > <`, the program `x y op .` halts after five iterations having written the decimal text of the operator applied with `y` on top, on any capacities that hold the program and two operands |
| Scenarios.SubtractPrintsMinusSeven | StackMachine/Main.cpp:278-285 | `10 3 - .` halts having written `-7`, on any capacities that hold it |
| Scenarios.AddPrintsEight | StackMachine/Main.cpp:269-276 | `5 3 + .` halts having written `8` and nothing else, on any capacities that hold it |
| Scenarios.CompiledAddsEight | StackMachine/Main.cpp:12-13 | with the compiled-in `STACK_SIZE` and `PROGRAM_SIZE` of 100, `5 3 + .` halts having written `8` |
| Scenarios.EmitsByte | StackMachine/Main.cpp:264-267 | for any integer `x`, `x .c` halts having written the single byte `x` modulo 256 |
| Scenarios.EmitWritesByte | StackMachine/Main.cpp:264-267 | `65 .c` halts having written the single byte 65 |
| Scenarios.LoneReferenceFails | StackMachine/Main.cpp:187-194 | a program that is a single reference to any well-formed label name fails with that name undefined, whatever the capacities and fuel |
| Scenarios.MissingLabelFails | StackMachine/Main.cpp:187-194 | `:missing` with no declaration fails with an undefined-label error |

## Left out

- Interpreter.Step: `drop` on an empty stack only sets `sp` to -1 in the original; a run that then quits ends normally, while the model reports `StackUnderflow` at once. Every other underflow reads outside the stack in the original.
- Loading the source text is not modelled: opening the file `SOURCE_PATH` and its exit code 1 are file I/O. `Tokenize` takes the text as a string.
- Allocating and freeing the operand stack is not modelled, nor is the exit code 1 when `malloc` fails. This is memory management; the stack is a `seq<int>` bounded by a capacity parameter.
- `printf` and `putchar` are not performed; their bytes are appended to the machine's `output`.
- `__debugbreak` is a platform trap; executing an unknown opcode is the `UnknownOpcode` fault instead.
- The process exit status is not modelled. The error kinds stand for it, and `UndefinedLabel` is exit code 69.
- 32-bit `int` arithmetic is not modelled: `+`, `-`, `*` and `pc = reg - 1` use mathematical integers, so the model has no wrap-around or overflow. The comparisons `==`, `>` and `<` are exact in the model; the original computes them from a 32-bit difference `b - a`, so it can answer differently when that difference overflows (for `>` with `a = -2147483648` and `b = 1`, say).
- `std::stoi` throws `out_of_range` for literals outside `int`; the model has no such error.
- Label indices are `unsigned int` in the original; the model uses naturals without 32-bit wrap.
- `isspace`, `isdigit` and `isalnum` are the ASCII classes of the "C" locale; other locales are not modelled.
- `STACK_SIZE` and `PROGRAM_SIZE` are parameters. `Pipeline.Compiled` holds the original values, 100 and 100.
- Programs with back-edges may not terminate. `Run` takes a fuel bound and reports `OutOfFuel` when it is used up; `RunMoreFuel` shows that more fuel never changes a finished run.
- The scratch register `reg` is not part of the state: it never outlives one instruction.
