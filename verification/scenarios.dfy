/** Whole-pipeline runs of small programs, from source text to output, on
    any capacities large enough to hold the program and its operands (the
    compiled-in `Pipeline.Compiled` among them). */
module Scenarios {
  import opened Results
  import opened Faults
  import opened Text
  import opened Tokenizer
  import opened Lexer
  import opened Resolver
  import opened Assembler
  import opened Interpreter
  import opened Pipeline

  /** A token that the resolver leaves alone. */
  predicate Plain(t: string) {
    IsToken(t) && !IsLabelDecl(t) && !IsLabelRef(t)
  }

  /** The decimal text of an integer is one token, neither kind of label,
      and assembles to a push of that integer. */
  lemma IntToken(x: int)
    ensures Plain(IntToString(x)) && AssembleToken(IntToString(x)) == Inst(Push, x)
  {
    IntToStringRoundTrip(x);
    LabelClassesDisjoint(IntToString(x));
  }

  /** A mnemonic is one token, neither kind of label, and assembles to its
      opcode. */
  lemma MnemonicToken(op: Opcode)
    requires HasMnemonic(op)
    ensures Plain(Mnemonic(op)) && AssembleToken(Mnemonic(op)) == Inst(op, 0)
  {
    MnemonicRoundTrip(op);
    LabelClassesDisjoint(Mnemonic(op));
    MnemonicIsToken(op);
  }

  lemma MnemonicIsToken(op: Opcode)
    requires HasMnemonic(op)
    ensures IsToken(Mnemonic(op))
  {
    match op
    case Quit =>
    case Nothing =>
    case Drop =>
    case Duplicate =>
    case Over =>
    case Dot =>
    case Emit =>
    case Add =>
    case Subtract =>
    case Multiply =>
    case Equal =>
    case Greater =>
    case Lesser =>
    case Not =>
    case Then =>
    case Goto =>
  }

  /** Tokens without labels resolve to themselves. */
  lemma ResolveWithoutLabels(ts: seq<string>)
    requires forall i | 0 <= i < |ts| :: !IsLabelDecl(ts[i]) && !IsLabelRef(ts[i])
    ensures Resolve(ts) == Ok(ts)
  {
    ResolveSpec(ts);
    var rs := Resolve(ts).value;
    assert forall i | 0 <= i < |ts| :: rs[i] == ts[i];
    assert rs == ts;
  }

  /** Loading a source without labels is assembling its tokens. */
  lemma LoadWithoutLabels(source: string, ts: seq<string>, programCapacity: nat)
    requires Tokenize(source) == ts
    requires forall i | 0 <= i < |ts| :: !IsLabelDecl(ts[i]) && !IsLabelRef(ts[i])
    ensures Load(source, programCapacity) == Assemble(ts, programCapacity)
  {
    ResolveWithoutLabels(ts);
  }

  lemma PushStep(p: seq<Inst>, cap: nat, m: Machine, v: int)
    requires m.running && 0 <= m.pc < |p| && |m.stack| < cap && p[m.pc] == Inst(Push, v)
    ensures Step(p, cap, m) == Ok(m.(pc := m.pc + 1, stack := m.stack + [v]))
  {
  }

  lemma BinaryStep(p: seq<Inst>, cap: nat, m: Machine, op: Opcode)
    requires m.running && 0 <= m.pc < |p| && 2 <= |m.stack| <= cap && p[m.pc] == Inst(op, 0)
    requires IsBinary(op)
    ensures var s := m.stack;
      Step(p, cap, m) == Ok(m.(pc := m.pc + 1, stack := s[..|s| - 2] + [Binary(op, s[|s| - 2], s[|s| - 1])]))
  {
  }

  lemma DotStep(p: seq<Inst>, cap: nat, m: Machine)
    requires m.running && 0 <= m.pc < |p| && 1 <= |m.stack| <= cap && p[m.pc] == Inst(Dot, 0)
    ensures var s := m.stack;
      Step(p, cap, m) == Ok(m.(pc := m.pc + 1, stack := s[..|s| - 1], output := m.output + DecimalBytes(s[|s| - 1])))
  {
  }

  lemma EmitStep(p: seq<Inst>, cap: nat, m: Machine)
    requires m.running && 0 <= m.pc < |p| && 1 <= |m.stack| <= cap && p[m.pc] == Inst(Emit, 0)
    ensures var s := m.stack;
      Step(p, cap, m) == Ok(m.(pc := m.pc + 1, stack := s[..|s| - 1], output := m.output + [ByteOf(s[|s| - 1])]))
  {
  }

  lemma QuitStep(p: seq<Inst>, cap: nat, m: Machine)
    requires m.running && 0 <= m.pc < |p| && |m.stack| <= cap && p[m.pc] == Halt
    ensures Step(p, cap, m) == Ok(m.(pc := m.pc + 1, running := false))
  {
  }

  /** The source `x y op .`, with `x` and `y` in decimal. */
  function BinarySource(x: int, y: int, op: Opcode): string
    requires IsBinary(op)
  {
    Join([IntToString(x), IntToString(y), Mnemonic(op), Mnemonic(Dot)])
  }

  /** Plain tokens joined with spaces read back as themselves. */
  lemma PlainJoin(ts: seq<string>)
    requires forall i | 0 <= i < |ts| :: Plain(ts[i])
    ensures Tokenize(Join(ts)) == ts
    ensures forall i | 0 <= i < |ts| :: !IsLabelDecl(ts[i]) && !IsLabelRef(ts[i])
  {
    TokenizeJoin(ts);
  }

  /** The tokens of `x y op .`: four tokens, none of them a label. */
  lemma BinaryTokens(x: int, y: int, op: Opcode)
    requires IsBinary(op)
    ensures var ts := [IntToString(x), IntToString(y), Mnemonic(op), Mnemonic(Dot)];
      && Tokenize(BinarySource(x, y, op)) == ts
      && forall i | 0 <= i < |ts| :: !IsLabelDecl(ts[i]) && !IsLabelRef(ts[i])
  {
    var a, b, c, d := IntToString(x), IntToString(y), Mnemonic(op), Mnemonic(Dot);
    IntToken(x);
    IntToken(y);
    MnemonicToken(op);
    MnemonicToken(Dot);
    FourPlain(a, b, c, d);
  }

  lemma FourPlain(a: string, b: string, c: string, d: string)
    requires Plain(a) && Plain(b) && Plain(c) && Plain(d)
    ensures forall i | 0 <= i < 4 :: Plain([a, b, c, d][i])
    ensures Tokenize(Join([a, b, c, d])) == [a, b, c, d]
    ensures forall i | 0 <= i < 4 :: !IsLabelDecl([a, b, c, d][i]) && !IsLabelRef([a, b, c, d][i])
  {
    PlainJoin([a, b, c, d]);
  }

  lemma BinaryLoad(x: int, y: int, op: Opcode, programCapacity: nat) returns (p: seq<Inst>)
    requires IsBinary(op) && programCapacity >= 5
    ensures Load(BinarySource(x, y, op), programCapacity) == Ok(p)
    ensures |p| == programCapacity
    ensures p[0] == Inst(Push, x) && p[1] == Inst(Push, y)
    ensures p[2] == Inst(op, 0) && p[3] == Inst(Dot, 0) && p[4] == Halt
  {
    var ts := [IntToString(x), IntToString(y), Mnemonic(op), Mnemonic(Dot)];
    BinaryTokens(x, y, op);
    LoadWithoutLabels(BinarySource(x, y, op), ts, programCapacity);
    p := AssembleFour(ts, programCapacity);
    assert p[0] == Inst(Push, x) by { IntToken(x); }
    assert p[1] == Inst(Push, y) by { IntToken(y); }
    assert p[2] == Inst(op, 0) by { MnemonicToken(op); }
    assert p[3] == Inst(Dot, 0) by { MnemonicToken(Dot); }
  }

  lemma AssembleFour(ts: seq<string>, programCapacity: nat) returns (p: seq<Inst>)
    requires |ts| == 4 && programCapacity >= 5
    ensures Assemble(ts, programCapacity) == Ok(p) && |p| == programCapacity
    ensures p[0] == AssembleToken(ts[0]) && p[1] == AssembleToken(ts[1])
    ensures p[2] == AssembleToken(ts[2]) && p[3] == AssembleToken(ts[3]) && p[4] == Halt
  {
    p := Assemble(ts, programCapacity).value;
  }

  lemma BinaryRun(p: seq<Inst>, cap: nat, x: int, y: int, op: Opcode)
    requires IsBinary(op) && |p| >= 5 && cap >= 2
    requires p[0] == Inst(Push, x) && p[1] == Inst(Push, y)
    requires p[2] == Inst(op, 0) && p[3] == Inst(Dot, 0) && p[4] == Halt
    ensures Run(p, cap, Start, 5) == Halted(Machine(5, [], DecimalBytes(Binary(op, x, y)), false))
  {
    PushPush(p, cap, x, y, 5);
    BinaryRunTail(p, cap, x, y, op);
  }

  /** Two pushes from the start state. */
  lemma PushPush(p: seq<Inst>, cap: nat, x: int, y: int, fuel: nat)
    requires |p| >= 2 && cap >= 2 && fuel >= 2
    requires p[0] == Inst(Push, x) && p[1] == Inst(Push, y)
    ensures Run(p, cap, Start, fuel) == Run(p, cap, Machine(2, [x, y], [], true), fuel - 2)
  {
    var m1 := Machine(1, [x], [], true);
    var m2 := Machine(2, [x, y], [], true);
    PushStep(p, cap, Start, x);
    assert Start.(pc := 1, stack := [] + [x]) == m1;
    RunStep(p, cap, Start, fuel, m1);
    PushStep(p, cap, m1, y);
    assert m1.(pc := 2, stack := [x] + [y]) == m2;
    RunStep(p, cap, m1, fuel - 1, m2);
  }

  lemma BinaryRunTail(p: seq<Inst>, cap: nat, x: int, y: int, op: Opcode)
    requires IsBinary(op) && |p| >= 5 && cap >= 2
    requires p[2] == Inst(op, 0) && p[3] == Inst(Dot, 0) && p[4] == Halt
    ensures Run(p, cap, Machine(2, [x, y], [], true), 3)
      == Halted(Machine(5, [], DecimalBytes(Binary(op, x, y)), false))
  {
    var v := Binary(op, x, y);
    var m2 := Machine(2, [x, y], [], true);
    var m3 := Machine(3, [v], [], true);
    var m4 := Machine(4, [], DecimalBytes(v), true);
    BinaryStep(p, cap, m2, op);
    assert m2.stack[..0] == [];
    assert m2.(pc := 3, stack := [] + [v]) == m3;
    RunStep(p, cap, m2, 3, m3);
    DotStep(p, cap, m3);
    assert m3.stack[..0] == [];
    assert m3.(pc := 4, stack := [], output := [] + DecimalBytes(v)) == m4;
    RunStep(p, cap, m3, 2, m4);
    QuitStep(p, cap, m4);
    RunStep(p, cap, m4, 1, Machine(5, [], DecimalBytes(v), false));
  }

  /** `x y op .` pushes `x` and `y`, applies `op` with `x` as the second
      element and `y` as the top, prints the result in decimal and halts on
      the `quit` that fills the rest of the program, on any capacities that
      hold the program and two operands. */
  lemma PrintsBinary(source: string, x: int, y: int, op: Opcode, config: Config, out: seq<Byte>)
    requires IsBinary(op) && source == BinarySource(x, y, op) && out == DecimalBytes(Binary(op, x, y))
    requires config.programCapacity >= 5 && config.stackCapacity >= 2
    ensures Interpret(source, config, 5) == Ok(Halted(Machine(5, [], out, false)))
  {
    var p := BinaryLoad(x, y, op, config.programCapacity);
    BinaryRun(p, config.stackCapacity, x, y, op);
  }

  lemma JoinFour(a: string, b: string, c: string, d: string)
    ensures Join([a, b, c, d]) == a + " " + b + " " + c + " " + d
  {
    assert [c, d][1..] == [d];
    assert Join([c, d]) == c + " " + d;
    assert [b, c, d][1..] == [c, d];
    assert Join([b, c, d]) == b + " " + (c + " " + d);
    assert [a, b, c, d][1..] == [b, c, d];
    assert Join([a, b, c, d]) == a + " " + (b + " " + (c + " " + d));
  }

  lemma OneDigit(n: nat)
    requires n < 10
    ensures IntToString(n) == [DigitChar(n)]
  {
  }

  lemma TwoDigits(n: nat)
    requires 10 <= n < 100
    ensures IntToString(n) == [DigitChar(n / 10), DigitChar(n % 10)]
  {
    assert NatToString(n / 10) == [DigitChar(n / 10)];
  }

  lemma SubtractSource()
    ensures BinarySource(10, 3, Subtract) == "10 3 - ."
  {
    TwoDigits(10);
    OneDigit(3);
    assert IntToString(10) == "10";
    assert IntToString(3) == "3";
    JoinFour("10", "3", "-", ".");
  }

  /** `10 3 - .` prints `-7`: subtraction takes the second element from the
      top, not the top from the second. */
  lemma SubtractPrintsMinusSeven(config: Config)
    requires config.programCapacity >= 5 && config.stackCapacity >= 2
    ensures Interpret("10 3 - .", config, 5) == Ok(Halted(Machine(5, [], Ascii("-7"), false)))
  {
    SubtractSource();
    SubtractOutput();
    PrintsBinary("10 3 - .", 10, 3, Subtract, config, Ascii("-7"));
  }

  lemma SubtractOutput()
    ensures DecimalBytes(Binary(Subtract, 10, 3)) == Ascii("-7")
  {
    assert Binary(Subtract, 10, 3) == -7;
    OneDigit(7);
    assert IntToString(-7) == "-7";
  }

  lemma AddSource()
    ensures BinarySource(5, 3, Add) == "5 3 + ."
  {
    OneDigit(5);
    OneDigit(3);
    assert IntToString(5) == "5";
    assert IntToString(3) == "3";
    JoinFour("5", "3", "+", ".");
  }

  /** `5 3 + .` prints `8` and nothing else. */
  lemma AddPrintsEight(config: Config)
    requires config.programCapacity >= 5 && config.stackCapacity >= 2
    ensures Interpret("5 3 + .", config, 5) == Ok(Halted(Machine(5, [], Ascii("8"), false)))
  {
    AddSource();
    AddOutput();
    PrintsBinary("5 3 + .", 5, 3, Add, config, Ascii("8"));
  }
  /** With the source's own `PROGRAM_SIZE` and `STACK_SIZE`, `5 3 + .` prints `8`. */
  lemma CompiledAddsEight()
    ensures Interpret("5 3 + .", Compiled, 5) == Ok(Halted(Machine(5, [], Ascii("8"), false)))
  {
    AddPrintsEight(Compiled);
  }


  lemma AddOutput()
    ensures DecimalBytes(Binary(Add, 5, 3)) == Ascii("8")
  {
    assert Binary(Add, 5, 3) == 8;
    OneDigit(8);
    assert IntToString(8) == "8";
  }

  /** The source `x .c`, with `x` in decimal. */
  function EmitSource(x: int): string {
    Join([IntToString(x), Mnemonic(Emit)])
  }

  lemma EmitTokens(x: int)
    ensures var ts := [IntToString(x), Mnemonic(Emit)];
      && Tokenize(EmitSource(x)) == ts
      && forall i | 0 <= i < |ts| :: !IsLabelDecl(ts[i]) && !IsLabelRef(ts[i])
  {
    IntToken(x);
    MnemonicToken(Emit);
    TwoPlain(IntToString(x), Mnemonic(Emit));
  }

  lemma TwoPlain(a: string, b: string)
    requires Plain(a) && Plain(b)
    ensures Tokenize(Join([a, b])) == [a, b]
    ensures forall i | 0 <= i < 2 :: !IsLabelDecl([a, b][i]) && !IsLabelRef([a, b][i])
  {
    PlainJoin([a, b]);
  }

  lemma EmitLoad(x: int, programCapacity: nat) returns (p: seq<Inst>)
    requires programCapacity >= 3
    ensures Load(EmitSource(x), programCapacity) == Ok(p)
    ensures |p| == programCapacity
    ensures p[0] == Inst(Push, x) && p[1] == Inst(Emit, 0) && p[2] == Halt
  {
    var ts := [IntToString(x), Mnemonic(Emit)];
    EmitTokens(x);
    LoadWithoutLabels(EmitSource(x), ts, programCapacity);
    p := Assemble(ts, programCapacity).value;
    assert p[0] == Inst(Push, x) by { IntToken(x); }
    assert p[1] == Inst(Emit, 0) by { MnemonicToken(Emit); }
  }

  lemma EmitRun(p: seq<Inst>, cap: nat, x: int)
    requires |p| >= 3 && cap >= 1
    requires p[0] == Inst(Push, x) && p[1] == Inst(Emit, 0) && p[2] == Halt
    ensures Run(p, cap, Start, 3) == Halted(Machine(3, [], [ByteOf(x)], false))
  {
    var m1 := Machine(1, [x], [], true);
    var m2 := Machine(2, [], [ByteOf(x)], true);
    PushStep(p, cap, Start, x);
    assert Start.(pc := 1, stack := [] + [x]) == m1;
    RunStep(p, cap, Start, 3, m1);
    EmitStep(p, cap, m1);
    assert m1.stack[..0] == [];
    assert m1.(pc := 2, stack := [], output := [] + [ByteOf(x)]) == m2;
    RunStep(p, cap, m1, 2, m2);
    QuitStep(p, cap, m2);
    RunStep(p, cap, m2, 1, Machine(3, [], [ByteOf(x)], false));
  }

  /** `x .c` writes the single byte `x` modulo 256 and halts. */
  lemma EmitsByte(source: string, x: int, b: Byte, config: Config)
    requires source == EmitSource(x) && b == x % 256
    requires config.programCapacity >= 3 && config.stackCapacity >= 1
    ensures Interpret(source, config, 3) == Ok(Halted(Machine(3, [], [b], false)))
  {
    var p := EmitLoad(x, config.programCapacity);
    EmitRun(p, config.stackCapacity, x);
  }

  lemma EmitSource65()
    ensures EmitSource(65) == "65 .c"
  {
    TwoDigits(65);
    assert IntToString(65) == "65";
    assert [IntToString(65), Mnemonic(Emit)][1..] == [".c"];
  }

  /** `65 .c` writes the single byte 65, the letter A. */
  lemma EmitWritesByte(config: Config)
    requires config.programCapacity >= 3 && config.stackCapacity >= 1
    ensures Interpret("65 .c", config, 3) == Ok(Halted(Machine(3, [], [65], false)))
  {
    EmitSource65();
    EmitsByte("65 .c", 65, 65, config);
  }

  /** A program that is a single reference to a label fails to load with
      that label undefined, whatever the capacities and fuel. */
  lemma LoneReferenceFails(source: string, name: string, config: Config, fuel: nat)
    requires IsLabelName(name) && Tokenize(source) == [":" + name]
    ensures Interpret(source, config, fuel) == Err(UndefinedLabel(name))
  {
    var ts := [":" + name];
    LabelRefGrammar(name);
    LabelClassesDisjoint(ts[0]);
    assert !IsDeclared(ts, name);
    ResolveSpec(ts);
  }

  /** `:missing` with no `missing:` anywhere fails to load, so nothing runs. */
  lemma MissingLabelFails(config: Config, fuel: nat)
    ensures Interpret(":missing", config, fuel) == Err(UndefinedLabel("missing"))
  {
    MissingTokens();
    LoneReferenceFails(":missing", "missing", config, fuel);
  }

  lemma MissingTokens()
    ensures IsLabelName("missing") && Tokenize(":missing") == [":" + "missing"]
  {
    TokenizeToken(":missing");
    assert ":missing" == ":" + "missing";
  }
}
