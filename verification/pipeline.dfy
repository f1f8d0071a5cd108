/** The whole program: tokenize the source text, resolve labels, assemble,
    and run. Reading the text from the file `Example` and the process exit
    status are outside the model; a resolution failure is the source's exit
    code 69 and happens before anything is assembled or run. */
module Pipeline {
  import opened Results
  import opened Faults
  import opened Text
  import opened Tokenizer
  import opened Lexer
  import opened Resolver
  import opened Assembler
  import opened Interpreter

  /** The capacities the source compiles in as `PROGRAM_SIZE` and
      `STACK_SIZE`. */
  datatype Config = Config(programCapacity: nat, stackCapacity: nat)

  /** The source's values of both capacities. */
  const Compiled: Config := Config(100, 100)

  /** Tokenize, resolve and assemble. A loaded program has one slot per
      unit of capacity, and at least as many slots as the source has tokens. */
  function Load(source: string, programCapacity: nat): (r: Result<seq<Inst>, Error>)
    ensures r.Ok? ==> |r.value| == programCapacity && |Tokenize(source)| <= programCapacity
  {
    ResolveSpec(Tokenize(source));
    var resolved :- Resolve(Tokenize(source));
    Assemble(resolved, programCapacity)
  }

  /** Load, then run from the start state for at most `fuel` steps. */
  function Interpret(source: string, config: Config, fuel: nat): Result<Outcome, Error> {
    var program :- Load(source, config.programCapacity);
    Ok(Run(program, config.stackCapacity, Start, fuel))
  }

  /** What loading yields, slot by slot: a declaration is a `nop`, a
      reference pushes the index of the last declaration of its name, every
      other token assembles as it stands, and the slots past the last token
      are `Quit`. Loading fails on an undeclared reference first, and
      otherwise on more tokens than slots. */
  lemma LoadSpec(source: string, programCapacity: nat)
    ensures var ts, r := Tokenize(source), Load(source, programCapacity);
      && (r.Ok? <==>
            && (forall i | 0 <= i < |ts| && IsLabelRef(ts[i]) :: IsDeclared(ts, RefName(ts[i])))
            && |ts| <= programCapacity)
      && (r.Ok? ==>
            && |r.value| == programCapacity
            && (forall i | 0 <= i < |ts| ::
                 && (IsLabelDecl(ts[i]) ==> r.value[i] == Inst(Nothing, 0))
                 && (IsLabelRef(ts[i]) ==>
                       exists j | 0 <= j < |ts| :: IsLastDecl(ts, RefName(ts[i]), j) && r.value[i] == Inst(Push, j))
                 && (!IsLabelDecl(ts[i]) && !IsLabelRef(ts[i]) ==> r.value[i] == AssembleToken(ts[i])))
            && (forall i | |ts| <= i < programCapacity :: r.value[i] == Halt))
      && (r.Err? ==>
            || (exists i | 0 <= i < |ts| ::
                  IsLabelRef(ts[i]) && !IsDeclared(ts, RefName(ts[i])) && r.error == UndefinedLabel(RefName(ts[i])))
            || ((forall i | 0 <= i < |ts| && IsLabelRef(ts[i]) :: IsDeclared(ts, RefName(ts[i])))
                && r.error == ProgramOverflow(|ts|, programCapacity)))
  {
    var ts := Tokenize(source);
    ResolveSpec(ts);
    if Load(source, programCapacity).Ok? {
      forall i | 0 <= i < |ts| {
        LoadSlot(source, programCapacity, i);
      }
    }
  }

  /** A source that refers to a label it never declares fails to load with
      an undefined-label error, so it is never assembled or run, whatever the
      capacities. */
  lemma UndefinedLabelPreventsExecution(source: string, config: Config, fuel: nat, i: nat)
    requires var ts := Tokenize(source);
      i < |ts| && IsLabelRef(ts[i]) && !IsDeclared(ts, RefName(ts[i]))
    ensures Interpret(source, config, fuel).Err?
    ensures Interpret(source, config, fuel).error.UndefinedLabel?
  {
    LoadSpec(source, config.programCapacity);
  }

  /** A push of `j` followed by `goto` continues at `j`, with the stack as
      before. */
  lemma PushGoto(program: seq<Inst>, capacity: nat, m: Machine, j: int)
    requires m.running && 0 <= m.pc && m.pc + 1 < |program| && |m.stack| < capacity
    requires program[m.pc] == Inst(Push, j) && program[m.pc + 1].op == Goto
    ensures var s1 := Step(program, capacity, m);
      && s1.Ok? && s1.value.running && s1.value.pc == m.pc + 1
      && var s2 := Step(program, capacity, s1.value);
      && s2.Ok? && s2.value.pc == j && s2.value.stack == m.stack
  {
    var m1 := Step(program, capacity, m).value;
    assert m1.stack == m.stack + [j];
    assert m1.stack[..|m.stack|] == m.stack;
  }

  /** Label addressing end to end: when token `i` refers to a label and token
      `i + 1` is `goto`, executing both from a state at `pc == i` continues at
      the index of the label's last declaration, with the stack as before. */
  lemma GotoLabel(source: string, config: Config, program: seq<Inst>, i: nat, m: Machine)
    requires Load(source, config.programCapacity) == Ok(program)
    requires var ts := Tokenize(source);
      i + 1 < |ts| && IsLabelRef(ts[i]) && ts[i + 1] == "goto"
    requires m.running && m.pc == i && |m.stack| < config.stackCapacity
    ensures var s1 := Step(program, config.stackCapacity, m);
      && s1.Ok?
      && s1.value.running && s1.value.pc < |program|
      && var s2 := Step(program, config.stackCapacity, s1.value);
      && s2.Ok?
      && IsLastDecl(Tokenize(source), RefName(Tokenize(source)[i]), s2.value.pc)
      && s2.value.stack == m.stack
  {
    var j := GotoLabelTarget(source, config.programCapacity, i);
    PushGoto(program, config.stackCapacity, m, j);
  }

  /** The program slots of a label reference followed by `goto`. */
  lemma GotoLabelTarget(source: string, programCapacity: nat, i: nat) returns (j: nat)
    requires Load(source, programCapacity).Ok?
    requires var ts := Tokenize(source);
      i + 1 < |ts| && IsLabelRef(ts[i]) && ts[i + 1] == "goto"
    ensures var ts, program := Tokenize(source), Load(source, programCapacity).value;
      && IsLastDecl(ts, RefName(ts[i]), j)
      && i + 1 < |program|
      && program[i] == Inst(Push, j) && program[i + 1] == Inst(Goto, 0)
  {
    j := LoadSlotRef(source, programCapacity, i);
    LoadSlotGoto(source, programCapacity, i + 1);
  }

  lemma LoadSlotRef(source: string, programCapacity: nat, i: nat) returns (j: nat)
    requires Load(source, programCapacity).Ok?
    requires i < |Tokenize(source)| && IsLabelRef(Tokenize(source)[i])
    ensures var ts := Tokenize(source);
      IsLastDecl(ts, RefName(ts[i]), j) && Load(source, programCapacity).value[i] == Inst(Push, j)
  {
    LoadSlot(source, programCapacity, i);
    var ts := Tokenize(source);
    j :| 0 <= j < |ts| && IsLastDecl(ts, RefName(ts[i]), j)
      && Load(source, programCapacity).value[i] == Inst(Push, j);
  }

  lemma LoadSlotGoto(source: string, programCapacity: nat, i: nat)
    requires Load(source, programCapacity).Ok?
    requires i < |Tokenize(source)| && Tokenize(source)[i] == "goto"
    ensures Load(source, programCapacity).value[i] == Inst(Goto, 0)
  {
    var t := Mnemonic(Goto);
    assert t == "goto";
    MnemonicRoundTrip(Goto);
    assert !IsLabelDecl(t) by { assert t[3] != ':'; }
    assert !IsLabelRef(t) by { assert t[0] != ':'; }
    LoadSlot(source, programCapacity, i);
  }

  /** One slot of a loaded program, as `LoadSpec` describes it. */
  lemma LoadSlot(source: string, programCapacity: nat, i: nat)
    requires Load(source, programCapacity).Ok? && i < |Tokenize(source)|
    ensures var ts, program := Tokenize(source), Load(source, programCapacity).value;
      && (IsLabelDecl(ts[i]) ==> program[i] == Inst(Nothing, 0))
      && (IsLabelRef(ts[i]) ==>
            exists j | 0 <= j < |ts| :: IsLastDecl(ts, RefName(ts[i]), j) && program[i] == Inst(Push, j))
      && (!IsLabelDecl(ts[i]) && !IsLabelRef(ts[i]) ==> program[i] == AssembleToken(ts[i]))
  {
    var ts := Tokenize(source);
    var rs := LoadResolved(source, programCapacity);
    var program := Load(source, programCapacity).value;
    assert program[i] == AssembleToken(rs[i]);
    ResolvedSlot(ts, rs, i);
    if IsLabelDecl(ts[i]) {
      MnemonicRoundTrip(Nothing);
    }
    if IsLabelRef(ts[i]) {
      var j :| 0 <= j < |ts| && IsLastDecl(ts, RefName(ts[i]), j) && rs[i] == NatToString(j);
      NatToStringIsInt(j);
    }
  }

  /** A loaded program is the assembly of the resolved tokens. */
  lemma LoadResolved(source: string, programCapacity: nat) returns (rs: seq<string>)
    requires Load(source, programCapacity).Ok?
    ensures Resolve(Tokenize(source)) == Ok(rs) && |rs| == |Tokenize(source)|
    ensures forall i | 0 <= i < |rs| :: Load(source, programCapacity).value[i] == AssembleToken(rs[i])
  {
    ResolveSpec(Tokenize(source));
    rs := Resolve(Tokenize(source)).value;
  }

  /** Token `i` after a successful resolution, as `ResolveSpec` describes it. */
  lemma ResolvedSlot(ts: seq<string>, rs: seq<string>, i: nat)
    requires Resolve(ts) == Ok(rs) && i < |ts|
    ensures |rs| == |ts|
    ensures IsLabelDecl(ts[i]) ==> rs[i] == "nop"
    ensures IsLabelRef(ts[i]) ==>
      exists j | 0 <= j < |ts| :: IsLastDecl(ts, RefName(ts[i]), j) && rs[i] == NatToString(j)
    ensures !IsLabelDecl(ts[i]) && !IsLabelRef(ts[i]) ==> rs[i] == ts[i]
  {
    ResolveSpec(ts);
  }
}
