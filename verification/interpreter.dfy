/** The stack machine: a fetch/execute loop over a program counter and an
    operand stack of fixed capacity. Every place where the source reads or
    writes out of bounds (stack underflow or overflow, a negative program
    counter) or traps the debugger (an unknown opcode) is an explicit fault. */
module Interpreter {
  import opened Results
  import opened Faults
  import opened Text
  import opened Lexer
  import opened Assembler

  type Byte = b: int | 0 <= b < 256

  /** The state of a run: the program counter, the operand stack (bottom
      first, top last, so its length is the source's `sp`), the bytes written
      so far, and the source's `running` flag, which `quit` clears. */
  datatype Machine = Machine(pc: int, stack: seq<int>, output: seq<Byte>, running: bool)

  /** `pc` and `sp` start at 0, nothing is written yet, and the machine runs. */
  const Start: Machine := Machine(0, [], [], true)

  function Ascii(s: string): (bytes: seq<Byte>)
    requires forall k | 0 <= k < |s| :: s[k] as int < 256
    ensures |bytes| == |s|
  {
    seq(|s|, k requires 0 <= k < |s| => s[k] as int)
  }

  /** What `printf("%d", v)` writes. */
  function DecimalBytes(v: int): seq<Byte> {
    Ascii(IntToString(v))
  }

  /** What `putchar(v)` writes: `v` converted to `unsigned char`, which is
      `v` modulo 256. */
  function ByteOf(v: int): Byte {
    v % 256
  }

  predicate IsBinary(op: Opcode) {
    op == Add || op == Subtract || op == Multiply || op == Equal || op == Greater || op == Lesser
  }

  /** The result a binary opcode pushes, computed as the source does: `reg`
      starts as the top `b` and is combined with the element `a` below it. */
  function Binary(op: Opcode, a: int, b: int): int
    requires IsBinary(op)
  {
    var reg := b;
    match op
    case Add => reg + a
    case Subtract => reg - a
    case Multiply => reg * a
    case Equal => if reg - a == 0 then 1 else 0
    case Greater => if reg - a < 0 then 1 else 0
    case Lesser => if reg - a > 0 then 1 else 0
  }

  /** Stack effect table: how many operands an opcode needs on the stack. */
  function Needs(op: Opcode): nat {
    match op
    case Quit | Nothing | Push | Unknown => 0
    case Drop | Duplicate | Dot | Emit | Not | Goto => 1
    case Over | Add | Subtract | Multiply | Equal | Greater | Lesser | Then => 2
  }

  /** Stack effect table: by how much an opcode changes the stack depth. */
  function Effect(op: Opcode): int {
    match op
    case Quit | Nothing | Not | Unknown => 0
    case Push | Duplicate | Over => 1
    case Drop | Dot | Emit | Goto | Add | Subtract | Multiply | Equal | Greater | Lesser => -1
    case Then => -2
  }

  /** The fault, if any, of executing `op` at `pc` with `depth` operands on a
      stack of `capacity` slots. */
  function FaultOf(op: Opcode, pc: int, depth: nat, capacity: nat): Option<Error> {
    if pc < 0 then Some(PcOutOfRange(pc))
    else if op == Unknown then Some(UnknownOpcode(pc))
    else if depth < Needs(op) then Some(StackUnderflow(pc))
    else if depth + Effect(op) > capacity then Some(StackOverflow(pc))
    else None
  }

  /** One iteration of the loop: fetch the instruction at `pc`, execute it,
      and advance `pc` by one. `then` and `goto` set `pc` to the target minus
      one first, so the advance lands on the target. */
  function Step(program: seq<Inst>, capacity: nat, m: Machine): (r: Result<Machine, Error>)
    requires m.running && m.pc < |program|
    requires |m.stack| <= capacity
    ensures var op := if m.pc < 0 then Nothing else program[m.pc].op;
      var fault := FaultOf(op, m.pc, |m.stack|, capacity);
      && (r.Err? <==> fault.Some?)
      && (r.Err? ==> fault == Some(r.error))
    ensures r.Ok? ==>
      var op := program[m.pc].op;
      var keep := |m.stack| - Needs(op);
      && |r.value.stack| == |m.stack| + Effect(op) <= capacity
      && r.value.stack[..keep] == m.stack[..keep]
      && (r.value.running <==> op != Quit)
      && (op != Then && op != Goto ==> r.value.pc == m.pc + 1)
      && |m.output| <= |r.value.output| && r.value.output[..|m.output|] == m.output
      && (op != Dot && op != Emit ==> r.value.output == m.output)
  {
    if m.pc < 0 then Err(PcOutOfRange(m.pc))
    else
      var inst := program[m.pc];
      var s := m.stack;
      var n := |s|;
      var next := m.pc + 1;
      match inst.op
      case Quit => Ok(m.(pc := next, running := false))
      case Nothing => Ok(m.(pc := next))
      case Push =>
        if n >= capacity then Err(StackOverflow(m.pc))
        else Ok(m.(pc := next, stack := s + [inst.literal]))
      case Drop =>
        if n < 1 then Err(StackUnderflow(m.pc))
        else Ok(m.(pc := next, stack := s[..n - 1]))
      case Duplicate =>
        if n < 1 then Err(StackUnderflow(m.pc))
        else if n >= capacity then Err(StackOverflow(m.pc))
        else Ok(m.(pc := next, stack := s + [s[n - 1]]))
      case Over =>
        if n < 2 then Err(StackUnderflow(m.pc))
        else if n >= capacity then Err(StackOverflow(m.pc))
        else Ok(m.(pc := next, stack := s + [s[n - 2]]))
      case Dot =>
        if n < 1 then Err(StackUnderflow(m.pc))
        else Ok(m.(pc := next, stack := s[..n - 1], output := m.output + DecimalBytes(s[n - 1])))
      case Emit =>
        if n < 1 then Err(StackUnderflow(m.pc))
        else Ok(m.(pc := next, stack := s[..n - 1], output := m.output + [ByteOf(s[n - 1])]))
      case Add | Subtract | Multiply | Equal | Greater | Lesser =>
        if n < 2 then Err(StackUnderflow(m.pc))
        else Ok(m.(pc := next, stack := s[..n - 2] + [Binary(inst.op, s[n - 2], s[n - 1])]))
      case Not =>
        if n < 1 then Err(StackUnderflow(m.pc))
        else Ok(m.(pc := next, stack := s[..n - 1] + [if s[n - 1] == 0 then 1 else 0]))
      case Then =>
        if n < 2 then Err(StackUnderflow(m.pc))
        else
          var target, condition := s[n - 1], s[n - 2];
          var pc := if condition != 0 then target - 1 else m.pc;
          Ok(m.(pc := pc + 1, stack := s[..n - 2]))
      case Goto =>
        if n < 1 then Err(StackUnderflow(m.pc))
        else
          var target := s[n - 1];
          Ok(m.(pc := target - 1 + 1, stack := s[..n - 1]))
      case Unknown => Err(UnknownOpcode(m.pc))
  }

  /** The operand-moving opcodes, element by element: `Push` pushes its
      literal, `dup` copies the top, `over` copies the element below the top,
      `drop` removes the top, and `!` replaces the top by 1 if it was 0 and by
      0 otherwise. */
  lemma StepStackOps(program: seq<Inst>, capacity: nat, m: Machine)
    requires m.running && 0 <= m.pc < |program| && |m.stack| <= capacity
    requires Step(program, capacity, m).Ok?
    ensures var inst, s, s' := program[m.pc], m.stack, Step(program, capacity, m).value.stack;
      && (inst.op == Push ==> s' == s + [inst.literal])
      && (inst.op == Duplicate ==> s' == s + [s[|s| - 1]])
      && (inst.op == Over ==> s' == s + [s[|s| - 2]])
      && (inst.op == Drop ==> s' == s[..|s| - 1])
      && (inst.op == Not ==> s' == s[..|s| - 1] + [if s[|s| - 1] == 0 then 1 else 0])
      && (inst.op == Nothing ==> Step(program, capacity, m).value == m.(pc := m.pc + 1))
  {
  }

  /** The binary opcodes pop the top `b` and the element `a` below it and
      push one result: `a + b`, `b - a` (top minus second, so `10 3 -`
      leaves -7), `a * b`, and 1 or 0 for `a == b`, `a > b` and `a < b`. */
  lemma StepArithmetic(program: seq<Inst>, capacity: nat, m: Machine)
    requires m.running && 0 <= m.pc < |program| && |m.stack| <= capacity
    requires IsBinary(program[m.pc].op) && |m.stack| >= 2
    ensures Step(program, capacity, m).Ok?
    ensures var op, s := program[m.pc].op, m.stack;
      var a, b := s[|s| - 2], s[|s| - 1];
      var result := match op
        case Add => a + b
        case Subtract => b - a
        case Multiply => a * b
        case Equal => if a == b then 1 else 0
        case Greater => if a > b then 1 else 0
        case _ => if a < b then 1 else 0;
      Step(program, capacity, m).value.stack == s[..|s| - 2] + [result]
  {
  }

  /** `.` pops the top and writes its decimal text; `.c` pops the top and
      writes it as one byte. */
  lemma StepOutput(program: seq<Inst>, capacity: nat, m: Machine)
    requires m.running && 0 <= m.pc < |program| && |m.stack| <= capacity
    requires program[m.pc].op == Dot || program[m.pc].op == Emit
    requires |m.stack| >= 1
    ensures Step(program, capacity, m).Ok?
    ensures var s, m' := m.stack, Step(program, capacity, m).value;
      && m'.stack == s[..|s| - 1]
      && m'.output == m.output +
           if program[m.pc].op == Dot then Ascii(IntToString(s[|s| - 1])) else [s[|s| - 1] % 256]
  {
  }

  /** `goto` pops a target and continues there; `then` pops a target and then
      a condition, and continues at the target when the condition is not 0
      and at the next instruction otherwise; `quit` stops the loop. */
  lemma StepControl(program: seq<Inst>, capacity: nat, m: Machine)
    requires m.running && 0 <= m.pc < |program| && |m.stack| <= capacity
    requires Step(program, capacity, m).Ok?
    ensures var op, s, m' := program[m.pc].op, m.stack, Step(program, capacity, m).value;
      && (op == Goto ==> m'.pc == s[|s| - 1])
      && (op == Then ==> m'.pc == if s[|s| - 2] != 0 then s[|s| - 1] else m.pc + 1)
      && (op == Quit ==> !m'.running && m'.stack == s && m'.output == m.output)
  {
  }

  /** How a fuel-bounded run ends: the loop condition failed (`quit` ran or
      `pc` passed the end of the program), a step faulted, or the fuel ran
      out. */
  datatype Outcome = Halted(m: Machine) | Faulted(error: Error, m: Machine) | OutOfFuel(m: Machine)

  /** The loop `while (pc < PROGRAM_SIZE && running)`, for at most `fuel`
      iterations. A run never leaves the stack above its capacity and never
      takes back output; a fault is reported with the state it happened in. */
  function Run(program: seq<Inst>, capacity: nat, m: Machine, fuel: nat): (r: Outcome)
    requires |m.stack| <= capacity
    ensures |r.m.stack| <= capacity
    ensures |m.output| <= |r.m.output| && r.m.output[..|m.output|] == m.output
    ensures r.Halted? ==> !r.m.running || r.m.pc >= |program|
    ensures r.Faulted? ==>
      && r.m.running && r.m.pc < |program|
      && FaultOf(if r.m.pc < 0 then Nothing else program[r.m.pc].op, r.m.pc, |r.m.stack|, capacity)
         == Some(r.error)
    ensures r.OutOfFuel? ==> r.m.running && r.m.pc < |program|
    decreases fuel
  {
    if !m.running || m.pc >= |program| then Halted(m)
    else if fuel == 0 then OutOfFuel(m)
    else
      match Step(program, capacity, m)
      case Err(e) => Faulted(e, m)
      case Ok(next) => Run(program, capacity, next, fuel - 1)
  }

  /** More fuel does not change a run that did not need it: the outcome of a
      run that halts or faults is independent of the fuel bound. */
  lemma {:induction false} RunMoreFuel(program: seq<Inst>, capacity: nat, m: Machine, fuel: nat, more: nat)
    requires |m.stack| <= capacity
    requires !Run(program, capacity, m, fuel).OutOfFuel?
    ensures Run(program, capacity, m, fuel + more) == Run(program, capacity, m, fuel)
    decreases fuel
  {
    if !m.running || m.pc >= |program| {
      RunStopped(program, capacity, m, fuel);
      RunStopped(program, capacity, m, fuel + more);
    } else if fuel == 0 {
      RunNoFuel(program, capacity, m);
    } else if Step(program, capacity, m).Err? {
      var e := Step(program, capacity, m).error;
      RunFaults(program, capacity, m, fuel, e);
      RunFaults(program, capacity, m, fuel + more, e);
    } else {
      var next := Step(program, capacity, m).value;
      RunStep(program, capacity, m, fuel, next);
      RunMoreFuel(program, capacity, next, fuel - 1, more);
      RunStep(program, capacity, m, fuel + more, next);
    }
  }

  /** A running state with no fuel left is where the run gives up. */
  lemma RunNoFuel(program: seq<Inst>, capacity: nat, m: Machine)
    requires |m.stack| <= capacity
    ensures m.running && m.pc < |program| ==> Run(program, capacity, m, 0) == OutOfFuel(m)
  {
  }

  /** A state the loop condition rejects is where the run halts. */
  lemma RunStopped(program: seq<Inst>, capacity: nat, m: Machine, fuel: nat)
    requires |m.stack| <= capacity && (!m.running || m.pc >= |program|)
    ensures Run(program, capacity, m, fuel) == Halted(m)
  {
  }

  /** A step that faults ends the run with that fault. */
  lemma RunFaults(program: seq<Inst>, capacity: nat, m: Machine, fuel: nat, e: Error)
    requires |m.stack| <= capacity && m.running && m.pc < |program| && fuel > 0
    requires Step(program, capacity, m) == Err(e)
    ensures Run(program, capacity, m, fuel) == Faulted(e, m)
  {
  }

  /** A run with fuel left whose state is still running takes one step. */
  lemma RunStep(program: seq<Inst>, capacity: nat, m: Machine, fuel: nat, next: Machine)
    requires |m.stack| <= capacity && m.running && m.pc < |program| && fuel > 0
    requires Step(program, capacity, m) == Ok(next)
    ensures Run(program, capacity, m, fuel) == Run(program, capacity, next, fuel - 1)
  {
  }
}
