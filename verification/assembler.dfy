/** The positional assembler: token `i` becomes instruction `i` of a program
    of fixed capacity, and every slot past the last token holds `Quit`. */
module Assembler {
  import opened Results
  import opened Faults
  import opened Text
  import opened Lexer

  /** An instruction; `literal` matters only to `Push`. */
  datatype Inst = Inst(op: Opcode, literal: int)

  /** The value of a slot no token was written to: the source initializes the
      program array with `{ Opcode::Quit }`, and the zero value of the other
      slots is `Quit` as well. */
  const Halt: Inst := Inst(Quit, 0)

  /** One token: an integer literal pushes its value, anything else is looked
      up in the mnemonic table. */
  function AssembleToken(t: string): Inst {
    if IsInt(t) then Inst(Push, IntValue(t)) else Inst(ParseOpcode(t), 0)
  }

  /** The assembly loop from token `i` on, writing into `program`. */
  function Fill(program: seq<Inst>, ts: seq<string>, i: nat): (r: seq<Inst>)
    requires i <= |ts| <= |program|
    ensures |r| == |program|
    ensures forall k | 0 <= k < i :: r[k] == program[k]
    ensures forall k | i <= k < |ts| :: r[k] == AssembleToken(ts[k])
    ensures forall k | |ts| <= k < |program| :: r[k] == program[k]
    decreases |ts| - i
  {
    if i == |ts| then program else Fill(program[i := AssembleToken(ts[i])], ts, i + 1)
  }

  /** Assembles `ts` into a program of `capacity` slots. The source writes
      past the end of its array when there are more tokens than slots; here
      that is a `ProgramOverflow` error. */
  function Assemble(ts: seq<string>, capacity: nat): (r: Result<seq<Inst>, Error>)
    ensures r.Ok? <==> |ts| <= capacity
    ensures r.Err? ==> r.error == ProgramOverflow(|ts|, capacity)
    ensures r.Ok? ==>
      && |r.value| == capacity
      && (forall i | 0 <= i < |ts| :: r.value[i] == AssembleToken(ts[i]))
      && (forall i | |ts| <= i < capacity :: r.value[i] == Halt)
  {
    if |ts| > capacity then Err(ProgramOverflow(|ts|, capacity))
    else Ok(Fill(seq(capacity, _ => Halt), ts, 0))
  }

  /** What a token assembles to, by kind: integer literals push their value,
      mnemonics give their opcode, and every other token gives `Unknown`. */
  lemma AssembleTokenKinds(t: string)
    ensures AssembleToken(t).op == Push <==> IsInt(t)
    ensures IsInt(t) ==> AssembleToken(t).literal == IntValue(t)
    ensures AssembleToken(t).op == Unknown <==>
      !IsInt(t) && forall i | 0 <= i < |Mnemonics| :: Mnemonics[i].0 != t
    ensures AssembleToken(t).op != Push && AssembleToken(t).op != Unknown ==>
      Mnemonic(AssembleToken(t).op) == t && AssembleToken(t).literal == 0
  {
  }

  /** An instruction that some token assembles to. */
  predicate WellFormed(inst: Inst) {
    inst.op != Unknown && (inst.op != Push ==> inst.literal == 0)
  }

  /** The source text of an instruction: the decimal literal of a push, or
      the mnemonic of any other opcode. */
  function Disassemble(inst: Inst): string
    requires WellFormed(inst)
  {
    if inst.op == Push then IntToString(inst.literal) else Mnemonic(inst.op)
  }

  /** Assembling the text of an instruction gives the instruction back. */
  lemma AssembleDisassemble(inst: Inst)
    requires WellFormed(inst)
    ensures AssembleToken(Disassemble(inst)) == inst
  {
    if inst.op == Push {
      IntToStringRoundTrip(inst.literal);
    } else {
      MnemonicRoundTrip(inst.op);
    }
  }

  /** A program of at most `capacity` well-formed instructions, written out
      as tokens and assembled again, is itself followed by `Quit` slots. */
  lemma AssembleRoundTrip(program: seq<Inst>, capacity: nat)
    requires |program| <= capacity
    requires forall i | 0 <= i < |program| :: WellFormed(program[i])
    ensures Assemble(seq(|program|, i requires 0 <= i < |program| => Disassemble(program[i])), capacity)
      == Ok(program + seq(capacity - |program|, _ => Halt))
  {
    var ts := seq(|program|, i requires 0 <= i < |program| => Disassemble(program[i]));
    var r := Assemble(ts, capacity);
    var expected := program + seq(capacity - |program|, _ => Halt);
    forall i | 0 <= i < |program|
      ensures r.value[i] == expected[i]
    {
      AssembleDisassemble(program[i]);
    }
    assert r.value == expected;
  }
}
