/** Every way a run of the stack machine can fail. The original program
    reports only the undefined label (exit code 69); the other kinds are
    places where it writes or reads out of bounds or traps the debugger, and
    the model names each of them so that a caller can tell them apart. */
module Faults {

  datatype Error =
    | UndefinedLabel(name: string)
    | ProgramOverflow(tokens: nat, capacity: nat)
    | StackUnderflow(pc: int)
    | StackOverflow(pc: int)
    | PcOutOfRange(pc: int)
    | UnknownOpcode(pc: int)
}
