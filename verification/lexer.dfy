/** Lexical classification of one token: integer literal, label declaration
    (`name:`), label reference (`:name`) or mnemonic, and the instruction set
    itself. */
module Lexer {
  import opened Text

  /** The opcodes of the machine. `Unknown` is what a token that is neither an
      integer nor a mnemonic assembles to; executing it is a fault. */
  datatype Opcode =
    | Quit
    | Nothing
    | Push
    | Drop
    | Duplicate
    | Over
    | Dot
    | Emit
    | Add
    | Subtract
    | Multiply
    | Equal
    | Greater
    | Lesser
    | Not
    | Then
    | Goto
    | Unknown

  predicate IsSign(c: char) {
    c == '-' || c == '+'
  }

  /** An optional sign followed by at least one decimal digit. */
  predicate IsInt(s: string) {
    var start := if |s| > 0 && IsSign(s[0]) then 1 else 0;
    start < |s| && AllDigits(s[start..])
  }

  /** At least one identifier character, then a colon. */
  predicate IsLabelDecl(s: string) {
    |s| >= 2 && s[|s| - 1] == ':' && forall k | 0 <= k < |s| - 1 :: IsIdentChar(s[k])
  }

  /** A colon, then at least one identifier character. */
  predicate IsLabelRef(s: string) {
    |s| >= 2 && s[0] == ':' && forall k | 1 <= k < |s| :: IsIdentChar(s[k])
  }

  /** A label name: one or more letters, digits or underscores. */
  predicate IsLabelName(s: string) {
    |s| > 0 && forall k | 0 <= k < |s| :: IsIdentChar(s[k])
  }

  function DeclName(s: string): (name: string)
    requires IsLabelDecl(s)
    ensures IsLabelName(name) && name + ":" == s
  {
    s[..|s| - 1]
  }

  function RefName(s: string): (name: string)
    requires IsLabelRef(s)
    ensures IsLabelName(name) && ":" + name == s
  {
    s[1..]
  }

  /** The value of an integer literal, as `std::stoi` reads it (without its
      range limit). */
  function IntValue(s: string): int
    requires IsInt(s)
  {
    if s[0] == '-' then -(DigitsValue(s[1..]) as int)
    else if s[0] == '+' then DigitsValue(s[1..])
    else DigitsValue(s)
  }

  /** The sixteen mnemonics, in the order the lookup tries them. */
  const Mnemonics: seq<(string, Opcode)> := [
    ("quit", Quit),
    ("nop", Nothing),
    ("drop", Drop),
    ("dup", Duplicate),
    ("over", Over),
    (".", Dot),
    (".c", Emit),
    ("+", Add),
    ("-", Subtract),
    ("*", Multiply),
    ("==", Equal),
    (">", Greater),
    ("<", Lesser),
    ("!", Not),
    ("then", Then),
    ("goto", Goto)
  ]

  /** The opcode of the first entry of `table` spelled `t`, or `Unknown`
      when there is none. */
  function Lookup(table: seq<(string, Opcode)>, t: string): (op: Opcode)
    ensures (forall i | 0 <= i < |table| :: table[i].0 != t) ==> op == Unknown
    ensures (exists i | 0 <= i < |table| :: table[i].0 == t) ==>
      exists i | 0 <= i < |table| :: table[i] == (t, op) && forall j | 0 <= j < i :: table[j].0 != t
  {
    if |table| == 0 then Unknown
    else if table[0].0 == t then table[0].1
    else
      var op := Lookup(table[1..], t);
      assert (exists i | 0 <= i < |table| :: table[i].0 == t) ==>
        exists i | 0 <= i < |table[1..]| :: table[1..][i].0 == t;
      op
  }

  /** Every entry of the table spells its opcode's mnemonic, and neither
      `Push` nor `Unknown` has an entry. */
  lemma MnemonicsWellFormed()
    ensures |Mnemonics| == 16
    ensures forall i | 0 <= i < |Mnemonics| ::
      HasMnemonic(Mnemonics[i].1) && Mnemonic(Mnemonics[i].1) == Mnemonics[i].0
  {
  }

  /** Looks `t` up in the mnemonic table. The result is never `Push`; it is
      `Unknown` exactly when no mnemonic is spelled `t`, and otherwise the
      opcode whose mnemonic is `t`. */
  function ParseOpcode(t: string): (op: Opcode)
    ensures op != Push
    ensures op == Unknown <==> forall i | 0 <= i < |Mnemonics| :: Mnemonics[i].0 != t
    ensures op != Unknown ==> Mnemonic(op) == t
  {
    MnemonicsWellFormed();
    Lookup(Mnemonics, t)
  }

  /** The opcodes that have a mnemonic: all but `Push`, which is written as
      an integer literal, and `Unknown`. */
  predicate HasMnemonic(op: Opcode) {
    op != Push && op != Unknown
  }

  /** The source spelling of an opcode. */
  function Mnemonic(op: Opcode): string
    requires HasMnemonic(op)
  {
    match op
    case Quit => "quit"
    case Nothing => "nop"
    case Drop => "drop"
    case Duplicate => "dup"
    case Over => "over"
    case Dot => "."
    case Emit => ".c"
    case Add => "+"
    case Subtract => "-"
    case Multiply => "*"
    case Equal => "=="
    case Greater => ">"
    case Lesser => "<"
    case Not => "!"
    case Then => "then"
    case Goto => "goto"
  }

  /** An integer literal is either a non-empty digit string or a sign
      followed by a non-empty digit string; so "", "+" and "-" are not. */
  lemma IsIntForms(s: string)
    ensures IsInt(s) <==>
      (|s| > 0 && AllDigits(s)) || (|s| > 1 && IsSign(s[0]) && AllDigits(s[1..]))
  {
    if |s| > 0 && AllDigits(s) {
      assert !IsSign(s[0]);
      assert s[0..] == s;
    }
  }

  /** The decimal text of a natural is an integer literal of that value. */
  lemma NatToStringIsInt(n: nat)
    ensures IsInt(NatToString(n)) && IntValue(NatToString(n)) == n
  {
    var s := NatToString(n);
    assert !IsSign(s[0]);
    assert s[0..] == s;
    NatToStringRoundTrip(n);
  }

  /** `printf("%d")` text reads back, through `std::stoi`, as the same integer. */
  lemma IntToStringRoundTrip(i: int)
    ensures IsInt(IntToString(i)) && IntValue(IntToString(i)) == i
  {
    if i < 0 {
      var s := IntToString(i);
      assert s[1..] == NatToString(-i);
      NatToStringRoundTrip(-i);
    } else {
      NatToStringIsInt(i);
    }
  }

  /** `name:` is a label declaration exactly when `name` is a label name, and
      it declares that name. */
  lemma LabelDeclGrammar(name: string)
    ensures IsLabelDecl(name + ":") <==> IsLabelName(name)
    ensures IsLabelName(name) ==> DeclName(name + ":") == name
  {
    var s := name + ":";
    assert forall k | 0 <= k < |name| :: s[k] == name[k];
  }

  /** `:name` is a label reference exactly when `name` is a label name, and it
      refers to that name. */
  lemma LabelRefGrammar(name: string)
    ensures IsLabelRef(":" + name) <==> IsLabelName(name)
    ensures IsLabelName(name) ==> RefName(":" + name) == name
  {
    var s := ":" + name;
    assert forall k | 0 <= k < |name| :: s[k + 1] == name[k];
  }

  /** No token is both a declaration and a reference, and neither kind is an
      integer literal or a mnemonic. */
  lemma LabelClassesDisjoint(s: string)
    ensures !(IsLabelDecl(s) && IsLabelRef(s))
    ensures IsLabelDecl(s) || IsLabelRef(s) ==> !IsInt(s) && ParseOpcode(s) == Unknown
  {
    if IsLabelDecl(s) || IsLabelRef(s) {
      LabelIsNotInt(s);
      LabelIsNotMnemonic(s);
    }
  }

  lemma LabelIsNotInt(s: string)
    requires IsLabelDecl(s) || IsLabelRef(s)
    ensures !IsInt(s)
  {
  }

  lemma LabelIsNotMnemonic(s: string)
    requires IsLabelDecl(s) || IsLabelRef(s)
    ensures ParseOpcode(s) == Unknown
  {
    var op := ParseOpcode(s);
    if op != Unknown {
      MnemonicHasNoColonEnds(op);
    }
  }

  /** Every mnemonic parses back to its opcode, and none of them reads as an
      integer literal (so "+" and "-" are operators, not signs). */
  lemma MnemonicRoundTrip(op: Opcode)
    requires HasMnemonic(op)
    ensures ParseOpcode(Mnemonic(op)) == op
    ensures !IsInt(Mnemonic(op))
  {
    MnemonicListed(op);
    var parsed := ParseOpcode(Mnemonic(op));
    MnemonicInjective(parsed, op);
    MnemonicNotInt(op);
  }

  lemma MnemonicListed(op: Opcode)
    requires HasMnemonic(op)
    ensures exists i | 0 <= i < |Mnemonics| :: Mnemonics[i].0 == Mnemonic(op)
  {
    match op
    case Quit => assert Mnemonics[0].0 == Mnemonic(op);
    case Nothing => assert Mnemonics[1].0 == Mnemonic(op);
    case Drop => assert Mnemonics[2].0 == Mnemonic(op);
    case Duplicate => assert Mnemonics[3].0 == Mnemonic(op);
    case Over => assert Mnemonics[4].0 == Mnemonic(op);
    case Dot => assert Mnemonics[5].0 == Mnemonic(op);
    case Emit => assert Mnemonics[6].0 == Mnemonic(op);
    case Add => assert Mnemonics[7].0 == Mnemonic(op);
    case Subtract => assert Mnemonics[8].0 == Mnemonic(op);
    case Multiply => assert Mnemonics[9].0 == Mnemonic(op);
    case Equal => assert Mnemonics[10].0 == Mnemonic(op);
    case Greater => assert Mnemonics[11].0 == Mnemonic(op);
    case Lesser => assert Mnemonics[12].0 == Mnemonic(op);
    case Not => assert Mnemonics[13].0 == Mnemonic(op);
    case Then => assert Mnemonics[14].0 == Mnemonic(op);
    case Goto => assert Mnemonics[15].0 == Mnemonic(op);
  }

  /** No mnemonic ends in a digit, so none reads as an integer literal. */
  lemma MnemonicNotInt(op: Opcode)
    requires HasMnemonic(op)
    ensures !IsInt(Mnemonic(op))
  {
    var t := Mnemonic(op);
    IntEndsInDigit(t);
  }

  lemma IntEndsInDigit(s: string)
    requires |s| > 0
    ensures IsInt(s) ==> IsDigit(s[|s| - 1])
  {
    var start := if IsSign(s[0]) then 1 else 0;
    if IsInt(s) {
      assert s[start..][|s| - 1 - start] == s[|s| - 1];
    }
  }

  lemma MnemonicHasNoColonEnds(op: Opcode)
    requires HasMnemonic(op)
    ensures var m := Mnemonic(op); |m| > 0 && m[0] != ':' && m[|m| - 1] != ':'
  {
  }

  lemma MnemonicInjective(a: Opcode, b: Opcode)
    requires HasMnemonic(a) && HasMnemonic(b) && Mnemonic(a) == Mnemonic(b)
    ensures a == b
  {
  }
}
