/** The two-pass label resolver. Pass 1 records, for every declaration
    `name:`, the token index it stands at (a later declaration of the same
    name replaces an earlier one) and rewrites the declaration to `nop`, so
    that token indices stay instruction indices. Pass 2 rewrites every
    reference `:name` to the decimal text of the recorded index, and fails at
    the first reference whose name was never declared. */
module Resolver {
  import opened Results
  import opened Faults
  import opened Text
  import opened Lexer

  type LabelTable = map<string, nat>

  /** Token `i` of `ts` declares `name`. */
  predicate DeclaresAt(ts: seq<string>, i: int, name: string) {
    0 <= i < |ts| && IsLabelDecl(ts[i]) && DeclName(ts[i]) == name
  }

  predicate IsDeclared(ts: seq<string>, name: string) {
    exists i | 0 <= i < |ts| :: DeclaresAt(ts, i, name)
  }

  /** Token `i` is the last declaration of `name` in `ts`. */
  predicate IsLastDecl(ts: seq<string>, name: string, i: int) {
    DeclaresAt(ts, i, name) && forall j | i < j < |ts| :: !DeclaresAt(ts, j, name)
  }

  /** The outcome of pass 1: the label table and the rewritten tokens. */
  datatype Declarations = Declarations(labels: LabelTable, tokens: seq<string>)

  /** Pass 1 over `ts`, visiting the tokens in index order. */
  function DeclarePass(ts: seq<string>): Declarations {
    if |ts| == 0 then Declarations(map[], [])
    else
      var n := |ts| - 1;
      var d := DeclarePass(ts[..n]);
      var t := ts[n];
      if IsLabelDecl(t) then Declarations(d.labels[DeclName(t) := n], d.tokens + ["nop"])
      else Declarations(d.labels, d.tokens + [t])
  }

  /** Pass 2 applied to one token. */
  function ResolveToken(labels: LabelTable, t: string): Result<string, Error> {
    if !IsLabelRef(t) then Ok(t)
    else if RefName(t) in labels then Ok(NatToString(labels[RefName(t)]))
    else Err(UndefinedLabel(RefName(t)))
  }

  /** Pass 2 over `ts`, visiting the tokens in index order. */
  function ResolvePass(labels: LabelTable, ts: seq<string>): Result<seq<string>, Error> {
    if |ts| == 0 then Ok([])
    else
      var head :- ResolveToken(labels, ts[0]);
      var tail :- ResolvePass(labels, ts[1..]);
      Ok([head] + tail)
  }

  /** Both passes: pass 1 runs over every token before pass 2 starts, so a
      reference may come before its declaration. */
  function Resolve(ts: seq<string>): Result<seq<string>, Error> {
    var d := DeclarePass(ts);
    ResolvePass(d.labels, d.tokens)
  }

  /** Pass 1 keeps the token count, turns every declaration into `nop` at the
      same index and leaves every other token alone. */
  lemma {:induction false} DeclarePassTokens(ts: seq<string>)
    ensures |DeclarePass(ts).tokens| == |ts|
    ensures forall i | 0 <= i < |ts| ::
      DeclarePass(ts).tokens[i] == if IsLabelDecl(ts[i]) then "nop" else ts[i]
  {
    if |ts| > 0 {
      var n := |ts| - 1;
      DeclarePassTokens(ts[..n]);
    }
  }

  /** The table of pass 1 holds exactly the declared names, each mapped to
      the index of its last declaration. */
  lemma {:induction false} DeclarePassLabels(ts: seq<string>)
    ensures forall name :: name in DeclarePass(ts).labels <==> IsDeclared(ts, name)
    ensures forall name | name in DeclarePass(ts).labels ::
      IsLastDecl(ts, name, DeclarePass(ts).labels[name])
  {
    if |ts| > 0 {
      var n := |ts| - 1;
      var prefix := ts[..n];
      DeclarePassLabels(prefix);
      forall name
        ensures name in DeclarePass(ts).labels <==> IsDeclared(ts, name)
        ensures name in DeclarePass(ts).labels ==> IsLastDecl(ts, name, DeclarePass(ts).labels[name])
      {
        DeclarePassLabelsStep(ts, name);
      }
    }
  }

  /** One step of `DeclarePassLabels`: adding the last token to the prefix. */
  lemma DeclarePassLabelsStep(ts: seq<string>, name: string)
    requires |ts| > 0
    requires var prefix := ts[..|ts| - 1];
      && (name in DeclarePass(prefix).labels <==> IsDeclared(prefix, name))
      && (name in DeclarePass(prefix).labels ==> IsLastDecl(prefix, name, DeclarePass(prefix).labels[name]))
    ensures name in DeclarePass(ts).labels <==> IsDeclared(ts, name)
    ensures name in DeclarePass(ts).labels ==> IsLastDecl(ts, name, DeclarePass(ts).labels[name])
  {
    var n := |ts| - 1;
    if DeclaresAt(ts, n, name) {
      assert DeclarePass(ts).labels[name] == n;
    } else {
      DeclaredEarlier(ts, name);
    }
  }

  /** The last token does not declare `name`: the table entry for `name` is
      the prefix's. */
  lemma DeclaredEarlier(ts: seq<string>, name: string)
    requires |ts| > 0 && !DeclaresAt(ts, |ts| - 1, name)
    requires var prefix := ts[..|ts| - 1];
      && (name in DeclarePass(prefix).labels <==> IsDeclared(prefix, name))
      && (name in DeclarePass(prefix).labels ==> IsLastDecl(prefix, name, DeclarePass(prefix).labels[name]))
    ensures name in DeclarePass(ts).labels <==> IsDeclared(ts, name)
    ensures name in DeclarePass(ts).labels ==> IsLastDecl(ts, name, DeclarePass(ts).labels[name])
  {
    var n := |ts| - 1;
    var prefix := ts[..n];
    var p := DeclarePass(prefix);
    var d := DeclarePass(ts);
    assert name in d.labels <==> name in p.labels;
    if IsDeclared(ts, name) {
      var i :| 0 <= i < |ts| && DeclaresAt(ts, i, name);
      assert DeclaresAt(prefix, i, name);
    }
    if name in p.labels {
      var i := p.labels[name];
      assert d.labels[name] == i;
      assert IsLastDecl(prefix, name, i);
      assert DeclaresAt(ts, i, name);
      forall j | i < j < |ts|
        ensures !DeclaresAt(ts, j, name)
      {
        if j < n {
          assert !DeclaresAt(prefix, j, name);
        }
      }
    }
  }

  /** Pass 2 succeeds exactly when every reference names a label of the
      table; it then keeps the token count, rewrites each reference to the
      decimal text of its label's index and leaves every other token alone.
      When it fails, it reports the first reference whose name is missing. */
  lemma {:induction false} ResolvePassSpec(labels: LabelTable, ts: seq<string>)
    ensures var r := ResolvePass(labels, ts);
      && (r.Ok? <==> forall i | 0 <= i < |ts| && IsLabelRef(ts[i]) :: RefName(ts[i]) in labels)
      && (r.Ok? ==>
            && |r.value| == |ts|
            && forall i | 0 <= i < |ts| ::
                 r.value[i] == if IsLabelRef(ts[i]) then NatToString(labels[RefName(ts[i])]) else ts[i])
      && (r.Err? ==>
            exists k | 0 <= k < |ts| ::
              && IsLabelRef(ts[k]) && RefName(ts[k]) !in labels
              && r.error == UndefinedLabel(RefName(ts[k]))
              && forall j | 0 <= j < k :: !IsLabelRef(ts[j]) || RefName(ts[j]) in labels)
  {
    if |ts| > 0 {
      var tail := ts[1..];
      ResolvePassSpec(labels, tail);
      assert forall i | 1 <= i < |ts| :: ts[i] == tail[i - 1];
      var r := ResolvePass(labels, ts);
      var rt := ResolvePass(labels, tail);
      if r.Err? && ResolveToken(labels, ts[0]).Ok? {
        var k :| 0 <= k < |tail| && IsLabelRef(tail[k]) && RefName(tail[k]) !in labels
          && rt.error == UndefinedLabel(RefName(tail[k]))
          && forall j | 0 <= j < k :: !IsLabelRef(tail[j]) || RefName(tail[j]) in labels;
        assert IsLabelRef(ts[k + 1]) && RefName(ts[k + 1]) !in labels;
      }
      if r.Ok? {
        assert r.value == [r.value[0]] + rt.value;
      }
    }
  }

  /** Both passes together. Resolution succeeds exactly when every reference
      names a label declared somewhere in the tokens, before or after it. It
      then keeps the token count, turns every declaration into `nop`, turns
      every reference into the decimal index of the last declaration of its
      name, and leaves every other token alone. It fails with the name of an
      undeclared label that some token refers to. */
  lemma ResolveSpec(ts: seq<string>)
    ensures Resolve(ts).Ok? <==>
      forall i | 0 <= i < |ts| && IsLabelRef(ts[i]) :: IsDeclared(ts, RefName(ts[i]))
    ensures Resolve(ts).Ok? ==>
      var rs := Resolve(ts).value;
      && |rs| == |ts|
      && forall i | 0 <= i < |ts| ::
        && (IsLabelDecl(ts[i]) ==> rs[i] == "nop")
        && (IsLabelRef(ts[i]) ==>
              exists j | 0 <= j < |ts| :: IsLastDecl(ts, RefName(ts[i]), j) && rs[i] == NatToString(j))
        && (!IsLabelDecl(ts[i]) && !IsLabelRef(ts[i]) ==> rs[i] == ts[i])
    ensures Resolve(ts).Err? ==>
      exists i | 0 <= i < |ts| ::
        && IsLabelRef(ts[i]) && !IsDeclared(ts, RefName(ts[i]))
        && Resolve(ts).error == UndefinedLabel(RefName(ts[i]))
  {
    var d := DeclarePass(ts);
    DeclarePassTokens(ts);
    DeclarePassLabels(ts);
    ResolvePassSpec(d.labels, d.tokens);
    forall i | 0 <= i < |ts|
      ensures IsLabelRef(d.tokens[i]) <==> IsLabelRef(ts[i])
      ensures IsLabelRef(ts[i]) ==> d.tokens[i] == ts[i]
    {
      LabelClassesDisjoint(ts[i]);
    }
  }
}
