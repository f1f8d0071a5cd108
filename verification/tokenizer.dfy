/** The tokenizer: the original program reads its source with repeated
    `file >> token`, which skips whitespace and then takes the longest run of
    non-whitespace characters. Here the source is a string and the result is
    the sequence of those runs, in order. */
module Tokenizer {
  import opened Text

  predicate NoSpace(s: string) {
    forall k | 0 <= k < |s| :: !IsSpace(s[k])
  }

  /** What one `>>` can produce: a non-empty run without whitespace. */
  predicate IsToken(t: string) {
    |t| > 0 && NoSpace(t)
  }

  /** The token read so far, if there is one. */
  function Flush(current: string): seq<string> {
    if |current| == 0 then [] else [current]
  }

  /** Scans `s` one character at a time; `current` holds the characters of
      the token being read. Whitespace ends the current token, any other
      character extends it. */
  function Scan(s: string, current: string): seq<string> {
    if |s| == 0 then Flush(current)
    else if IsSpace(s[0]) then Flush(current) + Scan(s[1..], "")
    else Scan(s[1..], current + [s[0]])
  }

  /** The whitespace-delimited tokens of `s`, in source order. */
  function Tokenize(s: string): seq<string> {
    Scan(s, "")
  }

  /** The tokens joined with one space between neighbours. */
  function Join(ts: seq<string>): string {
    if |ts| == 0 then ""
    else if |ts| == 1 then ts[0]
    else ts[0] + " " + Join(ts[1..])
  }

  function Concat(ts: seq<string>): string {
    if |ts| == 0 then "" else ts[0] + Concat(ts[1..])
  }

  /** `s` with every whitespace character deleted. */
  function RemoveSpaces(s: string): string {
    if |s| == 0 then ""
    else (if IsSpace(s[0]) then "" else [s[0]]) + RemoveSpaces(s[1..])
  }

  lemma {:induction false} ScanYieldsTokens(s: string, current: string)
    requires NoSpace(current)
    ensures forall k | 0 <= k < |Scan(s, current)| :: IsToken(Scan(s, current)[k])
  {
    if |s| > 0 {
      if IsSpace(s[0]) {
        ScanYieldsTokens(s[1..], "");
      } else {
        ScanYieldsTokens(s[1..], current + [s[0]]);
      }
    }
  }

  /** Every token is non-empty and holds no whitespace. */
  lemma TokenizeYieldsTokens(s: string)
    ensures forall k | 0 <= k < |Tokenize(s)| :: IsToken(Tokenize(s)[k])
  {
    ScanYieldsTokens(s, "");
  }

  lemma {:induction false} ScanNoSpace(w: string, current: string)
    requires NoSpace(w) && |current + w| > 0
    ensures Scan(w, current) == [current + w]
  {
    if |w| == 0 {
      assert current + w == current;
    } else {
      ScanNoSpace(w[1..], current + [w[0]]);
      assert current + [w[0]] + w[1..] == current + w;
    }
  }

  /** A token on its own tokenizes to itself. */
  lemma TokenizeToken(w: string)
    requires IsToken(w)
    ensures Tokenize(w) == [w]
  {
    ScanNoSpace(w, "");
    assert "" + w == w;
  }

  lemma {:induction false} ScanSeparator(s1: string, c: char, s2: string, current: string)
    requires IsSpace(c)
    ensures Scan(s1 + [c] + s2, current) == Scan(s1, current) + Scan(s2, "")
  {
    var x := s1 + [c] + s2;
    if |s1| == 0 {
      assert x == [c] + s2;
      assert x[1..] == s2;
    } else {
      assert x[0] == s1[0];
      assert x[1..] == s1[1..] + [c] + s2;
      if IsSpace(s1[0]) {
        ScanSeparator(s1[1..], c, s2, "");
      } else {
        ScanSeparator(s1[1..], c, s2, current + [s1[0]]);
      }
    }
  }

  /** A whitespace character separates: the tokens of `s1 c s2` are those of
      `s1` followed by those of `s2`. Together with `TokenizeToken` and
      `Tokenize("") == []` this characterizes `Tokenize` completely. */
  lemma TokenizeSeparator(s1: string, c: char, s2: string)
    requires IsSpace(c)
    ensures Tokenize(s1 + [c] + s2) == Tokenize(s1) + Tokenize(s2)
  {
    ScanSeparator(s1, c, s2, "");
  }

  /** Joining tokens with single spaces and tokenizing again gives them back. */
  lemma {:induction false} TokenizeJoin(ts: seq<string>)
    requires forall k | 0 <= k < |ts| :: IsToken(ts[k])
    ensures Tokenize(Join(ts)) == ts
  {
    if |ts| == 1 {
      TokenizeToken(ts[0]);
    } else if |ts| > 1 {
      var rest := Join(ts[1..]);
      assert Join(ts) == ts[0] + [' '] + rest;
      TokenizeSeparator(ts[0], ' ', rest);
      TokenizeToken(ts[0]);
      TokenizeJoin(ts[1..]);
      assert ts == [ts[0]] + ts[1..];
    }
  }

  lemma {:induction false} ConcatAppend(a: seq<string>, b: seq<string>)
    ensures Concat(a + b) == Concat(a) + Concat(b)
  {
    if |a| == 0 {
      assert a + b == b;
    } else {
      assert (a + b)[1..] == a[1..] + b;
      ConcatAppend(a[1..], b);
    }
  }

  lemma {:induction false} ScanKeepsText(s: string, current: string)
    ensures Concat(Scan(s, current)) == current + RemoveSpaces(s)
  {
    if |s| == 0 {
      assert current + "" == current;
    } else if IsSpace(s[0]) {
      ScanKeepsText(s[1..], "");
      ConcatAppend(Flush(current), Scan(s[1..], ""));
      assert "" + RemoveSpaces(s[1..]) == RemoveSpaces(s[1..]);
    } else {
      ScanKeepsText(s[1..], current + [s[0]]);
      assert current + [s[0]] + RemoveSpaces(s[1..]) == current + ([s[0]] + RemoveSpaces(s[1..]));
    }
  }

  /** No character other than whitespace is lost, added or reordered: the
      tokens, concatenated, are the source with its whitespace deleted. */
  lemma TokenizeKeepsText(s: string)
    ensures Concat(Tokenize(s)) == RemoveSpaces(s)
  {
    ScanKeepsText(s, "");
    assert "" + RemoveSpaces(s) == RemoveSpaces(s);
  }
}
