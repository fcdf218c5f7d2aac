/**
  The few Python string operations the scripts rely on: str.split() and
  str.strip() on whitespace, "\t".join, int() and str() on integers,
  str.upper(), the `in` test for substrings, and iteration over the lines
  of a text file.
 */
module Text {
  import opened Outcomes

  /** The characters Python's str.isspace() accepts (the separators of str.split()). */
  predicate IsSpace(c: char) {
    || c == ' ' || c == '\t' || c == '\n' || c == '\r' || c == '\U{B}' || c == '\U{C}'
    || ('\U{1C}' <= c <= '\U{1F}') || c == '\U{85}' || c == '\U{A0}' || c == '\U{1680}'
    || ('\U{2000}' <= c <= '\U{200A}') || c == '\U{2028}' || c == '\U{2029}'
    || c == '\U{202F}' || c == '\U{205F}' || c == '\U{3000}'
  }

  /** `not s.strip()`: the string holds only whitespace. */
  predicate IsBlank(s: string) {
    forall i | 0 <= i < |s| :: IsSpace(s[i])
  }

  /** A word str.split() can produce: non-empty and free of whitespace. */
  predicate IsToken(t: string) {
    |t| > 0 && forall i | 0 <= i < |t| :: !IsSpace(t[i])
  }

  /** Length of the run of non-space characters at the front of `s`. */
  function TokenLength(s: string): (n: nat)
    ensures n <= |s|
    ensures forall i | 0 <= i < n :: !IsSpace(s[i])
    ensures n < |s| ==> IsSpace(s[n])
  {
    if s == [] || IsSpace(s[0]) then 0 else 1 + TokenLength(s[1..])
  }

  /** `s.split()` with no argument: the maximal runs of non-space characters, in order. */
  function Words(s: string): (r: seq<string>)
    ensures forall k | 0 <= k < |r| :: IsToken(r[k])
    decreases |s|
  {
    if s == [] then []
    else if IsSpace(s[0]) then Words(s[1..])
    else
      var n := TokenLength(s);
      [s[..n]] + Words(s[n..])
  }

  /** `sep.join(parts)`. */
  function Join(parts: seq<string>, sep: string): string {
    if parts == [] then ""
    else if |parts| == 1 then parts[0]
    else parts[0] + sep + Join(parts[1..], sep)
  }

  lemma {:induction false} WordsEmptyIffBlank(s: string)
    ensures Words(s) == [] <==> IsBlank(s)
    decreases |s|
  {
    if s != [] {
      if IsSpace(s[0]) {
        WordsEmptyIffBlank(s[1..]);
        if IsBlank(s[1..]) {
          forall i | 0 <= i < |s| ensures IsSpace(s[i]) {
            if i > 0 { assert s[i] == s[1..][i - 1]; }
          }
        } else {
          var i :| 0 <= i < |s[1..]| && !IsSpace(s[1..][i]);
          assert !IsSpace(s[i + 1]);
        }
      }
    }
  }

  lemma {:induction false} TokenLengthOfToken(tok: string, rest: string)
    requires IsToken(tok)
    requires rest == [] || IsSpace(rest[0])
    ensures TokenLength(tok + rest) == |tok|
    decreases |tok|
  {
    if |tok| > 1 {
      assert (tok + rest)[1..] == tok[1..] + rest;
      TokenLengthOfToken(tok[1..], rest);
    }
  }

  /** A token followed by a separator (or nothing) is split off as the first word. */
  lemma WordsOfTokenThen(tok: string, rest: string)
    requires IsToken(tok)
    requires rest == [] || IsSpace(rest[0])
    ensures Words(tok + rest) == [tok] + Words(rest)
  {
    var s := tok + rest;
    TokenLengthOfToken(tok, rest);
    assert s[0] == tok[0];
    assert s[..|tok|] == tok;
    assert s[|tok|..] == rest;
  }

  /** Splitting tab-joined tokens, followed by trailing whitespace, gives the tokens back. */
  lemma {:induction false} WordsOfJoin(parts: seq<string>, tail: string)
    requires forall k | 0 <= k < |parts| :: IsToken(parts[k])
    requires IsBlank(tail)
    ensures Words(Join(parts, "\t") + tail) == parts
    decreases |parts|
  {
    WordsEmptyIffBlank(tail);
    if parts == [] {
      assert Join(parts, "\t") + tail == tail;
    } else if |parts| == 1 {
      WordsOfTokenThen(parts[0], tail);
    } else {
      WordsOfJoin(parts[1..], tail);
      WordsOfJoinCons(parts, tail);
    }
  }

  /** The step of WordsOfJoin: one more token in front, split off first. */
  lemma WordsOfJoinCons(parts: seq<string>, tail: string)
    requires |parts| > 1 && IsToken(parts[0])
    requires Words(Join(parts[1..], "\t") + tail) == parts[1..]
    ensures Words(Join(parts, "\t") + tail) == parts
  {
    var rest := "\t" + Join(parts[1..], "\t") + tail;
    assert Join(parts, "\t") == parts[0] + "\t" + Join(parts[1..], "\t");
    assert Join(parts, "\t") + tail == parts[0] + rest;
    WordsOfTokenThen(parts[0], rest);
    assert rest[1..] == Join(parts[1..], "\t") + tail;
    assert Words(rest) == Words(rest[1..]);
    assert [parts[0]] + parts[1..] == parts;
  }

  // ---------------------------------------------------------------------------
  // Lines of a text file

  /** A complete line as Python yields it: ends in its only line feed. */
  predicate IsLine(l: string) {
    |l| > 0 && l[|l| - 1] == '\n' && forall i | 0 <= i < |l| - 1 :: l[i] != '\n'
  }

  /** Python yields complete lines, and at most one unterminated line at the very end. */
  predicate AreLines(ls: seq<string>) {
    && (forall k | 0 <= k < |ls| :: |ls[k]| > 0)
    && (forall k | 0 <= k < |ls| :: forall i | 0 <= i < |ls[k]| - 1 :: ls[k][i] != '\n')
    && (forall k | 0 <= k < |ls| - 1 :: ls[k][|ls[k]| - 1] == '\n')
  }

  function LineLength(t: string): (n: nat)
    requires t != []
    ensures 0 < n <= |t|
    ensures forall i | 0 <= i < n - 1 :: t[i] != '\n'
    ensures n < |t| ==> t[n - 1] == '\n'
  {
    if t[0] == '\n' || |t| == 1 then 1 else 1 + LineLength(t[1..])
  }

  /** `list(f)` for a file whose content is `t`: each line keeps its line feed. */
  function Lines(t: string): (r: seq<string>)
    ensures AreLines(r)
    decreases |t|
  {
    if t == [] then []
    else
      var n := LineLength(t);
      [t[..n]] + Lines(t[n..])
  }

  /** The content of a file written by successive write() calls. */
  function Concat(chunks: seq<string>): string {
    if chunks == [] then "" else chunks[0] + Concat(chunks[1..])
  }

  lemma {:induction false} ConcatAppend(a: seq<string>, b: seq<string>)
    ensures Concat(a + b) == Concat(a) + Concat(b)
    decreases |a|
  {
    if a == [] {
      assert a + b == b;
    } else {
      assert (a + b)[0] == a[0];
      assert (a + b)[1..] == a[1..] + b;
      ConcatAppend(a[1..], b);
      calc {
        Concat(a + b);
        a[0] + Concat(a[1..] + b);
        a[0] + (Concat(a[1..]) + Concat(b));
        (a[0] + Concat(a[1..])) + Concat(b);
      }
    }
  }

  lemma ConcatOfThree(a: string, b: string, c: string)
    ensures Concat([a, b, c]) == a + (b + (c + ""))
  {
    assert [a, b, c][1..] == [b, c] && [b, c][1..] == [c] && [c][1..] == [];
    assert Concat([c]) == c + Concat([]);
    assert Concat([b, c]) == b + Concat([c]);
  }

  /** Reading back the text never loses a character. */
  lemma {:induction false} ConcatOfLines(t: string)
    ensures Concat(Lines(t)) == t
    decreases |t|
  {
    if t != [] {
      var n := LineLength(t);
      ConcatOfLines(t[n..]);
      assert t == t[..n] + t[n..];
    }
  }

  lemma {:induction false} LineLengthOfLine(l: string, rest: string)
    requires |l| > 0 && forall i | 0 <= i < |l| - 1 :: l[i] != '\n'
    requires l[|l| - 1] == '\n' || rest == []
    ensures LineLength(l + rest) == |l|
    decreases |l|
  {
    if |l| > 1 {
      assert (l + rest)[1..] == l[1..] + rest;
      LineLengthOfLine(l[1..], rest);
    }
  }

  /** A sequence of complete lines is a valid line split. */
  lemma CompleteLinesAreLines(ls: seq<string>)
    requires forall k | 0 <= k < |ls| :: IsLine(ls[k])
    ensures AreLines(ls)
  {
  }

  /** A complete line followed by more text is read as that line, then the lines of the rest. */
  lemma LinesOfLineThen(l: string, rest: string)
    requires IsLine(l)
    ensures Lines(l + rest) == [l] + Lines(rest)
  {
    LineLengthOfLine(l, rest);
    assert (l + rest)[..|l|] == l;
    assert (l + rest)[|l|..] == rest;
  }

  /** Reading what was written line by line gives back exactly those lines. */
  lemma {:induction false} LinesOfConcat(ls: seq<string>)
    requires AreLines(ls)
    ensures Lines(Concat(ls)) == ls
    decreases |ls|
  {
    if ls != [] {
      var rest := Concat(ls[1..]);
      assert Concat(ls) == ls[0] + rest;
      if |ls| == 1 {
        assert rest == "";
      }
      LineLengthOfLine(ls[0], rest);
      assert (ls[0] + rest)[..|ls[0]|] == ls[0];
      assert (ls[0] + rest)[|ls[0]|..] == rest;
      assert AreLines(ls[1..]) by {
        forall k | 0 <= k < |ls[1..]| ensures |ls[1..][k]| > 0 { assert ls[1..][k] == ls[k + 1]; }
      }
      LinesOfConcat(ls[1..]);
    }
  }

  /** Complete lines in front of a valid line split still form a valid line split. */
  lemma CompleteLinesPrefix(h: seq<string>, ls: seq<string>)
    requires forall k | 0 <= k < |h| :: IsLine(h[k])
    requires AreLines(ls)
    ensures AreLines(h + ls)
  {
    var r := h + ls;
    forall k | 0 <= k < |r| ensures |r[k]| > 0 && forall i | 0 <= i < |r[k]| - 1 :: r[k][i] != '\n' {
      if k >= |h| { assert r[k] == ls[k - |h|]; }
    }
    forall k | 0 <= k < |r| - 1 ensures r[k][|r[k]| - 1] == '\n' {
      if k >= |h| { assert r[k] == ls[k - |h|]; }
    }
  }

  /** Complete lines in front of more text are read as those lines, then the lines of the rest. */
  lemma CompleteLinesThen(h: seq<string>, rest: string)
    requires forall k | 0 <= k < |h| :: IsLine(h[k])
    ensures Lines(Concat(h) + rest) == h + Lines(rest)
  {
    ConcatOfLines(rest);
    ConcatAppend(h, Lines(rest));
    CompleteLinesPrefix(h, Lines(rest));
    LinesOfConcat(h + Lines(rest));
  }

  // ---------------------------------------------------------------------------
  // int() and str() on integers

  predicate IsDigit(c: char) { '0' <= c <= '9' }

  predicate AllDigits(s: string) { forall i | 0 <= i < |s| :: IsDigit(s[i]) }

  function DigitsValue(s: string): nat
    requires AllDigits(s)
  {
    if s == [] then 0 else 10 * DigitsValue(s[..|s| - 1]) + (s[|s| - 1] as int - '0' as int)
  }

  /** `int(token)` on a token without whitespace: an optional sign and decimal digits. */
  function ParseInt(t: string): Option<int> {
    if |t| > 1 && (t[0] == '-' || t[0] == '+') && AllDigits(t[1..]) then
      var v: int := DigitsValue(t[1..]);
      Some(if t[0] == '-' then -v else v)
    else if |t| > 0 && AllDigits(t) then Some(DigitsValue(t))
    else None
  }

  function DigitChar(d: nat): (c: char)
    requires d < 10
    ensures IsDigit(c) && c as int - '0' as int == d
  {
    ('0' as int + d) as char
  }

  function NatToString(n: nat): (s: string)
    ensures |s| > 0 && AllDigits(s)
  {
    if n < 10 then [DigitChar(n)] else NatToString(n / 10) + [DigitChar(n % 10)]
  }

  /** `str(n)` for an integer. */
  function IntToString(n: int): (s: string) {
    if n < 0 then "-" + NatToString(-n) else NatToString(n)
  }

  lemma {:induction false} NatToStringValue(n: nat)
    ensures DigitsValue(NatToString(n)) == n
  {
    if n >= 10 {
      var s := NatToString(n);
      assert s[..|s| - 1] == NatToString(n / 10);
      NatToStringValue(n / 10);
    }
  }

  /** int(str(n)) == n, and str(n) is a single word. */
  lemma IntToStringRoundTrip(n: int)
    ensures ParseInt(IntToString(n)) == Some(n)
    ensures IsToken(IntToString(n))
  {
    var m: nat := if n < 0 then -n else n;
    var d := NatToString(m);
    NatToStringValue(m);
    var s := IntToString(n);
    if n < 0 {
      assert s == "-" + d && s[1..] == d;
    } else {
      assert s == d && IsDigit(s[0]);
    }
    forall i | 0 <= i < |s| ensures !IsSpace(s[i]) {
      assert s[i] == '-' || IsDigit(s[i]);
    }
  }

  // ---------------------------------------------------------------------------
  // str.upper() and substring search

  function UpperChar(c: char): char {
    if 'a' <= c <= 'z' then (c as int - 32) as char else c
  }

  /** `s.upper()` on ASCII letters. */
  function Upper(s: string): string {
    seq(|s|, i requires 0 <= i < |s| => UpperChar(s[i]))
  }

  /** `sub in s`. */
  predicate HasInfix(s: string, sub: string)
    decreases |s|
  {
    if |s| < |sub| then false
    else s[..|sub|] == sub || (s != [] && HasInfix(s[1..], sub))
  }
}
