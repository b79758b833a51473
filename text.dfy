/**
  String helpers shared by the three line-oriented parsers: JavaScript's
  whitespace class, `trim`, ASCII `toLowerCase`, `split` on one character,
  `split(/\r?\n/)`, `join`, and the byte-order-mark strip.
*/
module Text {

  /** The byte-order mark U+FEFF that the backlog parsers drop once. */
  const BOM: char := '\U{FEFF}'

  /** JavaScript's `\s` class and the set `trim()` removes, restricted to ASCII. */
  predicate IsSpace(c: char) {
    c == ' ' || c == '\t' || c == '\n' || c == '\r' || c == '\U{B}' || c == '\U{C}'
  }

  /** The (ASCII) line terminators, which JavaScript's `.` does not match. */
  predicate IsLineBreak(c: char) {
    c == '\n' || c == '\r'
  }

  predicate IsBlank(s: string) {
    forall i :: 0 <= i < |s| ==> IsSpace(s[i])
  }

  predicate NoLineBreak(s: string) {
    forall i :: 0 <= i < |s| ==> !IsLineBreak(s[i])
  }

  /** No leading and no trailing whitespace. */
  predicate IsTrimmed(s: string) {
    s == [] || (!IsSpace(s[0]) && !IsSpace(s[|s| - 1]))
  }

  predicate StartsWith(s: string, prefix: string) {
    |prefix| <= |s| && s[..|prefix|] == prefix
  }

  /** Length of the longest all-whitespace prefix: what a greedy `\s*` consumes. */
  function SpaceRun(s: string): (n: nat)
    ensures n <= |s|
    ensures IsBlank(s[..n])
    ensures n < |s| ==> !IsSpace(s[n])
  {
    if |s| > 0 && IsSpace(s[0]) then
      var m := SpaceRun(s[1..]);
      assert s[..1 + m] == [s[0]] + s[1..][..m];
      1 + m
    else 0
  }

  /** A whitespace prefix adds its length to the leading whitespace run. */
  lemma {:induction false} SpaceRunOfBlankConcat(w: string, t: string)
    requires IsBlank(w)
    ensures SpaceRun(w + t) == |w| + SpaceRun(t)
  {
    if w != [] {
      assert (w + t)[1..] == w[1..] + t;
      SpaceRunOfBlankConcat(w[1..], t);
    } else {
      assert w + t == t;
    }
  }

  lemma SpaceRunOfBlankPrefix(w: string, t: string)
    requires IsBlank(w)
    requires t == [] || !IsSpace(t[0])
    ensures SpaceRun(w + t) == |w|
  {
    SpaceRunOfBlankConcat(w, t);
  }

  /** `s.replace(/^\s+/, "")`. */
  function TrimStart(s: string): (r: string)
    ensures |r| <= |s|
    ensures r == s[|s| - |r|..]
    ensures IsBlank(s[..|s| - |r|])
    ensures r == [] || !IsSpace(r[0])
  {
    s[SpaceRun(s)..]
  }

  /** `s.replace(/\s+$/, "")`. */
  function TrimEnd(s: string): (r: string)
    ensures |r| <= |s|
    ensures r == s[..|r|]
    ensures IsBlank(s[|r|..])
    ensures r == [] || !IsSpace(r[|r| - 1])
  {
    if |s| > 0 && IsSpace(s[|s| - 1]) then
      var r := TrimEnd(s[..|s| - 1]);
      assert s[|r|..] == s[..|s| - 1][|r|..] + [s[|s| - 1]];
      r
    else s
  }

  /** JavaScript's `trim()`: the input with whitespace removed at both ends. */
  function Trim(s: string): (r: string)
    ensures IsTrimmed(r)
    ensures SpaceRun(s) + |r| <= |s|
    ensures r == s[SpaceRun(s)..SpaceRun(s) + |r|]
    ensures IsBlank(s[..SpaceRun(s)]) && IsBlank(s[SpaceRun(s) + |r|..])
    ensures r == [] <==> IsBlank(s)
  {
    var t := TrimStart(s);
    var r := TrimEnd(t);
    assert r == [] ==> IsBlank(s) by {
      if r == [] {
        assert s == s[..SpaceRun(s)] + t;
        assert IsBlank(t[|r|..]);
      }
    }
    assert s[SpaceRun(s) + |r|..] == t[|r|..];
    r
  }

  /** Trimming is idempotent. */
  lemma TrimOfTrimmed(s: string)
    requires IsTrimmed(s)
    ensures Trim(s) == s
  {
    assert SpaceRun(s) == 0;
    assert TrimStart(s) == s;
  }

  /** Trimming only takes characters away. */
  lemma TrimKeepsOut(s: string, c: char)
    requires c !in s
    ensures c !in Trim(s)
  {
    var r := Trim(s);
    forall k | 0 <= k < |r| ensures r[k] != c {
      assert r[k] == s[SpaceRun(s) + k];
    }
  }

  /** Appending whitespace does not change the trimmed text. */
  lemma {:induction false} TrimAppendBlank(s: string, w: string)
    requires IsBlank(w)
    ensures Trim(s + w) == Trim(s)
  {
    if IsBlank(s) {
      assert IsBlank(s + w);
    } else {
      var n := SpaceRun(s);
      assert n < |s|;
      var u := s[n..];
      assert s == s[..n] + u;
      assert s + w == s[..n] + (u + w);
      SpaceRunOfBlankPrefix(s[..n], u + w);
      SpaceRunOfBlankPrefix(s[..n], u);
      assert TrimStart(s + w) == u + w;
      assert TrimStart(s) == u;
      TrimEndAppendBlank(u, w);
    }
  }

  lemma {:induction false} TrimEndAppendBlank(u: string, w: string)
    requires IsBlank(w)
    ensures TrimEnd(u + w) == TrimEnd(u)
    decreases |w|
  {
    if w != [] {
      assert (u + w)[..|u + w| - 1] == u + w[..|w| - 1];
      TrimEndAppendBlank(u, w[..|w| - 1]);
    } else {
      assert u + w == u;
    }
  }

  /** ASCII upper-case letters, the only ones the model folds. */
  predicate IsUpper(c: char) {
    'A' <= c <= 'Z'
  }

  function LowerChar(c: char): (d: char)
    ensures !IsUpper(d)
    ensures IsSpace(d) <==> IsSpace(c)
    ensures IsLineBreak(d) <==> IsLineBreak(c)
    ensures d == c <==> !IsUpper(c)
  {
    if IsUpper(c) then (c as int + 32) as char else c
  }

  /** `toLowerCase()` restricted to ASCII letters. */
  function Lower(s: string): (r: string)
    ensures |r| == |s|
    ensures forall i :: 0 <= i < |s| ==> r[i] == LowerChar(s[i])
  {
    seq(|s|, i requires 0 <= i < |s| => LowerChar(s[i]))
  }

  predicate HasNoUpper(s: string) {
    forall i :: 0 <= i < |s| ==> !IsUpper(s[i])
  }

  lemma LowerOfConcat(a: string, b: string)
    ensures Lower(a + b) == Lower(a) + Lower(b)
  {
  }

  lemma LowerIdempotent(s: string)
    ensures Lower(Lower(s)) == Lower(s)
  {
  }

  lemma {:induction false} SpaceRunOfLower(s: string)
    ensures SpaceRun(Lower(s)) == SpaceRun(s)
    decreases |s|
  {
    if |s| > 0 && IsSpace(s[0]) {
      assert Lower(s)[1..] == Lower(s[1..]);
      SpaceRunOfLower(s[1..]);
    }
  }

  lemma {:induction false} TrimEndOfLower(s: string)
    ensures TrimEnd(Lower(s)) == Lower(TrimEnd(s))
    decreases |s|
  {
    if |s| > 0 && IsSpace(s[|s| - 1]) {
      assert Lower(s)[..|s| - 1] == Lower(s[..|s| - 1]);
      TrimEndOfLower(s[..|s| - 1]);
    }
  }

  /** Lower-casing and trimming commute. */
  lemma TrimOfLower(s: string)
    ensures Trim(Lower(s)) == Lower(Trim(s))
  {
    SpaceRunOfLower(s);
    var n := SpaceRun(s);
    assert TrimStart(Lower(s)) == Lower(s[n..]);
    TrimEndOfLower(s[n..]);
  }

  /** Index of the first `c` in `s`, or `|s|` when there is none. */
  function IndexOf(s: string, c: char): (k: nat)
    ensures k <= |s|
    ensures k < |s| ==> s[k] == c
    ensures forall i :: 0 <= i < k ==> s[i] != c
  {
    if |s| == 0 then 0
    else if s[0] == c then 0
    else 1 + IndexOf(s[1..], c)
  }

  /** `s.split(sep)` for a one-character separator string. */
  function Split(s: string, sep: char): (parts: seq<string>)
    ensures |parts| >= 1
    ensures forall i :: 0 <= i < |parts| ==> sep !in parts[i]
    decreases |s|
  {
    var k := IndexOf(s, sep);
    if k == |s| then [s] else [s[..k]] + Split(s[k + 1..], sep)
  }

  /** `parts.join(sep)`. */
  function Join(parts: seq<string>, sep: string): string
  {
    if |parts| == 0 then []
    else if |parts| == 1 then parts[0]
    else parts[0] + sep + Join(parts[1..], sep)
  }

  /** Splitting and re-joining on the same separator gives back the text. */
  lemma {:induction false} JoinSplit(s: string, sep: char)
    ensures Join(Split(s, sep), [sep]) == s
    decreases |s|
  {
    var k := IndexOf(s, sep);
    if k < |s| {
      var rest := Split(s[k + 1..], sep);
      var parts := Split(s, sep);
      assert parts == [s[..k]] + rest && parts[1..] == rest;
      assert Join(parts, [sep]) == s[..k] + [sep] + Join(rest, [sep]);
      JoinSplit(s[k + 1..], sep);
      assert s == s[..k] + [sep] + s[k + 1..];
    }
  }

  /** The text before a `\n` loses one `\r` that ends it. */
  function DropCR(s: string): (r: string)
    ensures r == s || (s == r + ['\r'])
  {
    if |s| > 0 && s[|s| - 1] == '\r' then s[..|s| - 1] else s
  }

  /**
    `s.split(/\r?\n/)`: a `\n`, together with one `\r` right before it,
    separates lines; a `\r` that is not followed by `\n` stays in its line.
  */
  function SplitLines(s: string): (lines: seq<string>)
    ensures |lines| >= 1
    ensures forall i :: 0 <= i < |lines| ==> '\n' !in lines[i]
    decreases |s|
  {
    var k := IndexOf(s, '\n');
    if k == |s| then [s] else [DropCR(s[..k])] + SplitLines(s[k + 1..])
  }

  /** `s.replace(/^\uFEFF/, "")`. */
  function StripBom(s: string): (r: string)
    ensures r == s || s == [BOM] + r
  {
    if |s| > 0 && s[0] == BOM then s[1..] else s
  }

  /** A BOM in front of a text that has none is dropped. */
  lemma StripAddedBom(d: string)
    requires d == [] || d[0] != BOM
    ensures StripBom([BOM] + d) == d && StripBom(d) == d
  {
  }

  /** The same text with every `\n` written as `\r\n`. */
  function ToCrlf(d: string): (r: string)
    ensures |r| >= |d|
  {
    if |d| == 0 then [] else (if d[0] == '\n' then "\r\n" else [d[0]]) + ToCrlf(d[1..])
  }

  lemma {:induction false} ToCrlfConcat(a: string, b: string)
    ensures ToCrlf(a + b) == ToCrlf(a) + ToCrlf(b)
    decreases |a|
  {
    if a != [] {
      assert (a + b)[1..] == a[1..] + b;
      ToCrlfConcat(a[1..], b);
    } else {
      assert a + b == b;
    }
  }

  lemma {:induction false} ToCrlfWithoutNewline(a: string)
    requires '\n' !in a
    ensures ToCrlf(a) == a
    decreases |a|
  {
    if a != [] {
      ToCrlfWithoutNewline(a[1..]);
      assert a == [a[0]] + a[1..];
    }
  }

  /** No `\r` stands right before a `\n` (a text written with bare `\n` line ends). */
  predicate LfOnly(d: string) {
    forall i :: 0 < i < |d| && d[i] == '\n' ==> d[i - 1] != '\r'
  }

  /**
    Line splitting is the same for a text with `\n` line ends and for the same
    text written with `\r\n` line ends.
  */
  /** The first `\n` of `s` is the one at `k`. */
  /**
    The lines of `split(/\r?\n/)` are the parts of `split("\n")`: each part
    that a `\n` ends loses one final `\r`, and the last part is kept whole.
  */
  lemma {:induction false} SplitLinesBySplit(s: string)
    ensures |SplitLines(s)| == |Split(s, '\n')|
    ensures forall i :: 0 <= i < |SplitLines(s)| - 1 ==> SplitLines(s)[i] == DropCR(Split(s, '\n')[i])
    ensures SplitLines(s)[|SplitLines(s)| - 1] == Split(s, '\n')[|Split(s, '\n')| - 1]
    decreases |s|
  {
    var k := IndexOf(s, '\n');
    if k < |s| {
      SplitLinesBySplit(s[k + 1..]);
      var a, b := SplitLines(s[k + 1..]), Split(s[k + 1..], '\n');
      assert SplitLines(s) == [DropCR(s[..k])] + a;
      assert Split(s, '\n') == [s[..k]] + b;
      forall i | 0 <= i < |SplitLines(s)| - 1
        ensures SplitLines(s)[i] == DropCR(Split(s, '\n')[i])
      {
        if i > 0 {
          assert SplitLines(s)[i] == a[i - 1] && Split(s, '\n')[i] == b[i - 1];
        }
      }
    }
  }

  lemma SplitLinesAt(s: string, k: nat)
    requires k < |s| && s[k] == '\n'
    requires forall i :: 0 <= i < k ==> s[i] != '\n'
    ensures SplitLines(s) == [DropCR(s[..k])] + SplitLines(s[k + 1..])
  {
    assert IndexOf(s, '\n') == k;
  }

  /** Rewriting the first line end of `d`. */
  lemma ToCrlfAtNewline(d: string, k: nat)
    requires k < |d| && d[k] == '\n'
    requires forall i :: 0 <= i < k ==> d[i] != '\n'
    ensures ToCrlf(d) == d[..k] + ['\r', '\n'] + ToCrlf(d[k + 1..])
  {
    var a, tail := d[..k], d[k..];
    assert d == a + tail;
    ToCrlfConcat(a, tail);
    ToCrlfWithoutNewline(a);
    assert tail[1..] == d[k + 1..];
  }

  lemma LfOnlySuffix(d: string, k: nat)
    requires LfOnly(d) && k < |d|
    ensures LfOnly(d[k + 1..])
  {
    var rest := d[k + 1..];
    forall i | 0 < i < |rest| && rest[i] == '\n' ensures rest[i - 1] != '\r' {
      assert d[k + 1 + i] == '\n';
    }
  }

  /** The first line of the CRLF form is the first line of `d`, and the rest is the CRLF form of the rest. */
  lemma CrlfFirstLine(d: string, k: nat)
    requires LfOnly(d) && k < |d| && d[k] == '\n'
    requires forall i :: 0 <= i < k ==> d[i] != '\n'
    ensures SplitLines(ToCrlf(d)) == [d[..k]] + SplitLines(ToCrlf(d[k + 1..]))
  {
    var a := d[..k];
    ToCrlfAtNewline(d, k);
    var c := ToCrlf(d);
    assert c[..k + 1] == a + ['\r'];
    assert c[k + 2..] == ToCrlf(d[k + 1..]);
    forall i | 0 <= i < k + 1 ensures c[i] != '\n' {
      assert c[i] == c[..k + 1][i];
    }
    SplitLinesAt(c, k + 1);
    assert DropCR(c[..k + 1]) == a;
  }

  lemma {:induction false} CrlfSameLines(d: string)
    requires LfOnly(d)
    ensures SplitLines(ToCrlf(d)) == SplitLines(d)
    decreases |d|
  {
    var k := IndexOf(d, '\n');
    if k == |d| {
      ToCrlfWithoutNewline(d);
    } else {
      var a, rest := d[..k], d[k + 1..];
      CrlfFirstLine(d, k);
      SplitLinesAt(d, k);
      assert DropCR(a) == a by {
        if k > 0 { assert d[k] == '\n'; }
      }
      LfOnlySuffix(d, k);
      CrlfSameLines(rest);
    }
  }

  /** A `\r` directly before `\r\n` is what breaks the line-ending invariance. */
  lemma CrBeforeCrlfKeepsCr()
    ensures SplitLines("a\r\r\nb") == ["a\r", "b"]
    ensures SplitLines("a\r\nb") == ["a", "b"]
  {
    assert IndexOf("a\r\r\nb", '\n') == 3 by {
      assert "a\r\r\nb"[1..] == "\r\r\nb";
      assert "\r\r\nb"[1..] == "\r\nb";
      assert "\r\nb"[1..] == "\nb";
    }
    assert IndexOf("a\r\nb", '\n') == 2 by {
      assert "a\r\nb"[1..] == "\r\nb";
      assert "\r\nb"[1..] == "\nb";
    }
    assert "a\r\r\nb"[..3] == "a\r\r" && "a\r\r\nb"[4..] == "b";
    assert "a\r\nb"[..2] == "a\r" && "a\r\nb"[3..] == "b";
    assert DropCR("a\r\r") == "a\r" && DropCR("a\r") == "a";
    assert IndexOf("b", '\n') == 1 by { assert "b"[1..] == ""; }
  }

}
