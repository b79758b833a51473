/**
  The line classifier: the anchored regular expressions of the backlog parsers
  and of the history scanner, written as greedy matchers over one line.
  Three checkbox pattern families are kept apart on purpose:
  - the epic parser's, which needs text after the box (`\s+(.+)$`);
  - the counters', which only need whitespace after the box (`\s+`);
  - the history scanner's, which also allows leading whitespace (`^[\s]*`).
*/
module Markdown {
  import opened Wrappers
  import opened Text
  import opened Model

  /** The lines both backlog parsers read: one BOM dropped, then split on `\r?\n`. */
  function BacklogLines(md: string): (lines: seq<string>)
    ensures |lines| >= 1
    ensures |lines| == |Split(StripBom(md), '\n')|
    ensures forall i :: 0 <= i < |lines| - 1 ==> lines[i] == DropCR(Split(StripBom(md), '\n')[i])
    ensures lines[|lines| - 1] == Split(StripBom(md), '\n')[|lines| - 1]
  {
    SplitLinesBySplit(StripBom(md));
    SplitLines(StripBom(md))
  }

  /** A leading BOM does not change the lines. */
  lemma BomIgnored(d: string)
    requires d == [] || d[0] != BOM
    ensures BacklogLines([BOM] + d) == BacklogLines(d)
  {
    StripAddedBom(d);
  }

  /**
    A backlog written with bare `\n` line ends is read as the same lines
    when it is written with `\r\n` line ends instead, BOM or not.
  */
  lemma CrlfIgnored(d: string)
    requires LfOnly(d)
    ensures BacklogLines(ToCrlf(d)) == BacklogLines(d)
  {
    if d != [] {
      var c := ToCrlf(d);
      assert c == (if d[0] == '\n' then "\r\n" else [d[0]]) + ToCrlf(d[1..]);
      if d[0] == BOM {
        assert c == [BOM] + ToCrlf(d[1..]);
        assert StripBom(c) == ToCrlf(d[1..]);
        LfOnlySuffix(d, 0);
        CrlfSameLines(d[1..]);
      } else {
        assert c[0] != BOM;
        CrlfSameLines(d);
      }
    }
  }

  /** `/^#(?!#)\s+/`: one `#`, not followed by a second `#`, then whitespace. */
  predicate IsTopHeading(line: string) {
    |line| >= 2 && line[0] == '#' && IsSpace(line[1])
  }

  /** `/^##/`. */
  predicate IsSubHeading(line: string) {
    StartsWith(line, "##")
  }

  lemma SubHeadingIsNotTop(line: string)
    requires IsSubHeading(line)
    ensures !IsTopHeading(line)
  {
    assert line[1] == line[..2][1];
  }

  /** Length of the leading run of `#` characters. */
  function HashRun(s: string): (n: nat)
    ensures n <= |s|
    ensures forall i :: 0 <= i < n ==> s[i] == '#'
    ensures n < |s| ==> s[n] != '#'
  {
    if |s| > 0 && s[0] == '#' then 1 + HashRun(s[1..]) else 0
  }

  lemma TrimOfTrimStart(s: string)
    ensures Trim(TrimStart(s)) == Trim(s)
  {
    var t := TrimStart(s);
    assert SpaceRun(t) == 0;
    assert TrimStart(t) == t;
  }

  /**
    The heading text with its leading `#` run and the whitespace after that
    run replaced by nothing, then trimmed. For a top-level heading that is the trimmed
    text after the single `#`.
  */
  function HeadingTitle(line: string): (title: string)
    ensures IsTrimmed(title)
    ensures IsTopHeading(line) ==> title == Trim(line[1..])
  {
    var afterHashes := line[HashRun(line)..];
    assert IsTopHeading(line) ==> HashRun(line) == 1 && afterHashes == line[1..] by {
      if IsTopHeading(line) {
        assert line[1..][0] == line[1];
      }
    }
    TrimOfTrimStart(afterHashes);
    Trim(TrimStart(afterHashes))
  }

  predicate IsListMarker(c: char) {
    c == '-' || c == '*'
  }

  /**
    `^[-*]\s+\[` c `\]`: a list marker, at least one whitespace character and a
    one-character box. Gives the character in the box and the text after `]`.
  */
  function BoxAt(line: string): (r: Option<(char, string)>)
    ensures r.Some? ==>
      var rest := r.value.1;
      var n := |line| - |rest| - 3;
      && 2 <= n
      && IsListMarker(line[0])
      && IsBlank(line[1..n])
      && line[n] == '[' && line[n + 1] == r.value.0 && line[n + 2] == ']'
      && line[n + 3..] == rest
  {
    if |line| == 0 || !IsListMarker(line[0]) then None
    else
      var n := 1 + SpaceRun(line[1..]);
      if n == 1 || n + 3 > |line| || line[n] != '[' || line[n + 2] != ']' then None
      else
        assert line[1..n] == line[1..][..n - 1];
        Some((line[n + 1], line[n + 3..]))
  }

  /** Every line of the regular expression's shape is recognised, with its box and rest. */
  lemma BoxAtComplete(marker: char, w: string, c: char, rest: string)
    requires IsListMarker(marker)
    requires IsBlank(w) && w != []
    ensures BoxAt([marker] + w + ['[', c, ']'] + rest) == Some((c, rest))
  {
    var line := [marker] + w + ['[', c, ']'] + rest;
    assert line[1..] == w + (['[', c, ']'] + rest);
    SpaceRunOfBlankPrefix(w, ['[', c, ']'] + rest);
    assert line[|w| + 4..] == rest;
  }

  /**
    `\s+(.+)$` at the start of `r`, with greedy backtracking: the capture is
    the text after the whitespace run. When `r` is whitespace only, the run
    gives back its last character to `(.+)`. The capture cannot hold a line
    break, because `.` does not match one and `$` is the end of the input.
  */
  function TextTail(r: string): (cap: Option<string>)
    ensures cap.Some? ==>
      && cap.value != []
      && NoLineBreak(cap.value)
      && |cap.value| < |r|
      && IsBlank(r[..|r| - |cap.value|])
      && cap.value == r[|r| - |cap.value|..]
  {
    var n := SpaceRun(r);
    if n == 0 then None
    else if n < |r| then (if NoLineBreak(r[n..]) then Some(r[n..]) else None)
    else if |r| >= 2 && !IsLineBreak(r[|r| - 1]) then Some(r[|r| - 1..])
    else None
  }

  /** Whitespace followed by text without line breaks always matches, and trims to that text. */
  lemma TextTailComplete(w: string, t: string)
    requires IsBlank(w) && w != []
    requires t != [] && NoLineBreak(t)
    ensures TextTail(w + t).Some?
    ensures Trim(TextTail(w + t).value) == Trim(t)
  {
    var r := w + t;
    SpaceRunOfBlankConcat(w, t);
    var k := SpaceRun(t);
    assert r[|w| + k..] == t[k..];
    if k < |t| {
      assert TextTail(r) == Some(TrimStart(t));
      TrimOfTrimStart(t);
    } else {
      assert r[|r| - 1..] == [t[|t| - 1]];
      assert IsBlank(t[..k]);
      assert t[..k] == t;
    }
  }

  /** The box characters of the three task kinds; `[x]` is matched case-insensitively. */
  predicate Marks(c: char, s: TaskStatus) {
    match s
    case Done => c == 'x' || c == 'X'
    case Blocked => c == '!'
    case Pending => c == ' '
  }

  /**
    The epic parser's checkbox patterns: `/^[-*]\s+\[x\]\s+(.+)$/i`,
    `/^[-*]\s+\[!\]\s+(.+)$/` and `/^[-*]\s+\[ \]\s+(.+)$/`. Gives the
    trimmed capture `m[1].trim()`.
  */
  function CheckboxText(line: string, s: TaskStatus): (text: Option<string>)
    ensures text.Some? ==> IsTrimmed(text.value) && NoLineBreak(text.value)
    ensures text.Some? ==> BoxAt(line).Some? && Marks(BoxAt(line).value.0, s)
  {
    match BoxAt(line)
    case None => None
    case Some((c, rest)) =>
      if !Marks(c, s) then None
      else match TextTail(rest)
        case None => None
        case Some(cap) =>
          var t := Trim(cap);
          assert NoLineBreak(t) by {
            forall i | 0 <= i < |t| ensures !IsLineBreak(t[i]) {
              assert t[i] == cap[SpaceRun(cap) + i];
            }
          }
          Some(t)
  }

  /** A line matches at most one of the three checkbox patterns. */
  lemma CheckboxKindsExclusive(line: string, s1: TaskStatus, s2: TaskStatus)
    requires CheckboxText(line, s1).Some? && CheckboxText(line, s2).Some?
    ensures s1 == s2
  {
    var c := BoxAt(line).value.0;
    assert Marks(c, s1) && Marks(c, s2);
  }

  /**
    The checkbox tests in the parser's order: done, then blocked, then
    pending. As a line matches at most one of the patterns, whichever pattern
    matches decides the kind.
  */
  function ClassifyCheckbox(line: string): (r: Option<(TaskStatus, string)>)
    ensures r.Some? ==> CheckboxText(line, r.value.0) == Some(r.value.1)
    ensures forall s :: CheckboxText(line, s).Some? ==> r == Some((s, CheckboxText(line, s).value))
    ensures r.None? ==> forall s :: CheckboxText(line, s).None?
  {
    var done, blocked, pending := CheckboxText(line, Done), CheckboxText(line, Blocked), CheckboxText(line, Pending);
    var r := if done.Some? then Some((Done, done.value))
      else if blocked.Some? then Some((Blocked, blocked.value))
      else if pending.Some? then Some((Pending, pending.value))
      else None;
    assert forall s :: CheckboxText(line, s).Some? ==> r == Some((s, CheckboxText(line, s).value)) by {
      forall s | CheckboxText(line, s).Some? ensures r == Some((s, CheckboxText(line, s).value)) {
        if done.Some? { CheckboxKindsExclusive(line, s, Done); }
        else if blocked.Some? { CheckboxKindsExclusive(line, s, Blocked); }
        else if pending.Some? { CheckboxKindsExclusive(line, s, Pending); }
      }
    }
    r
  }

  /**
    The progress counters' patterns `/^[-*]\s+\[x\]\s+/i` and
    `/^[-*]\s+\[ \]\s+/`: whitespace after the box suffices.
  */
  predicate CountsAs(line: string, s: TaskStatus) {
    match BoxAt(line)
    case None => false
    case Some((c, rest)) => Marks(c, s) && |rest| > 0 && IsSpace(rest[0])
  }

  /** Every line the epic parser reads as a task of kind `s` is counted as kind `s`. */
  lemma TaskLinesAreCounted(line: string, s: TaskStatus)
    requires CheckboxText(line, s).Some?
    ensures CountsAs(line, s)
  {
    var rest := BoxAt(line).value.1;
    var cap := TextTail(rest).value;
    assert IsSpace(rest[0]) by {
      assert rest[..|rest| - |cap|][0] == rest[0];
    }
  }

  /** The converse fails: a box followed by one space is counted but is not a task. */
  lemma CountedLineWithoutText()
    ensures CountsAs("- [x] ", Done)
    ensures CheckboxText("- [x] ", Done).None?
  {
    var line := "- [x] ";
    assert line == ['-'] + " " + ['[', 'x', ']'] + " ";
    BoxAtComplete('-', " ", 'x', " ");
    assert SpaceRun(" ") == 1 by { assert " "[1..] == ""; }
  }

  /**
    The history scanner's patterns `/^[\s]*[-*]\s+\[ \]\s+(.+)$/` and
    `/^[\s]*[-*]\s+\[x\]\s+(.+)$/i`, giving the untrimmed capture `m[1]`.
  */
  function HistoryText(content: string, s: TaskStatus): (cap: Option<string>)
    ensures cap.Some? ==> cap.value != [] && NoLineBreak(cap.value)
    ensures cap.Some? ==> BoxAt(TrimStart(content)).Some? && Marks(BoxAt(TrimStart(content)).value.0, s)
    ensures cap.Some? ==> |cap.value| < |content| && cap.value == content[|content| - |cap.value|..]
  {
    match BoxAt(TrimStart(content))
    case None => None
    case Some((c, rest)) => if Marks(c, s) then TextTail(rest) else None
  }

  /** The history pattern accepts every task line of the epic parser, with the same trimmed text. */
  lemma HistoryReadsTaskLines(line: string, s: TaskStatus)
    requires CheckboxText(line, s).Some?
    ensures HistoryText(line, s).Some?
    ensures Trim(HistoryText(line, s).value) == CheckboxText(line, s).value
  {
    assert SpaceRun(line) == 0;
    assert TrimStart(line) == line;
    TrimOfTrimmed(CheckboxText(line, s).value);
  }

  /** Unlike the epic parser's pattern, the history pattern ignores indentation. */
  lemma HistoryIgnoresIndent(w: string, line: string, s: TaskStatus)
    requires IsBlank(w)
    requires BoxAt(line).Some?
    ensures HistoryText(w + line, s) == HistoryText(line, s)
  {
    SpaceRunOfBlankPrefix(w, line);
    assert TrimStart(w + line) == line;
    assert SpaceRun(line) == 0;
    assert TrimStart(line) == line;
  }

  lemma PendingBoxOfA()
    ensures BoxAt("- [ ] a") == Some((' ', " a"))
  {
    assert "- [ ] a" == ['-'] + " " + ['[', ' ', ']'] + " a";
    BoxAtComplete('-', " ", ' ', " a");
  }

  lemma TextTailOfA()
    ensures TextTail(" a") == Some("a")
  {
    assert SpaceRun("a") == 0;
    assert " a"[1..] == "a";
    assert SpaceRun(" a") == 1;
  }

  lemma HistoryOfA()
    ensures HistoryText("- [ ] a", Pending) == Some("a")
  {
    var line := "- [ ] a";
    assert SpaceRun(line) == 0;
    assert TrimStart(line) == line;
    PendingBoxOfA();
    TextTailOfA();
  }

  lemma IndentedHistoryText()
    ensures HistoryText(" - [ ] a", Pending) == Some("a")
  {
    var line := "- [ ] a";
    assert " - [ ] a" == " " + line;
    PendingBoxOfA();
    HistoryIgnoresIndent(" ", line, Pending);
    HistoryOfA();
  }

  lemma IndentedNotEpicTask()
    ensures CheckboxText(" - [ ] a", Pending).None?
  {
    assert BoxAt(" - [ ] a").None?;
  }

  /** An indented checkbox is a task for the history scanner only. */
  lemma IndentedCheckbox()
    ensures CheckboxText(" - [ ] a", Pending).None?
    ensures HistoryText(" - [ ] a", Pending) == Some("a")
  {
    IndentedNotEpicTask();
    IndentedHistoryText();
  }

}
