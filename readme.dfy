/**
  `parseReadme` (parseReadme.js): the title and the one-paragraph
  description a project's README.md gives the dashboard. Unlike the
  backlog parsers it does not strip a byte-order mark.
*/
module Readme {
  import opened Wrappers
  import opened Text

  /** `md.split(/\r?\n/)`. */
  function ReadmeLines(md: string): (lines: seq<string>)
    ensures |lines| >= 1
    ensures forall i :: 0 <= i < |lines| ==> '\n' !in lines[i]
    ensures |lines| == |Split(md, '\n')|
    ensures forall i :: 0 <= i < |lines| - 1 ==> lines[i] == DropCR(Split(md, '\n')[i])
    ensures lines[|lines| - 1] == Split(md, '\n')[|lines| - 1]
  {
    SplitLinesBySplit(md);
    SplitLines(md)
  }

  /**
    The regular expression `^#\s+(.+)\s*$` matches `l` with `\s+` ending at
    `a` and the capture `(.+)` spanning `a..b`; `.` takes anything but a
    line break.
  */
  predicate TitleShape(l: string, a: nat, b: nat) {
    2 <= a < b <= |l| && l[0] == '#'
    && IsBlank(l[1..a]) && NoLineBreak(l[a..b]) && IsBlank(l[b..])
  }

  /** There is a character other than a line break after position 0 of `rest`. */
  predicate HasDotAfterFirst(rest: string) {
    exists i :: 1 <= i < |rest| && !IsLineBreak(rest[i])
  }

  /**
    `l.match(/^#\s+(.+)\s*$/)` followed by `m[1].trim()`. Whitespace on both
    sides of the capture is removed by the trim, so the title is the trimmed
    line after the `#`. On a line of whitespace only, backtracking hands one
    non-break whitespace character to `(.+)`: the line matches and the title
    is empty.
  */
  function TitleMatch(l: string): (r: Option<string>)
    ensures r.Some? ==> |l| >= 2 && l[0] == '#' && IsSpace(l[1])
    ensures r.Some? ==> r.value == Trim(l[1..])
  {
    if |l| < 2 || l[0] != '#' || !IsSpace(l[1]) then None
    else
      var rest := l[1..];
      var m := Trim(rest);
      if m != [] then (if NoLineBreak(m) then Some(m) else None)
      else if HasDotAfterFirst(rest) then Some(m)
      else None
  }

  /** Every match `TitleMatch` reports is one the regular expression finds. */
  lemma TitleMatchSound(l: string)
    requires TitleMatch(l).Some?
    ensures exists a: nat, b: nat :: TitleShape(l, a, b)
  {
    var rest := l[1..];
    var m := Trim(rest);
    var n := SpaceRun(rest);
    if m != [] {
      assert n >= 1 by { assert IsSpace(rest[0]); }
      assert l[1..1 + n] == rest[..n];
      assert l[1 + n..1 + n + |m|] == m;
      assert l[1 + n + |m|..] == rest[n + |m|..];
      assert TitleShape(l, 1 + n, 1 + n + |m|);
    } else {
      var i :| 1 <= i < |rest| && !IsLineBreak(rest[i]);
      assert l[1..1 + i] == rest[..i];
      assert l[1 + i..2 + i] == [rest[i]];
      assert l[2 + i..] == rest[i + 1..];
      assert TitleShape(l, 1 + i, 2 + i);
    }
  }

  /** A leading whitespace run is at least as long as any blank prefix. */
  lemma SpaceRunCovers(s: string, k: nat)
    requires k <= |s| && IsBlank(s[..k])
    ensures SpaceRun(s) >= k
  {
    forall i | 0 <= i < k ensures IsSpace(s[i]) {
      assert s[..k][i] == s[i];
    }
  }

  /** Every match of the regular expression is one `TitleMatch` reports. */
  lemma TitleMatchComplete(l: string, a: nat, b: nat)
    requires TitleShape(l, a, b)
    ensures TitleMatch(l).Some?
  {
    var rest := l[1..];
    assert IsSpace(l[1]) by { assert l[1..a][0] == l[1]; }
    var m := Trim(rest);
    var n := SpaceRun(rest);
    assert rest[..a - 1] == l[1..a];
    SpaceRunCovers(rest, a - 1);
    if m != [] {
      assert n + |m| <= b - 1;
      forall i | 0 <= i < |m| ensures !IsLineBreak(m[i]) {
        assert m[i] == rest[n + i] == l[a..b][n + i + 1 - a];
      }
    } else {
      assert !IsLineBreak(rest[a - 1]) by { assert l[a..b][0] == rest[a - 1]; }
    }
  }

  /** `##` lines never give a title. */
  lemma SubHeadingGivesNoTitle(l: string)
    requires StartsWith(l, "##")
    ensures TitleMatch(l).None?
  {
    assert l[1] == l[..2][1];
  }

  /** The first line that matches. */
  function FirstTitleLine(lines: seq<string>): (r: Option<nat>)
    ensures r.Some? ==> r.value < |lines| && TitleMatch(lines[r.value]).Some?
    ensures r.Some? ==> forall j :: 0 <= j < r.value ==> TitleMatch(lines[j]).None?
    ensures r.None? ==> forall j :: 0 <= j < |lines| ==> TitleMatch(lines[j]).None?
  {
    if lines == [] then None
    else if TitleMatch(lines[0]).Some? then Some(0)
    else
      var r := FirstTitleLine(lines[1..]);
      if r.Some? then Some(r.value + 1) else None
  }

  /** The title: the trimmed capture of the first matching line, `""` when none matches. */
  function TitleOf(lines: seq<string>): (title: string)
    ensures IsTrimmed(title)
    ensures FirstTitleLine(lines).None? ==> title == ""
  {
    match FirstTitleLine(lines)
    case None => ""
    case Some(i) => TitleMatch(lines[i]).value
  }

  /** Before the paragraph starts: `#` lines are passed over only when there is a title, blank lines always. */
  predicate Skippable(l: string, title: string) {
    (title != "" && StartsWith(l, "#")) || IsBlank(l)
  }

  /** The number of lines passed over before the paragraph. */
  function Lead(lines: seq<string>, title: string): (n: nat)
    ensures n <= |lines|
    ensures forall k :: 0 <= k < n ==> Skippable(lines[k], title)
    ensures n < |lines| ==> !Skippable(lines[n], title)
  {
    if lines == [] || !Skippable(lines[0], title) then 0
    else 1 + Lead(lines[1..], title)
  }

  /** The trimmed lines up to the first blank one. */
  function Run(lines: seq<string>): (r: seq<string>)
    ensures |r| <= |lines|
    ensures forall k :: 0 <= k < |r| ==> !IsBlank(lines[k]) && r[k] == Trim(lines[k])
    ensures |r| < |lines| ==> IsBlank(lines[|r|])
  {
    if lines == [] || IsBlank(lines[0]) then []
    else
      var tail := lines[1..];
      assert forall k :: 0 <= k < |tail| ==> tail[k] == lines[k + 1];
      [Trim(lines[0])] + Run(tail)
  }

  /** The lines of the description, each trimmed. */
  function Paragraph(lines: seq<string>, title: string): seq<string> {
    Run(lines[Lead(lines, title)..])
  }

  /** `buf.join(" ").trim()`. */
  function DescriptionOf(lines: seq<string>, title: string): string {
    Trim(Join(Paragraph(lines, title), " "))
  }

  /** The record `parseReadme` returns. */
  datatype ReadmeInfo = ReadmeInfo(title: string, description: string)

  function ReadmeOf(md: string): ReadmeInfo {
    var lines := ReadmeLines(md);
    var title := TitleOf(lines);
    ReadmeInfo(title, DescriptionOf(lines, title))
  }

  method FindTitle(lines: seq<string>) returns (title: string)
    ensures title == TitleOf(lines)
  {
    title := "";
    for i := 0 to |lines|
      invariant forall j :: 0 <= j < i ==> TitleMatch(lines[j]).None?
    {
      var m := TitleMatch(lines[i]);
      if m.Some? {
        TitleIsFirstMatch(lines, i);
        title := m.value;
        return;
      }
    }
    NoTitleLine(lines);
  }

  /** The first line that is not passed over starts the paragraph. */
  lemma ParagraphStartsAt(lines: seq<string>, title: string, i: nat)
    requires i < |lines| && !Skippable(lines[i], title)
    requires forall k :: 0 <= k < i ==> Skippable(lines[k], title)
    ensures Paragraph(lines, title) == Run(lines[i..])
  {
  }

  /** With every line passed over, the paragraph is empty. */
  lemma NoParagraph(lines: seq<string>, title: string)
    requires forall k :: 0 <= k < |lines| ==> Skippable(lines[k], title)
    ensures Paragraph(lines, title) == []
  {
  }

  /** A non-blank line joins the paragraph. */
  lemma ParagraphStep(buf: seq<string>, lines: seq<string>, i: nat)
    requires i < |lines| && !IsBlank(lines[i])
    ensures buf + Run(lines[i..]) == (buf + [Trim(lines[i])]) + Run(lines[i + 1..])
  {
    assert lines[i..][1..] == lines[i + 1..];
  }

  /** A blank line, or the end of the text, ends the paragraph. */
  lemma ParagraphEnds(lines: seq<string>, i: nat)
    requires i <= |lines| && (i < |lines| ==> IsBlank(lines[i]))
    ensures Run(lines[i..]) == []
  {
    if i < |lines| {
      assert lines[i..][0] == lines[i];
    }
  }

  /** The second loop of `parseReadme`: the `started` flag and `buf`. */
  method CollectParagraph(lines: seq<string>, title: string) returns (buf: seq<string>)
    ensures buf == Paragraph(lines, title)
  {
    buf := [];
    var started := false;
    var i := 0;
    while i < |lines|
      invariant 0 <= i <= |lines|
      invariant !started ==> buf == [] && forall k :: 0 <= k < i ==> Skippable(lines[k], title)
      invariant started ==> buf + Run(lines[i..]) == Paragraph(lines, title)
    {
      var l := lines[i];
      if !started {
        if title != "" && StartsWith(l, "#") {
          i := i + 1;
          continue;
        }
        if IsBlank(l) {
          i := i + 1;
          continue;
        }
        ParagraphStartsAt(lines, title, i);
        started := true;
      }
      if IsBlank(l) {
        break;
      }
      ParagraphStep(buf, lines, i);
      buf := buf + [Trim(l)];
      i := i + 1;
    }
    if started {
      ParagraphEnds(lines, i);
    } else {
      NoParagraph(lines, title);
    }
  }

  method ParseReadme(md: string) returns (info: ReadmeInfo)
    ensures info == ReadmeOf(md)
  {
    var lines := ReadmeLines(md);
    var title := FindTitle(lines);
    var buf := CollectParagraph(lines, title);
    info := ReadmeInfo(title, Trim(Join(buf, " ")));
  }

  lemma {:induction false} JoinKeepsOut(parts: seq<string>, c: char)
    requires c != ' ' && forall k :: 0 <= k < |parts| ==> c !in parts[k]
    ensures c !in Join(parts, " ")
  {
    if |parts| > 1 {
      JoinKeepsOut(parts[1..], c);
    }
  }

  /** A character that no line holds is in no line of the paragraph. */
  lemma ParagraphKeepsOut(lines: seq<string>, title: string, c: char)
    requires forall i :: 0 <= i < |lines| ==> c !in lines[i]
    ensures forall k :: 0 <= k < |Paragraph(lines, title)| ==> c !in Paragraph(lines, title)[k]
  {
    var rest := lines[Lead(lines, title)..];
    var p := Run(rest);
    forall k | 0 <= k < |p| ensures c !in p[k] {
      assert c !in rest[k];
      TrimKeepsOut(rest[k], c);
    }
  }

  /** The description holds no `\n`: it is one paragraph joined with spaces. */
  lemma DescriptionHasNoNewline(md: string)
    ensures '\n' !in ReadmeOf(md).description
  {
    var lines := ReadmeLines(md);
    var title := TitleOf(lines);
    ParagraphKeepsOut(lines, title, '\n');
    var j := Join(Paragraph(lines, title), " ");
    JoinKeepsOut(Paragraph(lines, title), '\n');
    TrimKeepsOut(j, '\n');
    assert ReadmeOf(md).description == Trim(j);
  }

  /** The title is the trimmed text after the `#` of the first line that matches. */
  lemma TitleIsFirstMatch(lines: seq<string>, i: nat)
    requires i < |lines| && TitleMatch(lines[i]).Some?
    requires forall j :: 0 <= j < i ==> TitleMatch(lines[j]).None?
    ensures TitleOf(lines) == Trim(lines[i][1..])
  {
    assert FirstTitleLine(lines) == Some(i);
  }

  /** With no line matching, the title is empty. */
  lemma NoTitleLine(lines: seq<string>)
    requires forall j :: 0 <= j < |lines| ==> TitleMatch(lines[j]).None?
    ensures TitleOf(lines) == ""
  {
    assert FirstTitleLine(lines).None?;
  }

  /** Joining non-empty trimmed lines with single spaces gives a trimmed text. */
  lemma {:induction false} JoinTrimmed(parts: seq<string>)
    requires forall k :: 0 <= k < |parts| ==> parts[k] != [] && IsTrimmed(parts[k])
    ensures IsTrimmed(Join(parts, " "))
    ensures parts != [] ==> Join(parts, " ") != []
  {
    if |parts| > 1 {
      JoinTrimmed(parts[1..]);
      var j := Join(parts[1..], " ");
      assert Join(parts, " ") == parts[0] + " " + j;
      assert (parts[0] + " " + j)[0] == parts[0][0];
      assert (parts[0] + " " + j)[|parts[0] + " " + j| - 1] == j[|j| - 1];
    }
  }

  /** The final `trim()` changes nothing: the description is the paragraph joined with spaces. */
  lemma DescriptionIsJoinedParagraph(lines: seq<string>, title: string)
    ensures DescriptionOf(lines, title) == Join(Paragraph(lines, title), " ")
    ensures DescriptionOf(lines, title) == "" <==> Paragraph(lines, title) == []
  {
    var p := Paragraph(lines, title);
    forall k | 0 <= k < |p| ensures p[k] != [] && IsTrimmed(p[k]) {
    }
    JoinTrimmed(p);
    TrimOfTrimmed(Join(p, " "));
  }

  /**
    The description is `""` when every line is blank, or, with a title,
    every line is blank or starts with `#`.
  */
  lemma EmptyDescription(lines: seq<string>, title: string)
    requires forall k :: 0 <= k < |lines| ==> Skippable(lines[k], title)
    ensures DescriptionOf(lines, title) == ""
  {
    NoParagraph(lines, title);
  }

  /**
    Without a title nothing but blank lines is passed over: a leading
    `## Heading` line opens the description.
  */
  lemma UntitledHeadingOpensDescription(lines: seq<string>, i: nat)
    requires i < |lines| && !IsBlank(lines[i])
    requires forall k :: 0 <= k < i ==> IsBlank(lines[k])
    ensures Paragraph(lines, "") != [] && Paragraph(lines, "")[0] == Trim(lines[i])
  {
    ParagraphStartsAt(lines, "", i);
    assert lines[i..][0] == lines[i];
  }

  /** With a title, `#` lines before the paragraph stay out of it. */
  lemma TitledHeadingsPassedOver(lines: seq<string>, title: string, i: nat)
    requires title != "" && i < |lines| && !Skippable(lines[i], title)
    requires forall k :: 0 <= k < i ==> IsBlank(lines[k]) || StartsWith(lines[k], "#")
    ensures Paragraph(lines, title) != [] && Paragraph(lines, title)[0] == Trim(lines[i])
  {
    ParagraphStartsAt(lines, title, i);
    assert lines[i..][0] == lines[i];
  }

  /** Writing every `\n` as `\r\n` gives the same title and description. */
  lemma CrlfIgnored(d: string)
    requires LfOnly(d)
    ensures ReadmeOf(ToCrlf(d)) == ReadmeOf(d)
  {
    CrlfSameLines(d);
  }

  /** A byte-order mark is not stripped: it hides a title on the first line. */
  lemma BomHidesFirstLineTitle(d: string)
    ensures TitleMatch(ReadmeLines([BOM] + d)[0]).None?
  {
    var s := [BOM] + d;
    var k := IndexOf(s, '\n');
    assert k > 0;
    var first := ReadmeLines(s)[0];
    if k < |s| {
      assert first == DropCR(s[..k]);
      assert first[0] == s[..k][0];
    } else {
      assert first == s;
    }
  }

  /** A `\r` that is not followed by `\n` stays inside its line and reaches the description. */
  lemma LoneCarriageReturnKept()
    ensures DescriptionOf(["a\rb"], "") == "a\rb"
  {
    var l := "a\rb";
    assert !IsBlank(l) by { assert !IsSpace(l[0]); }
    assert IsTrimmed(l);
    TrimOfTrimmed(l);
    assert Lead([l], "") == 0;
    assert [l][0..] == [l];
    assert Run([l][1..]) == [];
    assert Paragraph([l], "") == [l];
    DescriptionIsJoinedParagraph([l], "");
  }
}
