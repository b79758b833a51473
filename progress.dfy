/**
  `parseBacklog` (parseBacklog.js): document-wide checkbox counters, the
  rounded progress percentage and the `current_task` text under the
  `## Current` heading.
*/
module Progress {
  import opened Wrappers
  import opened Text
  import opened Model
  import opened Markdown
  import opened Epics

  /** Number of lines of kind `s` for the counters' patterns. */
  function CountBoxes(lines: seq<string>, s: TaskStatus): (n: nat)
    ensures n <= |lines|
    decreases |lines|
  {
    if lines == [] then 0
    else CountBoxes(lines[..|lines| - 1], s) + (if CountsAs(lines[|lines| - 1], s) then 1 else 0)
  }

  /** A line is counted as one kind at most. */
  lemma CountedKindsExclusive(line: string, s1: TaskStatus, s2: TaskStatus)
    requires CountsAs(line, s1) && CountsAs(line, s2)
    ensures s1 == s2
  {
    var c := BoxAt(line).value.0;
    assert Marks(c, s1) && Marks(c, s2);
  }

  /**
    `done` and `left` count disjoint sets of lines, and a `[!]` line is in
    neither, so the three together never exceed the number of lines.
  */
  lemma {:induction false} CountersBounded(lines: seq<string>)
    ensures CountBoxes(lines, Done) + CountBoxes(lines, Pending) + CountBoxes(lines, Blocked) <= |lines|
    decreases |lines|
  {
    if lines != [] {
      var line := lines[|lines| - 1];
      CountersBounded(lines[..|lines| - 1]);
      if CountsAs(line, Done) && CountsAs(line, Pending) { CountedKindsExclusive(line, Done, Pending); }
      if CountsAs(line, Done) && CountsAs(line, Blocked) { CountedKindsExclusive(line, Done, Blocked); }
      if CountsAs(line, Pending) && CountsAs(line, Blocked) { CountedKindsExclusive(line, Pending, Blocked); }
    }
  }

  lemma ScaleLe(a: nat, b: nat, c: nat)
    requires b <= c
    ensures a * b <= a * c
  {
    assert a * c == a * b + a * (c - b);
  }

  /** The arithmetic behind the percentage's bounds, for `y == 2 * t` and `p` the rounded quotient. */
  lemma PercentBounds(d: nat, t: nat, y: nat, p: nat)
    requires 0 < t && d <= t && y == 2 * t
    requires y * p <= 200 * d + t < y * p + y
    ensures p <= 100
    ensures d == 0 ==> p == 0
    ensures d == t ==> p == 100
  {
    if p > 100 {
      ScaleLe(y, 101, p);
    }
    if d == 0 && p > 0 {
      ScaleLe(y, 1, p);
    }
    if d == t && p < 100 {
      assert y * (p + 1) == y * p + y;
      ScaleLe(y, p + 1, 100);
    }
  }

  /**
    `Math.round(done / total * 100)`, or 0 when there are no counted
    checkboxes, in exact arithmetic: the integer nearest to the percentage,
    halves rounded up.
  */
  function ProgressPercent(done: nat, left: nat): (p: nat)
    ensures p <= 100
    ensures done == 0 ==> p == 0
    ensures left == 0 && done > 0 ==> p == 100
    ensures done + left > 0 ==>
      2 * (done + left) * p <= 200 * done + (done + left) < 2 * (done + left) * (p + 1)
  {
    var total := done + left;
    if total == 0 then 0
    else
      var y := 2 * total;
      var p := (200 * done + total) / y;
      assert y * p <= 200 * done + total < y * p + y;
      assert y * (p + 1) == y * p + y;
      PercentBounds(done, total, y, p);
      p
  }

  /**
    `/^##\s*Current\s*$/i` on a trimmed line: exactly two `#`, optional
    whitespace, the word in any letter case, optional whitespace.
  */
  predicate IsCurrentHeading(t: string) {
    && StartsWith(t, "##")
    && var n := 2 + SpaceRun(t[2..]);
    && n + 7 <= |t|
    && Lower(t[n..n + 7]) == "current"
    && IsBlank(t[n + 7..])
  }

  /** The test `findIndex` applies to each line: trimmed, a `## Current` heading. */
  predicate IsCurrentLine(l: string) {
    IsCurrentHeading(Trim(l))
  }

  /** `lines.findIndex(...)` from position `from` on. */
  function FindCurrentFrom(lines: seq<string>, from: nat): (r: Option<nat>)
    ensures r.Some? ==> from <= r.value < |lines| && IsCurrentLine(lines[r.value])
    ensures r.Some? ==> forall j {:trigger IsCurrentLine(lines[j])} :: from <= j < r.value ==> !IsCurrentLine(lines[j])
    ensures r.None? ==> forall j {:trigger IsCurrentLine(lines[j])} :: from <= j < |lines| ==> !IsCurrentLine(lines[j])
    decreases |lines| - from
  {
    if from >= |lines| then None
    else if IsCurrentLine(lines[from]) then Some(from)
    else FindCurrentFrom(lines, from + 1)
  }

  /** The first line that is a `## Current` heading once trimmed. */
  function FindCurrent(lines: seq<string>): (r: Option<nat>)
    ensures r.Some? ==> r.value < |lines| && IsCurrentLine(lines[r.value])
    ensures r.Some? ==> forall j {:trigger IsCurrentLine(lines[j])} :: 0 <= j < r.value ==> !IsCurrentLine(lines[j])
    ensures r.None? ==> forall j {:trigger IsCurrentLine(lines[j])} :: 0 <= j < |lines| ==> !IsCurrentLine(lines[j])
  {
    FindCurrentFrom(lines, 0)
  }

  /** `t.replace(/^[-*]\s*`, "")`: one list marker and the whitespace after it. */
  function StripListMarker(t: string): (r: string)
    ensures |r| <= |t| && r == t[|t| - |r|..]
    ensures (t == [] || !IsListMarker(t[0])) ==> r == t
    ensures t != [] && IsListMarker(t[0]) ==>
      |r| < |t| && IsBlank(t[1..|t| - |r|]) && (r == [] || !IsSpace(r[0]))
    ensures IsTrimmed(t) ==> IsTrimmed(r)
  {
    if t != [] && IsListMarker(t[0]) then
      var r := TrimStart(t[1..]);
      assert t[1..|t| - |r|] == t[1..][..|t[1..]| - |r|];
      r
    else t
  }

  /**
    The loop after the heading, from line `from` on: blank lines are
    skipped; the first other line gives the task, unless it starts a
    `## ` section.
  */
  function CurrentTaskAfter(lines: seq<string>, from: nat): (r: string)
    ensures IsTrimmed(r)
    decreases |lines| - from
  {
    if from >= |lines| then ""
    else
      var t := Trim(lines[from]);
      if t == [] then CurrentTaskAfter(lines, from + 1)
      else if StartsWith(t, "## ") then ""
      else StripListMarker(t)
  }

  function CurrentTaskOf(lines: seq<string>): string {
    match FindCurrent(lines)
    case None => ""
    case Some(i) => CurrentTaskAfter(lines, i + 1)
  }

  function BacklogOf(md: string): Backlog {
    var lines := BacklogLines(md);
    var done, left := CountBoxes(lines, Done), CountBoxes(lines, Pending);
    Backlog(Metrics(done, left, ProgressPercent(done, left)), CurrentTaskOf(lines))
  }

  lemma BlankLineSkipped(lines: seq<string>, from: nat)
    requires from < |lines| && IsBlank(lines[from])
    ensures CurrentTaskAfter(lines, from) == CurrentTaskAfter(lines, from + 1)
  {
    assert Trim(lines[from]) == [];
  }

  predicate AllBlank(ls: seq<string>) {
    forall k :: 0 <= k < |ls| ==> IsBlank(ls[k])
  }

  /** Blank lines before the first other line are skipped. */
  lemma {:induction false} CurrentTaskSkipsBlank(lines: seq<string>, from: nat, j: nat)
    requires from <= j <= |lines|
    requires AllBlank(lines[from..j])
    ensures CurrentTaskAfter(lines, from) == CurrentTaskAfter(lines, j)
    decreases j - from
  {
    if from < j {
      assert lines[from..j][0] == lines[from];
      BlankLineSkipped(lines, from);
      var all, rest := lines[from..j], lines[from + 1..j];
      assert AllBlank(rest) by {
        forall k | 0 <= k < |rest| ensures IsBlank(rest[k]) {
          assert rest[k] == all[k + 1];
        }
      }
      CurrentTaskSkipsBlank(lines, from + 1, j);
    }
  }

  /**
    With a `## Current` heading at `i` (the first), `current_task` comes from
    the first non-blank line `j` after it: that line, trimmed and with its
    list marker removed, or `""` when it starts a `## ` section.
  */
  lemma CurrentTaskIsFirstLineAfter(lines: seq<string>, i: nat, j: nat)
    requires FindCurrent(lines) == Some(i)
    requires i < j < |lines|
    requires AllBlank(lines[i + 1..j])
    requires !IsBlank(lines[j])
    ensures var t := Trim(lines[j]);
      CurrentTaskOf(lines) == if StartsWith(t, "## ") then "" else StripListMarker(t)
  {
    CurrentTaskSkipsBlank(lines, i + 1, j);
  }

  /** Without a later non-blank line, or without the heading, there is no current task. */
  lemma NoCurrentTask(lines: seq<string>)
    requires FindCurrent(lines).Some? ==> AllBlank(lines[FindCurrent(lines).value + 1..])
    ensures CurrentTaskOf(lines) == ""
  {
    if FindCurrent(lines).Some? {
      CurrentTaskSkipsBlank(lines, FindCurrent(lines).value + 1, |lines|);
    }
  }

  lemma SpacedCurrentHeading()
    ensures IsCurrentHeading("## Current")
  {
    assert "## Current"[2..] == " Current" && " Current"[1..] == "Current";
    assert SpaceRun("Current") == 0;
    assert SpaceRun(" Current") == 1;
    assert "## Current"[3..10] == "Current";
  }

  lemma UnspacedCurrentHeading()
    ensures IsCurrentHeading("##cURRENT")
  {
    assert "##cURRENT"[2..] == "cURRENT" && SpaceRun("cURRENT") == 0;
    assert "##cURRENT"[2..9] == "cURRENT";
  }

  lemma ThirdLevelIsNotCurrent()
    ensures !IsCurrentHeading("### Current")
  {
    assert "### Current"[2..] == "# Current" && SpaceRun("# Current") == 0;
    assert "### Current"[2..9] == "# Curre";
    assert Lower("# Curre")[0] == '#';
  }

  lemma LongerTitleIsNotCurrent()
    ensures !IsCurrentHeading("## Current task")
  {
    var t := "## Current task";
    assert t[2..] == " " + "Current task";
    SpaceRunOfBlankPrefix(" ", "Current task");
    assert !IsSpace(t[11]) && t[10..][1] == t[11];
    assert !IsBlank(t[10..]);
  }

  /** The heading is two `#` exactly and the word alone, in any case; spaces are optional. */
  lemma CurrentHeadingForms()
    ensures IsCurrentHeading("## Current")
    ensures IsCurrentHeading("##cURRENT")
    ensures !IsCurrentHeading("### Current")
    ensures !IsCurrentHeading("## Current task")
  {
    SpacedCurrentHeading();
    UnspacedCurrentHeading();
    ThirdLevelIsNotCurrent();
    LongerTitleIsNotCurrent();
  }

  /** The counting loop of `parseBacklog`: `[x]` lines, else `[ ]` lines. */
  method CountCheckboxes(lines: seq<string>) returns (done: nat, left: nat)
    ensures done == CountBoxes(lines, Done)
    ensures left == CountBoxes(lines, Pending)
  {
    done, left := 0, 0;
    for i := 0 to |lines|
      invariant done == CountBoxes(lines[..i], Done)
      invariant left == CountBoxes(lines[..i], Pending)
    {
      var line := lines[i];
      assert lines[..i + 1][..i] == lines[..i];
      if CountsAs(line, Done) {
        done := done + 1;
        if CountsAs(line, Pending) { CountedKindsExclusive(line, Done, Pending); }
      } else if CountsAs(line, Pending) {
        left := left + 1;
      }
    }
    assert lines[..|lines|] == lines;
  }

  /** The search for `current_task` below the `## Current` heading. */
  method FindCurrentTask(lines: seq<string>) returns (currentTask: string)
    ensures currentTask == CurrentTaskOf(lines)
  {
    currentTask := "";
    var idx := FindCurrent(lines);
    if idx.Some? {
      ghost var task := CurrentTaskAfter(lines, idx.value + 1);
      assert task == CurrentTaskOf(lines);
      var i := idx.value + 1;
      while i < |lines|
        invariant idx.value + 1 <= i <= |lines|
        invariant currentTask == ""
        invariant CurrentTaskAfter(lines, i) == task
        decreases |lines| - i
      {
        var t := Trim(lines[i]);
        if t == [] {
          i := i + 1;
          continue;
        }
        if StartsWith(t, "## ") {
          break;
        }
        currentTask := StripListMarker(t);
        break;
      }
    }
  }

  /** `parseBacklog(md)`. */
  method ParseBacklog(md: string) returns (result: Backlog)
    ensures result == BacklogOf(md)
  {
    var lines := BacklogLines(md);
    var done, left := CountCheckboxes(lines);
    var progress := ProgressPercent(done, left);
    var currentTask := FindCurrentTask(lines);
    result := Backlog(Metrics(done, left, progress), currentTask);
  }


  /** A BOM in front, or `\r\n` line ends instead of `\n`, change nothing. */
  lemma BacklogIgnoresBomAndCrlf(d: string)
    requires LfOnly(d)
    ensures BacklogOf(ToCrlf(d)) == BacklogOf(d)
    ensures (d == [] || d[0] != BOM) ==> BacklogOf([BOM] + d) == BacklogOf(d)
  {
    CrlfIgnored(d);
    if d == [] || d[0] != BOM {
      BomIgnored(d);
    }
  }

  /** Number of tasks of kind `s`. */
  function StatusCount(tasks: seq<Task>, s: TaskStatus): (n: nat)
    ensures n <= |tasks|
    decreases |tasks|
  {
    if tasks == [] then 0
    else StatusCount(tasks[..|tasks| - 1], s) + (if tasks[|tasks| - 1].status == s then 1 else 0)
  }

  /** Number of tasks of kind `s` over all epics. */
  function EpicStatusCount(epics: seq<Epic>, s: TaskStatus): nat
    decreases |epics|
  {
    if epics == [] then 0
    else EpicStatusCount(epics[..|epics| - 1], s) + StatusCount(epics[|epics| - 1].tasks, s)
  }

  lemma NewEpicCount(epics: seq<Epic>, title: string, s: TaskStatus)
    ensures EpicStatusCount(epics + [Epic(title, [])], s) == EpicStatusCount(epics, s)
  {
    var r := epics + [Epic(title, [])];
    assert r[..|r| - 1] == epics;
  }

  lemma ExtendCount(epics: seq<Epic>, t: Task, s: TaskStatus)
    requires |epics| > 0
    ensures EpicStatusCount(Extend(epics, [t]), s)
      == EpicStatusCount(epics, s) + (if t.status == s then 1 else 0)
  {
    var r := Extend(epics, [t]);
    var last := epics[|epics| - 1];
    assert r[..|r| - 1] == epics[..|epics| - 1];
    assert (last.tasks + [t])[..|last.tasks|] == last.tasks;
  }

  /** A step adds at most one task of kind `s`, and only for a line of that kind. */
  lemma StepCount(st: EpicScan, k: LineKind, s: TaskStatus, counted: bool)
    requires WellFormed(st)
    requires k.Other? && k.task.Some? && k.task.value.status == s ==> counted
    ensures EpicStatusCount(Step(st, k).epics, s) <= EpicStatusCount(st.epics, s) + (if counted then 1 else 0)
  {
    match k
    case Heading(title) =>
      if st.seenTitle {
        NewEpicCount(st.epics, title, s);
      }
    case SubHeading =>
    case Other(task) =>
      if st.open && task.Some? {
        ExtendCount(st.epics, task.value, s);
      }
  }

  lemma CountAfterStep(st: EpicScan, line: string, s: TaskStatus)
    requires WellFormed(st)
    ensures EpicStatusCount(ScanLine(st, line).epics, s)
      <= EpicStatusCount(st.epics, s) + (if CountsAs(line, s) then 1 else 0)
  {
    var k := Classify(line);
    if k.Other? && k.task.Some? && k.task.value.status == s {
      TaskLinesAreCounted(line, s);
    }
    StepCount(st, k, s, CountsAs(line, s));
  }

  /**
    Every task `parseEpics` reports is a line the counters of `parseBacklog`
    count as the same kind, so `metrics.done` is at least the number of done
    tasks over all epics, and `metrics.left` at least the number of pending
    ones.
  */
  lemma {:induction false} ParsedTasksAreCounted(lines: seq<string>, s: TaskStatus)
    ensures EpicStatusCount(ScanLines(lines).epics, s) <= CountBoxes(lines, s)
    decreases |lines|
  {
    if lines != [] {
      var init := lines[..|lines| - 1];
      ParsedTasksAreCounted(init, s);
      CountAfterStep(ScanLines(init), lines[|lines| - 1], s);
    }
  }

}
