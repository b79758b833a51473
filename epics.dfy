/**
  `parseEpics` (parseBacklog.js): one pass over the backlog's lines that
  tracks the current epic and whether the document title (the first `# `
  heading) has been seen.
*/
module Epics {
  import opened Wrappers
  import opened Text
  import opened Model
  import opened Markdown

  /**
    The loop state of `parseEpics`. `current` always refers to the epic pushed
    last, so it is kept as `open`: whether the last epic is still current.
  */
  datatype EpicScan = EpicScan(epics: seq<Epic>, open: bool, seenTitle: bool)

  const Start := EpicScan([], false, false)

  predicate ParsedTask(t: Task) {
    IsTrimmed(t.text) && t.timing.None?
  }

  predicate ParsedEpic(e: Epic) {
    IsTrimmed(e.title) && forall t :: t in e.tasks ==> ParsedTask(t)
  }

  /** What the loop keeps true: `current` is an epic, and one only after the title. */
  predicate WellFormed(st: EpicScan) {
    && (st.open ==> |st.epics| > 0)
    && (|st.epics| > 0 ==> st.seenTitle)
  }

  /** The task a checkbox line gives, without timing fields. */
  function LineTask(line: string): (t: Option<Task>)
    ensures t.Some? ==> ParsedTask(t.value) && CheckboxText(line, t.value.status) == Some(t.value.text)
    ensures t.None? ==> forall s :: CheckboxText(line, s).None?
  {
    match ClassifyCheckbox(line)
    case None => None
    case Some((s, text)) => Some(Task(s, text, None))
  }

  /** The last epic with `tasks` appended: `current.tasks.push(...)` for each of them. */
  function Extend(epics: seq<Epic>, tasks: seq<Task>): (r: seq<Epic>)
    requires |epics| > 0
    ensures |r| == |epics|
    ensures r[..|r| - 1] == epics[..|epics| - 1]
    ensures r[|r| - 1] == Epic(epics[|epics| - 1].title, epics[|epics| - 1].tasks + tasks)
  {
    var last := epics[|epics| - 1];
    epics[..|epics| - 1] + [Epic(last.title, last.tasks + tasks)]
  }

  lemma ExtendKeepsTitles(epics: seq<Epic>, tasks: seq<Task>)
    requires |epics| > 0
    ensures forall k :: 0 <= k < |epics| ==> Extend(epics, tasks)[k].title == epics[k].title
  {
    var r := Extend(epics, tasks);
    forall k | 0 <= k < |epics| ensures r[k].title == epics[k].title {
      if k < |epics| - 1 {
        assert r[k] == r[..|r| - 1][k];
      }
    }
  }

  lemma ExtendTwice(epics: seq<Epic>, a: seq<Task>, b: seq<Task>)
    requires |epics| > 0
    ensures Extend(Extend(epics, a), b) == Extend(epics, a + b)
  {
    var last := epics[|epics| - 1];
    assert last.tasks + a + b == last.tasks + (a + b);
  }

  /** How the loop body reads a line: a `# ` heading, a `##` heading, or anything else. */
  datatype LineKind = Heading(title: string) | SubHeading | Other(task: Option<Task>)

  function Classify(line: string): (k: LineKind)
    ensures k.Heading? <==> IsTopHeading(line)
    ensures k.Heading? ==> k.title == HeadingTitle(line)
    ensures k.SubHeading? <==> !IsTopHeading(line) && IsSubHeading(line)
    ensures k.Other? ==> k.task == LineTask(line)
  {
    if IsTopHeading(line) then Heading(HeadingTitle(line))
    else if IsSubHeading(line) then SubHeading
    else Other(LineTask(line))
  }

  /**
    The loop body on a classified line: the first `# ` heading is the title,
    a later one pushes a new current epic; `##` clears `current`; a checkbox
    line under a current epic adds its task there.
  */
  function Step(st: EpicScan, k: LineKind): (r: EpicScan)
    requires WellFormed(st)
    ensures WellFormed(r)
    ensures r.seenTitle == (st.seenTitle || k.Heading?)
    ensures r.open == (if k.Heading? then st.seenTitle else if k.SubHeading? then false else st.open)
    ensures |r.epics| == |st.epics| + (if k.Heading? && st.seenTitle then 1 else 0)
    ensures forall i :: 0 <= i < |st.epics| - 1 ==> r.epics[i] == st.epics[i]
    ensures k.Heading? && st.seenTitle ==> r.epics[|r.epics| - 1] == Epic(k.title, [])
    ensures (k.Heading? || !st.open) && |st.epics| > 0 ==> r.epics[|st.epics| - 1] == st.epics[|st.epics| - 1]
  {
    match k
    case Heading(title) =>
      if !st.seenTitle then st.(seenTitle := true)
      else EpicScan(st.epics + [Epic(title, [])], true, true)
    case SubHeading => st.(open := false)
    case Other(task) =>
      if !st.open || task.None? then st
      else st.(epics := Extend(st.epics, [task.value]))
  }

  /** One iteration of the loop body. */
  function ScanLine(st: EpicScan, line: string): (r: EpicScan)
    requires WellFormed(st)
    ensures WellFormed(r)
  {
    Step(st, Classify(line))
  }

  /** The loop run over `lines` from state `st`. */
  function Run(st: EpicScan, lines: seq<string>): (r: EpicScan)
    requires WellFormed(st)
    ensures WellFormed(r)
    decreases |lines|
  {
    if lines == [] then st else ScanLine(Run(st, lines[..|lines| - 1]), lines[|lines| - 1])
  }

  function ScanLines(lines: seq<string>): (r: EpicScan)
    ensures WellFormed(r)
  {
    Run(Start, lines)
  }

  function EpicsOf(md: string): seq<Epic> {
    ScanLines(BacklogLines(md)).epics
  }

  /** `parseEpics(md)`. */
  method ParseEpics(md: string) returns (epics: seq<Epic>)
    ensures epics == EpicsOf(md)
  {
    var lines := BacklogLines(md);
    epics := [];
    var current := false;
    var seenFirstH1 := false;
    for i := 0 to |lines|
      invariant EpicScan(epics, current, seenFirstH1) == ScanLines(lines[..i])
    {
      var line := lines[i];
      assert lines[..i + 1][..i] == lines[..i];
      if IsTopHeading(line) {
        if !seenFirstH1 {
          seenFirstH1 := true;
          continue;
        }
        epics := epics + [Epic(HeadingTitle(line), [])];
        current := true;
        continue;
      }
      if IsSubHeading(line) {
        current := false;
        continue;
      }
      if !current {
        continue;
      }
      var task := LineTask(line);
      if task.Some? {
        epics := Extend(epics, [task.value]);
      }
    }
    assert lines[..|lines|] == lines;
  }

  lemma {:induction false} RunConcat(st: EpicScan, a: seq<string>, b: seq<string>)
    requires WellFormed(st)
    ensures Run(st, a + b) == Run(Run(st, a), b)
    decreases |b|
  {
    if b == [] {
      assert a + b == a;
    } else {
      var b' := b[..|b| - 1];
      assert (a + b)[..|a + b| - 1] == a + b';
      RunConcat(st, a, b');
    }
  }

  /** The titles of the document's `# ` headings, in order. */
  function HeadingTitles(lines: seq<string>): (ts: seq<string>)
    ensures |ts| <= |lines|
    decreases |lines|
  {
    if lines == [] then []
    else
      var init := HeadingTitles(lines[..|lines| - 1]);
      var line := lines[|lines| - 1];
      if IsTopHeading(line) then init + [HeadingTitle(line)] else init
  }

  /** `st` has one epic per title of `ts` after the first, titled by it. */
  predicate Agrees(st: EpicScan, ts: seq<string>) {
    && st.seenTitle == (|ts| > 0)
    && |st.epics| == (if ts == [] then 0 else |ts| - 1)
    && forall i :: 0 <= i < |st.epics| ==> st.epics[i].title == ts[i + 1]
  }

  lemma HeadingAgrees(st: EpicScan, ts: seq<string>, title: string)
    requires WellFormed(st) && Agrees(st, ts)
    ensures Agrees(Step(st, Heading(title)), ts + [title])
  {
    var r := Step(st, Heading(title));
    var now := ts + [title];
    if st.seenTitle {
      assert r.epics == st.epics + [Epic(title, [])];
      forall i | 0 <= i < |r.epics| ensures r.epics[i].title == now[i + 1] {
        if i < |st.epics| {
          assert now[i + 1] == ts[i + 1];
          assert r.epics[i] == st.epics[i];
        }
      }
    }
  }

  lemma OtherAgrees(st: EpicScan, ts: seq<string>, k: LineKind)
    requires WellFormed(st) && Agrees(st, ts)
    requires !k.Heading?
    ensures Agrees(Step(st, k), ts)
  {
    if k.Other? && st.open && k.task.Some? {
      ExtendKeepsTitles(st.epics, [k.task.value]);
    }
  }

  /**
    The first `# ` heading is the title; every later one opens exactly one
    epic, titled by that heading, in document order.
  */
  lemma {:induction false} EpicPerHeading(lines: seq<string>)
    ensures Agrees(ScanLines(lines), HeadingTitles(lines))
    decreases |lines|
  {
    if lines != [] {
      var init := lines[..|lines| - 1];
      var line := lines[|lines| - 1];
      EpicPerHeading(init);
      assert ScanLines(lines) == Step(ScanLines(init), Classify(line));
      if IsTopHeading(line) {
        HeadingAgrees(ScanLines(init), HeadingTitles(init), HeadingTitle(line));
      } else {
        OtherAgrees(ScanLines(init), HeadingTitles(init), Classify(line));
      }
    }
  }

  /** A document with at most one `# ` heading, such as the empty one, has no epics. */
  lemma NoEpicsBeforeSecondHeading(lines: seq<string>)
    requires |HeadingTitles(lines)| <= 1
    ensures ScanLines(lines).epics == []
  {
    EpicPerHeading(lines);
  }

  /**
    Nothing before the second `# ` heading reaches the result: the parse of
    `a + b` only remembers of `a` whether the title was seen.
  */
  lemma BeforeSecondHeadingForgotten(a: seq<string>, b: seq<string>)
    requires |HeadingTitles(a)| <= 1
    ensures ScanLines(a + b) == Run(EpicScan([], false, |HeadingTitles(a)| == 1), b)
  {
    EpicPerHeading(a);
    RunConcat(Start, a, b);
  }

  /** The tasks of the checkbox lines among `lines`, in document order. */
  function TasksOf(lines: seq<string>): (ts: seq<Task>)
    ensures |ts| <= |lines|
    ensures forall t :: t in ts ==> ParsedTask(t)
    decreases |lines|
  {
    if lines == [] then []
    else
      var init := TasksOf(lines[..|lines| - 1]);
      match LineTask(lines[|lines| - 1])
      case None => init
      case Some(t) => init + [t]
  }

  predicate Plain(lines: seq<string>) {
    forall i :: 0 <= i < |lines| ==> !IsTopHeading(lines[i]) && !IsSubHeading(lines[i])
  }

  /** Lines without headings add their checkbox tasks to the current epic, if there is one. */
  lemma {:induction false} PlainLinesExtend(st: EpicScan, b: seq<string>)
    requires WellFormed(st)
    requires Plain(b)
    ensures Run(st, b) == if st.open then st.(epics := Extend(st.epics, TasksOf(b))) else st
    decreases |b|
  {
    if b == [] {
      if st.open {
        assert st.epics[|st.epics| - 1].tasks + [] == st.epics[|st.epics| - 1].tasks;
        assert Extend(st.epics, []) == st.epics;
      }
    } else {
      var b' := b[..|b| - 1];
      assert Plain(b') by {
        forall i | 0 <= i < |b'| ensures !IsTopHeading(b'[i]) && !IsSubHeading(b'[i]) {
          assert b'[i] == b[i];
        }
      }
      PlainLinesExtend(st, b');
      var line := b[|b| - 1];
      assert !IsTopHeading(line) && !IsSubHeading(line);
      if st.open && LineTask(line).Some? {
        ExtendTwice(st.epics, TasksOf(b'), [LineTask(line).value]);
      }
    }
  }

  /** Once `current` is none, lines without a `# ` heading leave the state as it is. */
  lemma {:induction false} ClosedIgnoresLines(st: EpicScan, b: seq<string>)
    requires WellFormed(st) && !st.open
    requires forall i :: 0 <= i < |b| ==> !IsTopHeading(b[i])
    ensures Run(st, b) == st
    decreases |b|
  {
    if b != [] {
      ClosedIgnoresLines(st, b[..|b| - 1]);
    }
  }

  /**
    Checkboxes after a `##` line are dropped until the next `# ` heading,
    whatever came before.
  */
  lemma SubHeadingDropsTasks(a: seq<string>, sub: string, b: seq<string>)
    requires IsSubHeading(sub)
    requires forall i :: 0 <= i < |b| ==> !IsTopHeading(b[i])
    ensures ScanLines(a + [sub] + b).epics == ScanLines(a).epics
  {
    RunConcat(Start, a + [sub], b);
    RunConcat(Start, a, [sub]);
    assert [sub][..0] == [];
    SubHeadingIsNotTop(sub);
    var closed := Run(Start, a + [sub]);
    assert closed == ScanLine(ScanLines(a), sub);
    assert !closed.open && closed.epics == ScanLines(a).epics;
    ClosedIgnoresLines(closed, b);
  }

  /**
    After the title, a `# ` heading followed by lines without headings gives
    one more epic, titled by the heading, holding exactly the tasks of those
    lines in order.
  */
  lemma ExtendFresh(epics: seq<Epic>, title: string, tasks: seq<Task>)
    ensures Extend(epics + [Epic(title, [])], tasks) == epics + [Epic(title, tasks)]
  {
    var r := Extend(epics + [Epic(title, [])], tasks);
    assert [] + tasks == tasks;
    assert r == r[..|r| - 1] + [r[|r| - 1]];
  }

  lemma NewEpicCollectsSegment(a: seq<string>, h: string, b: seq<string>)
    requires |HeadingTitles(a)| >= 1
    requires IsTopHeading(h)
    requires Plain(b)
    ensures ScanLines(a + [h] + b).epics == ScanLines(a).epics + [Epic(HeadingTitle(h), TasksOf(b))]
  {
    EpicPerHeading(a);
    var prev, title := ScanLines(a), HeadingTitle(h);
    RunConcat(Start, a, [h]);
    assert [h][..0] == [];
    var withEpic := Run(Start, a + [h]);
    assert withEpic == Step(prev, Heading(title));
    assert withEpic == EpicScan(prev.epics + [Epic(title, [])], true, true);
    RunConcat(Start, a + [h], b);
    PlainLinesExtend(withEpic, b);
    ExtendFresh(prev.epics, title, TasksOf(b));
  }


  /** A BOM in front, or `\r\n` line ends instead of `\n`, change nothing. */
  lemma EpicsIgnoreBomAndCrlf(d: string)
    requires LfOnly(d)
    ensures EpicsOf(ToCrlf(d)) == EpicsOf(d)
    ensures (d == [] || d[0] != BOM) ==> EpicsOf([BOM] + d) == EpicsOf(d)
  {
    CrlfIgnored(d);
    if d == [] || d[0] != BOM {
      BomIgnored(d);
    }
  }

  predicate AllParsed(epics: seq<Epic>) {
    forall i :: 0 <= i < |epics| ==> ParsedEpic(epics[i])
  }

  lemma StepKeepsParsed(st: EpicScan, k: LineKind)
    requires WellFormed(st) && AllParsed(st.epics)
    requires k.Heading? ==> IsTrimmed(k.title)
    requires k.Other? && k.task.Some? ==> ParsedTask(k.task.value)
    ensures AllParsed(Step(st, k).epics)
  {
    if k.Other? && st.open && k.task.Some? {
      var r := Step(st, k).epics;
      forall i | 0 <= i < |r| ensures ParsedEpic(r[i]) {
        if i < |r| - 1 {
          assert r[i] == r[..|r| - 1][i] == st.epics[i];
        }
      }
    }
  }

  /**
    Every epic title is trimmed, and so is every task text; no task carries
    timing fields before the scanner joins them on.
  */
  lemma {:induction false} EpicsAreParsed(lines: seq<string>)
    ensures AllParsed(ScanLines(lines).epics)
    decreases |lines|
  {
    if lines != [] {
      var init := lines[..|lines| - 1];
      EpicsAreParsed(init);
      StepKeepsParsed(ScanLines(init), Classify(lines[|lines| - 1]));
    }
  }
}
