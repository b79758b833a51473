/**
  The decision logic of `scanProjects` (scan.js) once the files of a project
  folder are read: which framework files are missing, the project status,
  the join of history timings onto backlog tasks, and the priority order
  of the results.
*/
module Projects {
  import opened Wrappers
  import opened Text
  import opened Model
  import opened TaskKey
  import opened Epics
  import opened Progress
  import opened Readme
  import opened GitHub

  datatype ProjectStatus = BlockedProject | NeedsWork | InProgress | Complete

  /** The `missing` list, from whether each framework file exists. */
  function Missing(hasBacklog: bool, hasSnapshot: bool, hasReadme: bool): (missing: seq<string>)
    ensures missing == [] <==> hasBacklog && hasSnapshot && hasReadme
    ensures |missing| == (if hasBacklog then 0 else 1) + (if hasSnapshot then 0 else 1) + (if hasReadme then 0 else 1)
  {
    (if hasBacklog then [] else [".claude/BACKLOG.md (or content/BACKLOG.md)"])
    + (if hasSnapshot then [] else [".claude/SNAPSHOT.md (or content/SNAPSHOT.md)"])
    + (if hasReadme then [] else ["README.md"])
  }

  /** `epics.some(ep => ep.tasks.some(t => t.status === "blocked"))`. */
  predicate HasBlockers(epics: seq<Epic>) {
    exists i, j :: 0 <= i < |epics| && 0 <= j < |epics[i].tasks| && epics[i].tasks[j].status == Blocked
  }

  /**
    The status, by precedence: a blocked task wins over missing files, which
    win over open tasks; a project with none of these is complete.
  */
  function DecideStatus(epics: seq<Epic>, missing: seq<string>, metrics: Option<Metrics>): (s: ProjectStatus)
    ensures s == BlockedProject <==> HasBlockers(epics)
    ensures s == NeedsWork <==> !HasBlockers(epics) && missing != []
    ensures s == InProgress <==> !HasBlockers(epics) && missing == [] && metrics.Some? && metrics.value.left > 0
    ensures s == Complete <==> !HasBlockers(epics) && missing == [] && (metrics.None? || metrics.value.left == 0)
  {
    var hasOpenTasks := metrics.Some? && metrics.value.left > 0;
    if HasBlockers(epics) then BlockedProject
    else if |missing| > 0 then NeedsWork
    else if hasOpenTasks then InProgress
    else Complete
  }

  /** The `priority` table: blocked 0, needs work 1, in progress 2, complete 3. */
  function Rank(s: ProjectStatus): (r: nat)
    ensures r <= 3
    ensures (r == 0) == (s == BlockedProject) && (r == 3) == (s == Complete)
  {
    match s
    case BlockedProject => 0
    case NeedsWork => 1
    case InProgress => 2
    case Complete => 3
  }

  /** A higher status in the precedence of `DecideStatus` ranks earlier. */
  lemma RankFollowsPrecedence()
    ensures Rank(BlockedProject) < Rank(NeedsWork) < Rank(InProgress) < Rank(Complete)
  {
  }

  /** One task after the join: the history record of its key, if the key has one. */
  function JoinTask(t: Task, timings: map<string, Timing>): (r: Task)
    ensures r.status == t.status && r.text == t.text
  {
    var key := NormalizeTaskText(t.text);
    if key in timings then t.(timing := Some(timings[key])) else t
  }

  function JoinTasks(tasks: seq<Task>, timings: map<string, Timing>): (r: seq<Task>)
    ensures |r| == |tasks|
    ensures forall k :: 0 <= k < |r| ==> r[k] == JoinTask(tasks[k], timings)
  {
    seq(|tasks|, k requires 0 <= k < |tasks| => JoinTask(tasks[k], timings))
  }

  function JoinEpic(e: Epic, timings: map<string, Timing>): (r: Epic)
    ensures r.title == e.title && r.tasks == JoinTasks(e.tasks, timings)
  {
    e.(tasks := JoinTasks(e.tasks, timings))
  }

  /** Every epic after the join. */
  function Joined(epics: seq<Epic>, timings: map<string, Timing>): (r: seq<Epic>)
    ensures |r| == |epics|
    ensures forall i :: 0 <= i < |r| ==> r[i] == JoinEpic(epics[i], timings)
  {
    seq(|epics|, i requires 0 <= i < |epics| => JoinEpic(epics[i], timings))
  }

  /** The inner loop of the join: `task.started_at = ...` for each task whose key has a record. */
  method JoinEpicTasks(tasks: seq<Task>, timings: map<string, Timing>) returns (r: seq<Task>)
    ensures r == JoinTasks(tasks, timings)
  {
    r := tasks;
    for j := 0 to |tasks|
      invariant |r| == |tasks|
      invariant forall k :: 0 <= k < j ==> r[k] == JoinTask(tasks[k], timings)
      invariant forall k :: j <= k < |tasks| ==> r[k] == tasks[k]
    {
      r := r[j := JoinTask(r[j], timings)];
    }
  }

  /** The join over all epics: each epic's task list is updated in place, in turn. */
  method JoinTimings(epics: array<Epic>, timings: map<string, Timing>)
    modifies epics
    ensures epics[..] == Joined(old(epics[..]), timings)
  {
    for i := 0 to epics.Length
      invariant forall k :: 0 <= k < i ==> epics[k] == JoinEpic(old(epics[k]), timings)
      invariant forall k :: i <= k < epics.Length ==> epics[k] == old(epics[k])
    {
      var tasks := JoinEpicTasks(epics[i].tasks, timings);
      epics[i] := epics[i].(tasks := tasks);
    }
  }

  /** The join changes no title, no task count, no status and no text. */
  lemma JoinKeepsTasks(epics: seq<Epic>, timings: map<string, Timing>)
    ensures var r := Joined(epics, timings);
      |r| == |epics|
      && forall i :: 0 <= i < |r| ==>
        r[i].title == epics[i].title && |r[i].tasks| == |epics[i].tasks|
        && forall j :: 0 <= j < |r[i].tasks| ==>
          r[i].tasks[j].status == epics[i].tasks[j].status && r[i].tasks[j].text == epics[i].tasks[j].text
  {
  }

  /**
    On parsed epics, whose tasks carry no timing yet, a task has timing
    fields after the join iff its normalized text is a key of the history,
    and then they are the history's record for that key.
  */
  lemma JoinTimingIffKey(epics: seq<Epic>, timings: map<string, Timing>, i: nat, j: nat)
    requires AllParsed(epics) && i < |epics| && j < |epics[i].tasks|
    ensures var t := Joined(epics, timings)[i].tasks[j];
      var key := NormalizeTaskText(epics[i].tasks[j].text);
      (t.timing.Some? <==> key in timings) && (key in timings ==> t.timing.value == timings[key])
  {
    assert epics[i].tasks[j] in epics[i].tasks;
  }

  /** Joining twice is joining once. */
  lemma JoinIdempotent(epics: seq<Epic>, timings: map<string, Timing>)
    ensures Joined(Joined(epics, timings), timings) == Joined(epics, timings)
  {
    var r := Joined(epics, timings);
    forall i | 0 <= i < |r| ensures JoinEpic(r[i], timings) == r[i] {
      assert JoinTasks(r[i].tasks, timings) == r[i].tasks;
    }
  }

  /** One entry of the results list. `recent_commits` is not part of this model. */
  datatype ProjectSummary = ProjectSummary(
    id: string,
    status: ProjectStatus,
    metrics: Option<Metrics>,
    currentTask: string,
    title: string,
    description: string,
    missingFiles: seq<string>,
    epics: seq<Epic>,
    githubRepo: Option<Repo>)

  /**
    One folder of `scanProjects`, from what reading it gave: the backlog and
    README texts when those files exist, whether a snapshot exists, the
    history timings and the `origin` URL. A folder with none of the three
    files is not a project.
  */
  function ProjectOf(name: string, backlog: Option<string>, hasSnapshot: bool, readme: Option<string>,
                     timings: map<string, Timing>, remoteUrl: Option<string>): (r: Option<ProjectSummary>)
    ensures r.None? <==> backlog.None? && !hasSnapshot && readme.None?
    ensures r.Some? ==> r.value.missingFiles == Missing(backlog.Some?, hasSnapshot, readme.Some?)
    ensures r.Some? && backlog.Some? ==> r.value.metrics == Some(BacklogOf(backlog.value).metrics)
    ensures r.Some? && backlog.None? ==> r.value.metrics.None? && r.value.epics == [] && r.value.currentTask == ""
  {
    if backlog.None? && !hasSnapshot && readme.None? then None
    else
      var missing := Missing(backlog.Some?, hasSnapshot, readme.Some?);
      var metrics := if backlog.Some? then Some(BacklogOf(backlog.value).metrics) else None;
      var currentTask := if backlog.Some? then BacklogOf(backlog.value).currentTask else "";
      var epics := if backlog.Some? then EpicsOf(backlog.value) else [];
      var info := if readme.Some? then ReadmeOf(readme.value) else ReadmeInfo("", "");
      var title := if info.title != "" then info.title else name;
      var status := DecideStatus(epics, missing, metrics);
      var repo := if remoteUrl.Some? then ParseGitHubRepo(Trim(remoteUrl.value)) else None;
      Some(ProjectSummary(name, status, metrics, currentTask, title, info.description, missing,
                          Joined(epics, timings), repo))
  }

  /** The status is decided on the parsed epics; the join does not change it. */
  lemma JoinKeepsBlockers(epics: seq<Epic>, timings: map<string, Timing>)
    ensures HasBlockers(Joined(epics, timings)) <==> HasBlockers(epics)
  {
    JoinKeepsTasks(epics, timings);
    var r := Joined(epics, timings);
    if HasBlockers(epics) {
      var i, j :| 0 <= i < |epics| && 0 <= j < |epics[i].tasks| && epics[i].tasks[j].status == Blocked;
      assert r[i].tasks[j].status == Blocked;
    }
    if HasBlockers(r) {
      var i, j :| 0 <= i < |r| && 0 <= j < |r[i].tasks| && r[i].tasks[j].status == Blocked;
      assert epics[i].tasks[j].status == Blocked;
    }
  }

  /**
    A complete project has every framework file, no blocked task under an
    epic and no unchecked box in its backlog.
  */
  lemma CompleteProject(name: string, backlog: Option<string>, hasSnapshot: bool, readme: Option<string>,
                        timings: map<string, Timing>, remoteUrl: Option<string>)
    requires ProjectOf(name, backlog, hasSnapshot, readme, timings, remoteUrl).Some?
    requires ProjectOf(name, backlog, hasSnapshot, readme, timings, remoteUrl).value.status == Complete
    ensures backlog.Some? && hasSnapshot && readme.Some?
    ensures BacklogOf(backlog.value).metrics.left == 0
    ensures !HasBlockers(ProjectOf(name, backlog, hasSnapshot, readme, timings, remoteUrl).value.epics)
  {
    JoinKeepsBlockers(EpicsOf(backlog.value), timings);
  }

  /** The title the README gives, or the folder name when it gives none. */
  lemma TitleFallsBackToName(name: string, backlog: Option<string>, hasSnapshot: bool, readme: Option<string>,
                             timings: map<string, Timing>, remoteUrl: Option<string>)
    requires ProjectOf(name, backlog, hasSnapshot, readme, timings, remoteUrl).Some?
    ensures var t := ProjectOf(name, backlog, hasSnapshot, readme, timings, remoteUrl).value.title;
      (readme.Some? && ReadmeOf(readme.value).title != "" ==> t == ReadmeOf(readme.value).title)
      && (readme.None? || ReadmeOf(readme.value).title == "" ==> t == name)
  {
  }

  predicate SortedByRank(s: seq<ProjectSummary>) {
    forall i, j :: 0 <= i < j < |s| ==> Rank(s[i].status) <= Rank(s[j].status)
  }

  /** Swaps two neighbours. */
  method SwapDown(a: array<ProjectSummary>, j: nat)
    requires 0 < j < a.Length
    modifies a
    ensures a[..] == old(a[..])[j - 1 := old(a[j])][j := old(a[j - 1])]
    ensures multiset(a[..]) == multiset(old(a[..]))
  {
    a[j - 1], a[j] := a[j], a[j - 1];
  }

  /** The prefix `s[..i + 1]` is ordered by rank except for the entry at `j`, which is below all after it. */
  predicate SortedExcept(s: seq<ProjectSummary>, i: nat, j: nat)
    requires j <= i < |s|
  {
    forall k, l :: 0 <= k < l <= i && l != j ==> Rank(s[k].status) <= Rank(s[l].status)
  }

  /** Swapping the entry at `j` with a higher-ranked left neighbour moves the gap one place down. */
  lemma SwapKeepsSortedExcept(s: seq<ProjectSummary>, i: nat, j: nat)
    requires 0 < j <= i < |s| && SortedExcept(s, i, j)
    requires Rank(s[j - 1].status) > Rank(s[j].status)
    ensures SortedExcept(s[j - 1 := s[j]][j := s[j - 1]], i, j - 1)
  {
    var t := s[j - 1 := s[j]][j := s[j - 1]];
    forall k, l | 0 <= k < l <= i && l != j - 1 ensures Rank(t[k].status) <= Rank(t[l].status) {
      if l == j {
        if k < j - 1 {
          assert t[k] == s[k] && t[l] == s[j - 1];
        } else {
          assert k == j - 1 && t[k] == s[j] && t[l] == s[j - 1];
        }
      } else if k == j - 1 {
        assert t[k] == s[j] && t[l] == s[l];
        assert Rank(s[j - 1].status) <= Rank(s[l].status);
      } else if k == j {
        assert t[k] == s[j - 1] && t[l] == s[l];
      } else {
        assert t[k] == s[k] && t[l] == s[l];
      }
    }
  }

  /** Once the entry at `j` is not below its left neighbour, the whole prefix is ordered. */
  lemma SortedExceptDone(s: seq<ProjectSummary>, i: nat, j: nat)
    requires j <= i < |s| && SortedExcept(s, i, j)
    requires j > 0 ==> Rank(s[j - 1].status) <= Rank(s[j].status)
    ensures SortedByRank(s[..i + 1])
  {
    var p := s[..i + 1];
    forall k, l | 0 <= k < l < |p| ensures Rank(p[k].status) <= Rank(p[l].status) {
      assert p[k] == s[k] && p[l] == s[l];
      if l == j {
        assert Rank(s[k].status) <= Rank(s[j - 1].status) by {
          if k < j - 1 { assert SortedExcept(s, i, j); }
        }
      }
    }
  }

  /** The inner loop of insertion: moves `a[i]` down past every entry of higher rank. */
  method InsertNext(a: array<ProjectSummary>, i: nat)
    requires i < a.Length && SortedByRank(a[..i])
    modifies a
    ensures SortedByRank(a[..i + 1])
    ensures forall k :: i < k < a.Length ==> a[k] == old(a[k])
    ensures multiset(a[..]) == multiset(old(a[..]))
  {
    var j := i;
    assert SortedExcept(a[..], i, j) by {
      forall k, l | 0 <= k < l <= i && l != j ensures Rank(a[..][k].status) <= Rank(a[..][l].status) {
        assert a[..i][k] == a[k] && a[..i][l] == a[l];
      }
    }
    while j > 0 && Rank(a[j - 1].status) > Rank(a[j].status)
      invariant 0 <= j <= i
      invariant SortedExcept(a[..], i, j)
      invariant forall k :: i < k < a.Length ==> a[k] == old(a[k])
      invariant multiset(a[..]) == multiset(old(a[..]))
    {
      SwapKeepsSortedExcept(a[..], i, j);
      SwapDown(a, j);
      j := j - 1;
    }
    SortedExceptDone(a[..], i, j);
  }

  /** `results.sort(...)` on the rank of each status. */
  method SortByPriority(a: array<ProjectSummary>)
    modifies a
    ensures SortedByRank(a[..])
    ensures multiset(a[..]) == multiset(old(a[..]))
  {
    for i := 0 to a.Length
      invariant SortedByRank(a[..i])
      invariant multiset(a[..]) == multiset(old(a[..]))
    {
      InsertNext(a, i);
    }
    assert a[..a.Length] == a[..];
  }

  /** What reading one top-level folder gave: the inputs of `ProjectOf`. */
  datatype Folder = Folder(name: string, backlog: Option<string>, hasSnapshot: bool, readme: Option<string>,
                           timings: map<string, Timing>, remoteUrl: Option<string>)

  function SummaryOf(f: Folder): Option<ProjectSummary> {
    ProjectOf(f.name, f.backlog, f.hasSnapshot, f.readme, f.timings, f.remoteUrl)
  }

  /** The summary of every folder, `None` for a folder that is not a project. */
  function Attempts(fs: seq<Folder>): (a: seq<Option<ProjectSummary>>)
    ensures |a| == |fs| && forall i :: 0 <= i < |fs| ==> a[i] == SummaryOf(fs[i])
  {
    seq(|fs|, i requires 0 <= i < |fs| => SummaryOf(fs[i]))
  }

  /** The values that are present, in order. */
  function Present(opts: seq<Option<ProjectSummary>>): (r: seq<ProjectSummary>)
    ensures |r| <= |opts|
    decreases |opts|
  {
    if opts == [] then []
    else
      var last := opts[|opts| - 1];
      Present(opts[..|opts| - 1]) + (if last.Some? then [last.value] else [])
  }

  lemma {:induction false} PresentIff(opts: seq<Option<ProjectSummary>>)
    ensures forall s :: s in Present(opts) <==> exists i :: 0 <= i < |opts| && opts[i] == Some(s)
    decreases |opts|
  {
    if opts != [] {
      var init := opts[..|opts| - 1];
      PresentIff(init);
      forall s ensures s in Present(opts) <==> exists i :: 0 <= i < |opts| && opts[i] == Some(s) {
        if s in Present(init) {
          var i :| 0 <= i < |init| && init[i] == Some(s);
          assert opts[i] == init[i];
        }
        if exists i :: 0 <= i < |opts| && opts[i] == Some(s) {
          var i :| 0 <= i < |opts| && opts[i] == Some(s);
          if i < |init| {
            assert init[i] == opts[i];
          }
        }
      }
    }
  }

  /** The `results` list before sorting: one summary per project folder, in folder order. */
  function Summaries(fs: seq<Folder>): (r: seq<ProjectSummary>)
    ensures |r| <= |fs|
  {
    Present(Attempts(fs))
  }

  /** Every summary comes from a project folder, and every project folder gives one. */
  lemma SummariesAreProjects(fs: seq<Folder>)
    ensures forall s :: s in Summaries(fs) <==> exists i :: 0 <= i < |fs| && SummaryOf(fs[i]) == Some(s)
  {
    PresentIff(Attempts(fs));
  }

  /**
    The loop of `scanProjects` over the folders, then the sort: the results
    are the projects' summaries, ordered by status rank.
  */
  method ScanProjects(fs: seq<Folder>) returns (results: array<ProjectSummary>)
    ensures SortedByRank(results[..])
    ensures multiset(results[..]) == multiset(Summaries(fs))
  {
    ghost var attempts := Attempts(fs);
    var list: seq<ProjectSummary> := [];
    for i := 0 to |fs|
      invariant list == Present(attempts[..i])
    {
      var summary := SummaryOf(fs[i]);
      assert attempts[..i + 1][..i] == attempts[..i] && attempts[i] == summary;
      if summary.Some? {
        list := list + [summary.value];
      }
    }
    assert attempts[..|fs|] == attempts;
    results := new ProjectSummary[|list|](k requires 0 <= k < |list| => list[k]);
    assert results[..] == list;
    SortByPriority(results);
  }
}
