# Meridian project scanner, modelled in Dafny

Meridian is a dashboard over a folder of projects. For each top-level
project folder it reads up to three framework files: a backlog, a snapshot
and a README. From these and from the folder's git history it builds one
summary per project, then sorts the summaries by priority. This model
covers the parts of that scan that compute, not the parts that read files
or start processes:

- **Backlog parsing** (`parseBacklog.js`):
  - `parseEpics` turns the backlog's markdown into epics. An epic is a
    top-level `#` heading after the first one, and its tasks are the
    `- [x]`, `- [!]` and `- [ ]` checkbox lines under it.
  - `parseBacklog` counts the done and open checkboxes, computes the
    rounded progress percentage and reads the task under the
    `## Current` heading.
- **README parsing** (`parseReadme.js`): the README's title, which is the
  first `# ` heading, and its description, which is the first paragraph
  after the headings.
- **The decision logic of `scan.js`**:
  - the task key `normalizeTaskText`;
  - the fold over `git log -p` output that dates when each task was added
    and when it was checked off;
  - the parsing of the `origin` remote URL into a GitHub owner and
    repository;
  - the list of missing framework files and the status precedence;
  - the join of history timings onto backlog tasks;
  - the priority sort of the results.

The model's modules follow the structure of the program:

- `Text`: the JavaScript string primitives the code relies on (`trim`,
  `toLowerCase`, `split`, `join`, line splitting on `\r?\n`).
- `Markdown`: the line patterns the regular expressions recognise
  (headings and checkboxes).
- `Epics` and `Progress`: the two backlog parsers.
- `Readme`: the README parser.
- `TaskKey`: the task key.
- `Timings`: the history fold.
- `GitHub`: the remote-URL parser.
- `Projects`: the per-folder summary, the status, the join and the sort.

Each loop of the source is a Dafny `method` with loop invariants; the loop
over project folders is `Projects.ScanProjects`. The parsing and history
methods are proved equal to a specification function, and the properties
the program promises are proved as lemmas about those functions. The sort
methods are instead proved to leave the array ordered by rank and to
permute it. The in-place updates of `scan.js` (the join and the sort) work
on arrays.

Whitespace is the ASCII whitespace set on which JavaScript's `\s` and
`trim()` agree: space, tab, line feed, vertical tab, form feed and carriage
return. The regular-expression dot matches any character except `\n` and
`\r`.

## Model

| member | source | states |
|---|---|---|
| Text.Trim | parseBacklog.js:46 | the result is trimmed, is the input with its leading and trailing whitespace removed (both runs blank), and is empty exactly when the input is blank |
| Text.Lower | scan.js:38 | same length as the input; each character is lowered, and a lowered character is never upper-case |
| Text.JoinSplit | scan.js:60 | splitting the log on a separator loses nothing: the parts joined with it give back the text |
| Text.SplitLinesBySplit | parseBacklog.js:3 | splitting on `\r?\n` gives as many lines as splitting on `\n`; each part that a `\n` ends loses one final `\r`, and the last part is kept whole |
| Text.CrlfSameLines | parseBacklog.js:3 | a text with LF line ends splits into the same lines as its CRLF form, provided no `\r` stands right before a `\n` |
| Text.CrBeforeCrlfKeepsCr | parseBacklog.js:3 | counterexample: `"a\r\r\nb"` keeps a `\r` on its first line, so CRLF conversion is not invisible in general |
| Markdown.BacklogLines | parseBacklog.js:3 | the backlog drops one leading byte-order mark, then has as many lines as parts of `split("\n")`: each ending part loses one final `\r`, the last part is kept whole |
| Markdown.BomIgnored | parseBacklog.js:3 | a leading byte-order mark does not change the backlog's lines |
| Markdown.CrlfIgnored | parseBacklog.js:3 | CRLF line ends give the same backlog lines as LF ones |
| Markdown.HeadingTitle | parseBacklog.js:11 | an epic title is trimmed, and for a top heading it is the trimmed text after the `#` |
| Markdown.SubHeadingIsNotTop | parseBacklog.js:9-15 | a `##` line is never an epic heading |
| Markdown.BoxAtComplete | parseBacklog.js:17-22 | a list marker, non-empty blanks, then `[c]` are always recognised as a checkbox with mark `c` and the rest of the line |
| Markdown.TextTailComplete | parseBacklog.js:17-22 | blanks followed by a non-empty one-line text always give a captured task text, which trims to the trimmed text |
| Markdown.CheckboxText | parseBacklog.js:17-22 | a captured task text is trimmed and single-line, and comes from a checkbox whose mark belongs to the requested status |
| Markdown.CheckboxKindsExclusive | parseBacklog.js:17-22 | no line is a task line of two different statuses |
| Markdown.ClassifyCheckbox | parseBacklog.js:17-22 | the result is the one status whose checkbox pattern matches the line, with that pattern's text, or nothing when no pattern matches |
| Markdown.TaskLinesAreCounted | parseBacklog.js:35-36 | every epic task line is also counted by the metrics counter of its status |
| Markdown.CountedLineWithoutText | parseBacklog.js:35 | counterexample: `- [x] ` with no text is counted as done but gives no epic task |
| Markdown.HistoryText | scan.js:70-71 | a capture comes from a checkbox whose mark belongs to the status, after leading whitespace, and is a proper suffix of the added line |
| Markdown.HistoryReadsTaskLines | scan.js:70-71 | the history patterns capture every backlog task line, and the capture trims to the task text |
| Markdown.HistoryIgnoresIndent | scan.js:70-71 | leading whitespace before a checkbox does not change what the history patterns capture |
| Markdown.IndentedCheckbox | scan.js:70 | an indented `- [ ] a` is no epic task, yet the history pattern captures `a` from it |
| Epics.LineTask | parseBacklog.js:17-22 | a line yields a task exactly when one checkbox pattern matches it; the task has that status and the trimmed capture as text |
| Epics.Classify | parseBacklog.js:9-15 | a line is an epic heading exactly when it is a top heading, and a sub-heading exactly when it starts with `##` |
| Epics.ParseEpics | parseBacklog.js:2-26 | the loop's epics are those of the fold that specifies `parseEpics` |
| Epics.Step | parseBacklog.js:9-22 | a top heading opens a new empty epic once the title has been seen, a `##` heading closes the open epic, other lines only touch the last epic while one is open; earlier epics are never changed |
| Epics.RunConcat | parseBacklog.js:8-23 | scanning two blocks of lines is scanning the first block and then continuing with the second |
| Epics.ExtendTwice | parseBacklog.js:18-22 | adding tasks to the open epic in two batches is adding them in one |
| Epics.HeadingAgrees | parseBacklog.js:9-13 | after a top heading, the epic titles are those of every top heading but the first |
| Epics.OtherAgrees | parseBacklog.js:15-22 | a line that is not a top heading adds no epic |
| Epics.EpicPerHeading | parseBacklog.js:9-13 | there is one epic per top heading except the first, in order, each titled by its heading |
| Epics.NoEpicsBeforeSecondHeading | parseBacklog.js:10 | a backlog with at most one top heading has no epics; the first heading is the document title |
| Epics.BeforeSecondHeadingForgotten | parseBacklog.js:10 | what comes before the second top heading has no effect on the epics that follow |
| Epics.PlainLinesExtend | parseBacklog.js:16-22 | lines with no heading add their tasks, in order, to the open epic, and change nothing when no epic is open |
| Epics.ClosedIgnoresLines | parseBacklog.js:16 | with no epic open, lines up to the next top heading change nothing |
| Epics.SubHeadingDropsTasks | parseBacklog.js:15 | a `##` heading closes the epic, so no task after it is collected until the next top heading |
| Epics.NewEpicCollectsSegment | parseBacklog.js:11-22 | a top heading after the first one opens a new epic whose tasks are exactly the task lines that follow it up to the next heading |
| Epics.EpicsIgnoreBomAndCrlf | parseBacklog.js:3 | a leading byte-order mark and CRLF line ends do not change the epics |
| Epics.StepKeepsParsed | parseBacklog.js:11-22 | one line keeps every epic title and task text trimmed, and keeps every task without timing |
| Epics.EpicsAreParsed | parseBacklog.js:2-26 | every parsed title and task text is trimmed and no parsed task carries timing |
| Progress.CountedKindsExclusive | parseBacklog.js:35-36 | no line is counted both as done and as open (`else if`) |
| Progress.CountersBounded | parseBacklog.js:34-37 | done plus open plus blocked boxes never exceed the number of lines |
| Progress.ProgressPercent | parseBacklog.js:39-40 | the percentage is `done / total * 100` rounded half up, between 0 and 100; it is 0 with nothing done and 100 with nothing left |
| Progress.PercentBounds | parseBacklog.js:40 | a rounded ratio of a part to its whole lies between 0 and 100; it is 0 when the part is 0 and 100 when it is the whole |
| Progress.FindCurrent | parseBacklog.js:43 | the index is that of the first line whose trim is a `## Current` heading, and no line is one when the result is absent |
| Progress.StripListMarker | parseBacklog.js:49 | a leading `-` or `*` and the blanks after it are removed, and nothing else |
| Progress.CurrentTaskAfter | parseBacklog.js:45-51 | the current task is always trimmed |
| Progress.CurrentTaskSkipsBlank | parseBacklog.js:47 | blank lines after the `## Current` heading are passed over |
| Progress.CurrentTaskIsFirstLineAfter | parseBacklog.js:44-51 | the current task is the first non-blank line after the heading without its list marker, or empty when that line starts a `## ` section |
| Progress.NoCurrentTask | parseBacklog.js:42-44 | with no `## Current` heading, or only blank lines after it, the current task is empty |
| Progress.CurrentHeadingForms | parseBacklog.js:43 | `## Current` and `##cURRENT` are current headings; `### Current` and `## Current task` are not |
| Progress.CountCheckboxes | parseBacklog.js:34-37 | the loop's counters are the numbers of done and open checkbox lines |
| Progress.FindCurrentTask | parseBacklog.js:42-52 | the loop's current task is that of the specification |
| Progress.ParseBacklog | parseBacklog.js:28-58 | the result is the specified metrics and current task |
| Progress.BacklogIgnoresBomAndCrlf | parseBacklog.js:29 | a leading byte-order mark and CRLF line ends do not change the metrics or the current task |
| Progress.ParsedTasksAreCounted | parseBacklog.js:17-22 | the epics never hold more tasks of a status than the metrics counter of that status counts lines |
| TaskKey.RemoveTags | scan.js:35-36 | removing tags never lengthens the text |
| TaskKey.RemoveTagsDeletes | scan.js:35-36 | tag removal only deletes characters: the result's characters are a sub-multiset of the input's |
| TaskKey.NormalizeTaskText | scan.js:33-39 | a task key is trimmed and has no upper-case letter |
| TaskKey.NormalizeIgnoresCase | scan.js:35-38 | two texts that lower to the same string have the same key |
| TaskKey.NormalizeOfLower | scan.js:35-38 | lowering a text first does not change its key, since the tag patterns ignore case |
| TaskKey.RemoveTagsOfLower | scan.js:35-36 | tag removal commutes with lowering |
| TaskKey.WholeTagRemoved | scan.js:35-36 | a tag with a non-empty value and no `]` in it is removed entirely |
| TaskKey.ActualKeptByEstPass | scan.js:35 | the `[est:` pass leaves an `[actual:` tag untouched |
| TaskKey.AnnotationIgnored | scan.js:33-39 | appending ` [est:v]` or ` [actual:v]`, in any case, does not change a task's key |
| TaskKey.KeyExamples | scan.js:33-39 | `Fix bug [est:2h]` and `Fix Bug [actual:3h]` both have the key of `fix bug` |
| Timings.MarkerTimestamp | scan.js:62-63 | a commit line's timestamp is present exactly when its third field is not blank, and is that field trimmed |
| Timings.EventOf | scan.js:61-83 | a line means a commit marker when it starts `COMMIT\x1f`; otherwise an added line means a pending or done task, the pending pattern winning, keyed by the normalized capture |
| Timings.Apply | scan.js:61-83 | a commit marker sets the timestamp in force; only a stamped pending or done line of a key changes that key's record; a pending line sets `started_at` and keeps `completed_at`; a done line sets `completed_at` once and keeps `started_at`; no key is dropped |
| Timings.ReplayIsPositional | scan.js:57-84 | the fold's record for a key is the one given by positions: it is present exactly when some stamped line adds the key; `started_at` is the stamp of the last pending line and `completed_at` the stamp of the first done line |
| Timings.StampIsLastMarker | scan.js:58-66 | the timestamp in force at each line is that of the last commit marker before it |
| Timings.KeyPresentIffAdded | scan.js:73-83 | a key has a record exactly when some line under a dated commit adds it, pending or done |
| Timings.StartedAtIsLastPending | scan.js:73-77 | `started_at` is the date of the last pending line in the log, which is the oldest commit |
| Timings.NoPendingNoStart | scan.js:73-77 | a key with no stamped pending line has no `started_at` |
| Timings.CompletedAtIsFirstDone | scan.js:78-83 | `completed_at` is the date of the first done line in the log, which is the newest commit |
| Timings.NoDoneNoCompletion | scan.js:78-83 | a key with no stamped done line has no `completed_at` |
| Timings.UnstampedLinesIgnored | scan.js:66 | lines before any dated commit marker leave no record |
| Timings.TwoCommitExample | scan.js:57-84 | a task added in commit t1 and checked off in the newer t2 gets `started_at` t1 and `completed_at` t2 |
| Timings.RoundHours | scan.js:88 | milliseconds are rounded half up to whole hours |
| Timings.WithElapsed | scan.js:86-92 | elapsed hours are present exactly when both stamps exist and both dates parse, and are then the rounded absolute difference; the stamps are unchanged |
| Timings.ElapsedSymmetric | scan.js:88 | swapping the two stamps gives the same elapsed hours |
| Timings.Finalize | scan.js:86-92 | the final pass keeps every key, and each record becomes the folded record with its elapsed hours |
| Timings.FinalizeTimings | scan.js:86-92 | the loop over keys computes the final pass |
| Timings.TimingsArePositional | scan.js:57-92 | in the final map of a log, a key is present exactly when some stamped line adds it, its stamps are the last pending and first done dates, and its elapsed hours are computed from them |
| Timings.ElapsedIffBothStamps | scan.js:57-92 | in the final map, elapsed hours exist exactly when both stamps exist and parse |
| Timings.ScanHistoryLine | scan.js:61-83 | one loop iteration is one step of the fold |
| Timings.ReconstructTimings | scan.js:57-92 | the loop and the final pass compute the specified timings of the log text |
| GitHub.Leftmost | scan.js:13-14 | the first position at which a pattern matches, with no match before it |
| GitHub.StrictAt | scan.js:13 | a strict match at a position gives a non-empty repository name with no `/` and no `.` |
| GitHub.LooseAt | scan.js:14 | a loose match gives a non-empty single-line repository name |
| GitHub.StrictShaped | scan.js:13 | a strict match is `github.com`, `:` or `/`, an owner without `/`, `/`, then the name |
| GitHub.LooseShaped | scan.js:14 | a loose match has the same shape |
| GitHub.ParseGitHubRepo | scan.js:10-17 | a parsed owner is non-empty and has no `/`, and a parsed repository is non-empty |
| GitHub.ResultIsShaped | scan.js:12-16 | every parsed result has that shape at some position of the URL |
| GitHub.NullIffNoMatch | scan.js:15 | the result is null exactly when neither pattern matches anywhere |
| GitHub.StrictWins | scan.js:12-14 | when the strict pattern matches anywhere, the result is its match and has no `.` in the name |
| GitHub.StrictFirst | scan.js:13 | the result is the leftmost strict match |
| GitHub.LooseFirst | scan.js:14 | with no strict match, the result is the leftmost loose match |
| GitHub.NoShapeNoRepo | scan.js:15 | a URL with no `github.com` owner segment followed by a name gives null |
| GitHub.RemoteParsed | scan.js:13 | the first `github.com` followed by `owner/name`, with an optional `.git`, gives that owner and name |
| GitHub.HttpsRemote | scan.js:11 | `https://github.com/owner/repo(.git)` gives owner and repo |
| GitHub.SshRemote | scan.js:11 | `git@github.com:owner/repo(.git)` gives owner and repo |
| GitHub.DottedNotStrictAnywhere | scan.js:13 | a repository name with a dot matches no strict pattern |
| GitHub.DottedHttpsRemote | scan.js:14 | a dotted name such as `my.site.git` is still parsed, by the loose pattern, without its `.git` |
| Readme.ReadmeLines | parseReadme.js:2 | the README splits into at least one line, none with a line feed; there are as many lines as parts of `split("\n")`, each ending part loses one final `\r` and the last part is kept whole |
| Readme.TitleMatch | parseReadme.js:6 | a title line starts with `#` and whitespace; the title is the rest trimmed |
| Readme.TitleMatchSound | parseReadme.js:6 | a recognised title line has the regular expression's shape |
| Readme.TitleMatchComplete | parseReadme.js:6 | every line of that shape is recognised |
| Readme.SubHeadingGivesNoTitle | parseReadme.js:6 | a `##` line never gives the title |
| Readme.FirstTitleLine | parseReadme.js:5-11 | the title comes from the first matching line, and there is no title when no line matches |
| Readme.TitleOf | parseReadme.js:4-11 | the title is trimmed, and empty when no line matches |
| Readme.Lead | parseReadme.js:17-23 | the lines before the paragraph are exactly those skipped: blank, or headings when a title exists |
| Readme.Run | parseReadme.js:24-27 | the paragraph takes the trimmed non-blank lines up to the first blank one |
| Readme.FindTitle | parseReadme.js:4-11 | the loop's title is that of the specification |
| Readme.CollectParagraph | parseReadme.js:13-28 | the loop's buffer is the specified paragraph |
| Readme.ParseReadme | parseReadme.js:1-32 | the result is the specified title and description |
| Readme.TitleIsFirstMatch | parseReadme.js:5-11 | the title is the trimmed text of the first matching line |
| Readme.ParagraphStartsAt | parseReadme.js:17-23 | the paragraph starts at the first line that is not skipped |
| Readme.EmptyDescription | parseReadme.js:17-30 | when every line is skipped, the description is empty |
| Readme.DescriptionIsJoinedParagraph | parseReadme.js:30 | the description is the paragraph's lines joined by spaces, and empty exactly when the paragraph is |
| Readme.DescriptionHasNoNewline | parseReadme.js:30 | the description has no line feed |
| Readme.UntitledHeadingOpensDescription | parseReadme.js:19 | without a title, a heading line is not skipped and can open the description |
| Readme.TitledHeadingsPassedOver | parseReadme.js:19-20 | with a title, blank lines and every `#` line before the paragraph are passed over |
| Readme.CrlfIgnored | parseReadme.js:2 | CRLF line ends give the same title and description as LF ones |
| Readme.BomHidesFirstLineTitle | parseReadme.js:2 | a byte-order mark is not stripped, so a title on the first line is not recognised |
| Readme.LoneCarriageReturnKept | parseReadme.js:26 | a lone `\r` inside a line stays in the description |
| Projects.Missing | scan.js:169-172 | nothing is missing exactly when all three files exist, and there is one message per missing file |
| Projects.DecideStatus | scan.js:194-199 | blocked exactly when a task is blocked; needs work when none is but a file is missing; in progress when neither holds and tasks are open; complete otherwise |
| Projects.Rank | scan.js:231 | blocked ranks 0 and complete ranks 3 |
| Projects.RankFollowsPrecedence | scan.js:231 | the priority order of statuses follows their precedence |
| Projects.JoinTimings | scan.js:202-211 | the array of epics ends up as the specified join of the old epics with the timings map |
| Projects.JoinTask | scan.js:204-209 | the join never changes a task's status or text |
| Projects.JoinEpicTasks | scan.js:203-210 | the inner loop joins every task of an epic |
| Projects.JoinKeepsTasks | scan.js:202-211 | the join keeps every epic title, task count, status and text |
| Projects.JoinTimingIffKey | scan.js:204-209 | a parsed task gets timing exactly when its key has a record, and then gets that record |
| Projects.JoinIdempotent | scan.js:202-211 | joining twice is joining once |
| Projects.JoinKeepsBlockers | scan.js:194-211 | deciding the status before the join gives the same answer as after it |
| Projects.ProjectOf | scan.js:155-228 | a folder is a project exactly when one of the three files exists; the missing list and metrics come from the files that exist |
| Projects.CompleteProject | scan.js:194-199 | a complete project has all three files, no open box and no blocked task |
| Projects.TitleFallsBackToName | scan.js:185-191 | the title is the README's title, or the folder name when the README gives none |
| Projects.Summaries | scan.js:155-228 | there are never more summaries than folders |
| Projects.SummariesAreProjects | scan.js:155-228 | a summary is present exactly when some folder yields it |
| Projects.SwapKeepsSortedExcept | scan.js:232-237 | swapping down the entry being inserted keeps every other pair of the prefix in rank order |
| Projects.SortedExceptDone | scan.js:232-237 | once the inserted entry is in place, the prefix is sorted |
| Projects.InsertNext | scan.js:232-237 | one insertion step extends the sorted prefix by one entry and permutes the array |
| Projects.SortByPriority | scan.js:231-237 | the results end up ordered by status rank and are a permutation of the input |
| Projects.ScanProjects | scan.js:151-240 | the results are ordered by status rank and are a permutation of the summaries of the folders that are projects |

## Left out

- Reading files, probing for them, listing folders, and running `git`
  (`exists`, `readText`, `getTopLevelDirs`, `execFile`). `Projects.ProjectOf`
  takes the backlog and README texts, whether a snapshot exists, the
  timings map and the `origin` URL as parameters. Only the first candidate
  of each kind is probed, because `candidates.find` takes the first. So a
  backlog under `content/` alone is reported missing, and the model keeps
  that behaviour. `Projects.ScanProjects` likewise takes one `Folder` value
  per directory, holding those same inputs.
- `getTaskTimings` picks the backlog path before it runs `git log`. That
  part is I/O. The model starts from the log's text.
- `getGitLog` and the `recent_commits` field. The summary does not carry
  them.
- `new Date(...)` is the parameter `toMillis`, which returns no value for
  a date that does not parse. In the source such a date gives `NaN` hours.
  The model gives no elapsed hours, which is what `NaN` becomes in JSON.
- Floating point: `Progress.ProgressPercent` and `Timings.RoundHours` do
  exact rational round-half-up. `Math.round` on a double can differ at
  exact halves that the quotient does not represent exactly.
- Unicode: whitespace beyond ASCII, `toLowerCase` beyond `A`-`Z`, and the
  line separators U+2028 and U+2029 that the regex dot excludes. U+FEFF is
  whitespace to JavaScript's `trim()` but not to the model's `Trim`.
- `timings` is a plain object in the source, so a key such as `__proto__`
  or `constructor` behaves differently there. The model uses a map.
- Projects.SortByPriority: orders by rank only. The `localeCompare` tie-break
  on titles is not modelled, and the contract does not state stability,
  which `Array.prototype.sort` guarantees.
- Projects.JoinTimings: the join assigns each epic a new task list and does
  not model the shared task objects the source mutates. Its contract uses
  `old`.
- Projects.DecideStatus: the `?? 1` fallback of the priority lookup cannot
  arise, because every status has a rank.
- Markdown.CrlfIgnored: requires an LF-only text with no `\r` right before a
  `\n`, because `"a\r\r\nb"` splits differently (`Text.CrBeforeCrlfKeepsCr`).
- Readme.CrlfIgnored: the same restriction.
- Progress.BacklogIgnoresBomAndCrlf: the same restriction.
- Epics.EpicsIgnoreBomAndCrlf: the same restriction.
- TaskKey.AnnotationIgnored: requires that the text before the tag contain
  no `[`, and that an `[actual:` tag's value contain none either. With a `[`
  in an `[actual:` value, as in `x [actual:[est:1]`, the `[est:` pass
  removes the inner tag first and the key keeps `x [actual:`.
- The `## Current` heading must have exactly two `#`. `### Current` is not
  recognised (`Progress.CurrentHeadingForms`).
- Progress is 0 whenever the rounded ratio is 0, for example 1 done and
  300 open. It is not 0 only when the backlog is empty.
