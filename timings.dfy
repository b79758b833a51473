/**
  The timing reconstruction of `getTaskTimings` (scan.js), taking the text
  of `git log --format=COMMIT\x1f%H\x1f%aI -p` as input. The log lists
  commits newest first; each commit starts with a marker line carrying its
  author date, followed by its diff. Every added checkbox line of the
  backlog stamps its task key with the date of the commit it belongs to:
  a pending line overwrites `started_at` every time, so the oldest commit
  wins; a done line sets `completed_at` only once, so the newest commit
  wins.
*/
module Timings {
  import opened Wrappers
  import opened Text
  import opened Model
  import opened Markdown
  import opened TaskKey

  /** The unit separator `\x1f` between the fields of a marker line. */
  const Sep: char := '\U{1F}'

  /** `line.startsWith('COMMIT\x1f')`. */
  predicate IsMarker(line: string) {
    StartsWith(line, "COMMIT" + [Sep])
  }

  /** `parts[2]?.trim() || null` for `parts = line.split('\x1f')`. */
  function MarkerTimestamp(line: string): (ts: Option<string>)
    ensures ts.Some? ==> ts.value != [] && IsTrimmed(ts.value)
    ensures ts.Some? <==> |Split(line, Sep)| > 2 && !IsBlank(Split(line, Sep)[2])
  {
    var parts := Split(line, Sep);
    if |parts| > 2 && Trim(parts[2]) != [] then Some(Trim(parts[2])) else None
  }

  /** A diff line that adds text: it starts with `+` but is not a `+++` file header. */
  predicate IsAddedLine(line: string) {
    StartsWith(line, "+") && !StartsWith(line, "+++")
  }

  /** What one line of the log means to the fold. */
  datatype LogEvent =
    | Marker(timestamp: Option<string>)
    | PendingLine(key: string)
    | DoneLine(key: string)
    | Ignored

  /**
    The pending pattern is tried first; the done pattern only when it fails.
    The key is the normalized, untrimmed capture.
  */
  function EventOf(line: string): (e: LogEvent)
    ensures e.Marker? <==> IsMarker(line)
    ensures e.Marker? ==> e.timestamp == MarkerTimestamp(line)
    ensures (e.PendingLine? || e.DoneLine?) ==> !IsMarker(line) && IsAddedLine(line)
    ensures e.PendingLine? ==>
      HistoryText(line[1..], Pending).Some? && e.key == NormalizeTaskText(HistoryText(line[1..], Pending).value)
    ensures e.DoneLine? ==>
      HistoryText(line[1..], Pending).None? && HistoryText(line[1..], Done).Some?
      && e.key == NormalizeTaskText(HistoryText(line[1..], Done).value)
    ensures (!IsMarker(line) && IsAddedLine(line)
      && (HistoryText(line[1..], Pending).Some? || HistoryText(line[1..], Done).Some?)) ==> e.PendingLine? || e.DoneLine?
  {
    if IsMarker(line) then Marker(MarkerTimestamp(line))
    else if !IsAddedLine(line) then Ignored
    else
      var content := line[1..];
      match HistoryText(content, Pending)
      case Some(cap) => PendingLine(NormalizeTaskText(cap))
      case None =>
        match HistoryText(content, Done)
        case Some(cap) => DoneLine(NormalizeTaskText(cap))
        case None => Ignored
  }

  /** The loop state: `currentTimestamp` and the `timings` object. */
  datatype HistoryScan = HistoryScan(timestamp: Option<string>, timings: map<string, Timing>)

  const NoTiming := Timing(None, None, None)

  /** `timings[key]`, or the fresh `{}` the loop creates for a new key. */
  function Entry(m: map<string, Timing>, key: string): Timing {
    if key in m then m[key] else NoTiming
  }

  /** One iteration of the loop, on the meaning of the line. */
  function Apply(st: HistoryScan, e: LogEvent): (r: HistoryScan)
    ensures r.timestamp == (if e.Marker? then e.timestamp else st.timestamp)
    ensures st.timings.Keys <= r.timings.Keys
    ensures forall k :: k in r.timings && (k !in st.timings || r.timings[k] != st.timings[k]) ==>
      st.timestamp.Some? && (e == PendingLine(k) || e == DoneLine(k))
    ensures e.PendingLine? && st.timestamp.Some? ==>
      e.key in r.timings && r.timings[e.key].startedAt == st.timestamp
      && r.timings[e.key].completedAt == Entry(st.timings, e.key).completedAt
    ensures e.DoneLine? && Entry(st.timings, e.key).completedAt.Some? ==> r == st
    ensures e.DoneLine? && st.timestamp.Some? ==>
      e.key in r.timings && r.timings[e.key].startedAt == Entry(st.timings, e.key).startedAt
  {
    match e
    case Marker(ts) => st.(timestamp := ts)
    case Ignored => st
    case PendingLine(key) =>
      if st.timestamp.None? then st
      else st.(timings := st.timings[key := Entry(st.timings, key).(startedAt := st.timestamp)])
    case DoneLine(key) =>
      if st.timestamp.None? || Entry(st.timings, key).completedAt.Some? then st
      else st.(timings := st.timings[key := Entry(st.timings, key).(completedAt := st.timestamp)])
  }

  /** The meaning of each line of the log. */
  function Events(lines: seq<string>): (es: seq<LogEvent>)
    ensures |es| == |lines|
    decreases |lines|
  {
    if lines == [] then [] else Events(lines[..|lines| - 1]) + [EventOf(lines[|lines| - 1])]
  }

  /** The loop over the log's events. */
  function Replay(es: seq<LogEvent>): HistoryScan
    decreases |es|
  {
    if es == [] then HistoryScan(None, map[])
    else Apply(Replay(es[..|es| - 1]), es[|es| - 1])
  }

  /** The timestamp in force when event `i` is read: that of the last marker before it. */
  function StampAt(es: seq<LogEvent>, i: nat): Option<string>
    requires i <= |es|
  {
    Replay(es[..i]).timestamp
  }

  /** Event `i` adds `key` with kind `s` under a commit that has a timestamp. */
  predicate AddsAt(es: seq<LogEvent>, i: nat, s: TaskStatus, key: string)
    requires i < |es|
  {
    es[i] == (if s == Pending then PendingLine(key) else DoneLine(key)) && StampAt(es, i).Some?
  }

  lemma StampOfPrefix(es: seq<LogEvent>, n: nat, i: nat)
    requires i <= n <= |es|
    ensures StampAt(es[..n], i) == StampAt(es, i)
  {
    assert es[..n][..i] == es[..i];
  }

  lemma AddsOfPrefix(es: seq<LogEvent>, n: nat, s: TaskStatus, key: string)
    requires n <= |es|
    ensures forall j :: 0 <= j < n ==> AddsAt(es[..n], j, s, key) == AddsAt(es, j, s, key)
  {
    forall j | 0 <= j < n ensures AddsAt(es[..n], j, s, key) == AddsAt(es, j, s, key) {
      StampOfPrefix(es, n, j);
    }
  }

  /** The last event adding `key` as pending. */
  function LastPending(es: seq<LogEvent>, key: string): (r: Option<nat>)
    ensures r.Some? ==> r.value < |es| && AddsAt(es, r.value, Pending, key)
    ensures r.Some? ==> forall j :: r.value < j < |es| ==> !AddsAt(es, j, Pending, key)
    ensures r.None? ==> forall j :: 0 <= j < |es| ==> !AddsAt(es, j, Pending, key)
    decreases |es|
  {
    if es == [] then None
    else
      var n := |es| - 1;
      if AddsAt(es, n, Pending, key) then Some(n)
      else
        AddsOfPrefix(es, n, Pending, key);
        LastPending(es[..n], key)
  }

  /** The first event adding `key` as done. */
  function FirstDone(es: seq<LogEvent>, key: string): (r: Option<nat>)
    ensures r.Some? ==> r.value < |es| && AddsAt(es, r.value, Done, key)
    ensures r.Some? ==> forall j :: 0 <= j < r.value ==> !AddsAt(es, j, Done, key)
    ensures r.None? ==> forall j :: 0 <= j < |es| ==> !AddsAt(es, j, Done, key)
    decreases |es|
  {
    if es == [] then None
    else
      var n := |es| - 1;
      var r := FirstDone(es[..n], key);
      AddsOfPrefix(es, n, Done, key);
      if r.Some? then r
      else if AddsAt(es, n, Done, key) then Some(n)
      else None
  }

  /** `started_at` as the positions say: the timestamp in force at the last pending line. */
  function StartedOf(es: seq<LogEvent>, key: string): Option<string> {
    match LastPending(es, key)
    case None => None
    case Some(i) => StampAt(es, i)
  }

  /** `completed_at` as the positions say: the timestamp in force at the first done line. */
  function CompletedOf(es: seq<LogEvent>, key: string): Option<string> {
    match FirstDone(es, key)
    case None => None
    case Some(i) => StampAt(es, i)
  }

  /** The record the positions give for `key`, if some line adds it. */
  function Expected(es: seq<LogEvent>, key: string): Option<Timing> {
    if LastPending(es, key).None? && FirstDone(es, key).None? then None
    else Some(Timing(StartedOf(es, key), CompletedOf(es, key), None))
  }

  function Lookup(m: map<string, Timing>, key: string): Option<Timing> {
    if key in m then Some(m[key]) else None
  }

  /** How one event changes the record of `key`. */
  lemma ApplyOnKey(st: HistoryScan, e: LogEvent, key: string)
    ensures Lookup(Apply(st, e).timings, key) ==
      var prev := Entry(st.timings, key);
      if st.timestamp.None? then Lookup(st.timings, key)
      else if e == PendingLine(key) then Some(prev.(startedAt := st.timestamp))
      else if e == DoneLine(key) then Some(if prev.completedAt.None? then prev.(completedAt := st.timestamp) else prev)
      else Lookup(st.timings, key)
  {
  }

  /** How the positional record of `key` changes with one more event. */
  lemma ExpectedStep(es: seq<LogEvent>, key: string)
    requires es != []
    ensures var n := |es| - 1;
      var init, ts, e := es[..n], Replay(es[..n]).timestamp, es[n];
      && StartedOf(es, key) == (if e == PendingLine(key) && ts.Some? then ts else StartedOf(init, key))
      && CompletedOf(es, key) == (if CompletedOf(init, key).None? && e == DoneLine(key) && ts.Some? then ts else CompletedOf(init, key))
      && (Expected(es, key).None? <==>
           Expected(init, key).None? && !((e == PendingLine(key) || e == DoneLine(key)) && ts.Some?))
  {
    var n := |es| - 1;
    var init := es[..n];
    assert StampAt(es, n) == Replay(init).timestamp;
    match LastPending(init, key) {
      case None =>
      case Some(i) => StampOfPrefix(es, n, i);
    }
    match FirstDone(init, key) {
      case None =>
      case Some(i) => StampOfPrefix(es, n, i);
    }
  }

  /**
    The fold computes, for every key, exactly the positional record: a key
    is present iff some stamped event adds it; `started_at` is the timestamp
    of the last stamped pending line for it, `completed_at` that of the
    first stamped done line, and `elapsed_hours` is not yet set.
  */
  lemma {:induction false} ReplayIsPositional(es: seq<LogEvent>, key: string)
    ensures Lookup(Replay(es).timings, key) == Expected(es, key)
    decreases |es|
  {
    if es != [] {
      var n := |es| - 1;
      var init := es[..n];
      ReplayIsPositional(init, key);
      ApplyOnKey(Replay(init), es[n], key);
      ExpectedStep(es, key);
    }
  }

  /** The last marker line before position `i`. */
  function LastMarker(es: seq<LogEvent>, i: nat): (r: Option<nat>)
    requires i <= |es|
    ensures r.Some? ==> r.value < i && es[r.value].Marker? && forall k :: r.value < k < i ==> !es[k].Marker?
    ensures r.None? ==> forall k :: 0 <= k < i ==> !es[k].Marker?
    decreases i
  {
    if i == 0 then None else if es[i - 1].Marker? then Some(i - 1) else LastMarker(es, i - 1)
  }

  /**
    The timestamp in force at a line is the one of the nearest marker above
    it; before the first marker there is none, so those lines are ignored.
  */
  lemma {:induction false} StampIsLastMarker(es: seq<LogEvent>, i: nat)
    requires i <= |es|
    ensures StampAt(es, i) == (match LastMarker(es, i) case None => None case Some(j) => es[j].timestamp)
    decreases i
  {
    if i > 0 {
      StampIsLastMarker(es, i - 1);
      assert es[..i][..i - 1] == es[..i - 1];
    }
  }

  /** A key has a record iff some line under a stamped commit adds it, as pending or as done. */
  lemma KeyPresentIffAdded(es: seq<LogEvent>, key: string)
    ensures key in Replay(es).timings <==>
      exists i :: 0 <= i < |es| && (AddsAt(es, i, Pending, key) || AddsAt(es, i, Done, key))
  {
    ReplayIsPositional(es, key);
    match LastPending(es, key) {
      case Some(i) =>
      case None =>
        match FirstDone(es, key) {
          case Some(i) =>
          case None =>
        }
    }
  }

  /**
    `started_at` is the timestamp of the last stamped pending line for the key:
    in a newest-first log, the oldest commit that adds it unchecked.
  */
  lemma StartedAtIsLastPending(es: seq<LogEvent>, key: string, i: nat)
    requires i < |es| && AddsAt(es, i, Pending, key)
    requires forall j :: i < j < |es| ==> !AddsAt(es, j, Pending, key)
    ensures key in Replay(es).timings && Replay(es).timings[key].startedAt == StampAt(es, i)
  {
    ReplayIsPositional(es, key);
    assert LastPending(es, key) == Some(i);
  }

  /** Without a stamped pending line for the key, `started_at` stays unset. */
  lemma NoPendingNoStart(es: seq<LogEvent>, key: string)
    requires forall j :: 0 <= j < |es| ==> !AddsAt(es, j, Pending, key)
    ensures key in Replay(es).timings ==> Replay(es).timings[key].startedAt.None?
  {
    ReplayIsPositional(es, key);
    assert LastPending(es, key).None?;
  }

  /**
    `completed_at` is the timestamp of the first stamped done line for the key:
    in a newest-first log, the newest commit that adds it checked. Later done
    lines never change it.
  */
  lemma CompletedAtIsFirstDone(es: seq<LogEvent>, key: string, i: nat)
    requires i < |es| && AddsAt(es, i, Done, key)
    requires forall j :: 0 <= j < i ==> !AddsAt(es, j, Done, key)
    ensures key in Replay(es).timings && Replay(es).timings[key].completedAt == StampAt(es, i)
  {
    ReplayIsPositional(es, key);
    assert FirstDone(es, key) == Some(i);
  }

  /** Without a stamped done line for the key, `completed_at` stays unset. */
  lemma NoDoneNoCompletion(es: seq<LogEvent>, key: string)
    requires forall j :: 0 <= j < |es| ==> !AddsAt(es, j, Done, key)
    ensures key in Replay(es).timings ==> Replay(es).timings[key].completedAt.None?
  {
    ReplayIsPositional(es, key);
    assert FirstDone(es, key).None?;
  }

  /** The fold never sets `elapsed_hours`; only the second pass does. */
  lemma ReplayLeavesElapsedUnset(es: seq<LogEvent>, key: string)
    requires key in Replay(es).timings
    ensures Replay(es).timings[key].elapsedHours.None?
  {
    ReplayIsPositional(es, key);
  }

  /** Until a marker with a timestamp arrives, added lines change nothing. */
  lemma {:induction false} UnstampedLinesIgnored(es: seq<LogEvent>)
    requires forall i :: 0 <= i < |es| ==> !es[i].Marker? || es[i].timestamp.None?
    ensures Replay(es) == HistoryScan(None, map[])
    decreases |es|
  {
    if es != [] {
      UnstampedLinesIgnored(es[..|es| - 1]);
    }
  }

  /** `Math.round(ms / 3600000)` for a non-negative number of milliseconds: the nearest hour, halves up. */
  function RoundHours(ms: nat): (h: nat)
    ensures h * 3600000 <= ms + 1800000 < h * 3600000 + 3600000
  {
    (ms + 1800000) / 3600000
  }

  function Abs(x: int): nat {
    if x < 0 then -x else x
  }

  /**
    The second pass on one record. `toMillis` stands for `new Date(..)`:
    `None` is an invalid date, whose difference is `NaN`, written out as
    `null` in the JSON response.
  */
  function WithElapsed(t: Timing, toMillis: string -> Option<int>): (r: Timing)
    ensures r.startedAt == t.startedAt && r.completedAt == t.completedAt
    ensures r.elapsedHours.Some? <==>
      t.startedAt.Some? && t.completedAt.Some?
      && toMillis(t.startedAt.value).Some? && toMillis(t.completedAt.value).Some?
    ensures r.elapsedHours.Some? ==>
      var d := Abs(toMillis(t.completedAt.value).value - toMillis(t.startedAt.value).value);
      r.elapsedHours.value * 3600000 <= d + 1800000 < r.elapsedHours.value * 3600000 + 3600000
  {
    var e :=
      if t.startedAt.Some? && t.completedAt.Some? then
        match (toMillis(t.startedAt.value), toMillis(t.completedAt.value))
        case (Some(s), Some(c)) => Some(RoundHours(Abs(c - s)))
        case _ => None
      else None;
    t.(elapsedHours := e)
  }

  /** `elapsed_hours` does not depend on which timestamp is the later one. */
  lemma ElapsedSymmetric(t: Timing, toMillis: string -> Option<int>)
    ensures WithElapsed(t, toMillis).elapsedHours ==
      WithElapsed(Timing(t.completedAt, t.startedAt, t.elapsedHours), toMillis).elapsedHours
  {
  }

  /** The second loop, over every record. */
  function Finalize(m: map<string, Timing>, toMillis: string -> Option<int>): (r: map<string, Timing>)
    ensures r.Keys == m.Keys
    ensures forall k :: k in m ==> r[k] == WithElapsed(m[k], toMillis)
  {
    map k | k in m :: WithElapsed(m[k], toMillis)
  }

  /** The whole of `getTaskTimings` after the `git log` call, on its `stdout`. */
  function TimingsOf(stdout: string, toMillis: string -> Option<int>): map<string, Timing> {
    Finalize(Replay(Events(Split(stdout, '\n'))).timings, toMillis)
  }

  /** After both passes, `elapsed_hours` is set iff both timestamps are set (and are valid dates). */
  lemma ElapsedIffBothStamps(stdout: string, toMillis: string -> Option<int>, key: string)
    requires key in TimingsOf(stdout, toMillis)
    ensures var t := TimingsOf(stdout, toMillis)[key];
      t.elapsedHours.Some? <==>
        t.startedAt.Some? && t.completedAt.Some?
        && toMillis(t.startedAt.value).Some? && toMillis(t.completedAt.value).Some?
  {
  }

  /**
    The final map, by positions in the log: a key has a record exactly when
    some dated line adds it; its `started_at` is the stamp of the last
    pending line, its `completed_at` that of the first done line, and its
    elapsed hours are computed from those two.
  */
  lemma TimingsArePositional(stdout: string, toMillis: string -> Option<int>, key: string)
    ensures var es := Events(Split(stdout, '\n'));
      var m := TimingsOf(stdout, toMillis);
      && (key in m <==> Expected(es, key).Some?)
      && (key in m ==> m[key] == WithElapsed(Expected(es, key).value, toMillis))
      && (key in m ==> m[key].startedAt == StartedOf(es, key) && m[key].completedAt == CompletedOf(es, key))
  {
    var es := Events(Split(stdout, '\n'));
    ReplayIsPositional(es, key);
  }

  lemma ReplaySnoc(es: seq<LogEvent>, e: LogEvent)
    ensures Replay(es + [e]) == Apply(Replay(es), e)
  {
    assert (es + [e])[..|es|] == es;
  }

  lemma EventsSnoc(lines: seq<string>, i: nat)
    requires i < |lines|
    ensures Events(lines[..i + 1]) == Events(lines[..i]) + [EventOf(lines[i])]
  {
    assert lines[..i + 1][..i] == lines[..i];
  }

  /** The first loop on one line, written as the source tests it. */
  method ScanHistoryLine(ts: Option<string>, timings: map<string, Timing>, line: string)
    returns (ts': Option<string>, timings': map<string, Timing>)
    ensures HistoryScan(ts', timings') == Apply(HistoryScan(ts, timings), EventOf(line))
  {
    ts', timings' := ts, timings;
    if IsMarker(line) {
      ts' := MarkerTimestamp(line);
      return;
    }
    if ts.None? {
      return;
    }
    if !IsAddedLine(line) {
      return;
    }
    var content := line[1..];
    var pendingMatch := HistoryText(content, Pending);
    var doneMatch := HistoryText(content, Done);
    if pendingMatch.Some? {
      var key := NormalizeTaskText(pendingMatch.value);
      var entry := if key in timings then timings[key] else NoTiming;
      timings' := timings[key := entry.(startedAt := ts)];
    } else if doneMatch.Some? {
      var key := NormalizeTaskText(doneMatch.value);
      var entry := if key in timings then timings[key] else NoTiming;
      if entry.completedAt.None? {
        timings' := timings[key := entry.(completedAt := ts)];
      }
    }
  }

  /** The second loop: `elapsed_hours` for every record, one key at a time. */
  method FinalizeTimings(folded: map<string, Timing>, toMillis: string -> Option<int>)
    returns (timings: map<string, Timing>)
    ensures timings == Finalize(folded, toMillis)
  {
    timings := folded;
    var todo := folded.Keys;
    while todo != {}
      invariant todo <= folded.Keys && timings.Keys == folded.Keys
      invariant forall k :: k in timings ==>
        timings[k] == if k in todo then folded[k] else WithElapsed(folded[k], toMillis)
      decreases todo
    {
      var k :| k in todo;
      timings := timings[k := WithElapsed(timings[k], toMillis)];
      todo := todo - {k};
    }
  }

  /** `getTaskTimings` from the `git log` output on: the fold over lines, then the `elapsed_hours` pass. */
  method ReconstructTimings(stdout: string, toMillis: string -> Option<int>)
    returns (timings: map<string, Timing>)
    ensures timings == TimingsOf(stdout, toMillis)
  {
    var lines := Split(stdout, '\n');
    var currentTimestamp: Option<string> := None;
    var folded: map<string, Timing> := map[];
    for i := 0 to |lines|
      invariant HistoryScan(currentTimestamp, folded) == Replay(Events(lines[..i]))
    {
      EventsSnoc(lines, i);
      ReplaySnoc(Events(lines[..i]), EventOf(lines[i]));
      currentTimestamp, folded := ScanHistoryLine(currentTimestamp, folded, lines[i]);
    }
    assert lines[..|lines|] == lines;
    timings := FinalizeTimings(folded, toMillis);
  }

  /** Two commits, newest first: the task was added unchecked at t1 and checked at t2. */
  lemma TwoCommitExample()
    ensures var es := [Marker(Some("t2")), DoneLine("a"), PendingLine("a"), Marker(Some("t1")), PendingLine("a")];
      Replay(es).timings == map["a" := Timing(Some("t1"), Some("t2"), None)]
  {
    var m1, d, p, m2 := Marker(Some("t2")), DoneLine("a"), PendingLine("a"), Marker(Some("t1"));
    var t2 := Timing(None, Some("t2"), None);
    var t22 := Timing(Some("t2"), Some("t2"), None);
    ReplaySnoc([], m1);
    assert [] + [m1] == [m1];
    ReplaySnoc([m1], d);
    assert [m1] + [d] == [m1, d];
    ReplaySnoc([m1, d], p);
    assert [m1, d] + [p] == [m1, d, p];
    ReplaySnoc([m1, d, p], m2);
    assert [m1, d, p] + [m2] == [m1, d, p, m2];
    ReplaySnoc([m1, d, p, m2], p);
    assert [m1, d, p, m2] + [p] == [m1, d, p, m2, p];
    assert Replay([m1, d]) == HistoryScan(Some("t2"), map["a" := t2]);
    assert map["a" := t2]["a" := t22] == map["a" := t22];
    assert Replay([m1, d, p, m2]) == HistoryScan(Some("t1"), map["a" := t22]);
    assert map["a" := t22]["a" := t22.(startedAt := Some("t1"))] == map["a" := Timing(Some("t1"), Some("t2"), None)];
  }

}
