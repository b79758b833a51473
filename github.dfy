/**
  `parseGitHubRepo` (scan.js): the owner and repository name of a GitHub
  remote URL, in its https form `https://github.com/owner/repo.git` and its
  ssh form `git@github.com:owner/repo.git`. Two regular expressions are
  tried in turn, each searched leftmost:

    strict  github\.com[:/]([^/]+)\/([^/.]+)(?:\.git)?$
    loose   github\.com[:/]([^/]+)\/(.+?)(?:\.git)?$

  They are written out here as their backtracking semantics decides them.
  Neither has the `m` flag, so `$` is the end of the text.
*/
module GitHub {
  import opened Wrappers
  import opened Text

  datatype Repo = Repo(owner: string, repo: string)

  const Host := "github.com"

  /** `github\.com[:/]` matches at `p`; the owner starts at `p + 11`. */
  predicate HostAt(s: string, p: nat) {
    p + 11 <= |s| && s[p..p + 10] == Host && (s[p + 10] == ':' || s[p + 10] == '/')
  }

  /**
    `([^/]+)\/` after the host: the owner cannot hold a `/`, so backtracking
    leaves only the run up to the first `/`, which must be non-empty. The
    result is the position of that `/`.
  */
  function OwnerEnd(s: string, p: nat): (q: Option<nat>)
    ensures q.Some? ==> HostAt(s, p) && p + 11 < q.value < |s| && s[q.value] == '/'
    ensures q.Some? ==> '/' !in s[p + 11..q.value]
    ensures HostAt(s, p) && q.None? ==> p + 11 == |s| || s[p + 11] == '/' || '/' !in s[p + 11..]
  {
    if !HostAt(s, p) then None
    else
      var k := IndexOf(s[p + 11..], '/');
      if 1 <= k < |s| - (p + 11) then Some(p + 11 + k) else None
  }

  /** Length of the longest prefix of `t` free of `/` and `.`: what a greedy `[^/.]+` consumes. */
  function NameRun(t: string): (n: nat)
    ensures n <= |t|
    ensures forall i :: 0 <= i < n ==> t[i] != '/' && t[i] != '.'
    ensures n < |t| ==> t[n] == '/' || t[n] == '.'
  {
    if t == [] || t[0] == '/' || t[0] == '.' then 0 else 1 + NameRun(t[1..])
  }

  /**
    The strict expression after the owner's `/`, on the rest `t` of the
    text. `[^/.]+` is greedy and no shorter run can be followed by `.git` or
    the end, so the repository name is the whole run, and what follows it
    must be nothing or exactly `.git`.
  */
  function StrictName(owner: string, t: string): (r: Option<Repo>)
    ensures r.Some? ==> r.value.owner == owner
    ensures r.Some? ==> r.value.repo != [] && '/' !in r.value.repo && '.' !in r.value.repo
  {
    var n := NameRun(t);
    if n >= 1 && (t[n..] == "" || t[n..] == ".git") then Some(Repo(owner, t[..n])) else None
  }

  /** The strict expression at `p`. */
  function StrictAt(s: string, p: nat): (r: Option<Repo>)
    ensures r.Some? ==> r.value.repo != [] && '/' !in r.value.repo && '.' !in r.value.repo
  {
    match OwnerEnd(s, p)
    case None => None
    case Some(q) => StrictName(s[p + 11..q], s[q + 1..])
  }

  /**
    The loose expression after the owner's `/`. The lazy `(.+?)` takes the
    shortest non-empty name after which `(?:\.git)?$` matches: everything
    but a final `.git` when one is there and something is left before it,
    everything otherwise. `.` never crosses a line break.
  */
  function LooseName(owner: string, t: string): (r: Option<Repo>)
    ensures r.Some? ==> r.value.owner == owner
    ensures r.Some? ==> r.value.repo != [] && NoLineBreak(r.value.repo)
  {
    var name := if |t| >= 5 && t[|t| - 4..] == ".git" then t[..|t| - 4] else t;
    if name != [] && NoLineBreak(name) then Some(Repo(owner, name)) else None
  }

  /** The loose expression at `p`. */
  function LooseAt(s: string, p: nat): (r: Option<Repo>)
    ensures r.Some? ==> r.value.repo != [] && NoLineBreak(r.value.repo)
  {
    match OwnerEnd(s, p)
    case None => None
    case Some(q) => LooseName(s[p + 11..q], s[q + 1..])
  }

  /**
    `String.prototype.match` without the `g` flag tries the positions from
    left to right: the first position whose attempt succeeds.
  */
  function Leftmost(attempts: seq<Option<Repo>>): (r: Option<nat>)
    ensures r.Some? ==> r.value < |attempts| && attempts[r.value].Some?
    ensures r.Some? ==> forall j :: 0 <= j < r.value ==> attempts[j].None?
    ensures r.None? ==> forall j :: 0 <= j < |attempts| ==> attempts[j].None?
  {
    if attempts == [] then None
    else if attempts[0].Some? then Some(0)
    else
      var r := Leftmost(attempts[1..]);
      if r.Some? then Some(r.value + 1) else None
  }

  /** The first success, whatever the attempts are. */
  lemma {:induction false} LeftmostAt(attempts: seq<Option<Repo>>, p: nat)
    requires p < |attempts| && attempts[p].Some?
    requires forall j :: 0 <= j < p ==> attempts[j].None?
    ensures Leftmost(attempts) == Some(p)
  {
    if p > 0 {
      var tail := attempts[1..];
      assert forall j :: 0 <= j < p - 1 ==> tail[j] == attempts[j + 1];
      LeftmostAt(tail, p - 1);
    }
  }

  /** The attempt of the strict expression at every position of `s`, the end included. */
  function StrictAttempts(s: string): (a: seq<Option<Repo>>)
    ensures |a| == |s| + 1 && forall p :: 0 <= p <= |s| ==> a[p] == StrictAt(s, p)
  {
    seq(|s| + 1, p requires 0 <= p => StrictAt(s, p))
  }

  function LooseAttempts(s: string): (a: seq<Option<Repo>>)
    ensures |a| == |s| + 1 && forall p :: 0 <= p <= |s| ==> a[p] == LooseAt(s, p)
  {
    seq(|s| + 1, p requires 0 <= p => LooseAt(s, p))
  }

  /** The text at `p` is `github.com`, a `:` or `/`, the owner, a `/` and then the repository name. */
  predicate Shaped(s: string, p: nat, r: Repo) {
    var o := p + 11;
    var n := o + |r.owner| + 1;
    HostAt(s, p) && n + |r.repo| <= |s|
    && s[o..o + |r.owner|] == r.owner && s[o + |r.owner|] == '/' && s[n..n + |r.repo|] == r.repo
  }

  lemma StrictShaped(s: string, p: nat)
    requires StrictAt(s, p).Some?
    ensures Shaped(s, p, StrictAt(s, p).value)
  {
  }

  lemma LooseShaped(s: string, p: nat)
    requires LooseAt(s, p).Some?
    ensures Shaped(s, p, LooseAt(s, p).value)
  {
  }

  /** The first strict match if there is one, else the first loose match, else `null`. */
  function ParseGitHubRepo(remoteUrl: string): (r: Option<Repo>)
    ensures r.Some? ==> r.value.owner != [] && '/' !in r.value.owner && r.value.repo != []
  {
    var strict, loose := StrictAttempts(remoteUrl), LooseAttempts(remoteUrl);
    match Leftmost(strict)
    case Some(p) => strict[p]
    case None =>
      match Leftmost(loose)
      case Some(p) => loose[p]
      case None => None
  }

  /** The owner and name returned are read off the text right after a `github.com:` or `github.com/`. */
  lemma ResultIsShaped(s: string)
    requires ParseGitHubRepo(s).Some?
    ensures exists p :: 0 <= p <= |s| && Shaped(s, p, ParseGitHubRepo(s).value)
  {
    var strict, loose := StrictAttempts(s), LooseAttempts(s);
    match Leftmost(strict)
    case Some(p) =>
      StrictShaped(s, p);
    case None =>
      var p := Leftmost(loose).value;
      LooseShaped(s, p);
  }

  /** `null` exactly when neither expression matches at any position. */
  lemma NullIffNoMatch(s: string)
    ensures ParseGitHubRepo(s).None? <==>
      (forall p :: 0 <= p <= |s| ==> StrictAt(s, p).None? && LooseAt(s, p).None?)
  {
    var strict, loose := StrictAttempts(s), LooseAttempts(s);
    if Leftmost(strict).None? && Leftmost(loose).None? {
      assert forall p :: 0 <= p <= |s| ==> strict[p].None? && loose[p].None?;
    }
  }

  /** The strict expression, when it matches anywhere, decides the result, whose name then has no `.`. */
  lemma StrictWins(s: string, p: nat)
    requires p <= |s| && StrictAt(s, p).Some?
    ensures ParseGitHubRepo(s).Some? && '.' !in ParseGitHubRepo(s).value.repo
  {
    var q := Leftmost(StrictAttempts(s));
    assert StrictAttempts(s)[p].Some?;
  }

  /** Without `github.com`, a `:` or `/`, a non-empty owner and a `/` followed by something, there is no repository. */
  lemma NoShapeNoRepo(s: string)
    requires forall p :: 0 <= p <= |s| ==> OwnerEnd(s, p).None? || OwnerEnd(s, p).value + 1 == |s|
    ensures ParseGitHubRepo(s).None?
  {
    NullIffNoMatch(s);
    forall p | 0 <= p <= |s|
      ensures StrictAt(s, p).None? && LooseAt(s, p).None?
    {
      if OwnerEnd(s, p).Some? {
        assert s[OwnerEnd(s, p).value + 1..] == [];
      }
    }
  }

  /** A name the strict expression takes whole. */
  predicate PlainName(r: string) {
    r != [] && '/' !in r && '.' !in r
  }

  /** A position where no `g` starts cannot start a match. */
  lemma NoHostAt(s: string, j: nat)
    requires j + 11 > |s| || s[j] != 'g'
    ensures StrictAt(s, j).None? && LooseAt(s, j).None?
  {
    if j + 11 <= |s| {
      assert s[j..j + 10][0] == s[j];
    }
  }

  /** The first attempt that succeeds is the result. */
  lemma StrictFirst(s: string, p: nat)
    requires p <= |s| && StrictAt(s, p).Some?
    requires forall j :: 0 <= j < p ==> StrictAt(s, j).None?
    ensures ParseGitHubRepo(s) == StrictAt(s, p)
  {
    LeftmostAt(StrictAttempts(s), p);
  }

  lemma LooseFirst(s: string, p: nat)
    requires p <= |s| && LooseAt(s, p).Some?
    requires forall j :: 0 <= j <= |s| ==> StrictAt(s, j).None?
    requires forall j :: 0 <= j < p ==> LooseAt(s, j).None?
    ensures ParseGitHubRepo(s) == LooseAt(s, p)
  {
    var a, b := StrictAttempts(s), LooseAttempts(s);
    assert forall j :: 0 <= j < |a| ==> a[j].None?;
    LeftmostAt(b, p);
  }

  /** The `/` that ends the owner, when the owner is known. */
  lemma OwnerEndOf(s: string, p: nat, o: string, rest: string)
    requires HostAt(s, p) && s[p + 11..] == o + "/" + rest
    requires o != [] && '/' !in o
    ensures OwnerEnd(s, p) == Some(p + 11 + |o|) && s[p + 11..p + 11 + |o|] == o
    ensures s[p + 12 + |o|..] == rest
  {
    var t := s[p + 11..];
    var k := IndexOf(t, '/');
    assert t[|o|] == '/';
    assert forall i :: 0 <= i < |o| ==> t[i] == o[i];
    assert s[p + 12 + |o|..] == t[|o| + 1..];
  }

  /** `[^/.]+` takes exactly a plain name that is followed by a `.` or nothing. */
  lemma NameRunOf(r: string, suffix: string)
    requires PlainName(r) && (suffix == [] || suffix[0] == '.')
    ensures NameRun(r + suffix) == |r|
  {
    var u := r + suffix;
    var n := NameRun(u);
    assert forall i :: 0 <= i < |r| ==> u[i] == r[i];
    assert |r| < |u| ==> u[|r|] == suffix[0];
  }

  /** A plain name followed by nothing or `.git` is taken whole by the strict expression. */
  lemma StrictNameOf(o: string, r: string, suffix: string)
    requires PlainName(r) && (suffix == "" || suffix == ".git")
    ensures StrictName(o, r + suffix) == Some(Repo(o, r))
  {
    var u := r + suffix;
    NameRunOf(r, suffix);
    assert u[..|r|] == r && u[|r|..] == suffix;
  }

  /** `github.com`, the separator, owner, `/` and name, then nothing or `.git`: the strict expression matches at `p`. */
  lemma StrictAtRemote(s: string, p: nat, o: string, r: string, suffix: string)
    requires HostAt(s, p) && s[p + 11..] == o + "/" + r + suffix
    requires o != [] && '/' !in o && PlainName(r) && (suffix == "" || suffix == ".git")
    ensures StrictAt(s, p) == Some(Repo(o, r))
  {
    assert s[p + 11..] == o + "/" + (r + suffix);
    OwnerEndOf(s, p, o, r + suffix);
    StrictNameOf(o, r, suffix);
  }

  /** A remote of the expected shape, with no `github.com` match further left, gives its owner and name. */
  lemma RemoteParsed(s: string, p: nat, o: string, r: string, suffix: string)
    requires HostAt(s, p) && s[p + 11..] == o + "/" + r + suffix
    requires o != [] && '/' !in o && PlainName(r) && (suffix == "" || suffix == ".git")
    requires forall j :: 0 <= j < p ==> !HostAt(s, j)
    ensures ParseGitHubRepo(s) == Some(Repo(o, r))
  {
    StrictAtRemote(s, p, o, r, suffix);
    assert forall j :: 0 <= j < p ==> StrictAt(s, j).None?;
    StrictFirst(s, p);
  }

  /** `https://github.com/owner/repo.git` gives `{owner, repo}`, with or without `.git`. */
  lemma HttpsRemote(o: string, r: string, suffix: string)
    requires o != [] && '/' !in o && PlainName(r) && (suffix == "" || suffix == ".git")
    ensures ParseGitHubRepo("https://github.com/" + o + "/" + r + suffix) == Some(Repo(o, r))
  {
    var s := "https://github.com/" + o + "/" + r + suffix;
    assert s[8..18] == Host && s[18] == '/';
    assert s[8 + 11..] == o + "/" + r + suffix;
    forall j | 0 <= j < 8 ensures !HostAt(s, j) {
      assert s[j] == "https://"[j];
      assert s[j..j + 10][0] == s[j];
    }
    RemoteParsed(s, 8, o, r, suffix);
  }

  /** `git@github.com:owner/repo.git` gives `{owner, repo}`, with or without `.git`. */
  lemma SshRemote(o: string, r: string, suffix: string)
    requires o != [] && '/' !in o && PlainName(r) && (suffix == "" || suffix == ".git")
    ensures ParseGitHubRepo("git@github.com:" + o + "/" + r + suffix) == Some(Repo(o, r))
  {
    var s := "git@github.com:" + o + "/" + r + suffix;
    assert s[4..14] == Host && s[14] == ':';
    assert s[4 + 11..] == o + "/" + r + suffix;
    forall j | 0 <= j < 4 ensures !HostAt(s, j) {
      assert s[j + 3] == "git@git"[j + 3];
      assert s[j..j + 10][3] == s[j + 3];
    }
    RemoteParsed(s, 4, o, r, suffix);
  }

  /** A name with a `.` is never taken whole by `[^/.]+`, so the strict expression fails on it. */
  lemma DottedNameNotStrict(s: string, p: nat, name: string)
    requires OwnerEnd(s, p).Some? && s[OwnerEnd(s, p).value + 1..] == name + ".git"
    requires '.' in name
    ensures StrictAt(s, p).None?
  {
    var t := name + ".git";
    var d :| 0 <= d < |name| && name[d] == '.';
    assert t[d] == '.';
    assert NameRun(t) <= d;
  }

  /** In `https://github.com/owner/rest`, the only `/` from position 19 on is the one after the owner. */
  lemma OnlySlashAfterOwner(s: string, o: string, rest: string, q: nat)
    requires s == "https://github.com/" + o + "/" + rest && '/' !in o && '/' !in rest
    requires 19 <= q < |s| && s[q] == '/'
    ensures q == 19 + |o|
  {
  }

  /** The strict expression fails everywhere on an https remote whose name holds a `.`. */
  lemma DottedNotStrictAnywhere(o: string, name: string)
    requires o != [] && '/' !in o && '/' !in name && '.' in name
    ensures var s := "https://github.com/" + o + "/" + name + ".git";
      forall j :: 0 <= j <= |s| ==> StrictAt(s, j).None?
  {
    var rest := name + ".git";
    var s := "https://github.com/" + o + "/" + rest;
    assert s == "https://github.com/" + o + "/" + name + ".git";
    assert '/' !in rest by {
      assert forall i :: 0 <= i < |rest| ==> rest[i] == if i < |name| then name[i] else ".git"[i - |name|];
    }
    forall j | 0 <= j <= |s| ensures StrictAt(s, j).None? {
      if OwnerEnd(s, j).Some? {
        OnlySlashAfterOwner(s, o, rest, OwnerEnd(s, j).value);
        assert s[20 + |o|..] == rest;
        DottedNameNotStrict(s, j, name);
      }
    }
  }

  /** No attempt succeeds inside the `https://` scheme. */
  lemma SchemeNoMatch(s: string)
    requires |s| >= 8 && s[..8] == "https://"
    ensures forall j :: 0 <= j < 8 ==> StrictAt(s, j).None? && LooseAt(s, j).None?
  {
    forall j | 0 <= j < 8 ensures StrictAt(s, j).None? && LooseAt(s, j).None? {
      assert s[j] == s[..8][j];
      NoHostAt(s, j);
    }
  }

  /** The loose expression drops a final `.git` from a non-empty name. */
  lemma LooseNameOf(o: string, name: string)
    requires name != [] && NoLineBreak(name)
    ensures LooseName(o, name + ".git") == Some(Repo(o, name))
  {
    var t := name + ".git";
    assert t[|t| - 4..] == ".git" && t[..|t| - 4] == name;
  }

  /** The loose expression at the `g` of `github.com` in an https remote drops the final `.git`. */
  lemma LooseAtHttpsHost(o: string, name: string)
    requires o != [] && '/' !in o && name != [] && NoLineBreak(name)
    ensures LooseAt("https://github.com/" + o + "/" + name + ".git", 8) == Some(Repo(o, name))
  {
    var rest := name + ".git";
    var s := "https://github.com/" + o + "/" + rest;
    assert s == "https://github.com/" + o + "/" + name + ".git";
    assert s[8..18] == Host && s[18] == '/';
    assert s[8 + 11..] == o + "/" + rest;
    OwnerEndOf(s, 8, o, rest);
    LooseNameOf(o, name);
  }

  /** The loose expression matches an https remote at the `g` of `github.com`, dropping the final `.git`. */
  lemma LooseHttps(o: string, name: string)
    requires o != [] && '/' !in o && name != [] && NoLineBreak(name)
    ensures var s := "https://github.com/" + o + "/" + name + ".git";
      LooseAt(s, 8) == Some(Repo(o, name)) && forall j :: 0 <= j < 8 ==> LooseAt(s, j).None?
  {
    var s := "https://github.com/" + o + "/" + name + ".git";
    assert s[..8] == "https://";
    SchemeNoMatch(s);
    LooseAtHttpsHost(o, name);
  }

  /**
    A name holding a `.` falls through to the loose expression, which keeps
    the dots and drops only the final `.git`: `https://github.com/o/my.app.git`
    gives `{o, my.app}`.
  */
  lemma DottedHttpsRemote(o: string, name: string)
    requires o != [] && '/' !in o
    requires name != [] && '/' !in name && '.' in name && NoLineBreak(name)
    ensures ParseGitHubRepo("https://github.com/" + o + "/" + name + ".git") == Some(Repo(o, name))
  {
    DottedNotStrictAnywhere(o, name);
    LooseHttps(o, name);
    LooseFirst("https://github.com/" + o + "/" + name + ".git", 8);
  }
}
