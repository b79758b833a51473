/**
  `normalizeTaskText` (scan.js): the key under which a task's history is
  found. Estimate and actual-time annotations are removed, then the text is
  trimmed and lower-cased.
*/
module TaskKey {
  import opened Wrappers
  import opened Text

  const EstTag := "[est:"
  const ActualTag := "[actual:"

  /**
    Length of a match of `tag`, then `[^\]]+`, then `]` at the start of `t`.
    `[^\]]+` runs up to the first `]`, so the match ends there; it needs at
    least one character before that `]`.
  */
  function MatchAt(t: string, tag: string): (n: Option<nat>)
    ensures n.Some? ==> |tag| < n.value <= |t| && t[n.value - 1] == ']'
  {
    if !StartsWith(t, tag) then None
    else
      var k := IndexOf(t[|tag|..], ']');
      if 1 <= k < |t| - |tag| then Some(|tag| + k + 1) else None
  }

  /** The match with the `i` flag: the lower-case `tag` against `s` lower-cased. */
  function TagAt(s: string, tag: string): (n: Option<nat>)
    ensures n.Some? ==> |tag| < n.value <= |s|
  {
    MatchAt(Lower(s), tag)
  }

  /** `s.replace(/<tag>[^\]]+\]/gi, '')`: matches removed left to right, without overlap. */
  function RemoveTags(s: string, tag: string): (r: string)
    ensures |r| <= |s|
    decreases |s|
  {
    if s == [] then []
    else match TagAt(s, tag)
      case Some(n) => RemoveTags(s[n..], tag)
      case None => [s[0]] + RemoveTags(s[1..], tag)
  }

  /** Tag removal only deletes characters of the text. */
  lemma {:induction false} RemoveTagsDeletes(s: string, tag: string)
    ensures multiset(RemoveTags(s, tag)) <= multiset(s)
    decreases |s|
  {
    if s != [] {
      match TagAt(s, tag)
      case Some(n) =>
        RemoveTagsDeletes(s[n..], tag);
        assert s == s[..n] + s[n..];
      case None =>
        RemoveTagsDeletes(s[1..], tag);
        assert s == [s[0]] + s[1..];
    }
  }

  /** `normalizeTaskText(text)`. */
  function NormalizeTaskText(text: string): (key: string)
    ensures IsTrimmed(key)
    ensures HasNoUpper(key)
  {
    Lower(Trim(RemoveTags(RemoveTags(text, EstTag), ActualTag)))
  }

  /** Lower-casing leaves every character that is not an upper-case letter alone, and makes none. */
  lemma LowerCharIs(x: char, c: char)
    requires !IsUpper(c) && !('a' <= c <= 'z')
    ensures LowerChar(x) == c <==> x == c
  {
  }

  lemma TagAtOfLower(s: string, tag: string)
    ensures TagAt(Lower(s), tag) == TagAt(s, tag)
  {
    LowerIdempotent(s);
  }

  /** Tag removal and lower-casing commute. */
  lemma {:induction false} RemoveTagsOfLower(s: string, tag: string)
    ensures RemoveTags(Lower(s), tag) == Lower(RemoveTags(s, tag))
    decreases |s|
  {
    if s != [] {
      TagAtOfLower(s, tag);
      var t := Lower(s);
      match TagAt(s, tag)
      case Some(n) =>
        assert t[n..] == Lower(s[n..]);
        RemoveTagsOfLower(s[n..], tag);
      case None =>
        assert t[1..] == Lower(s[1..]);
        RemoveTagsOfLower(s[1..], tag);
        LowerOfConcat([s[0]], RemoveTags(s[1..], tag));
    }
  }

  lemma NormalizeOfLower(s: string)
    ensures NormalizeTaskText(Lower(s)) == NormalizeTaskText(s)
  {
    var once := RemoveTags(s, EstTag);
    RemoveTagsOfLower(s, EstTag);
    RemoveTagsOfLower(once, ActualTag);
    var both := RemoveTags(once, ActualTag);
    LowerIdempotent(both);
    TrimOfLower(both);
    TrimOfLower(Lower(both));
  }

  /** Texts that differ only in letter case have the same key. */
  lemma NormalizeIgnoresCase(a: string, b: string)
    requires Lower(a) == Lower(b)
    ensures NormalizeTaskText(a) == NormalizeTaskText(b)
  {
    NormalizeOfLower(a);
    NormalizeOfLower(b);
  }

  lemma NoMatchWithoutBracket(s: string, tag: string)
    requires s != [] && s[0] != '['
    requires tag != [] && tag[0] == '['
    ensures TagAt(s, tag).None?
  {
    LowerCharIs(s[0], '[');
    assert Lower(s)[0] != tag[0];
  }

  /** A first character other than `[` is kept. */
  lemma RemoveTagsAtPlain(s: string, tag: string)
    requires s != [] && s[0] != '['
    requires tag != [] && tag[0] == '['
    ensures RemoveTags(s, tag) == [s[0]] + RemoveTags(s[1..], tag)
  {
    NoMatchWithoutBracket(s, tag);
  }

  /** Text without `[` passes through tag removal unchanged. */
  lemma {:induction false} RemoveTagsSkips(x: string, y: string, tag: string)
    requires '[' !in x
    requires tag != [] && tag[0] == '['
    ensures RemoveTags(x + y, tag) == x + RemoveTags(y, tag)
    decreases |x|
  {
    if x == [] {
      assert x + y == y;
    } else {
      var s := x + y;
      assert s[0] == x[0] && x[0] in x;
      var rest := s[1..];
      assert rest == x[1..] + y;
      RemoveTagsAtPlain(s, tag);
      assert RemoveTags(s, tag) == [x[0]] + RemoveTags(rest, tag);
      RemoveTagsSkips(x[1..], y, tag);
      var r := RemoveTags(y, tag);
      assert RemoveTags(rest, tag) == x[1..] + r;
      assert [x[0]] + (x[1..] + r) == ([x[0]] + x[1..]) + r;
      assert [x[0]] + x[1..] == x;
    }
  }

  lemma IndexOfEnd(u: string, c: char)
    requires c !in u
    ensures IndexOf(u + [c], c) == |u|
  {
    if u != [] {
      assert (u + [c])[1..] == u[1..] + [c];
      IndexOfEnd(u[1..], c);
    }
  }

  lemma LowerKeepsOut(v: string, c: char)
    requires c !in v
    requires !IsUpper(c) && !('a' <= c <= 'z')
    ensures c !in Lower(v)
  {
    forall i | 0 <= i < |v| ensures Lower(v)[i] != c {
      LowerCharIs(v[i], c);
    }
  }

  /** A whole annotation `tag`, value, `]` is one match and disappears. */
  lemma WholeTagRemoved(t: string, v: string, tag: string)
    requires Lower(t) == tag
    requires v != [] && ']' !in v
    ensures RemoveTags(t + v + "]", tag) == []
  {
    var s := t + v + "]";
    LowerOfConcat(t + v, "]");
    LowerOfConcat(t, v);
    assert Lower("]") == "]";
    var low := Lower(s);
    assert low == tag + (Lower(v) + "]");
    assert low[..|tag|] == tag;
    assert low[|tag|..] == Lower(v) + "]";
    LowerKeepsOut(v, ']');
    IndexOfEnd(Lower(v), ']');
    assert TagAt(s, tag) == Some(|s|);
    assert s[|s|..] == [];
  }

  lemma TagLettersBracketFree(t: string)
    requires Lower(t) == EstTag || Lower(t) == ActualTag
    ensures t != [] && t[0] == '[' && '[' !in t[1..]
  {
    LowerCharIs(t[0], '[');
    forall i | 1 <= i < |t| ensures t[i] != '[' {
      LowerCharIs(t[i], '[');
    }
  }

  /** No `[est:` match starts where an `[actual:` tag stands. */
  lemma NoEstAtActual(t: string, rest: string)
    requires Lower(t) == ActualTag
    ensures TagAt(t + rest, EstTag).None?
  {
    LowerOfConcat(t, rest);
    var low := Lower(t + rest);
    assert low[1] == Lower(t)[1] == 'a';
    if |low| >= |EstTag| {
      assert low[..|EstTag|][1] == low[1];
    }
  }

  /** An `[actual:` annotation is left alone by the `[est:` pass. */
  lemma ActualKeptByEstPass(t: string, v: string)
    requires Lower(t) == ActualTag
    requires '[' !in v
    ensures RemoveTags(t + v + "]", EstTag) == t + v + "]"
  {
    var s := t + v + "]";
    TagLettersBracketFree(t);
    assert s == t + (v + "]");
    NoEstAtActual(t, v + "]");
    var tail := s[1..];
    assert tail == t[1..] + v + "]";
    assert '[' !in tail;
    RemoveTagsSkips(tail, [], EstTag);
    assert tail + [] == tail;
    assert RemoveTags(s, EstTag) == [s[0]] + RemoveTags(tail, EstTag);
    assert [s[0]] + tail == s;
  }

  /**
    An estimate or actual-time annotation appended to a text without `[`
    does not change the text's key. An `[est:` value may hold `[`, since
    `[^\]]` matches it; an `[actual:` value may not: in `x [actual:[est:1]`
    the `[est:` pass removes `[est:1]` first and leaves `[actual:` behind.
  */
  lemma AnnotationIgnored(s: string, t: string, v: string)
    requires '[' !in s
    requires Lower(t) == EstTag || Lower(t) == ActualTag
    requires v != [] && ']' !in v
    requires Lower(t) == ActualTag ==> '[' !in v
    ensures NormalizeTaskText(s + " " + t + v + "]") == NormalizeTaskText(s)
  {
    var a := t + v + "]";
    assert s + " " + t + v + "]" == (s + " ") + a;
    RemoveTagsSkips(s + " ", a, EstTag);
    RemoveTagsSkips(s + " ", [], ActualTag);
    RemoveTagsSkips(s, [], EstTag);
    RemoveTagsSkips(s, [], ActualTag);
    assert s + " " + [] == s + " " && s + [] == s;
    if Lower(t) == EstTag {
      WholeTagRemoved(t, v, EstTag);
    } else {
      ActualKeptByEstPass(t, v);
      RemoveTagsSkips(s + " ", a, ActualTag);
      WholeTagRemoved(t, v, ActualTag);
    }
    TrimAppendBlank(s, " ");
  }


  lemma LowerFixBug()
    ensures Lower("Fix bug") == "fix bug" && Lower("Fix Bug") == "fix bug"
  {
    assert |Lower("Fix bug")| == 7;
    assert Lower("Fix bug")[0] == 'f';
    assert |Lower("Fix Bug")| == 7;
    assert Lower("Fix Bug")[0] == 'f' && Lower("Fix Bug")[4] == 'b';
  }

  lemma EstKeyExample()
    ensures NormalizeTaskText("Fix bug [est:2h]") == NormalizeTaskText("fix bug")
  {
    assert Lower(EstTag) == EstTag;
    assert "Fix bug [est:2h]" == "Fix bug" + " " + EstTag + "2h" + "]";
    AnnotationIgnored("Fix bug", EstTag, "2h");
    LowerFixBug();
    LowerIdempotent("Fix bug");
    NormalizeIgnoresCase("Fix bug", "fix bug");
  }

  lemma ActualKeyExample()
    ensures NormalizeTaskText("Fix Bug [actual:3h]") == NormalizeTaskText("fix bug")
  {
    assert Lower(ActualTag) == ActualTag;
    assert "Fix Bug [actual:3h]" == "Fix Bug" + " " + ActualTag + "3h" + "]";
    AnnotationIgnored("Fix Bug", ActualTag, "3h");
    LowerFixBug();
    LowerIdempotent("Fix Bug");
    NormalizeIgnoresCase("Fix Bug", "fix bug");
  }

  /** Annotations and letter case do not reach the key. */
  lemma KeyExamples()
    ensures NormalizeTaskText("Fix bug [est:2h]") == NormalizeTaskText("fix bug")
    ensures NormalizeTaskText("Fix Bug [actual:3h]") == NormalizeTaskText("fix bug")
  {
    EstKeyExample();
    ActualKeyExample();
  }

}
