/**
  The two string primitives of the script's own logic, over `seq<char>`:
  `String.prototype.startsWith` and `String.prototype.split` with a
  one-character separator.
 */
module Text {
  import opened Wrappers

  /** `s.startsWith(p)`. */
  predicate StartsWith(s: string, p: string)
    ensures StartsWith(s, p) <==> |p| <= |s| && forall i :: 0 <= i < |p| ==> s[i] == p[i]
  {
    |p| <= |s| && s[..|p|] == p
  }

  /** The position of the first occurrence of `c` in `s`, if any. */
  function FirstIndexOf(s: string, c: char): (r: Option<nat>)
    ensures r.None? <==> c !in s
    ensures r.Some? ==> r.value < |s| && s[r.value] == c && c !in s[..r.value]
  {
    if |s| == 0 then None
    else if s[0] == c then Some(0)
    else match FirstIndexOf(s[1..], c)
      case None => None
      case Some(i) =>
        assert s[..i + 1] == [s[0]] + s[1..][..i];
        Some(i + 1)
  }

  /** `s.split(c)` for a single-character separator `c`: the maximal runs of
      `s` between occurrences of `c`, left to right (always at least one). */
  function Split(s: string, c: char): (parts: seq<string>)
    ensures |parts| >= 1
    ensures |parts| >= 2 <==> c in s
    decreases |s|
  {
    match FirstIndexOf(s, c)
    case None => [s]
    case Some(i) => [s[..i]] + Split(s[i + 1..], c)
  }

  /** `parts.join(c)`: the inverse of `Split`. */
  function Join(parts: seq<string>, c: char): (s: string)
    requires |parts| >= 1
  {
    if |parts| == 1 then parts[0] else parts[0] + [c] + Join(parts[1..], c)
  }

  /** Joining the fields of a split gives back the original string. */
  lemma {:induction false} JoinSplit(s: string, c: char)
    ensures Join(Split(s, c), c) == s
    decreases |s|
  {
    var r := FirstIndexOf(s, c);
    if r.None? {
      SplitNone(s, c);
    } else {
      var i := r.value;
      var pre, post := s[..i], s[i + 1..];
      assert s == pre + [c] + post;
      SplitAfter(pre, c, post);
      JoinSplit(post, c);
      JoinCons(pre, Split(post, c), c);
    }
  }

  lemma JoinCons(head: string, tail: seq<string>, c: char)
    requires |tail| >= 1
    ensures Join([head] + tail, c) == head + [c] + Join(tail, c)
  {
    assert ([head] + tail)[1..] == tail;
  }

  /** No field of a split contains the separator. */
  lemma {:induction false} SplitFieldsFree(s: string, c: char)
    ensures forall k :: 0 <= k < |Split(s, c)| ==> c !in Split(s, c)[k]
    decreases |s|
  {
    match FirstIndexOf(s, c)
    case None =>
    case Some(i) =>
      SplitFieldsFree(s[i + 1..], c);
  }

  /** Splitting a join of separator-free fields gives back those fields. */
  lemma {:induction false} SplitJoin(parts: seq<string>, c: char)
    requires |parts| >= 1
    requires forall k :: 0 <= k < |parts| ==> c !in parts[k]
    ensures Split(Join(parts, c), c) == parts
  {
    if |parts| == 1 {
      SplitNone(parts[0], c);
    } else {
      var rest := Join(parts[1..], c);
      assert c !in parts[0];
      SplitAfter(parts[0], c, rest);
      SplitJoin(parts[1..], c);
      assert parts == [parts[0]] + parts[1..];
    }
  }

  /** The first field is the text before the first separator, or the whole
      string when there is none. */
  lemma SplitHead(s: string, c: char)
    ensures var h := Split(s, c)[0];
      && s[..|h|] == h && c !in h && (h == s || s[|h|] == c)
  {
  }

  /** There is a second field exactly when the separator occurs; it is the
      text between the first separator and the next one (or the end). */
  lemma SplitSecond(s: string, c: char)
    ensures |Split(s, c)| >= 2 <==> c in s
    ensures |Split(s, c)| >= 2 ==>
      FirstIndexOf(s, c).Some? &&
      Split(s, c)[1] == Split(s[FirstIndexOf(s, c).value + 1..], c)[0]
  {
  }

  /** The first separator of `pre + [c] + post` is right after `pre` when
      `pre` has none. */
  lemma FirstIndexAfter(pre: string, c: char, post: string)
    requires c !in pre
    ensures FirstIndexOf(pre + [c] + post, c) == Some(|pre|)
  {
    var s := pre + [c] + post;
    assert s[|pre|] == c;
    assert s[..|pre|] == pre;
  }

  /** Splitting at a first separator: the head field is `pre` and the other
      fields come from `post`. */
  lemma SplitAfter(pre: string, c: char, post: string)
    requires c !in pre
    ensures Split(pre + [c] + post, c) == [pre] + Split(post, c)
  {
    var s := pre + [c] + post;
    FirstIndexAfter(pre, c, post);
    assert s[..|pre|] == pre;
    assert s[|pre| + 1..] == post;
  }

  /** A string without the separator splits into itself alone. */
  lemma SplitNone(s: string, c: char)
    requires c !in s
    ensures Split(s, c) == [s]
  {
  }
}
