/**
 * The few `str` methods of Rust's standard library that the asset-pack code
 * relies on, over Dafny strings.
 */
module Strings {
  import opened Wrappers

  /** `s.starts_with(p)` */
  predicate StartsWith(s: string, p: string)
  {
    |p| <= |s| && s[..|p|] == p
  }

  /** `s.ends_with(p)` */
  predicate EndsWith(s: string, p: string)
  {
    |p| <= |s| && s[|s| - |p|..] == p
  }

  /** `s.find(c)`: the index of the first `c`. */
  function IndexOf(s: string, c: char): (r: Option<nat>)
    ensures r.Some? ==> r.value < |s|
  {
    if s == [] then None
    else if s[0] == c then Some(0)
    else match IndexOf(s[1..], c)
      case None => None
      case Some(i) => Some(i + 1)
  }

  lemma {:induction false} IndexOfFirst(s: string, c: char)
    ensures IndexOf(s, c).None? <==> c !in s
    ensures IndexOf(s, c).Some? ==> var i := IndexOf(s, c).value; i < |s| && s[i] == c && c !in s[..i]
  {
    if s != [] && s[0] != c {
      IndexOfFirst(s[1..], c);
      assert s == [s[0]] + s[1..];
      if IndexOf(s[1..], c).Some? {
        var i := IndexOf(s[1..], c).value;
        assert s[..i + 1] == [s[0]] + s[1..][..i];
      }
    }
  }

  /** `s.rfind(c)`: the index of the last `c`. */
  function LastIndexOf(s: string, c: char): (r: Option<nat>)
    ensures r.Some? ==> r.value < |s|
  {
    if s == [] then None
    else if s[|s| - 1] == c then Some(|s| - 1)
    else LastIndexOf(s[..|s| - 1], c)
  }

  lemma {:induction false} LastIndexOfLast(s: string, c: char)
    ensures LastIndexOf(s, c).None? <==> c !in s
    ensures LastIndexOf(s, c).Some? ==> var i := LastIndexOf(s, c).value; i < |s| && s[i] == c && c !in s[i + 1..]
  {
    if s != [] && s[|s| - 1] != c {
      var init := s[..|s| - 1];
      LastIndexOfLast(init, c);
      assert s == init + [s[|s| - 1]];
      if LastIndexOf(init, c).Some? {
        var i := LastIndexOf(init, c).value;
        assert s[i + 1..] == init[i + 1..] + [s[|s| - 1]];
      }
    }
  }

  /** `s.trim_start_matches(p)`: removes every leading repetition of `p`. */
  function TrimStartMatches(s: string, p: string): string
    decreases |s|
  {
    if |p| > 0 && StartsWith(s, p) then TrimStartMatches(s[|p|..], p) else s
  }

  /** Trimming leaves a suffix that no longer starts with a non-empty `p`. */
  lemma {:induction false} TrimStartMatchesSuffix(s: string, p: string)
    ensures |p| > 0 ==> !StartsWith(TrimStartMatches(s, p), p)
    ensures EndsWith(s, TrimStartMatches(s, p))
    decreases |s|
  {
    if |p| > 0 && StartsWith(s, p) {
      TrimStartMatchesSuffix(s[|p|..], p);
      var r := TrimStartMatches(s, p);
      assert s[|p|..][|s[|p|..]| - |r|..] == s[|s| - |r|..];
    }
  }

  /** `s.split_once(c)`: the text before and after the first `c`. */
  function SplitOnce(s: string, c: char): Option<(string, string)>
  {
    match IndexOf(s, c)
    case None => None
    case Some(i) => Some((s[..i], s[i + 1..]))
  }

  lemma SplitOnceParts(s: string, c: char)
    ensures SplitOnce(s, c).None? <==> c !in s
    ensures SplitOnce(s, c).Some? ==> var (head, tail) := SplitOnce(s, c).value; s == head + [c] + tail && c !in head
  {
    IndexOfFirst(s, c);
    if IndexOf(s, c).Some? {
      var i := IndexOf(s, c).value;
      assert s == s[..i] + [c] + s[i + 1..];
    }
  }

  /** `s.split(c)`: the pieces between the occurrences of `c`; never empty. */
  function Split(s: string, c: char): (r: seq<string>)
    ensures |r| >= 1
    decreases |s|
  {
    match SplitOnce(s, c)
    case None => [s]
    case Some((head, tail)) =>
      SplitOnceParts(s, c);
      [head] + Split(tail, c)
  }

  /** No piece of a split contains the separator. */
  lemma {:induction false} SplitPieces(s: string, c: char)
    ensures forall i :: 0 <= i < |Split(s, c)| ==> c !in Split(s, c)[i]
    decreases |s|
  {
    SplitOnceParts(s, c);
    match SplitOnce(s, c)
    case None =>
    case Some((head, tail)) =>
      SplitPieces(tail, c);
  }

  /** A suffix of a suffix is a suffix. */
  lemma EndsWithTrans(a: string, b: string, c: string)
    requires EndsWith(a, b) && EndsWith(b, c)
    ensures EndsWith(a, c)
  {
    assert a[|a| - |b|..][|b| - |c|..] == a[|a| - |c|..];
  }

  /** A separator-free head is recovered from `head + [c] + tail`. */
  lemma SplitOnceJoined(head: string, c: char, tail: string)
    requires c !in head
    ensures SplitOnce(head + [c] + tail, c) == Some((head, tail))
  {
    var s := head + [c] + tail;
    assert s[|head|] == c && s[..|head|] == head;
    IndexOfFirst(s, c);
    var i := IndexOf(s, c).value;
    assert i == |head|;
    var r := SplitOnce(s, c).value;
    assert r.0 == s[..|head|] == head;
    assert r.1 == s[|head| + 1..] == tail;
  }

  /** Joining separator-free pieces with `c` is undone by splitting on `c`. */
  lemma {:induction false} SplitJoined(head: string, c: char, tail: string)
    requires c !in head
    ensures Split(head + [c] + tail, c) == [head] + Split(tail, c)
  {
    SplitOnceJoined(head, c, tail);
  }

  /** Trimming stops at once when the text does not start with the pattern. */
  lemma TrimNothing(s: string, p: string)
    requires !StartsWith(s, p)
    ensures TrimStartMatches(s, p) == s
  {
  }

  /** Trimming `p` from `p + s` removes exactly that `p` when `s` does not itself start with `p`. */
  lemma TrimOnce(s: string, p: string)
    requires |p| > 0 && !StartsWith(s, p)
    ensures TrimStartMatches(p + s, p) == s
  {
    assert (p + s)[..|p|] == p;
    assert (p + s)[|p|..] == s;
  }
}
