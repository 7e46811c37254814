/** Slash-separated paths: segments, suffixes and the removal of dot segments
    (section 5.2.4 of RFC 3986). */
module Paths {
  predicate EndsWith(s: string, suffix: string) {
    |suffix| <= |s| && s[|s| - |suffix|..] == suffix
  }

  lemma SuffixEnd(s: string, suffix: string)
    requires suffix != []
    ensures EndsWith(s, suffix) ==> s != [] && s[|s| - 1] == suffix[|suffix| - 1]
  {
    if EndsWith(s, suffix) {
      assert s[|s| - |suffix|..][|suffix| - 1] == s[|s| - 1];
    }
  }

  lemma EndsWithOwnTail(front: string, suffix: string)
    ensures EndsWith(front + suffix, suffix)
  {
    assert (front + suffix)[|front|..] == suffix;
  }

  /** One more character in front: a slash opens a new segment. */
  function Push(c: char, segments: seq<string>): (r: seq<string>)
    requires |segments| > 0
    ensures |r| > 0
  {
    if c == '/' then [[]] + segments else [[c] + segments[0]] + segments[1..]
  }

  /** `split('/')`. */
  function Segments(s: string): (r: seq<string>)
    ensures |r| > 0
  {
    if s == [] then [[]] else Push(s[0], Segments(s[1..]))
  }

  /** `rsplit('/').next()`. */
  function LastSegment(s: string): string {
    var segments := Segments(s);
    segments[|segments| - 1]
  }

  lemma PushOnConcat(c: char, x: seq<string>, y: seq<string>)
    requires |x| > 0
    ensures Push(c, x + y) == Push(c, x) + y
  {
  }

  /** A slash separates: the segments of both sides follow each other. */
  lemma {:induction false} SlashSeparates(a: string, b: string)
    ensures Segments(a + "/" + b) == Segments(a) + Segments(b)
  {
    var s := a + "/" + b;
    if a == [] {
      assert s[0] == '/' && s[1..] == b;
    } else {
      assert s[0] == a[0] && s[1..] == a[1..] + "/" + b;
      SlashSeparates(a[1..], b);
      PushOnConcat(a[0], Segments(a[1..]), Segments(b));
    }
  }

  lemma {:induction false} PlainSegment(s: string)
    requires '/' !in s
    ensures Segments(s) == [s]
  {
    if s != [] {
      assert s[0] in s && forall c :: c in s[1..] ==> c in s;
      PlainSegment(s[1..]);
      assert [s[0]] + s[1..] == s;
    }
  }

  /** A path has a segment that climbs. */
  predicate HasParentSegment(s: string) {
    ".." in Segments(s)
  }

  predicate HasExtension(s: string) {
    '.' in LastSegment(s)
  }

  /** `trim_start_matches('/')`. */
  function TrimSlashes(s: string): (r: string)
    ensures r != [] ==> r[0] != '/'
    ensures |r| <= |s|
  {
    if s != [] && s[0] == '/' then TrimSlashes(s[1..]) else s
  }

  /** `segments` ends with all of `tail`. */
  predicate TailOf(segments: seq<string>, tail: seq<string>) {
    |tail| <= |segments| && segments[|segments| - |tail|..] == tail
  }

  lemma TailMembers(segments: seq<string>, tail: seq<string>)
    requires TailOf(segments, tail)
    ensures forall x :: x in tail ==> x in segments
    ensures tail != [] ==> segments[|segments| - 1] == tail[|tail| - 1]
  {
    forall x | x in tail ensures x in segments {
      var i :| 0 <= i < |tail| && tail[i] == x;
      assert segments[|segments| - |tail|..][i] == segments[|segments| - |tail| + i];
    }
    if tail != [] {
      assert segments[|segments| - |tail|..][|tail| - 1] == segments[|segments| - 1];
    }
  }

  /** A character in front leaves proper tails alone. */
  lemma PushKeepsTail(c: char, segments: seq<string>, tail: seq<string>)
    requires TailOf(segments, tail) && (|tail| < |segments| || c == '/') && |segments| > 0
    ensures TailOf(Push(c, segments), tail) && |tail| < |Push(c, segments)|
  {
  }

  /** Leading slashes only add empty segments in front. */
  lemma {:induction false} TrimmedSegments(s: string)
    ensures TailOf(Segments(s), Segments(TrimSlashes(s)))
    ensures LastSegment(TrimSlashes(s)) == LastSegment(s)
  {
    if s != [] && s[0] == '/' {
      TrimmedSegments(s[1..]);
      var inner, tail := Segments(s[1..]), Segments(TrimSlashes(s));
      PushKeepsTail('/', inner, tail);
    }
    TailMembers(Segments(s), Segments(TrimSlashes(s)));
  }

  // ---- Dot segments --------------------------------------------------------------------

  predicate IsDot(segment: string) {
    segment == "." || segment == ".."
  }

  function Visit(out: seq<string>, segment: string): seq<string> {
    if segment == "." then out
    else if segment == ".." then (if out == [] then [] else out[..|out| - 1])
    else out + [segment]
  }

  function Walk(out: seq<string>, segments: seq<string>): seq<string>
    decreases |segments|
  {
    if segments == [] then
      out
    else
      Visit(Walk(out, segments[..|segments| - 1]), segments[|segments| - 1])
  }

  /** A segment followed by ".." is left out, and "." changes nothing. */
  lemma DotsCancel(out: seq<string>, segments: seq<string>, segment: string)
    requires !IsDot(segment)
    ensures Walk(out, segments + [segment] + [".."]) == Walk(out, segments)
    ensures Walk(out, segments + ["."]) == Walk(out, segments)
  {
    WalkAppend(out, segments + [segment], "..");
    WalkAppend(out, segments, segment);
    WalkAppend(out, segments, ".");
  }

  /** Every segment with a slash before it. */
  function Absolute(segments: seq<string>): string {
    if segments == [] then [] else "/" + segments[0] + Absolute(segments[1..])
  }

  /** `remove_dot_segments` of an absolute path. */
  function RemoveDots(path: string): string {
    var segments := Segments(path)[1..];
    var kept := Walk([], segments);
    if segments != [] && IsDot(segments[|segments| - 1]) then Absolute(kept + [[]]) else Absolute(kept)
  }

  lemma WalkAppend(out: seq<string>, segments: seq<string>, segment: string)
    ensures Walk(out, segments + [segment]) == Visit(Walk(out, segments), segment)
  {
    assert (segments + [segment])[..|segments|] == segments;
  }

  lemma {:induction false} AbsoluteAppend(segments: seq<string>, segment: string)
    ensures Absolute(segments + [segment]) == Absolute(segments) + ("/" + segment)
  {
    if segments == [] {
      assert segments + [segment] == [segment];
      assert Absolute([segment][1..]) == [];
      assert "/" + segment + [] == "/" + segment;
    } else {
      assert (segments + [segment])[1..] == segments[1..] + [segment];
      AbsoluteAppend(segments[1..], segment);
      var head, rest := "/" + segments[0], Absolute(segments[1..]);
      assert head + (rest + ("/" + segment)) == head + rest + ("/" + segment);
    }
  }

  /** A path whose last segment is no dot segment keeps that ending. */
  lemma RemoveDotsKeepsLast(path: string, front: seq<string>, last: string)
    requires Segments(path) == front + [last] && front != [] && !IsDot(last)
    ensures RemoveDots(path) == Absolute(Walk([], front[1..])) + ("/" + last)
  {
    assert Segments(path)[1..] == front[1..] + [last];
    WalkAppend([], front[1..], last);
    AbsoluteAppend(Walk([], front[1..]), last);
  }

  lemma RemoveDotsKeepsLastTwo(path: string, front: seq<string>, one: string, two: string)
    requires Segments(path) == front + [one] + [two] && front != [] && !IsDot(one) && !IsDot(two)
    ensures RemoveDots(path) == Absolute(Walk([], front[1..])) + ("/" + one) + ("/" + two)
  {
    RemoveDotsKeepsLast(path, front + [one], two);
    assert (front + [one])[1..] == front[1..] + [one];
    WalkAppend([], front[1..], one);
    AbsoluteAppend(Walk([], front[1..]), one);
  }

  /** Reading a relative path segment by segment from a directory: without climbing
      segments it never leaves the directory. */
  lemma {:induction false} WalkStaysUnder(root: seq<string>, segments: seq<string>)
    requires ".." !in segments
    ensures root <= Walk(root, segments)
  {
    if segments != [] {
      assert forall x :: x in segments[..|segments| - 1] ==> x in segments;
      WalkStaysUnder(root, segments[..|segments| - 1]);
    }
  }

  lemma {:induction false} WalkPlain(segments: seq<string>)
    requires forall x :: x in segments ==> !IsDot(x)
    ensures Walk([], segments) == segments
  {
    if segments != [] {
      var front, last := segments[..|segments| - 1], segments[|segments| - 1];
      assert last in segments && forall x :: x in front ==> x in segments;
      WalkPlain(front);
      assert segments == front + [last];
    }
  }

  /** Segments put together again. */
  lemma {:induction false} AbsoluteOfSegments(s: string)
    ensures Absolute(Segments(s)) == "/" + s
  {
    if s == [] {
      assert Segments(s)[1..] == [] && Absolute([]) == "";
    } else {
      var inner := Segments(s[1..]);
      AbsoluteOfSegments(s[1..]);
      if s[0] == '/' {
        assert ([[]] + inner)[1..] == inner;
        assert s == "/" + s[1..];
      } else {
        var rest := Absolute(inner[1..]);
        assert "/" + (inner[0] + rest) == "/" + inner[0] + rest;
        assert ("/" + inner[0] + rest)[1..] == inner[0] + rest == s[1..];
        assert ([[s[0]] + inner[0]] + inner[1..])[1..] == inner[1..];
        assert "/" + ([s[0]] + inner[0]) + rest == "/" + ([s[0]] + (inner[0] + rest));
      }
    }
  }

  lemma PlainWalkStays(segments: seq<string>)
    requires segments != [] && forall x :: x in segments ==> !IsDot(x)
    ensures Walk([], segments) == segments && !IsDot(segments[|segments| - 1])
  {
    WalkPlain(segments);
  }

  lemma PlainPathStays(path: string)
    requires path != [] && path[0] == '/'
    requires forall x :: x in Segments(path) ==> !IsDot(x)
    ensures RemoveDots(path) == path
  {
    var segments := Segments(path[1..]);
    assert Segments(path) == [[]] + segments;
    assert Segments(path)[1..] == segments;
    forall x | x in segments ensures !IsDot(x) {
      assert x in Segments(path);
    }
    PlainWalkStays(segments);
    AbsoluteOfSegments(path[1..]);
    assert path == "/" + path[1..];
  }
}
