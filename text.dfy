/**
 * The string operations the engine relies on: JavaScript's `String.prototype.split`
 * with a one-character separator, and its inverse `Array.prototype.join`.
 */
module Text {

  /** `s.split(sep)`: one segment per separator plus one, empty segments kept. */
  function Split(s: string, sep: char): (parts: seq<string>)
    ensures |parts| >= 1
    ensures forall i :: 0 <= i < |parts| ==> sep !in parts[i]
    decreases |s|
  {
    if s == [] then [""]
    else
      var rest := Split(s[1..], sep);
      if s[0] == sep then [""] + rest
      else [[s[0]] + rest[0]] + rest[1..]
  }

  /** `parts.join(sep)`. */
  function Join(parts: seq<string>, sep: char): string
    decreases |parts|
  {
    if parts == [] then ""
    else if |parts| == 1 then parts[0]
    else parts[0] + [sep] + Join(parts[1..], sep)
  }

  /** The last element of `s.split(sep)`, what `split(sep).pop()` returns. */
  function LastSegment(s: string, sep: char): string {
    var parts := Split(s, sep); parts[|parts| - 1]
  }

  /** `t` is the text of `s` after its last `sep` (all of `s` when it has none). */
  ghost predicate IsLastSegment(t: string, s: string, sep: char) {
    && |t| <= |s|
    && t == s[|s| - |t|..]
    && sep !in t
    && (|t| == |s| || s[|s| - |t| - 1] == sep)
  }

  /** `p` is the text of `s` before its first `sep` (all of `s` when it has none). */
  ghost predicate IsFirstSegment(p: string, s: string, sep: char) {
    && |p| <= |s|
    && p == s[..|p|]
    && sep !in p
    && (|p| == |s| || s[|p|] == sep)
  }

  /** Splitting at a separator splits the two sides independently. */
  lemma {:induction false} SplitAroundSeparator(a: string, b: string, sep: char)
    ensures Split(a + [sep] + b, sep) == Split(a, sep) + Split(b, sep)
    decreases |a|
  {
    if a == [] {
      assert a + [sep] + b == [sep] + b;
      assert ([sep] + b)[1..] == b;
    } else {
      assert (a + [sep] + b)[1..] == a[1..] + [sep] + b;
      SplitAroundSeparator(a[1..], b, sep);
    }
  }

  /** A string without the separator is a single segment. */
  lemma {:induction false} SplitWithoutSeparator(s: string, sep: char)
    requires sep !in s
    ensures Split(s, sep) == [s]
    decreases |s|
  {
    if s != [] {
      assert sep !in s[1..] by {
        forall k | 0 <= k < |s[1..]| ensures s[1..][k] != sep { assert s[1..][k] == s[k + 1]; }
      }
      SplitWithoutSeparator(s[1..], sep);
      assert [s[0]] + s[1..] == s;
    }
  }

  /** Joining the segments gives back the string. */
  lemma {:induction false} JoinSplit(s: string, sep: char)
    ensures Join(Split(s, sep), sep) == s
    decreases |s|
  {
    if s != [] {
      JoinSplit(s[1..], sep);
      var rest := Split(s[1..], sep);
      if s[0] == sep {
        assert ([""] + rest)[1..] == rest;
      } else {
        var parts := [[s[0]] + rest[0]] + rest[1..];
        if |rest| == 1 {
          assert s == [s[0]] + s[1..];
        } else {
          assert parts[1..] == rest[1..];
          assert Join(rest, sep) == rest[0] + [sep] + Join(rest[1..], sep);
          assert s == [s[0]] + s[1..];
        }
      }
    }
  }

  /** Splitting joined separator-free segments gives back the segments. */
  lemma {:induction false} SplitJoin(parts: seq<string>, sep: char)
    requires |parts| >= 1
    requires forall i :: 0 <= i < |parts| ==> sep !in parts[i]
    ensures Split(Join(parts, sep), sep) == parts
    decreases |parts|
  {
    SplitWithoutSeparator(parts[0], sep);
    if |parts| > 1 {
      SplitJoin(parts[1..], sep);
      SplitAroundSeparator(parts[0], Join(parts[1..], sep), sep);
      assert [parts[0]] + parts[1..] == parts;
    }
  }

  /** Joining a longer list adds one separator and the new last part. */
  lemma {:induction false} JoinSnoc(parts: seq<string>, last: string, sep: char)
    requires |parts| >= 1
    ensures Join(parts + [last], sep) == Join(parts, sep) + [sep] + last
    decreases |parts|
  {
    if |parts| == 1 {
      assert (parts + [last])[1..] == [last];
    } else {
      assert (parts + [last])[1..] == parts[1..] + [last];
      JoinSnoc(parts[1..], last, sep);
    }
  }

  /** The first segment is the text before the first separator. */
  lemma {:induction false} FirstSegmentOfSplit(s: string, sep: char)
    ensures IsFirstSegment(Split(s, sep)[0], s, sep)
    decreases |s|
  {
    if s != [] {
      FirstSegmentOfSplit(s[1..], sep);
    }
  }

  /** The last segment is the text after the last separator. */
  lemma LastSegmentOfSplit(s: string, sep: char)
    ensures IsLastSegment(LastSegment(s, sep), s, sep)
  {
    var parts := Split(s, sep);
    var n := |parts|;
    JoinSplit(s, sep);
    if n > 1 {
      assert parts == parts[..n - 1] + [parts[n - 1]];
      JoinSnoc(parts[..n - 1], parts[n - 1], sep);
    }
  }

  /** The string is the text before its last separator followed by its last segment. */
  lemma LastSegmentDecomposition(s: string, sep: char)
    ensures var t := LastSegment(s, sep);
      t == s || (|t| < |s| && s == s[..|s| - |t| - 1] + [sep] + t)
  {
    LastSegmentOfSplit(s, sep);
  }

  /** Appending to the last segment alone gives the same last segment as appending to the whole. */
  lemma LastSegmentOfAppend(s: string, v: string, sep: char)
    ensures LastSegment(LastSegment(s, sep) + v, sep) == LastSegment(s + v, sep)
  {
    var t := LastSegment(s, sep);
    LastSegmentDecomposition(s, sep);
    if t != s {
      var a := s[..|s| - |t| - 1];
      assert s + v == a + [sep] + (t + v);
      SplitAroundSeparator(a, t + v, sep);
    }
  }

  /** The last segment of a join of separator-free parts is the last part. */
  lemma LastSegmentOfJoin(parts: seq<string>, sep: char)
    requires |parts| >= 1
    requires forall i :: 0 <= i < |parts| ==> sep !in parts[i]
    ensures LastSegment(Join(parts, sep), sep) == parts[|parts| - 1]
  {
    SplitJoin(parts, sep);
  }
}
