/** The part of Go's `strings` package the file-extension helpers rely on:
    `Index`, `Split` and `Join` with a one-character separator. */
module GoStrings {

  /** No character of `t` is `c`. */
  predicate Free(t: string, c: char)
  {
    forall j :: 0 <= j < |t| ==> t[j] != c
  }

  /** strings.Index: position of the first `c` in `s`, or -1 when there is none. */
  function Index(s: string, c: char): (i: int)
    ensures -1 <= i < |s|
  {
    if s == [] then -1
    else if s[0] == c then 0
    else
      var j := Index(s[1..], c);
      if j == -1 then -1 else j + 1
  }

  /** A position `Index` returns holds `c`. */
  lemma {:induction false} IndexHit(s: string, c: char)
    ensures Index(s, c) != -1 ==> s[Index(s, c)] == c
  {
    if s != [] && s[0] != c {
      IndexHit(s[1..], c);
    }
  }

  /** `Index` finds the first occurrence: -1 exactly when `c` does not occur,
      otherwise a position holding `c` with no `c` before it. */
  lemma {:induction false} IndexFacts(s: string, c: char)
    ensures Index(s, c) == -1 ==> Free(s, c)
    ensures Index(s, c) != -1 ==> s[Index(s, c)] == c && Free(s[..Index(s, c)], c)
  {
    IndexHit(s, c);
    if s != [] && s[0] != c {
      IndexFacts(s[1..], c);
      var j := Index(s[1..], c);
      if j != -1 {
        assert s[..j + 1] == [s[0]] + s[1..][..j];
      }
    }
  }

  /** strings.Split with a non-empty separator: cut `s` at every `sep`.
      Go returns one more element than there are separators, so never an
      empty slice; no element contains the separator. */
  function Split(s: string, sep: char): (parts: seq<string>)
    ensures |parts| >= 1
    decreases |s|
  {
    var i := Index(s, sep);
    if i == -1 then [s] else [s[..i]] + Split(s[i + 1..], sep)
  }

  /** No element of `Split(s, sep)` contains the separator. */
  lemma {:induction false} SplitPartsFree(s: string, sep: char)
    ensures forall k :: 0 <= k < |Split(s, sep)| ==> Free(Split(s, sep)[k], sep)
    decreases |s|
  {
    var i := Index(s, sep);
    IndexFacts(s, sep);
    if i != -1 {
      var rest := s[i + 1..];
      SplitPartsFree(rest, sep);
      SplitStep(s, sep);
    }
  }

  /** One step of `Split`: the text before the first separator, then the
      split of the text after it. */
  lemma SplitStep(s: string, sep: char)
    requires Index(s, sep) != -1
    ensures Split(s, sep) == [s[..Index(s, sep)]] + Split(s[Index(s, sep) + 1..], sep)
  {
  }

  /** strings.Join: the elements of `parts` with `sep` between neighbours. */
  function Join(parts: seq<string>, sep: char): string
  {
    if |parts| == 0 then []
    else if |parts| == 1 then parts[0]
    else parts[0] + [sep] + Join(parts[1..], sep)
  }

  /** Joining a first element onto at least one more. */
  lemma JoinCons(head: string, tail: seq<string>, sep: char)
    requires |tail| >= 1
    ensures Join([head] + tail, sep) == head + [sep] + Join(tail, sep)
  {
    assert ([head] + tail)[1..] == tail;
  }

  /** Splitting and joining again gives back the original string. */
  lemma {:induction false} JoinSplit(s: string, sep: char)
    ensures Join(Split(s, sep), sep) == s
    decreases |s|
  {
    var i := Index(s, sep);
    if i != -1 {
      var rest := s[i + 1..];
      var parts := Split(rest, sep);
      JoinSplit(rest, sep);
      IndexHit(s, sep);
      SplitStep(s, sep);
      JoinCons(s[..i], parts, sep);
      assert s == s[..i] + [sep] + rest;
    }
  }

  /** The last element of `Split(s, sep)`; the index `|parts| - 1` is always
      in range because `Split` never returns an empty sequence. */
  function LastSegment(s: string, sep: char): string
  {
    var parts := Split(s, sep);
    parts[|parts| - 1]
  }

  /** Independent description of the text after the last separator: a suffix
      of `s` with no `sep` in it that is either all of `s` or is preceded by
      a `sep`. */
  ghost predicate IsLastSegment(s: string, sep: char, t: string)
  {
    && |t| <= |s|
    && t == s[|s| - |t|..]
    && Free(t, sep)
    && (|t| < |s| ==> s[|s| - |t| - 1] == sep)
  }

  lemma {:induction false} LastSegmentIsLastSegment(s: string, sep: char)
    ensures IsLastSegment(s, sep, LastSegment(s, sep))
    decreases |s|
  {
    var i := Index(s, sep);
    if i == -1 {
      LastSegmentWithoutSeparator(s, sep);
    } else {
      var rest := s[i + 1..];
      LastSegmentIsLastSegment(rest, sep);
      IndexHit(s, sep);
      LastSegmentSkipsFirst(s, sep, i);
      LastSegmentAfterSeparator(s, sep, i, LastSegment(rest, sep));
    }
  }

  /** Without a separator, the last segment is all of `s`. */
  lemma LastSegmentWithoutSeparator(s: string, sep: char)
    requires Index(s, sep) == -1
    ensures IsLastSegment(s, sep, LastSegment(s, sep))
  {
    IndexFacts(s, sep);
    assert Split(s, sep) == [s];
    assert s[|s| - |s|..] == s;
  }

  /** When `s` has a separator, its last segment is that of the text after
      the first one. */
  lemma LastSegmentSkipsFirst(s: string, sep: char, i: int)
    requires i == Index(s, sep) && i != -1
    ensures LastSegment(s, sep) == LastSegment(s[i + 1..], sep)
  {
    SplitStep(s, sep);
    LastOfCons(s[..i], Split(s[i + 1..], sep), Split(s, sep));
  }

  /** The last element of a sequence with one more element in front. */
  lemma LastOfCons<T>(head: T, tail: seq<T>, whole: seq<T>)
    requires |tail| >= 1 && whole == [head] + tail
    ensures whole[|whole| - 1] == tail[|tail| - 1]
  {
  }

  /** The text after the last separator of `s[i + 1..]`, where `s[i]` is a
      separator, is also the text after the last separator of `s`. */
  lemma LastSegmentAfterSeparator(s: string, sep: char, i: nat, t: string)
    requires i < |s| && s[i] == sep
    requires IsLastSegment(s[i + 1..], sep, t)
    ensures IsLastSegment(s, sep, t)
  {
    var rest := s[i + 1..];
    assert s[|s| - |t|..] == rest[|rest| - |t|..];
    if |t| < |rest| {
      assert s[|s| - |t| - 1] == rest[|rest| - |t| - 1];
    }
  }

  /** At most one string has the shape `IsLastSegment` describes. */
  lemma LastSegmentUnique(s: string, sep: char, t: string, u: string)
    requires IsLastSegment(s, sep, t) && IsLastSegment(s, sep, u)
    ensures t == u
  {
  }

  /** `LastSegment` is exactly the text after the last separator. */
  lemma LastSegmentCharacterized(s: string, sep: char, t: string)
    ensures LastSegment(s, sep) == t <==> IsLastSegment(s, sep, t)
  {
    LastSegmentIsLastSegment(s, sep);
    if IsLastSegment(s, sep, t) {
      LastSegmentUnique(s, sep, t, LastSegment(s, sep));
    }
  }

  /** The consequences for file names: no separator in the result; the whole
      string when it has no separator; empty exactly when `s` is empty or ends
      with the separator; otherwise `s` is some prefix, a separator, and the
      result. */
  lemma LastSegmentFacts(s: string, sep: char)
    ensures sep !in LastSegment(s, sep)
    ensures sep !in s ==> LastSegment(s, sep) == s
    ensures LastSegment(s, sep) == [] <==> s == [] || s[|s| - 1] == sep
    ensures sep in s ==>
      var t := LastSegment(s, sep);
      |t| < |s| && s == s[..|s| - |t| - 1] + [sep] + t
  {
    var t := LastSegment(s, sep);
    LastSegmentIsLastSegment(s, sep);
    if |t| > 0 && |s| > 0 {
      assert t[|t| - 1] == s[|s| - 1];
    }
    if sep in s {
      assert s == s[..|s| - |t| - 1] + [sep] + s[|s| - |t|..];
    }
  }
}
