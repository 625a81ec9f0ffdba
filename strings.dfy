/**
 * Kotlin's `String.split(delimiter)` for a one-character delimiter and no limit,
 * and its inverse, joining with the delimiter.
 *
 * Kotlin scans with `indexOf` from the current offset, emits the text before each
 * occurrence and finally the rest of the string; unlike Java it never drops
 * empty pieces, trailing ones included, so `"".split(",")` is `[""]`.
 */
module Strings {

  /** Index of the first `x` in `xs`, or `|xs|` when there is none. */
  function FirstIndex<T(==)>(xs: seq<T>, x: T): (i: nat)
    ensures i <= |xs|
    ensures i < |xs| ==> xs[i] == x
    ensures forall k :: 0 <= k < i ==> xs[k] != x
    ensures i == |xs| <==> x !in xs
  {
    if xs == [] then 0 else if xs[0] == x then 0 else 1 + FirstIndex(xs[1..], x)
  }

  /** Number of occurrences of `x` in `xs`. */
  function Count<T(==)>(xs: seq<T>, x: T): nat {
    if xs == [] then 0 else (if xs[0] == x then 1 else 0) + Count(xs[1..], x)
  }

  /** `s.split(c)`: the pieces of `s` between the occurrences of `c`, in order. */
  function Split(s: string, c: char): (parts: seq<string>)
    ensures |parts| >= 1
    ensures forall k :: 0 <= k < |parts| ==> c !in parts[k]
    decreases |s|
  {
    var i := FirstIndex(s, c);
    if i == |s| then [s] else [s[..i]] + Split(s[i + 1..], c)
  }

  /** `parts.joinToString(c)`. */
  function Join(parts: seq<string>, c: char): string {
    if |parts| == 0 then ""
    else if |parts| == 1 then parts[0]
    else parts[0] + [c] + Join(parts[1..], c)
  }

  lemma JoinCons(p: string, rest: seq<string>, c: char)
    requires |rest| >= 1
    ensures Join([p] + rest, c) == p + [c] + Join(rest, c)
  {
    assert ([p] + rest)[1..] == rest;
  }

  lemma {:induction false} CountAppend<T>(a: seq<T>, b: seq<T>, x: T)
    ensures Count(a + b, x) == Count(a, x) + Count(b, x)
  {
    if a == [] {
      assert a + b == b;
    } else {
      assert (a + b)[1..] == a[1..] + b;
      CountAppend(a[1..], b, x);
    }
  }

  lemma {:induction false} CountAbsent<T>(a: seq<T>, x: T)
    requires x !in a
    ensures Count(a, x) == 0
  {
    if a != [] {
      CountAbsent(a[1..], x);
    }
  }

  /** Joining the pieces back with the delimiter gives the original string. */
  lemma {:induction false} JoinSplit(s: string, c: char)
    ensures Join(Split(s, c), c) == s
    decreases |s|
  {
    var i := FirstIndex(s, c);
    if i < |s| {
      var rest := Split(s[i + 1..], c);
      JoinSplit(s[i + 1..], c);
      JoinCons(s[..i], rest, c);
      SliceAround(s, i);
    }
  }

  /** A string is the text before position `i`, the character there, and the text after it. */
  lemma SliceAround<T>(s: seq<T>, i: nat)
    requires i < |s|
    ensures s == s[..i] + [s[i]] + s[i + 1..]
  {
  }

  /** There is exactly one piece more than there are delimiters: no piece is dropped. */
  lemma {:induction false} SplitLength(s: string, c: char)
    ensures |Split(s, c)| == Count(s, c) + 1
    decreases |s|
  {
    var i := FirstIndex(s, c);
    if i == |s| {
      CountAbsent(s, c);
    } else {
      SplitLength(s[i + 1..], c);
      assert s == s[..i] + ([c] + s[i + 1..]);
      CountAppend(s[..i], [c] + s[i + 1..], c);
      CountAppend([c], s[i + 1..], c);
      CountAbsent(s[..i], c);
    }
  }

  /** Splitting a join of delimiter-free pieces gives the pieces back, empty ones included. */
  lemma {:induction false} SplitJoin(parts: seq<string>, c: char)
    requires |parts| >= 1
    requires forall k :: 0 <= k < |parts| ==> c !in parts[k]
    ensures Split(Join(parts, c), c) == parts
    decreases |parts|
  {
    var p := parts[0];
    if |parts| == 1 {
      assert FirstIndex(p, c) == |p|;
    } else {
      var rest := parts[1..];
      assert parts == [p] + rest;
      JoinCons(p, rest, c);
      var s := Join(parts, c);
      assert s == p + ([c] + Join(rest, c));
      FirstIndexAfter(p, [c] + Join(rest, c), c);
      assert s[..|p|] == p;
      assert s[|p| + 1..] == Join(rest, c);
      SplitJoin(rest, c);
    }
  }

  lemma FirstIndexAfter<T>(a: seq<T>, b: seq<T>, x: T)
    requires x !in a && |b| >= 1 && b[0] == x
    ensures FirstIndex(a + b, x) == |a|
  {
    assert (a + b)[|a|] == x;
    assert forall k :: 0 <= k < |a| ==> (a + b)[k] == a[k];
  }

  /** A string splits into two or more pieces exactly when it contains the delimiter. */
  lemma SplitMany(s: string, c: char)
    ensures |Split(s, c)| >= 2 <==> c in s
  {
  }

  /** The first piece is the text before the first delimiter. */
  lemma SplitFirst(s: string, c: char)
    ensures Split(s, c)[0] == s[..FirstIndex(s, c)]
  {
  }

  /** A string that ends with the delimiter splits with an empty last piece. */
  lemma {:induction false} SplitTrailing(s: string, c: char)
    requires |s| >= 1 && s[|s| - 1] == c
    ensures Split(s, c)[|Split(s, c)| - 1] == ""
    decreases |s|
  {
    var i := FirstIndex(s, c);
    var t := s[i + 1..];
    if t == [] {
      assert FirstIndex(t, c) == 0;
    } else {
      assert t[|t| - 1] == c;
      SplitTrailing(t, c);
    }
  }

  /** A string that starts with the delimiter or doubles it splits with an empty piece. */
  lemma {:induction false} SplitEmptyPiece(s: string, c: char, k: nat)
    requires k < |s| && s[k] == c
    requires k == 0 || s[k - 1] == c
    ensures "" in Split(s, c)
    decreases |s|
  {
    var i := FirstIndex(s, c);
    assert i <= k;
    var t := s[i + 1..];
    var rest := Split(t, c);
    assert Split(s, c) == [s[..i]] + rest;
    if i == k {
      assert i == 0;
    } else {
      if i == k - 1 {
        assert t[0] == c;
        assert FirstIndex(t, c) == 0;
        assert rest[0] == "";
      } else {
        SplitEmptyPiece(t, c, k - i - 1);
      }
      assert "" in rest;
    }
  }
}
