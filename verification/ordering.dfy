/** The `sort({ createdAt: -1 })` the list queries apply: a stable insertion
    sort on a timestamp key, newest first. */
module Ordering {

  /** Every element's key is at least that of every later element. */
  ghost predicate NewestFirst<T>(s: seq<T>, key: T -> int) {
    forall i, j :: 0 <= i < j < |s| ==> key(s[i]) >= key(s[j])
  }

  /** `x` placed before the first element whose key is not greater than its own. */
  function Insert<T>(x: T, s: seq<T>, key: T -> int): (r: seq<T>)
    requires NewestFirst(s, key)
    ensures NewestFirst(r, key)
    ensures multiset(r) == multiset(s) + multiset{x}
  {
    if s == [] then [x]
    else if key(x) >= key(s[0]) then [x] + s
    else
      TailOf(s, key);
      var rest := Insert(x, s[1..], key);
      HeadBoundsInsert(x, s, rest, key);
      ConsNewestFirst(s[0], rest, key);
      MultisetTail(s);
      [s[0]] + rest
  }

  /** When the head of `s` is newer than `x`, it is at least as new as every
      element of `x` inserted into the tail. */
  lemma HeadBoundsInsert<T>(x: T, s: seq<T>, rest: seq<T>, key: T -> int)
    requires NewestFirst(s, key) && |s| > 0 && key(x) < key(s[0])
    requires multiset(rest) == multiset(s[1..]) + multiset{x}
    ensures forall k :: 0 <= k < |rest| ==> key(s[0]) >= key(rest[k])
  {
    forall k | 0 <= k < |rest|
      ensures key(s[0]) >= key(rest[k])
    {
      assert rest[k] in multiset(rest);
      if rest[k] != x {
        assert rest[k] in multiset(s[1..]);
        var j :| 0 <= j < |s[1..]| && s[1..][j] == rest[k];
        assert s[1..][j] == s[j + 1];
      }
    }
  }

  /** An element at least as new as every element of a newest-first
      sequence can go in front of it. */
  lemma ConsNewestFirst<T>(h: T, t: seq<T>, key: T -> int)
    requires NewestFirst(t, key)
    requires forall k :: 0 <= k < |t| ==> key(h) >= key(t[k])
    ensures NewestFirst([h] + t, key)
  {
    var r := [h] + t;
    forall i, j | 0 <= i < j < |r|
      ensures key(r[i]) >= key(r[j])
    {
      assert r[j] == t[j - 1];
      if i > 0 {
        assert r[i] == t[i - 1];
      }
    }
  }

  /** `s` rearranged newest first. */
  function SortNewestFirst<T>(s: seq<T>, key: T -> int): (r: seq<T>)
    ensures NewestFirst(r, key)
    ensures multiset(r) == multiset(s)
  {
    if s == [] then []
    else
      assert s == [s[0]] + s[1..];
      Insert(s[0], SortNewestFirst(s[1..], key), key)
  }

  /** A contiguous piece of a newest-first sequence is newest first. */
  lemma SliceNewestFirst<T>(s: seq<T>, key: T -> int, a: nat, b: nat)
    requires NewestFirst(s, key) && a <= b <= |s|
    ensures NewestFirst(s[a..b], key)
  {
    forall i, j | 0 <= i < j < b - a
      ensures key(s[a..b][i]) >= key(s[a..b][j])
    {
      assert s[a..b][i] == s[a + i] && s[a..b][j] == s[a + j];
    }
  }

  /** Elements of `s` that share a key are the same element: the only ties
      are copies of one value. */
  ghost predicate TiesIdentical<T>(s: seq<T>, key: T -> int) {
    forall i, j :: 0 <= i < |s| && 0 <= j < |s| && key(s[i]) == key(s[j]) ==> s[i] == s[j]
  }

  /** When ties are identical, there is only one newest-first arrangement of
      a collection: whichever order the database picks among the ties, the
      result is the same sequence. */
  lemma {:induction false} NewestFirstUnique<T>(a: seq<T>, b: seq<T>, key: T -> int)
    requires NewestFirst(a, key) && NewestFirst(b, key)
    requires multiset(a) == multiset(b) && TiesIdentical(a, key)
    ensures a == b
  {
    assert |a| == |multiset(a)| == |multiset(b)| == |b|;
    if a != [] {
      SameHead(a, b, key);
      TailOf(a, key);
      TailOf(b, key);
      MultisetTail(a);
      MultisetTail(b);
      NewestFirstUnique(a[1..], b[1..], key);
      SameHeadSameTail(a, b);
    }
  }

  /** Rearranging a collection keeps its ties identical. */
  lemma TiesOfPermutation<T>(a: seq<T>, b: seq<T>, key: T -> int)
    requires multiset(a) == multiset(b) && TiesIdentical(a, key)
    ensures TiesIdentical(b, key)
  {
    forall i, j | 0 <= i < |b| && 0 <= j < |b| && key(b[i]) == key(b[j])
      ensures b[i] == b[j]
    {
      assert b[i] in multiset(a) && b[j] in multiset(a);
      var i' :| 0 <= i' < |a| && a[i'] == b[i];
      var j' :| 0 <= j' < |a| && a[j'] == b[j];
    }
  }

  lemma SameHeadSameTail<T>(a: seq<T>, b: seq<T>)
    requires |a| > 0 && |b| > 0 && a[0] == b[0] && a[1..] == b[1..]
    ensures a == b
  {
    assert a == [a[0]] + a[1..] && b == [b[0]] + b[1..];
  }

  lemma MultisetTail<T>(s: seq<T>)
    requires |s| > 0
    ensures multiset(s[1..]) == multiset(s) - multiset{s[0]}
  {
    assert s == [s[0]] + s[1..];
  }

  /** Two newest-first arrangements of one collection with identical ties
      begin with the same element. */
  lemma SameHead<T>(a: seq<T>, b: seq<T>, key: T -> int)
    requires NewestFirst(a, key) && NewestFirst(b, key)
    requires multiset(a) == multiset(b) && TiesIdentical(a, key)
    requires |a| > 0 && |b| > 0
    ensures a[0] == b[0]
  {
    assert a[0] in multiset(b) && b[0] in multiset(a);
    var j :| 0 <= j < |b| && b[j] == a[0];
    var i :| 0 <= i < |a| && a[i] == b[0];
    assert key(b[0]) >= key(b[j]);
    assert key(a[0]) >= key(a[i]);
  }

  /** Dropping the first element keeps the order and the identical ties. */
  lemma TailOf<T>(s: seq<T>, key: T -> int)
    requires NewestFirst(s, key) && |s| > 0
    ensures NewestFirst(s[1..], key)
    ensures TiesIdentical(s, key) ==> TiesIdentical(s[1..], key)
  {
    SliceNewestFirst(s, key, 1, |s|);
    assert s[1..] == s[1..|s|];
    if TiesIdentical(s, key) {
      forall i, j | 0 <= i < |s[1..]| && 0 <= j < |s[1..]| && key(s[1..][i]) == key(s[1..][j])
        ensures s[1..][i] == s[1..][j]
      {
        assert s[1..][i] == s[i + 1] && s[1..][j] == s[j + 1];
      }
    }
  }
}
