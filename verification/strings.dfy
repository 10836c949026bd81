/** String operations the source relies on, with the ECMAScript meaning of each:
    `startsWith`, `includes`, `split` with a non-empty separator, `trim`, the
    regular-expression class `\S`, and `toLowerCase` on ASCII letters. */
module Strings {
  import opened Wrappers

  /** `s.startsWith(prefix)`. */
  predicate StartsWith(s: string, prefix: string) {
    |prefix| <= |s| && s[..|prefix|] == prefix
  }

  /** `t` occurs in `s` at index `i`. */
  predicate OccursAt(s: string, t: string, i: int) {
    0 <= i && i + |t| <= |s| && s[i..i + |t|] == t
  }

  /** `s.includes(t)`. */
  predicate Contains(s: string, t: string) {
    exists i :: 0 <= i <= |s| && OccursAt(s, t, i)
  }

  lemma StartsWithIsOccurrenceAtZero(s: string, p: string)
    ensures StartsWith(s, p) <==> OccursAt(s, p, 0)
  {
  }

  /** A string lacking one of the characters of `t` does not contain `t`. */
  lemma MissingCharNotContained(s: string, t: string, k: nat)
    requires k < |t| && t[k] !in s
    ensures !Contains(s, t)
  {
  }

  /** A prefix of a prefix is a prefix. */
  lemma StartsWithTransitive(s: string, p: string, q: string)
    requires StartsWith(s, p) && StartsWith(p, q)
    ensures StartsWith(s, q)
  {
    assert s[..|q|] == s[..|p|][..|q|];
  }

  /** The first occurrence of `t` in `s` at or after index `k`. */
  function IndexFrom(s: string, t: string, k: nat): (r: Option<nat>)
    requires k <= |s|
    decreases |s| - k
    ensures r.Some? ==> k <= r.value && OccursAt(s, t, r.value)
    ensures r.Some? ==> forall j :: k <= j < r.value ==> !OccursAt(s, t, j)
    ensures r.None? ==> forall j :: k <= j ==> !OccursAt(s, t, j)
  {
    if OccursAt(s, t, k) then Some(k)
    else if k + |t| >= |s| then None
    else IndexFrom(s, t, k + 1)
  }

  /** The pieces `s.split(sep)` yields from index `p` on, for a non-empty
      separator: each piece ends where the next occurrence of `sep` begins,
      and the search resumes just after that occurrence. */
  function SplitFrom(s: string, sep: string, p: nat): (parts: seq<string>)
    requires |sep| > 0 && p <= |s|
    decreases |s| - p
    ensures |parts| >= 1
  {
    match IndexFrom(s, sep, p)
    case None => [s[p..]]
    case Some(i) => [s[p..i]] + SplitFrom(s, sep, i + |sep|)
  }

  /** `s.split(sep)` for a non-empty separator. */
  function Split(s: string, sep: string): (parts: seq<string>)
    requires |sep| > 0
    ensures |parts| >= 1
  {
    SplitFrom(s, sep, 0)
  }

  /** `sep` occurs at `i`, nowhere before it, and nowhere after the end of
      that occurrence: splitting at `i` is the only split that happens. */
  ghost predicate SoleSplitPoint(s: string, sep: string, i: int) {
    && OccursAt(s, sep, i)
    && (forall j :: 0 <= j < i ==> !OccursAt(s, sep, j))
    && (forall j :: i + |sep| <= j <= |s| ==> !OccursAt(s, sep, j))
  }

  /** Splitting yields exactly two pieces iff there is a sole split point,
      and the second piece is then everything after that occurrence. */
  lemma {:induction false} SplitInTwo(s: string, sep: string)
    requires |sep| > 0
    ensures |Split(s, sep)| == 2 <==> exists i :: SoleSplitPoint(s, sep, i)
    ensures forall i :: SoleSplitPoint(s, sep, i) ==>
              Split(s, sep) == [s[..i], s[i + |sep|..]]
  {
    match IndexFrom(s, sep, 0)
    case None =>
      assert Split(s, sep) == [s];
    case Some(i) =>
      var rest := SplitFrom(s, sep, i + |sep|);
      assert Split(s, sep) == [s[..i]] + rest;
      match IndexFrom(s, sep, i + |sep|)
      case None =>
        assert rest == [s[i + |sep|..]];
        assert SoleSplitPoint(s, sep, i);
      case Some(k) =>
        assert |rest| >= 2;
        assert OccursAt(s, sep, k);
  }

  /** Without any occurrence, the first piece of a split is the whole string;
      otherwise it is the text before the first occurrence. */
  lemma FirstPiece(s: string, sep: string)
    requires |sep| > 0
    ensures (forall j :: 0 <= j ==> !OccursAt(s, sep, j)) ==> Split(s, sep)[0] == s
    ensures forall i :: OccursAt(s, sep, i) && (forall j :: 0 <= j < i ==> !OccursAt(s, sep, j)) ==>
              Split(s, sep)[0] == s[..i]
  {
  }

  /** Splitting on one character, the first piece is the longest prefix
      free of that character. */
  lemma {:induction false} FirstPieceAtChar(s: string, c: char)
    ensures var p := Split(s, [c])[0];
            && StartsWith(s, p) && c !in p
            && (|p| == |s| || s[|p|] == c)
            && (p == "" <==> s == "" || s[0] == c)
  {
    match IndexFrom(s, [c], 0)
    case None =>
      assert Split(s, [c]) == [s];
      forall k | 0 <= k < |s|
        ensures s[k] != c
      {
        assert !OccursAt(s, [c], k);
        assert s[k..k + 1] == [s[k]];
      }
    case Some(i) =>
      assert Split(s, [c])[0] == s[..i];
      assert s[i..i + 1] == [c];
      forall k | 0 <= k < i
        ensures s[k] != c
      {
        assert !OccursAt(s, [c], k);
        assert s[k..k + 1] == [s[k]];
      }
  }

  /** The characters ECMAScript counts as white space or line terminators:
      what `trim` removes and what the class `\S` excludes. */
  predicate IsWhitespace(c: char) {
    || c == ' ' || c == '\t' || c == '\n' || c == '\r'
    || c == '\U{000B}' || c == '\U{000C}' || c == '\U{00A0}' || c == '\U{FEFF}'
    || c == '\U{1680}' || ('\U{2000}' <= c <= '\U{200A}')
    || c == '\U{2028}' || c == '\U{2029}' || c == '\U{202F}' || c == '\U{205F}'
    || c == '\U{3000}'
  }

  /** No character of `s` is white space. */
  predicate NoWhitespace(s: string) {
    forall k :: 0 <= k < |s| ==> !IsWhitespace(s[k])
  }

  /** `s` with its leading white space removed. */
  function TrimStart(s: string): (r: string)
    ensures |r| <= |s| && r == s[|s| - |r|..]
    ensures r == "" || !IsWhitespace(r[0])
    ensures forall k :: 0 <= k < |s| - |r| ==> IsWhitespace(s[k])
  {
    if |s| > 0 && IsWhitespace(s[0]) then TrimStart(s[1..]) else s
  }

  /** `s` with its trailing white space removed. */
  function TrimEnd(s: string): (r: string)
    ensures |r| <= |s| && r == s[..|r|]
    ensures r == "" || !IsWhitespace(r[|r| - 1])
    ensures forall k :: |r| <= k < |s| ==> IsWhitespace(s[k])
  {
    if |s| > 0 && IsWhitespace(s[|s| - 1]) then TrimEnd(s[..|s| - 1]) else s
  }

  /** `s.trim()`: the piece of `s` left after dropping the white space on
      either side; it neither begins nor ends with white space. */
  function Trim(s: string): (r: string)
    ensures |r| <= |s|
    ensures Contains(s, r)
    ensures r == "" || (!IsWhitespace(r[0]) && !IsWhitespace(r[|r| - 1]))
    ensures WhitespaceAround(s, r, |s| - |TrimStart(s)|)
  {
    TrimPieces(s);
    TrimEnd(TrimStart(s))
  }

  /** Trimming the start and then the end leaves a piece of `s` framed by
      white space. */
  lemma TrimPieces(s: string)
    ensures OccursAt(s, TrimEnd(TrimStart(s)), |s| - |TrimStart(s)|)
    ensures WhitespaceAround(s, TrimEnd(TrimStart(s)), |s| - |TrimStart(s)|)
  {
    var t := TrimStart(s);
    var r := TrimEnd(t);
    var i := |s| - |t|;
    SliceOfSuffix(s, i, |r|);
    TrailingOfSuffix(s, t, |r|);
  }

  /** White space after position `n` of a suffix of `s` is white space of `s`. */
  lemma TrailingOfSuffix(s: string, t: string, n: nat)
    requires |t| <= |s| && t == s[|s| - |t|..] && n <= |t|
    requires forall k :: n <= k < |t| ==> IsWhitespace(t[k])
    ensures forall k :: |s| - |t| + n <= k < |s| ==> IsWhitespace(s[k])
  {
    forall k | |s| - |t| + n <= k < |s|
      ensures IsWhitespace(s[k])
    {
      assert s[k] == t[k - (|s| - |t|)];
    }
  }

  lemma SliceOfSuffix(s: string, i: nat, n: nat)
    requires i + n <= |s|
    ensures s[i..][..n] == s[i..i + n]
  {
  }

  /** `r` sits in `s` at offset `i` with nothing but white space before and
      after it. */
  predicate WhitespaceAround(s: string, r: string, i: int) {
    && 0 <= i <= |s| - |r| && s[i..i + |r|] == r
    && (forall k :: 0 <= k < i ==> IsWhitespace(s[k]))
    && (forall k :: i + |r| <= k < |s| ==> IsWhitespace(s[k]))
  }

  /** A string is trimmed to nothing exactly when it is all white space. */
  lemma TrimEmptyIffAllWhitespace(s: string)
    ensures Trim(s) == "" <==> forall k :: 0 <= k < |s| ==> IsWhitespace(s[k])
  {
  }

  /** A string without white space at either end is its own trim. */
  lemma TrimOfTrimmed(s: string)
    requires s == "" || (!IsWhitespace(s[0]) && !IsWhitespace(s[|s| - 1]))
    ensures Trim(s) == s
  {
  }

  /** Trimming is idempotent. */
  lemma TrimIdempotent(s: string)
    ensures Trim(Trim(s)) == Trim(s)
  {
    TrimOfTrimmed(Trim(s));
  }

  /** `c.toLowerCase()` for ASCII letters; other characters are kept. */
  function LowerChar(c: char): char {
    if 'A' <= c <= 'Z' then (c as int + 32) as char else c
  }

  /** `s.toLowerCase()` restricted to ASCII letters. */
  function ToLower(s: string): (r: string)
    ensures |r| == |s|
    ensures forall k :: 0 <= k < |s| ==> r[k] == LowerChar(s[k])
  {
    seq(|s|, k requires 0 <= k < |s| => LowerChar(s[k]))
  }

  /** Lowercasing leaves white space where it was. */
  lemma LowerKeepsWhitespace(c: char)
    ensures IsWhitespace(LowerChar(c)) <==> IsWhitespace(c)
  {
  }

  /** Every character of a trimmed string comes from the original. */
  lemma TrimCharsFromSource(s: string)
    ensures forall k :: 0 <= k < |Trim(s)| ==> Trim(s)[k] in s
  {
    var t := TrimStart(s);
    var r := TrimEnd(t);
    forall k | 0 <= k < |r|
      ensures r[k] in s
    {
      assert r[k] == t[k];
      assert t[k] == s[|s| - |t| + k];
    }
  }

  /** A lowercased and trimmed string holds no ASCII capital. */
  lemma TrimmedLowerHasNoCapital(s: string)
    ensures forall k :: 0 <= k < |Trim(ToLower(s))| ==> !('A' <= Trim(ToLower(s))[k] <= 'Z')
  {
    var l := ToLower(s);
    TrimCharsFromSource(l);
    assert forall j :: 0 <= j < |l| ==> !('A' <= l[j] <= 'Z');
  }

  /** A string with no ASCII capital is its own lowercase form. */
  lemma ToLowerOfLower(s: string)
    requires forall k :: 0 <= k < |s| ==> !('A' <= s[k] <= 'Z')
    ensures ToLower(s) == s
  {
  }
}
