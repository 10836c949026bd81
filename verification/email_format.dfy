/** The email format the account schema enforces. */
module EmailFormat {
  import opened Wrappers
  import opened Strings

  /** The pattern `^\S+@\S+\.\S+$`: no white space, an `@` after at least one
      character, and after at least one further character a `.` that is
      followed by at least one character. */
  ghost predicate EmailPattern(s: string) {
    NoWhitespace(s) &&
    exists a, d :: 1 <= a && a + 2 <= d && d + 2 <= |s| && s[a] == '@' && s[d] == '.'
  }

  /** The first index at or after `k` holding `c`. */
  function FirstFrom(s: string, c: char, k: nat): (r: Option<nat>)
    requires k <= |s|
    decreases |s| - k
    ensures r.Some? ==> k <= r.value < |s| && s[r.value] == c
    ensures r.Some? ==> forall j :: k <= j < r.value ==> s[j] != c
    ensures r.None? ==> forall j :: k <= j < |s| ==> s[j] != c
  {
    if k == |s| then None
    else if s[k] == c then Some(k)
    else FirstFrom(s, c, k + 1)
  }

  /** The last index below `k` holding `c`. */
  function LastBefore(s: string, c: char, k: nat): (r: Option<nat>)
    requires k <= |s|
    ensures r.Some? ==> r.value < k && s[r.value] == c
    ensures r.Some? ==> forall j :: r.value < j < k ==> s[j] != c
    ensures r.None? ==> forall j :: 0 <= j < k ==> s[j] != c
  {
    if k == 0 then None
    else if s[k - 1] == c then Some(k - 1)
    else LastBefore(s, c, k - 1)
  }

  /** The test of the email pattern: take the earliest admissible `@` and the
      latest admissible `.`, and check they leave a character between them. */
  function EmailMatches(s: string): (b: bool)
    ensures b <==> EmailPattern(s)
  {
    if |s| < 2 then false
    else
      var at := FirstFrom(s, '@', 1);
      var dot := LastBefore(s, '.', |s| - 1);
      var b := NoWhitespace(s) && at.Some? && dot.Some? && at.value + 2 <= dot.value;
      assert b ==> s[at.value] == '@' && s[dot.value] == '.';
      assert EmailPattern(s) ==> b by {
        if EmailPattern(s) {
          var a, d :| 1 <= a && a + 2 <= d && d + 2 <= |s| && s[a] == '@' && s[d] == '.';
          assert at.Some? && at.value <= a;
          assert dot.Some? && d <= dot.value;
        }
      }
      b
  }
}
