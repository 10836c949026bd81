/** Helpers the pages share, each written out in several pages with the
    same body: reading one cookie from the cookie header, shortening post
    content for previews, and the previous/next pager. */
module Client {
  import opened Wrappers
  import opened Strings
  import opened Pagination

  /** The string `getCookie` splits: the cookie header with `"; "` in front,
      so that the first cookie is preceded by the separator like the rest. */
  function Header(cookie: string): string { "; " + cookie }

  /** The separator `getCookie` splits on. */
  function Needle(name: string): string { "; " + name + "=" }

  /** `getCookie(name)`: `None` unless the needle occurs exactly once in
      the header; otherwise the text after the needle up to the next `;`,
      and `None` when that text is empty. */
  function GetCookie(cookie: string, name: string): (r: Option<string>)
    ensures (forall i :: !SoleSplitPoint(Header(cookie), Needle(name), i)) ==> r.None?
    ensures forall i :: SoleSplitPoint(Header(cookie), Needle(name), i) ==>
      var rest := Header(cookie)[i + |Needle(name)|..];
      && (r.Some? <==> rest != "" && rest[0] != ';')
      && (r.Some? ==> StartsWith(rest, r.value) && ';' !in r.value && (|r.value| == |rest| || rest[|r.value|] == ';'))
  {
    ValueAfterSole(Header(cookie), Needle(name))
  }

  /** The value after the sole occurrence of `n` in `h`, and `None` when
      `n` does not occur exactly once. */
  function ValueAfterSole(h: string, n: string): (r: Option<string>)
    requires |n| > 0
    ensures (forall i :: !SoleSplitPoint(h, n, i)) ==> r.None?
    ensures forall i :: SoleSplitPoint(h, n, i) ==>
      var rest := h[i + |n|..];
      && (r.Some? <==> rest != "" && rest[0] != ';')
      && (r.Some? ==> StartsWith(rest, r.value) && ';' !in r.value && (|r.value| == |rest| || rest[|r.value|] == ';'))
  {
    var parts := Split(h, n);
    SplitInTwo(h, n);
    if |parts| == 2 then CookieValue(parts[1]) else None
  }

  /** The value read from the text after the needle: the piece before the
      first `;`, and `None` when that piece is empty. */
  function CookieValue(rest: string): (r: Option<string>)
    ensures r.Some? <==> rest != "" && rest[0] != ';'
    ensures r.Some? ==> StartsWith(rest, r.value) && ';' !in r.value && (|r.value| == |rest| || rest[|r.value|] == ';')
  {
    var value := Split(rest, ";")[0];
    FirstPieceAtChar(rest, ';');
    if value == "" then None else Some(value)
  }

  /** The cookie that comes first in the header is found when its name
      occurs nowhere else. */
  lemma CookieFoundFirst(name: string, value: string, others: string)
    requires value != "" && ';' !in value
    requires forall j :: 0 <= j <= |Header(name + "=" + value + others)| ==>
      j != 0 ==> !OccursAt(Header(name + "=" + value + others), Needle(name), j)
    requires others == "" || others[0] == ';'
    ensures GetCookie(name + "=" + value + others, name) == Some(value)
  {
    var h := Header(name + "=" + value + others);
    var n := Needle(name);
    assert h[..|n|] == n;
    assert OccursAt(h, n, 0);
    assert SoleSplitPoint(h, n, 0);
    var rest := h[|n|..];
    assert rest == value + others;
    var r := GetCookie(name + "=" + value + others, name);
    assert StartsWith(rest, r.value) && ';' !in r.value && (|r.value| == |rest| || rest[|r.value|] == ';');
    assert r.value == rest[..|r.value|];
    assert forall k :: 0 <= k < |value| ==> rest[k] == value[k] && value[k] != ';';
    if |rest| > |value| {
      assert rest[|value|] == ';';
    }
    assert r.value == rest[..|value|];
  }

  /** The preview length on the dashboard, profile and admin pages. */
  const ShortPreview := 100
  /** The preview length on the post listing. */
  const ListingPreview := 150
  const Ellipsis := "..."

  /** `truncateContent(content, maxLength)`. */
  function Truncate(content: string, maxLength: nat): (r: string)
    ensures |content| <= maxLength ==> r == content
    ensures |r| == if |content| <= maxLength then |content| else maxLength + |Ellipsis|
    ensures |content| > maxLength ==> StartsWith(r, content[..maxLength]) && r[maxLength..] == Ellipsis
  {
    if |content| <= maxLength then content else content[..maxLength] + Ellipsis
  }

  /** A preview is never longer than the limit plus the three dots; at the
      default limit of 100 a shortened preview is 103 characters long. */
  lemma TruncateBound(content: string, maxLength: nat)
    ensures |Truncate(content, maxLength)| <= maxLength + 3
    ensures |content| > ShortPreview ==> |Truncate(content, ShortPreview)| == 103
    ensures |content| > ListingPreview ==> |Truncate(content, ListingPreview)| == 153
  {
  }

  /** The post listing shows more of a post than the other pages: its
      preview begins with everything the shorter preview shows, dots aside. */
  lemma ListingShowsMore(content: string)
    ensures StartsWith(Truncate(content, ListingPreview), content[..Min(|content|, ShortPreview)])
  {
    var n := Min(|content|, ShortPreview);
    var r := Truncate(content, ListingPreview);
    if |content| > ListingPreview {
      assert r[..n] == content[..ListingPreview][..n];
    }
  }

  /** Shortening a preview again changes nothing. */
  lemma {:induction false} TruncateIdempotent(content: string, maxLength: nat)
    ensures Truncate(Truncate(content, maxLength), maxLength) == Truncate(content, maxLength)
  {
    if |content| > maxLength {
      var r := Truncate(content, maxLength);
      assert r[..maxLength] == content[..maxLength];
      assert r == r[..maxLength] + r[maxLength..];
    }
  }

  /** Two contents sharing their first `maxLength` characters and both too
      long have the same preview: the rest is never shown. */
  lemma {:induction false} TruncateForgetsTail(a: string, b: string, maxLength: nat)
    requires |a| > maxLength && |b| > maxLength && a[..maxLength] == b[..maxLength]
    ensures Truncate(a, maxLength) == Truncate(b, maxLength)
  {
    var ra, rb := Truncate(a, maxLength), Truncate(b, maxLength);
    assert ra == ra[..maxLength] + ra[maxLength..];
    assert rb == rb[..maxLength] + rb[maxLength..];
  }

  /** The pager under a listing: shown only when there is more than one
      page; each button is disabled when the server says there is no page
      in its direction. */
  datatype Pager = Pager(shown: bool, prevDisabled: bool, nextDisabled: bool)

  /** A click on a pager button. */
  datatype Click = PrevClick | NextClick

  function PagerOf(info: Option<PageInfo>): (r: Pager)
    ensures r.shown <==> info.Some? && info.value.totalPages > 1
    ensures info.Some? ==> (r.prevDisabled <==> !info.value.hasPrevPage) && (r.nextDisabled <==> !info.value.hasNextPage)
  {
    match info
    case None => Pager(false, true, true)
    case Some(p) => Pager(p.totalPages > 1, !p.hasPrevPage, !p.hasNextPage)
  }

  /** The page a click leads to: one back or one on, or no change when the
      button is disabled. */
  function AfterClick(current: int, info: PageInfo, click: Click): (r: int)
    ensures click == PrevClick && info.hasPrevPage ==> r == current - 1
    ensures click == NextClick && info.hasNextPage ==> r == current + 1
    ensures r != current <==> (click == PrevClick && info.hasPrevPage) || (click == NextClick && info.hasNextPage)
  {
    match click
    case PrevClick => if info.hasPrevPage then current - 1 else current
    case NextClick => if info.hasNextPage then current + 1 else current
  }

  /** The pager appears exactly when the items do not fit on one page. */
  lemma PagerShownIffOverflow(page: int, limit: int, total: nat)
    requires page >= 1 && limit >= 1
    ensures PagerOf(Some(Paginate(page, limit, total))).shown <==> total > limit
  {
    var t := Paginate(page, limit, total).totalPages;
    if total > limit {
      assert t * limit >= total;
    } else if t > 1 {
      MulMonotone(1, t - 1, limit);
    }
  }

  /** Clicking an enabled button on a page the server described leads to a
      valid page that holds items: the pager never walks off the listing. */
  lemma {:induction false} ClickStaysInRange<T>(items: seq<T>, page: int, limit: int, click: Click)
    requires page >= 1 && limit >= 1
    requires page <= Paginate(page, limit, |items|).totalPages
    ensures var info := Paginate(page, limit, |items|);
            var next := AfterClick(page, info, click);
            && next >= 1
            && (next != page ==> |Window(items, Skip(next, limit), limit)| > 0)
  {
    var info := Paginate(page, limit, |items|);
    var next := AfterClick(page, info, click);
    if next != page {
      PageNonEmptyIffInRange(items, next, limit);
    }
  }
}
