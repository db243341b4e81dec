/**
 * Front-end page URL builders: fixed prefixes and suffixes around an
 * identifier, as template strings.
 */
module Urls {
  import opened Wrappers
  import opened Text

  /** An identifier passed to a builder: a numeric `ID` or a string. */
  datatype PageId = Numeric(n: nat) | Literal(s: string)

  /** How a template string spells the identifier. */
  function Segment(id: PageId): string {
    match id
    case Numeric(n) => Decimal(n)
    case Literal(s) => s
  }

  const BookPrefix := "/books/"
  const ListPrefix := "/lists/"
  const DetailsSuffix := "/details/"
  const AdminListPrefix := "/admin/books/list/"
  const ChangeSuffix := "/change/"

  /**
   * The part of `url` between `prefix` and `suffix`, or None when `url` does
   * not have that shape (the way a router matches `/books/:id/details/`).
   */
  function MatchRoute(url: string, prefix: string, suffix: string): (r: Option<string>)
    ensures r.Some? ==> url == prefix + r.value + suffix
  {
    if |prefix| + |suffix| <= |url| && url[..|prefix|] == prefix && url[|url| - |suffix|..] == suffix
    then
      var mid := url[|prefix|..|url| - |suffix|];
      assert url == url[..|prefix|] + mid + url[|url| - |suffix|..];
      Some(mid)
    else None
  }

  lemma MatchRouteOfBuilt(prefix: string, mid: string, suffix: string)
    ensures MatchRoute(prefix + mid + suffix, prefix, suffix) == Some(mid)
  {
    var url := prefix + mid + suffix;
    assert url[..|prefix|] == prefix;
    assert url[|url| - |suffix|..] == suffix;
    assert url[|prefix|..|url| - |suffix|] == mid;
  }

  /** URL of a book's detail page. */
  function BookDetailPageUrl(id: PageId): (url: string)
    ensures MatchRoute(url, BookPrefix, DetailsSuffix) == Some(Segment(id))
    ensures url[|url| - 1] == '/'
  {
    MatchRouteOfBuilt(BookPrefix, Segment(id), DetailsSuffix);
    BookPrefix + Segment(id) + DetailsSuffix
  }

  /** URL of a book list's detail page. */
  function BookListDetailPageUrl(id: PageId): (url: string)
    ensures MatchRoute(url, ListPrefix, DetailsSuffix) == Some(Segment(id))
    ensures url[|url| - 1] == '/'
  {
    MatchRouteOfBuilt(ListPrefix, Segment(id), DetailsSuffix);
    ListPrefix + Segment(id) + DetailsSuffix
  }

  /** URL of a book list's page in the back end's admin site, under the configured `apiBase`. */
  function BookListAdminPageUrl(apiBase: string, id: PageId): (url: string)
    ensures MatchRoute(url, apiBase + AdminListPrefix, ChangeSuffix) == Some(Segment(id))
    ensures url[|url| - 1] == '/'
  {
    MatchRouteOfBuilt(apiBase + AdminListPrefix, Segment(id), ChangeSuffix);
    apiBase + AdminListPrefix + Segment(id) + ChangeSuffix
  }

  /** Two identifiers give the same book URL exactly when they are spelled the same. */
  lemma BookDetailPageUrlInjective(a: PageId, b: PageId)
    ensures BookDetailPageUrl(a) == BookDetailPageUrl(b) <==> Segment(a) == Segment(b)
  {
    if BookDetailPageUrl(a) == BookDetailPageUrl(b) {
      assert Some(Segment(a)) == Some(Segment(b));
    }
  }

  lemma BookListDetailPageUrlInjective(a: PageId, b: PageId)
    ensures BookListDetailPageUrl(a) == BookListDetailPageUrl(b) <==> Segment(a) == Segment(b)
  {
    if BookListDetailPageUrl(a) == BookListDetailPageUrl(b) {
      assert Some(Segment(a)) == Some(Segment(b));
    }
  }

  lemma BookListAdminPageUrlInjective(apiBase: string, a: PageId, b: PageId)
    ensures BookListAdminPageUrl(apiBase, a) == BookListAdminPageUrl(apiBase, b) <==> Segment(a) == Segment(b)
  {
    if BookListAdminPageUrl(apiBase, a) == BookListAdminPageUrl(apiBase, b) {
      assert Some(Segment(a)) == Some(Segment(b));
    }
  }

  /** For numeric identifiers, distinct numbers give distinct URLs. */
  lemma NumericUrlsInjective(m: nat, n: nat)
    ensures BookDetailPageUrl(Numeric(m)) == BookDetailPageUrl(Numeric(n)) <==> m == n
    ensures BookListDetailPageUrl(Numeric(m)) == BookListDetailPageUrl(Numeric(n)) <==> m == n
  {
    BookDetailPageUrlInjective(Numeric(m), Numeric(n));
    BookListDetailPageUrlInjective(Numeric(m), Numeric(n));
    DecimalInjective(m, n);
  }

  /** A book page URL is never a list page URL, whatever the two identifiers. */
  lemma BookAndListUrlsDiffer(a: PageId, b: PageId)
    ensures BookDetailPageUrl(a) != BookListDetailPageUrl(b)
  {
    assert BookDetailPageUrl(a)[1] == 'b';
    assert BookListDetailPageUrl(b)[1] == 'l';
  }
}
