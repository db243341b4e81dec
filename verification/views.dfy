/**
 * The read side of the catalogue API: case-insensitive substring search over
 * books, publishers and authors, page-number pagination of the book list, and
 * book detail lookup by primary key.
 */
module Views {
  import opened Wrappers
  import opened Models
  import opened Seqs

  // ---------------------------------------------------------------------------
  // Case-insensitive substring matching (`__icontains`)
  // ---------------------------------------------------------------------------

  /** Lower-cases Latin and basic Cyrillic capitals (including Ё); other characters are unchanged. */
  function Fold(c: char): (d: char)
    ensures 'A' <= c <= 'Z' ==> 'a' <= d <= 'z'
    ensures !('A' <= c <= 'Z') && !('А' <= c <= 'Я') && c != 'Ё' ==> d == c
  {
    if 'A' <= c <= 'Z' || 'А' <= c <= 'Я' then ((c as int) + 32) as char
    else if c == 'Ё' then 'ё'
    else c
  }

  function FoldAll(s: string): (t: string)
    ensures |t| == |s|
  {
    seq(|s|, i requires 0 <= i < |s| => Fold(s[i]))
  }

  predicate OccursAt(text: string, q: string, j: nat) {
    j + |q| <= |text| && text[j..j + |q|] == q
  }

  /** Whether `q` occurs in `text` at some position `j >= i`. */
  function OccursFrom(text: string, q: string, i: nat): (found: bool)
    ensures found <==> exists j :: i <= j && OccursAt(text, q, j)
    decreases |text| - i
  {
    if i + |q| > |text| then
      assert forall j :: i <= j ==> !OccursAt(text, q, j);
      false
    else if text[i..i + |q|] == q then
      assert OccursAt(text, q, i);
      true
    else
      OccursFrom(text, q, i + 1)
  }

  /** `field__icontains=query`: the query occurs in the field, ignoring case. */
  function IContains(field: string, query: string): (found: bool)
    ensures found <==> exists j :: OccursAt(FoldAll(field), FoldAll(query), j)
  {
    OccursFrom(FoldAll(field), FoldAll(query), 0)
  }

  lemma EmptyQueryMatchesEverything(field: string)
    ensures IContains(field, "")
  {
    assert OccursAt(FoldAll(field), FoldAll(""), 0);
  }

  // ---------------------------------------------------------------------------
  // The three searchable list views
  // ---------------------------------------------------------------------------

  /**
   * The common shape of the three `get_queryset` methods: with an empty
   * `query` the whole query set, otherwise the rows whose searched field
   * contains the query, ignoring case.
   */
  function Search<T(!new)>(rows: seq<T>, field: T -> string, query: string): (r: seq<T>)
    ensures query == "" ==> r == rows
    ensures forall x :: x in r <==> x in rows && IContains(field(x), query)
    ensures forall x :: multiset(r)[x] == if IContains(field(x), query) then multiset(rows)[x] else 0
    ensures SubsequenceOf(r, rows)
  {
    if query == "" then
      forall x ensures IContains(field(x), "") { EmptyQueryMatchesEverything(field(x)); }
      SubsequenceOfSelf(rows);
      rows
    else
      KeepIsSubsequence(rows, x => IContains(field(x), query));
      KeepMultiset(rows, x => IContains(field(x), query));
      Keep(rows, x => IContains(field(x), query))
  }

  /** Searching the result of a search again with the same query changes nothing. */
  lemma SearchIdempotent<T(!new)>(rows: seq<T>, field: T -> string, query: string)
    ensures Search(Search(rows, field, query), field, query) == Search(rows, field, query)
  {
    if query != "" {
      KeepIdempotent(rows, x => IContains(field(x), query));
    }
  }

  /** The `query` GET parameter, which defaults to the empty string. */
  function QueryParam(query: Option<string>): string {
    if query.Some? then query.value else ""
  }

  /** `BookListView.get_queryset`: books whose title contains the query. */
  function BookListQuery(books: seq<Book>, query: Option<string>): (r: seq<Book>)
    ensures QueryParam(query) == "" ==> r == books
    ensures forall b :: b in r <==> b in books && IContains(b.title, QueryParam(query))
    ensures forall b :: multiset(r)[b] == if IContains(b.title, QueryParam(query)) then multiset(books)[b] else 0
    ensures SubsequenceOf(r, books)
  {
    Search(books, (b: Book) => b.title, QueryParam(query))
  }

  /** `PublisherListView.get_queryset`: publishers whose title contains the query. */
  function PublisherListQuery(publishers: seq<Publisher>, query: Option<string>): (r: seq<Publisher>)
    ensures QueryParam(query) == "" ==> r == publishers
    ensures forall p :: p in r <==> p in publishers && IContains(p.title, QueryParam(query))
    ensures forall p :: multiset(r)[p] == if IContains(p.title, QueryParam(query)) then multiset(publishers)[p] else 0
    ensures SubsequenceOf(r, publishers)
  {
    Search(publishers, (p: Publisher) => p.title, QueryParam(query))
  }

  /** `AuthorListView.get_queryset`: authors whose last name contains the query. */
  function AuthorListQuery(authors: seq<Author>, query: Option<string>): (r: seq<Author>)
    ensures QueryParam(query) == "" ==> r == authors
    ensures forall a :: a in r <==> a in authors && IContains(a.lastName, QueryParam(query))
    ensures forall a :: multiset(r)[a] == if IContains(a.lastName, QueryParam(query)) then multiset(authors)[a] else 0
    ensures SubsequenceOf(r, authors)
  {
    Search(authors, (a: Author) => a.lastName, QueryParam(query))
  }

  lemma ListQueriesIdempotent(books: seq<Book>, publishers: seq<Publisher>, authors: seq<Author>, query: string)
    ensures BookListQuery(BookListQuery(books, Some(query)), Some(query)) == BookListQuery(books, Some(query))
    ensures PublisherListQuery(PublisherListQuery(publishers, Some(query)), Some(query)) == PublisherListQuery(publishers, Some(query))
    ensures AuthorListQuery(AuthorListQuery(authors, Some(query)), Some(query)) == AuthorListQuery(authors, Some(query))
  {
    SearchIdempotent(books, (b: Book) => b.title, query);
    SearchIdempotent(publishers, (p: Publisher) => p.title, query);
    SearchIdempotent(authors, (a: Author) => a.lastName, query);
  }

  // ---------------------------------------------------------------------------
  // Page-number pagination of the book list
  // ---------------------------------------------------------------------------

  /** `StandardResultsSetPagination.page_size`. */
  const PageSize: nat := 10

  /** The response envelope: `next` and `previous` name the page their link points to. */
  datatype Page<T> = Page(count: nat, next: Option<nat>, previous: Option<nat>, number: nat, totalPages: nat, results: seq<T>)

  datatype ViewError = NotFound

  /** `paginator.num_pages`: enough pages of 10 for every row, and one (empty) page when there are none. */
  function NumPages(count: nat): (n: nat)
    ensures n >= 1
    ensures count > 0 ==> (n - 1) * PageSize < count <= n * PageSize
    ensures count == 0 ==> n == 1
  {
    if count == 0 then 1 else (count + PageSize - 1) / PageSize
  }

  /** The rows of `rows` from position `lo` on, or none when `lo` is past the end. */
  function Drop<T>(rows: seq<T>, lo: nat): seq<T> {
    if lo >= |rows| then [] else rows[lo..]
  }

  /** The rows shown on page `number` (1-based): up to 10 consecutive rows. */
  function PageRows<T>(rows: seq<T>, number: nat): (r: seq<T>)
    requires number >= 1
    ensures |r| <= PageSize
    ensures r + Drop(rows, number * PageSize) == Drop(rows, (number - 1) * PageSize)
  {
    var lo := (number - 1) * PageSize;
    var hi := number * PageSize;
    if lo >= |rows| then []
    else if hi >= |rows| then rows[lo..]
    else
      assert rows[lo..hi] + rows[hi..] == rows[lo..];
      rows[lo..hi]
  }

  /** The `page` GET parameter, which defaults to the first page. */
  function PageParam(page: Option<int>): int {
    if page.Some? then page.value else 1
  }

  /**
   * `paginate_queryset` followed by `get_paginated_response`: the requested
   * page with its envelope, or not-found for a page number outside
   * `1..num_pages`.
   */
  function Paginate<T>(rows: seq<T>, page: Option<int>): (r: Result<Page<T>, ViewError>)
    ensures r.Ok? <==> 1 <= PageParam(page) <= NumPages(|rows|)
    ensures r.Ok? ==> |r.value.results| <= PageSize
    ensures r.Ok? ==> r.value.count == |rows| && r.value.number == PageParam(page)
    ensures r.Ok? ==> r.value.totalPages == NumPages(|rows|)
    ensures r.Ok? ==> r.value.results == PageRows(rows, r.value.number)
    ensures r.Ok? ==> (r.value.next.Some? <==> r.value.number < r.value.totalPages)
    ensures r.Ok? && r.value.next.Some? ==> r.value.next.value == r.value.number + 1
    ensures r.Ok? ==> (r.value.previous.Some? <==> r.value.number > 1)
    ensures r.Ok? && r.value.previous.Some? ==> r.value.previous.value == r.value.number - 1
  {
    var number := PageParam(page);
    var total := NumPages(|rows|);
    if number < 1 || number > total then Err(NotFound)
    else
      Ok(Page(
        |rows|,
        if number < total then Some(number + 1) else None,
        if number > 1 then Some(number - 1) else None,
        number,
        total,
        PageRows(rows, number)))
  }

  /** The results of pages `first..last`, one after another. */
  function PagesFrom<T>(rows: seq<T>, first: nat, last: nat): seq<T>
    requires first >= 1
    decreases last + 1 - first
  {
    if first > last then [] else PageRows(rows, first) + PagesFrom(rows, first + 1, last)
  }

  lemma {:induction false} PagesFromAreTheRest<T>(rows: seq<T>, first: nat)
    requires 1 <= first <= NumPages(|rows|) + 1
    ensures PagesFrom(rows, first, NumPages(|rows|)) == Drop(rows, (first - 1) * PageSize)
    decreases NumPages(|rows|) + 1 - first
  {
    var total := NumPages(|rows|);
    if first <= total {
      PagesFromAreTheRest(rows, first + 1);
    }
  }

  /** Pages 1 to `total_pages`, concatenated, are exactly the rows: each row on exactly one page, in order. */
  lemma PagesCoverRows<T>(rows: seq<T>)
    ensures PagesFrom(rows, 1, NumPages(|rows|)) == rows
  {
    PagesFromAreTheRest(rows, 1);
  }

  /** `GET /books/`: the searched books, one page of them. */
  function BookListPage(books: seq<Book>, query: Option<string>, page: Option<int>): (r: Result<Page<Book>, ViewError>)
    ensures r.Ok? ==> r.value.count == |BookListQuery(books, query)|
    ensures r.Ok? ==> forall b :: b in r.value.results ==> b in books && IContains(b.title, QueryParam(query))
  {
    var r := Paginate(BookListQuery(books, query), page);
    if r.Ok? then
      PageRowsAreRows(BookListQuery(books, query), r.value.number);
      r
    else r
  }

  lemma PageRowsAreRows<T>(rows: seq<T>, number: nat)
    requires number >= 1
    ensures forall x :: x in PageRows(rows, number) ==> x in rows
  {
  }

  // ---------------------------------------------------------------------------
  // Book detail
  // ---------------------------------------------------------------------------

  /**
   * `BookDetailView.get_object`: the first book with primary key `pk`, or
   * not-found (`Http404`) when there is none.
   */
  function GetBook(books: seq<Book>, pk: nat): (r: Result<Book, ViewError>)
    ensures r.Ok? <==> exists i :: 0 <= i < |books| && books[i].id == pk
    ensures r.Ok? ==> exists i :: 0 <= i < |books| && books[i] == r.value && r.value.id == pk
                                  && forall j :: 0 <= j < i ==> books[j].id != pk
  {
    var found := Keep(books, (b: Book) => b.id == pk);
    if found != [] then
      assert exists i :: 0 <= i < |books| && books[i] == found[0] && found[0].id == pk
                         && forall j :: 0 <= j < i ==> books[j].id != pk by {
        var i := KeepHead(books, (b: Book) => b.id == pk);
      }
      Ok(found[0])
    else
      assert forall i :: 0 <= i < |books| ==> books[i].id != pk by {
        forall i | 0 <= i < |books| ensures books[i].id != pk {
          assert books[i] in books;
        }
      }
      Err(NotFound)
  }
}
