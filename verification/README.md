# drf-nuxt-library, modelled in Dafny

drf-nuxt-library is a personal book catalogue. It has a Django REST Framework
back end and a Nuxt front end. This project models the core of both halves and
proves properties of the model.

**Back end**
- The catalogue records and their string forms (`models.dfy`). `Author.full_name`
  is the last name, then the first and middle names when present. A note prints
  as its first 64 characters.
- The read-only views (`views.dfy`):
  - case-insensitive substring search over book titles, publisher titles and
    author last names;
  - page-number pagination of the book list, ten books to a page;
  - book detail lookup by primary key, with not-found for a missing book.
- Curated book lists and their items:
  - who may list, read, delete and add to a list, as pure decisions
    (`lists.dfy`);
  - a store class whose endpoint methods change the `List` and `ListItem`
    tables and keep their invariant (`list_store.dfy`).

**Front end**
- The authentication store (`auth_store.dfy`). It is a class holding the
  token, the user and the authenticated flag. It persists them to the
  browser's local storage, modelled as a map from keys to strings.
- The route guard that reloads the store and redirects an unauthenticated
  visitor to `/login/` (`auth_middleware.dfy`).
- The three page-URL builders (`urls.dfy`).

**Shared pieces**
- `json.dfy` is a concrete `JSON.stringify`/`JSON.parse` for the flat objects
  the store writes. Its round trip is proved, so the store's
  save-then-reload properties are proved rather than assumed.
- `text.dfy` renders and reads back decimal numerals.
- `seqs.dfy` holds the order-preserving filter that stands for a query-set
  `filter()`.

The list endpoints' view code is not part of this model. Their rules come from
the endpoint tests and the table migrations. Where a test leaves a choice
open, the choice is listed below.

## Model

| member | source | states |
|---|---|---|
| Models.FullName | backend/books/models.py:83-91 | the full name starts with the last name; its length is the last name's plus one space and the part for each first or middle name that is present (non-empty) |
| Models.FullNameIsJoinOfPresentParts | backend/books/models.py:83-91 | the full name is exactly the present name parts (last, first, middle), joined with single spaces |
| Models.FullNameExamples | backend/books/tests/test_models.py:17-39 | the three authors of the model test get "Ivanov Ivan Ivanovich", "Petrov Petr" and "Sidorov" |
| Models.FullNameNullParts | backend/books/models.py:88-90 | null name parts are skipped like empty ones, including a null first name before a given middle name |
| Models.AuthorToString | backend/books/models.py:80-81 | an author's string form is its full name |
| Models.TagToString | backend/books/models.py:30-31 | a tag's string form is its title, unchanged |
| Models.PublisherToString | backend/books/models.py:49-50 | a publisher's string form is its title, unchanged |
| Models.BookToString | backend/books/models.py:161-165 | a book's string form begins with its title and ends with the author's string form, two characters (comma, space) apart |
| Models.NoteToString | backend/books/models.py:196-197 | a note's string form is a prefix of its text, of length 64 or the whole text when shorter |
| Views.IContains | backend/books/views.py:64 | `icontains` holds exactly when the case-folded query occurs at some position of the case-folded field |
| Views.EmptyQueryMatchesEverything | backend/books/views.py:59-63 | the empty query is contained in every field |
| Views.Search | backend/books/views.py:54-66 | an empty query leaves the query set unchanged; otherwise a row is kept iff its field contains the query, every copy of it; the result keeps the original order |
| Views.SearchIdempotent | backend/books/views.py:54-66 | searching a search result again with the same query changes nothing |
| Views.BookListQuery | backend/books/views.py:54-66 | the book list holds exactly the books whose title contains `query`, each as many times as in the table, in order; all books when `query` is absent or empty |
| Views.PublisherListQuery | backend/books/views.py:117-127 | the publisher list holds exactly the publishers whose title contains `query`, each as many times as in the table, in order; all when it is empty |
| Views.AuthorListQuery | backend/books/views.py:147-157 | the author list holds exactly the authors whose last name contains `query`, each as many times as in the table, in order; all when it is empty |
| Views.ListQueriesIdempotent | backend/books/views.py:54-66 | for each of the three list views, filtering twice with one query equals filtering once |
| Views.NumPages | backend/books/views.py:39 | `total_pages` is at least 1, is 1 for no rows, and otherwise is the least number of 10-row pages that holds every row |
| Views.PageRows | backend/books/views.py:30 | a page holds at most 10 rows, and those rows followed by all later rows are all rows from the page's start |
| Views.Paginate | backend/books/views.py:25-42 | a page is served iff its number is in 1..total_pages (default 1); `count`, `page`, `total_pages` and `results` are as defined; `next` is present iff a later page exists, `previous` iff an earlier one does |
| Views.PagesFromAreTheRest | backend/books/views.py:25-42 | pages k..total_pages, concatenated, are the rows from position 10·(k-1) on |
| Views.PagesCoverRows | backend/books/views.py:25-42 | all pages, concatenated in order, are exactly the rows: no row is lost, repeated or reordered |
| Views.BookListPage | backend/books/views.py:45-66 | a served page counts the searched books, and each book on it is in the catalogue and matches the query |
| Views.GetBook | backend/books/views.py:74-86 | a book is returned iff some book has that primary key, and then it is the first such book; otherwise not-found |
| Lists.NewList | backend/books/migrations/0011_list_listitem.py:19-25 | a list created with only owner and title is private and has no description |
| Lists.Visible | backend/books/tests/test_api_lists.py:84-111 | the visible lists are an order-preserving selection of the lists, each public or owned by the caller |
| Lists.ListLists | backend/books/tests/test_api_lists.py:35-165 | the listing keeps table order, shows only lists the caller may read, and with `book_id` only lists holding that book |
| Lists.AnonymousListsArePublic | backend/books/tests/test_api_lists.py:35-60 | without credentials a list is listed iff it is public |
| Lists.UserListsArePublicAndOwn | backend/books/tests/test_api_lists.py:84-111 | with credentials a list is listed iff it is public or is the caller's own private list |
| Lists.OnlyOwnListsAreOwned | backend/books/tests/test_api_lists.py:144-165 | with `only_own_lists=true` a list is listed iff the caller owns it |
| Lists.BookIdRestrictsListing | backend/books/tests/test_api_lists.py:62-82 | `book_id` narrows the same listing to the lists holding that book, for every caller |
| Lists.ListDetail | backend/books/tests/test_api_lists.py:167-265 | a list is returned only if it has that id and the caller may read it; the error is not-found iff no list has the id, and forbidden otherwise |
| Lists.ListDetailAllowed | backend/books/tests/test_api_lists.py:243-265 | a public list, or the caller's own private list, is returned |
| Lists.OthersPrivateListForbidden | backend/books/tests/test_api_lists.py:188-241 | a private list not owned by the caller is forbidden, with or without credentials |
| Lists.DeleteListStatus | backend/books/tests/test_api_lists.py:267-316 | deletion succeeds (204) iff the list exists and the caller owns it; a missing list is 404; every other case is 403 |
| Lists.DeleteListRefusals | backend/books/tests/test_api_lists.py:303-316 | an anonymous caller, a non-owner, and anyone at all for an ownerless list get 403 |
| Lists.CreateItemStatus | backend/books/tests/tests_api_list_items.py:19-107 | 401 iff anonymous; 201 iff the caller owns an existing list, the book exists and is not yet in the list; 403 iff the list exists and is someone else's and the book exists; 400 otherwise |
| Lists.ItemsOf | backend/books/migrations/0011_list_listitem.py:42 | a list's items are exactly the items whose foreign key names that list |
| Lists.NextOrder | backend/books/tests/tests_api_list_items.py:49 | a new item's order is larger than every order in its list, and 0 in an empty list |
| Lists.DeleteItemStatus | backend/books/tests/tests_api_list_items.py:109-170 | 401 iff anonymous; 404 iff an authenticated caller names a missing item; 204 iff the item exists and the caller owns its list; 403 in every other case |
| Lists.FindList | backend/books/tests/test_api_lists.py:179-185 | nothing is found iff no list has the id; a found list is in the table and has the id |
| Lists.FindItem | backend/books/tests/tests_api_list_items.py:147-154 | nothing is found iff no item has the id; a found item is in the table and has the id |
| Lists.ItemsReadBackAscending | backend/books/migrations/0012_alter_listitem_options_listitem_order.py:13-22 | under the table invariant, a list's items read back in strictly ascending `order` |
| Lists.AddListKeepsTablesValid | backend/books/migrations/0011_list_listitem.py:17-32 | a new list under the next primary key keeps the invariant: unique keys, items only in existing lists, distinct books per list, ascending orders |
| Lists.DeleteListKeepsTablesValid | backend/books/migrations/0011_list_listitem.py:42 | removing a list together with its items, by the cascading foreign key, keeps the invariant |
| Lists.DeleteListLeavesNothing | backend/books/tests/test_api_lists.py:281-301 | after deletion no list has the id and no item refers to it |
| Lists.CreateItemKeepsTablesValid | backend/books/tests/tests_api_list_items.py:75-107 | appending a granted item under the next key and with the next order keeps the invariant, so a book is never twice in one list |
| Lists.DeleteItemKeepsTablesValid | backend/books/tests/tests_api_list_items.py:109-136 | removing an item keeps the invariant |
| ListStorage.ListStore.constructor | backend/books/migrations/0011_list_listitem.py:17-48 | the store starts with empty tables and the given books, and satisfies the invariant |
| ListStorage.ListStore.AddList | backend/books/migrations/0011_list_listitem.py:17-32 | the new list gets a key no existing list has and goes first (newest first); nothing else changes; the invariant is kept |
| ListStorage.ListStore.DeleteList | backend/books/tests/test_api_lists.py:267-316 | the status is the deletion decision; on 204 the list and all its items are gone and nothing else changes; otherwise nothing changes |
| ListStorage.ListStore.CreateList | backend/books/tests/test_api_lists.py:288-291 | a list created with only an owner and a title takes the column defaults (private, no description) under a fresh key and goes first; nothing else changes |
| ListStorage.ListStore.CreateItem | backend/books/tests/tests_api_list_items.py:19-107 | the status is the creation decision; on 201 exactly one item with the next key and order is appended and returned and the item key counter advances; otherwise nothing changes, counters included |
| ListStorage.ListStore.DeleteItem | backend/books/tests/tests_api_list_items.py:109-170 | the status is the deletion decision; on 204 exactly that item is gone; otherwise nothing changes |
| ListStorage.DeleteOwnListScenario | backend/books/tests/test_api_lists.py:281-301 | a user's own list created with only a title is deleted with 204, and afterwards no list has its key |
| ListStorage.CreateItemScenario | backend/books/tests/tests_api_list_items.py:19-107 | on a new list, the owner's first add is 201 with order 0, adding the same book again is 400, and another user's add is 403 |
| ListStorage.DeleteItemScenario | backend/books/tests/tests_api_list_items.py:109-170 | deleting an item of the owner's list is 401 without credentials, 403 for another user, and 204 for the owner, after which no item has its key |
| Urls.MatchRouteOfBuilt | frontend/urls.ts:3-6 | a path built from prefix, segment and suffix matches that route with exactly that segment |
| Urls.BookDetailPageUrl | frontend/urls.ts:3-6 | the book page URL matches `/books/<id>/details/` with the id's text as the segment, and ends in a slash |
| Urls.BookListDetailPageUrl | frontend/urls.ts:8-11 | the list page URL matches `/lists/<id>/details/` with the id's text as the segment, and ends in a slash |
| Urls.BookListAdminPageUrl | frontend/urls.ts:13-17 | the admin URL matches `<apiBase>/admin/books/list/<id>/change/` with the id's text as the segment, and ends in a slash |
| Urls.BookDetailPageUrlInjective | frontend/urls.ts:3-6 | two book page URLs are equal iff their ids render to the same text |
| Urls.BookListDetailPageUrlInjective | frontend/urls.ts:8-11 | two list page URLs are equal iff their ids render to the same text |
| Urls.BookListAdminPageUrlInjective | frontend/urls.ts:13-17 | for one API base, two admin URLs are equal iff their ids render to the same text |
| Urls.NumericUrlsInjective | frontend/urls.ts:3-11 | distinct numeric ids give distinct book and list page URLs |
| Urls.BookAndListUrlsDiffer | frontend/urls.ts:3-11 | no book page URL is a list page URL |
| Text.Decimal | frontend/urls.ts:5 | a numeric id renders as at least one digit, with no leading zero |
| Text.ValueOfDecimal | frontend/urls.ts:5 | the rendered digits read back as the id |
| Text.DecimalInjective | frontend/urls.ts:5 | two ids render the same iff they are equal |
| Text.ParseNatDecimal | frontend/urls.ts:5 | reading a number from rendered digits followed by a non-digit gives the id and the rest |
| Json.ParseEscaped | frontend/stores/AuthStore.ts:29-33 | the escaped text of a string, then a closing quote, reads back as that string |
| Json.ParseQuoted | frontend/stores/AuthStore.ts:29-33 | a quoted string reads back as itself, leaving the rest of the input |
| Json.ParseScalarRoundTrip | frontend/stores/AuthStore.ts:29-33 | null, booleans, numbers and strings read back as themselves before any delimiter |
| Json.ParseMembersRoundTrip | frontend/stores/AuthStore.ts:29-33 | the members of a flat object read back as themselves, in order |
| Json.ParseNumRoundTrip | frontend/stores/AuthStore.ts:29-33 | a rendered number, which never has a leading zero, reads back as itself before any delimiter |
| Json.Parse | frontend/stores/AuthStore.ts:29 | whatever parses is a flat value; a number with a leading zero does not parse |
| Json.ParseObject | frontend/stores/AuthStore.ts:29-34 | a non-empty flat object, written out, parses back as itself |
| Json.ParseStringify | frontend/stores/AuthStore.ts:29-39 | parsing the stringified form of a flat value gives back the value |
| Json.StringifyInjective | frontend/stores/AuthStore.ts:39 | two flat values stringify the same iff they are equal |
| Auth.UserValue | frontend/types.ts:3-15 | a user becomes a flat object, which `JSON.stringify` can write |
| Auth.GetItem | frontend/stores/AuthStore.ts:19 | `getItem` returns the stored string iff the key is present, and null otherwise |
| Auth.Initialize | frontend/stores/AuthStore.ts:18-36 | authenticated iff a non-empty token is stored, and the token is then loaded, else null. A stored user is parsed, and a parse failure throws, keeping the old user. With no stored user the in-memory user is written. No other key changes, and storage is untouched when a user is stored |
| Auth.LoggedInStorage | frontend/stores/AuthStore.ts:41-46 | after login the token key holds the token, the user key parses back to the user object, and other keys are untouched |
| Auth.LoggedOutStorage | frontend/stores/AuthStore.ts:47-52 | after logout the token key holds "", the user key parses back to null, and other keys are untouched |
| Auth.ReloadAfterLogIn | frontend/stores/AuthStore.ts:18-46 | after login with a non-empty token, a page reload restores the token, the user object and the authenticated flag, without throwing or writing storage |
| Auth.ReloadAfterLogOut | frontend/stores/AuthStore.ts:18-52 | after logout, a page reload gives the initial state (no token, no user, not authenticated) |
| Auth.InitializeIdempotent | frontend/stores/AuthStore.ts:18-36 | a second `initializeStore` after one that did not throw changes neither state nor storage |
| Auth.AuthStore.constructor | frontend/stores/AuthStore.ts:11-15 | the store starts with a null token, a null user and not authenticated |
| Auth.AuthStore.InitializeStore | frontend/stores/AuthStore.ts:18-36 | the new state and storage, and whether it threw, are those `Initialize` gives for the old ones |
| Auth.AuthStore.SetUser | frontend/stores/AuthStore.ts:37-40 | the user becomes the given user (or null) and is written under the user key; the token and flag are unchanged |
| Auth.AuthStore.LogIn | frontend/stores/AuthStore.ts:41-46 | the state becomes the token, the user and authenticated, and storage becomes the logged-in storage |
| Auth.AuthStore.LogOut | frontend/stores/AuthStore.ts:47-52 | the token becomes "" (not null), the user null and the flag false; storage becomes the logged-out storage |
| AuthGuard.Decide | frontend/middleware/auth.ts:9-11 | navigation proceeds iff the store is authenticated; it redirects to `/login/` iff not; it aborts iff `initializeStore` threw |
| AuthGuard.Guard | frontend/middleware/auth.ts:6-12 | the guard reloads the store exactly as `initializeStore` does, then decides on the reloaded state |
| AuthGuard.ProceedIffStoredToken | frontend/middleware/auth.ts:6-12 | a navigation goes through iff a non-empty token is stored and any stored user parses, whatever was in memory |
| AuthGuard.RedirectAfterLogOut | frontend/middleware/auth.ts:6-12 | after logout every guarded navigation is redirected to `/login/` |
| AuthGuard.ProceedAfterLogIn | frontend/middleware/auth.ts:6-12 | after login with a non-empty token every guarded navigation goes through |
| AuthGuard.LogOutThenNavigate | frontend/middleware/auth.ts:6-12 | logging out on the shared store and then navigating redirects to `/login/` and leaves the initial state |
| AuthGuard.LogInThenNavigate | frontend/middleware/auth.ts:6-12 | logging in on the shared store and then navigating proceeds, with the token and user restored |

## Left out

- Unicode case folding: `Views.Fold` lower-cases ASCII and basic Cyrillic capitals (А–Я, Ё) only, not the database's full collation rules.
- Views.Paginate: the `last` page keyword and non-integer `page` strings are not modelled. `next` and `previous` carry page numbers, not absolute URLs, because building the request URL is out of scope.
- Views.Paginate: the paginator's defaults are not visible in the source and follow Django and DRF. An absent page means 1, no rows give one empty page, and a page outside 1..total_pages is not-found.
- Searching the book list by author last name is not modelled: the code only mentions it in a comment and does not do it.
- Serializers, admin pages, the create, update and destroy views of publishers and authors, the notes endpoints and the users app are not part of this model.
- Timestamps (`created`, `updated`, `auto_now`), image and file fields, and the `-created` ordering are not modelled. The list table is kept newest first by insertion instead.
- The list and list-item views are not part of this model. Their rules come from the endpoint tests. Choices the tests leave open:
  - for lists, a missing list is 404 before any permission is checked;
  - for items, credentials are checked first (401); then existence (404 for a missing item on delete, 400 for an unknown list or book on create); then ownership (403);
  - anonymous item creation is 401, as anonymous item deletion is;
  - ownership is checked before the duplicate-book check;
  - `only_own_lists` is ignored for anonymous callers.
- Lists.NextOrder: the first item of a list gets order 0, as the test requires. Later items get one more than the largest order, which is an assumption. Reordering, and renumbering after a delete, are not modelled.
- Ownership stamping of a new list from the request user is not modelled. `AddList` takes the owner as an argument.
- Json.Parse: only the canonical, whitespace-free text that `Json.Stringify` produces for flat objects is modelled. That covers null, booleans, non-negative integers, strings and objects of those. Nesting, arrays, whitespace, negative and fractional numbers, and escapes of surrogate pairs are not modelled.
- Json.Parse: an object keeps every member in text order. `JSON.parse` keeps only the last of duplicate keys and puts integer-like keys first; the stored user object has neither.
- Text.Decimal: numbers are unbounded naturals written out in full. A JavaScript number loses precision above 2^53, and `${id}` and `JSON.stringify` switch to exponent form from 1e21 on; ids and user fields are assumed to stay below 2^53.
- Auth.UserValue: `last_login` and `date_joined` are kept as the strings they arrive as, not `Date` objects.
- Auth.Initialize: a stored user that parses to something other than a user object is kept as whatever JSON value it parses to.
- Local storage is a map with no quota, and events from other tabs are not modelled. The Pinia store is one object shared by every caller, and reactivity is not modelled.
- `useApi.ts` (the HTTP client) and `runtimeConfig` are not part of this model. The API base is a parameter of `Urls.BookListAdminPageUrl`.
- Urls: an id is a non-negative integer or an arbitrary string. Negative and fractional JavaScript numbers are not modelled.

## Notes on the source

- `Book.__str__` in `backend/books/models.py:161-165` prints the title, a comma and the author. The model test at `backend/books/tests/test_models.py:115` expects the bare title, and `backend/books/models.py` at this revision has none of the fields that test uses (`isbn`, `pages`). `Models.BookToString` follows the code.
