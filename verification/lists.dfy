/**
 * Who may see, delete and add to curated book lists: the rules of the
 * `lists/` and `list_items/` endpoints as pure decisions over the rows of
 * the `List` and `ListItem` tables.
 */
module Lists {
  import opened Wrappers
  import opened Seqs

  /** The identity a request resolves to: no credentials, or an authenticated user. */
  datatype Caller = Anonymous | User(id: nat)

  /** A curated list; the owner is nullable (seeded, ownerless lists exist). */
  datatype BookList = BookList(id: nat, owner: Option<nat>, title: string, description: Option<string>, isPublic: bool)

  /** One book's place in one list; `order` is a non-negative position. */
  datatype ListItem = ListItem(id: nat, list: nat, book: nat, order: nat, description: Option<string>)

  /** The HTTP outcomes the endpoints answer with. */
  datatype Status = Created | NoContent | BadRequest | Unauthorized | Forbidden | NotFound

  /** A list as created without saying more than owner and title: private, no description. */
  function NewList(id: nat, owner: Option<nat>, title: string): (l: BookList)
    ensures !l.isPublic && l.description.None?
    ensures l.id == id && l.owner == owner && l.title == title
  {
    BookList(id, owner, title, None, false)
  }

  /** The caller is authenticated and is the list's owner (ownerless lists have none). */
  predicate Owns(caller: Caller, l: BookList) {
    caller.User? && l.owner == Some(caller.id)
  }

  /** A list is readable by everyone when public, and by its owner always. */
  predicate CanRead(caller: Caller, l: BookList) {
    l.isPublic || Owns(caller, l)
  }

  /** Some item of list `listId` holds book `bookId`. */
  predicate HasBook(items: seq<ListItem>, listId: nat, bookId: nat) {
    exists it :: it in items && it.list == listId && it.book == bookId
  }

  // ---------------------------------------------------------------------------
  // Reading lists
  // ---------------------------------------------------------------------------

  /** The lists a caller may see, before any scoping by query parameters. */
  function Visible(caller: Caller, lists: seq<BookList>): (r: seq<BookList>)
    ensures SubsequenceOf(r, lists)
    ensures forall l :: l in r ==> CanRead(caller, l)
  {
    KeepIsSubsequence(lists, (l: BookList) => CanRead(caller, l));
    Keep(lists, (l: BookList) => CanRead(caller, l))
  }

  /**
   * `GET /lists/`: the visible lists; with `only_own_lists=true` an
   * authenticated caller's own lists instead; with `book_id` only the lists
   * holding that book.
   */
  function ListLists(caller: Caller, lists: seq<BookList>, items: seq<ListItem>,
                     bookId: Option<nat>, onlyOwnLists: bool): (r: seq<BookList>)
    ensures SubsequenceOf(r, lists)
    ensures forall l :: l in r ==> CanRead(caller, l)
    ensures bookId.Some? ==> forall l :: l in r ==> HasBook(items, l.id, bookId.value)
  {
    var scoped :=
      if onlyOwnLists && caller.User? then
        KeepIsSubsequence(lists, (l: BookList) => Owns(caller, l));
        Keep(lists, (l: BookList) => Owns(caller, l))
      else Visible(caller, lists);
    if bookId.Some? then
      KeepIsSubsequence(scoped, (l: BookList) => HasBook(items, l.id, bookId.value));
      SubsequenceTransitive(Keep(scoped, (l: BookList) => HasBook(items, l.id, bookId.value)), scoped, lists);
      Keep(scoped, (l: BookList) => HasBook(items, l.id, bookId.value))
    else scoped
  }

  /** Without credentials the listing is exactly the public lists. */
  lemma AnonymousListsArePublic(lists: seq<BookList>, items: seq<ListItem>, onlyOwnLists: bool)
    ensures forall l :: l in ListLists(Anonymous, lists, items, None, onlyOwnLists) <==> l in lists && l.isPublic
  {
  }

  /** An authenticated listing is exactly the public lists and the caller's own private ones. */
  lemma UserListsArePublicAndOwn(uid: nat, lists: seq<BookList>, items: seq<ListItem>)
    ensures forall l :: l in ListLists(User(uid), lists, items, None, false)
                        <==> l in lists && (l.isPublic || (l.owner == Some(uid) && !l.isPublic))
  {
  }

  /** `only_own_lists=true` gives exactly the caller's lists, public or private. */
  lemma OnlyOwnListsAreOwned(uid: nat, lists: seq<BookList>, items: seq<ListItem>)
    ensures forall l :: l in ListLists(User(uid), lists, items, None, true) <==> l in lists && l.owner == Some(uid)
  {
  }

  /** `book_id` restricts the same listing to the lists holding that book, for any caller. */
  lemma BookIdRestrictsListing(caller: Caller, lists: seq<BookList>, items: seq<ListItem>, bookId: nat, onlyOwnLists: bool)
    ensures ListLists(caller, lists, items, Some(bookId), onlyOwnLists)
            == Keep(ListLists(caller, lists, items, None, onlyOwnLists), (l: BookList) => HasBook(items, l.id, bookId))
  {
  }

  /** The first list with primary key `id`, if any. */
  function FindList(lists: seq<BookList>, id: nat): (r: Option<BookList>)
    ensures r.None? <==> forall l :: l in lists ==> l.id != id
    ensures r.Some? ==> r.value in lists && r.value.id == id
  {
    var found := Keep(lists, (l: BookList) => l.id == id);
    if found == [] then None else assert found[0] in found; Some(found[0])
  }

  /** `GET /lists/{id}/`: the list when the caller may read it; Forbidden otherwise; NotFound for an unknown id. */
  function ListDetail(caller: Caller, lists: seq<BookList>, id: nat): (r: Result<BookList, Status>)
    ensures r.Ok? ==> r.value in lists && r.value.id == id && CanRead(caller, r.value)
    ensures r.Err? ==> r.error in {NotFound, Forbidden}
    ensures r == Err(NotFound) <==> forall l :: l in lists ==> l.id != id
  {
    match FindList(lists, id)
    case None => Err(NotFound)
    case Some(l) => if CanRead(caller, l) then Ok(l) else Err(Forbidden)
  }

  /** Anyone may read a public list; an authenticated owner may read their private list. */
  lemma ListDetailAllowed(caller: Caller, l: BookList, lists: seq<BookList>)
    requires l in lists && forall m :: m in lists && m.id == l.id ==> m == l
    requires l.isPublic || Owns(caller, l)
    ensures ListDetail(caller, lists, l.id) == Ok(l)
  {
  }

  /** Another user's private list is Forbidden, with or without credentials. */
  lemma OthersPrivateListForbidden(caller: Caller, l: BookList, lists: seq<BookList>)
    requires l in lists && forall m :: m in lists && m.id == l.id ==> m == l
    requires !l.isPublic && !Owns(caller, l)
    ensures ListDetail(caller, lists, l.id) == Err(Forbidden)
  {
  }

  // ---------------------------------------------------------------------------
  // Deleting lists
  // ---------------------------------------------------------------------------

  /** `DELETE /lists/{id}/` for the list found under that id (None when there is none). */
  function DeleteListStatus(caller: Caller, target: Option<BookList>): (s: Status)
    ensures s == NoContent <==> target.Some? && Owns(caller, target.value)
    ensures s == NotFound <==> target.None?
    ensures s in {NoContent, NotFound, Forbidden}
  {
    match target
    case None => NotFound
    case Some(l) =>
      if caller.Anonymous? then Forbidden
      else if !Owns(caller, l) then Forbidden
      else NoContent
  }

  /** No list can be deleted without credentials, and an ownerless list by nobody. */
  lemma DeleteListRefusals(caller: Caller, l: BookList)
    ensures DeleteListStatus(Anonymous, Some(l)) == Forbidden
    ensures l.owner.None? ==> DeleteListStatus(caller, Some(l)) == Forbidden
    ensures caller.User? && l.owner != Some(caller.id) ==> DeleteListStatus(caller, Some(l)) == Forbidden
  {
  }

  // ---------------------------------------------------------------------------
  // Adding and removing list items
  // ---------------------------------------------------------------------------

  /**
   * `POST /list_items/create/`: Unauthorized without credentials; BadRequest
   * for an unknown list or book; Forbidden when the list is someone else's;
   * BadRequest when the book is already in the list; otherwise Created.
   */
  function CreateItemStatus(caller: Caller, lists: seq<BookList>, items: seq<ListItem>, books: set<nat>,
                            listId: nat, bookId: nat): (s: Status)
    ensures s == Unauthorized <==> caller.Anonymous?
    ensures s == Created <==> caller.User? && bookId in books && FindList(lists, listId).Some?
                              && Owns(caller, FindList(lists, listId).value) && !HasBook(items, listId, bookId)
    ensures s == Forbidden <==> caller.User? && bookId in books && FindList(lists, listId).Some?
                                && !Owns(caller, FindList(lists, listId).value)
    ensures s in {Unauthorized, BadRequest, Forbidden, Created}
  {
    if caller.Anonymous? then Unauthorized
    else match FindList(lists, listId)
      case None => BadRequest
      case Some(l) =>
        if bookId !in books then BadRequest
        else if !Owns(caller, l) then Forbidden
        else if HasBook(items, listId, bookId) then BadRequest
        else Created
  }

  /** The items of one list, as they are read back. */
  function ItemsOf(items: seq<ListItem>, listId: nat): (r: seq<ListItem>)
    ensures forall it :: it in r <==> it in items && it.list == listId
  {
    Keep(items, (it: ListItem) => it.list == listId)
  }

  /** The order given to a new item: 0 in an empty list, else one more than the largest order there. */
  function NextOrder(items: seq<ListItem>, listId: nat): (n: nat)
    ensures forall it :: it in items && it.list == listId ==> it.order < n
    ensures (forall it :: it in items ==> it.list != listId) ==> n == 0
  {
    if items == [] then 0
    else
      var init, last := items[..|items| - 1], items[|items| - 1];
      var n := NextOrder(init, listId);
      assert forall it :: it in items ==> it in init || it == last;
      if last.list == listId && last.order + 1 > n then last.order + 1 else n
  }

  /** `DELETE /list_items/{id}/`: Unauthorized without credentials, NotFound, or Forbidden unless the caller owns the item's list. */
  function DeleteItemStatus(caller: Caller, lists: seq<BookList>, target: Option<ListItem>): (s: Status)
    ensures s == Unauthorized <==> caller.Anonymous?
    ensures s == NoContent <==> caller.User? && target.Some? && FindList(lists, target.value.list).Some?
                                && Owns(caller, FindList(lists, target.value.list).value)
    ensures s == NotFound <==> caller.User? && target.None?
    ensures s in {Unauthorized, NotFound, Forbidden, NoContent}
  {
    if caller.Anonymous? then Unauthorized
    else match target
      case None => NotFound
      case Some(it) =>
        match FindList(lists, it.list)
        case Some(l) => if Owns(caller, l) then NoContent else Forbidden
        case None => Forbidden
  }

  /** The first item with primary key `id`, if any. */
  function FindItem(items: seq<ListItem>, id: nat): (r: Option<ListItem>)
    ensures r.None? <==> forall it :: it in items ==> it.id != id
    ensures r.Some? ==> r.value in items && r.value.id == id
  {
    var found := Keep(items, (it: ListItem) => it.id == id);
    if found == [] then None else assert found[0] in found; Some(found[0])
  }

  // ---------------------------------------------------------------------------
  // What the tables always satisfy
  // ---------------------------------------------------------------------------

  /** Within one list, an earlier item has a smaller order. */
  predicate OrderBefore(a: ListItem, b: ListItem) {
    a.list == b.list ==> a.order < b.order
  }

  /** Items of the same list never hold the same book. */
  predicate DistinctBooks(a: ListItem, b: ListItem) {
    a.list == b.list ==> a.book != b.book
  }

  predicate DistinctListIds(a: BookList, b: BookList) {
    a.id != b.id
  }

  predicate DistinctItemIds(a: ListItem, b: ListItem) {
    a.id != b.id
  }

  /**
   * The invariant of the two tables: unique primary keys below the next ones
   * to be issued, every item in an existing list, each book at most once per
   * list, and orders ascending along the table within each list.
   */
  ghost predicate TablesValid(lists: seq<BookList>, items: seq<ListItem>, nextListId: nat, nextItemId: nat) {
    && Pairwise(lists, DistinctListIds)
    && Pairwise(items, DistinctItemIds)
    && Pairwise(items, DistinctBooks)
    && Pairwise(items, OrderBefore)
    && (forall l :: l in lists ==> l.id < nextListId)
    && (forall it :: it in items ==> it.id < nextItemId)
    && (forall it :: it in items ==> FindList(lists, it.list).Some?)
  }

  /** Read back, a list's items come in strictly ascending order. */
  lemma ItemsReadBackAscending(items: seq<ListItem>, listId: nat)
    requires Pairwise(items, OrderBefore)
    ensures forall i, j :: 0 <= i < j < |ItemsOf(items, listId)| ==>
              ItemsOf(items, listId)[i].order < ItemsOf(items, listId)[j].order
  {
    KeepPairwise(items, (it: ListItem) => it.list == listId, OrderBefore);
    var r := ItemsOf(items, listId);
    forall i, j | 0 <= i < j < |r| ensures r[i].order < r[j].order {
      assert r[i] in r && r[j] in r;
      assert OrderBefore(r[i], r[j]);
    }
  }

  /** The lists left when list `id` is deleted. */
  function ListsWithout(lists: seq<BookList>, id: nat): (r: seq<BookList>)
    ensures forall l :: l in r <==> l in lists && l.id != id
  {
    Keep(lists, (l: BookList) => l.id != id)
  }

  /** The items left when list `listId` is deleted: its items go with it. */
  function ItemsWithoutList(items: seq<ListItem>, listId: nat): (r: seq<ListItem>)
    ensures forall it :: it in r <==> it in items && it.list != listId
  {
    Keep(items, (it: ListItem) => it.list != listId)
  }

  /** The items left when item `itemId` is deleted. */
  function ItemsWithout(items: seq<ListItem>, itemId: nat): (r: seq<ListItem>)
    ensures forall it :: it in r <==> it in items && it.id != itemId
  {
    Keep(items, (it: ListItem) => it.id != itemId)
  }

  // ---------------------------------------------------------------------------
  // Every table change keeps the invariant
  // ---------------------------------------------------------------------------

  /** Adding a list under a fresh primary key keeps the tables valid. */
  lemma AddListKeepsTablesValid(lists: seq<BookList>, items: seq<ListItem>, nextListId: nat, nextItemId: nat,
                                l: BookList)
    requires TablesValid(lists, items, nextListId, nextItemId)
    requires l.id == nextListId
    ensures TablesValid([l] + lists, items, nextListId + 1, nextItemId)
  {
    PairwisePrepend(l, lists, DistinctListIds);
    forall it | it in items ensures FindList([l] + lists, it.list).Some? {
      var m := FindList(lists, it.list).value;
      assert m in [l] + lists;
    }
  }

  /** Deleting list `id` together with its items keeps the tables valid. */
  lemma DeleteListKeepsTablesValid(lists: seq<BookList>, items: seq<ListItem>, nextListId: nat, nextItemId: nat,
                                   id: nat)
    requires TablesValid(lists, items, nextListId, nextItemId)
    ensures TablesValid(ListsWithout(lists, id), ItemsWithoutList(items, id), nextListId, nextItemId)
  {
    var lists' := ListsWithout(lists, id);
    var items' := ItemsWithoutList(items, id);
    KeepPairwise(lists, (l: BookList) => l.id != id, DistinctListIds);
    KeepPairwise(items, (it: ListItem) => it.list != id, DistinctItemIds);
    KeepPairwise(items, (it: ListItem) => it.list != id, DistinctBooks);
    KeepPairwise(items, (it: ListItem) => it.list != id, OrderBefore);
    forall it | it in items' ensures FindList(lists', it.list).Some? {
      var m := FindList(lists, it.list).value;
      assert m in lists';
    }
  }

  /** After a list is deleted, neither it nor any of its items is left. */
  lemma DeleteListLeavesNothing(lists: seq<BookList>, items: seq<ListItem>, id: nat)
    ensures FindList(ListsWithout(lists, id), id).None?
    ensures ItemsOf(ItemsWithoutList(items, id), id) == []
  {
    KeepNone(ItemsWithoutList(items, id), (it: ListItem) => it.list == id);
  }

  /** A granted item creation keeps the tables valid: the book is new to the list and goes last. */
  lemma CreateItemKeepsTablesValid(lists: seq<BookList>, items: seq<ListItem>, nextListId: nat, nextItemId: nat,
                                   caller: Caller, books: set<nat>, it: ListItem)
    requires TablesValid(lists, items, nextListId, nextItemId)
    requires CreateItemStatus(caller, lists, items, books, it.list, it.book) == Created
    requires it.id == nextItemId && it.order == NextOrder(items, it.list)
    ensures TablesValid(lists, items + [it], nextListId, nextItemId + 1)
  {
    PairwiseAppend(items, it, DistinctItemIds);
    PairwiseAppend(items, it, DistinctBooks);
    PairwiseAppend(items, it, OrderBefore);
  }

  /** Removing item `id` keeps the tables valid. */
  lemma DeleteItemKeepsTablesValid(lists: seq<BookList>, items: seq<ListItem>, nextListId: nat, nextItemId: nat,
                                   id: nat)
    requires TablesValid(lists, items, nextListId, nextItemId)
    ensures TablesValid(lists, ItemsWithout(items, id), nextListId, nextItemId)
  {
    KeepPairwise(items, (it: ListItem) => it.id != id, DistinctItemIds);
    KeepPairwise(items, (it: ListItem) => it.id != id, DistinctBooks);
    KeepPairwise(items, (it: ListItem) => it.id != id, OrderBefore);
  }
}
