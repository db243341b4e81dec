/**
 * The `List` and `ListItem` tables as one in-memory store whose endpoint
 * operations change the tables and answer with an HTTP status.
 */
module ListStorage {
  import opened Wrappers
  import opened Seqs
  import opened Lists

  class ListStore {
    /** The `List` table, newest first (`ordering = ['-created']`). */
    var lists: seq<BookList>
    /** The `ListItem` table, in insertion order. */
    var items: seq<ListItem>
    /** Primary keys of the books that exist. */
    var books: set<nat>
    var nextListId: nat
    var nextItemId: nat

    ghost predicate Valid()
      reads this
    {
      TablesValid(lists, items, nextListId, nextItemId)
    }

    constructor (books: set<nat>)
      ensures Valid()
      ensures lists == [] && items == [] && this.books == books
    {
      lists := [];
      items := [];
      this.books := books;
      nextListId := 1;
      nextItemId := 1;
    }

    /** `List.objects.create(...)`: a new list under a fresh primary key. */
    method AddList(owner: Option<nat>, title: string, description: Option<string>, isPublic: bool)
      returns (l: BookList)
      requires Valid()
      modifies this
      ensures Valid()
      ensures l == BookList(old(nextListId), owner, title, description, isPublic)
      ensures forall m :: m in old(lists) ==> m.id != l.id
      ensures lists == [l] + old(lists)
      ensures items == old(items) && books == old(books) && nextItemId == old(nextItemId)
    {
      l := BookList(nextListId, owner, title, description, isPublic);
      AddListKeepsTablesValid(lists, items, nextListId, nextItemId, l);
      lists := [l] + lists;
      nextListId := nextListId + 1;
    }

    /** `List.objects.create(user=..., title=...)`: every other column takes its default. */
    method CreateList(owner: Option<nat>, title: string) returns (l: BookList)
      requires Valid()
      modifies this
      ensures Valid()
      ensures l == NewList(old(nextListId), owner, title)
      ensures lists == [l] + old(lists)
      ensures items == old(items) && books == old(books) && nextItemId == old(nextItemId)
    {
      l := AddList(owner, title, None, false);
    }

    /**
     * `DELETE /lists/{id}/`: only the owner may delete; the list goes and,
     * by the cascading foreign key, so do its items.
     */
    method DeleteList(caller: Caller, id: nat) returns (status: Status)
      requires Valid()
      modifies this
      ensures Valid()
      ensures status == DeleteListStatus(caller, FindList(old(lists), id))
      ensures status == NoContent ==> lists == ListsWithout(old(lists), id) && items == ItemsWithoutList(old(items), id)
      ensures status != NoContent ==> lists == old(lists) && items == old(items)
      ensures books == old(books) && nextListId == old(nextListId) && nextItemId == old(nextItemId)
    {
      ghost var before := lists;
      status := DeleteListStatus(caller, FindList(lists, id));
      assert status == DeleteListStatus(caller, FindList(before, id));
      if status == NoContent {
        DeleteListKeepsTablesValid(lists, items, nextListId, nextItemId, id);
        lists, items := ListsWithout(lists, id), ItemsWithoutList(items, id);
      }
    }

    /**
     * `POST /list_items/create/`: the owner of the list adds a book that is
     * not in it yet; the new item goes after the list's other items.
     */
    method CreateItem(caller: Caller, listId: nat, bookId: nat, description: Option<string>)
      returns (status: Status, item: Option<ListItem>)
      requires Valid()
      modifies this
      ensures Valid()
      ensures status == CreateItemStatus(caller, old(lists), old(items), old(books), listId, bookId)
      ensures status == Created ==>
                item == Some(ListItem(old(nextItemId), listId, bookId, NextOrder(old(items), listId), description))
                && items == old(items) + [item.value]
      ensures status != Created ==> item.None? && items == old(items)
      ensures nextItemId == if status == Created then old(nextItemId) + 1 else old(nextItemId)
      ensures lists == old(lists) && books == old(books) && nextListId == old(nextListId)
    {
      ghost var before := items;
      status := CreateItemStatus(caller, lists, items, books, listId, bookId);
      assert status == CreateItemStatus(caller, lists, before, books, listId, bookId);
      if status == Created {
        var it := ListItem(nextItemId, listId, bookId, NextOrder(items, listId), description);
        CreateItemKeepsTablesValid(lists, items, nextListId, nextItemId, caller, books, it);
        items := items + [it];
        nextItemId := nextItemId + 1;
        item := Some(it);
      } else {
        item := None;
      }
    }

    /** `DELETE /list_items/{id}/`: only the owner of the item's list may remove it. */
    method DeleteItem(caller: Caller, itemId: nat) returns (status: Status)
      requires Valid()
      modifies this
      ensures Valid()
      ensures status == DeleteItemStatus(caller, old(lists), FindItem(old(items), itemId))
      ensures status == NoContent ==> items == ItemsWithout(old(items), itemId)
      ensures status == NoContent ==> FindItem(items, itemId).None?
      ensures status != NoContent ==> items == old(items)
      ensures lists == old(lists) && books == old(books)
      ensures nextListId == old(nextListId) && nextItemId == old(nextItemId)
    {
      ghost var before := items;
      status := DeleteItemStatus(caller, lists, FindItem(items, itemId));
      assert status == DeleteItemStatus(caller, lists, FindItem(before, itemId));
      if status == NoContent {
        DeleteItemKeepsTablesValid(lists, items, nextListId, nextItemId, itemId);
        items := ItemsWithout(items, itemId);
      }
    }
  }

  /**
   * The own-list deletion test: a user creates a list giving only its title,
   * deletes it (NoContent), and no list with that key is left.
   */
  method DeleteOwnListScenario(owner: nat) returns (status: Status, remaining: Option<BookList>)
    ensures status == NoContent && remaining.None?
  {
    var store := new ListStore({});
    var l := store.CreateList(Some(owner), "New test list");
    assert FindList([l], l.id) == Some(l);
    status := store.DeleteList(User(owner), l.id);
    remaining := FindList(store.lists, l.id);
  }

  /**
   * The item-creation tests: the owner adds a book to a new list (Created,
   * order 0), adds it again (BadRequest), and another user tries to add it
   * to the same list (Forbidden).
   */
  method CreateItemScenario(owner: nat, other: nat, book: nat) returns (statuses: seq<Status>, firstOrder: nat)
    requires owner != other
    ensures statuses == [Created, BadRequest, Forbidden]
    ensures firstOrder == 0
  {
    var store := new ListStore({book});
    var l := store.AddList(Some(owner), "New Test List", Some("Description of the New Test List"), true);
    assert FindList([l], l.id) == Some(l);
    assert !HasBook([], l.id, book);
    var s1, item := store.CreateItem(User(owner), l.id, book, Some("Test ListItem"));
    assert s1 == Created;
    var it := item.value;
    assert store.lists == [l] && store.items == [it] && store.books == {book};
    assert HasBook([it], l.id, book) by { assert it in [it]; }
    var s2, _ := store.CreateItem(User(owner), l.id, book, Some("Test ListItem"));
    assert s2 == BadRequest;
    var s3, _ := store.CreateItem(User(other), l.id, book, Some("Test ListItem"));
    statuses := [s1, s2, s3];
    firstOrder := it.order;
  }

  /**
   * The item-deletion tests: on an item of the owner's list, an anonymous
   * caller gets Unauthorized, another user Forbidden, and the owner
   * NoContent, after which the item is gone.
   */
  method DeleteItemScenario(owner: nat, other: nat, book: nat) returns (statuses: seq<Status>, remaining: Option<ListItem>)
    requires owner != other
    ensures statuses == [Unauthorized, Forbidden, NoContent]
    ensures remaining.None?
  {
    var store := new ListStore({book});
    var l := store.AddList(Some(owner), "New Test List", Some("Description of the New Test List"), true);
    assert FindList([l], l.id) == Some(l);
    var _, item := store.CreateItem(User(owner), l.id, book, None);
    assert !HasBook([], l.id, book);
    var it := item.value;
    assert FindItem([it], it.id) == Some(it);
    var s1 := store.DeleteItem(Anonymous, it.id);
    var s2 := store.DeleteItem(User(other), it.id);
    var s3 := store.DeleteItem(User(owner), it.id);
    statuses := [s1, s2, s3];
    remaining := FindItem(store.items, it.id);
  }
}
