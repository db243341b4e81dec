/**
 * The front end's authentication store: the token, the user and the
 * authenticated flag, kept in memory and persisted to the browser's local
 * storage, which is modelled as a map from keys to strings.
 */
module Auth {
  import opened Wrappers
  import opened Json

  const TokenKey := "drf-nuxt-library-token"
  const UserKey := "drf-nuxt-library-user"

  /** The `User` record the back end returns, with its dates as the strings they arrive as. */
  datatype User = User(id: nat, username: string, email: string, firstName: string, lastName: string,
                       profileImage: string, isActive: bool, isStaff: bool, isSuperuser: bool,
                       lastLogin: string, dateJoined: string)

  /** The JavaScript object a `User` is, members in the order of the record. */
  function UserValue(u: User): (v: Value)
    ensures v.Object? && Flat(v)
  {
    Object([
      ("id", Num(u.id)),
      ("username", Str(u.username)),
      ("email", Str(u.email)),
      ("first_name", Str(u.firstName)),
      ("last_name", Str(u.lastName)),
      ("profile_image", Str(u.profileImage)),
      ("is_active", Bool(u.isActive)),
      ("is_staff", Bool(u.isStaff)),
      ("is_superuser", Bool(u.isSuperuser)),
      ("last_login", Str(u.lastLogin)),
      ("date_joined", Str(u.dateJoined))
    ])
  }

  /** `localStorage.getItem(key)`: the stored string, or null. */
  function GetItem(storage: map<string, string>, key: string): (r: Option<string>)
    ensures r.Some? <==> key in storage
    ensures r.Some? ==> r.value == storage[key]
  {
    if key in storage then Some(storage[key]) else None
  }

  /** JavaScript truthiness of a `getItem` result: present and not the empty string. */
  predicate Truthy(item: Option<string>) {
    item.Some? && item.value != ""
  }

  /** The in-memory state of the store. */
  datatype Session = Session(token: Option<string>, user: Value, isAuthenticated: bool)

  /** The state the store starts from on every page load. */
  const InitialSession := Session(None, Null, false)

  /** What `initializeStore` leaves: the session, the storage, and whether `JSON.parse` threw. */
  datatype Init = Init(session: Session, storage: map<string, string>, threw: bool)

  /**
   * `initializeStore`: authenticated exactly when a non-empty token is
   * stored; the user is parsed from storage when one is stored, and
   * otherwise the in-memory user is written to storage. A stored user that
   * does not parse throws after the token has been loaded.
   */
  function Initialize(s: Session, storage: map<string, string>): (r: Init)
    requires Flat(s.user)
    ensures r.session.isAuthenticated <==> Truthy(GetItem(storage, TokenKey))
    ensures r.session.token == if r.session.isAuthenticated then Some(storage[TokenKey]) else None
    ensures r.threw <==> Truthy(GetItem(storage, UserKey)) && Parse(storage[UserKey]).None?
    ensures !r.threw && Truthy(GetItem(storage, UserKey)) ==> Some(r.session.user) == Parse(storage[UserKey])
    ensures !Truthy(GetItem(storage, UserKey)) ==> r.session.user == s.user
    ensures r.threw ==> r.session.user == s.user
    ensures Flat(r.session.user)
    ensures r.storage.Keys == storage.Keys + (if Truthy(GetItem(storage, UserKey)) then {} else {UserKey})
    ensures forall k :: k in storage && k != UserKey ==> r.storage[k] == storage[k]
    ensures !Truthy(GetItem(storage, UserKey)) ==> Parse(r.storage[UserKey]) == Some(s.user)
    ensures Truthy(GetItem(storage, UserKey)) ==> r.storage == storage
  {
    var authenticated := Truthy(GetItem(storage, TokenKey));
    var token := if authenticated then Some(storage[TokenKey]) else None;
    var userInfo := GetItem(storage, UserKey);
    if Truthy(userInfo) then
      match Parse(userInfo.value)
      case Some(v) => Init(Session(token, v, authenticated), storage, false)
      case None => Init(Session(token, s.user, authenticated), storage, true)
    else
      ParseStringify(s.user);
      Init(Session(token, s.user, authenticated), storage[UserKey := Stringify(s.user)], false)
  }

  /** A page reload: a fresh store initialised from what is in storage. */
  function Reload(storage: map<string, string>): Init {
    Initialize(InitialSession, storage)
  }

  /** The storage `logIn(t, u)` leaves behind, where `user` is the object `u` is. */
  function LoggedInStorage(storage: map<string, string>, t: string, user: Value): (r: map<string, string>)
    requires Flat(user)
    ensures r.Keys == storage.Keys + {TokenKey, UserKey}
    ensures r[TokenKey] == t && Parse(r[UserKey]) == Some(user)
    ensures forall k :: k in storage && k != TokenKey && k != UserKey ==> r[k] == storage[k]
  {
    ParseStringify(user);
    storage[UserKey := Stringify(user)][TokenKey := t]
  }

  /** The storage `logOut()` leaves behind. */
  function LoggedOutStorage(storage: map<string, string>): (r: map<string, string>)
    ensures r.Keys == storage.Keys + {TokenKey, UserKey}
    ensures r[TokenKey] == "" && Parse(r[UserKey]) == Some(Null)
    ensures forall k :: k in storage && k != TokenKey && k != UserKey ==> r[k] == storage[k]
  {
    ParseStringify(Null);
    storage[UserKey := Stringify(Null)][TokenKey := ""]
  }

  /** Logging in with a non-empty token and reloading restores the token, the user and the authenticated flag. */
  lemma ReloadAfterLogIn(storage: map<string, string>, t: string, user: Value)
    requires t != "" && Flat(user)
    ensures Reload(LoggedInStorage(storage, t, user))
            == Init(Session(Some(t), user, true), LoggedInStorage(storage, t, user), false)
  {
    var m := LoggedInStorage(storage, t, user);
    var r := Reload(m);
    assert Stringify(user) != "" by { ParseStringify(user); }
    assert Truthy(GetItem(m, UserKey));
    assert r.storage == m by {
      assert r.storage.Keys == m.Keys;
    }
  }

  /** Logging out and reloading leaves the store unauthenticated, with no token and no user. */
  lemma ReloadAfterLogOut(storage: map<string, string>)
    ensures Reload(LoggedOutStorage(storage)) == Init(InitialSession, LoggedOutStorage(storage), false)
  {
    var m := LoggedOutStorage(storage);
    var r := Reload(m);
    assert Stringify(Null) == "null";
    assert Truthy(GetItem(m, UserKey));
    assert r.storage == m by {
      assert r.storage.Keys == m.Keys;
    }
  }

  /** Initialising twice is initialising once: a second call finds what the first wrote. */
  lemma InitializeIdempotent(s: Session, storage: map<string, string>)
    requires Flat(s.user)
    requires !Initialize(s, storage).threw
    ensures Initialize(Initialize(s, storage).session, Initialize(s, storage).storage) == Initialize(s, storage)
  {
    var r := Initialize(s, storage);
    var r2 := Initialize(r.session, r.storage);
    if Truthy(GetItem(storage, UserKey)) {
      assert r.storage == storage;
    } else {
      ParseStringify(s.user);
      assert Stringify(s.user) != "";
      assert r2.storage == r.storage by {
        assert r2.storage.Keys == r.storage.Keys;
      }
    }
  }

  class AuthStore {
    var token: Option<string>
    var user: Value
    var isAuthenticated: bool
    /** The browser's local storage, shared with every later page load. */
    var storage: map<string, string>

    /** The user held in memory is a value `JSON.stringify` can write. */
    ghost predicate Valid()
      reads this
    {
      Flat(user)
    }

    function Current(): Session
      reads this
    {
      Session(token, user, isAuthenticated)
    }

    /** The store on page load: no token, no user, not authenticated, over whatever storage holds. */
    constructor (storage: map<string, string>)
      ensures Valid()
      ensures Current() == InitialSession && this.storage == storage
    {
      token := None;
      user := Null;
      isAuthenticated := false;
      this.storage := storage;
    }

    /** `initializeStore()`; `threw` is true when `JSON.parse` of the stored user threw. */
    method InitializeStore() returns (threw: bool)
      requires Valid()
      modifies this
      ensures Valid()
      ensures Initialize(old(Current()), old(storage)) == Init(Current(), storage, threw)
    {
      var stored := GetItem(storage, TokenKey);
      if Truthy(stored) {
        token := stored;
        isAuthenticated := true;
      } else {
        token := None;
        isAuthenticated := false;
      }
      threw := false;
      var userInfo := GetItem(storage, UserKey);
      if Truthy(userInfo) {
        var parsed := Parse(userInfo.value);
        if parsed.Some? {
          user := parsed.value;
        } else {
          threw := true;
        }
      } else {
        storage := storage[UserKey := Stringify(user)];
      }
    }

    /** `setUser(user)`: changes the user and its storage key, nothing else. */
    method SetUser(u: Option<User>)
      requires Valid()
      modifies this
      ensures Valid()
      ensures user == (if u.Some? then UserValue(u.value) else Null)
      ensures storage == old(storage)[UserKey := Stringify(user)]
      ensures token == old(token) && isAuthenticated == old(isAuthenticated)
    {
      user := if u.Some? then UserValue(u.value) else Null;
      storage := storage[UserKey := Stringify(user)];
    }

    /** `logIn(token, user)`. */
    method LogIn(t: string, u: User)
      requires Valid()
      modifies this
      ensures Valid()
      ensures Current() == Session(Some(t), UserValue(u), true)
      ensures storage == LoggedInStorage(old(storage), t, UserValue(u))
    {
      token := Some(t);
      isAuthenticated := true;
      SetUser(Some(u));
      storage := storage[TokenKey := t];
    }

    /** `logOut()`: the token becomes the empty string, not null. */
    method LogOut()
      requires Valid()
      modifies this
      ensures Valid()
      ensures Current() == Session(Some(""), Null, false)
      ensures storage == LoggedOutStorage(old(storage))
    {
      token := Some("");
      isAuthenticated := false;
      SetUser(None);
      storage := storage[TokenKey := ""];
    }
  }
}
