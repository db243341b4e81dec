/**
 * The route guard that runs before every protected page: it reloads the
 * authentication store from local storage and sends an unauthenticated
 * visitor to the login page.
 */
module AuthGuard {
  import opened Wrappers
  import opened Auth
  import opened Json

  const LoginPath := "/login/"

  /** Where a navigation ends: the requested page, the login page, or an exception from `initializeStore`. */
  datatype Navigation = Proceed | Redirect(path: string) | Aborted

  /** The guard's outcome for what `initializeStore` left behind. */
  function Decide(init: Init): (nav: Navigation)
    ensures nav == Proceed <==> !init.threw && init.session.isAuthenticated
    ensures nav == Redirect(LoginPath) <==> !init.threw && !init.session.isAuthenticated
    ensures nav == Aborted <==> init.threw
  {
    if init.threw then Aborted
    else if !init.session.isAuthenticated then Redirect(LoginPath)
    else Proceed
  }

  /** The guard, run against the shared store. */
  method Guard(store: AuthStore) returns (nav: Navigation)
    requires store.Valid()
    modifies store
    ensures store.Valid()
    ensures Init(store.Current(), store.storage, nav == Aborted) == Initialize(old(store.Current()), old(store.storage))
    ensures nav == Decide(Initialize(old(store.Current()), old(store.storage)))
  {
    var threw := store.InitializeStore();
    if threw {
      nav := Aborted;
    } else if !store.isAuthenticated {
      nav := Redirect(LoginPath);
    } else {
      nav := Proceed;
    }
  }

  /**
   * The guard lets a navigation through exactly when a non-empty token is
   * stored and the stored user, if any, parses; whatever the store held in
   * memory before does not matter.
   */
  lemma ProceedIffStoredToken(s: Session, storage: map<string, string>)
    requires Flat(s.user)
    ensures Decide(Initialize(s, storage)) == Proceed
            <==> TokenKey in storage && storage[TokenKey] != ""
                 && !(UserKey in storage && storage[UserKey] != "" && Parse(storage[UserKey]).None?)
  {
  }

  /** After `logOut`, every guarded navigation is redirected to the login page. */
  lemma RedirectAfterLogOut(s: Session, storage: map<string, string>)
    requires Flat(s.user)
    ensures Decide(Initialize(s, LoggedOutStorage(storage))) == Redirect(LoginPath)
  {
    var m := LoggedOutStorage(storage);
    assert Truthy(GetItem(m, UserKey)) by { assert m[UserKey] != ""; }
  }

  /** After `logIn` with a non-empty token, every guarded navigation goes through. */
  lemma ProceedAfterLogIn(s: Session, storage: map<string, string>, t: string, user: Value)
    requires Flat(s.user) && Flat(user) && t != ""
    ensures Decide(Initialize(s, LoggedInStorage(storage, t, user))) == Proceed
  {
    var m := LoggedInStorage(storage, t, user);
    assert Truthy(GetItem(m, UserKey)) by { assert m[UserKey] != ""; }
  }

  /** Logging out on the shared store, then navigating: the guard redirects to the login page. */
  method LogOutThenNavigate(store: AuthStore) returns (nav: Navigation)
    requires store.Valid()
    modifies store
    ensures nav == Redirect(LoginPath)
    ensures store.Current() == InitialSession
  {
    store.LogOut();
    RedirectAfterLogOut(store.Current(), old(store.storage));
    nav := Guard(store);
  }

  /** Logging in on the shared store, then navigating: the guard lets the visitor through. */
  method LogInThenNavigate(store: AuthStore, t: string, u: User) returns (nav: Navigation)
    requires store.Valid() && t != ""
    modifies store
    ensures nav == Proceed
    ensures store.Current() == Session(Some(t), UserValue(u), true)
  {
    store.LogIn(t, u);
    ProceedAfterLogIn(store.Current(), old(store.storage), t, UserValue(u));
    nav := Guard(store);
  }
}
