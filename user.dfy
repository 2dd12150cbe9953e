/**
  The user session store: the e-mail address and the authentication token
  of whoever is signed in, mirrored into the browser's `localStorage` under
  two fixed keys so that a page reload can rehydrate them.
 */
module User {
  import opened WebStorage

  const AuthTokenKey: string := "auth_token"
  const UserEmailKey: string := "user_email"

  class UserStore {
    var email: string
    var token: string
    /** The browser's one `localStorage`, shared with the rest of the page. */
    const storage: LocalStorage

    /** A fresh store starts signed out, with both fields empty. */
    constructor (storage: LocalStorage)
      ensures this.storage == storage
      ensures email == "" && token == ""
      ensures !IsLoggedIn()
    {
      this.storage := storage;
      email, token := "", "";
    }

    /** The `isLoggedIn` getter: `!!token`. */
    function IsLoggedIn(): (r: bool)
      reads this
      ensures r <==> token != ""
    {
      Truthy(Some(token))
    }

    /** Both fields are what `localStorage` holds under their keys. */
    predicate Mirrored()
      reads this, storage
    {
      storage.GetItem(AuthTokenKey) == Some(token) && storage.GetItem(UserEmailKey) == Some(email)
    }

    /** Signs in: no validation, both fields and both keys are overwritten. */
    method Login(email: string, token: string)
      modifies this, storage
      ensures this.email == email && this.token == token
      ensures IsLoggedIn() <==> token != ""
      ensures storage.items == old(storage.items)[AuthTokenKey := token][UserEmailKey := email]
      ensures Mirrored()
      ensures forall k | k != AuthTokenKey && k != UserEmailKey :: SameAt(old(storage.items), storage.items, k)
    {
      this.email := email;
      this.token := token;
      storage.SetItem(AuthTokenKey, token);
      storage.SetItem(UserEmailKey, email);
    }

    /** Signs out: both fields emptied, both keys removed, every other key kept. */
    method Logout()
      modifies this, storage
      ensures email == "" && token == ""
      ensures !IsLoggedIn()
      ensures storage.items == old(storage.items) - {AuthTokenKey, UserEmailKey}
      ensures AuthTokenKey !in storage.items && UserEmailKey !in storage.items
      ensures forall k | k != AuthTokenKey && k != UserEmailKey :: SameAt(old(storage.items), storage.items, k)
    {
      email := "";
      token := "";
      storage.RemoveItem(AuthTokenKey);
      storage.RemoveItem(UserEmailKey);
    }

    /**
      Rehydrates the fields from `localStorage`, but only when both keys hold
      truthy values; otherwise the fields keep whatever they held. Storage is
      only read.
     */
    method LoadFromLocalStorage()
      modifies this
      ensures unchanged(storage)
      ensures Present(storage.items, AuthTokenKey) && Present(storage.items, UserEmailKey) ==>
        token == storage.items[AuthTokenKey] && email == storage.items[UserEmailKey] && IsLoggedIn() && Mirrored()
      ensures !(Present(storage.items, AuthTokenKey) && Present(storage.items, UserEmailKey)) ==>
        token == old(token) && email == old(email)
    {
      var token := storage.GetItem(AuthTokenKey);
      var email := storage.GetItem(UserEmailKey);
      if Truthy(token) && Truthy(email) {
        this.token := token.value;
        this.email := email.value;
      }
    }
  }

  /**
    A sign-in followed by a page reload: the next page builds a fresh store
    over the same `localStorage` and calls `LoadFromLocalStorage` once at
    startup. The session survives exactly when both the e-mail address and
    the token were non-empty; otherwise the new page comes up signed out.
   */
  method ReloadAfterLogin(storage: LocalStorage, email: string, token: string) returns (reloaded: UserStore)
    modifies storage
    ensures fresh(reloaded) && reloaded.storage == storage
    ensures email != "" && token != "" ==> reloaded.email == email && reloaded.token == token
    ensures !(email != "" && token != "") ==> reloaded.email == "" && reloaded.token == ""
    ensures reloaded.IsLoggedIn() <==> email != "" && token != ""
    ensures forall k | k != AuthTokenKey && k != UserEmailKey :: SameAt(old(storage.items), storage.items, k)
  {
    var before := new UserStore(storage);
    before.Login(email, token);
    reloaded := new UserStore(storage);
    reloaded.LoadFromLocalStorage();
  }

  /** A sign-out followed by a page reload leaves the new page signed out. */
  method ReloadAfterLogout(current: UserStore) returns (reloaded: UserStore)
    modifies current, current.storage
    ensures fresh(reloaded) && reloaded.storage == current.storage
    ensures reloaded.email == "" && reloaded.token == ""
    ensures !reloaded.IsLoggedIn()
  {
    current.Logout();
    reloaded := new UserStore(current.storage);
    reloaded.LoadFromLocalStorage();
  }
}
