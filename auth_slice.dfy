/** The client's authentication state, mobile-app/src/store/slices/authSlice.ts:
    who is signed in, whether the start-up check is still running, and the
    last error. The reducers update the state in place and write or delete
    the tokens in secure storage. */
module AuthSlice {
  import opened Base
  import opened SecureStorage

  datatype ClientUser = ClientUser(id: int, email: string, firstName: string, lastName: string)

  class AuthStore {
    var user: Option<ClientUser>
    var isAuthenticated: bool
    var isLoading: bool
    var error: Option<string>
    const storage: SecureStore

    /** Authenticated exactly when a user is held. */
    ghost predicate Valid()
      reads this
    {
      isAuthenticated <==> user.Some?
    }

    /** The initial state: nobody signed in, the start-up check pending. */
    constructor (storage: SecureStore)
      ensures Valid()
      ensures user.None? && !isAuthenticated && isLoading && error.None?
      ensures this.storage == storage
    {
      user := None;
      isAuthenticated := false;
      isLoading := true;
      error := None;
      this.storage := storage;
    }

    /** `setCredentials`: signs the user in and stores both tokens. */
    method SetCredentials(u: ClientUser, token: string, refreshToken: string)
      requires Valid()
      modifies this, storage
      ensures Valid()
      ensures user == Some(u) && isAuthenticated && error.None? && isLoading == old(isLoading)
      ensures storage.items == old(storage.items)[AccessTokenKey := token][RefreshTokenKey := refreshToken]
    {
      user := Some(u);
      isAuthenticated := true;
      error := None;
      storage.SetItem(AccessTokenKey, token);
      storage.SetItem(RefreshTokenKey, refreshToken);
    }

    /** `logout`: signs out and deletes both tokens; the stored user data
        is left in place. */
    method Logout()
      requires Valid()
      modifies this, storage
      ensures Valid()
      ensures user.None? && !isAuthenticated && error.None? && isLoading == old(isLoading)
      ensures storage.items == old(storage.items) - {AccessTokenKey, RefreshTokenKey}
      ensures UserDataKey in old(storage.items) ==> storage.items[UserDataKey] == old(storage.items)[UserDataKey]
    {
      user := None;
      isAuthenticated := false;
      error := None;
      storage.DeleteItem(AccessTokenKey);
      storage.DeleteItem(RefreshTokenKey);
    }

    method SetLoading(loading: bool)
      requires Valid()
      modifies this`isLoading
      ensures Valid()
      ensures isLoading == loading
    {
      isLoading := loading;
    }

    method SetError(message: string)
      requires Valid()
      modifies this`error
      ensures Valid()
      ensures error == Some(message)
    {
      error := Some(message);
    }

    method ClearError()
      requires Valid()
      modifies this`error
      ensures Valid()
      ensures error.None?
    {
      error := None;
    }

    /** `restoreSession`: signs the stored user back in and ends the
        start-up check; the error and the storage are left alone. */
    method RestoreSession(u: ClientUser)
      requires Valid()
      modifies this`user, this`isAuthenticated, this`isLoading
      ensures Valid()
      ensures user == Some(u) && isAuthenticated && !isLoading
    {
      user := Some(u);
      isAuthenticated := true;
      isLoading := false;
    }
  }
}
