/** The start-up check of mobile-app/App.tsx: a stored session is restored
    when the stored access token is a three-part JWT whose expiry is still
    ahead and the stored user data parses; a stored session that fails any
    of these is wiped. The clock, the token payload decoding (`atob` and
    `JSON.parse`, reading `exp`) and the user-data parsing are inputs. */
module AppStartup {
  import opened Base
  import opened Text
  import opened SecureStorage
  import opened AuthSlice

  /** Decodes a token's middle part and reads its `exp`: `Err` when
      decoding or parsing throws, `Ok(None)` when there is no numeric `exp`
      (every comparison with it is false). */
  type DecodeExp = string -> Result<Option<int>, string>

  /** `JSON.parse` of the stored user data and the read of its email;
      `Err` when either throws. */
  type ParseUser = string -> Result<ClientUser, string>

  /** JavaScript truthiness of a stored string: present and non-empty. */
  predicate Truthy(s: Option<string>) {
    s.Some? && s.value != ""
  }

  /** Seconds since the epoch, as `Math.floor(Date.now() / 1000)`. */
  function NowSeconds(nowMillis: nat): nat {
    nowMillis / 1000
  }

  datatype Decision =
    | Restore(user: ClientUser)   // sign the stored user back in
    | ClearStorage                // a stored session that fails a check: wipe it
    | NoSession                   // nothing stored: just stop loading

  /** The check `checkAuthState` makes on the stored token and user data. */
  function StartupDecision(token: Option<string>, userData: Option<string>, nowMillis: nat,
                           decodeExp: DecodeExp, parseUser: ParseUser): (d: Decision)
    // a restore is attempted only with both values stored
    ensures d == NoSession <==> !(Truthy(token) && Truthy(userData))
    // a restored session has a three-part token that is not yet expired
    ensures d.Restore? ==>
              var parts := Split(token.value, '.');
              && |parts| == 3
              && decodeExp(parts[1]).Ok? && decodeExp(parts[1]).value.Some?
              && NowSeconds(nowMillis) < decodeExp(parts[1]).value.value
              && parseUser(userData.value) == Ok(d.user)
    // a stored token with the wrong number of parts is wiped
    ensures Truthy(token) && Truthy(userData) && |Split(token.value, '.')| != 3 ==> d == ClearStorage
    // so is one whose expiry has passed, or that has none
    ensures Truthy(token) && Truthy(userData) && |Split(token.value, '.')| == 3 ==>
              var exp := decodeExp(Split(token.value, '.')[1]);
              (exp.Ok? && (exp.value.None? || NowSeconds(nowMillis) >= exp.value.value) ==> d == ClearStorage)
    // and so is one whose payload or user data does not parse
    ensures (Truthy(token) && Truthy(userData) && |Split(token.value, '.')| == 3
             && decodeExp(Split(token.value, '.')[1]).Err?) ==> d == ClearStorage
  {
    if !(Truthy(token) && Truthy(userData)) then NoSession
    else
      var parts := Split(token.value, '.');
      if |parts| != 3 then ClearStorage
      else
        match decodeExp(parts[1])
        case Err(_) => ClearStorage
        case Ok(exp) =>
          if exp.Some? && NowSeconds(nowMillis) < exp.value then
            match parseUser(userData.value)
            case Ok(u) => Restore(u)
            case Err(_) => ClearStorage
          else ClearStorage
  }

  /** `checkAuthState`. `readFails` says whether reading the store throws,
      which skips straight to the end of loading. */
  method CheckAuthState(store: AuthStore, nowMillis: nat, decodeExp: DecodeExp, parseUser: ParseUser,
                        readFails: bool)
    requires store.Valid()
    modifies store, store.storage
    ensures store.Valid()
    // every path ends the start-up check
    ensures !store.isLoading
    ensures store.error == old(store.error)
    ensures readFails ==>
              store.storage.items == old(store.storage.items)
              && store.user == old(store.user) && store.isAuthenticated == old(store.isAuthenticated)
    ensures !readFails ==>
              var d := StartupDecision(old(store.storage.GetItem(AccessTokenKey)),
                                       old(store.storage.GetItem(UserDataKey)), nowMillis, decodeExp, parseUser);
              && (d.Restore? ==>
                    store.user == Some(d.user) && store.isAuthenticated
                    && store.storage.items == old(store.storage.items))
              && (d == ClearStorage ==>
                    store.storage.items == old(store.storage.items) - {AccessTokenKey, RefreshTokenKey, UserDataKey}
                    && store.user == old(store.user) && store.isAuthenticated == old(store.isAuthenticated))
              && (d == NoSession ==>
                    store.storage.items == old(store.storage.items)
                    && store.user == old(store.user) && store.isAuthenticated == old(store.isAuthenticated))
    // from the initial state, the app's navigator is shown exactly for a restored session
    ensures !old(store.isAuthenticated) ==>
              (ShownScreen(store.isLoading, store.isAuthenticated) == AppNavigator
               <==> !readFails && StartupDecision(old(store.storage.GetItem(AccessTokenKey)),
                                                  old(store.storage.GetItem(UserDataKey)), nowMillis,
                                                  decodeExp, parseUser).Restore?)
  {
    if readFails {
      store.SetLoading(false);
      return;
    }
    var token := store.storage.GetItem(AccessTokenKey);
    var userString := store.storage.GetItem(UserDataKey);
    var d := StartupDecision(token, userString, nowMillis, decodeExp, parseUser);
    if d.Restore? {
      store.RestoreSession(d.user);
      return;
    }
    if d == ClearStorage {
      store.storage.DeleteItem(AccessTokenKey);
      store.storage.DeleteItem(RefreshTokenKey);
      store.storage.DeleteItem(UserDataKey);
    }
    store.SetLoading(false);
  }

  datatype Screen = LoadingScreen | AppNavigator | AuthNavigator

  /** What `AppContent` renders. */
  function ShownScreen(isLoading: bool, isAuthenticated: bool): (r: Screen)
    ensures r == LoadingScreen <==> isLoading
    ensures r == AppNavigator <==> !isLoading && isAuthenticated
    ensures r == AuthNavigator <==> !isLoading && !isAuthenticated
  {
    if isLoading then LoadingScreen
    else if isAuthenticated then AppNavigator else AuthNavigator
  }

  /** A session stays restorable only until its expiry: the same stored
      values are wiped from the second `exp` on. */
  lemma RestoreEndsAtExpiry(token: string, userData: string, m1: nat, m2: nat,
                            decodeExp: DecodeExp, parseUser: ParseUser)
    requires StartupDecision(Some(token), Some(userData), m1, decodeExp, parseUser).Restore?
    requires NowSeconds(m2) >= decodeExp(Split(token, '.')[1]).value.value
    ensures StartupDecision(Some(token), Some(userData), m2, decodeExp, parseUser) == ClearStorage
  {
  }
}
