/**
 * The frontend's token store (apps/frontend/lib/auth.ts): the bearer token
 * under "authToken" and the user id under "currentUserId" in
 * `localStorage`. Every storage failure is caught; the getters then
 * answer null and the setters change nothing.
 */
module ClientAuth {
  import opened Wrappers
  import opened BrowserStorage
  import AuthMiddleware

  const AuthTokenKey: string := "authToken"
  const UserIdKey: string := "currentUserId"
  const AuthorizationHeader: string := "Authorization"

  /** The stored value under `key`, or null when absent or when storage throws. */
  function Stored(store: LocalStorage, key: string): (v: Option<string>)
    reads store
    ensures v.Some? <==> store.available && key in store.entries
    ensures v.Some? ==> v.value == store.entries[key]
  {
    match store.GetItem(key)
    case Ok(value) => value
    case Err(_) => None
  }

  /** `getAuthToken()`. */
  function GetAuthToken(store: LocalStorage): (v: Option<string>)
    reads store
    ensures v.Some? <==> store.available && AuthTokenKey in store.entries
    ensures v.Some? ==> v.value == store.entries[AuthTokenKey]
  {
    Stored(store, AuthTokenKey)
  }

  /** `getUserId()`. */
  function GetUserId(store: LocalStorage): (v: Option<string>)
    reads store
    ensures v.Some? <==> store.available && UserIdKey in store.entries
    ensures v.Some? ==> v.value == store.entries[UserIdKey]
  {
    Stored(store, UserIdKey)
  }

  /** `saveAuthToken(token)`: afterwards the token reads back; the user id is untouched. */
  method SaveAuthToken(store: LocalStorage, token: string)
    modifies store
    ensures store.available == old(store.available)
    ensures store.available ==> store.entries == old(store.entries)[AuthTokenKey := token]
    ensures !store.available ==> store.entries == old(store.entries)
    ensures store.available ==> GetAuthToken(store) == Some(token)
    ensures GetUserId(store) == old(GetUserId(store))
  {
    var _ := store.SetItem(AuthTokenKey, token);
  }

  /** `clearAuthToken()`: afterwards no token reads back; the user id is untouched. */
  method ClearAuthToken(store: LocalStorage)
    modifies store
    ensures store.available == old(store.available)
    ensures store.available ==> store.entries == old(store.entries) - {AuthTokenKey}
    ensures !store.available ==> store.entries == old(store.entries)
    ensures GetAuthToken(store) == None
    ensures GetUserId(store) == old(GetUserId(store))
  {
    var _ := store.RemoveItem(AuthTokenKey);
  }

  /** `saveUserId(userId)`: afterwards the id reads back; the token is untouched. */
  method SaveUserId(store: LocalStorage, userId: string)
    modifies store
    ensures store.available == old(store.available)
    ensures store.available ==> store.entries == old(store.entries)[UserIdKey := userId]
    ensures !store.available ==> store.entries == old(store.entries)
    ensures store.available ==> GetUserId(store) == Some(userId)
    ensures GetAuthToken(store) == old(GetAuthToken(store))
  {
    var _ := store.SetItem(UserIdKey, userId);
  }

  /** `clearUserId()`: afterwards no id reads back; the token is untouched. */
  method ClearUserId(store: LocalStorage)
    modifies store
    ensures store.available == old(store.available)
    ensures store.available ==> store.entries == old(store.entries) - {UserIdKey}
    ensures !store.available ==> store.entries == old(store.entries)
    ensures GetUserId(store) == None
    ensures GetAuthToken(store) == old(GetAuthToken(store))
  {
    var _ := store.RemoveItem(UserIdKey);
  }

  /** `!!token`: a stored, non-empty token. */
  predicate HasToken(token: Option<string>) {
    token.Some? && token.value != ""
  }

  /** `isAuthenticated()`: a non-empty token is stored. */
  function IsAuthenticated(store: LocalStorage): (b: bool)
    reads store
    ensures b <==> store.available && AuthTokenKey in store.entries && store.entries[AuthTokenKey] != ""
  {
    HasToken(GetAuthToken(store))
  }

  /** `logout()`: both keys are removed and every other entry is kept. */
  method Logout(store: LocalStorage)
    modifies store
    ensures store.available == old(store.available)
    ensures store.available ==> store.entries == old(store.entries) - {AuthTokenKey, UserIdKey}
    ensures !store.available ==> store.entries == old(store.entries)
    ensures !IsAuthenticated(store) && GetUserId(store) == None
  {
    ClearAuthToken(store);
    ClearUserId(store);
  }

  /** The headers for a token: `{Authorization: "Bearer <token>"}` when it is truthy, `{}` otherwise. */
  function AuthHeaders(token: Option<string>): (h: map<string, string>)
    ensures HasToken(token) ==> h == map[AuthorizationHeader := "Bearer " + token.value]
    ensures !HasToken(token) ==> h == map[]
  {
    if HasToken(token) then map[AuthorizationHeader := "Bearer " + token.value] else map[]
  }

  /** `getAuthHeaders()`. */
  function GetAuthHeaders(store: LocalStorage): (h: map<string, string>)
    reads store
    ensures AuthorizationHeader in h <==> IsAuthenticated(store)
  {
    AuthHeaders(GetAuthToken(store))
  }

  /** The header sent for a stored token passes the API server's check exactly when the token has no space. */
  lemma HeadersPassMiddleware(token: string)
    requires token != ""
    ensures AuthMiddleware.RequireAuth(Some(AuthHeaders(Some(token))[AuthorizationHeader])) == AuthMiddleware.Next
            <==> ' ' !in token
  {
    var header := "Bearer " + token;
    AuthMiddleware.AcceptsExactlyBearer(header);
    forall t ensures AuthMiddleware.IsBearer(header, t) <==> t == token && ' ' !in token {
      SameBearer(t, token);
    }
    if ' ' !in token {
      assert AuthMiddleware.IsBearer(header, token);
    }
  }

  /** Two bearer headers are equal exactly when their tokens are. */
  lemma SameBearer(t: string, token: string)
    ensures "Bearer " + t == "Bearer " + token <==> t == token
  {
    if "Bearer " + t == "Bearer " + token {
      assert t == ("Bearer " + t)[7..];
    }
  }
}
