/** The route guards (src/lib/auth-guards.ts): decide from the stored tokens,
    and at most one refresh call, whether the user is signed in, and whether
    the stored user record is an administrator.

    The refresh call's answer is the parameter `response`; it is consulted only
    when the guard actually calls the endpoint. `JSON.parse` is the parameter
    `parse`. */
module AuthGuards {
  import opened Wrappers
  import opened Storage

  /** The answer the refresh endpoint gives when called. */
  datatype RefreshResponse = Granted(accessToken: string, refreshToken: string) | Denied

  /** What `attemptTokenRefresh` returns, whether it called the endpoint, and
      the store afterwards. */
  datatype GuardOutcome = GuardOutcome(authenticated: bool, refreshCalled: bool, items: map<string, string>)

  /** `attemptTokenRefresh` as a function of the store it starts from. */
  function RefreshDecision(items: map<string, string>, response: RefreshResponse): (r: GuardOutcome)
    // an access token settles it: signed in, no call, nothing touched
    ensures Truthy(Lookup(items, AccessTokenKey)) ==> r == GuardOutcome(true, false, items)
    // no token at all: signed out, nothing touched
    ensures !Truthy(Lookup(items, AccessTokenKey)) && !Truthy(Lookup(items, RefreshTokenKey)) ==>
              r == GuardOutcome(false, false, items)
    // the endpoint is called exactly when only a refresh token is stored
    ensures r.refreshCalled <==> !Truthy(Lookup(items, AccessTokenKey)) && Truthy(Lookup(items, RefreshTokenKey))
    ensures r.refreshCalled && response.Granted? ==>
              r.authenticated
              && r.items == items[AccessTokenKey := response.accessToken][RefreshTokenKey := response.refreshToken]
    ensures r.refreshCalled && response.Denied? ==> !r.authenticated && r.items == items - CredentialKeys
    ensures r.authenticated <==>
              Truthy(Lookup(items, AccessTokenKey)) || (Truthy(Lookup(items, RefreshTokenKey)) && response.Granted?)
  {
    if Truthy(Lookup(items, AccessTokenKey)) then GuardOutcome(true, false, items)
    else if !Truthy(Lookup(items, RefreshTokenKey)) then GuardOutcome(false, false, items)
    else match response
      case Granted(access, refresh) =>
        GuardOutcome(true, true, items[AccessTokenKey := access][RefreshTokenKey := refresh])
      case Denied =>
        GuardOutcome(false, true, items - CredentialKeys)
  }

  /** After a guard has signed the user in with a non-empty access token, the
      next guard is satisfied from storage without another refresh call. */
  lemma SecondGuardNeedsNoRefresh(items: map<string, string>, first: RefreshResponse, second: RefreshResponse)
    requires RefreshDecision(items, first).authenticated
    requires first.Granted? ==> first.accessToken != ""
    ensures var after := RefreshDecision(items, first).items;
            RefreshDecision(after, second) == GuardOutcome(true, false, after)
  {
    var after := RefreshDecision(items, first).items;
    if !Truthy(Lookup(items, AccessTokenKey)) {
      assert Lookup(after, AccessTokenKey) == Some(first.accessToken);
    }
  }

  /** `attemptTokenRefresh`, step by step on the store. */
  method AttemptTokenRefresh(store: LocalStorage, response: RefreshResponse) returns (ok: bool, refreshCalled: bool)
    modifies store
    ensures GuardOutcome(ok, refreshCalled, store.items) == RefreshDecision(old(store.items), response)
  {
    var refreshToken := store.GetItem(RefreshTokenKey);
    var accessToken := store.GetItem(AccessTokenKey);
    refreshCalled := false;
    if Truthy(accessToken) {
      return true, false;
    }
    if !Truthy(refreshToken) {
      return false, false;
    }
    refreshCalled := true;
    match response
    case Granted(access, refresh) =>
      store.SetItem(AccessTokenKey, access);
      store.SetItem(RefreshTokenKey, refresh);
      ok := true;
    case Denied =>
      store.ClearCredentials();
      ok := false;
  }

  /** `isAuthenticated` returns what `attemptTokenRefresh` returns. */
  method IsAuthenticated(store: LocalStorage, response: RefreshResponse) returns (ok: bool)
    modifies store
    ensures ok == RefreshDecision(old(store.items), response).authenticated
    ensures store.items == RefreshDecision(old(store.items), response).items
  {
    var called;
    ok, called := AttemptTokenRefresh(store, response);
  }

  /** What `JSON.parse` yields for the stored user record: a parse error,
      `null`, or a value whose `role` property may be absent. */
  datatype Json = Malformed | Null | Value(role: Option<string>)

  const AdminRole := "admin"

  /** The role check on the stored user record: a non-empty record that parses
      to a value whose role is `"admin"`. */
  predicate IsAdminRecord(userRecord: Option<string>, parse: string -> Json)
  {
    Truthy(userRecord) && parse(userRecord.value).Value? && parse(userRecord.value).role == Some(AdminRole)
  }

  /** `isAdmin`: run the guard, then check the stored user record. */
  method IsAdmin(store: LocalStorage, response: RefreshResponse, parse: string -> Json) returns (admin: bool)
    modifies store
    ensures store.items == RefreshDecision(old(store.items), response).items
    ensures admin <==> RefreshDecision(old(store.items), response).authenticated
                       && IsAdminRecord(Lookup(store.items, UserKey), parse)
  {
    var authenticated, called := AttemptTokenRefresh(store, response);
    if !authenticated {
      return false;
    }
    var userRecord := store.GetItem(UserKey);
    if !Truthy(userRecord) {
      return false;
    }
    match parse(userRecord.value)
    case Value(role) => admin := role == Some(AdminRole);
    case _ => admin := false;
  }

  /** A refused refresh removes the user record, so no administrator can be
      found afterwards even with an administrator record stored before. */
  lemma DeniedRefreshIsNeverAdmin(items: map<string, string>, parse: string -> Json)
    requires !Truthy(Lookup(items, AccessTokenKey)) && Truthy(Lookup(items, RefreshTokenKey))
    ensures !IsAdminRecord(Lookup(RefreshDecision(items, Denied).items, UserKey), parse)
  {
    assert UserKey !in RefreshDecision(items, Denied).items;
  }
}
