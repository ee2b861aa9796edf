/** The HTTP client's credential handling (src/api/client.ts): the bearer
    header added to every request, the single-flight refresh on a 401 with its
    queue of waiting requests, and the error-message rule.

    The transport is outside the model. A failed response is the event
    `OnResponse`; the outcome of the one refresh call is the event
    `RefreshSucceeded` or `RefreshFailed`. The module-level `isRefreshing` flag
    and `failedQueue` array are fields of one `RefreshCoordinator`. */
module ApiClient {
  import opened Wrappers
  import opened Storage

  type Headers = map<string, string>

  const AuthorizationHeader := "Authorization"
  const Unauthorized := 401

  function Bearer(token: string): string
  {
    "Bearer " + token
  }

  /** The request interceptor: with a stored access token the request carries
      `Authorization: Bearer <token>`; without one it goes out unchanged. */
  function AttachToken(headers: Headers, storedToken: Option<string>): (r: Headers)
    ensures Truthy(storedToken) ==> AuthorizationHeader in r && r[AuthorizationHeader] == Bearer(storedToken.value)
    ensures !Truthy(storedToken) ==> r == headers
    ensures forall k :: k != AuthorizationHeader ==> (k in r <==> k in headers)
    ensures forall k :: k != AuthorizationHeader && k in r ==> r[k] == headers[k]
  {
    if Truthy(storedToken) then headers[AuthorizationHeader := Bearer(storedToken.value)] else headers
  }

  /** A request that failed; `retry` is the `_retry` mark. */
  datatype Request = Request(id: nat, retry: bool, headers: Headers)

  datatype Failure =
    | HttpFailure(requestId: nat, status: int)
    | RefreshFailure(reason: string)

  /** How one queued request was settled by `processQueue`. */
  datatype Settlement =
    | Resolved(request: Request, token: string)
    | Rejected(request: Request, reason: Failure)

  /** What the response interceptor does with a failed response. */
  datatype Reaction =
    | PassedOn(error: Failure)      // rejected unchanged
    | Queued                        // waits for the refresh already in flight
    | RefreshStarted                // this request started the refresh and waits for it
    | LoggedOut(error: Failure)     // no refresh token: credentials cleared, redirected, rejected

  /** `prom.resolve(token)` or `prom.reject(error)`, as `processQueue` decides. */
  function Settle(request: Request, error: Option<Failure>, token: string): Settlement
  {
    if error.Some? then Rejected(request, error.value) else Resolved(request, token)
  }

  function SettleAll(queue: seq<Request>, error: Option<Failure>, token: string): (s: seq<Settlement>)
    ensures |s| == |queue|
  {
    seq(|queue|, i requires 0 <= i < |queue| => Settle(queue[i], error, token))
  }

  /** The requests a log of settlements speaks of, in order. */
  function SettledRequests(log: seq<Settlement>): seq<Request>
  {
    seq(|log|, i requires 0 <= i < |log| => log[i].request)
  }

  lemma SettledRequestsAppend(a: seq<Settlement>, b: seq<Settlement>)
    ensures SettledRequests(a + b) == SettledRequests(a) + SettledRequests(b)
  {
  }

  /** `processQueue` settles every queued request exactly once, in queue order,
      and all the same way: resolved with the token when there is no error,
      rejected with the error otherwise. */
  lemma SettleAllExactlyOnce(queue: seq<Request>, error: Option<Failure>, token: string)
    ensures SettledRequests(SettleAll(queue, error, token)) == queue
    ensures forall i :: 0 <= i < |queue| ==>
              if error.Some? then SettleAll(queue, error, token)[i] == Rejected(queue[i], error.value)
              else SettleAll(queue, error, token)[i] == Resolved(queue[i], token)
  {
  }

  /** The request replayed after a successful refresh, carrying the new token. */
  function WithToken(request: Request, token: string): (r: Request)
    ensures r.id == request.id && r.retry == request.retry
    ensures AuthorizationHeader in r.headers && r.headers[AuthorizationHeader] == Bearer(token)
    ensures forall k :: k != AuthorizationHeader ==> (k in r.headers <==> k in request.headers)
    ensures forall k :: k != AuthorizationHeader && k in r.headers ==> r.headers[k] == request.headers[k]
  {
    request.(headers := request.headers[AuthorizationHeader := Bearer(token)])
  }

  class RefreshCoordinator {
    const storage: LocalStorage
    var isRefreshing: bool
    var failedQueue: seq<Request>
    /** The request whose handler issued the refresh call and awaits it. */
    var refreshing: Option<Request>
    /** The refresh token sent by each refresh call, in order. */
    var refreshCalls: seq<string>
    var completedRefreshes: nat
    /** Every settlement made by `processQueue`, in order. */
    var settled: seq<Settlement>
    /** Assignments of `/login` to `window.location.href`. */
    var redirects: nat
    /** Every request ever put on the queue, in order. */
    ghost var enqueued: seq<Request>

    /** At most one refresh call is outstanding, and the request awaiting it
        carries the `_retry` mark; a queue exists only while a refresh is
        flagged; every request ever queued is either settled
        exactly once, in queue order, or still waiting. */
    ghost predicate Valid()
      reads this
    {
      && (refreshing.Some? ==> isRefreshing && refreshing.value.retry)
      && (failedQueue != [] ==> isRefreshing)
      && |refreshCalls| == completedRefreshes + (if refreshing.Some? then 1 else 0)
      && enqueued == SettledRequests(settled) + failedQueue
    }

    constructor (storage: LocalStorage)
      ensures Valid() && this.storage == storage
      ensures !isRefreshing && failedQueue == [] && refreshing.None?
      ensures refreshCalls == [] && settled == [] && redirects == 0
    {
      this.storage := storage;
      isRefreshing := false;
      failedQueue := [];
      refreshing := None;
      refreshCalls := [];
      completedRefreshes := 0;
      settled := [];
      redirects := 0;
      enqueued := [];
    }

    /** `processQueue`: settle every queued request in order, then empty the queue. */
    method ProcessQueue(error: Option<Failure>, token: string)
      requires Valid()
      modifies this`settled, this`failedQueue
      ensures settled == old(settled) + SettleAll(old(failedQueue), error, token)
      ensures failedQueue == []
      ensures enqueued == SettledRequests(settled)
    {
      var queue := failedQueue;
      var i := 0;
      while i < |queue|
        invariant 0 <= i <= |queue|
        invariant settled == old(settled) + SettleAll(queue[..i], error, token)
      {
        assert SettleAll(queue[..i + 1], error, token)
            == SettleAll(queue[..i], error, token) + [Settle(queue[i], error, token)];
        settled := settled + [Settle(queue[i], error, token)];
        i := i + 1;
      }
      assert queue[..i] == queue;
      SettleAllExactlyOnce(queue, error, token);
      SettledRequestsAppend(old(settled), SettleAll(queue, error, token));
      failedQueue := [];
    }

    /** The response interceptor's error handler for one failed request. */
    method OnResponse(request: Request, status: int) returns (reaction: Reaction)
      requires Valid()
      modifies this, storage
      ensures Valid()
      // anything but a first 401 is rejected unchanged, touching nothing
      ensures status != Unauthorized || request.retry ==>
                && reaction == PassedOn(HttpFailure(request.id, status))
                && isRefreshing == old(isRefreshing) && failedQueue == old(failedQueue)
                && refreshCalls == old(refreshCalls) && refreshing == old(refreshing)
                && storage.items == old(storage.items) && redirects == old(redirects)
      // a 401 during a refresh only waits in the queue
      ensures status == Unauthorized && !request.retry && old(isRefreshing) ==>
                && reaction == Queued && failedQueue == old(failedQueue) + [request]
                && isRefreshing && refreshCalls == old(refreshCalls) && refreshing == old(refreshing)
                && storage.items == old(storage.items) && redirects == old(redirects)
      // the first 401 flags the refresh; without a refresh token it logs out and the flag stays set
      ensures status == Unauthorized && !request.retry && !old(isRefreshing) ==>
                && isRefreshing && failedQueue == old(failedQueue)
                && if Truthy(old(storage.GetItem(RefreshTokenKey))) then
                     && reaction == RefreshStarted
                     && refreshCalls == old(refreshCalls) + [old(storage.items)[RefreshTokenKey]]
                     && refreshing == Some(request.(retry := true))
                     && storage.items == old(storage.items) && redirects == old(redirects)
                   else
                     && reaction == LoggedOut(HttpFailure(request.id, status))
                     && refreshCalls == old(refreshCalls) && refreshing.None?
                     && storage.items == old(storage.items) - CredentialKeys
                     && redirects == old(redirects) + 1
      ensures settled == old(settled)
    {
      if status != Unauthorized || request.retry {
        return PassedOn(HttpFailure(request.id, status));
      }
      if isRefreshing {
        failedQueue := failedQueue + [request];
        enqueued := enqueued + [request];
        return Queued;
      }
      var original := request.(retry := true);
      isRefreshing := true;
      var refreshToken := storage.GetItem(RefreshTokenKey);
      if !Truthy(refreshToken) {
        storage.ClearCredentials();
        redirects := redirects + 1;
        return LoggedOut(HttpFailure(request.id, status));
      }
      refreshCalls := refreshCalls + [refreshToken.value];
      refreshing := Some(original);
      reaction := RefreshStarted;
    }

    /** The refresh call answered with new tokens: store both, resolve the queue
        with the new access token, clear the flag and replay the original request.
        Each resolved queue entry then replays its own request with the new
        token (`replays`, in queue order, after `replay`); those requests never
        had the `_retry` mark set, so a replay that fails with 401 again may
        start another refresh. */
    method RefreshSucceeded(accessToken: string, refreshToken: string) returns (replay: Request, replays: seq<Request>)
      requires Valid() && refreshing.Some?
      modifies this, storage
      ensures Valid()
      ensures storage.items == old(storage.items)[AccessTokenKey := accessToken][RefreshTokenKey := refreshToken]
      ensures settled == old(settled) + SettleAll(old(failedQueue), None, accessToken)
      ensures failedQueue == [] && !isRefreshing && refreshing.None?
      ensures refreshCalls == old(refreshCalls) && redirects == old(redirects)
      ensures replay == WithToken(old(refreshing).value, accessToken) && replay.retry
      ensures |replays| == |old(failedQueue)|
      ensures forall i :: 0 <= i < |replays| ==> replays[i] == WithToken(old(failedQueue)[i], accessToken)
    {
      storage.SetItem(AccessTokenKey, accessToken);
      storage.SetItem(RefreshTokenKey, refreshToken);
      replay := WithToken(refreshing.value, accessToken);
      var queue := failedQueue;
      replays := seq(|queue|, i requires 0 <= i < |queue| => WithToken(queue[i], accessToken));
      ProcessQueue(None, accessToken);
      isRefreshing := false;
      refreshing := None;
      completedRefreshes := completedRefreshes + 1;
    }

    /** The refresh call failed: reject the queue with that failure, clear the
        flag and the credentials, redirect to the login page. */
    method RefreshFailed(reason: string) returns (error: Failure)
      requires Valid() && refreshing.Some?
      modifies this, storage
      ensures Valid()
      ensures error == RefreshFailure(reason)
      ensures settled == old(settled) + SettleAll(old(failedQueue), Some(error), "")
      ensures failedQueue == [] && !isRefreshing && refreshing.None?
      ensures storage.items == old(storage.items) - CredentialKeys
      ensures refreshCalls == old(refreshCalls) && redirects == old(redirects) + 1
    {
      error := RefreshFailure(reason);
      ProcessQueue(Some(error), "");
      isRefreshing := false;
      refreshing := None;
      completedRefreshes := completedRefreshes + 1;
      storage.ClearCredentials();
      redirects := redirects + 1;
    }
  }

  /** Two requests fail with 401 together: one refresh call is made, and when it
      succeeds the second request is resolved with the new token and the first
      is replayed with it. */
  method TwoConcurrentFailures(a: Request, b: Request, access: string, refresh: string)
    requires !a.retry && !b.retry
  {
    var store := new LocalStorage(map[RefreshTokenKey := "r0"]);
    var c := new RefreshCoordinator(store);
    var ra := c.OnResponse(a, Unauthorized);
    var rb := c.OnResponse(b, Unauthorized);
    assert ra == RefreshStarted && rb == Queued && |c.refreshCalls| == 1;
    var replay, replays := c.RefreshSucceeded(access, refresh);
    assert c.settled == [Resolved(b, access)];
    assert replay.id == a.id && replay.headers[AuthorizationHeader] == Bearer(access);
    assert replays == [WithToken(b, access)];
    assert |c.refreshCalls| == 1 && !c.isRefreshing;
  }

  /** The queued request is replayed without the `_retry` mark: if the replay is
      refused with 401 too, it starts a second refresh with the stored token,
      where the original request's replay would be rejected unchanged. */
  method QueuedReplayCanRefreshAgain(a: Request, b: Request, access: string, refresh: string)
    requires !a.retry && !b.retry && refresh != ""
  {
    var store := new LocalStorage(map[RefreshTokenKey := "r0"]);
    var c := new RefreshCoordinator(store);
    var ra := c.OnResponse(a, Unauthorized);
    var rb := c.OnResponse(b, Unauthorized);
    var replay, replays := c.RefreshSucceeded(access, refresh);
    assert replays == [WithToken(b, access)] && !replays[0].retry;
    var again := c.OnResponse(replay, Unauthorized);
    assert again == PassedOn(HttpFailure(a.id, Unauthorized));
    var second := c.OnResponse(replays[0], Unauthorized);
    assert second == RefreshStarted && c.refreshCalls == ["r0", refresh];
  }

  /** With no refresh token stored the first 401 logs out and leaves the flag
      set, so every later 401 waits in a queue that no refresh will ever settle. */
  method LoggedOutKeepsFlag(a: Request, b: Request)
    requires !a.retry && !b.retry
  {
    var store := new LocalStorage(map[AccessTokenKey := "t"]);
    var c := new RefreshCoordinator(store);
    var ra := c.OnResponse(a, Unauthorized);
    assert ra.LoggedOut? && c.isRefreshing && c.refreshing.None? && store.items == map[];
    var rb := c.OnResponse(b, Unauthorized);
    assert rb == Queued && c.failedQueue == [b] && c.refreshCalls == [];
  }

  /** The `error` field of an axios error's response body. A value whose
      `message` is missing or not a string (including a non-object value) has
      `message == None`. */
  datatype ErrorField =
    | Undefined                           // no response, no body, or no `error` field
    | Null                                // `{ error: null }`
    | ErrorValue(message: Option<string>)

  /** A value caught by a caller: an axios error (an `Error`) with the `error`
      field of its response body, another `Error`, or anything else. */
  datatype Thrown =
    | AxiosFailure(message: string, error: ErrorField)
    | PlainError(message: string)
    | NotAnError

  /** What `getErrorMessage` does: return a message, or throw a `TypeError`
      while reading `message` off a null `error` field. */
  datatype MessageOutcome = Message(text: string) | ThrowsTypeError

  const GenericApiMessage := "An error occurred"
  const UnexpectedMessage := "An unexpected error occurred"

  /** `isApiError`: an axios error whose response body's `error` field is not
      `undefined`; `null` passes this test. */
  predicate IsApiError(e: Thrown)
  {
    e.AxiosFailure? && !e.error.Undefined?
  }

  /** `getErrorMessage`. */
  function GetErrorMessage(e: Thrown): (r: MessageOutcome)
    // the only failure is an API error whose `error` field is null
    ensures r.ThrowsTypeError? <==> e.AxiosFailure? && e.error.Null?
    ensures IsApiError(e) && e.error.ErrorValue? ==>
              r == Message(if Truthy(e.error.message) then e.error.message.value else GenericApiMessage)
    ensures !IsApiError(e) && !e.NotAnError? ==> r == Message(e.message)
    ensures e.NotAnError? ==> r == Message(UnexpectedMessage)
    // a message chosen from an API body or for a non-error is never empty
    ensures r.Message? && (IsApiError(e) || e.NotAnError?) ==> r.text != ""
  {
    if IsApiError(e) then
      match e.error
      case Null => ThrowsTypeError
      case ErrorValue(m) => Message(if Truthy(m) then m.value else GenericApiMessage)
    else if e.AxiosFailure? || e.PlainError? then Message(e.message)
    else Message(UnexpectedMessage)
  }
}
