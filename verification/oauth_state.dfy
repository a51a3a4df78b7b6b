/** The in-memory store of pending OAuth2 authorization requests, keyed by
    their `state` value (`InMemoryAuthorizationRequestRepository`). */
module OAuthState {
  import opened Common

  /** A pending authorization request; `state` is the key it is filed under. */
  datatype AuthRequest = AuthRequest(state: Option<string>, redirectUri: string)

  type Store = map<string, AuthRequest>

  /** `loadAuthorizationRequest`: a callback without a `state` parameter
      finds nothing; otherwise the request filed under it, if any. */
  function Load(store: Store, stateParam: Option<string>): (r: Option<AuthRequest>)
    ensures r.Some? <==> stateParam.Some? && stateParam.value in store
    ensures r.Some? ==> r.value == store[stateParam.value]
  {
    match stateParam
    case None => None
    case Some(s) => if s in store then Some(store[s]) else None
  }

  /** `saveAuthorizationRequest`: a null request changes nothing; otherwise
      it is filed under its own state, replacing any earlier request. The
      backing map refuses a null key. */
  function Save(store: Store, request: Option<AuthRequest>): (r: Result<Store>)
    ensures request.None? ==> r == Ok(store)
    ensures r.Err? <==> request.Some? && request.value.state.None?
    ensures r.Err? ==> r.error.NullReference?
    ensures r.Ok? && request.Some? ==>
      var s := request.value.state.value;
      && r.value.Keys == store.Keys + {s}
      && r.value[s] == request.value
      && (forall k :: k in store && k != s ==> r.value[k] == store[k])
  {
    match request
    case None => Ok(store)
    case Some(req) =>
      match req.state
      case None => Err(NullReference("state"))
      case Some(s) => Ok(store[s := req])
  }

  /** `removeAuthorizationRequest`: answers what `Load` answers and, despite
      its name, keeps the entry, so the request survives until it is
      explicitly deleted. */
  function Remove(store: Store, stateParam: Option<string>): (r: (Option<AuthRequest>, Store))
    ensures r.1 == store
    ensures r.0.Some? <==> stateParam.Some? && stateParam.value in store
    ensures r.0.Some? ==> r.0.value == store[stateParam.value]
  {
    (Load(store, stateParam), store)
  }

  /** `deleteAuthorizationRequest(state)`: removes that key only; a null
      state changes nothing. */
  function Delete(store: Store, state: Option<string>): (r: Store)
    ensures state.None? ==> r == store
    ensures state.Some? ==> r.Keys == store.Keys - {state.value}
    ensures forall k :: k in r ==> k in store && r[k] == store[k]
  {
    match state
    case None => store
    case Some(s) => store - {s}
  }

  /** A saved request is found again under its state. */
  lemma SaveThenLoad(store: Store, req: AuthRequest)
    requires req.state.Some?
    ensures Save(store, Some(req)).Ok?
    ensures Load(Save(store, Some(req)).value, req.state) == Some(req)
  {
  }

  /** Removing is only looking: any number of removals find the same
      request and leave the store as it was. */
  lemma RemoveIsRepeatable(store: Store, stateParam: Option<string>)
    ensures Remove(Remove(store, stateParam).1, stateParam) == Remove(store, stateParam)
    ensures Remove(store, stateParam).0 == Load(store, stateParam)
  {
  }

  /** After the explicit delete the request is gone, and every other
      pending request is still there. */
  lemma DeleteThenLoad(store: Store, s: string, other: string)
    requires other != s
    ensures Load(Delete(store, Some(s)), Some(s)) == None
    ensures Load(Delete(store, Some(s)), Some(other)) == Load(store, Some(other))
  {
  }

  /** Saving then deleting a request leaves exactly the other entries. */
  lemma SaveThenDelete(store: Store, req: AuthRequest)
    requires req.state.Some?
    ensures Delete(Save(store, Some(req)).value, req.state) == store - {req.state.value}
  {
  }
}
