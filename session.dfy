/**
 * The session store: who is signed in, with which bearer token, and the reducer over
 * the four login actions. `LOGOUT` also deletes the two persisted entries, so the
 * browser's local storage is threaded through the transition as a map.
 */
module Session {
  import opened Wrappers

  datatype User = User(id: string, email: string, name: string, picture: Option<string>)

  datatype AuthState = AuthState(
    user: Option<User>,
    token: Option<string>,
    isAuthenticated: bool,
    loading: bool,
    error: Option<string>)

  datatype AuthAction =
    | LoginStart
    | LoginSuccess(newUser: User, newToken: string)
    | LoginFailure(message: string)
    | Logout

  /** Durable key/value storage of the browser. */
  type Storage = map<string, string>

  const UserKey := "user"
  const TokenKey := "token"

  const InitialAuthState := AuthState(None, None, false, false, None)

  /** The state after a transition together with the storage it leaves behind. */
  datatype Step = Step(state: AuthState, storage: Storage)

  /** The reducer; only `Logout` touches storage, removing the user and token entries. */
  function Reduce(s: AuthState, a: AuthAction, storage: Storage): (r: Step)
    ensures !a.Logout? ==> r.storage == storage
    ensures a.Logout? ==> r.storage.Keys == storage.Keys - {UserKey, TokenKey}
  {
    match a
    case LoginStart => Step(s.(loading := true, error := None), storage)
    case LoginSuccess(u, t) =>
      Step(s.(user := Some(u), token := Some(t), isAuthenticated := true, loading := false, error := None), storage)
    case LoginFailure(msg) => Step(s.(loading := false, error := Some(msg), isAuthenticated := false), storage)
    case Logout => Step(InitialAuthState, storage - {UserKey} - {TokenKey})
  }

  /** Applies the actions in order. */
  function Run(s: AuthState, storage: Storage, actions: seq<AuthAction>): Step
    decreases |actions|
  {
    if actions == [] then Step(s, storage)
    else
      var next := Reduce(s, actions[0], storage);
      Run(next.state, next.storage, actions[1..])
  }

  /** The invariant that holds: an authenticated session has both a user and a token. */
  predicate CredentialsPresent(s: AuthState) {
    s.isAuthenticated ==> s.user.Some? && s.token.Some?
  }

  lemma LoginStartSpec(s: AuthState, storage: Storage)
    ensures var r := Reduce(s, LoginStart, storage);
      && r.state.loading && r.state.error.None?
      && r.state.user == s.user && r.state.token == s.token && r.state.isAuthenticated == s.isAuthenticated
      && r.storage == storage
  {
  }

  lemma LoginSuccessSpec(s: AuthState, u: User, t: string, storage: Storage)
    ensures var r := Reduce(s, LoginSuccess(u, t), storage);
      r.state == AuthState(Some(u), Some(t), true, false, None) && r.storage == storage
  {
  }

  /** A failed login signs the session out but keeps the previous user and token. */
  lemma LoginFailureSpec(s: AuthState, msg: string, storage: Storage)
    ensures var r := Reduce(s, LoginFailure(msg), storage);
      && !r.state.loading && r.state.error == Some(msg) && !r.state.isAuthenticated
      && r.state.user == s.user && r.state.token == s.token
      && r.storage == storage
  {
  }

  /**
   * Logging out yields the initial session whatever came before, deletes exactly the
   * `user` and `token` entries and leaves every other entry as it was.
   */
  lemma LogoutSpec(s: AuthState, storage: Storage)
    ensures var r := Reduce(s, Logout, storage);
      && r.state == InitialAuthState
      && UserKey !in r.storage && TokenKey !in r.storage
      && (forall k :: k in r.storage <==> k in storage && k != UserKey && k != TokenKey)
      && (forall k :: k in r.storage ==> r.storage[k] == storage[k])
  {
  }

  lemma LogoutIdempotent(s: AuthState, storage: Storage)
    ensures var once := Reduce(s, Logout, storage);
      Reduce(once.state, Logout, once.storage) == once
  {
  }

  /** Every transition keeps the credentials invariant. */
  lemma ReduceKeepsCredentialsPresent(s: AuthState, a: AuthAction, storage: Storage)
    requires CredentialsPresent(s)
    ensures CredentialsPresent(Reduce(s, a, storage).state)
  {
  }

  /** Every state reachable from the initial session satisfies the credentials invariant. */
  lemma {:induction false} ReachableCredentialsPresent(s: AuthState, storage: Storage, actions: seq<AuthAction>)
    requires CredentialsPresent(s)
    ensures CredentialsPresent(Run(s, storage, actions).state)
    decreases |actions|
  {
    if actions != [] {
      ReduceKeepsCredentialsPresent(s, actions[0], storage);
      var next := Reduce(s, actions[0], storage);
      ReachableCredentialsPresent(next.state, next.storage, actions[1..]);
    }
  }

  lemma InitialCredentialsPresent(storage: Storage, actions: seq<AuthAction>)
    ensures CredentialsPresent(Run(InitialAuthState, storage, actions).state)
  {
    ReachableCredentialsPresent(InitialAuthState, storage, actions);
  }

  /** The converse fails: a login followed by a failed one leaves a user and token without a session. */
  lemma CredentialsWithoutSession(u: User, t: string, msg: string, storage: Storage)
    ensures var r := Run(InitialAuthState, storage, [LoginSuccess(u, t), LoginFailure(msg)]).state;
      !r.isAuthenticated && r.user == Some(u) && r.token == Some(t)
  {
    var actions := [LoginSuccess(u, t), LoginFailure(msg)];
    var first := Reduce(InitialAuthState, actions[0], storage);
    var second := Reduce(first.state, actions[1], first.storage);
    assert actions[1..] == [LoginFailure(msg)] && actions[1..][1..] == [];
    assert Run(InitialAuthState, storage, actions) == Run(first.state, first.storage, actions[1..]);
    assert Run(first.state, first.storage, actions[1..]) == Run(second.state, second.storage, []);
  }
}
