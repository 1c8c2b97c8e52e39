/**
 * The session slice of the store: the authentication state, its four
 * actions, the reducer as a function of (state, action), and the store
 * object whose fields the case reducers assign in place.
 */
module AuthSlice {

  import opened Wrappers

  /** The session state: logged in or not, with an optional token. */
  datatype AuthState = AuthState(isLoggedIn: bool, token: Option<string>)

  /** The actions the slice reacts to. */
  datatype Action =
    | LoginRequest(username: string, password: string)
    | LoginSuccess(token: string)
    | LoginFailure
    | Logout

  /** The state the store starts in: logged out, no token. */
  const Initial: AuthState := AuthState(false, None)

  /** The session invariant: a token is held exactly when logged in. */
  predicate Consistent(s: AuthState) {
    s.token.Some? <==> s.isLoggedIn
  }

  /** An action that changes the session (every action but a login request). */
  predicate Effective(a: Action) {
    !a.LoginRequest?
  }

  /** The slice's reducer: the state after one action. */
  function Reduce(s: AuthState, a: Action): (r: AuthState)
    ensures !Effective(a) ==> r == s
    ensures Effective(a) ==> Consistent(r)
    ensures Consistent(s) ==> Consistent(r)
    ensures r.isLoggedIn <==> a.LoginSuccess? || (a.LoginRequest? && s.isLoggedIn)
  {
    match a
    case LoginRequest(_, _) => s
    case LoginSuccess(t) => AuthState(true, Some(t))
    case LoginFailure => AuthState(false, None)
    case Logout => AuthState(false, None)
  }

  /** The state after a sequence of actions dispatched one after another. */
  function ReduceAll(s: AuthState, acts: seq<Action>): (r: AuthState)
    decreases |acts|
  {
    if acts == [] then s else ReduceAll(Reduce(s, acts[0]), acts[1..])
  }

  lemma ReduceAllSingle(s: AuthState, a: Action)
    ensures ReduceAll(s, [a]) == Reduce(s, a)
  {
  }

  /** The initial state is logged out and holds no token. */
  lemma InitialIsLoggedOut()
    ensures !Initial.isLoggedIn && Initial.token == None
    ensures Consistent(Initial)
  {
  }

  /** A login request leaves the state entirely unchanged. */
  lemma LoginRequestIsNoOp(s: AuthState, username: string, password: string)
    ensures Reduce(s, LoginRequest(username, password)) == s
  {
  }

  /** Login success logs in with exactly the given token, from any state. */
  lemma LoginSuccessLogsIn(s: AuthState, t: string)
    ensures Reduce(s, LoginSuccess(t)).isLoggedIn
    ensures Reduce(s, LoginSuccess(t)).token == Some(t)
  {
  }

  /** Login failure logs out and drops the token, from any state. */
  lemma LoginFailureLogsOut(s: AuthState)
    ensures Reduce(s, LoginFailure) == Initial
  {
  }

  /** Logout logs out, coincides with login failure and is idempotent. */
  lemma LogoutProperties(s: AuthState)
    ensures Reduce(s, Logout) == Initial
    ensures Reduce(s, Logout) == Reduce(s, LoginFailure)
    ensures Reduce(Reduce(s, Logout), Logout) == Reduce(s, Logout)
  {
  }

  /** Any run of actions from a consistent state ends in a consistent state. */
  lemma {:induction false} ReduceAllPreservesConsistent(s: AuthState, acts: seq<Action>)
    requires Consistent(s)
    ensures Consistent(ReduceAll(s, acts))
    decreases |acts|
  {
    if acts != [] {
      ReduceAllPreservesConsistent(Reduce(s, acts[0]), acts[1..]);
    }
  }

  /** A run of login requests only changes nothing. */
  lemma {:induction false} ReduceAllWithoutEffectIsIdentity(s: AuthState, acts: seq<Action>)
    requires forall i :: 0 <= i < |acts| ==> !Effective(acts[i])
    ensures ReduceAll(s, acts) == s
    decreases |acts|
  {
    if acts != [] {
      ReduceAllWithoutEffectIsIdentity(Reduce(s, acts[0]), acts[1..]);
    }
  }

  /**
   * The reducer keeps no history: after any run, the state is the one the
   * last effective action sets, whatever came before it.
   */
  lemma {:induction false} ReduceAllLastEffectiveWins(s: AuthState, acts: seq<Action>, k: nat)
    requires k < |acts| && Effective(acts[k])
    requires forall i :: k < i < |acts| ==> !Effective(acts[i])
    ensures ReduceAll(s, acts) == Reduce(Initial, acts[k])
    decreases |acts|
  {
    if k == 0 {
      ReduceAllWithoutEffectIsIdentity(Reduce(s, acts[0]), acts[1..]);
    } else {
      ReduceAllLastEffectiveWins(Reduce(s, acts[0]), acts[1..], k - 1);
    }
  }

  /**
   * The store's session fields. Each case reducer assigns them in place;
   * Apply is the slice reducer that picks the case reducer by action.
   */
  class Store {
    var isLoggedIn: bool
    var token: Option<string>

    /** The value of the state the fields hold. */
    function State(): AuthState
      reads this
    {
      AuthState(isLoggedIn, token)
    }

    constructor ()
      ensures State() == Initial
    {
      isLoggedIn := false;
      token := None;
    }

    /**
     * Triggers the login effect. It has no modifies clause, so it assigns
     * nothing; the ensures only records that this agrees with the reducer.
     */
    method LoginRequest(username: string, password: string)
      ensures State() == Reduce(State(), Action.LoginRequest(username, password))
    {
    }

    method LoginSuccess(t: string)
      modifies this
      ensures isLoggedIn && token == Some(t)
      ensures State() == Reduce(old(State()), Action.LoginSuccess(t))
    {
      isLoggedIn := true;
      token := Some(t);
    }

    method LoginFailure()
      modifies this
      ensures !isLoggedIn && token == None
      ensures State() == Reduce(old(State()), Action.LoginFailure)
    {
      isLoggedIn := false;
      token := None;
    }

    method Logout()
      modifies this
      ensures !isLoggedIn && token == None
      ensures State() == Reduce(old(State()), Action.Logout)
    {
      isLoggedIn := false;
      token := None;
    }

    /** Dispatches one action to its case reducer. */
    method Apply(a: Action)
      modifies this
      ensures State() == Reduce(old(State()), a)
      ensures Consistent(old(State())) ==> Consistent(State())
    {
      match a
      case LoginRequest(u, p) => LoginRequest(u, p);
      case LoginSuccess(t) => LoginSuccess(t);
      case LoginFailure => LoginFailure();
      case Logout => Logout();
    }
  }
}
