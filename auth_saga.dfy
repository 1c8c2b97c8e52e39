/**
 * The login effect: the mock authentication call, the outcome-to-action
 * mapping of the login handler, and the take-latest policy that decides
 * which handler's outcome reaches the session store.
 *
 * take-latest is modelled sequentially: every login request opens a new
 * generation, the attempt it starts carries that generation, and a
 * completion is honoured only while its generation is the latest one.
 */
module AuthSaga {

  import opened Wrappers
  import opened AuthSlice

  /** The one credential pair the mock service accepts. */
  const ValidUsername: string := "test"
  const ValidPassword: string := "password"

  /** The literal token the mock service hands out. */
  const FakeToken: string := "fake-jwt-token"

  /** The message of the error the mock service rejects with. */
  const InvalidCredentials: string := "Invalid credentials"

  /** What the mock service's promise settles with. */
  datatype LoginOutcome = Success(token: string) | Failure(message: string)

  /** The mock service's decision, once its fixed delay has elapsed. */
  function SimulateLogin(username: string, password: string): (r: LoginOutcome)
    ensures r.Success? <==> username == "test" && password == "password"
    ensures r.Success? ==> r.token == "fake-jwt-token" && |r.token| > 0
    ensures r.Failure? ==> r.message == "Invalid credentials"
  {
    if username == ValidUsername && password == ValidPassword then Success(FakeToken)
    else Failure(InvalidCredentials)
  }

  /**
   * The actions one run of the login handler puts to the store: the
   * success action with the token returned, or the failure action.
   */
  function HandleLogin(username: string, password: string): (puts: seq<Action>)
    ensures |puts| == 1
    ensures username == "test" && password == "password" ==> puts == [LoginSuccess("fake-jwt-token")]
    ensures !(username == "test" && password == "password") ==> puts == [LoginFailure]
  {
    match SimulateLogin(username, password)
    case Success(t) => [LoginSuccess(t)]
    case Failure(_) => [LoginFailure]
  }

  /** A login attempt in flight, tagged with the generation that started it. */
  datatype Attempt = Attempt(gen: nat, username: string, password: string)

  /** The coordinator's generation counter, its tracked attempt, and the session. */
  datatype Saga = Saga(latestGen: nat, pending: Option<Attempt>, auth: AuthState)

  /** An action dispatched to the store, or the settling of an attempt. */
  datatype Event = Dispatch(action: Action) | Complete(gen: nat)

  const Start: Saga := Saga(0, None, Initial)

  predicate IsRequest(e: Event) {
    e.Dispatch? && e.action.LoginRequest?
  }

  /** The tracked attempt is always the latest one, and the session is consistent. */
  predicate Valid(s: Saga) {
    (s.pending.Some? ==> s.pending.value.gen == s.latestGen) && Consistent(s.auth)
  }

  /**
   * One event. A dispatched action goes through the reducer first; a login
   * request then opens a new generation and replaces the tracked attempt.
   * A completion is honoured only for the tracked attempt, whose handler
   * puts are then reduced into the session; any other completion is dropped.
   */
  function Step(s: Saga, e: Event): (r: Saga)
    ensures Valid(s) ==> Valid(r)
    ensures r.latestGen == if IsRequest(e) then s.latestGen + 1 else s.latestGen
    ensures IsRequest(e) ==>
              r.pending == Some(Attempt(r.latestGen, e.action.username, e.action.password)) && r.auth == s.auth
    ensures e.Dispatch? && !IsRequest(e) ==> r == s.(auth := Reduce(s.auth, e.action))
    ensures Valid(s) && e.Complete? && e.gen != s.latestGen ==> r == s
    ensures e.Complete? && s.pending.Some? && e.gen == s.pending.value.gen ==>
              && r.pending == None
              && r.auth == ReduceAll(s.auth, HandleLogin(s.pending.value.username, s.pending.value.password))
  {
    match e
    case Dispatch(a) =>
      var auth := Reduce(s.auth, a);
      if a.LoginRequest? then
        Saga(s.latestGen + 1, Some(Attempt(s.latestGen + 1, a.username, a.password)), auth)
      else
        s.(auth := auth)
    case Complete(g) =>
      if s.pending.Some? && s.pending.value.gen == g then
        var att := s.pending.value;
        var puts := HandleLogin(att.username, att.password);
        ReduceAllSingle(s.auth, puts[0]);
        Saga(s.latestGen, None, ReduceAll(s.auth, puts))
      else
        s
  }

  /** The state after a sequence of events. */
  function Run(s: Saga, evs: seq<Event>): (r: Saga)
    decreases |evs|
  {
    if evs == [] then s else Run(Step(s, evs[0]), evs[1..])
  }

  /** The events with every completion of generation g taken out. */
  function Without(evs: seq<Event>, g: nat): (r: seq<Event>)
    ensures forall i :: 0 <= i < |r| ==> r[i] != Complete(g) && r[i] in evs
    ensures forall e :: e in evs && e != Complete(g) ==> e in r
    decreases |evs|
  {
    if evs == [] then []
    else if evs[0] == Complete(g) then Without(evs[1..], g)
    else [evs[0]] + Without(evs[1..], g)
  }

  lemma {:induction false} RunAppend(s: Saga, a: seq<Event>, b: seq<Event>)
    ensures Run(s, a + b) == Run(Run(s, a), b)
    decreases |a|
  {
    if a != [] {
      assert (a + b)[0] == a[0];
      assert (a + b)[1..] == a[1..] + b;
      RunAppend(Step(s, a[0]), a[1..], b);
    } else {
      assert a + b == b;
    }
  }

  /** Every run from a valid state keeps the invariant and never lowers the generation. */
  lemma {:induction false} RunPreservesValid(s: Saga, evs: seq<Event>)
    requires Valid(s)
    ensures Valid(Run(s, evs))
    ensures Run(s, evs).latestGen >= s.latestGen
    decreases |evs|
  {
    if evs != [] {
      RunPreservesValid(Step(s, evs[0]), evs[1..]);
    }
  }

  /**
   * Once an attempt's generation is superseded, its completion has no effect
   * at any point of any later run: taking it out of the run changes nothing.
   */
  lemma {:induction false} SupersededCompletionIsDiscarded(s: Saga, evs: seq<Event>, g: nat)
    requires Valid(s) && g < s.latestGen
    ensures Run(s, evs) == Run(s, Without(evs, g))
    decreases |evs|
  {
    if evs != [] {
      if evs[0] == Complete(g) {
        SupersededCompletionIsDiscarded(s, evs[1..], g);
      } else {
        SupersededCompletionIsDiscarded(Step(s, evs[0]), evs[1..], g);
        assert ([evs[0]] + Without(evs[1..], g))[1..] == Without(evs[1..], g);
      }
    }
  }

  /**
   * With only completions arriving, in any order and any number, the tracked
   * attempt's outcome is applied exactly when its completion arrives, and
   * nothing else changes the state.
   */
  lemma {:induction false} CompletionsOnly(s: Saga, evs: seq<Event>)
    requires Valid(s)
    requires forall i :: 0 <= i < |evs| ==> evs[i].Complete?
    ensures Run(s, evs) ==
              if s.pending.Some? && Complete(s.latestGen) in evs then Step(s, Complete(s.latestGen)) else s
    decreases |evs|
  {
    if evs != [] {
      var s' := Step(s, evs[0]);
      if s.pending.Some? && evs[0] == Complete(s.latestGen) {
        CompletionsOnly(s', evs[1..]);
      } else {
        assert s' == s;
        CompletionsOnly(s, evs[1..]);
        assert evs == [evs[0]] + evs[1..];
      }
    }
  }

  /**
   * take-latest: after request A and then request B, with A not yet settled,
   * A's completion is discarded wherever it falls, and the session ends as
   * B's outcome sets it once B completes, or unchanged until then.
   */
  lemma TakeLatestAppliesOnlyLatest(s: Saga, ua: string, pa: string, ub: string, pb: string, evs: seq<Event>)
    requires Valid(s)
    requires forall i :: 0 <= i < |evs| ==> evs[i].Complete?
    ensures var s2 := Run(s, [Dispatch(LoginRequest(ua, pa)), Dispatch(LoginRequest(ub, pb))]);
            var gA := s.latestGen + 1;
            var gB := s.latestGen + 2;
            && Run(s2, evs) == Run(s2, Without(evs, gA))
            && Run(s2, evs).auth ==
                 if Complete(gB) in evs then ReduceAll(s.auth, HandleLogin(ub, pb)) else s.auth
  {
    var s1 := Step(s, Dispatch(LoginRequest(ua, pa)));
    RunAppend(s, [Dispatch(LoginRequest(ua, pa))], [Dispatch(LoginRequest(ub, pb))]);
    assert [Dispatch(LoginRequest(ua, pa)), Dispatch(LoginRequest(ub, pb))]
        == [Dispatch(LoginRequest(ua, pa))] + [Dispatch(LoginRequest(ub, pb))];
    var s2 := Run(s, [Dispatch(LoginRequest(ua, pa)), Dispatch(LoginRequest(ub, pb))]);
    assert s2 == Step(s1, Dispatch(LoginRequest(ub, pb)));
    assert s2 == Saga(s.latestGen + 2, Some(Attempt(s.latestGen + 2, ub, pb)), s.auth);
    SupersededCompletionIsDiscarded(s2, evs, s.latestGen + 1);
    CompletionsOnly(s2, evs);
  }

  /**
   * A request with the accepted credentials, completed with no later
   * request, ends logged in holding the literal token.
   */
  lemma ValidCredentialsLogIn(s: Saga, evs: seq<Event>)
    requires Valid(s)
    requires forall i :: 0 <= i < |evs| ==> evs[i].Complete?
    requires Complete(s.latestGen + 1) in evs
    ensures Run(s, [Dispatch(LoginRequest("test", "password"))] + evs).auth
              == AuthState(true, Some("fake-jwt-token"))
  {
    var s1 := Step(s, Dispatch(LoginRequest("test", "password")));
    RunAppend(s, [Dispatch(LoginRequest("test", "password"))], evs);
    CompletionsOnly(s1, evs);
  }

  /**
   * A request with any other credentials, once completed, ends logged out
   * with no token, whatever the session was before.
   */
  lemma InvalidCredentialsLogOut(s: Saga, username: string, password: string, evs: seq<Event>)
    requires Valid(s)
    requires !(username == "test" && password == "password")
    requires forall i :: 0 <= i < |evs| ==> evs[i].Complete?
    requires Complete(s.latestGen + 1) in evs
    ensures Run(s, [Dispatch(LoginRequest(username, password))] + evs).auth == Initial
  {
    var s1 := Step(s, Dispatch(LoginRequest(username, password)));
    RunAppend(s, [Dispatch(LoginRequest(username, password))], evs);
    CompletionsOnly(s1, evs);
    ReduceAllSingle(s.auth, LoginFailure);
  }

  /**
   * The round trip from any valid state: a request with the accepted pair,
   * completions that include its own, and then an explicit logout end
   * logged out with no token.
   */
  lemma LoginThenLogout(s: Saga, evs: seq<Event>)
    requires Valid(s)
    requires forall i :: 0 <= i < |evs| ==> evs[i].Complete?
    requires Complete(s.latestGen + 1) in evs
    ensures Run(s, [Dispatch(LoginRequest("test", "password"))] + evs + [Dispatch(Logout)]).auth == Initial
  {
    var login := [Dispatch(LoginRequest("test", "password"))] + evs;
    ValidCredentialsLogIn(s, evs);
    RunAppend(s, login, [Dispatch(Logout)]);
    assert Run(Run(s, login), [Dispatch(Logout)]) == Step(Run(s, login), Dispatch(Logout));
  }

  /**
   * The saga coordinator wired to the store: the generation counter and the
   * tracked attempt are fields it updates; the session lives in the store.
   */
  class Coordinator {
    var latestGen: nat
    var pending: Option<Attempt>
    const store: Store

    /** The value of the coordinator and its store. */
    function Abstract(): Saga
      reads this, store
    {
      Saga(latestGen, pending, store.State())
    }

    constructor ()
      ensures Abstract() == Start && fresh(store)
    {
      latestGen := 0;
      pending := None;
      store := new Store();
    }

    /** An action dispatched to the store; a login request forks a new attempt. */
    method Dispatch(a: Action)
      modifies this, store
      ensures Abstract() == Step(old(Abstract()), Event.Dispatch(a))
    {
      store.Apply(a);
      if a.LoginRequest? {
        latestGen := latestGen + 1;
        pending := Some(Attempt(latestGen, a.username, a.password));
      }
    }

    /** The settling of the attempt of generation g. */
    method Complete(g: nat)
      modifies this, store
      ensures Abstract() == Step(old(Abstract()), Event.Complete(g))
    {
      if pending.Some? && pending.value.gen == g {
        var att := pending.value;
        pending := None;
        var puts := HandleLogin(att.username, att.password);
        ReduceAllSingle(old(store.State()), puts[0]);
        store.Apply(puts[0]);
      }
    }
  }
}
