/** The front end's authentication state: the reducer over its four actions,
    and the actions that the login and register flows dispatch with the
    backend's answer. */
module AuthContext {
  import opened Common
  import opened UserEntity
  import opened ErrorHandler
  import LU = LoginUser
  import RU = RegisterUser
  import AC = AuthController

  /** `{user, token, isAuthenticated, isLoading}`; an absent user or token is
      null or undefined. */
  datatype AuthState = AuthState(user: Option<UserView>, token: Option<string>, isAuthenticated: bool, isLoading: bool)

  /** `initialState`. */
  const Initial := AuthState(None, None, false, true)

  /** The dispatched actions; `Other` is any other action type. */
  datatype Action =
    | SetLoading(loading: bool)
    | LoginSuccess(user: Option<UserView>, token: Option<string>)
    | Logout
    | SetUser(user: Option<UserView>)
    | Other(kind: string)

  /** `authReducer(state, action)`. */
  function Reduce(s: AuthState, a: Action): (t: AuthState)
    ensures !(a.LoginSuccess? || a.Logout?) ==> t.token == s.token && t.isAuthenticated == s.isAuthenticated
    ensures Consistent(s) && KeepsToken(a) ==> Consistent(t)
    ensures a.Other? ==> t == s
  {
    match a
    case SetLoading(loading) => s.(isLoading := loading)
    case LoginSuccess(user, token) => s.(user := user, token := token, isAuthenticated := true, isLoading := false)
    case Logout => s.(user := None, token := None, isAuthenticated := false, isLoading := false)
    case SetUser(user) => s.(user := user, isLoading := false)
    case Other(_) => s
  }

  /** The state after dispatching `actions` in order. */
  function Run(s: AuthState, actions: seq<Action>): AuthState
    decreases |actions|
  {
    if actions == [] then s else Run(Reduce(s, actions[0]), actions[1..])
  }

  /** What each action changes, and that it changes nothing else. */
  lemma ActionEffects(s: AuthState, loading: bool, user: Option<UserView>, token: Option<string>, kind: string)
    ensures var t := Reduce(s, SetLoading(loading));
            t.isLoading == loading && t.user == s.user && t.token == s.token && t.isAuthenticated == s.isAuthenticated
    ensures Reduce(s, LoginSuccess(user, token)) == AuthState(user, token, true, false)
    ensures Reduce(s, Logout) == AuthState(None, None, false, false)
    ensures var t := Reduce(s, SetUser(user));
            t.user == user && !t.isLoading && t.token == s.token && t.isAuthenticated == s.isAuthenticated
    ensures Reduce(s, Other(kind)) == s
  {
  }

  /** Logging out twice is logging out once, and after a logout nothing of the
      earlier state is left. */
  lemma LogoutIdempotent(s: AuthState, t: AuthState)
    ensures Reduce(Reduce(s, Logout), Logout) == Reduce(s, Logout)
    ensures Reduce(s, Logout) == Reduce(t, Logout)
  {
  }

  /** Running a sequence that is followed by more actions is running the more
      actions from where the first left off. */
  lemma {:induction false} RunAppend(s: AuthState, xs: seq<Action>, ys: seq<Action>)
    ensures Run(s, xs + ys) == Run(Run(s, xs), ys)
    decreases |xs|
  {
    if xs == [] {
      assert xs + ys == ys;
    } else {
      assert (xs + ys)[1..] == xs[1..] + ys;
      RunAppend(Reduce(s, xs[0]), xs[1..], ys);
    }
  }

  /** The client is authenticated exactly when it holds a token. */
  predicate Consistent(s: AuthState) {
    s.isAuthenticated <==> s.token.Some?
  }

  /** An action that keeps the state consistent: any action but a login
      success without a token. */
  predicate KeepsToken(a: Action) {
    a.LoginSuccess? ==> a.token.Some?
  }

  /** Every run whose login successes carry a token keeps the state
      consistent; the initial state is consistent. */
  lemma {:induction false} RunKeepsConsistent(s: AuthState, actions: seq<Action>)
    requires Consistent(s)
    requires forall k :: 0 <= k < |actions| ==> KeepsToken(actions[k])
    ensures Consistent(Run(s, actions))
    ensures Consistent(Initial)
    decreases |actions|
  {
    if actions != [] {
      assert KeepsToken(actions[0]);
      RunKeepsConsistent(Reduce(s, actions[0]), actions[1..]);
    }
  }

  /** Logging out after any sequence of actions leaves the logged-out state. */
  lemma {:induction false} LogoutEndsEveryRun(s: AuthState, actions: seq<Action>)
    ensures Run(s, actions + [Logout]) == AuthState(None, None, false, false)
  {
    RunAppend(s, actions, [Logout]);
    var t := Run(s, actions);
    assert [Logout][1..] == [];
    assert Run(t, [Logout]) == Run(Reduce(t, Logout), []);
  }

  /** Before anything is dispatched the client is not authenticated, holds
      nothing and is loading; the state is consistent. */
  lemma InitialState()
    ensures Initial.user.None? && Initial.token.None? && !Initial.isAuthenticated && Initial.isLoading
    ensures Consistent(Initial)
  {
  }

  const LoginFailed := "Login failed"
  const RegistrationFailed := "Registration failed"

  /** The `{token, user}` destructured from what the API call returned. */
  datatype AuthPayload = AuthPayload(token: Option<string>, user: Option<UserView>)

  /** `authAPI.login`: the data of a successful answer, whose fields are the
      token and the user; it throws otherwise. */
  function LoginPayload(resp: HttpResponse<LU.Session>): Option<AuthPayload> {
    if resp.success && resp.data.Some? then Some(AuthPayload(Some(resp.data.value.token), Some(resp.data.value.user)))
    else None
  }

  /** `authAPI.register`: the data of a successful answer is the new user's
      view, which has neither a `token` nor a `user` field. */
  function RegisterPayload(resp: HttpResponse<UserView>): Option<AuthPayload> {
    if resp.success && resp.data.Some? then Some(AuthPayload(None, None)) else None
  }

  /** The actions `login` and `register` dispatch, given the payload (`None`
      when the API call threw): loading on, then the login success; the
      greeting after it reads `user.username`, which throws when there is no
      user, and the catch switches loading off, as it does when the call
      threw. */
  function FlowActions(payload: Option<AuthPayload>): seq<Action> {
    if payload.None? then [SetLoading(true), SetLoading(false)]
    else if payload.value.user.None? then
      [SetLoading(true), LoginSuccess(None, payload.value.token), SetLoading(false)]
    else [SetLoading(true), LoginSuccess(payload.value.user, payload.value.token)]
  }

  /** What `login` and `register` return to the page. */
  datatype FlowResult = Succeeded | Failed(error: string)

  /** `error.response?.data?.message || fallback`: axios rejects an answer
      whose status is outside 200..299 and keeps it on the error; an error
      thrown by the API wrapper or by the page itself carries no answer. */
  function FailureMessage<T>(resp: HttpResponse<T>, fallback: string): string {
    if !(200 <= resp.status < 300) && resp.message != "" then resp.message else fallback
  }

  /** The flow succeeds when the payload has a user to greet. */
  function ResultOf<T>(resp: HttpResponse<T>, payload: Option<AuthPayload>, fallback: string): FlowResult {
    if payload.None? then Failed(FailureMessage(resp, fallback))
    else if payload.value.user.None? then Failed(fallback)
    else Succeeded
  }

  /** The client state and the returned value at the end of a flow. */
  datatype FlowEnd = FlowEnd(state: AuthState, result: FlowResult)

  /** `login(credentials)` answered with `resp`. */
  function Login(s: AuthState, resp: HttpResponse<LU.Session>): (e: FlowEnd)
    ensures e.result == Succeeded <==> resp.success && resp.data.Some?
    ensures e.result == Succeeded ==> e.state.isAuthenticated && e.state.token.Some? && !e.state.isLoading
    ensures e.result.Failed? ==> e.state == s.(isLoading := false)
  {
    FlowOutcome(s, LoginPayload(resp));
    FlowEnd(Run(s, FlowActions(LoginPayload(resp))), ResultOf(resp, LoginPayload(resp), LoginFailed))
  }

  /** `register(userData)` answered with `resp`. */
  function Register(s: AuthState, resp: HttpResponse<UserView>): (e: FlowEnd)
    ensures e.result != Succeeded
    ensures resp.success && resp.data.Some? ==> e.state == AuthState(None, None, true, false)
    ensures !(resp.success && resp.data.Some?) ==> e.state == s.(isLoading := false)
  {
    FlowOutcome(s, RegisterPayload(resp));
    FlowEnd(Run(s, FlowActions(RegisterPayload(resp))), ResultOf(resp, RegisterPayload(resp), RegistrationFailed))
  }

  /** A flow ends in the payload's login success, or back where it started
      with loading off when the call threw. */
  lemma FlowOutcome(s: AuthState, payload: Option<AuthPayload>)
    ensures Run(s, FlowActions(payload)) ==
            if payload.Some? then AuthState(payload.value.user, payload.value.token, true, false)
            else s.(isLoading := false)
  {
    var acts := FlowActions(payload);
    var s1 := Reduce(s, acts[0]);
    var s2 := Reduce(s1, acts[1]);
    assert Run(s, acts) == Run(s1, acts[1..]);
    assert Run(s1, acts[1..]) == Run(s2, acts[2..]);
    if |acts| == 3 {
      assert acts[2..][1..] == [];
      assert Run(s2, acts[2..]) == Reduce(s2, acts[2]);
    } else {
      assert acts[2..] == [];
    }
  }

  /** A login answered 200 leaves the client authenticated with the session's
      token and user and reports success; a refused one only switches loading
      on and off and reports the backend's message. Either way the state stays
      consistent. */
  lemma {:induction false} LoginFlow(s: AuthState, resp: HttpResponse<LU.Session>)
    requires Consistent(s)
    ensures var e := Login(s, resp);
            && Consistent(e.state)
            && (resp.success && resp.data.Some? ==>
                  e == FlowEnd(AuthState(Some(resp.data.value.user), Some(resp.data.value.token), true, false), Succeeded))
            && (!(resp.success && resp.data.Some?) ==>
                  e == FlowEnd(s.(isLoading := false), Failed(FailureMessage(resp, LoginFailed))))
  {
    FlowOutcome(s, LoginPayload(resp));
  }

  /** A successful registration leaves the client authenticated with neither
      a token nor a user, because the register answer carries only the user's
      view, and the page is told that the registration failed although the
      row was inserted. */
  lemma RegisterFlowLosesToken(s: AuthState, rows: map<int, User>, nextId: int, clock: nat,
                               username: Option<string>, password: Option<string>,
                               hash: (string, nat) -> string, development: bool)
    requires RU.Outcome(rows, nextId, clock, username, password, hash).Ok?
    ensures var e := Register(s, AC.RegisterResponse(rows, nextId, clock, username, password, hash, development));
            && e.state == AuthState(None, None, true, false)
            && !Consistent(e.state)
            && e.result == Failed(RegistrationFailed)
  {
    var resp := AC.RegisterResponse(rows, nextId, clock, username, password, hash, development);
    assert resp.success && resp.data.Some?;
    FlowOutcome(s, RegisterPayload(resp));
  }

  /** A refused registration only switches loading on and off and returns the
      backend's message, so a taken username reports "Username already exists". */
  lemma RegisterFlowRefused(s: AuthState, rows: map<int, User>, nextId: int, clock: nat,
                            username: Option<string>, password: Option<string>,
                            hash: (string, nat) -> string, development: bool)
    requires RU.Outcome(rows, nextId, clock, username, password, hash).Fail?
    ensures var resp := AC.RegisterResponse(rows, nextId, clock, username, password, hash, development);
            && Register(s, resp) == FlowEnd(s.(isLoading := false), Failed(FailureMessage(resp, RegistrationFailed)))
            && (RU.InputError(username, password).None? && RU.UsernameInUse(rows, username.value) ==>
                  Register(s, resp).result == Failed(RU.UsernameExists))
  {
    var resp := AC.RegisterResponse(rows, nextId, clock, username, password, hash, development);
    AC.RegisterRouteStatuses(rows, nextId, clock, username, password, hash, development);
    FlowOutcome(s, RegisterPayload(resp));
  }

  /** `register(userData)` when the answer carries a session in its data, as
      the login answer does. */
  function RegisterWithSession(s: AuthState, resp: HttpResponse<LU.Session>): FlowEnd {
    FlowEnd(Run(s, FlowActions(LoginPayload(resp))), ResultOf(resp, LoginPayload(resp), RegistrationFailed))
  }

  /** With a register answer that carries a session, a registration leaves the
      client authenticated with a token and the new user's view and reports
      success, and the state stays consistent. */
  lemma {:induction false} CorrectedRegisterFlow(s: AuthState, rows: map<int, User>, nextId: int, clock: nat,
                                                 username: Option<string>, password: Option<string>,
                                                 hash: (string, nat) -> string, sign: (LU.Claims, string) -> string,
                                                 configuredExpiry: Option<string>, development: bool)
    requires Consistent(s)
    ensures var resp := AC.RegisterSessionResponse(rows, nextId, clock, username, password, hash, sign,
                                                   configuredExpiry, development);
            var e := RegisterWithSession(s, resp);
            && Consistent(e.state)
            && (resp.status == 201 ==>
                  && e.state.isAuthenticated && e.state.token.Some? && e.state.user == Some(resp.data.value.user)
                  && e.result == Succeeded)
  {
    var resp := AC.RegisterSessionResponse(rows, nextId, clock, username, password, hash, sign, configuredExpiry, development);
    FlowOutcome(s, LoginPayload(resp));
  }
}
