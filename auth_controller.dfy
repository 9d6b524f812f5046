/** The auth controller: register and login run their use cases and either
    answer (201/200, or 409/401 for the one message each recognises exactly)
    or forward the error to the error handler. */
module AuthController {
  import opened Common
  import opened UserEntity
  import opened UserRepository
  import opened ErrorHandler
  import RU = RegisterUser
  import LU = LoginUser

  const Registered := "User registered successfully"
  const LoggedIn := "Login successful"

  /** `register`'s choice: 201 with the view, 409 for exactly "Username
      already exists", anything else forwarded. */
  function RegisterReply(r: Result<UserView>): (rep: Reply<UserView>)
    ensures r.Ok? ==> rep.Respond? && rep.status == 201 && rep.success && rep.data == Some(r.value)
    ensures r.Fail? && r.error.message == RU.UsernameExists ==>
              rep.Respond? && rep.status == 409 && !rep.success && rep.message == RU.UsernameExists
    ensures rep.Forward? <==> r.Fail? && r.error.message != RU.UsernameExists
    ensures rep.Forward? ==> rep.err == r.error
  {
    if r.Ok? then Respond(201, true, Registered, Some(r.value))
    else if r.error.message == RU.UsernameExists then Respond(409, false, r.error.message, None)
    else Forward(r.error)
  }

  /** `login`'s choice: 200 with the token and view, 401 for exactly "Invalid
      credentials", anything else forwarded. */
  function LoginReply(r: Result<LU.Session>): (rep: Reply<LU.Session>)
    ensures r.Ok? ==> rep.Respond? && rep.status == 200 && rep.success && rep.data == Some(r.value)
    ensures r.Fail? && r.error.message == LU.InvalidCredentials ==>
              rep.Respond? && rep.status == 401 && !rep.success && rep.message == LU.InvalidCredentials
    ensures rep.Forward? <==> r.Fail? && r.error.message != LU.InvalidCredentials
    ensures rep.Forward? ==> rep.err == r.error
  {
    if r.Ok? then Respond(200, true, LoggedIn, Some(r.value))
    else if r.error.message == LU.InvalidCredentials then Respond(401, false, r.error.message, None)
    else Forward(r.error)
  }

  /** POST /auth/register with the body's `username` and `password`. */
  method Register(store: UserStore, username: Option<string>, password: Option<string>,
                  hash: (string, nat) -> string, now: nat, development: bool)
    returns (resp: HttpResponse<UserView>)
    requires store.Valid()
    modifies store
    ensures store.Valid()
    ensures resp == Served(RegisterReply(RU.Outcome(old(store.rows), old(store.nextId), old(store.clock),
                                                    username, password, hash)), development)
    ensures !resp.success ==> unchanged(store)
    ensures resp.success ==> && store.rows == old(store.rows)[old(store.nextId) :=
                                RU.NewRow(username.value, password.value, hash, old(store.nextId), old(store.clock))]
                             && store.order == old(store.order) + [old(store.nextId)]
                             && store.nextId == old(store.nextId) + 1
                             && store.clock == old(store.clock) + 1
  {
    var r := RU.Execute(store, username, password, hash, now);
    resp := Served(RegisterReply(r), development);
  }

  /** POST /auth/login with the body's `username` and `password`. */
  function Login(store: UserStore, username: Option<string>, password: Option<string>,
                 matches: (string, string) -> bool, sign: (LU.Claims, string) -> string,
                 configuredExpiry: Option<string>, development: bool): (resp: HttpResponse<LU.Session>)
    requires store.Valid()
    reads store
    ensures resp.success <==> resp.status == 200
    ensures resp.success ==> && resp.message == LoggedIn && resp.data.Some?
                             && username.Some? && resp.data.value.user.username == username.value
    ensures !resp.success ==> resp.data.None?
  {
    Served(LoginReply(LU.Execute(store, username, password, matches, sign, configuredExpiry)), development)
  }

  // Which rule each message of the two routes matches.

  lemma RequiredMentionsRequired() ensures Includes(LU.Required, "required") {
    IncludesAt(LU.Required, "required", 26);
  }

  /** The required-fields message selects 400. */
  lemma RequiredIsBadRequest()
    ensures StatusOf(LU.Required) == 400 && StatusOf(RU.Required) == 400
  {
    RequiredMentionsRequired();
    FirstMatchStatus(LU.Required, 0, false);
  }

  lemma UsernameTooShortAvoids() ensures Avoids(RU.UsernameTooShort, "qfdi") { }

  /** The username-length message matches no rule. */
  lemma UsernameTooShortIsServerError()
    ensures StatusOf(RU.UsernameTooShort) == 500
  {
    UsernameTooShortAvoids();
    AvoidedRules(RU.UsernameTooShort, "qfdi", [2, 4, 5, 6, 15]);
    FirstMatchStatus(RU.UsernameTooShort, 5, false);
  }

  lemma PasswordTooShortAvoids() ensures Avoids(RU.PasswordTooShort, "qfyIi") { }

  /** The password-length message matches no rule. */
  lemma PasswordTooShortIsServerError()
    ensures StatusOf(RU.PasswordTooShort) == 500
  {
    PasswordTooShortAvoids();
    AvoidedRules(RU.PasswordTooShort, "qfyIi", [2, 4, 6, 0, 15]);
    FirstMatchStatus(RU.PasswordTooShort, 5, false);
  }

  /** The response of POST /auth/register on a given table. */
  function RegisterResponse(rows: map<int, User>, nextId: int, clock: nat, username: Option<string>,
                            password: Option<string>, hash: (string, nat) -> string, development: bool)
    : HttpResponse<UserView>
  {
    Served(RegisterReply(RU.Outcome(rows, nextId, clock, username, password, hash)), development)
  }

  /** The register answer the front end reads, with a session as login
      answers: the new user's view and a token signed over its id and
      username. */
  function RegisterSessionReply(r: Result<UserView>, sign: (LU.Claims, string) -> string,
                                configuredExpiry: Option<string>): Reply<LU.Session> {
    if r.Ok? then
      Respond(201, true, Registered,
              Some(LU.Session(sign(LU.Claims(r.value.id, r.value.username), LU.Expiry(configuredExpiry)), r.value)))
    else if r.error.message == RU.UsernameExists then Respond(409, false, r.error.message, None)
    else Forward(r.error)
  }

  /** The response of POST /auth/register with a session in its data. */
  function RegisterSessionResponse(rows: map<int, User>, nextId: int, clock: nat, username: Option<string>,
                                   password: Option<string>, hash: (string, nat) -> string,
                                   sign: (LU.Claims, string) -> string, configuredExpiry: Option<string>,
                                   development: bool): HttpResponse<LU.Session>
  {
    Served(RegisterSessionReply(RU.Outcome(rows, nextId, clock, username, password, hash), sign, configuredExpiry),
           development)
  }

  /** The answer with a session differs from the answer as written only in its
      data: same status, success and message, and the session's user is the
      view the answer as written carries. */
  lemma SessionReplyKeepsStatuses(rows: map<int, User>, nextId: int, clock: nat, username: Option<string>,
                                  password: Option<string>, hash: (string, nat) -> string,
                                  sign: (LU.Claims, string) -> string, configuredExpiry: Option<string>,
                                  development: bool)
    ensures var a := RegisterResponse(rows, nextId, clock, username, password, hash, development);
            var b := RegisterSessionResponse(rows, nextId, clock, username, password, hash, sign, configuredExpiry,
                                             development);
            && a.status == b.status && a.success == b.success && a.message == b.message
            && (a.status == 201 ==> a.data.Some? && b.data.Some? && b.data.value.user == a.data.value)
  {
  }

  /** Missing fields are a 400 with the use case's message, a short username
      or password a 500 "Internal server error", a taken username a 409 and a
      registration a 201 with the new row's view. */
  lemma {:induction false} RegisterRouteStatuses(rows: map<int, User>, nextId: int, clock: nat, username: Option<string>,
                                                 password: Option<string>, hash: (string, nat) -> string,
                                                 development: bool)
    ensures var resp := RegisterResponse(rows, nextId, clock, username, password, hash, development);
            && (!(Truthy(username) && Truthy(password)) ==> resp.status == 400 && resp.message == RU.Required)
            && (Truthy(username) && Truthy(password) && RU.InputError(username, password).Some? ==>
                  resp.status == 500 && resp.message == InternalError)
            && (RU.InputError(username, password).None? && RU.UsernameInUse(rows, username.value) ==>
                  resp == HttpResponse(409, false, RU.UsernameExists, None, None))
            && (RU.InputError(username, password).None? && !RU.UsernameInUse(rows, username.value) ==>
                  resp == HttpResponse(201, true, Registered,
                                       Some(ToJson(RU.NewRow(username.value, password.value, hash, nextId, clock))), None))
  {
    RU.RegisteredUser(rows, nextId, clock, username, password, hash);
    var m := RU.InputError(username, password);
    if m.Some? {
      RequiredIsBadRequest();
      UsernameTooShortIsServerError();
      PasswordTooShortIsServerError();
      ForwardedPlain<UserView>(m.value, development);
    }
  }

  /** Missing fields are a 400 with the use case's message; a login answers 200
      exactly when the credentials match a row, and every other request is a
      401 "Invalid credentials", whether the username is unknown or the
      password wrong. */
  lemma {:induction false} LoginRouteStatuses(store: UserStore, username: Option<string>, password: Option<string>,
                                              matches: (string, string) -> bool, sign: (LU.Claims, string) -> string,
                                              configuredExpiry: Option<string>, development: bool)
    requires store.Valid()
    ensures var resp := Login(store, username, password, matches, sign, configuredExpiry, development);
            && (!(Truthy(username) && Truthy(password)) ==> resp.status == 400 && resp.message == LU.Required)
            && (resp.status == 200 <==> Truthy(username) && Truthy(password) &&
                                        exists id :: id in store.rows && store.rows[id].username == username.value &&
                                                     matches(password.value, store.rows[id].passwordHash))
            && (resp.status == 200 ==> resp.success && resp.message == LoggedIn && resp.data.Some?)
            && (Truthy(username) && Truthy(password) && resp.status != 200 ==>
                  resp == HttpResponse(401, false, LU.InvalidCredentials, None, None))
  {
    LU.LoginSucceedsIffCredentialsMatch(store, username, password, matches, sign, configuredExpiry);
    if !(Truthy(username) && Truthy(password)) {
      RequiredIsBadRequest();
      ForwardedPlain<LU.Session>(LU.Required, development);
    }
  }
}
