/** The login use case: an input check, a username lookup, a password
    comparison and the issue of a signed token. Password comparison and
    signing are parameters; the configured expiry is an optional string. */
module LoginUser {
  import opened Common
  import opened UserEntity
  import opened UserRepository

  const Required := "Username and password are required"
  const InvalidCredentials := "Invalid credentials"
  const DefaultExpiry := "24h"

  /** The claims the token is signed over. */
  datatype Claims = Claims(userId: Option<int>, username: string)

  /** What a successful login answers: the token and the user's public view. */
  datatype Session = Session(token: string, user: UserView)

  /** `process.env.JWT_EXPIRES_IN || '24h'`. */
  function Expiry(configured: Option<string>): (e: string)
    ensures Truthy(configured) ==> e == configured.value
    ensures !Truthy(configured) ==> e == DefaultExpiry
  {
    if Truthy(configured) then configured.value else DefaultExpiry
  }

  /** `execute(username, password)`; the table is only read. */
  function Execute(store: UserStore, username: Option<string>, password: Option<string>,
                   matches: (string, string) -> bool, sign: (Claims, string) -> string,
                   configuredExpiry: Option<string>): (r: Result<Session>)
    requires store.Valid()
    reads store
    ensures r.Fail? ==> r.error == Error(Required) || r.error == Error(InvalidCredentials)
    ensures r.Ok? ==> && Truthy(username) && Truthy(password)
                      && r.value.user.username == username.value
                      && r.value.token == sign(Claims(r.value.user.id, username.value), Expiry(configuredExpiry))
  {
    if !Truthy(username) || !Truthy(password) then Fail(Error(Required))
    else
      var found := store.FindByUsername(username.value);
      if found.None? then Fail(Error(InvalidCredentials))
      else if !matches(password.value, found.value.passwordHash) then Fail(Error(InvalidCredentials))
      else
        var user := found.value;
        Ok(Session(sign(Claims(user.id, user.username), Expiry(configuredExpiry)), ToJson(user)))
  }

  /** A login succeeds exactly when both fields are given, a row holds the
      username and the password matches that row's hash; the token is signed
      over that row's id and username and the view is that row's. Every other
      outcome is one of the two messages. */
  lemma {:induction false} LoginSucceedsIffCredentialsMatch(store: UserStore, username: Option<string>, password: Option<string>,
                                                            matches: (string, string) -> bool, sign: (Claims, string) -> string,
                                                            configuredExpiry: Option<string>)
    requires store.Valid()
    ensures var r := Execute(store, username, password, matches, sign, configuredExpiry);
            && (!Truthy(username) || !Truthy(password) ==> r == Fail(Error(Required)))
            && (r.Fail? ==> r == Fail(Error(Required)) || r == Fail(Error(InvalidCredentials)))
            && (r.Ok? <==> Truthy(username) && Truthy(password) &&
                           exists id :: id in store.rows && store.rows[id].username == username.value &&
                                        matches(password.value, store.rows[id].passwordHash))
            && (r.Ok? ==> exists id :: id in store.rows && store.rows[id].username == username.value &&
                            r.value.user == ToJson(store.rows[id]) &&
                            r.value.token == sign(Claims(Some(id), username.value), Expiry(configuredExpiry)))
  {
    if Truthy(username) && Truthy(password) {
      var found := store.FindByUsername(username.value);
      if found.Some? {
        var id := found.value.id.value;
        assert store.rows[id] == found.value;
        assert forall j :: j in store.rows && store.rows[j].username == username.value ==> j == id;
      }
    }
  }

  /** An unknown username and a wrong password cannot be told apart: both give
      the same error. */
  lemma {:induction false} UnknownUserLooksLikeWrongPassword(store: UserStore, username: string, password: string,
                                                             wrong: string, matches: (string, string) -> bool,
                                                             sign: (Claims, string) -> string, configuredExpiry: Option<string>)
    requires store.Valid()
    requires username != "" && password != "" && wrong != ""
    requires forall id :: id in store.rows ==> store.rows[id].username != username
    ensures Execute(store, Some(username), Some(password), matches, sign, configuredExpiry) == Fail(Error(InvalidCredentials))
    ensures forall id :: id in store.rows && store.rows[id].username != "" &&
                         !matches(wrong, store.rows[id].passwordHash) ==>
              Execute(store, Some(store.rows[id].username), Some(wrong), matches, sign, configuredExpiry)
                == Fail(Error(InvalidCredentials))
  {
    forall id | id in store.rows && store.rows[id].username != "" && !matches(wrong, store.rows[id].passwordHash)
      ensures Execute(store, Some(store.rows[id].username), Some(wrong), matches, sign, configuredExpiry)
                == Fail(Error(InvalidCredentials))
    {
      var found := store.FindByUsername(store.rows[id].username);
      assert found.Some?;
      assert found.value.id.value == id;
      assert found.value == store.rows[id];
    }
  }
}
