/** The register use case: three input checks, a username lookup, a salted
    hash with cost 10, and an insert. The hash function is a parameter. */
module RegisterUser {
  import opened Common
  import opened UserEntity
  import opened UserRepository

  const Required := "Username and password are required"
  const UsernameTooShort := "Username must be at least 3 characters long"
  const PasswordTooShort := "Password must be at least 6 characters long"
  const UsernameExists := "Username already exists"
  const UsernameMin := 3
  const PasswordMin := 6
  const SaltRounds := 10

  /** The message of the first input check that fails. */
  function InputError(username: Option<string>, password: Option<string>): (m: Option<string>)
    ensures m.None? <==> Truthy(username) && Truthy(password) &&
                         |username.value| >= UsernameMin && |password.value| >= PasswordMin
    ensures !(Truthy(username) && Truthy(password)) ==> m == Some(Required)
    ensures Truthy(username) && Truthy(password) && |username.value| < UsernameMin ==> m == Some(UsernameTooShort)
    ensures Truthy(username) && Truthy(password) && |username.value| >= UsernameMin && |password.value| < PasswordMin ==>
              m == Some(PasswordTooShort)
  {
    if !Truthy(username) || !Truthy(password) then Some(Required)
    else if |username.value| < UsernameMin then Some(UsernameTooShort)
    else if |password.value| < PasswordMin then Some(PasswordTooShort)
    else None
  }

  /** Whether some row already holds `username`. */
  predicate UsernameInUse(rows: map<int, User>, username: string) {
    exists id :: id in rows && rows[id].username == username
  }

  /** The row the insert writes for checked input. */
  function NewRow(username: string, password: string, hash: (string, nat) -> string, nextId: int, clock: nat): User {
    User(Some(nextId), username, hash(password, SaltRounds), clock + 1, clock + 1)
  }

  /** What `execute(username, password)` answers on a table with rows `rows`,
      auto-increment value `nextId` and clock `clock`. */
  function Outcome(rows: map<int, User>, nextId: int, clock: nat, username: Option<string>, password: Option<string>,
                   hash: (string, nat) -> string): (r: Result<UserView>)
    ensures r.Fail? ==> r.error.message in {Required, UsernameTooShort, PasswordTooShort, UsernameExists}
    ensures r.Ok? ==> r.value.id == Some(nextId) && username.Some? && r.value.username == username.value
                      && !UsernameInUse(rows, username.value)
  {
    var m := InputError(username, password);
    if m.Some? then Fail(Error(m.value))
    else if UsernameInUse(rows, username.value) then Fail(Error(UsernameExists))
    else Ok(ToJson(NewRow(username.value, password.value, hash, nextId, clock)))
  }

  /** `execute(username, password)` at time `now`. */
  method Execute(store: UserStore, username: Option<string>, password: Option<string>,
                 hash: (string, nat) -> string, now: nat) returns (r: Result<UserView>)
    requires store.Valid()
    modifies store
    ensures store.Valid()
    ensures r == Outcome(old(store.rows), old(store.nextId), old(store.clock), username, password, hash)
    ensures r.Fail? ==> unchanged(store)
    ensures r.Ok? ==> && store.rows == old(store.rows)[old(store.nextId) :=
                           NewRow(username.value, password.value, hash, old(store.nextId), old(store.clock))]
                      && store.order == old(store.order) + [old(store.nextId)]
                      && store.nextId == old(store.nextId) + 1
                      && store.clock == old(store.clock) + 1
  {
    var m := InputError(username, password);
    if m.Some? {
      return Fail(Error(m.value));
    }
    var existing := store.FindByUsername(username.value);
    if existing.Some? {
      return Fail(Error(UsernameExists));
    }
    var passwordHash := hash(password.value, SaltRounds);
    var user := Create(username.value, passwordHash, now);
    assert !UsernameTaken(store.rows, username.value, store.nextId);
    var saved := store.Create(user);
    r := Ok(ToJson(saved.value));
  }

  /** A registration either fails with its check's message and inserts nothing,
      or inserts one row with a fresh id, the given username and the hash of
      the password with cost 10, and answers that row's view, which has no hash. */
  lemma {:induction false} RegisteredUser(rows: map<int, User>, nextId: int, clock: nat, username: Option<string>,
                                          password: Option<string>, hash: (string, nat) -> string)
    ensures Outcome(rows, nextId, clock, username, password, hash).Ok? <==>
              InputError(username, password).None? && !UsernameInUse(rows, username.value)
    ensures InputError(username, password).None? && UsernameInUse(rows, username.value) ==>
              Outcome(rows, nextId, clock, username, password, hash) == Fail(Error(UsernameExists))
    ensures Outcome(rows, nextId, clock, username, password, hash).Ok? ==>
              var row := NewRow(username.value, password.value, hash, nextId, clock);
              && row.id == Some(nextId) && row.username == username.value
              && row.passwordHash == hash(password.value, SaltRounds)
              && Outcome(rows, nextId, clock, username, password, hash).value == ToJson(row)
  {
  }

  /** After a successful registration, registering the same username again,
      with any acceptable password, is refused as a duplicate. */
  lemma {:induction false} SecondRegistrationConflicts(rows: map<int, User>, nextId: int, clock: nat, username: Option<string>,
                                                       password: Option<string>, other: Option<string>,
                                                       hash: (string, nat) -> string)
    requires Outcome(rows, nextId, clock, username, password, hash).Ok?
    requires InputError(username, other).None?
    ensures var rows' := rows[nextId := NewRow(username.value, password.value, hash, nextId, clock)];
            Outcome(rows', nextId + 1, clock + 1, username, other, hash) == Fail(Error(UsernameExists))
  {
    var rows' := rows[nextId := NewRow(username.value, password.value, hash, nextId, clock)];
    assert nextId in rows' && rows'[nextId].username == username.value;
  }

  /** An insert after a successful check keeps usernames unique. */
  lemma {:induction false} RegistrationKeepsUsernamesUnique(rows: map<int, User>, nextId: int, clock: nat,
                                                            username: Option<string>, password: Option<string>,
                                                            hash: (string, nat) -> string)
    requires UsernameUnique(rows)
    requires Outcome(rows, nextId, clock, username, password, hash).Ok?
    ensures UsernameUnique(rows[nextId := NewRow(username.value, password.value, hash, nextId, clock)])
  {
    var rows' := rows[nextId := NewRow(username.value, password.value, hash, nextId, clock)];
    assert forall a :: a in rows' && a != nextId ==> a in rows && rows'[a] == rows[a];
    assert !UsernameInUse(rows, username.value);
  }
}
