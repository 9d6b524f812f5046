/** The user repository over an in-memory `users` table: a map from id to row,
    the ids in insertion order, the auto-increment counter and the store's
    clock. Usernames are unique in the table. Every failure is rethrown as a
    new `Error` whose message starts with the operation's prefix. */
module UserRepository {
  import opened Common
  import opened UserEntity

  const NotFound := "User not found"
  /** The message of the store's rejection of a second row with the same username. */
  const UniqueViolation := "Validation error"
  const FindByUsernamePrefix := "Error finding user by username: "
  const FindByIdPrefix := "Error finding user by ID: "
  const CreatePrefix := "Error creating user: "
  const UpdatePrefix := "Error updating user: "
  const DeletePrefix := "Error deleting user: "

  /** Two rows with the same username are the same row. */
  predicate UsernameUnique(rows: map<int, User>) {
    forall a, b :: a in rows && b in rows && rows[a].username == rows[b].username ==> a == b
  }

  /** Whether a row other than `except` already holds `username`. */
  predicate UsernameTaken(rows: map<int, User>, username: string, except: int) {
    exists id :: id in rows && id != except && rows[id].username == username
  }

  /** Whether writing `u`'s username and hash over `row` would change no field. */
  predicate NoFieldChanges(row: User, u: User) {
    row.username == u.username && row.passwordHash == u.passwordHash
  }

  class UserStore {
    var rows: map<int, User>
    /** The ids of the rows, in insertion order. */
    var order: seq<int>
    /** The next value of the auto-increment id. */
    var nextId: int
    /** The store's clock: the time of its latest write. */
    var clock: nat

    ghost predicate Valid()
      reads this
    {
      && 1 <= nextId
      && (forall id :: id in rows ==>
            1 <= id < nextId && rows[id].id == Some(id) &&
            rows[id].createdAt <= rows[id].updatedAt <= clock)
      && UsernameUnique(rows)
      && (forall i :: 0 <= i < |order| ==> order[i] in rows)
      && (forall id :: id in rows ==> id in order)
    }

    /** An empty table. */
    constructor ()
      ensures Valid() && rows == map[] && order == [] && nextId == 1 && clock == 0
    {
      rows := map[];
      order := [];
      nextId := 1;
      clock := 0;
    }

    /** `findById`: null when no row has that id, otherwise that row. */
    function FindById(id: int): (r: Option<User>)
      reads this
      ensures r.None? <==> id !in rows
      ensures r.Some? ==> r.value == rows[id]
    {
      if id in rows then Some(rows[id]) else None
    }

    /** The first row along `ids` whose username is `username`. */
    function UsernameSearch(ids: seq<int>, username: string): (r: Option<User>)
      requires forall i :: 0 <= i < |ids| ==> ids[i] in rows
      reads this
      ensures r.None? <==> forall i :: 0 <= i < |ids| ==> rows[ids[i]].username != username
      ensures r.Some? ==> r.value.username == username && exists i :: 0 <= i < |ids| && rows[ids[i]] == r.value
    {
      if ids == [] then None
      else if rows[ids[0]].username == username then Some(rows[ids[0]])
      else
        var r := UsernameSearch(ids[1..], username);
        assert forall i :: 1 <= i < |ids| ==> ids[i] == ids[1..][i - 1];
        r
    }

    /** `findByUsername`: null when no row has that username, otherwise the one
        row that does, password hash included. */
    function FindByUsername(username: string): (r: Option<User>)
      requires Valid()
      reads this
      ensures r.None? <==> forall id :: id in rows ==> rows[id].username != username
      ensures r.Some? ==> r.value.id.Some? && r.value.id.value in rows &&
                          rows[r.value.id.value] == r.value && r.value.username == username
    {
      var r := UsernameSearch(order, username);
      assert (forall id :: id in rows ==> rows[id].username != username) ==> r.None? by {
        if forall id :: id in rows ==> rows[id].username != username {
          assert forall i :: 0 <= i < |order| ==> order[i] in rows && rows[order[i]].username != username;
        }
      }
      assert r.None? ==> forall id :: id in rows ==> rows[id].username != username by {
        if r.None? {
          forall id | id in rows ensures rows[id].username != username {
            var i :| 0 <= i < |order| && order[i] == id;
            assert rows[order[i]].username != username;
          }
        }
      }
      assert r.Some? ==> r.value.id.Some? && r.value.id.value in rows && rows[r.value.id.value] == r.value by {
        if r.Some? {
          var i :| 0 <= i < |order| && rows[order[i]] == r.value;
          var id := order[i];
          assert id in rows;
          assert rows[id].id == Some(id);
        }
      }
      r
    }

    /** `create(user)`: insert one row with the entity's username and hash, a
        fresh id and the store's timestamps. */
    method Create(u: User) returns (r: Result<User>)
      requires Valid()
      modifies this
      ensures Valid()
      ensures var row := User(Some(old(nextId)), u.username, u.passwordHash, old(clock) + 1, old(clock) + 1);
              && old(nextId) !in old(rows)
              && (!UsernameTaken(old(rows), u.username, old(nextId)) ==>
                    && r == Ok(row)
                    && rows == old(rows)[old(nextId) := row]
                    && order == old(order) + [old(nextId)]
                    && nextId == old(nextId) + 1 && clock == old(clock) + 1)
              && (UsernameTaken(old(rows), u.username, old(nextId)) ==>
                    r == Fail(Error(CreatePrefix + UniqueViolation)) && unchanged(this))
    {
      if UsernameTaken(rows, u.username, nextId) {
        return Fail(Error(CreatePrefix + UniqueViolation));
      }
      var row := User(Some(nextId), u.username, u.passwordHash, clock + 1, clock + 1);
      rows := rows[nextId := row];
      order := order + [nextId];
      nextId := nextId + 1;
      clock := clock + 1;
      r := Ok(row);
    }

    /** `update(user)`: overwrite the username and hash of the row with the
        entity's id; the store refreshes `updatedAt`. When both equal the
        stored ones no field changes, so nothing is written and `updatedAt`
        stays. */
    method Update(u: User) returns (r: Result<User>)
      requires Valid()
      modifies this
      ensures Valid()
      ensures order == old(order) && nextId == old(nextId)
      ensures (u.id.None? || u.id.value !in old(rows)) ==>
                r == Fail(Error(UpdatePrefix + NotFound)) && unchanged(this)
      ensures u.id.Some? && u.id.value in old(rows) && NoFieldChanges(old(rows)[u.id.value], u) ==>
                r == Ok(old(rows)[u.id.value]) && unchanged(this)
      ensures u.id.Some? && u.id.value in old(rows) && !NoFieldChanges(old(rows)[u.id.value], u) ==>
                var row := old(rows)[u.id.value].(username := u.username, passwordHash := u.passwordHash,
                                                  updatedAt := old(clock) + 1);
                && (!UsernameTaken(old(rows), u.username, u.id.value) ==>
                      r == Ok(row) && rows == old(rows)[u.id.value := row] && clock == old(clock) + 1)
                && (UsernameTaken(old(rows), u.username, u.id.value) ==>
                      r == Fail(Error(UpdatePrefix + UniqueViolation)) && unchanged(this))
    {
      if u.id.None? || u.id.value !in rows {
        return Fail(Error(UpdatePrefix + NotFound));
      }
      var id := u.id.value;
      if NoFieldChanges(rows[id], u) {
        return Ok(rows[id]);
      }
      if UsernameTaken(rows, u.username, id) {
        return Fail(Error(UpdatePrefix + UniqueViolation));
      }
      var row := rows[id].(username := u.username, passwordHash := u.passwordHash, updatedAt := clock + 1);
      rows := rows[id := row];
      clock := clock + 1;
      r := Ok(row);
    }

    /** `delete(id)`: remove exactly that row and answer true. */
    method Delete(id: int) returns (r: Result<bool>)
      requires Valid()
      modifies this
      ensures Valid()
      ensures nextId == old(nextId) && clock == old(clock)
      ensures id !in old(rows) ==> r == Fail(Error(DeletePrefix + NotFound)) && unchanged(this)
      ensures id in old(rows) ==>
                r == Ok(true) && rows == old(rows) - {id} && order == Without(old(order), id)
    {
      if id !in rows {
        return Fail(Error(DeletePrefix + NotFound));
      }
      var rest := rows - {id};
      assert rest.Keys == rows.Keys - {id};
      var kept := Without(order, id);
      forall i | 0 <= i < |kept| ensures kept[i] in rest {
        assert kept[i] in kept;
      }
      order := kept;
      rows := rest;
      r := Ok(true);
    }
  }

  /** Once a username is in a valid table, a lookup finds that very row. */
  lemma FindByUsernameFindsRow(store: UserStore, id: int)
    requires store.Valid() && id in store.rows
    ensures store.FindByUsername(store.rows[id].username) == Some(store.rows[id])
  {
    var r := store.FindByUsername(store.rows[id].username);
    assert r.Some?;
    assert store.rows[r.value.id.value].username == store.rows[id].username;
    assert r.value.id.value == id;
  }
}
