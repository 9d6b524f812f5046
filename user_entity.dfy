/** The domain entity `User`. Nothing mutates a user after construction, so it
    is a value: five fields, a factory and the public view `toJSON`, which never
    carries the password hash. */
module UserEntity {
  import opened Common

  datatype User = User(id: Option<int>, username: string, passwordHash: string, createdAt: nat, updatedAt: nat)

  /** What `toJSON` returns: everything except the password hash. */
  datatype UserView = UserView(id: Option<int>, username: string, createdAt: nat, updatedAt: nat)

  /** `User.create`: a user without an id, both timestamps `now`. */
  function Create(username: string, passwordHash: string, now: nat): (u: User)
    ensures u.id == None && u.username == username && u.passwordHash == passwordHash
    ensures u.createdAt == now && u.updatedAt == now
  {
    User(None, username, passwordHash, now, now)
  }

  function ToJson(u: User): (v: UserView)
    ensures v.id == u.id && v.username == u.username
    ensures v.createdAt == u.createdAt && v.updatedAt == u.updatedAt
  {
    UserView(u.id, u.username, u.createdAt, u.updatedAt)
  }

  /** The view does not depend on the hash: two users that differ only in their
      hash cannot be told apart from their views. */
  lemma ViewIgnoresHash(u: User, otherHash: string)
    ensures ToJson(u.(passwordHash := otherHash)) == ToJson(u)
  {
  }

  /** The view determines every field of the user except the hash. */
  lemma ViewDeterminesUserUpToHash(u: User, w: User)
    requires ToJson(u) == ToJson(w)
    ensures u == w.(passwordHash := u.passwordHash)
  {
  }
}
