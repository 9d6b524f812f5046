/** The request guard `authenticateToken`: the token is the second piece of
    the Authorization header split at spaces; token verification is an oracle
    that yields a user id or throws a named error; the user must still exist. */
module AuthMiddleware {
  import opened Common
  import opened UserEntity
  import opened UserRepository

  const AccessTokenRequired := "Access token required"
  const InvalidToken := "Invalid token"
  const TokenExpired := "Token expired"
  const UserGone := "Invalid token - user not found"
  const MalformedName := "JsonWebTokenError"
  const ExpiredName := "TokenExpiredError"

  /** What verifying a token gives: the `userId` claim, or the error thrown. */
  datatype Verification = Verified(userId: int) | Thrown(err: Exception)

  /** What the guard does with the request: answer 401 with a message, call
      `next()` with `req.user` set, or call `next(error)`. */
  datatype GuardOutcome = Reject(status: int, message: string) | Next(user: User) | NextError(err: Exception)

  /** `s.split(' ')`: the pieces between single spaces, empty ones included. */
  function Split(s: string): (pieces: seq<string>)
    ensures |pieces| >= 1
    ensures forall i :: 0 <= i < |pieces| ==> ' ' !in pieces[i]
  {
    if s == [] then [""]
    else
      var rest := Split(s[1..]);
      if s[0] == ' ' then [""] + rest
      else [[s[0]] + rest[0]] + rest[1..]
  }

  lemma JoinCons(xs: seq<string>, sep: string)
    requires |xs| >= 2
    ensures Join(xs, sep) == xs[0] + sep + Join(xs[1..], sep)
  {
  }

  /** Joining the pieces with single spaces gives the header back. */
  lemma {:induction false} JoinSplit(s: string)
    ensures Join(Split(s), " ") == s
  {
    if s != [] {
      var rest := Split(s[1..]);
      JoinSplit(s[1..]);
      if s[0] == ' ' {
        JoinCons([""] + rest, " ");
        assert ([""] + rest)[1..] == rest;
      } else if |rest| == 1 {
        assert Split(s) == [[s[0]] + rest[0]];
      } else {
        var pieces := [[s[0]] + rest[0]] + rest[1..];
        JoinCons(pieces, " ");
        JoinCons(rest, " ");
        assert pieces[1..] == rest[1..];
      }
    }
  }

  /** A word without spaces is a single piece. */
  lemma {:induction false} SplitWord(w: string)
    requires ' ' !in w
    ensures Split(w) == [w]
  {
    if w != [] {
      assert forall c :: c in w[1..] ==> c in w;
      SplitWord(w[1..]);
      assert [w[0]] + w[1..] == w;
    }
  }

  /** A word without spaces followed by a space is the first piece. */
  lemma {:induction false} SplitAfterWord(w: string, t: string)
    requires ' ' !in w
    ensures Split(w + " " + t) == [w] + Split(t)
  {
    if w == [] {
      assert w + " " + t == [' '] + t;
      assert (w + " " + t)[1..] == t;
    } else {
      assert forall c :: c in w[1..] ==> c in w;
      SplitAfterWord(w[1..], t);
      assert (w + " " + t)[1..] == w[1..] + " " + t;
      assert [w[0]] + w[1..] == w;
    }
  }

  /** `authHeader && authHeader.split(' ')[1]`, absent when there is no second
      piece. */
  function TokenOf(header: Option<string>): (t: Option<string>)
    ensures !Truthy(header) ==> t.None?
    ensures t.Some? ==> ' ' !in t.value
  {
    if !Truthy(header) then None
    else
      var pieces := Split(header.value);
      if |pieces| >= 2 then Some(pieces[1]) else None
  }

  /** The token is the word after the first space, whatever the first word
      is: the scheme is not checked to be "Bearer". */
  lemma {:induction false} TokenIsSecondWord(scheme: string, token: string, rest: Option<string>)
    requires ' ' !in scheme && ' ' !in token
    ensures var h := scheme + " " + token + (if rest.Some? then " " + rest.value else "");
            TokenOf(Some(h)) == Some(token)
  {
    var tail := token + (if rest.Some? then " " + rest.value else "");
    assert scheme + " " + token + (if rest.Some? then " " + rest.value else "") == scheme + " " + tail;
    SplitAfterWord(scheme, tail);
    if rest.Some? {
      assert tail == token + " " + rest.value;
      SplitAfterWord(token, rest.value);
      assert Split(tail)[0] == token;
    } else {
      assert tail == token;
      SplitWord(token);
    }
  }

  /** A header without a space carries no token. */
  lemma {:induction false} NoSpaceNoToken(h: string)
    requires ' ' !in h
    ensures TokenOf(Some(h)) == None
  {
    SplitWord(h);
  }

  /** `authenticateToken(req, res, next)` on a request with Authorization
      header `header`; users are looked up in `store`. */
  function Authenticate(store: UserStore, header: Option<string>, verify: string -> Verification): (o: GuardOutcome)
    reads store
    ensures o.Reject? ==> o.status == 401 && o.message in {AccessTokenRequired, UserGone, InvalidToken, TokenExpired}
    ensures o.Next? ==> o.user in store.rows.Values
    ensures o.NextError? ==> o.err.name != MalformedName && o.err.name != ExpiredName
  {
    var token := TokenOf(header);
    if !Truthy(token) then Reject(401, AccessTokenRequired)
    else match verify(token.value)
      case Verified(userId) =>
        var user := store.FindById(userId);
        if user.None? then Reject(401, UserGone) else Next(user.value)
      case Thrown(err) =>
        if err.name == MalformedName then Reject(401, InvalidToken)
        else if err.name == ExpiredName then Reject(401, TokenExpired)
        else NextError(err)
  }

  /** The decision tree: no token, a verified token whose user is gone, each
      named verification error, and any other error; `next()` is reached only
      with the stored user of a verified token. */
  lemma {:induction false} GuardDecisions(store: UserStore, header: Option<string>, verify: string -> Verification)
    ensures var o := Authenticate(store, header, verify);
            var token := TokenOf(header);
            && (!Truthy(token) ==> o == Reject(401, AccessTokenRequired))
            && (o.Reject? ==> o.status == 401)
            && (o.Next? <==> Truthy(token) && verify(token.value).Verified? && verify(token.value).userId in store.rows)
            && (o.Next? ==> o.user == store.rows[verify(token.value).userId])
            && (Truthy(token) && verify(token.value).Verified? && verify(token.value).userId !in store.rows ==>
                  o == Reject(401, UserGone))
            && (Truthy(token) && verify(token.value).Thrown? ==>
                  o == (if verify(token.value).err.name == MalformedName then Reject(401, InvalidToken)
                        else if verify(token.value).err.name == ExpiredName then Reject(401, TokenExpired)
                        else NextError(verify(token.value).err)))
  {
  }

  /** A missing header, a header without a space and a header whose second
      piece is empty ("Bearer " or two spaces) are all refused as lacking a
      token, before the token is verified. */
  lemma {:induction false} MissingTokenRefused(store: UserStore, scheme: string, verify: string -> Verification)
    requires ' ' !in scheme
    ensures Authenticate(store, None, verify) == Reject(401, AccessTokenRequired)
    ensures Authenticate(store, Some(scheme), verify) == Reject(401, AccessTokenRequired)
    ensures Authenticate(store, Some(scheme + " "), verify) == Reject(401, AccessTokenRequired)
  {
    NoSpaceNoToken(scheme);
    TokenIsSecondWord(scheme, "", None);
    assert scheme + " " + "" == scheme + " ";
  }
}
