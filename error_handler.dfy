/** The Express error handler: the status and message of the JSON error
    response. The exception's name is examined first, then, for a non-empty
    message, five substrings in a fixed order; anything else is a 500. */
module ErrorHandler {
  import opened Common

  const ValidationErrorName := "SequelizeValidationError"
  const UniqueErrorName := "SequelizeUniqueConstraintError"
  const ForeignKeyErrorName := "SequelizeForeignKeyConstraintError"
  const InternalError := "Internal server error"
  const ResourceExists := "Resource already exists"
  const InvalidReference := "Invalid reference"

  /** The JSON body sent with the status. */
  datatype ErrorBody = ErrorBody(success: bool, message: string, stack: Option<string>)

  datatype ErrorResponse = ErrorResponse(status: int, body: ErrorBody)

  /** The status and message that the if/else chain settles on. */
  function Classify(err: Exception): (c: (int, string))
    ensures c.0 in {400, 401, 404, 409, 500}
    ensures c.0 == 500 ==> c.1 == InternalError
  {
    if err.name == ValidationErrorName then (400, Join(err.errors, ", "))
    else if err.name == UniqueErrorName then (409, ResourceExists)
    else if err.name == ForeignKeyErrorName then (400, InvalidReference)
    else if err.message != "" then
      if Includes(err.message, "required") then (400, err.message)
      else if Includes(err.message, "not found") then (404, err.message)
      else if Includes(err.message, "already exists") then (409, err.message)
      else if Includes(err.message, "Invalid credentials") then (401, err.message)
      else if Includes(err.message, "cannot be negative") then (400, err.message)
      else (500, InternalError)
    else (500, InternalError)
  }

  /** `errorHandler(err, …)`: `development` is whether NODE_ENV is
      "development"; only then does the body carry the stack. */
  function Handle(err: Exception, development: bool): (r: ErrorResponse)
    ensures r.body.success == false
    ensures r.body.stack == (if development then Some(err.stack) else None)
    ensures (r.status, r.body.message) == Classify(err)
  {
    var (status, message) := Classify(err);
    ErrorResponse(status, ErrorBody(false, message, if development then Some(err.stack) else None))
  }

  /** One message rule: a substring and the status it selects. */
  datatype Rule = Rule(pattern: string, status: int)

  /** The message rules as a table, in the order they are tried. */
  const MessageRules := [Rule("required", 400), Rule("not found", 404), Rule("already exists", 409),
                         Rule("Invalid credentials", 401), Rule("cannot be negative", 400)]

  /** The position of the first rule whose pattern `msg` includes, or the
      number of rules when there is none. */
  function MatchIndex(rules: seq<Rule>, msg: string): (i: nat)
    ensures i <= |rules|
    ensures forall j :: 0 <= j < i ==> !Includes(msg, rules[j].pattern)
    ensures i < |rules| ==> Includes(msg, rules[i].pattern)
  {
    if rules == [] then 0
    else if Includes(msg, rules[0].pattern) then 0
    else
      var k := MatchIndex(rules[1..], msg);
      assert forall j :: 1 <= j < |rules| ==> rules[j] == rules[1..][j - 1];
      1 + k
  }

  /** The status of the first rule that matches `msg`. */
  function FirstMatch(rules: seq<Rule>, msg: string): Option<int> {
    var i := MatchIndex(rules, msg);
    if i < |rules| then Some(rules[i].status) else None
  }

  /** The handler read as a table: a status from the name where the name is
      one of the three ORM errors, otherwise from the first matching message
      rule, otherwise 500. */
  function ByTable(err: Exception): (int, string) {
    if err.name == ValidationErrorName then (400, Join(err.errors, ", "))
    else if err.name == UniqueErrorName then (409, ResourceExists)
    else if err.name == ForeignKeyErrorName then (400, InvalidReference)
    else
      var m := if err.message == "" then None else FirstMatch(MessageRules, err.message);
      if m.Some? then (m.value, err.message) else (500, InternalError)
  }

  /** The if/else chain and the table agree on every error. */
  lemma {:induction false} ClassifyIsByTable(err: Exception)
    ensures Classify(err) == ByTable(err)
  {
    var msg := err.message;
    var r1 := [Rule("not found", 404), Rule("already exists", 409),
               Rule("Invalid credentials", 401), Rule("cannot be negative", 400)];
    var r2 := [Rule("already exists", 409), Rule("Invalid credentials", 401), Rule("cannot be negative", 400)];
    var r3 := [Rule("Invalid credentials", 401), Rule("cannot be negative", 400)];
    var r4 := [Rule("cannot be negative", 400)];
    assert MessageRules[1..] == r1 && r1[1..] == r2 && r2[1..] == r3 && r3[1..] == r4 && r4[1..] == [];
    var i4 := if Includes(msg, "cannot be negative") then 0 else 1;
    assert MatchIndex(r4, msg) == i4;
    var i3 := if Includes(msg, "Invalid credentials") then 0 else 1 + i4;
    assert MatchIndex(r3, msg) == i3;
    var i2 := if Includes(msg, "already exists") then 0 else 1 + i3;
    assert MatchIndex(r2, msg) == i2;
    var i1 := if Includes(msg, "not found") then 0 else 1 + i2;
    assert MatchIndex(r1, msg) == i1;
    assert MatchIndex(MessageRules, msg) == if Includes(msg, "required") then 0 else 1 + i1;
  }

  /** Every response is one of five statuses; a 500 always says
      "Internal server error"; the name test comes before the message. */
  lemma {:induction false} StatusesAndPrecedence(err: Exception, development: bool)
    ensures Handle(err, development).status in {400, 401, 404, 409, 500}
    ensures Handle(err, development).status == 500 ==> Handle(err, development).body.message == InternalError
    ensures err.name == UniqueErrorName ==>
              Handle(err, development) ==
              ErrorResponse(409, ErrorBody(false, ResourceExists, if development then Some(err.stack) else None))
    ensures err.name == ValidationErrorName ==>
              Handle(err, development).status == 400 && Handle(err, development).body.message == Join(err.errors, ", ")
    ensures err.name == ForeignKeyErrorName ==>
              Handle(err, development).status == 400 && Handle(err, development).body.message == InvalidReference
  {
  }

  /** For an error that is none of the three ORM errors, the status is 500
      exactly when no rule matches the message; otherwise the message is sent
      as it is, with the status of the first rule it matches (MatchIndex says
      that no earlier rule matches). */
  lemma {:induction false} MessageRulesDecide(err: Exception, development: bool)
    requires err.name != ValidationErrorName && err.name != UniqueErrorName && err.name != ForeignKeyErrorName
    ensures Handle(err, development).status == 500 <==>
              err.message == "" || MatchIndex(MessageRules, err.message) == |MessageRules|
    ensures Handle(err, development).status != 500 ==>
              Handle(err, development).body.message == err.message &&
              Handle(err, development).status == MessageRules[MatchIndex(MessageRules, err.message)].status
  {
    ClassifyIsByTable(err);
    if err.message != "" {
      var i := MatchIndex(MessageRules, err.message);
      if i < |MessageRules| {
        assert MessageRules[i].status != 500;
      }
    }
  }

  /** The status the handler gives a plain `new Error(msg)`. */
  function StatusOf(msg: string): int {
    Classify(Error(msg)).0
  }

  /** A plain error whose message matches no rule is a 500; one that matches
      keeps its message. */
  lemma {:induction false} PlainErrorStatus(msg: string, development: bool)
    ensures StatusOf(msg) == Handle(Error(msg), development).status
    ensures StatusOf(msg) != 500 ==> Handle(Error(msg), development).body.message == msg
    ensures StatusOf(msg) == 500 ==> Handle(Error(msg), development).body.message == InternalError
  {
  }

  /** A message that avoids, for each of the first `|ks|` rules, the
      character at position `ks[t]` of its pattern matches none of them. */
  lemma {:induction false} AvoidedRules(msg: string, cs: string, ks: seq<nat>)
    requires |ks| <= |MessageRules| && Avoids(msg, cs)
    requires forall t :: 0 <= t < |ks| ==> ks[t] < |MessageRules[t].pattern| && MessageRules[t].pattern[ks[t]] in cs
    ensures forall t :: 0 <= t < |ks| ==> !Includes(msg, MessageRules[t].pattern)
  {
    forall t | 0 <= t < |ks| ensures !Includes(msg, MessageRules[t].pattern) {
      NotIncludesAvoided(msg, MessageRules[t].pattern, ks[t], cs);
    }
  }

  /** A plain error whose message matches rule `j` and none before it gets
      that rule's status and keeps its message; one that matches none of the
      rules (`j` is their number) gets 500. */
  lemma {:induction false} FirstMatchStatus(msg: string, j: nat, development: bool)
    requires msg != "" && j <= |MessageRules|
    requires forall t :: 0 <= t < j ==> !Includes(msg, MessageRules[t].pattern)
    requires j < |MessageRules| ==> Includes(msg, MessageRules[j].pattern)
    ensures StatusOf(msg) == if j < |MessageRules| then MessageRules[j].status else 500
    ensures Handle(Error(msg), development).body.message == if j < |MessageRules| then msg else InternalError
  {
    var i := MatchIndex(MessageRules, msg);
    assert i < |MessageRules| ==> Includes(msg, MessageRules[i].pattern);
    assert i == j;
    MessageRulesDecide(Error(msg), development);
    PlainErrorStatus(msg, development);
  }

  /** What a controller does with a use-case outcome: answer itself, or pass
      the error to the error handler with `next(error)`. */
  datatype Reply<T> = Respond(status: int, success: bool, message: string, data: Option<T>) | Forward(err: Exception)

  /** The response the client receives. */
  datatype HttpResponse<T> = HttpResponse(status: int, success: bool, message: string, data: Option<T>, stack: Option<string>)

  /** A reply as sent: a forwarded error goes through `errorHandler`. */
  function Served<T>(reply: Reply<T>, development: bool): (h: HttpResponse<T>)
    ensures reply.Respond? ==> h == HttpResponse(reply.status, reply.success, reply.message, reply.data, None)
    ensures reply.Forward? ==> && h.status == Handle(reply.err, development).status
                               && h.message == Handle(reply.err, development).body.message
                               && !h.success && h.data.None?
                               && h.stack == Handle(reply.err, development).body.stack
  {
    match reply
    case Respond(status, success, message, data) => HttpResponse(status, success, message, data, None)
    case Forward(err) =>
      var r := Handle(err, development);
      HttpResponse(r.status, r.body.success, r.body.message, None, r.body.stack)
  }

  /** A forwarded plain error is answered with the handler's status for its
      message, and with that message unless the status is 500. */
  lemma {:induction false} ForwardedPlain<T>(msg: string, development: bool)
    ensures Served(Reply<T>.Forward(Error(msg)), development).status == StatusOf(msg)
    ensures !Served(Reply<T>.Forward(Error(msg)), development).success
    ensures StatusOf(msg) != 500 ==> Served(Reply<T>.Forward(Error(msg)), development).message == msg
    ensures StatusOf(msg) == 500 ==> Served(Reply<T>.Forward(Error(msg)), development).message == InternalError
  {
    PlainErrorStatus(msg, development);
  }
}
