/** Values shared by every layer of the inventory service: optional values, the
    JavaScript `Error` objects that the backend throws, results of operations that
    may throw, and the string helpers the source calls (`includes`, `join`,
    `toLowerCase`, JavaScript truthiness of an optional string). */
module Common {

  datatype Option<+T> = None | Some(value: T)

  /** A thrown JavaScript error: its `name`, its `message`, the messages of the
      individual failed validators (only a Sequelize validation error has them)
      and its `stack`. */
  datatype Exception = Exception(name: string, message: string, errors: seq<string>, stack: string)

  /** `new Error(msg)`: name "Error", no validator messages; its stack starts
      with "Error: " and the message (the frames that follow are not modelled). */
  function Error(msg: string): (e: Exception)
    ensures e.name == "Error" && e.message == msg && e.errors == []
  {
    Exception("Error", msg, [], "Error: " + msg)
  }

  /** The outcome of an operation that either returns a value or throws. */
  datatype Result<+T> = Ok(value: T) | Fail(error: Exception)

  /** JavaScript truthiness of a value that is either absent (null or
      undefined) or a string: only a non-empty string is truthy. */
  predicate Truthy(s: Option<string>) {
    s.Some? && s.value != ""
  }

  /** `sub` occurs in `s` starting at position `i`. */
  predicate OccursAt(s: string, sub: string, i: int) {
    0 <= i && i + |sub| <= |s| && s[i..i + |sub|] == sub
  }

  /** `s.includes(sub)`: some position of `s` starts a copy of `sub`. */
  predicate Includes(s: string, sub: string) {
    exists i :: 0 <= i <= |s| - |sub| && OccursAt(s, sub, i)
  }

  /** An occurrence of `sub` at position `i` makes `s` include it. */
  lemma IncludesAt(s: string, sub: string, i: nat)
    requires OccursAt(s, sub, i)
    ensures Includes(s, sub)
  {
  }

  /** No character of `s` is one of `cs`. */
  predicate Avoids(s: string, cs: string) {
    forall i :: 0 <= i < |s| ==> s[i] !in cs
  }

  /** Two strings that avoid `cs` make a string that avoids `cs`. */
  lemma AvoidsConcat(a: string, b: string, cs: string)
    requires Avoids(a, cs) && Avoids(b, cs)
    ensures Avoids(a + b, cs)
  {
    forall i | 0 <= i < |a + b| ensures (a + b)[i] !in cs {
      if i >= |a| {
        assert (a + b)[i] == b[i - |a|];
      }
    }
  }

  /** A string that avoids a character of `sub` does not include `sub`. */
  lemma NotIncludesAvoided(s: string, sub: string, k: nat, cs: string)
    requires k < |sub| && sub[k] in cs && Avoids(s, cs)
    ensures !Includes(s, sub)
  {
    forall i | 0 <= i <= |s| - |sub| ensures !OccursAt(s, sub, i) {
      assert s[i..i + |sub|][k] == s[i + k];
    }
  }

  /** When the first character of `sub` occurs in `s` only at position `i`, and
      the character after it is not the second character of `sub`, then `s`
      does not include `sub`. */
  lemma NotIncludesOnlyAt(s: string, sub: string, i: nat)
    requires 2 <= |sub| && i + 1 < |s| && s[i + 1] != sub[1]
    requires forall j :: 0 <= j < |s| && j != i ==> s[j] != sub[0]
    ensures !Includes(s, sub)
  {
    forall j | 0 <= j <= |s| - |sub| ensures !OccursAt(s, sub, j) {
      var w := s[j..j + |sub|];
      if j == i {
        assert w[1] == s[i + 1];
      } else {
        assert w[0] == s[j];
      }
    }
  }

  /** A prefix put in front of a string keeps everything it included. */
  lemma IncludesAfterPrefix(prefix: string, s: string, sub: string)
    requires Includes(s, sub)
    ensures Includes(prefix + s, sub)
  {
    var i :| 0 <= i <= |s| - |sub| && OccursAt(s, sub, i);
    assert (prefix + s)[|prefix| + i..|prefix| + i + |sub|] == s[i..i + |sub|];
    assert OccursAt(prefix + s, sub, |prefix| + i);
  }

  /** `xs.join(sep)`. */
  function Join(xs: seq<string>, sep: string): (r: string)
    ensures xs == [] ==> r == ""
    ensures |xs| == 1 ==> r == xs[0]
  {
    if xs == [] then ""
    else if |xs| == 1 then xs[0]
    else xs[0] + sep + Join(xs[1..], sep)
  }

  /** `toLowerCase` on one character; only ASCII letters are modelled. */
  function LowerChar(c: char): (r: char)
    ensures 'A' <= c <= 'Z' ==> 'a' <= r <= 'z'
    ensures !('A' <= c <= 'Z') ==> r == c
  {
    if 'A' <= c <= 'Z' then (c as int + 32) as char else c
  }

  function Lower(s: string): (r: string)
    ensures |r| == |s|
    ensures forall i :: 0 <= i < |s| ==> r[i] == LowerChar(s[i])
  {
    seq(|s|, i requires 0 <= i < |s| => LowerChar(s[i]))
  }

  /** `s` without the elements equal to `x`, in the same order (what is left of
      the list of row ids once a row is destroyed). */
  function Without<T(==,!new)>(s: seq<T>, x: T): (r: seq<T>)
    ensures forall y :: y in r <==> y in s && y != x
    ensures |r| <= |s|
  {
    if s == [] then []
    else (if s[0] == x then [] else [s[0]]) + Without(s[1..], x)
  }

  function Min(a: int, b: int): int {
    if a <= b then a else b
  }
}
