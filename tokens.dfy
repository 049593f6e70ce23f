/** What the two guards share: reading the bearer token from the
    `Authorization` header, and the `catch` that lets only Unauthorized and
    BadRequest through. Token verification is `jwtService.verify`, passed in as
    a function from the token to the subject it carries (`None` when it throws). */
module Tokens {
  import opened Common
  import opened Text
  import opened Entities
  import opened Seqs

  /** `jwtService.verify(token).sub`, or `None` when verification throws. */
  type Verifier = string -> Option<Id>

  /** The outcome of `canActivate`: allowed, with the user attached to the
      request when the guard attaches one. */
  datatype Decision = Allow(attached: Option<User>)

  const BearerPrefix: string := "Bearer "

  /** `userRepo.findOne({ where: { id: payload.sub } })` after a successful
      verification: the user the token names, when the header carries a valid
      token of an existing user. */
  function Authenticated(users: seq<User>, verify: Verifier, auth: Option<string>): (u: Option<User>)
    ensures u.Some? ==>
      && BearerToken(auth).Ok? && verify(BearerToken(auth).value).Some?
      && u.value in users && u.value.id == verify(BearerToken(auth).value).value
    ensures u.None? <==>
      || BearerToken(auth).Err? || verify(BearerToken(auth).value).None?
      || forall i :: 0 <= i < |users| ==> users[i].id != verify(BearerToken(auth).value).value
  {
    var token := BearerToken(auth);
    if token.Err? || verify(token.value).None? then None
    else First(users, (u: User) => u.id == verify(token.value).value)
  }

  /** `auth.split(' ')[1]` once the header starts with `"Bearer "`; "Missing token" otherwise. */
  function BearerToken(auth: Option<string>): (r: Result<string>)
    ensures r.Err? <==> !Truthy(auth) || !StartsWith(auth.value, BearerPrefix)
    ensures r.Err? ==> r.error == Unauthorized("Missing token")
    ensures r.Ok? ==> ' ' !in r.value
  {
    if !Truthy(auth) || !StartsWith(auth.value, BearerPrefix) then Err(Unauthorized("Missing token"))
    else
      var a := auth.value;
      assert a == "Bearer" + [' '] + a[7..];
      FieldAfterPrefix("Bearer", ' ', a[7..]);
      Ok(Field(a, ' ', 1).value)
  }

  /** The token read is the one the client sent after `"Bearer "`, up to the next space. */
  lemma BearerTokenOf(auth: string)
    requires StartsWith(auth, BearerPrefix)
    ensures BearerToken(Some(auth)) == Ok(Split(auth[7..], ' ')[0])
    ensures ' ' !in auth[7..] ==> BearerToken(Some(auth)) == Ok(auth[7..])
  {
    assert auth == "Bearer" + [' '] + auth[7..];
    FieldAfterPrefix("Bearer", ' ', auth[7..]);
    if ' ' !in auth[7..] {
      SplitNoSeparator(auth[7..], ' ');
    }
  }

  /** The `catch` of both guards: Unauthorized and BadRequest are rethrown,
      anything else becomes "Invalid or expired token". */
  function Catch<T>(r: Result<T>): (c: Result<T>)
    ensures c.Ok? <==> r.Ok?
    ensures c.Ok? ==> c == r
    ensures c.Err? ==> c.error.Unauthorized? || c.error.BadRequest?
    ensures r.Err? && (r.error.Unauthorized? || r.error.BadRequest?) ==> c == r
    ensures r.Err? && !r.error.Unauthorized? && !r.error.BadRequest? ==>
      c == Err(Unauthorized("Invalid or expired token"))
  {
    if r.Ok? || r.error.Unauthorized? || r.error.BadRequest? then r
    else Err(Unauthorized("Invalid or expired token"))
  }

  /** The subject of a verified token; a token that fails verification throws,
      and the `catch` turns that into "Invalid or expired token". */
  function TokenSubject(verify: Verifier, token: string): (r: Result<Id>)
    ensures r.Ok? <==> verify(token).Some?
    ensures r.Err? ==> r.error == Unauthorized("Invalid or expired token")
  {
    if verify(token).None? then Err(Unauthorized("Invalid or expired token")) else Ok(verify(token).value)
  }
}
