/**
 The authentication middleware: `verifyToken` (a request must carry a token
 naming an active user), `optionalAuth` (attach the user when possible, never
 refuse) and the `checkRole` guard. Decoding and checking the signature of a
 token is a partial function `decode` from the token to the user id it names;
 the user table is a map.
 */
module Auth {
  import opened Wrappers
  import opened Domain
  import opened Text

  /** `req.header('Authorization')?.replace('Bearer ', '')`: the first occurrence of
      the scheme prefix is removed, wherever it stands. */
  function BearerToken(header: Option<string>): (t: Option<string>)
    ensures t.Some? <==> header.Some?
    ensures header.Some? && "Bearer " <= header.value ==> t.value == header.value[7..]
    ensures header.Some? && !Contains(header.value, "Bearer ") ==> t.value == header.value
  {
    match header
    case None => None
    case Some(h) =>
      assert "Bearer " <= h ==> h[0..] == h;
      Some(ReplaceFirst(h, "Bearer ", ""))
  }

  /** JavaScript truthiness of the extracted token: present and not empty. */
  predicate HasToken(t: Option<string>) {
    t.Some? && t.value != ""
  }

  /** The user `decode` and the user table give for `token`, if it is known and active. */
  predicate Admits(token: string, decode: string -> Option<UserId>, users: map<UserId, User>) {
    decode(token).Some? && decode(token).value in users && users[decode(token).value].isActive
  }

  /** `verifyToken`: 401 without a token, with a token that does not decode, or
      for a missing or inactive user; otherwise the request proceeds as that user. */
  function VerifyToken(header: Option<string>, decode: string -> Option<UserId>, users: map<UserId, User>)
    : (r: Result<User, Error>)
    ensures r.Success? <==> HasToken(BearerToken(header)) && Admits(BearerToken(header).value, decode, users)
    ensures r.Success? ==> r.value.isActive && r.value == users[decode(BearerToken(header).value).value]
    ensures !HasToken(BearerToken(header)) ==> r == Failure(Unauthorized(NoToken))
    ensures HasToken(BearerToken(header)) && decode(BearerToken(header).value).None? ==>
              r == Failure(Unauthorized(InvalidToken))
    ensures r.Failure? ==> r.error.Unauthorized?
  {
    var token := BearerToken(header);
    if !HasToken(token) then Failure(Unauthorized(NoToken))
    else match decode(token.value)
      case None => Failure(Unauthorized(InvalidToken))
      case Some(id) =>
        if id !in users || !users[id].isActive then Failure(Unauthorized(UnknownOrInactiveUser))
        else Success(users[id])
  }

  /** `optionalAuth`: the request always proceeds; it carries a user exactly when
      `verifyToken` would have let it through, and the same user. */
  function OptionalAuth(header: Option<string>, decode: string -> Option<UserId>, users: map<UserId, User>)
    : (u: Option<User>)
    ensures u.Some? <==> VerifyToken(header, decode, users).Success?
    ensures u.Some? ==> u.value == VerifyToken(header, decode, users).value
  {
    var token := BearerToken(header);
    if HasToken(token) && Admits(token.value, decode, users) then Some(users[decode(token.value).value])
    else None
  }

  /** `checkRole(allowed)`: 401 without a user, 403 naming the allowed roles and the
      user's role when the role is not allowed, otherwise the request proceeds. */
  function CheckRole(allowed: seq<Role>, user: Option<User>): (r: Result<User, Error>)
    ensures user.None? ==> r == Failure(Unauthorized(AuthenticationRequired))
    ensures user.Some? && user.value.role !in allowed ==> r == Failure(Forbidden(allowed, user.value.role))
    ensures r.Success? <==> user.Some? && user.value.role in allowed
    ensures r.Success? ==> r.value == user.value
  {
    match user
    case None => Failure(Unauthorized(AuthenticationRequired))
    case Some(u) => if u.role in allowed then Success(u) else Failure(Forbidden(allowed, u.role))
  }
}
