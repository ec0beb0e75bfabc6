/**
 * The authentication and authorization middleware (middleware/auth.js), with the user record
 * and the token service they depend on.
 */
module Auth {
  import opened Wrappers
  import opened Strings
  import opened ErrorHandler

  /** The three roles of database/models/User.js, ordered by privilege. */
  datatype Role = Analyst | Researcher | Admin

  function RoleName(r: Role): string
  {
    match r
    case Analyst => "analyst"
    case Researcher => "researcher"
    case Admin => "admin"
  }

  /**
   * A stored account. `password` is what the account was created or last updated with; the
   * bcrypt hashing hook of the User model is not modelled, and checking a candidate password
   * against it goes through an abstract `comparePassword` predicate.
   */
  datatype User = User(id: nat, username: string, email: string, password: string, role: Role, isActive: bool)

  /** The payload a token carries: `{ id, role }`. */
  datatype Claims = Claims(id: nat, role: Role)

  /**
   * jsonwebtoken's `sign` and `verify`, both already bound to the configured secret and
   * expiry: `verify` answers None for a malformed, forged or expired token.
   */
  datatype TokenService = TokenService(sign: Claims -> string, verify: string -> Option<Claims>)

  /** What the rest of the model assumes of the token service: a signed token verifies to its claims. */
  ghost predicate TokenServiceSound(ts: TokenService)
  {
    forall c :: ts.verify(ts.sign(c)) == Some(c) && ts.sign(c) != []
  }

  /** The process configuration the middleware reads: whether `JWT_SECRET` is set, and the token service. */
  datatype Env = Env(jwtSecretSet: bool, tokens: TokenService)

  /** What a request brings to the middleware: its `Authorization` header, the configuration and the user table. */
  datatype Caller = Caller(authorization: Option<string>, env: Env, users: seq<User>)

  /** The outcome of a middleware step: `next()` with `req.user` set, or an error reply. */
  datatype Outcome = Continue(user: User) | Reject(err: ErrorResponse)

  /** `User.findByPk(id)`: the stored user with that primary key. */
  function FindByPk(users: seq<User>, id: nat): (r: Option<User>)
    ensures r.Some? ==> r.value in users && r.value.id == id
    ensures r.None? ==> forall u :: u in users ==> u.id != id
  {
    if |users| == 0 then None
    else if users[0].id == id then Some(users[0])
    else FindByPk(users[1..], id)
  }

  /** `header.replace('Bearer ', '')`: the header with its first "Bearer " removed. */
  function BearerToken(header: string): string
  {
    ReplaceFirst(header, "Bearer ", "")
  }

  /** No header, or a header that is empty once "Bearer " is removed. */
  predicate NoToken(authorization: Option<string>)
  {
    authorization.None? || BearerToken(authorization.value) == []
  }

  const MissingToken := ErrorResponse(401, "Authentication Required", "No token provided. Please login.")
  const BadToken := ErrorResponse(401, "Authentication Failed", "Invalid or expired token.")
  const UnknownOrInactive := ErrorResponse(401, "Authentication Failed", "Invalid token or user account is inactive.")

  /** `authenticate(req, res, next)`. */
  function Authenticate(c: Caller): (r: Outcome)
    ensures r.Reject? ==> r.err.status == 401
    ensures NoToken(c.authorization) <==> r == Reject(MissingToken)
    ensures !NoToken(c.authorization)
            && (!c.env.jwtSecretSet || c.env.tokens.verify(BearerToken(c.authorization.value)).None?)
            ==> r == Reject(BadToken)
    ensures r.Continue? <==>
      && !NoToken(c.authorization)
      && c.env.jwtSecretSet
      && c.env.tokens.verify(BearerToken(c.authorization.value)).Some?
      && var found := FindByPk(c.users, c.env.tokens.verify(BearerToken(c.authorization.value)).value.id);
         found.Some? && found.value.isActive
    ensures r.Continue? ==>
      Some(r.user) == FindByPk(c.users, c.env.tokens.verify(BearerToken(c.authorization.value)).value.id)
  {
    if NoToken(c.authorization) then Reject(MissingToken)
    else if !c.env.jwtSecretSet then Reject(BadToken)
    else
      match c.env.tokens.verify(BearerToken(c.authorization.value))
      case None => Reject(BadToken)
      case Some(claims) =>
        match FindByPk(c.users, claims.id)
        case None => Reject(UnknownOrInactive)
        case Some(user) => if !user.isActive then Reject(UnknownOrInactive) else Continue(user)
  }

  /** `roles.join(' or ')` over the role names. */
  function JoinRoles(roles: seq<Role>): string
  {
    if |roles| == 0 then []
    else if |roles| == 1 then RoleName(roles[0])
    else JoinRoles(roles[..|roles| - 1]) + " or " + RoleName(roles[|roles| - 1])
  }

  /** `authorize(...roles)(req, res, next)`, with `user` standing for `req.user`. */
  function Authorize(user: Option<User>, roles: seq<Role>): (r: Outcome)
    ensures user.None? ==> r == Reject(ErrorResponse(401, "Authentication Required", "Please login first."))
    ensures user.Some? && user.value.role !in roles ==>
      r == Reject(ErrorResponse(403, "Forbidden", "Access denied. Required role: " + JoinRoles(roles)))
    ensures r.Continue? <==> user.Some? && user.value.role in roles
    ensures r.Continue? ==> r.user == user.value
  {
    if user.None? then Reject(ErrorResponse(401, "Authentication Required", "Please login first."))
    else if user.value.role !in roles then
      Reject(ErrorResponse(403, "Forbidden", "Access denied. Required role: " + JoinRoles(roles)))
    else Continue(user.value)
  }

  /** The roles bound on the create and update routes, and on the delete routes. */
  const WriteRoles: seq<Role> := [Researcher, Admin]
  const DeleteRoles: seq<Role> := [Admin]

  /** `authenticate` followed by `authorize(...roles)`, as mounted on a mutating route. */
  function Guard(c: Caller, roles: seq<Role>): (r: Outcome)
    ensures Authenticate(c).Reject? ==> r == Authenticate(c)
    ensures r.Continue? <==> Authenticate(c).Continue? && Authenticate(c).user.role in roles
    ensures r.Continue? ==> r.user == Authenticate(c).user
    ensures r.Reject? ==> r.err.status == 401 || r.err.status == 403
    ensures r.Reject? && r.err.status == 403 <==> Authenticate(c).Continue? && Authenticate(c).user.role !in roles
  {
    match Authenticate(c)
    case Reject(e) => Reject(e)
    case Continue(user) => Authorize(Some(user), roles)
  }

  /**
   * The role matrix of the IOC routes: an analyst may not write, a researcher may write but not
   * delete, an admin may do both; a request that does not authenticate gets 401, never 403.
   */
  lemma RoleMatrix(c: Caller)
    ensures Authenticate(c).Reject? ==>
      Guard(c, WriteRoles).err.status == 401 && Guard(c, DeleteRoles).err.status == 401
    ensures Authenticate(c).Continue? ==>
      && (Guard(c, WriteRoles).Continue? <==> Authenticate(c).user.role != Analyst)
      && (Guard(c, DeleteRoles).Continue? <==> Authenticate(c).user.role == Admin)
  {
  }

  /** A header "Bearer t" carries exactly the token t. */
  lemma BearerHeaderToken(token: string)
    ensures BearerToken("Bearer " + token) == token
  {
    ReplaceLeadingPrefix("Bearer ", token);
  }

  /**
   * A token the service signed for a stored, active user authenticates as that stored user,
   * whatever role the token claims: later role checks see the stored role.
   */
  lemma {:induction false} SignedTokenAuthenticates(c: Caller, claimedRole: Role, user: User)
    requires TokenServiceSound(c.env.tokens) && c.env.jwtSecretSet
    requires FindByPk(c.users, user.id) == Some(user) && user.isActive
    requires c.authorization == Some("Bearer " + c.env.tokens.sign(Claims(user.id, claimedRole)))
    ensures Authenticate(c) == Continue(user)
  {
    var token := c.env.tokens.sign(Claims(user.id, claimedRole));
    BearerHeaderToken(token);
  }
}
