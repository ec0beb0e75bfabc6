/**
 * The account routes (routes/authRoutes.js) over the user table. Users are never deleted, so the
 * table is a sequence in insertion order and the user at index i has primary key i + 1.
 */
module AuthRoutes {
  import opened Wrappers
  import opened ErrorHandler
  import opened Auth

  /** A body property JavaScript treats as true: present and not the empty string. */
  predicate Truthy(f: Option<string>)
  {
    f.Some? && f.value != []
  }

  datatype RegisterBody = RegisterBody(username: Option<string>, email: Option<string>, password: Option<string>, role: Option<Role>)
  datatype LoginBody = LoginBody(email: Option<string>, password: Option<string>)
  datatype ProfileBody = ProfileBody(username: Option<string>, email: Option<string>)
  datatype PasswordBody = PasswordBody(currentPassword: Option<string>, newPassword: Option<string>)

  datatype AuthReply =
    | Registered(user: User, token: string)   // 201
    | LoggedIn(user: User, token: string)     // 200
    | Profile(user: User)                     // 200
    | PasswordChanged                         // 200
    | Error(err: ErrorResponse)

  function Status(r: AuthReply): int
  {
    match r
    case Registered(_, _) => 201
    case LoggedIn(_, _) => 200
    case Profile(_) => 200
    case PasswordChanged => 200
    case Error(e) => e.status
  }

  /** `user.comparePassword(candidate)`, as a relation between a candidate and the stored password. */
  type PasswordCheck = (string, string) -> bool

  /** Ids follow positions; emails and usernames are unique. */
  ghost predicate StoreInvariant(users: seq<User>)
  {
    && (forall i :: 0 <= i < |users| ==> users[i].id == i + 1)
    && (forall i, j :: 0 <= i < j < |users| ==> users[i].email != users[j].email && users[i].username != users[j].username)
  }

  /** `User.findOne({ where: { email } })`: the first user with that email. */
  function FindByEmail(users: seq<User>, email: string): (r: Option<User>)
    ensures r.Some? ==> r.value in users && r.value.email == email
    ensures r.None? ==> forall u :: u in users ==> u.email != email
  {
    if |users| == 0 then None
    else if users[0].email == email then Some(users[0])
    else FindByEmail(users[1..], email)
  }

  /** Some user already has this email or this username. */
  predicate Taken(users: seq<User>, username: string, email: string)
  {
    exists u :: u in users && (u.email == email || u.username == username)
  }

  /** What a route answers when `JWT_SECRET` is unset: the thrown Error, through the error handler. */
  const SecretMissing := Handle(PlainError("JWT_SECRET is not defined in environment variables"))

  /** The body names a username, an email and a password. */
  predicate Complete(body: RegisterBody)
  {
    Truthy(body.username) && Truthy(body.email) && Truthy(body.password)
  }

  /** The role a new account gets: the requested one only when an admin registers it. */
  function GrantedRole(body: RegisterBody, caller: Option<User>): Role
  {
    if body.role.Some? && caller.Some? && caller.value.role == Admin then body.role.value else Analyst
  }

  /**
   * POST /register. `caller` stands for `req.user`; the route is mounted without `authenticate`,
   * so in the running server it is always None (see Register below).
   */
  function RegisterAs(users: seq<User>, body: RegisterBody, caller: Option<User>, env: Env): (res: (AuthReply, seq<User>))
    ensures !Complete(body) ==>
      res == (Error(ErrorResponse(400, "Validation Error", "Username, email, and password are required.")), users)
    ensures Complete(body) && Taken(users, body.username.value, body.email.value) ==>
      res.1 == users && Status(res.0) == 409
    ensures !(Complete(body) && !Taken(users, body.username.value, body.email.value)) ==> res.1 == users
    ensures Complete(body) && !Taken(users, body.username.value, body.email.value) ==>
      && |res.1| == |users| + 1 && res.1[..|users|] == users
      && var u := res.1[|users|];
         && u == User(|users| + 1, body.username.value, body.email.value, body.password.value, GrantedRole(body, caller), true)
         && (if env.jwtSecretSet then res.0 == Registered(u, env.tokens.sign(Claims(u.id, u.role)))
             else res.0 == Error(SecretMissing) && Status(res.0) == 500)
    ensures res.0.Registered? ==> |res.1| == |users| + 1
  {
    if !Complete(body) then
      (Error(ErrorResponse(400, "Validation Error", "Username, email, and password are required.")), users)
    else if Taken(users, body.username.value, body.email.value) then
      (Error(ErrorResponse(409, "Conflict", "User with this email or username already exists.")), users)
    else
      var user := User(|users| + 1, body.username.value, body.email.value, body.password.value, GrantedRole(body, caller), true);
      var users' := users + [user];
      assert users'[..|users|] == users;
      if !env.jwtSecretSet then (Error(SecretMissing), users')
      else (Registered(user, env.tokens.sign(Claims(user.id, user.role))), users')
  }

  /** POST /register as mounted: no `authenticate` runs first, so `req.user` is absent. */
  function Register(users: seq<User>, body: RegisterBody, env: Env): (res: (AuthReply, seq<User>))
    ensures res.1 != users ==> |res.1| == |users| + 1 && res.1[|users|].role == Analyst
  {
    RegisterAs(users, body, None, env)
  }

  /** POST /login: a read-only decision chain. */
  function Login(users: seq<User>, body: LoginBody, env: Env, comparePassword: PasswordCheck): (r: AuthReply)
    ensures !(Truthy(body.email) && Truthy(body.password)) ==>
      r == Error(ErrorResponse(400, "Validation Error", "Email and password are required."))
    ensures Truthy(body.email) && Truthy(body.password) ==>
      var found := FindByEmail(users, body.email.value);
      && (found.None? || !found.value.isActive ==>
            r == Error(ErrorResponse(401, "Authentication Failed", "Invalid credentials or account is inactive.")))
      && (found.Some? && found.value.isActive && !comparePassword(body.password.value, found.value.password) ==>
            r == Error(ErrorResponse(401, "Authentication Failed", "Invalid credentials.")))
    ensures r.LoggedIn? <==>
      && Truthy(body.email) && Truthy(body.password) && env.jwtSecretSet
      && var found := FindByEmail(users, body.email.value);
         found.Some? && found.value.isActive && comparePassword(body.password.value, found.value.password)
    ensures r.LoggedIn? ==>
      && r.user in users && r.user.email == body.email.value && r.user.isActive
      && r.token == env.tokens.sign(Claims(r.user.id, r.user.role))
    ensures Status(r) in {200, 400, 401, 500}
  {
    if !(Truthy(body.email) && Truthy(body.password)) then
      Error(ErrorResponse(400, "Validation Error", "Email and password are required."))
    else
      match FindByEmail(users, body.email.value)
      case None => Error(ErrorResponse(401, "Authentication Failed", "Invalid credentials or account is inactive."))
      case Some(user) =>
        if !user.isActive then
          Error(ErrorResponse(401, "Authentication Failed", "Invalid credentials or account is inactive."))
        else if !comparePassword(body.password.value, user.password) then
          Error(ErrorResponse(401, "Authentication Failed", "Invalid credentials."))
        else if !env.jwtSecretSet then Error(SecretMissing)
        else LoggedIn(user, env.tokens.sign(Claims(user.id, user.role)))
  }

  /** The username or email `me` is about to take is held by another user. */
  predicate ClashesWithOther(users: seq<User>, me: User, username: string, email: string)
  {
    exists i :: 0 <= i < |users| && i != me.id - 1 && (users[i].username == username || users[i].email == email)
  }

  /**
   * PUT /me for the authenticated user `me`: only a non-empty username or email is applied, and
   * nothing else about the account changes. A value another account holds trips the unique index.
   */
  function UpdateProfile(users: seq<User>, me: User, body: ProfileBody): (res: (AuthReply, seq<User>))
    requires 1 <= me.id <= |users|
    ensures |res.1| == |users|
    ensures forall i :: 0 <= i < |users| && i != me.id - 1 ==> res.1[i] == users[i]
    ensures res.0.Profile? ==>
      && res.1[me.id - 1] == res.0.user
      && res.0.user == me.(username := if Truthy(body.username) then body.username.value else me.username,
                           email := if Truthy(body.email) then body.email.value else me.email)
    ensures !res.0.Profile? ==> res.1 == users && Status(res.0) == 409
    ensures res.0.Profile? <==>
      !ClashesWithOther(users, me, if Truthy(body.username) then body.username.value else me.username,
                                   if Truthy(body.email) then body.email.value else me.email)
    ensures !Truthy(body.username) && !Truthy(body.email) && me == users[me.id - 1] ==>
      res == (Profile(me), users) || Status(res.0) == 409
  {
    var username := if Truthy(body.username) then body.username.value else me.username;
    var email := if Truthy(body.email) then body.email.value else me.email;
    var updated := me.(username := username, email := email);
    if ClashesWithOther(users, me, username, email) then (Error(Handle(UniqueConstraintError())), users)
    else
      assert updated == users[me.id - 1] ==> users[me.id - 1 := updated] == users;
      (Profile(updated), users[me.id - 1 := updated])
  }

  /** PUT /change-password for the authenticated user `me`. */
  function ChangePassword(users: seq<User>, me: User, body: PasswordBody, comparePassword: PasswordCheck): (res: (AuthReply, seq<User>))
    requires 1 <= me.id <= |users|
    ensures !(Truthy(body.currentPassword) && Truthy(body.newPassword)) ==>
      res == (Error(ErrorResponse(400, "Validation Error", "Current password and new password are required.")), users)
    ensures Truthy(body.currentPassword) && Truthy(body.newPassword) && !comparePassword(body.currentPassword.value, me.password) ==>
      res == (Error(ErrorResponse(401, "Authentication Failed", "Current password is incorrect.")), users)
    ensures res.0 == PasswordChanged <==>
      Truthy(body.currentPassword) && Truthy(body.newPassword) && comparePassword(body.currentPassword.value, me.password)
    ensures res.0 == PasswordChanged ==> res.1 == users[me.id - 1 := me.(password := body.newPassword.value)]
    ensures res.0 != PasswordChanged ==> res.1 == users
  {
    if !(Truthy(body.currentPassword) && Truthy(body.newPassword)) then
      (Error(ErrorResponse(400, "Validation Error", "Current password and new password are required.")), users)
    else if !comparePassword(body.currentPassword.value, me.password) then
      (Error(ErrorResponse(401, "Authentication Failed", "Current password is incorrect.")), users)
    else
      (PasswordChanged, users[me.id - 1 := me.(password := body.newPassword.value)])
  }

  // ---------------------------------------------------------------- lemmas

  /** On a consistent table an empty profile update always succeeds and changes nothing. */
  lemma UpdateProfileEmptyBody(users: seq<User>, me: User, body: ProfileBody)
    requires StoreInvariant(users) && 1 <= me.id <= |users| && me == users[me.id - 1]
    requires !Truthy(body.username) && !Truthy(body.email)
    ensures UpdateProfile(users, me, body) == (Profile(me), users)
  {
    forall i | 0 <= i < |users| && i != me.id - 1
      ensures users[i].username != me.username && users[i].email != me.email
    {
      if i < me.id - 1 {
        assert users[i].email != users[me.id - 1].email && users[i].username != users[me.id - 1].username;
      } else {
        assert users[me.id - 1].email != users[i].email && users[me.id - 1].username != users[i].username;
      }
    }
  }

  /** Registering keeps ids in step with positions and emails and usernames unique. */
  lemma RegisterKeepsInvariant(users: seq<User>, body: RegisterBody, caller: Option<User>, env: Env)
    requires StoreInvariant(users)
    ensures StoreInvariant(RegisterAs(users, body, caller, env).1)
  {
    var users' := RegisterAs(users, body, caller, env).1;
    if users' != users {
      var u := users'[|users|];
      assert !Taken(users, u.username, u.email);
      forall i, j | 0 <= i < j < |users'|
        ensures users'[i].email != users'[j].email && users'[i].username != users'[j].username
      {
        if j == |users| {
          assert users'[i] == users[i] && users[i] in users;
        } else {
          assert users'[i] == users[i] && users'[j] == users[j];
        }
      }
    }
  }

  /** A profile update of the stored `me` keeps the table consistent. */
  lemma UpdateProfileKeepsInvariant(users: seq<User>, me: User, body: ProfileBody)
    requires 1 <= me.id <= |users| && me == users[me.id - 1]
    requires StoreInvariant(users)
    ensures StoreInvariant(UpdateProfile(users, me, body).1)
  {
    var res := UpdateProfile(users, me, body);
    if res.0.Profile? {
      var users' := res.1;
      var k := me.id - 1;
      assert !ClashesWithOther(users, me, users'[k].username, users'[k].email);
      forall i, j | 0 <= i < j < |users'|
        ensures users'[i].email != users'[j].email && users'[i].username != users'[j].username
      {
        if i == k {
          assert users'[j] == users[j];
        } else if j == k {
          assert users'[i] == users[i];
        } else {
          assert users'[i] == users[i] && users'[j] == users[j];
        }
      }
    }
  }

  /** A password change of the stored `me` keeps the table consistent. */
  lemma ChangePasswordKeepsInvariant(users: seq<User>, me: User, body: PasswordBody, comparePassword: PasswordCheck)
    requires 1 <= me.id <= |users| && me == users[me.id - 1]
    requires StoreInvariant(users)
    ensures StoreInvariant(ChangePassword(users, me, body, comparePassword).1)
  {
    var res := ChangePassword(users, me, body, comparePassword);
    if res.0 == PasswordChanged {
      var users' := res.1;
      forall i | 0 <= i < |users'|
        ensures users'[i].id == users[i].id && users'[i].email == users[i].email && users'[i].username == users[i].username
      {
      }
    }
  }

  /** In a table whose ids follow positions from `base`, `findByPk` finds the user at the id's position. */
  lemma {:induction false} FindByPkAt(users: seq<User>, base: nat, id: nat)
    requires forall i :: 0 <= i < |users| ==> users[i].id == base + i
    requires base <= id < base + |users|
    ensures FindByPk(users, id) == Some(users[id - base])
    decreases |users|
  {
    if users[0].id != id {
      FindByPkAt(users[1..], base + 1, id);
    }
  }

  /** Over a consistent table, the user with a given email is found wherever it sits. */
  lemma {:induction false} FindByEmailUnique(users: seq<User>, k: nat)
    requires k < |users|
    requires forall i, j :: 0 <= i < j < |users| ==> users[i].email != users[j].email
    ensures FindByEmail(users, users[k].email) == Some(users[k])
    decreases |users|
  {
    if k > 0 {
      assert users[0].email != users[k].email;
      FindByEmailUnique(users[1..], k - 1);
    }
  }

  /**
   * The token of a successful login authenticates as the stored account: `authenticate` with
   * "Bearer <token>" hands the same user on to the next handler.
   */
  lemma LoginThenAuthenticate(users: seq<User>, body: LoginBody, env: Env, comparePassword: PasswordCheck)
    requires StoreInvariant(users) && TokenServiceSound(env.tokens)
    requires Login(users, body, env, comparePassword).LoggedIn?
    ensures var r := Login(users, body, env, comparePassword);
      Authenticate(Caller(Some("Bearer " + r.token), env, users)) == Continue(r.user)
  {
    var r := Login(users, body, env, comparePassword);
    var k :| 0 <= k < |users| && users[k] == r.user;
    FindByPkAt(users, 1, r.user.id);
    SignedTokenAuthenticates(Caller(Some("Bearer " + r.token), env, users), r.user.role, r.user);
  }

  /**
   * Registering and then logging in with the same email and password succeeds as the new user,
   * provided comparePassword accepts the password an account was created with.
   */
  lemma RegisterThenLogin(users: seq<User>, body: RegisterBody, env: Env, comparePassword: PasswordCheck)
    requires StoreInvariant(users)
    requires Register(users, body, env).0.Registered?
    requires comparePassword(body.password.value, body.password.value)
    ensures var (r, users') := Register(users, body, env);
      Login(users', LoginBody(body.email, body.password), env, comparePassword) == LoggedIn(r.user, r.token)
  {
    var (r, users') := Register(users, body, env);
    RegisterKeepsInvariant(users, body, None, env);
    FindByEmailUnique(users', |users|);
  }

  /** A failed password change leaves the stored password as it was. */
  lemma WrongPasswordKeepsPassword(users: seq<User>, me: User, body: PasswordBody, comparePassword: PasswordCheck)
    requires 1 <= me.id <= |users|
    requires body.currentPassword.Some? && !comparePassword(body.currentPassword.value, me.password)
    ensures ChangePassword(users, me, body, comparePassword).1 == users
  {
  }

  // ---------------------------------------------------------------- the store

  class UserStore {
    var users: seq<User>

    ghost predicate Valid()
      reads this
    {
      StoreInvariant(users)
    }

    constructor ()
      ensures Valid() && users == []
    {
      users := [];
    }

    /** POST /register: inserts the new account, even when signing its token then fails. */
    method PostRegister(body: RegisterBody, env: Env) returns (r: AuthReply)
      requires Valid()
      modifies this
      ensures Valid()
      ensures (r, users) == Register(old(users), body, env)
    {
      RegisterKeepsInvariant(users, body, None, env);
      if !Complete(body) {
        return Error(ErrorResponse(400, "Validation Error", "Username, email, and password are required."));
      }
      if Taken(users, body.username.value, body.email.value) {
        return Error(ErrorResponse(409, "Conflict", "User with this email or username already exists."));
      }
      var user := User(|users| + 1, body.username.value, body.email.value, body.password.value, Analyst, true);
      users := users + [user];
      if !env.jwtSecretSet {
        return Error(SecretMissing);
      }
      r := Registered(user, env.tokens.sign(Claims(user.id, user.role)));
    }

    /** POST /login: reads the table only. */
    method PostLogin(body: LoginBody, env: Env, comparePassword: PasswordCheck) returns (r: AuthReply)
      ensures r == Login(users, body, env, comparePassword)
      ensures r.LoggedIn? ==> r.user in users
    {
      r := Login(users, body, env, comparePassword);
    }

    /** GET /me: the authenticated user. */
    method GetMe(authorization: Option<string>, env: Env) returns (r: AuthReply)
      ensures var a := Authenticate(Caller(authorization, env, users));
        r == if a.Continue? then Profile(a.user) else Error(a.err)
    {
      var a := Authenticate(Caller(authorization, env, users));
      if a.Continue? {
        r := Profile(a.user);
      } else {
        r := Error(a.err);
      }
    }

    /** PUT /me: authenticate, then `req.user.update(updates)`. */
    method PutMe(authorization: Option<string>, env: Env, body: ProfileBody) returns (r: AuthReply)
      requires Valid()
      modifies this
      ensures Valid()
      ensures var a := Authenticate(Caller(authorization, env, old(users)));
        && (a.Reject? ==> r == Error(a.err) && users == old(users))
        && (a.Continue? ==> 1 <= a.user.id <= |old(users)| && (r, users) == UpdateProfile(old(users), a.user, body))
    {
      var a := Authenticate(Caller(authorization, env, users));
      if a.Reject? {
        return Error(a.err);
      }
      FindByPkAt(users, 1, a.user.id);
      r := UpdateMe(a.user, body);
    }

    /** The handler of PUT /me, once `authenticate` has loaded `me` from the table. */
    method UpdateMe(me: User, body: ProfileBody) returns (r: AuthReply)
      requires Valid() && 1 <= me.id <= |users| && me == users[me.id - 1]
      modifies this
      ensures Valid()
      ensures (r, users) == UpdateProfile(old(users), me, body)
    {
      UpdateProfileKeepsInvariant(users, me, body);
      var username := if Truthy(body.username) then body.username.value else me.username;
      var email := if Truthy(body.email) then body.email.value else me.email;
      if ClashesWithOther(users, me, username, email) {
        return Error(Handle(UniqueConstraintError()));
      }
      var updated := me.(username := username, email := email);
      users := users[me.id - 1 := updated];
      r := Profile(updated);
    }

    /** PUT /change-password: authenticate, check the current password, store the new one. */
    method PutChangePassword(authorization: Option<string>, env: Env, body: PasswordBody, comparePassword: PasswordCheck)
      returns (r: AuthReply)
      requires Valid()
      modifies this
      ensures Valid()
      ensures var a := Authenticate(Caller(authorization, env, old(users)));
        && (a.Reject? ==> r == Error(a.err) && users == old(users))
        && (a.Continue? ==>
              1 <= a.user.id <= |old(users)| && (r, users) == ChangePassword(old(users), a.user, body, comparePassword))
    {
      var a := Authenticate(Caller(authorization, env, users));
      if a.Reject? {
        return Error(a.err);
      }
      FindByPkAt(users, 1, a.user.id);
      r := ChangeMyPassword(a.user, body, comparePassword);
    }

    /** The handler of PUT /change-password, once `authenticate` has loaded `me` from the table. */
    method ChangeMyPassword(me: User, body: PasswordBody, comparePassword: PasswordCheck) returns (r: AuthReply)
      requires Valid() && 1 <= me.id <= |users| && me == users[me.id - 1]
      modifies this
      ensures Valid()
      ensures (r, users) == ChangePassword(old(users), me, body, comparePassword)
    {
      ChangePasswordKeepsInvariant(users, me, body, comparePassword);
      if !(Truthy(body.currentPassword) && Truthy(body.newPassword)) {
        return Error(ErrorResponse(400, "Validation Error", "Current password and new password are required."));
      }
      if !comparePassword(body.currentPassword.value, me.password) {
        return Error(ErrorResponse(401, "Authentication Failed", "Current password is incorrect."));
      }
      users := users[me.id - 1 := me.(password := body.newPassword.value)];
      r := PasswordChanged;
    }
  }
}
