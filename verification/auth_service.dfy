/**
 * The auth service: registration with the admin-by-email rule, login with
 * every credential failure collapsed into one 401, and the password reset.
 * Hashing, hash comparison and token signing are the parameters `hash`,
 * `compare` and `sign`. The reset saves the account without invalidating
 * `users*`; it is modelled both as written and with the invalidation every
 * other account write makes.
 */
module AuthService {
  import opened Wrappers
  import opened Text
  import opened HttpErrors
  import opened Entities
  import opened Repository
  import opened RedisStore
  import opened CacheKeys
  import opened CacheAside
  import opened Backend
  import opened PasswordRule
  import opened DtoValidation
  import opened RoutePolicy
  import opened Guards
  import Users = UsersService

  const INVALID_CREDENTIALS := "Invalid credentials. Email or password are incorrect"
  const LOGGED_IN := "User logged in successfully"
  const RESET_DONE := "Password reset successfully"

  /** `configService.get('ADMIN_SECRET_KEY', '')`. */
  function AdminSecret(configured: Option<string>): (secret: string)
    ensures configured.Some? ==> secret == configured.value
    ensures configured.None? ==> secret == ""
  {
    configured.GetOr("")
  }

  /** The role a registration gets. */
  function RoleFor(email: string, secret: string): (r: Role)
    ensures r == Admin <==> email == secret
  {
    if email == secret then Admin else User
  }

  /** With no secret configured, no accepted registration is an ADMIN: the empty email that would match is rejected. */
  lemma NoSecretNoAdmin(b: UserBody, isEmail: string -> bool)
    requires Report(UserChecks(b, isEmail)) == []
    ensures RoleFor(b.email.value, AdminSecret(None)) == User
  {
    UserAccepted(b, isEmail);
  }

  datatype AuthData = AuthData(accessToken: string, user: Users.Profile)

  datatype AuthResponse = AuthResponse(status: string, message: string, data: Option<AuthData>)

  /** `generateAuthResponse(user)`: a token over `{sub, email, role}`, and the user without its password. */
  function Respond(row: Row<Account>, sign: Payload -> string): (r: AuthResponse)
    ensures r.status == "SUCCESS" && r.message == LOGGED_IN && r.data.Some?
    ensures r.data.value.accessToken == sign(Payload(row.id, row.data.email, row.data.role))
    ensures r.data.value.user == Users.Profile(row.id, row.data.email, row.data.role)
  {
    AuthResponse("SUCCESS", LOGGED_IN, Some(AuthData(sign(Payload(row.id, row.data.email, row.data.role)), Users.ProfileOf(row))))
  }

  /**
   * When the verifier opens what the signer seals, the token of a response
   * admits its bearer to every authenticated route without roles, and the
   * request's user is the user the response returned.
   */
  lemma {:induction false} ResponseTokenAdmits(row: Row<Account>, sign: Payload -> string, verify: string -> Option<Payload>)
    requires forall p :: verify(sign(p)) == Some(p)
    requires ' ' !in sign(Payload(row.id, row.data.email, row.data.role)) && sign(Payload(row.id, row.data.email, row.data.role)) != ""
    ensures var token := Respond(row, sign).data.value.accessToken;
            var user := Respond(row, sign).data.value.user;
            Gate(Policy(false, None), Some(BEARER + " " + token), verify) == Allowed(Some(Payload(user.id, user.email, user.role)))
  {
    var token := sign(Payload(row.id, row.data.email, row.data.role));
    ExtractTokenComplete(token, "");
    assert BEARER + " " + token + "" == BEARER + " " + token;
  }

  /** The registration fields the service reads. */
  datatype Registration = Registration(email: string, password: string)

  /**
   * `register(dto)`: the email check, then the hash and the role, then the
   * users service's `create`, then the response. `secret` is the configured
   * admin secret.
   */
  function Register(w: World, dto: Registration, secret: string, hash: string -> string, sign: Payload -> string)
    : (s: Step<AuthResponse>)
    ensures s.result.Failure? <==> Users.EmailTaken(w.users, dto.email)
    ensures s.result.Failure? ==> s == Step(w, Failure(Conflict(Users.EmailTakenMessage(dto.email))))
    ensures s.result.Success? ==>
              var account := Account(dto.email, hash(dto.password), RoleFor(dto.email, secret));
              s.world == Users.Create(w, account).world &&
              s.result.value == Respond(Row(w.users.nextId, account), sign)
  {
    match Users.ValidateEmail(w.users, dto.email)
    case Failure(e) => Step(w, Failure(e))
    case Success(_) =>
      var created := Users.Create(w, Account(dto.email, hash(dto.password), RoleFor(dto.email, secret)));
      Step(created.world, Success(Respond(created.result.value, sign)))
  }

  /**
   * `login(dto)`: the account found by email, then the password comparison.
   * An unknown email and a wrong password give the same 401; nothing changes.
   */
  function Login(t: Table<Account>, email: string, password: string, compare: (string, string) -> bool, sign: Payload -> string)
    : (r: Outcome<AuthResponse>)
    ensures r.Failure? ==> r.error == Unauthorized(INVALID_CREDENTIALS)
    ensures r.Success? <==>
              Users.FindByEmail(t, email).Success? && compare(password, Users.FindByEmail(t, email).value.data.password)
    ensures r.Success? ==> r.value == Respond(Users.FindByEmail(t, email).value, sign)
  {
    match Users.FindByEmail(t, email)
    case Failure(_) => Failure(Unauthorized(INVALID_CREDENTIALS))
    case Success(row) =>
      if compare(password, row.data.password) then Success(Respond(row, sign))
      else Failure(Unauthorized(INVALID_CREDENTIALS))
  }

  /**
   * When the comparison accepts a password against its own hash, a
   * registration is followed by a login with the same credentials that
   * answers the same user, and the cache stays coherent.
   */
  lemma {:induction false} RegisterThenLogin(w: World, dto: Registration, secret: string, hash: string -> string,
                                             compare: (string, string) -> bool, sign: Payload -> string)
    requires Coherent(w)
    requires forall p :: compare(p, hash(p))
    requires Register(w, dto, secret, hash, sign).result.Success?
    ensures Coherent(Register(w, dto, secret, hash, sign).world)
    ensures Login(Register(w, dto, secret, hash, sign).world.users, dto.email, dto.password, compare, sign) ==
              Register(w, dto, secret, hash, sign).result
  {
    var account := Account(dto.email, hash(dto.password), RoleFor(dto.email, secret));
    Users.CreateCoherent(w, account);
    var t := Insert(w.users, account).0;
    assert t.rows[|w.users.rows|] == Row(w.users.nextId, account);
    assert Users.EmailTaken(t, dto.email);
  }

  /** `requestPasswordReset(dto)`: only the lookup by email; nothing changes. */
  function RequestPasswordReset(t: Table<Account>, email: string): (r: Outcome<()>)
    ensures r.Success? <==> Users.EmailTaken(t, email)
    ensures r.Failure? ==> r.error == NotFound(Users.EmailNotFoundMessage(email))
  {
    match Users.FindByEmail(t, email)
    case Failure(e) => Failure(e)
    case Success(_) => Success(())
  }

  /** The reset fields the service reads. */
  datatype ResetRequest = ResetRequest(email: string, newPassword: Option<string>, confirmPassword: Option<string>)

  /** The account a reset saves: the pair rule's password hashed in, or the account unchanged. */
  function ResetAccount(row: Row<Account>, dto: ResetRequest, hash: string -> string): (a: Row<Account>)
    requires PairRule(dto.newPassword, dto.confirmPassword).Success?
    ensures a.id == row.id && a.data.email == row.data.email && a.data.role == row.data.role
    ensures a.data.password == HashAfter(row.data.password, PairRule(dto.newPassword, dto.confirmPassword), hash)
  {
    Row(row.id, row.data.(password := HashAfter(row.data.password, PairRule(dto.newPassword, dto.confirmPassword), hash)))
  }

  /**
   * `resetPassword(dto)` as written: the lookup by email, the pair rule, then
   * `usersService.save`, a plain upsert that leaves the cache alone. A reset
   * without either password still saves and succeeds.
   */
  function ResetPassword(w: World, dto: ResetRequest, hash: string -> string): (s: Step<AuthResponse>)
    ensures !Users.EmailTaken(w.users, dto.email) ==> s == Step(w, Failure(NotFound(Users.EmailNotFoundMessage(dto.email))))
    ensures Users.EmailTaken(w.users, dto.email) && PairRule(dto.newPassword, dto.confirmPassword).Failure? ==>
              s == Step(w, Failure(PairRule(dto.newPassword, dto.confirmPassword).error))
    ensures s.result.Success? <==> Users.EmailTaken(w.users, dto.email) && PairRule(dto.newPassword, dto.confirmPassword).Success?
    ensures s.result.Success? ==>
              s.result.value == AuthResponse("SUCCESS", RESET_DONE, None) &&
              s.world == Users.SaveAccount(w, ResetAccount(Users.FindByEmail(w.users, dto.email).value, dto, hash)) &&
              s.world.cache == w.cache
  {
    match Users.FindByEmail(w.users, dto.email)
    case Failure(e) => Step(w, Failure(e))
    case Success(row) =>
      match PairRule(dto.newPassword, dto.confirmPassword)
      case Failure(e) => Step(w, Failure(e))
      case Success(_) => Step(Users.SaveAccount(w, ResetAccount(row, dto, hash)), Success(AuthResponse("SUCCESS", RESET_DONE, None)))
  }

  /**
   * The discrepancy of the reset: when the account's `users:<id>` document is
   * cached and the new hash differs from the stored one, the cache is no
   * longer coherent, `findOne` still answers the old hash, and a later update
   * with an empty body writes the old hash back.
   */
  lemma {:induction false} ResetLeavesStaleCopy(w: World, dto: ResetRequest, hash: string -> string)
    requires Coherent(w) && Valid(w.users)
    requires Users.FindByEmail(w.users, dto.email).Success?
    requires Cached(w.cache, EntityKey(USERS, Users.FindByEmail(w.users, dto.email).value.id), UserOf).Some?
    requires Filled(dto.newPassword) && dto.confirmPassword == dto.newPassword
    requires hash(dto.newPassword.value) != Users.FindByEmail(w.users, dto.email).value.data.password
    ensures var row := Users.FindByEmail(w.users, dto.email).value;
            var after := ResetPassword(w, dto, hash).world;
            !Coherent(after) &&
            Find(after.users, row.id).value.password == hash(dto.newPassword.value) &&
            Users.FindOne(after, row.id).result == Success(row) &&
            Find(Users.Update(after, row.id, Users.UserChanges(None, None, None), hash).world.users, row.id) == Some(row.data)
  {
    var row := Users.FindByEmail(w.users, dto.email).value;
    var key := EntityKey(USERS, row.id);
    var cached := Cached(w.cache, key, UserOf).value;
    assert Agrees(w, key, UserDoc(cached));
    EntityKeyInjective(USERS, cached.id, row.id);
    assert cached == row;
    var after := ResetPassword(w, dto, hash).world;
    assert !Agrees(after, key, after.cache.entries[key].raw.value);
  }

  /** `resetPassword(dto)` as intended: `users*` is invalidated before the save, as every other account write does. */
  function ResetPasswordInvalidating(w: World, dto: ResetRequest, hash: string -> string): (s: Step<AuthResponse>)
    ensures s.result == ResetPassword(w, dto, hash).result
    ensures s.result.Failure? ==> s.world == w
    ensures s.result.Success? ==>
              s.world.users == ResetPassword(w, dto, hash).world.users &&
              s.world.(users := w.users, cache := w.cache) == w &&
              Flushed(s.world.cache, USERS)
  {
    match Users.FindByEmail(w.users, dto.email)
    case Failure(e) => Step(w, Failure(e))
    case Success(row) =>
      match PairRule(dto.newPassword, dto.confirmPassword)
      case Failure(e) => Step(w, Failure(e))
      case Success(_) =>
        Step(Users.SaveAccount(Invalidate(w, USERS), ResetAccount(row, dto, hash)), Success(AuthResponse("SUCCESS", RESET_DONE, None)))
  }

  /**
   * The corrected reset keeps the cache coherent, so the next `findOne`
   * answers the account with its new hash.
   */
  lemma {:induction false} ResetCoherent(w: World, dto: ResetRequest, hash: string -> string)
    requires Coherent(w)
    ensures Coherent(ResetPasswordInvalidating(w, dto, hash).world)
    ensures ResetPasswordInvalidating(w, dto, hash).result.Success? ==>
              var row := Users.FindByEmail(w.users, dto.email).value;
              var after := ResetPasswordInvalidating(w, dto, hash).world;
              Users.FindOne(after, row.id).result == Success(ResetAccount(row, dto, hash))
  {
    var s := ResetPasswordInvalidating(w, dto, hash);
    if s.result.Success? {
      InvalidateKeepsCoherent(w, s.world, USERS, {});
      assert {} - {USERS} == {};
      var row := Users.FindByEmail(w.users, dto.email).value;
      Users.FindOneTransparent(s.world, row.id, {});
    }
  }

  /** A reset body that passed validation always carries both passwords, so the "provided together" error cannot arise from it. */
  lemma ValidatedResetComplete(b: ResetBody, isEmail: string -> bool)
    requires Report(ResetChecks(b, isEmail)) == []
    ensures PairRule(b.newPassword, b.confirmPassword) != Failure(BadRequest(NOT_TOGETHER))
    ensures PairRule(b.newPassword, b.confirmPassword).Success? <==> b.newPassword == b.confirmPassword
  {
    ResetAccepted(b, isEmail);
  }
}
