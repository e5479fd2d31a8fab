/**
 * The users service: cache-aside reads under `users:<id>` and
 * `users:page=<p>:limit=<l>`, the uncached lookup by email, unique emails,
 * the password pair rule on update, and invalidation of `users*` on every
 * write it makes itself. Hashing is the parameter `hash`.
 */
module UsersService {
  import opened Wrappers
  import opened Text
  import opened HttpErrors
  import opened Entities
  import opened Repository
  import opened RedisStore
  import opened CacheKeys
  import opened CacheAside
  import opened Pagination
  import opened Backend
  import opened PasswordRule

  function NotFoundMessage(id: int): string {
    "User with id " + IntToString(id) + " not found"
  }

  function EmailNotFoundMessage(email: string): string {
    "User with email " + email + " not found"
  }

  function EmailTakenMessage(email: string): string {
    "User with email " + email + " already exists"
  }

  function Wrap(row: Row<Account>): Json {
    UserDoc(row)
  }

  function WrapPage(p: Page<Row<Account>>): Json {
    UserPageDoc(p)
  }

  function Load(t: Table<Account>, id: int): (r: Option<Row<Account>>)
    ensures r.Some? <==> Has(t, id)
    ensures r.Some? ==> r.value == Row(id, Find(t, id).value)
  {
    match Find(t, id)
    case None => None
    case Some(a) => Some(Row(id, a))
  }

  /** `findOne(id)`: only the cache may change, and a failure changes nothing. */
  function FindOne(w: World, id: int): (s: Step<Row<Account>>)
    ensures s.world.(cache := w.cache) == w
    ensures s.result.Failure? ==> s.world == w && s.result.error == NotFound(NotFoundMessage(id))
    ensures Cached(w.cache, EntityKey(USERS, id), UserOf).Some? ==>
              s == Step(w, Success(Cached(w.cache, EntityKey(USERS, id), UserOf).value))
    ensures Cached(w.cache, EntityKey(USERS, id), UserOf).None? ==>
              (s.result.Success? <==> Has(w.users, id)) &&
              (s.result.Success? ==> s.result.value == Row(id, Find(w.users, id).value))
  {
    var r := ReadThrough(w.cache, EntityKey(USERS, id), UserOf, Wrap, Load(w.users, id), NotFound(NotFoundMessage(id)));
    Step(w.(cache := r.cache), r.result)
  }

  /**
   * While the users' documents are coherent, `findOne` answers exactly what
   * the table holds, hit or miss; it never makes any document stale.
   */
  lemma {:induction false} FindOneTransparent(w: World, id: int, stale: set<string>)
    requires CoherentExcept(w, stale)
    ensures CoherentExcept(FindOne(w, id).world, stale)
    ensures USERS !in stale ==>
              FindOne(w, id).result ==
                if Has(w.users, id) then Success(Row(id, Find(w.users, id).value))
                else Failure(NotFound(NotFoundMessage(id)))
  {
    var key := EntityKey(USERS, id);
    match Cached(w.cache, key, UserOf)
    case Some(row) =>
      if USERS !in stale {
        EntityKeyOutside(USERS, id, stale);
        assert Agrees(w, key, UserDoc(row));
        EntityKeyInjective(USERS, row.id, id);
      }
    case None =>
      if Has(w.users, id) {
        SetKeepsCoherent(w, key, UserDoc(Row(id, Find(w.users, id).value)), stale);
      }
  }

  /** A user as the profile route returns it: everything but the password hash. */
  datatype Profile = Profile(id: int, email: string, role: Role)

  function ProfileOf(row: Row<Account>): Profile {
    Profile(row.id, row.data.email, row.data.role)
  }

  /** `getProfile(id)`: `findOne` with the password left out. */
  function GetProfile(w: World, id: int): (s: Step<Profile>)
    ensures s.world == FindOne(w, id).world
    ensures s.result.Success? <==> FindOne(w, id).result.Success?
    ensures s.result.Failure? ==> s.result.error == NotFound(NotFoundMessage(id))
    ensures s.result.Success? ==>
              var row := FindOne(w, id).result.value;
              s.result.value.id == row.id && s.result.value.email == row.data.email && s.result.value.role == row.data.role
  {
    var found := FindOne(w, id);
    match found.result
    case Failure(e) => Step(found.world, Failure(e))
    case Success(row) => Step(found.world, Success(ProfileOf(row)))
  }

  /**
   * `findAll({ page, limit })`: the cached page, or the window of the table
   * written back. A window the database refuses throws its error and writes
   * nothing.
   */
  function FindAll(w: World, q: Query): (s: Step<Page<Row<Account>>>)
    ensures s.world.(cache := w.cache) == w
    ensures s.result.Failure? ==> s.world == w && s.result == PageOf(w.users, q)
    ensures Cached(w.cache, PageKey(USERS, q.page, q.limit), UserPageOf).Some? ==>
              s == Step(w, Success(Cached(w.cache, PageKey(USERS, q.page, q.limit), UserPageOf).value))
    ensures Cached(w.cache, PageKey(USERS, q.page, q.limit), UserPageOf).None? ==>
              s.result == PageOf(w.users, q) &&
              (s.result.Success? ==> Get(s.world.cache, PageKey(USERS, q.page, q.limit)) == Some(UserPageDoc(s.result.value)))
  {
    var r := ReadLoaded(w.cache, PageKey(USERS, q.page, q.limit), UserPageOf, WrapPage, PageOf(w.users, q));
    Step(w.(cache := r.cache), r.result)
  }

  /** While the users' documents are coherent, `findAll` answers what the table's window now is, hit or miss. */
  lemma {:induction false} FindAllTransparent(w: World, q: Query, stale: set<string>)
    requires CoherentExcept(w, stale)
    ensures CoherentExcept(FindAll(w, q).world, stale)
    ensures USERS !in stale ==> FindAll(w, q).result == PageOf(w.users, q)
  {
    var key := PageKey(USERS, q.page, q.limit);
    match Cached(w.cache, key, UserPageOf)
    case Some(p) =>
      if USERS !in stale {
        PageKeyOutside(USERS, q.page, q.limit, stale);
        assert Agrees(w, key, UserPageDoc(p));
        PageKeyInjective(USERS, p.currentPage, p.limit, q.page, q.limit);
      }
    case None =>
      if PageOf(w.users, q).Success? {
        SetKeepsCoherent(w, key, UserPageDoc(PageOf(w.users, q).value), stale);
      }
  }

  /** `existsBy({ email })`. */
  predicate EmailTaken(t: Table<Account>, email: string) {
    exists i :: 0 <= i < |t.rows| && t.rows[i].data.email == email
  }

  /** `validateEmail(email)`: the Conflict thrown when the email is in use. */
  function ValidateEmail(t: Table<Account>, email: string): (r: Outcome<()>)
    ensures r.Failure? <==> EmailTaken(t, email)
    ensures r.Failure? ==> r.error == Conflict(EmailTakenMessage(email))
  {
    if EmailTaken(t, email) then Failure(Conflict(EmailTakenMessage(email))) else Success(())
  }

  /** `findByEmail(email)`: the first row with that email, straight from the table; the cache is not read. */
  function FindByEmail(t: Table<Account>, email: string): (r: Outcome<Row<Account>>)
    ensures r.Success? <==> EmailTaken(t, email)
    ensures r.Success? ==> r.value in t.rows && r.value.data.email == email
    ensures r.Failure? ==> r.error == NotFound(EmailNotFoundMessage(email))
  {
    match FindFirst(t, (a: Account) => a.email == email)
    case None => Failure(NotFound(EmailNotFoundMessage(email)))
    case Some(row) => Success(row)
  }

  /** `create(user)`: invalidate `users*`, then insert; no check of its own. */
  function Create(w: World, account: Account): (s: Step<Row<Account>>)
    ensures s.result == Success(Row(w.users.nextId, account))
    ensures s.world.users == Insert(w.users, account).0
    ensures s.world.(users := w.users, cache := w.cache) == w
    ensures Flushed(s.world.cache, USERS)
  {
    var (t, id) := Insert(w.users, account);
    Step(Invalidate(w, USERS).(users := t), Success(Row(id, account)))
  }

  /** `create` invalidates the only namespace whose documents read the users table, so the cache stays coherent. */
  lemma {:induction false} CreateCoherent(w: World, account: Account)
    requires Coherent(w)
    ensures Coherent(Create(w, account).world)
  {
    InvalidateKeepsCoherent(w, Create(w, account).world, USERS, {});
    assert {} - {USERS} == {};
  }

  /** The fields of an update request that the service reads. */
  datatype UserChanges = UserChanges(email: Option<string>, newPassword: Option<string>, confirmPassword: Option<string>)

  /** The error an update throws after `findOne`, if any: the email check, then the pair rule. */
  function UpdateError(t: Table<Account>, a: Account, dto: UserChanges): (e: Option<HttpError>)
    ensures Renames(dto.email, a.email) && EmailTaken(t, dto.email.value) ==>
              e == Some(Conflict(EmailTakenMessage(dto.email.value)))
    ensures !(Renames(dto.email, a.email) && EmailTaken(t, dto.email.value)) ==>
              e == (if PairRule(dto.newPassword, dto.confirmPassword).Failure?
                    then Some(PairRule(dto.newPassword, dto.confirmPassword).error) else None)
  {
    if Renames(dto.email, a.email) && EmailTaken(t, dto.email.value) then Some(Conflict(EmailTakenMessage(dto.email.value)))
    else
      match PairRule(dto.newPassword, dto.confirmPassword)
      case Failure(e) => Some(e)
      case Success(_) => None
  }

  /** The account after an update that passed its checks. */
  function Apply(a: Account, dto: UserChanges, hash: string -> string): (r: Account)
    requires PairRule(dto.newPassword, dto.confirmPassword).Success?
    ensures r.email == (if Renames(dto.email, a.email) then dto.email.value else a.email)
    ensures r.password == HashAfter(a.password, PairRule(dto.newPassword, dto.confirmPassword), hash)
    ensures r.role == a.role
  {
    Account(if Renames(dto.email, a.email) then dto.email.value else a.email,
            HashAfter(a.password, PairRule(dto.newPassword, dto.confirmPassword), hash),
            a.role)
  }

  /**
   * `update(id, dto)`: `findOne`, the email check, the pair rule, then the
   * invalidation and the save. Every BadRequest and Conflict is thrown before
   * the invalidation, so it leaves the state as `findOne` left it.
   */
  function Update(w: World, id: int, dto: UserChanges, hash: string -> string): (s: Step<Row<Account>>)
    ensures FindOne(w, id).result.Failure? ==> s == FindOne(w, id)
    ensures s.result.Failure? ==> s.world == FindOne(w, id).world
    ensures FindOne(w, id).result.Success? ==>
              var found := FindOne(w, id).result.value;
              var e := UpdateError(w.users, found.data, dto);
              (e.Some? ==> s.result == Failure(e.value)) &&
              (e.None? ==> s.result == Success(Row(found.id, Apply(found.data, dto, hash))) &&
                           s.world.users == Save(w.users, found.id, Apply(found.data, dto, hash)) &&
                           s.world.(users := w.users, cache := w.cache) == w &&
                           Flushed(s.world.cache, USERS))
  {
    var found := FindOne(w, id);
    if found.result.Failure? then found
    else
      var row := found.result.value;
      match UpdateError(w.users, row.data, dto)
      case Some(e) => Step(found.world, Failure(e))
      case None =>
        var a := Apply(row.data, dto, hash);
        Step(Invalidate(found.world, USERS).(users := Save(w.users, row.id, a)), Success(Row(row.id, a)))
  }

  /** With a coherent cache, `update` stores and returns the current account with the changes applied. */
  lemma {:induction false} UpdateCoherent(w: World, id: int, dto: UserChanges, hash: string -> string)
    requires Coherent(w)
    ensures Coherent(Update(w, id, dto, hash).world)
    ensures Update(w, id, dto, hash).result.Success? ==>
              Has(w.users, id) &&
              Update(w, id, dto, hash).result.value == Row(id, Apply(Find(w.users, id).value, dto, hash)) &&
              Find(Update(w, id, dto, hash).world.users, id) == Some(Update(w, id, dto, hash).result.value.data)
  {
    FindOneTransparent(w, id, {});
    var s := Update(w, id, dto, hash);
    if s.result.Success? {
      InvalidateKeepsCoherent(FindOne(w, id).world, s.world, USERS, {});
      assert {} - {USERS} == {};
    }
  }

  /** Without either password field the stored hash is kept; with two equal ones it is the hash of the new password. */
  lemma UpdatePassword(w: World, id: int, dto: UserChanges, hash: string -> string)
    requires Update(w, id, dto, hash).result.Success?
    ensures var before := FindOne(w, id).result.value.data.password;
            var after := Update(w, id, dto, hash).result.value.data.password;
            (!Filled(dto.newPassword) && !Filled(dto.confirmPassword) ==> after == before) &&
            (Filled(dto.newPassword) ==> dto.newPassword == dto.confirmPassword && after == hash(dto.newPassword.value))
  {
  }

  /** `remove(id)`: `findOne`, delete the row, then invalidate `users*`. */
  function Remove(w: World, id: int): (s: Step<()>)
    ensures s.result.Failure? <==> FindOne(w, id).result.Failure?
    ensures s.result.Failure? ==> s == Step(FindOne(w, id).world, Failure(FindOne(w, id).result.error))
    ensures s.result.Success? ==>
              var found := FindOne(w, id).result.value;
              !Has(s.world.users, found.id) &&
              (forall k :: k != found.id ==> Find(s.world.users, k) == Find(w.users, k)) &&
              s.world.(users := w.users, cache := w.cache) == w &&
              Flushed(s.world.cache, USERS)
  {
    var found := FindOne(w, id);
    if found.result.Failure? then Step(found.world, Failure(found.result.error))
    else
      var w1 := found.world.(users := Delete(w.users, found.result.value.id));
      Step(Invalidate(w1, USERS), Success(()))
  }

  lemma {:induction false} RemoveCoherent(w: World, id: int)
    requires Coherent(w)
    ensures Coherent(Remove(w, id).world)
    ensures Remove(w, id).result.Success? <==> Has(w.users, id)
    ensures Remove(w, id).result.Success? ==> !Has(Remove(w, id).world.users, id)
  {
    FindOneTransparent(w, id, {});
    var s := Remove(w, id);
    if s.result.Success? {
      InvalidateKeepsCoherent(FindOne(w, id).world, s.world, USERS, {});
      assert {} - {USERS} == {};
    }
  }

  /** `save(user)`: an upsert of the row, with no invalidation. */
  function SaveAccount(w: World, row: Row<Account>): (w2: World)
    ensures Find(w2.users, row.id) == Some(row.data)
    ensures forall k :: k != row.id ==> Find(w2.users, k) == Find(w.users, k)
    ensures w2.(users := w.users) == w
  {
    w.(users := Save(w.users, row.id, row.data))
  }
}
