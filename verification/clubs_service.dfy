/**
 * The clubs service: cache-aside reads under `clubs:<id>` and
 * `clubs:page=<p>:limit=<l>`, unique names, partial updates, membership of
 * players, and invalidation of `clubs*` on every write. Saving a club with its
 * `players` list sets each listed player's club and clears it for former
 * members, as a one-to-many relation is saved. A country document lists the
 * country's clubs and players, and nothing here invalidates `countries*`, so
 * every write may leave the countries' documents stale.
 */
module ClubsService {
  import opened Wrappers
  import opened Text
  import opened HttpErrors
  import opened Entities
  import opened Repository
  import opened RedisStore
  import opened CacheKeys
  import opened CacheAside
  import opened Pagination
  import opened Backend
  import Countries = CountriesService

  function NotFoundMessage(id: int): string {
    "Club with id " + IntToString(id) + " does not exist"
  }

  function NameTakenMessage(name: string): string {
    "Club with name " + name + " already exists"
  }

  function PlayerNotFoundMessage(playerId: int): string {
    "Player with ID " + IntToString(playerId) + " not found"
  }

  function AlreadyMemberMessage(playerId: int, clubId: int): string {
    "Player with ID " + IntToString(playerId) + " already exists in the club with ID " + IntToString(clubId)
  }

  /** PostgreSQL's refusal to delete a club row that a player row still references. */
  const CLUB_IN_USE_MESSAGE := "update or delete on table \"clubs\" violates foreign key constraint on table \"players\""

  function NotMemberMessage(playerId: int, clubId: int): string {
    "Player with ID " + IntToString(playerId) + " does not exist in the club with ID " + IntToString(clubId)
  }

  function Wrap(v: ClubView): Json {
    ClubDoc(v)
  }

  function WrapPage(p: Page<ClubView>): Json {
    ClubPageDoc(p)
  }

  /**
   * `findOne(id)`: the cached document, or the club loaded with its country,
   * players, their nationalities and its competitions, written back. Only the
   * cache may change, and a failure changes nothing.
   */
  function FindOne(w: World, id: int): (s: Step<ClubView>)
    ensures s.world.(cache := w.cache) == w
    ensures s.result.Failure? ==> s.world == w && s.result.error == NotFound(NotFoundMessage(id))
    ensures Cached(w.cache, EntityKey(CLUBS, id), ClubOf).Some? ==>
              s == Step(w, Success(Cached(w.cache, EntityKey(CLUBS, id), ClubOf).value))
    ensures Cached(w.cache, EntityKey(CLUBS, id), ClubOf).None? ==>
              (s.result.Success? <==> Has(w.clubs, id)) &&
              (s.result.Success? ==> LoadClub(DbOf(w), id) == Some(s.result.value) &&
                                     Get(s.world.cache, EntityKey(CLUBS, id)) == Some(ClubDoc(s.result.value)))
    ensures forall k :: k != EntityKey(CLUBS, id) ==> Get(s.world.cache, k) == Get(w.cache, k)
  {
    var r := ReadThrough(w.cache, EntityKey(CLUBS, id), ClubOf, Wrap, LoadClub(DbOf(w), id),
                         NotFound(NotFoundMessage(id)));
    Step(w.(cache := r.cache), r.result)
  }

  /**
   * While the clubs' documents are coherent, `findOne` answers the club as
   * the tables load it, hit or miss; it never makes any document stale.
   */
  lemma {:induction false} FindOneTransparent(w: World, id: int, stale: set<string>)
    requires CoherentExcept(w, stale)
    ensures CoherentExcept(FindOne(w, id).world, stale)
    ensures CLUBS !in stale ==>
              FindOne(w, id).result ==
                if Has(w.clubs, id) then Success(LoadClub(DbOf(w), id).value)
                else Failure(NotFound(NotFoundMessage(id)))
  {
    var key := EntityKey(CLUBS, id);
    match Cached(w.cache, key, ClubOf)
    case Some(v) =>
      if CLUBS !in stale {
        EntityKeyOutside(CLUBS, id, stale);
        assert Agrees(w, key, ClubDoc(v));
        EntityKeyInjective(CLUBS, v.id, id);
      }
    case None =>
      if Has(w.clubs, id) {
        SetKeepsCoherent(w, key, ClubDoc(LoadClub(DbOf(w), id).value), stale);
      }
  }

  /**
   * `findAll({ page, limit })`: the cached page, or the window of clubs with
   * the same relations, written back. A window the database refuses throws
   * its error and writes nothing.
   */
  function FindAll(w: World, q: Query): (s: Step<Page<ClubView>>)
    ensures s.world.(cache := w.cache) == w
    ensures s.result.Failure? ==> s.world == w && s.result == ClubPage(DbOf(w), q)
    ensures Cached(w.cache, PageKey(CLUBS, q.page, q.limit), ClubPageOf).Some? ==>
              s == Step(w, Success(Cached(w.cache, PageKey(CLUBS, q.page, q.limit), ClubPageOf).value))
    ensures Cached(w.cache, PageKey(CLUBS, q.page, q.limit), ClubPageOf).None? ==>
              s.result == ClubPage(DbOf(w), q) &&
              (s.result.Success? ==> Get(s.world.cache, PageKey(CLUBS, q.page, q.limit)) == Some(ClubPageDoc(s.result.value)))
  {
    var r := ReadLoaded(w.cache, PageKey(CLUBS, q.page, q.limit), ClubPageOf, WrapPage, ClubPage(DbOf(w), q));
    Step(w.(cache := r.cache), r.result)
  }

  /** While the clubs' documents are coherent, `findAll` answers what the window of clubs now loads, hit or miss. */
  lemma {:induction false} FindAllTransparent(w: World, q: Query, stale: set<string>)
    requires CoherentExcept(w, stale)
    ensures CoherentExcept(FindAll(w, q).world, stale)
    ensures CLUBS !in stale ==> FindAll(w, q).result == ClubPage(DbOf(w), q)
  {
    var key := PageKey(CLUBS, q.page, q.limit);
    match Cached(w.cache, key, ClubPageOf)
    case Some(p) =>
      if CLUBS !in stale {
        PageKeyOutside(CLUBS, q.page, q.limit, stale);
        assert Agrees(w, key, ClubPageDoc(p));
        PageKeyInjective(CLUBS, p.currentPage, p.limit, q.page, q.limit);
      }
    case None =>
      if ClubPage(DbOf(w), q).Success? {
        SetKeepsCoherent(w, key, ClubPageDoc(ClubPage(DbOf(w), q).value), stale);
      }
  }

  /** `existsBy({ name })`. */
  predicate NameTaken(t: Table<Club>, name: string) {
    exists i :: 0 <= i < |t.rows| && t.rows[i].data.name == name
  }

  /**
   * The players table after saving club `clubId` with the list `members`:
   * listed players point at the club, former members not listed point nowhere,
   * and every other row is untouched.
   */
  function SyncMembers(players: Table<Player>, clubId: int, members: seq<int>): (r: Table<Player>)
    ensures r.nextId == players.nextId && |r.rows| == |players.rows|
    ensures forall i :: 0 <= i < |r.rows| ==>
              r.rows[i].id == players.rows[i].id &&
              r.rows[i].data == players.rows[i].data.(clubId := r.rows[i].data.clubId) &&
              (r.rows[i].data.clubId == Some(clubId) <==> players.rows[i].id in members)
    ensures forall i :: 0 <= i < |r.rows| && players.rows[i].id !in members && players.rows[i].data.clubId != Some(clubId) ==>
              r.rows[i] == players.rows[i]
  {
    Table(seq(|players.rows|, i requires 0 <= i < |players.rows| =>
                var row := players.rows[i];
                if row.id in members then Row(row.id, row.data.(clubId := Some(clubId)))
                else if row.data.clubId == Some(clubId) then Row(row.id, row.data.(clubId := None))
                else row),
          players.nextId)
  }

  /** After the save, the club's members are exactly the listed ids that name a player. */
  lemma MembersAfterSync(players: Table<Player>, clubId: int, members: seq<int>)
    ensures forall id :: id in Members(SyncMembers(players, clubId, members).rows, clubId) <==>
              id in members && Has(players, id)
  {
    var r := SyncMembers(players, clubId, members);
    forall id ensures id in Members(r.rows, clubId) <==> id in members && Has(players, id) {
      if id in members && Has(players, id) {
        var i :| 0 <= i < |players.rows| && players.rows[i].id == id;
        assert r.rows[i].data.clubId == Some(clubId);
      }
    }
  }

  /** With distinct player ids, saving a club with its current members changes no player. */
  lemma {:induction false} SyncCurrentMembers(players: Table<Player>, clubId: int)
    requires Valid(players)
    ensures SyncMembers(players, clubId, Members(players.rows, clubId)) == players
  {
    var m := Members(players.rows, clubId);
    var r := SyncMembers(players, clubId, m);
    forall i | 0 <= i < |players.rows| ensures r.rows[i] == players.rows[i] {
      if players.rows[i].id in m {
        var j :| 0 <= j < |players.rows| && players.rows[j].id == players.rows[i].id &&
                 players.rows[j].data.clubId == Some(clubId);
        assert i == j;
      }
    }
    assert r.rows == players.rows;
  }

  /** `clubsRepository.save(club)` for a club view with its `players` list. */
  function SaveClub(w: World, v: ClubView): (w2: World)
    ensures Find(w2.clubs, v.id) == Some(v.club)
    ensures forall k :: k != v.id ==> Find(w2.clubs, k) == Find(w.clubs, k)
    ensures w2.players == SyncMembers(w.players, v.id, PlayerIds(v.players))
    ensures w2.(clubs := w.clubs, players := w.players) == w
  {
    w.(clubs := Save(w.clubs, v.id, v.club), players := SyncMembers(w.players, v.id, PlayerIds(v.players)))
  }

  /** The fields of a create request. */
  datatype ClubRequest = ClubRequest(name: string, logoUrl: string, countryId: int, establishedAt: Option<Date>)

  /**
   * `create(dto)`: the name check, then the country lookup through the
   * countries service, then the invalidation of `clubs*` and the insert.
   * `now` is the clock's reading, used when no founding date is given.
   */
  function Create(w: World, dto: ClubRequest, now: Date): (s: Step<ClubView>)
    ensures NameTaken(w.clubs, dto.name) ==> s == Step(w, Failure(Conflict(NameTakenMessage(dto.name))))
    ensures !NameTaken(w.clubs, dto.name) && Countries.FindOne(w, dto.countryId).result.Failure? ==>
              s == Step(w, Failure(NotFound(Countries.NotFoundMessage(dto.countryId))))
    ensures s.result.Success? <==> !NameTaken(w.clubs, dto.name) && Countries.FindOne(w, dto.countryId).result.Success?
    ensures s.result.Success? ==>
              var found := Countries.FindOne(w, dto.countryId);
              var country := found.result.value;
              var club := Club(dto.name, dto.logoUrl, dto.establishedAt.GetOr(now), country.id);
              s.result.value == ClubView(w.clubs.nextId, club, Some(Row(country.id, country.country)), [], []) &&
              s.world.clubs == Insert(w.clubs, club).0 &&
              s.world.(clubs := w.clubs, cache := w.cache) == w &&
              s.world.cache == Invalidate(found.world, CLUBS).cache &&
              Flushed(s.world.cache, CLUBS)
  {
    if NameTaken(w.clubs, dto.name) then Step(w, Failure(Conflict(NameTakenMessage(dto.name))))
    else
      var found := Countries.FindOne(w, dto.countryId);
      if found.result.Failure? then Step(found.world, Failure(found.result.error))
      else
        var country := found.result.value;
        var club := Club(dto.name, dto.logoUrl, dto.establishedAt.GetOr(now), country.id);
        var (t, id) := Insert(w.clubs, club);
        Step(Invalidate(found.world, CLUBS).(clubs := t),
             Success(ClubView(id, club, Some(Row(country.id, country.country)), [], [])))
  }

  /**
   * From a coherent cache, a created club points at the requested, existing
   * country. Only the countries' documents may be left stale, and settling
   * the cache restores coherence.
   */
  lemma {:induction false} CreateCoherent(w: World, dto: ClubRequest, now: Date)
    requires Coherent(w)
    ensures CoherentExcept(Create(w, dto, now).world, {COUNTRIES})
    ensures Coherent(Settle(Create(w, dto, now).world))
    ensures Create(w, dto, now).result.Success? ==>
              Has(w.countries, dto.countryId) && Create(w, dto, now).result.value.club.countryId == dto.countryId &&
              Create(w, dto, now).result.value.country == RowOf(w.countries, dto.countryId)
  {
    var s := Create(w, dto, now);
    if !NameTaken(w.clubs, dto.name) {
      Countries.FindOneTransparent(w, dto.countryId, {COUNTRIES});
      Countries.FindOneTransparent(w, dto.countryId, {});
      if s.result.Success? {
        InvalidateKeepsCoherent(Countries.FindOne(w, dto.countryId).world, s.world, CLUBS, {COUNTRIES});
      } else {
        ChangeKeepsCoherent(s.world, s.world, {}, {COUNTRIES});
      }
    } else {
      ChangeKeepsCoherent(s.world, s.world, {}, {COUNTRIES});
    }
    SettleCoherent(s.world);
  }

  /**
   * `create` looks the country up through the countries service, which
   * caches `countries:<id>`, and then invalidates only `clubs*`: the country
   * document left in the cache does not list the new club, while a load of the
   * country now would.
   */
  lemma {:induction false} CreateLeavesCountryStale(w: World, dto: ClubRequest, now: Date)
    requires Coherent(w) && Valid(w.clubs)
    requires Create(w, dto, now).result.Success?
    ensures var s := Create(w, dto, now);
            var doc := Cached(s.world.cache, EntityKey(COUNTRIES, dto.countryId), CountryOf);
            doc.Some? && LoadCountry(DbOf(s.world), dto.countryId).Some? &&
            Row(w.clubs.nextId, s.result.value.club) !in doc.value.clubs &&
            Row(w.clubs.nextId, s.result.value.club) in LoadCountry(DbOf(s.world), dto.countryId).value.clubs
  {
    var s := Create(w, dto, now);
    var cid := dto.countryId;
    var key := EntityKey(COUNTRIES, cid);
    Countries.FindOneTransparent(w, cid, {});
    var found := Countries.FindOne(w, cid);
    var before := LoadCountry(DbOf(w), cid).value;
    assert Get(found.world.cache, key) == Some(CountryDoc(before)) by {
      match Cached(w.cache, key, CountryOf)
      case Some(v) =>
        assert Agrees(w, key, CountryDoc(v));
        EntityKeyInjective(COUNTRIES, v.id, cid);
      case None =>
    }
    CountryKeySpared(found.world, cid);
    assert Cached(s.world.cache, key, CountryOf) == Some(before);
    var row := Row(w.clubs.nextId, s.result.value.club);
    LoadCountryRelations(DbOf(w), cid);
    var db2 := DbOf(s.world);
    LoadCountryRelations(db2, cid);
    assert db2.clubs.rows[|w.clubs.rows|] == row;
  }

  /** Invalidating `clubs*` leaves a country document in place. */
  lemma CountryKeySpared(w: World, id: int)
    ensures Get(Invalidate(w, CLUBS).cache, EntityKey(COUNTRIES, id)) == Get(w.cache, EntityKey(COUNTRIES, id))
  {
    var rest := ":" + IntToString(id);
    assert EntityKey(COUNTRIES, id) == COUNTRIES + rest;
    InvalidateSparesOthers(w, CLUBS, COUNTRIES, rest);
  }

  /** The fields of an update request; each may be absent. */
  datatype ClubChanges = ClubChanges(name: Option<string>, logoUrl: Option<string>, countryId: Option<int>)

  /** The club after the name and logo assignments of an update. */
  function Rename(c: Club, dto: ClubChanges): (r: Club)
    ensures r.name == (if Renames(dto.name, c.name) then dto.name.value else c.name)
    ensures r.logoUrl == (if Filled(dto.logoUrl) then dto.logoUrl.value else c.logoUrl)
    ensures r.establishedAt == c.establishedAt && r.countryId == c.countryId
  {
    c.(name := if Renames(dto.name, c.name) then dto.name.value else c.name,
       logoUrl := if Filled(dto.logoUrl) then dto.logoUrl.value else c.logoUrl)
  }

  /**
   * `update(id, dto)`: `findOne`, the name check when the name changes, the
   * country lookup when a country id is given, then the invalidation of
   * `clubs*` and the save. A failure changes no table.
   */
  function Update(w: World, id: int, dto: ClubChanges): (s: Step<ClubView>)
    ensures FindOne(w, id).result.Failure? ==> s == FindOne(w, id)
    ensures s.result.Failure? ==> s.world.(cache := w.cache) == w
    ensures FindOne(w, id).result.Success? && Renames(dto.name, FindOne(w, id).result.value.club.name) &&
            NameTaken(w.clubs, dto.name.value) ==>
              s == Step(FindOne(w, id).world, Failure(Conflict(NameTakenMessage(dto.name.value))))
    ensures s.result.Success? ==>
              var v := FindOne(w, id).result.value;
              var r := s.result.value;
              FindOne(w, id).result.Success? &&
              r.id == v.id && r.players == v.players && r.competitions == v.competitions &&
              r.club.(countryId := v.club.countryId) == Rename(v.club, dto) &&
              (!Nonzero(dto.countryId) ==> r.club.countryId == v.club.countryId && r.country == v.country) &&
              (Nonzero(dto.countryId) ==>
                 var country := Countries.FindOne(FindOne(w, id).world, dto.countryId.value);
                 country.result.Success? &&
                 r.club.countryId == country.result.value.id &&
                 r.country == Some(Row(country.result.value.id, country.result.value.country))) &&
              SaveClub(w, r).(cache := s.world.cache) == s.world &&
              Flushed(s.world.cache, CLUBS)
  {
    var found := FindOne(w, id);
    if found.result.Failure? then found
    else
      var v := found.result.value;
      if Renames(dto.name, v.club.name) && NameTaken(w.clubs, dto.name.value) then
        Step(found.world, Failure(Conflict(NameTakenMessage(dto.name.value))))
      else
        var c := Rename(v.club, dto);
        if Nonzero(dto.countryId) then
          var country := Countries.FindOne(found.world, dto.countryId.value);
          if country.result.Failure? then Step(country.world, Failure(country.result.error))
          else
            var cv := country.result.value;
            var v2 := v.(club := c.(countryId := cv.id), country := Some(Row(cv.id, cv.country)));
            Step(SaveClub(Invalidate(country.world, CLUBS), v2), Success(v2))
        else
          var v2 := v.(club := c);
          Step(SaveClub(Invalidate(found.world, CLUBS), v2), Success(v2))
  }

  /**
   * From a coherent cache, with distinct player ids, a successful update
   * stores the club it returns under the requested id, moves it to the
   * requested existing country, changes no player, and returns the club as it
   * now loads. Only the countries' documents may be left stale, and settling
   * the cache restores coherence.
   */
  lemma {:induction false} UpdateCoherent(w: World, id: int, dto: ClubChanges)
    requires Coherent(w) && Valid(w.players)
    ensures CoherentExcept(Update(w, id, dto).world, {COUNTRIES})
    ensures Coherent(Settle(Update(w, id, dto).world))
    ensures Update(w, id, dto).result.Success? ==>
              var s := Update(w, id, dto);
              Has(w.clubs, id) && s.result.value.id == id &&
              LoadClub(DbOf(s.world), id) == Some(s.result.value) &&
              s.world.players == w.players &&
              (Nonzero(dto.countryId) ==>
                 s.result.value.club.countryId == dto.countryId.value && Has(w.countries, dto.countryId.value))
  {
    var s := Update(w, id, dto);
    FindOneTransparent(w, id, {});
    FindOneTransparent(w, id, {COUNTRIES});
    var found := FindOne(w, id);
    if s.result.Success? {
      var v := found.result.value;
      SyncCurrentMembers(w.players, id);
      assert s.world.players == w.players;
      if Nonzero(dto.countryId) {
        Countries.FindOneTransparent(found.world, dto.countryId.value, {});
        Countries.FindOneTransparent(found.world, dto.countryId.value, {COUNTRIES});
        var cw := Countries.FindOne(found.world, dto.countryId.value).world;
        InvalidateKeepsCoherent(cw, s.world, CLUBS, {COUNTRIES});
      } else {
        InvalidateKeepsCoherent(found.world, s.world, CLUBS, {COUNTRIES});
      }
    } else {
      ChangeKeepsCoherent(s.world, s.world, {}, {COUNTRIES});
    }
    SettleCoherent(s.world);
  }

  /** Some player row still names `clubId` as its club. */
  predicate HasPlayers(players: Table<Player>, clubId: int) {
    exists i :: 0 <= i < |players.rows| && players.rows[i].data.clubId == Some(clubId)
  }

  /** The competitions after the join rows of `clubId` go with the club's row (`ON DELETE CASCADE`). */
  function Unlink(t: Table<Competition>, clubId: int): (r: Table<Competition>)
    ensures r.nextId == t.nextId && |r.rows| == |t.rows|
    ensures forall i :: 0 <= i < |r.rows| ==>
              r.rows[i].id == t.rows[i].id && clubId !in r.rows[i].data.clubIds &&
              r.rows[i].data.(clubIds := t.rows[i].data.clubIds) == t.rows[i].data &&
              forall y :: y != clubId ==> (y in r.rows[i].data.clubIds <==> y in t.rows[i].data.clubIds)
  {
    Table(seq(|t.rows|, i requires 0 <= i < |t.rows| =>
                Row(t.rows[i].id, t.rows[i].data.(clubIds := Without(t.rows[i].data.clubIds, clubId)))),
          t.nextId)
  }

  /**
   * `remove(id)`: `findOne`, then the delete, then the invalidation of
   * `clubs*`. The players' foreign key has no delete rule, so the database
   * refuses to delete a club that players still belong to, and the statement
   * fails before anything changes; the join rows of its competitions go with it.
   */
  function Remove(w: World, id: int): (s: Step<()>)
    ensures s.result.Failure? <==>
              FindOne(w, id).result.Failure? || HasPlayers(w.players, FindOne(w, id).result.value.id)
    ensures FindOne(w, id).result.Failure? ==> s == Step(FindOne(w, id).world, Failure(FindOne(w, id).result.error))
    ensures FindOne(w, id).result.Success? && HasPlayers(w.players, FindOne(w, id).result.value.id) ==>
              s == Step(FindOne(w, id).world, Failure(DatabaseError(FOREIGN_KEY_VIOLATION, CLUB_IN_USE_MESSAGE)))
    ensures s.result.Success? ==>
              var found := FindOne(w, id).result.value;
              !Has(s.world.clubs, found.id) &&
              (forall k :: k != found.id ==> Find(s.world.clubs, k) == Find(w.clubs, k)) &&
              s.world.competitions == Unlink(w.competitions, found.id) &&
              s.world.(clubs := w.clubs, competitions := w.competitions, cache := w.cache) == w &&
              Flushed(s.world.cache, CLUBS)
  {
    var found := FindOne(w, id);
    if found.result.Failure? then Step(found.world, Failure(found.result.error))
    else if HasPlayers(w.players, found.result.value.id) then
      Step(found.world, Failure(DatabaseError(FOREIGN_KEY_VIOLATION, CLUB_IN_USE_MESSAGE)))
    else
      var gone := found.result.value.id;
      var w1 := found.world.(clubs := Delete(w.clubs, gone), competitions := Unlink(w.competitions, gone));
      Step(Invalidate(w1, CLUBS), Success(()))
  }

  /**
   * From a coherent cache, `remove` deletes exactly the requested club, and
   * no competition lists it afterwards, unless a player still belongs to it,
   * in which case the database's refusal is returned. Only the countries'
   * documents may be left stale, and settling restores coherence.
   */
  lemma {:induction false} RemoveCoherent(w: World, id: int)
    requires Coherent(w)
    ensures CoherentExcept(Remove(w, id).world, {COUNTRIES})
    ensures Coherent(Settle(Remove(w, id).world))
    ensures Remove(w, id).result.Success? <==> Has(w.clubs, id) && !HasPlayers(w.players, id)
    ensures Has(w.clubs, id) && HasPlayers(w.players, id) ==>
              Remove(w, id).result == Failure(DatabaseError(FOREIGN_KEY_VIOLATION, CLUB_IN_USE_MESSAGE))
    ensures Remove(w, id).result.Success? ==>
              !Has(Remove(w, id).world.clubs, id) &&
              forall i :: 0 <= i < |Remove(w, id).world.competitions.rows| ==>
                id !in Remove(w, id).world.competitions.rows[i].data.clubIds
  {
    FindOneTransparent(w, id, {});
    FindOneTransparent(w, id, {COUNTRIES});
    var s := Remove(w, id);
    if s.result.Success? {
      InvalidateKeepsCoherent(FindOne(w, id).world, s.world, CLUBS, {COUNTRIES});
    } else {
      ChangeKeepsCoherent(s.world, s.world, {}, {COUNTRIES});
    }
    SettleCoherent(s.world);
  }

  /** One `create` per request, in order, stopping at the first failure. */
  function CreateEach(w: World, dtos: seq<ClubRequest>, now: Date): (s: Step<seq<ClubView>>)
    ensures s.world.users == w.users && s.world.players == w.players && s.world.competitions == w.competitions
    ensures s.world.countries == w.countries
    ensures s.result.Success? ==>
              |s.result.value| == |dtos| &&
              forall i :: 0 <= i < |dtos| ==> s.result.value[i].club.name == dtos[i].name
    decreases |dtos|
  {
    if |dtos| == 0 then Step(w, Success([]))
    else
      var first := Create(w, dtos[0], now);
      if first.result.Failure? then Step(first.world, Failure(first.result.error))
      else
        var rest := CreateEach(first.world, dtos[1..], now);
        if rest.result.Failure? then Step(rest.world, Failure(rest.result.error))
        else
          assert forall i :: 1 <= i < |dtos| ==> dtos[i] == dtos[1..][i - 1];
          Step(rest.world, Success([first.result.value] + rest.result.value))
  }

  /** Every name a successful batch creates was free before and is taken after; no taken name is freed. */
  lemma {:induction false} CreateEachTakes(w: World, dtos: seq<ClubRequest>, now: Date)
    ensures var s := CreateEach(w, dtos, now);
            s.result.Success? ==> forall i :: 0 <= i < |dtos| ==>
              !NameTaken(w.clubs, dtos[i].name) && NameTaken(s.world.clubs, dtos[i].name)
    ensures forall n :: NameTaken(w.clubs, n) ==> NameTaken(CreateEach(w, dtos, now).world.clubs, n)
    decreases |dtos|
  {
    if |dtos| > 0 {
      var first := Create(w, dtos[0], now);
      if first.result.Success? {
        TakenAfterInsert(w.clubs, first.result.value.club);
        CreateEachTakes(first.world, dtos[1..], now);
        assert forall i :: 1 <= i < |dtos| ==> dtos[i] == dtos[1..][i - 1];
      }
    }
  }

  /** A batch that creates every club had pairwise distinct names: each create takes the name the later ones need free. */
  lemma {:induction false} CreateEachDistinct(w: World, dtos: seq<ClubRequest>, now: Date)
    ensures CreateEach(w, dtos, now).result.Success? ==>
              forall i, j :: 0 <= i < j < |dtos| ==> dtos[i].name != dtos[j].name
    decreases |dtos|
  {
    if |dtos| > 0 {
      var first := Create(w, dtos[0], now);
      if first.result.Success? && CreateEach(first.world, dtos[1..], now).result.Success? {
        TakenAfterInsert(w.clubs, first.result.value.club);
        assert NameTaken(first.world.clubs, dtos[0].name);
        CreateEachTakes(first.world, dtos[1..], now);
        CreateEachDistinct(first.world, dtos[1..], now);
        assert forall i :: 1 <= i < |dtos| ==> dtos[i] == dtos[1..][i - 1];
      }
    }
  }

  /** A taken name stays taken when a row is appended. */
  lemma TakenAfterInsert(t: Table<Club>, d: Club)
    ensures NameTaken(Insert(t, d).0, d.name)
    ensures forall n :: NameTaken(t, n) ==> NameTaken(Insert(t, d).0, n)
  {
    var rows := Insert(t, d).0.rows;
    assert rows[|t.rows|].data == d;
    forall n | NameTaken(t, n) ensures NameTaken(Insert(t, d).0, n) {
      var i :| 0 <= i < |t.rows| && t.rows[i].data.name == n;
      assert rows[i] == t.rows[i];
    }
  }

  /** `createBulk(dtos)`: the creates, then one more invalidation of `clubs*`, so no club key survives even an empty batch. */
  function CreateBulk(w: World, dtos: seq<ClubRequest>, now: Date): (s: Step<seq<ClubView>>)
    ensures s.result.Success? ==> Flushed(s.world.cache, CLUBS)
    ensures s.result.Success? ==> |s.result.value| == |dtos| && forall i, j :: 0 <= i < j < |dtos| ==> dtos[i].name != dtos[j].name
    ensures s.result.Failure? ==> s == CreateEach(w, dtos, now)
  {
    var made := CreateEach(w, dtos, now);
    CreateEachDistinct(w, dtos, now);
    if made.result.Failure? then made
    else Step(Invalidate(made.world, CLUBS), made.result)
  }

  /** `findMany(ids)`: one `findOne` per id, in order, stopping at the first failure. */
  function FindMany(w: World, ids: seq<int>): (s: Step<seq<ClubView>>)
    ensures s.world.(cache := w.cache) == w
    ensures s.result.Success? ==> |s.result.value| == |ids|
    ensures s.result.Failure? ==> exists i :: 0 <= i < |ids| && s.result.error == NotFound(NotFoundMessage(ids[i]))
    decreases |ids|
  {
    if |ids| == 0 then Step(w, Success([]))
    else
      var first := FindOne(w, ids[0]);
      if first.result.Failure? then Step(first.world, Failure(first.result.error))
      else
        var rest := FindMany(first.world, ids[1..]);
        if rest.result.Failure? then
          assert forall i :: 1 <= i < |ids| ==> ids[i] == ids[1..][i - 1];
          Step(rest.world, Failure(rest.result.error))
        else Step(rest.world, Success([first.result.value] + rest.result.value))
  }

  /**
   * With a coherent cache, `findMany` succeeds exactly when every id names a
   * club, and returns those clubs as they load, in order.
   */
  lemma FindManyTransparent(w: World, ids: seq<int>)
    requires Coherent(w)
    ensures Coherent(FindMany(w, ids).world)
    ensures FindMany(w, ids).result.Success? <==> forall i :: 0 <= i < |ids| ==> Has(w.clubs, ids[i])
    ensures FindMany(w, ids).result.Success? ==> forall i :: 0 <= i < |ids| ==>
              Some(FindMany(w, ids).result.value[i]) == LoadClub(DbOf(w), ids[i])
  {
    FindManyCoherent(w, ids);
    FindManySucceeds(w, ids);
    FindManyLoads(w, ids);
  }

  /** `findMany` keeps a coherent cache coherent. */
  lemma {:induction false} FindManyCoherent(w: World, ids: seq<int>)
    requires Coherent(w)
    ensures Coherent(FindMany(w, ids).world)
    decreases |ids|
  {
    if |ids| > 0 {
      FindManyFirst(w, ids[0]);
      if FindOne(w, ids[0]).result.Success? {
        FindManyCoherent(FindOne(w, ids[0]).world, ids[1..]);
      }
    }
  }

  /** `findMany` over a coherent cache succeeds exactly when every id names a club. */
  lemma {:induction false} FindManySucceeds(w: World, ids: seq<int>)
    requires Coherent(w)
    ensures FindMany(w, ids).result.Success? <==> forall i :: 0 <= i < |ids| ==> Has(w.clubs, ids[i])
    decreases |ids|
  {
    if |ids| > 0 {
      FindManyFirst(w, ids[0]);
      if FindOne(w, ids[0]).result.Success? {
        FindManySucceeds(FindOne(w, ids[0]).world, ids[1..]);
        assert forall i :: 1 <= i < |ids| ==> ids[i] == ids[1..][i - 1];
      }
    }
  }

  /** A successful `findMany` over a coherent cache returns the clubs as they load, in order. */
  lemma {:induction false} FindManyLoads(w: World, ids: seq<int>)
    requires Coherent(w)
    ensures FindMany(w, ids).result.Success? ==> forall i :: 0 <= i < |ids| ==>
              Some(FindMany(w, ids).result.value[i]) == LoadClub(DbOf(w), ids[i])
    decreases |ids|
  {
    if |ids| > 0 {
      FindManyFirst(w, ids[0]);
      var first := FindOne(w, ids[0]);
      if first.result.Success? && FindMany(first.world, ids[1..]).result.Success? {
        FindManyLoads(first.world, ids[1..]);
        FindManyCons(w, ids);
        assert forall i :: 1 <= i < |ids| ==> ids[i] == ids[1..][i - 1];
      }
    }
  }

  /** The first `findOne` of a `findMany` over a coherent cache. */
  lemma FindManyFirst(w: World, id: int)
    requires Coherent(w)
    ensures Coherent(FindOne(w, id).world) && DbOf(FindOne(w, id).world) == DbOf(w)
    ensures FindOne(w, id).world.clubs == w.clubs
    ensures FindOne(w, id).result.Success? <==> Has(w.clubs, id)
    ensures FindOne(w, id).result.Success? ==> Some(FindOne(w, id).result.value) == LoadClub(DbOf(w), id)
  {
    FindOneTransparent(w, id, {});
  }

  /** A successful `findMany` is the first `findOne` followed by the rest. */
  lemma FindManyCons(w: World, ids: seq<int>)
    requires |ids| > 0 && FindOne(w, ids[0]).result.Success?
    requires FindMany(FindOne(w, ids[0]).world, ids[1..]).result.Success?
    ensures FindMany(w, ids).result.value ==
              [FindOne(w, ids[0]).result.value] + FindMany(FindOne(w, ids[0]).world, ids[1..]).result.value
    ensures forall i :: 1 <= i < |ids| ==>
              FindMany(w, ids).result.value[i] == FindMany(FindOne(w, ids[0]).world, ids[1..]).result.value[i - 1]
  {
    var r := FindMany(w, ids).result.value;
    var rest := FindMany(FindOne(w, ids[0]).world, ids[1..]).result.value;
    assert r == [FindOne(w, ids[0]).result.value] + rest;
    forall i | 1 <= i < |ids| ensures r[i] == rest[i - 1] { }
  }

  /** Every copy of `x` dropped, the rest kept in order: `filter((p) => p.id !== x)`. */
  function Without(ids: seq<int>, x: int): (r: seq<int>)
    ensures x !in r
    ensures forall y :: y != x ==> (y in r <==> y in ids)
    ensures |r| <= |ids|
  {
    if |ids| == 0 then []
    else if ids[0] == x then Without(ids[1..], x)
    else [ids[0]] + Without(ids[1..], x)
  }

  /** The club's `players` list with every entry of player `x` dropped, the rest kept in order. */
  function DropPlayer(ms: seq<SquadMember>, x: int): (r: seq<SquadMember>)
    ensures PlayerIds(r) == Without(PlayerIds(ms), x)
    decreases |ms|
  {
    if |ms| == 0 then []
    else
      var rest := DropPlayer(ms[1..], x);
      assert PlayerIds(ms)[1..] == PlayerIds(ms[1..]);
      if ms[0].player.id == x then rest
      else
        assert PlayerIds([ms[0]] + rest) == [ms[0].player.id] + PlayerIds(rest);
        [ms[0]] + rest
  }

  /**
   * `addPlayerToClub(clubId, playerId)`: the club, then the player; a player
   * already pointing at `clubId` is a Conflict; otherwise the player, with
   * its nationality, is appended to the club's list, `clubs*` is invalidated
   * and the club saved.
   */
  function AddPlayer(w: World, clubId: int, playerId: int): (s: Step<ClubView>)
    ensures s.result.Failure? ==> s.world == FindOne(w, clubId).world
    ensures s.result.Success? <==>
              FindOne(w, clubId).result.Success? && Has(w.players, playerId) &&
              Find(w.players, playerId).value.clubId != Some(clubId)
    ensures FindOne(w, clubId).result.Success? && !Has(w.players, playerId) ==>
              s.result == Failure(NotFound(PlayerNotFoundMessage(playerId)))
    ensures FindOne(w, clubId).result.Success? && Find(w.players, playerId) != None &&
            Find(w.players, playerId).value.clubId == Some(clubId) ==>
              s.result == Failure(Conflict(AlreadyMemberMessage(playerId, clubId)))
    ensures s.result.Success? ==>
              var v := FindOne(w, clubId).result.value;
              var p := Find(w.players, playerId).value;
              s.result.value == v.(players := v.players + [SquadMember(Row(playerId, p), RowOf(w.countries, p.nationalityId))]) &&
              s.world == SaveClub(FindOne(w, clubId).world, s.result.value).(cache := s.world.cache) &&
              s.world.(clubs := w.clubs, players := w.players, cache := w.cache) == w &&
              Flushed(s.world.cache, CLUBS)
  {
    var found := FindOne(w, clubId);
    if found.result.Failure? then found
    else
      match Find(w.players, playerId)
      case None => Step(found.world, Failure(NotFound(PlayerNotFoundMessage(playerId))))
      case Some(p) =>
        if p.clubId == Some(clubId) then Step(found.world, Failure(Conflict(AlreadyMemberMessage(playerId, clubId))))
        else
          var v := found.result.value;
          var v2 := v.(players := v.players + [SquadMember(Row(playerId, p), RowOf(w.countries, p.nationalityId))]);
          Step(SaveClub(Invalidate(found.world, CLUBS), v2), Success(v2))
  }

  /**
   * From a coherent cache, adding makes the player a member and leaves the
   * other members as they were. Only the countries' documents, which list
   * players and their clubs, may be left stale; settling restores coherence.
   */
  lemma {:induction false} AddPlayerCoherent(w: World, clubId: int, playerId: int)
    requires Coherent(w)
    ensures CoherentExcept(AddPlayer(w, clubId, playerId).world, {COUNTRIES})
    ensures Coherent(Settle(AddPlayer(w, clubId, playerId).world))
    ensures AddPlayer(w, clubId, playerId).result.Success? ==>
              var after := AddPlayer(w, clubId, playerId).world.players;
              playerId in Members(after.rows, clubId) &&
              forall id :: id in Members(after.rows, clubId) <==> id == playerId || id in Members(w.players.rows, clubId)
  {
    var s := AddPlayer(w, clubId, playerId);
    FindOneTransparent(w, clubId, {COUNTRIES});
    if s.result.Success? {
      var found := FindOne(w, clubId);
      InvalidateKeepsCoherent(found.world, s.world, CLUBS, {COUNTRIES});
      AddPlayerMembers(w, clubId, playerId);
    }
    SettleCoherent(s.world);
  }

  /** The members after a successful `addPlayerToClub` from a coherent cache. */
  lemma {:induction false} AddPlayerMembers(w: World, clubId: int, playerId: int)
    requires Coherent(w) && AddPlayer(w, clubId, playerId).result.Success?
    ensures var after := AddPlayer(w, clubId, playerId).world.players;
            forall id :: id in Members(after.rows, clubId) <==> id == playerId || id in Members(w.players.rows, clubId)
  {
    AddPlayerSaves(w, clubId, playerId);
    FindOneTransparent(w, clubId, {});
    assert PlayerIds(FindOne(w, clubId).result.value.players) == Members(w.players.rows, clubId);
    SyncAddsMember(w.players, clubId, playerId);
  }

  /** A successful `addPlayerToClub` saves the club's loaded players list with the player appended. */
  lemma {:induction false} AddPlayerSaves(w: World, clubId: int, playerId: int)
    requires Coherent(w) && AddPlayer(w, clubId, playerId).result.Success?
    ensures AddPlayer(w, clubId, playerId).world.players ==
              SyncMembers(w.players, clubId, PlayerIds(FindOne(w, clubId).result.value.players) + [playerId])
  {
    var s := AddPlayer(w, clubId, playerId);
    FindOneTransparent(w, clubId, {});
    var v := FindOne(w, clubId).result.value;
    var m := s.result.value.players[|v.players|];
    assert s.result.value.players == v.players + [m];
    assert PlayerIds(v.players + [m]) == PlayerIds(v.players) + [playerId];
  }

  /** Saving a club with its members and one more existing player makes exactly that player join. */
  lemma SyncAddsMember(players: Table<Player>, clubId: int, playerId: int)
    requires Has(players, playerId)
    ensures var after := SyncMembers(players, clubId, Members(players.rows, clubId) + [playerId]);
            forall id :: id in Members(after.rows, clubId) <==> id == playerId || id in Members(players.rows, clubId)
  {
    MembersAfterSync(players, clubId, Members(players.rows, clubId) + [playerId]);
    forall id | id in Members(players.rows, clubId) ensures Has(players, id) {
    }
  }

  /**
   * `removePlayerFromClub(clubId, playerId)`: the club, then the player; a
   * player not pointing at `clubId` is a BadRequest; otherwise every entry
   * with that id leaves the list, `clubs*` is invalidated and the club saved.
   */
  function RemovePlayer(w: World, clubId: int, playerId: int): (s: Step<ClubView>)
    ensures s.result.Failure? ==> s.world == FindOne(w, clubId).world
    ensures s.result.Success? <==>
              FindOne(w, clubId).result.Success? && Has(w.players, playerId) &&
              Find(w.players, playerId).value.clubId == Some(clubId)
    ensures FindOne(w, clubId).result.Success? && Find(w.players, playerId) != None &&
            Find(w.players, playerId).value.clubId != Some(clubId) ==>
              s.result == Failure(BadRequest(NotMemberMessage(playerId, clubId)))
    ensures s.result.Success? ==>
              var v := FindOne(w, clubId).result.value;
              s.result.value == v.(players := DropPlayer(v.players, playerId)) &&
              s.world == SaveClub(FindOne(w, clubId).world, s.result.value).(cache := s.world.cache) &&
              s.world.(clubs := w.clubs, players := w.players, cache := w.cache) == w &&
              Flushed(s.world.cache, CLUBS)
  {
    var found := FindOne(w, clubId);
    if found.result.Failure? then found
    else
      match Find(w.players, playerId)
      case None => Step(found.world, Failure(NotFound(PlayerNotFoundMessage(playerId))))
      case Some(p) =>
        if p.clubId != Some(clubId) then Step(found.world, Failure(BadRequest(NotMemberMessage(playerId, clubId))))
        else
          var v := found.result.value;
          var v2 := v.(players := DropPlayer(v.players, playerId));
          Step(SaveClub(Invalidate(found.world, CLUBS), v2), Success(v2))
  }

  /**
   * From a coherent cache, removing drops exactly that player from the
   * members. Only the countries' documents may be left stale; settling
   * restores coherence.
   */
  lemma {:induction false} RemovePlayerCoherent(w: World, clubId: int, playerId: int)
    requires Coherent(w)
    ensures CoherentExcept(RemovePlayer(w, clubId, playerId).world, {COUNTRIES})
    ensures Coherent(Settle(RemovePlayer(w, clubId, playerId).world))
    ensures RemovePlayer(w, clubId, playerId).result.Success? ==>
              var after := RemovePlayer(w, clubId, playerId).world.players;
              forall id :: id in Members(after.rows, clubId) <==> id != playerId && id in Members(w.players.rows, clubId)
  {
    var s := RemovePlayer(w, clubId, playerId);
    FindOneTransparent(w, clubId, {});
    FindOneTransparent(w, clubId, {COUNTRIES});
    if s.result.Success? {
      var v := FindOne(w, clubId).result.value;
      InvalidateKeepsCoherent(FindOne(w, clubId).world, s.world, CLUBS, {COUNTRIES});
      MembersAfterSync(w.players, clubId, Without(PlayerIds(v.players), playerId));
      forall id | id in Members(w.players.rows, clubId) ensures Has(w.players, id) {
      }
    } else {
      ChangeKeepsCoherent(s.world, s.world, {}, {COUNTRIES});
    }
    SettleCoherent(s.world);
  }
}
