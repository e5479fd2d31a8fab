/**
 * The competitions service. It keeps no cache of its own, but the country and
 * club lookups it makes go through the cached countries and clubs services.
 * Its writes invalidate nothing, although the clubs' and the countries'
 * documents embed competitions, so those documents may go stale until the
 * cache is settled. Three of its operations differ from what they evidently
 * intend, and each is modelled both as it is written and as corrected:
 *  - `create` reads a `clubIds` field that the request body can never carry;
 *  - `update` checks the name even when it is not being changed;
 *  - the clubs relation is never loaded, so adding or removing a club changes nothing.
 */
module CompetitionsService {
  import opened Wrappers
  import opened Text
  import opened HttpErrors
  import opened Entities
  import opened Repository
  import opened Backend
  import opened CacheKeys
  import opened RedisStore
  import opened CacheAside
  import Countries = CountriesService
  import Clubs = ClubsService

  function NotFoundMessage(id: int): string {
    "Competition with id " + IntToString(id) + " does not exist"
  }

  /** The message interpolates the name as JavaScript prints it, `undefined` when it is absent. */
  function NameTakenMessage(name: Option<string>): string {
    "Competition with name " + (if name.Some? then name.value else "undefined") + " already exists"
  }

  /**
   * The labels of the `competitionType` enum column. The server's enum file is
   * not part of this model; the labels are those of the client's
   * `CompetitionType` union (client/src/types/competition/competitionType.ts),
   * which is what the competition forms offer.
   */
  const COMPETITION_TYPES: set<string> := {"LEAGUE", "CUP", "SUPER_CUP", "INTERNATIONAL", "FRIENDLY"}

  /**
   * PostgreSQL's refusal of a text the enum column does not list. The
   * validation pipe checks only that the field is not empty, so the text
   * reaches the INSERT or UPDATE, and the exception filter answers 400.
   */
  function TypeRefused(value: string): HttpError {
    DatabaseError(INVALID_TEXT_REPRESENTATION,
                  "invalid input value for enum competitions_competitiontype_enum: \"" + value + "\"")
  }

  /** An update that sets the type to a text the enum column does not list. */
  predicate UnknownType(value: Option<string>) {
    value.Some? && value.value !in COMPETITION_TYPES
  }

  function ClubTakenMessage(clubId: int, competitionId: int): string {
    "Club with id " + IntToString(clubId) + " already exists in competition with id " + IntToString(competitionId)
  }

  /**
   * `existsBy({ name })`. A `where` whose only property is undefined places
   * no condition, so an absent name matches any row.
   */
  predicate NameExists(t: Table<Competition>, name: Option<string>) {
    match name
    case None => |t.rows| > 0
    case Some(n) => exists i :: 0 <= i < |t.rows| && t.rows[i].data.name == n
  }

  /**
   * A competition entity as a service method holds it. The join table's club
   * ids travel with it only when `clubsLoaded`; otherwise `clubs` is undefined
   * and `competition.clubIds` is not part of the entity.
   */
  datatype Loaded = Loaded(id: int, competition: Competition, clubsLoaded: bool)

  /** The entity's `clubs` property. */
  function ClubsOf(l: Loaded): Option<seq<int>> {
    if l.clubsLoaded then Some(l.competition.clubIds) else None
  }

  /** `findOneBy({ id })`: the country relation is eager, the clubs relation is not loaded. */
  function FindOne(t: Table<Competition>, id: int): (r: Outcome<Loaded>)
    ensures r.Success? <==> Has(t, id)
    ensures r.Failure? ==> r.error == NotFound(NotFoundMessage(id))
    ensures r.Success? ==> r.value.id == id && Find(t, id) == Some(r.value.competition) && ClubsOf(r.value).None?
  {
    match Find(t, id)
    case None => Failure(NotFound(NotFoundMessage(id)))
    case Some(c) => Success(Loaded(id, c, false))
  }

  /** `findOne({ where: { id }, relations: ['clubs'] })`: the load the club operations need. */
  function FindOneWithClubs(t: Table<Competition>, id: int): (r: Outcome<Loaded>)
    ensures r.Success? <==> Has(t, id)
    ensures r.Failure? ==> r.error == NotFound(NotFoundMessage(id))
    ensures r.Success? ==> r.value.id == id && Find(t, id) == Some(r.value.competition) &&
                           ClubsOf(r.value) == Some(Find(t, id).value.clubIds)
  {
    match Find(t, id)
    case None => Failure(NotFound(NotFoundMessage(id)))
    case Some(c) => Success(Loaded(id, c, true))
  }

  /**
   * `save(entity)` of a loaded competition. The founding date is not an
   * updatable column, and the join table is rewritten only when `clubs` is
   * loaded; a missing key inserts the row.
   */
  function Persist(t: Table<Competition>, l: Loaded): (r: Table<Competition>)
    ensures Valid(t) && l.id >= 1 ==> Valid(r)
    ensures Has(r, l.id)
    ensures forall k :: k != l.id ==> Find(r, k) == Find(t, k)
    ensures Has(t, l.id) ==>
              var before := Find(t, l.id).value;
              Find(r, l.id) == Some(l.competition.(establishedAt := before.establishedAt,
                                                   clubIds := ClubsOf(l).GetOr(before.clubIds)))
  {
    match Find(t, l.id)
    case None => Save(t, l.id, l.competition.(clubIds := ClubsOf(l).GetOr([])))
    case Some(before) =>
      Save(t, l.id, l.competition.(establishedAt := before.establishedAt, clubIds := ClubsOf(l).GetOr(before.clubIds)))
  }

  /**
   * Saving an entity exactly as `findOne` loaded it leaves every stored
   * competition as it was, and a table with distinct keys not changed at all.
   */
  lemma PersistAsLoaded(t: Table<Competition>, id: int)
    requires FindOne(t, id).Success?
    ensures forall k :: Find(Persist(t, FindOne(t, id).value), k) == Find(t, k)
    ensures Valid(t) ==> Persist(t, FindOne(t, id).value) == t
  {
    var l := FindOne(t, id).value;
    var before := Find(t, id).value;
    assert Find(Persist(t, l), id) == Find(t, id);
    if Valid(t) {
      assert l.competition.(establishedAt := before.establishedAt, clubIds := ClubsOf(l).GetOr(before.clubIds)) == before;
      var r := Replace(t, id, before);
      assert r.rows == t.rows by {
        forall i | 0 <= i < |t.rows| ensures r.rows[i] == t.rows[i] {
          if t.rows[i].id == id {
            assert t.rows[i].data == before;
          }
        }
      }
    }
  }

  /** The fields of a create request. */
  datatype CompetitionRequest = CompetitionRequest(
    name: string,
    logoUrl: string,
    establishedAt: Option<Date>,
    competitionType: string,
    countryId: Option<int>,
    clubsIds: Option<seq<int>>)

  /**
   * `create(dto)` as written: the name check, the country lookup when the
   * country id is truthy, then the insert. The clubs come from a `clubIds`
   * field that the validation pipe rejects, so they are always empty and the
   * declared `clubsIds` is ignored. The INSERT fails when the type is not one
   * of the enum's labels. `now` is the clock's reading.
   */
  function Create(w: World, dto: CompetitionRequest, now: Date): (s: Step<Loaded>)
    ensures s.world.(competitions := w.competitions, cache := w.cache) == w
    ensures NameExists(w.competitions, Some(dto.name)) ==> s == Step(w, Failure(Conflict(NameTakenMessage(Some(dto.name)))))
    ensures s.result.Success? <==>
              !NameExists(w.competitions, Some(dto.name)) &&
              (Nonzero(dto.countryId) ==> Countries.FindOne(w, dto.countryId.value).result.Success?) &&
              dto.competitionType in COMPETITION_TYPES
    ensures !NameExists(w.competitions, Some(dto.name)) &&
            (Nonzero(dto.countryId) ==> Countries.FindOne(w, dto.countryId.value).result.Success?) &&
            dto.competitionType !in COMPETITION_TYPES ==>
              s.result == Failure(TypeRefused(dto.competitionType))
    ensures s.result.Failure? ==> s.world.competitions == w.competitions
    ensures s.result.Success? ==>
              var l := s.result.value;
              l.id == w.competitions.nextId && l.clubsLoaded && l.competition.clubIds == [] &&
              l.competition.name == dto.name && l.competition.establishedAt == dto.establishedAt.GetOr(now) &&
              l.competition.competitionType == dto.competitionType &&
              (!Nonzero(dto.countryId) ==> l.competition.countryId == None) &&
              s.world.competitions == Insert(w.competitions, l.competition).0
  {
    if NameExists(w.competitions, Some(dto.name)) then Step(w, Failure(Conflict(NameTakenMessage(Some(dto.name)))))
    else
      var country := if Nonzero(dto.countryId) then Some(Countries.FindOne(w, dto.countryId.value)) else None;
      if country.Some? && country.value.result.Failure? then Step(country.value.world, Failure(country.value.result.error))
      else
        var w1 := if country.Some? then country.value.world else w;
        var countryId := if country.Some? then Some(country.value.result.value.id) else None;
        if dto.competitionType !in COMPETITION_TYPES then Step(w1, Failure(TypeRefused(dto.competitionType)))
        else
          var c := Competition(dto.name, dto.logoUrl, dto.establishedAt.GetOr(now), dto.competitionType, countryId, []);
          var (t, id) := Insert(w.competitions, c);
          Step(w1.(competitions := t), Success(Loaded(id, c, true)))
  }

  /**
   * `create` writes the competitions table and invalidates nothing: from
   * documents that agree except perhaps the clubs' and the countries', it
   * leaves them so.
   */
  lemma {:induction false} CreateKeeps(w: World, dto: CompetitionRequest, now: Date)
    requires CoherentExcept(w, {CLUBS, COUNTRIES})
    ensures CoherentExcept(Create(w, dto, now).world, {CLUBS, COUNTRIES})
  {
    var s := Create(w, dto, now);
    var w1 := w;
    if !NameExists(w.competitions, Some(dto.name)) && Nonzero(dto.countryId) {
      Countries.FindOneTransparent(w, dto.countryId.value, {CLUBS, COUNTRIES});
      w1 := Countries.FindOne(w, dto.countryId.value).world;
    }
    ChangeKeepsCoherent(w1, s.world, {CLUBS, COUNTRIES}, {CLUBS, COUNTRIES});
  }

  /**
   * From a coherent cache, `create` succeeds exactly when the name is free,
   * a truthy country id names a country, which the stored competition then
   * points at, and the type is one of the enum's labels. Only the clubs' and the countries' documents may be left
   * stale, and settling the cache restores coherence.
   */
  lemma {:induction false} CreateCoherent(w: World, dto: CompetitionRequest, now: Date)
    requires Coherent(w)
    ensures CoherentExcept(Create(w, dto, now).world, {CLUBS, COUNTRIES})
    ensures Coherent(Settle(Create(w, dto, now).world))
    ensures Create(w, dto, now).result.Success? <==>
              !NameExists(w.competitions, Some(dto.name)) && (Nonzero(dto.countryId) ==> Has(w.countries, dto.countryId.value)) &&
              dto.competitionType in COMPETITION_TYPES
    ensures Create(w, dto, now).result.Success? ==>
              Create(w, dto, now).result.value.competition.countryId == (if Nonzero(dto.countryId) then dto.countryId else None)
  {
    var s := Create(w, dto, now);
    if Nonzero(dto.countryId) {
      Countries.FindOneTransparent(w, dto.countryId.value, {});
    }
    ChangeKeepsCoherent(w, w, {}, {CLUBS, COUNTRIES});
    CreateKeeps(w, dto, now);
    SettleCoherent(s.world);
  }

  /** Every competition a loaded country lists was inserted before the table's next id. */
  lemma CountryCompetitionsOlder(w: World, cid: int)
    requires Valid(w.competitions) && LoadCountry(DbOf(w), cid).Some?
    ensures forall i :: 0 <= i < |LoadCountry(DbOf(w), cid).value.competitions| ==>
              LoadCountry(DbOf(w), cid).value.competitions[i].id < w.competitions.nextId
  {
    var before := LoadCountry(DbOf(w), cid).value;
    LoadCountryRelations(DbOf(w), cid);
    forall i | 0 <= i < |before.competitions| ensures before.competitions[i].id < w.competitions.nextId {
      var r :| r in w.competitions.rows && r.data.countryId == Some(cid) && before.competitions[i] == Info(r);
    }
  }

  /** A successful create with a country leaves the cache as the country lookup left it. */
  lemma CreateThroughCountry(w: World, dto: CompetitionRequest, now: Date)
    requires Nonzero(dto.countryId) && Create(w, dto, now).result.Success?
    ensures Create(w, dto, now).world.cache == Countries.FindOne(w, dto.countryId.value).world.cache
  {
  }

  /**
   * `create` with a country looks it up through the countries service, which
   * caches `countries:<id>`, and then invalidates nothing: the country
   * document left in the cache does not list the new competition, while a
   * load of the country now would.
   */
  lemma {:induction false} CreateLeavesCountryStale(w: World, dto: CompetitionRequest, now: Date)
    requires Coherent(w) && Valid(w.competitions) && Nonzero(dto.countryId)
    requires Create(w, dto, now).result.Success?
    ensures var s := Create(w, dto, now);
            var cid := dto.countryId.value;
            var doc := Cached(s.world.cache, EntityKey(COUNTRIES, cid), CountryOf);
            var info := Info(Row(w.competitions.nextId, s.result.value.competition));
            doc.Some? && LoadCountry(DbOf(s.world), cid).Some? &&
            info !in doc.value.competitions && info in LoadCountry(DbOf(s.world), cid).value.competitions
  {
    var s := Create(w, dto, now);
    var cid := dto.countryId.value;
    var key := EntityKey(COUNTRIES, cid);
    Countries.FindOneTransparent(w, cid, {});
    CreateCoherent(w, dto, now);
    var found := Countries.FindOne(w, cid);
    var before := LoadCountry(DbOf(w), cid).value;
    assert Get(found.world.cache, key) == Some(CountryDoc(before)) by {
      match Cached(w.cache, key, CountryOf)
      case Some(v) =>
        assert Agrees(w, key, CountryDoc(v));
        EntityKeyInjective(COUNTRIES, v.id, cid);
      case None =>
    }
    CreateThroughCountry(w, dto, now);
    var row := Row(w.competitions.nextId, s.result.value.competition);
    CountryCompetitionsOlder(w, cid);
    var db2 := DbOf(s.world);
    LoadCountryRelations(db2, cid);
    assert db2.competitions.rows[|w.competitions.rows|] == row;
  }

  /** The ids of the clubs `findMany` returned, in order. */
  function IdsOf(vs: seq<ClubView>): (ids: seq<int>)
    ensures |ids| == |vs| && forall i :: 0 <= i < |vs| ==> ids[i] == vs[i].id
  {
    seq(|vs|, i requires 0 <= i < |vs| => vs[i].id)
  }

  /** `create(dto)` as intended: as written, but the clubs are looked up from the declared `clubsIds`. The INSERT still refuses an unknown type. */
  function CreateWithClubs(w: World, dto: CompetitionRequest, now: Date): (s: Step<Loaded>)
    ensures s.world.(competitions := w.competitions, cache := w.cache) == w
    ensures NameExists(w.competitions, Some(dto.name)) ==> s == Step(w, Failure(Conflict(NameTakenMessage(Some(dto.name)))))
    ensures s.result.Failure? ==> s.world.competitions == w.competitions
    ensures s.result.Success? ==>
              var l := s.result.value;
              l.id == w.competitions.nextId && l.clubsLoaded &&
              l.competition.name == dto.name && l.competition.establishedAt == dto.establishedAt.GetOr(now) &&
              |l.competition.clubIds| == |dto.clubsIds.GetOr([])| &&
              l.competition.competitionType == dto.competitionType &&
              s.world.competitions == Insert(w.competitions, l.competition).0
  {
    if NameExists(w.competitions, Some(dto.name)) then Step(w, Failure(Conflict(NameTakenMessage(Some(dto.name)))))
    else
      var country := if Nonzero(dto.countryId) then Some(Countries.FindOne(w, dto.countryId.value)) else None;
      if country.Some? && country.value.result.Failure? then Step(country.value.world, Failure(country.value.result.error))
      else
        var w1 := if country.Some? then country.value.world else w;
        var countryId := if country.Some? then Some(country.value.result.value.id) else None;
        var clubs := Clubs.FindMany(w1, dto.clubsIds.GetOr([]));
        if clubs.result.Failure? then Step(clubs.world, Failure(clubs.result.error))
        else if dto.competitionType !in COMPETITION_TYPES then Step(clubs.world, Failure(TypeRefused(dto.competitionType)))
        else
          var c := Competition(dto.name, dto.logoUrl, dto.establishedAt.GetOr(now), dto.competitionType,
                               countryId, IdsOf(clubs.result.value));
          var (t, id) := Insert(w.competitions, c);
          Step(clubs.world.(competitions := t), Success(Loaded(id, c, true)))
  }

  /**
   * With a coherent cache, the corrected `create` succeeds exactly when the
   * name is free, a truthy country id names a country, every listed club
   * exists and the type is one of the enum's labels; the stored competition then points at that country and lists
   * exactly the requested clubs. Only the clubs' and the countries'
   * documents may be left stale, and settling the cache restores coherence.
   */
  lemma {:induction false} CreateWithClubsCoherent(w: World, dto: CompetitionRequest, now: Date)
    requires Coherent(w)
    ensures CoherentExcept(CreateWithClubs(w, dto, now).world, {CLUBS, COUNTRIES})
    ensures Coherent(Settle(CreateWithClubs(w, dto, now).world))
    ensures CreateWithClubs(w, dto, now).result.Success? <==>
              !NameExists(w.competitions, Some(dto.name)) &&
              (Nonzero(dto.countryId) ==> Has(w.countries, dto.countryId.value)) &&
              (forall i :: 0 <= i < |dto.clubsIds.GetOr([])| ==> Has(w.clubs, dto.clubsIds.GetOr([])[i])) &&
              dto.competitionType in COMPETITION_TYPES
    ensures CreateWithClubs(w, dto, now).result.Success? ==>
              var c := CreateWithClubs(w, dto, now).result.value.competition;
              c.clubIds == dto.clubsIds.GetOr([]) &&
              c.countryId == (if Nonzero(dto.countryId) then dto.countryId else None)
  {
    CreateWithClubsSucceeds(w, dto, now);
    var s := CreateWithClubs(w, dto, now);
    var w2 := w;
    if !NameExists(w.competitions, Some(dto.name)) {
      var w1 := w;
      if Nonzero(dto.countryId) {
        Countries.FindOneTransparent(w, dto.countryId.value, {});
        w1 := Countries.FindOne(w, dto.countryId.value).world;
        w2 := w1;
      }
      if !Nonzero(dto.countryId) || Has(w.countries, dto.countryId.value) {
        Clubs.FindManyTransparent(w1, dto.clubsIds.GetOr([]));
        w2 := Clubs.FindMany(w1, dto.clubsIds.GetOr([])).world;
      }
    }
    ChangeKeepsCoherent(w2, s.world, {}, {CLUBS, COUNTRIES});
    SettleCoherent(s.world);
  }

  /** The outcome half of CreateWithClubsCoherent: when the corrected create succeeds, and what it stores. */
  lemma {:induction false} CreateWithClubsSucceeds(w: World, dto: CompetitionRequest, now: Date)
    requires Coherent(w)
    ensures CreateWithClubs(w, dto, now).result.Success? <==>
              !NameExists(w.competitions, Some(dto.name)) &&
              (Nonzero(dto.countryId) ==> Has(w.countries, dto.countryId.value)) &&
              (forall i :: 0 <= i < |dto.clubsIds.GetOr([])| ==> Has(w.clubs, dto.clubsIds.GetOr([])[i])) &&
              dto.competitionType in COMPETITION_TYPES
    ensures CreateWithClubs(w, dto, now).result.Success? ==>
              var c := CreateWithClubs(w, dto, now).result.value.competition;
              c.clubIds == dto.clubsIds.GetOr([]) &&
              c.countryId == (if Nonzero(dto.countryId) then dto.countryId else None)
  {
    if !NameExists(w.competitions, Some(dto.name)) {
      var w1 := w;
      if Nonzero(dto.countryId) {
        Countries.FindOneTransparent(w, dto.countryId.value, {});
        w1 := Countries.FindOne(w, dto.countryId.value).world;
      }
      if !Nonzero(dto.countryId) || Has(w.countries, dto.countryId.value) {
        var ids := dto.clubsIds.GetOr([]);
        Clubs.FindManyTransparent(w1, ids);
        var clubs := Clubs.FindMany(w1, ids);
        if clubs.result.Success? {
          assert IdsOf(clubs.result.value) == ids;
        }
      }
    }
  }

  /**
   * The discrepancy of `create`: with a coherent cache, a request listing
   * existing clubs that the corrected `create` accepts is accepted as written
   * too, but stored with no clubs at all.
   */
  lemma {:induction false} CreateDropsClubs(w: World, dto: CompetitionRequest, now: Date)
    requires Coherent(w)
    requires dto.clubsIds.Some? && |dto.clubsIds.value| > 0
    requires CreateWithClubs(w, dto, now).result.Success?
    ensures Create(w, dto, now).result.Success?
    ensures Create(w, dto, now).result.value.competition.clubIds == []
    ensures CreateWithClubs(w, dto, now).result.value.competition.clubIds == dto.clubsIds.value
  {
    CreateWithClubsCoherent(w, dto, now);
    CreateCoherent(w, dto, now);
  }

  /** The fields of an update request; each may be absent. */
  datatype CompetitionChanges = CompetitionChanges(
    name: Option<string>,
    logoUrl: Option<string>,
    establishedAt: Option<Date>,
    competitionType: Option<string>,
    countryId: Option<int>,
    clubsIds: Option<seq<int>>)

  /**
   * `merge(entity, dto)`: every entity property the request gives is copied;
   * `countryId` and `clubsIds` are not entity properties and are dropped.
   */
  function Merge(l: Loaded, dto: CompetitionChanges): (r: Loaded)
    ensures r.id == l.id && r.clubsLoaded == l.clubsLoaded
    ensures r.competition.name == dto.name.GetOr(l.competition.name)
    ensures r.competition.logoUrl == dto.logoUrl.GetOr(l.competition.logoUrl)
    ensures r.competition.establishedAt == dto.establishedAt.GetOr(l.competition.establishedAt)
    ensures r.competition.competitionType == dto.competitionType.GetOr(l.competition.competitionType)
    ensures r.competition.countryId == l.competition.countryId && r.competition.clubIds == l.competition.clubIds
  {
    l.(competition := l.competition.(
         name := dto.name.GetOr(l.competition.name),
         logoUrl := dto.logoUrl.GetOr(l.competition.logoUrl),
         establishedAt := dto.establishedAt.GetOr(l.competition.establishedAt),
         competitionType := dto.competitionType.GetOr(l.competition.competitionType)))
  }

  /**
   * `update(id, dto)` as written: `findOne`, then the name check on whatever
   * name the request carries, then the merge and the save, which the
   * database refuses when the request sets an unknown type. Only the
   * competitions table can change.
   */
  function Update(w: World, id: int, dto: CompetitionChanges): (s: Step<Loaded>)
    ensures s.world.(competitions := w.competitions) == w
    ensures s.result.Success? <==>
              Has(w.competitions, id) && !NameExists(w.competitions, dto.name) && !UnknownType(dto.competitionType)
    ensures Has(w.competitions, id) && NameExists(w.competitions, dto.name) ==>
              s == Step(w, Failure(Conflict(NameTakenMessage(dto.name))))
    ensures Has(w.competitions, id) && !NameExists(w.competitions, dto.name) && UnknownType(dto.competitionType) ==>
              s == Step(w, Failure(TypeRefused(dto.competitionType.value)))
    ensures s.result.Failure? ==> s.world == w
    ensures s.result.Success? ==>
              s.result.value == Merge(FindOne(w.competitions, id).value, dto) &&
              s.world.competitions == Persist(w.competitions, s.result.value)
  {
    match FindOne(w.competitions, id)
    case Failure(e) => Step(w, Failure(e))
    case Success(l) =>
      if NameExists(w.competitions, dto.name) then Step(w, Failure(Conflict(NameTakenMessage(dto.name))))
      else if UnknownType(dto.competitionType) then Step(w, Failure(TypeRefused(dto.competitionType.value)))
      else
        var merged := Merge(l, dto);
        Step(w.(competitions := Persist(w.competitions, merged)), Success(merged))
  }

  /**
   * The discrepancy of `update`: an update of an existing competition that
   * leaves its name alone, by omitting it or by repeating it, always fails
   * with a Conflict.
   */
  lemma KeepingNameConflicts(w: World, id: int, dto: CompetitionChanges)
    requires Has(w.competitions, id)
    requires dto.name.None? || dto.name == Some(Find(w.competitions, id).value.name)
    ensures Update(w, id, dto) == Step(w, Failure(Conflict(NameTakenMessage(dto.name))))
  {
    var i :| 0 <= i < |w.competitions.rows| && w.competitions.rows[i].id == id;
    assert Row(id, Find(w.competitions, id).value) in w.competitions.rows;
  }

  /** `update(id, dto)` as intended: the name is checked only when the request changes it. */
  function UpdateChecked(w: World, id: int, dto: CompetitionChanges): (s: Step<Loaded>)
    ensures s.world.(competitions := w.competitions) == w
    ensures s.result.Success? <==>
              Has(w.competitions, id) &&
              !(Renames(dto.name, Find(w.competitions, id).value.name) && NameExists(w.competitions, dto.name)) &&
              !UnknownType(dto.competitionType)
    ensures s.result.Failure? ==> s.world == w
    ensures s.result.Success? ==>
              s.result.value == Merge(FindOne(w.competitions, id).value, dto) &&
              s.world.competitions == Persist(w.competitions, s.result.value)
  {
    match FindOne(w.competitions, id)
    case Failure(e) => Step(w, Failure(e))
    case Success(l) =>
      if Renames(dto.name, l.competition.name) && NameExists(w.competitions, dto.name) then
        Step(w, Failure(Conflict(NameTakenMessage(dto.name))))
      else if UnknownType(dto.competitionType) then Step(w, Failure(TypeRefused(dto.competitionType.value)))
      else
        var merged := Merge(l, dto);
        Step(w.(competitions := Persist(w.competitions, merged)), Success(merged))
  }

  /**
   * The corrected update accepts exactly those requests that keep the name
   * and set no unknown type, refuses the others with the database's enum
   * error, and on success stores the merged fields while the founding date,
   * the country and the clubs stay as they were.
   */
  lemma UpdateCheckedKeepsName(w: World, id: int, dto: CompetitionChanges)
    requires Has(w.competitions, id)
    requires dto.name.None? || dto.name == Some(Find(w.competitions, id).value.name)
    ensures UpdateChecked(w, id, dto).result.Success? <==> !UnknownType(dto.competitionType)
    ensures UnknownType(dto.competitionType) ==>
              UpdateChecked(w, id, dto) == Step(w, Failure(TypeRefused(dto.competitionType.value)))
    ensures UpdateChecked(w, id, dto).result.Success? ==>
            var before := Find(w.competitions, id).value;
            var after := Find(UpdateChecked(w, id, dto).world.competitions, id).value;
            after.name == before.name && after.establishedAt == before.establishedAt &&
            after.countryId == before.countryId && after.clubIds == before.clubIds &&
            after.logoUrl == dto.logoUrl.GetOr(before.logoUrl) &&
            after.competitionType == dto.competitionType.GetOr(before.competitionType)
  {
  }

  /**
   * A write to the competitions table alone, with the cache left as it was:
   * only the clubs' and the countries' documents, which embed competitions,
   * may go stale, and settling the cache restores coherence.
   */
  lemma {:induction false} CompetitionsWrite(w: World, w2: World)
    requires Coherent(w) && w2.(competitions := w.competitions) == w
    ensures CoherentExcept(w2, {CLUBS, COUNTRIES})
    ensures Coherent(Settle(w2))
  {
    ChangeKeepsCoherent(w, w2, {}, {CLUBS, COUNTRIES});
    SettleCoherent(w2);
  }

  /** `update`, as written and as corrected, invalidates nothing: settling the cache afterwards restores coherence. */
  lemma UpdateCoherent(w: World, id: int, dto: CompetitionChanges)
    requires Coherent(w)
    ensures CoherentExcept(Update(w, id, dto).world, {CLUBS, COUNTRIES})
    ensures Coherent(Settle(Update(w, id, dto).world))
    ensures CoherentExcept(UpdateChecked(w, id, dto).world, {CLUBS, COUNTRIES})
    ensures Coherent(Settle(UpdateChecked(w, id, dto).world))
  {
    CompetitionsWrite(w, Update(w, id, dto).world);
    CompetitionsWrite(w, UpdateChecked(w, id, dto).world);
  }

  /** `remove(id)`: `findOne`, then delete the row. */
  function Remove(w: World, id: int): (s: Step<()>)
    ensures s.result.Success? <==> Has(w.competitions, id)
    ensures s.result.Failure? ==> s == Step(w, Failure(NotFound(NotFoundMessage(id))))
    ensures s.result.Success? ==>
              !Has(s.world.competitions, id) && s.world.(competitions := w.competitions) == w &&
              forall k :: k != id ==> Find(s.world.competitions, k) == Find(w.competitions, k)
  {
    match FindOne(w.competitions, id)
    case Failure(e) => Step(w, Failure(e))
    case Success(l) => Step(w.(competitions := Delete(w.competitions, l.id)), Success(()))
  }

  /** `remove` invalidates nothing: settling the cache afterwards restores coherence. */
  lemma RemoveCoherent(w: World, id: int)
    requires Coherent(w)
    ensures CoherentExcept(Remove(w, id).world, {CLUBS, COUNTRIES})
    ensures Coherent(Settle(Remove(w, id).world))
  {
    CompetitionsWrite(w, Remove(w, id).world);
  }

  /**
   * The body of `addClubToCompetition` after the competition is loaded: the
   * club lookup, the membership check and the append, both through `clubs?.`,
   * then the save. `loaded` is the competition load's outcome.
   */
  function AddClubTo(w: World, loaded: Outcome<Loaded>, competitionId: int, clubId: int): (s: Step<Loaded>)
    ensures s.world.(competitions := w.competitions, cache := w.cache) == w
    ensures loaded.Failure? ==> s == Step(w, loaded)
    ensures loaded.Success? && Clubs.FindOne(w, clubId).result.Failure? ==>
              s == Step(Clubs.FindOne(w, clubId).world, Failure(Clubs.FindOne(w, clubId).result.error))
    ensures s.result.Failure? ==> s.world.competitions == w.competitions
    ensures s.result.Success? ==>
              var l := loaded.value;
              var club := Clubs.FindOne(w, clubId).result.value;
              loaded.Success? && Clubs.FindOne(w, clubId).result.Success? &&
              (l.clubsLoaded ==> club.id !in l.competition.clubIds) &&
              s.result.value == (if l.clubsLoaded then l.(competition := l.competition.(clubIds := l.competition.clubIds + [club.id])) else l) &&
              s.world.competitions == Persist(w.competitions, s.result.value)
    ensures loaded.Success? && loaded.value.clubsLoaded && Clubs.FindOne(w, clubId).result.Success? &&
            Clubs.FindOne(w, clubId).result.value.id in loaded.value.competition.clubIds ==>
              s.result == Failure(Conflict(ClubTakenMessage(clubId, competitionId)))
  {
    if loaded.Failure? then Step(w, loaded)
    else
      var l := loaded.value;
      var club := Clubs.FindOne(w, clubId);
      if club.result.Failure? then Step(club.world, Failure(club.result.error))
      else if l.clubsLoaded && club.result.value.id in l.competition.clubIds then
        Step(club.world, Failure(Conflict(ClubTakenMessage(clubId, competitionId))))
      else
        var l2 := if l.clubsLoaded then l.(competition := l.competition.(clubIds := l.competition.clubIds + [club.result.value.id])) else l;
        Step(club.world.(competitions := Persist(w.competitions, l2)), Success(l2))
  }

  /** `addClubToCompetition(competitionId, clubId)` as written, on the entity `findOne` loads. */
  function AddClub(w: World, competitionId: int, clubId: int): (s: Step<Loaded>)
    ensures s == AddClubTo(w, FindOne(w.competitions, competitionId), competitionId, clubId)
    ensures s.result.Failure? ==> s.result.error.NotFound?
  {
    AddClubTo(w, FindOne(w.competitions, competitionId), competitionId, clubId)
  }

  /** `addClubToCompetition` as intended, on the entity loaded with its clubs. */
  function AddClubLoaded(w: World, competitionId: int, clubId: int): (s: Step<Loaded>)
    ensures s == AddClubTo(w, FindOneWithClubs(w.competitions, competitionId), competitionId, clubId)
  {
    AddClubTo(w, FindOneWithClubs(w.competitions, competitionId), competitionId, clubId)
  }

  /**
   * The discrepancy of `addClubToCompetition`: as written it never reports a
   * club that is already there, and when it succeeds no stored competition
   * changes, so the club is never added. With distinct keys the table is
   * not changed at all and the cache stays coherent.
   */
  lemma {:induction false} AddClubChangesNothing(w: World, competitionId: int, clubId: int)
    requires Coherent(w)
    ensures Valid(w.competitions) ==> Coherent(AddClub(w, competitionId, clubId).world)
    ensures AddClub(w, competitionId, clubId).result.Success? <==> Has(w.competitions, competitionId) && Has(w.clubs, clubId)
    ensures forall k :: Find(AddClub(w, competitionId, clubId).world.competitions, k) == Find(w.competitions, k)
  {
    var s := AddClub(w, competitionId, clubId);
    Clubs.FindOneTransparent(w, clubId, {});
    if s.result.Success? {
      PersistAsLoaded(w.competitions, competitionId);
    }
  }

  /**
   * With a coherent cache, the corrected add fails with a Conflict exactly
   * when the club is already listed, and otherwise appends it and changes
   * nothing else about the competition.
   */
  lemma {:induction false} AddClubLoadedCoherent(w: World, competitionId: int, clubId: int)
    requires Coherent(w)
    ensures CoherentExcept(AddClubLoaded(w, competitionId, clubId).world, {CLUBS, COUNTRIES})
    ensures Coherent(Settle(AddClubLoaded(w, competitionId, clubId).world))
    ensures AddClubLoaded(w, competitionId, clubId).result.Success? <==>
              Has(w.competitions, competitionId) && Has(w.clubs, clubId) &&
              clubId !in Find(w.competitions, competitionId).value.clubIds
    ensures Has(w.competitions, competitionId) && Has(w.clubs, clubId) &&
            clubId in Find(w.competitions, competitionId).value.clubIds ==>
              AddClubLoaded(w, competitionId, clubId).result == Failure(Conflict(ClubTakenMessage(clubId, competitionId)))
    ensures AddClubLoaded(w, competitionId, clubId).result.Success? ==>
              var before := Find(w.competitions, competitionId).value;
              Find(AddClubLoaded(w, competitionId, clubId).world.competitions, competitionId) ==
                Some(before.(clubIds := before.clubIds + [clubId]))
  {
    var s := AddClubLoaded(w, competitionId, clubId);
    Clubs.FindOneTransparent(w, clubId, {});
    var w1 := if Has(w.competitions, competitionId) then Clubs.FindOne(w, clubId).world else w;
    ChangeKeepsCoherent(w1, s.world, {}, {CLUBS, COUNTRIES});
    SettleCoherent(s.world);
  }

  /**
   * The body of `removeClubFromCompetition` after the competition is loaded:
   * the club lookup, then every entry with the club's id filtered out of
   * `clubs?.`, then the save. An absent club is no error.
   */
  function RemoveClubFrom(w: World, loaded: Outcome<Loaded>, clubId: int): (s: Step<Loaded>)
    ensures s.world.(competitions := w.competitions, cache := w.cache) == w
    ensures loaded.Failure? ==> s == Step(w, loaded)
    ensures loaded.Success? && Clubs.FindOne(w, clubId).result.Failure? ==>
              s == Step(Clubs.FindOne(w, clubId).world, Failure(Clubs.FindOne(w, clubId).result.error))
    ensures s.result.Success? <==> loaded.Success? && Clubs.FindOne(w, clubId).result.Success?
    ensures s.result.Failure? ==> s.world.competitions == w.competitions
    ensures s.result.Success? ==>
              var l := loaded.value;
              var club := Clubs.FindOne(w, clubId).result.value;
              s.result.value == (if l.clubsLoaded then l.(competition := l.competition.(clubIds := Clubs.Without(l.competition.clubIds, club.id))) else l) &&
              s.world.competitions == Persist(w.competitions, s.result.value)
  {
    if loaded.Failure? then Step(w, loaded)
    else
      var l := loaded.value;
      var club := Clubs.FindOne(w, clubId);
      if club.result.Failure? then Step(club.world, Failure(club.result.error))
      else
        var l2 := if l.clubsLoaded then l.(competition := l.competition.(clubIds := Clubs.Without(l.competition.clubIds, club.result.value.id))) else l;
        Step(club.world.(competitions := Persist(w.competitions, l2)), Success(l2))
  }

  /** `removeClubFromCompetition(competitionId, clubId)` as written, on the entity `findOne` loads. */
  function RemoveClub(w: World, competitionId: int, clubId: int): (s: Step<Loaded>)
    ensures s == RemoveClubFrom(w, FindOne(w.competitions, competitionId), clubId)
    ensures s.result.Failure? ==> s.result.error.NotFound?
  {
    RemoveClubFrom(w, FindOne(w.competitions, competitionId), clubId)
  }

  /** `removeClubFromCompetition` as intended, on the entity loaded with its clubs. */
  function RemoveClubLoaded(w: World, competitionId: int, clubId: int): (s: Step<Loaded>)
    ensures s == RemoveClubFrom(w, FindOneWithClubs(w.competitions, competitionId), clubId)
  {
    RemoveClubFrom(w, FindOneWithClubs(w.competitions, competitionId), clubId)
  }

  /**
   * The discrepancy of `removeClubFromCompetition`: as written, no stored
   * competition ever changes. With distinct keys the table is not changed at
   * all and the cache stays coherent.
   */
  lemma {:induction false} RemoveClubChangesNothing(w: World, competitionId: int, clubId: int)
    requires Coherent(w)
    ensures Valid(w.competitions) ==> Coherent(RemoveClub(w, competitionId, clubId).world)
    ensures RemoveClub(w, competitionId, clubId).result.Success? <==> Has(w.competitions, competitionId) && Has(w.clubs, clubId)
    ensures forall k :: Find(RemoveClub(w, competitionId, clubId).world.competitions, k) == Find(w.competitions, k)
  {
    var s := RemoveClub(w, competitionId, clubId);
    Clubs.FindOneTransparent(w, clubId, {});
    if s.result.Success? {
      PersistAsLoaded(w.competitions, competitionId);
    }
  }

  /**
   * With a coherent cache, the corrected remove succeeds whenever both exist,
   * and the competition's clubs afterwards are the others, in order.
   */
  lemma {:induction false} RemoveClubLoadedCoherent(w: World, competitionId: int, clubId: int)
    requires Coherent(w)
    ensures CoherentExcept(RemoveClubLoaded(w, competitionId, clubId).world, {CLUBS, COUNTRIES})
    ensures Coherent(Settle(RemoveClubLoaded(w, competitionId, clubId).world))
    ensures RemoveClubLoaded(w, competitionId, clubId).result.Success? <==>
              Has(w.competitions, competitionId) && Has(w.clubs, clubId)
    ensures RemoveClubLoaded(w, competitionId, clubId).result.Success? ==>
              var before := Find(w.competitions, competitionId).value;
              var after := Find(RemoveClubLoaded(w, competitionId, clubId).world.competitions, competitionId).value;
              after == before.(clubIds := Clubs.Without(before.clubIds, clubId)) &&
              clubId !in after.clubIds &&
              forall c :: c != clubId ==> (c in after.clubIds <==> c in before.clubIds)
  {
    var s := RemoveClubLoaded(w, competitionId, clubId);
    Clubs.FindOneTransparent(w, clubId, {});
    var w1 := if Has(w.competitions, competitionId) then Clubs.FindOne(w, clubId).world else w;
    ChangeKeepsCoherent(w1, s.world, {}, {CLUBS, COUNTRIES});
    SettleCoherent(s.world);
  }

  /**
   * `createMany(dtos)`: one `create` as written per request, in order,
   * stopping at the first failure. Every competition it stores therefore has
   * no clubs.
   */
  function CreateMany(w: World, dtos: seq<CompetitionRequest>, now: Date): (s: Step<seq<Loaded>>)
    ensures s.world.(competitions := w.competitions, cache := w.cache) == w
    ensures s.result.Success? ==>
              |s.result.value| == |dtos| &&
              forall i :: 0 <= i < |dtos| ==>
                s.result.value[i].competition.name == dtos[i].name && s.result.value[i].competition.clubIds == [] &&
                dtos[i].competitionType in COMPETITION_TYPES
    ensures s.result.Success? ==> forall i :: 0 <= i < |dtos| ==>
              !NameExists(w.competitions, Some(dtos[i].name)) && NameExists(s.world.competitions, Some(dtos[i].name))
    ensures s.result.Success? ==> forall i, j :: 0 <= i < j < |dtos| ==> dtos[i].name != dtos[j].name
    ensures forall n :: NameExists(w.competitions, Some(n)) ==> NameExists(s.world.competitions, Some(n))
    decreases |dtos|
  {
    if |dtos| == 0 then Step(w, Success([]))
    else
      var first := Create(w, dtos[0], now);
      if first.result.Failure? then Step(first.world, Failure(first.result.error))
      else
        NameExistsAfterInsert(w.competitions, first.result.value.competition);
        var rest := CreateMany(first.world, dtos[1..], now);
        if rest.result.Failure? then Step(rest.world, Failure(rest.result.error))
        else
          assert forall i :: 1 <= i < |dtos| ==> dtos[i] == dtos[1..][i - 1];
          Step(rest.world, Success([first.result.value] + rest.result.value))
  }

  /**
   * `createMany` invalidates nothing either: only the clubs' and the
   * countries' documents may go stale, and settling the cache restores
   * coherence.
   */
  lemma {:induction false} CreateManyCoherent(w: World, dtos: seq<CompetitionRequest>, now: Date)
    requires CoherentExcept(w, {CLUBS, COUNTRIES})
    ensures CoherentExcept(CreateMany(w, dtos, now).world, {CLUBS, COUNTRIES})
    ensures Coherent(Settle(CreateMany(w, dtos, now).world))
    decreases |dtos|
  {
    if |dtos| > 0 {
      CreateKeeps(w, dtos[0], now);
      var first := Create(w, dtos[0], now);
      if first.result.Success? {
        CreateManyCoherent(first.world, dtos[1..], now);
      }
    }
    SettleCoherent(CreateMany(w, dtos, now).world);
  }

  /** A name that exists stays existing when a row is appended, and the appended one exists. */
  lemma NameExistsAfterInsert(t: Table<Competition>, c: Competition)
    ensures NameExists(Insert(t, c).0, Some(c.name))
    ensures forall n :: NameExists(t, Some(n)) ==> NameExists(Insert(t, c).0, Some(n))
  {
    var rows := Insert(t, c).0.rows;
    assert rows[|t.rows|].data == c;
    forall n | NameExists(t, Some(n)) ensures NameExists(Insert(t, c).0, Some(n)) {
      var i :| 0 <= i < |t.rows| && t.rows[i].data.name == n;
      assert rows[i] == t.rows[i];
    }
  }
}
