/**
 * The backend's whole state as the services see it: the five tables and the
 * Redis cache. A club or country document is the row with the relations its
 * service loads, so it is built from four tables at once. A cached document is
 * coherent when it is exactly what the service would load for its key now.
 * Each service invalidates only its own namespace, so a write to one table can
 * leave another service's documents stale; `Settle` is the invalidation that
 * restores coherence.
 */
module Backend {
  import opened Wrappers
  import opened Text
  import opened HttpErrors
  import opened Entities
  import opened Repository
  import opened RedisStore
  import opened CacheKeys
  import opened Pagination

  /** The four tables the club and country documents are loaded from. */
  datatype Db = Db(countries: Table<Country>, clubs: Table<Club>, players: Table<Player>, competitions: Table<Competition>)

  /** A many-to-one relation as it loads: the row with key `id`, or `null`. */
  function RowOf<D>(t: Table<D>, id: int): (r: Option<Row<D>>)
    ensures r.Some? <==> Has(t, id)
    ensures r.Some? ==> r.value.id == id && Find(t, id) == Some(r.value.data)
  {
    match Find(t, id)
    case None => None
    case Some(d) => Some(Row(id, d))
  }

  /** The keys of `rows`, in order. */
  function Ids<D>(rows: seq<Row<D>>): (ids: seq<int>)
    ensures |ids| == |rows| && forall i :: 0 <= i < |rows| ==> ids[i] == rows[i].id
  {
    seq(|rows|, i requires 0 <= i < |rows| => rows[i].id)
  }

  /** The players whose club key names `clubId`, in scan order. */
  function ClubPlayers(rows: seq<Row<Player>>, clubId: int): (r: seq<Row<Player>>)
    ensures forall i :: 0 <= i < |r| ==> r[i] in rows && r[i].data.clubId == Some(clubId)
    ensures forall i :: 0 <= i < |rows| && rows[i].data.clubId == Some(clubId) ==> rows[i] in r
  {
    Where(rows, (p: Player) => p.clubId == Some(clubId))
  }

  /** The ids of a club's players: what its `players` relation holds. */
  function Members(rows: seq<Row<Player>>, clubId: int): (ids: seq<int>)
    ensures forall i :: 0 <= i < |rows| && rows[i].data.clubId == Some(clubId) ==> rows[i].id in ids
    ensures forall id :: id in ids ==> exists i :: 0 <= i < |rows| && rows[i].id == id && rows[i].data.clubId == Some(clubId)
  {
    var r := ClubPlayers(rows, clubId);
    var ids := Ids(r);
    assert forall i :: 0 <= i < |rows| && rows[i].data.clubId == Some(clubId) ==> rows[i].id in ids by {
      forall i | 0 <= i < |rows| && rows[i].data.clubId == Some(clubId) ensures rows[i].id in ids {
        var j :| 0 <= j < |r| && r[j] == rows[i];
        assert ids[j] == rows[i].id;
      }
    }
    assert forall id :: id in ids ==> exists i :: 0 <= i < |rows| && rows[i].id == id && rows[i].data.clubId == Some(clubId) by {
      forall id | id in ids ensures exists i :: 0 <= i < |rows| && rows[i].id == id && rows[i].data.clubId == Some(clubId) {
        var j :| 0 <= j < |ids| && ids[j] == id;
        var i :| 0 <= i < |rows| && rows[i] == r[j];
      }
    }
    ids
  }

  /** A player of a club's `players` relation, with `players.nationality` loaded. */
  datatype SquadMember = SquadMember(player: Row<Player>, nationality: Option<Row<Country>>)

  function PlayerIds(ms: seq<SquadMember>): (ids: seq<int>)
    ensures |ids| == |ms| && forall i :: 0 <= i < |ms| ==> ids[i] == ms[i].player.id
  {
    seq(|ms|, i requires 0 <= i < |ms| => ms[i].player.id)
  }

  /** A club's players in scan order, each with its nationality. */
  function Squad(players: Table<Player>, countries: Table<Country>, clubId: int): (r: seq<SquadMember>)
    ensures forall i :: 0 <= i < |r| ==>
              r[i].player in players.rows && r[i].player.data.clubId == Some(clubId) &&
              r[i].nationality == RowOf(countries, r[i].player.data.nationalityId)
    ensures forall i :: 0 <= i < |players.rows| && players.rows[i].data.clubId == Some(clubId) ==>
              exists j :: 0 <= j < |r| && r[j].player == players.rows[i]
    ensures PlayerIds(r) == Members(players.rows, clubId)
  {
    var rows := ClubPlayers(players.rows, clubId);
    var r := seq(|rows|, i requires 0 <= i < |rows| => SquadMember(rows[i], RowOf(countries, rows[i].data.nationalityId)));
    assert PlayerIds(r) == Ids(rows);
    forall i | 0 <= i < |players.rows| && players.rows[i].data.clubId == Some(clubId)
      ensures exists j :: 0 <= j < |r| && r[j].player == players.rows[i]
    {
      var j :| 0 <= j < |rows| && rows[j] == players.rows[i];
      assert r[j].player == rows[j];
    }
    r
  }

  /** A competition as a relation load carries it: its columns and its country's key, without its clubs. */
  datatype CompetitionInfo = CompetitionInfo(
    id: int,
    name: string,
    logoUrl: string,
    establishedAt: Date,
    competitionType: string,
    countryId: Option<int>)

  function Info(r: Row<Competition>): CompetitionInfo {
    CompetitionInfo(r.id, r.data.name, r.data.logoUrl, r.data.establishedAt, r.data.competitionType, r.data.countryId)
  }

  function Infos(rows: seq<Row<Competition>>): (r: seq<CompetitionInfo>)
    ensures |r| == |rows| && forall i :: 0 <= i < |rows| ==> r[i] == Info(rows[i])
  {
    seq(|rows|, i requires 0 <= i < |rows| => Info(rows[i]))
  }

  /** The competitions whose join rows list `clubId`: a club's `competitions` relation. */
  function ClubCompetitions(competitions: Table<Competition>, clubId: int): (r: seq<CompetitionInfo>)
    ensures forall i :: 0 <= i < |r| ==> exists c :: c in competitions.rows && clubId in c.data.clubIds && r[i] == Info(c)
    ensures forall i :: 0 <= i < |competitions.rows| && clubId in competitions.rows[i].data.clubIds ==>
              Info(competitions.rows[i]) in r
  {
    var rows := Where(competitions.rows, (c: Competition) => clubId in c.clubIds);
    var r := Infos(rows);
    forall i | 0 <= i < |competitions.rows| && clubId in competitions.rows[i].data.clubIds
      ensures Info(competitions.rows[i]) in r
    {
      var j :| 0 <= j < |rows| && rows[j] == competitions.rows[i];
      assert r[j] == Info(rows[j]);
    }
    r
  }

  /** A club as `findOne` and `findAll` load it: with its country, its players and their nationalities, and its competitions. */
  datatype ClubView = ClubView(
    id: int,
    club: Club,
    country: Option<Row<Country>>,
    players: seq<SquadMember>,
    competitions: seq<CompetitionInfo>)

  function View(db: Db, row: Row<Club>): ClubView {
    ClubView(row.id, row.data, RowOf(db.countries, row.data.countryId), Squad(db.players, db.countries, row.id), ClubCompetitions(db.competitions, row.id))
  }

  /** `findOne({ where: { id }, relations: ['country', 'players', 'players.nationality', 'competitions'] })`. */
  function LoadClub(db: Db, id: int): (v: Option<ClubView>)
    ensures v.Some? <==> Has(db.clubs, id)
    ensures v.Some? ==> v.value.id == id && Find(db.clubs, id) == Some(v.value.club)
  {
    match Find(db.clubs, id)
    case None => None
    case Some(c) => Some(View(db, Row(id, c)))
  }

  /**
   * What a loaded club holds: its country's row, exactly the players whose
   * club key names it, each with its nationality's row, and exactly the
   * competitions whose join rows list it.
   */
  lemma LoadClubRelations(db: Db, id: int)
    requires Has(db.clubs, id)
    ensures var c := LoadClub(db, id).value;
            c.country == RowOf(db.countries, c.club.countryId) &&
            (forall i :: 0 <= i < |c.players| ==>
               c.players[i].player in db.players.rows && c.players[i].player.data.clubId == Some(id) &&
               c.players[i].nationality == RowOf(db.countries, c.players[i].player.data.nationalityId)) &&
            (forall i :: 0 <= i < |db.players.rows| && db.players.rows[i].data.clubId == Some(id) ==>
               exists j :: 0 <= j < |c.players| && c.players[j].player == db.players.rows[i]) &&
            (forall i :: 0 <= i < |c.competitions| ==>
               exists r :: r in db.competitions.rows && id in r.data.clubIds && c.competitions[i] == Info(r)) &&
            (forall i :: 0 <= i < |db.competitions.rows| && id in db.competitions.rows[i].data.clubIds ==>
               Info(db.competitions.rows[i]) in c.competitions)
  {
    var v := View(db, Row(id, Find(db.clubs, id).value));
    assert LoadClub(db, id).value == v;
    assert v.players == Squad(db.players, db.countries, id) && v.competitions == ClubCompetitions(db.competitions, id);
  }

  /** A country as `findOne` loads it: with its players, its clubs and its competitions. */
  datatype CountryView = CountryView(
    id: int,
    country: Country,
    players: seq<Row<Player>>,
    clubs: seq<Row<Club>>,
    competitions: seq<CompetitionInfo>)

  /** The competitions whose country key names `countryId`: a country's `competitions` relation. */
  function CountryCompetitions(competitions: Table<Competition>, countryId: int): (r: seq<CompetitionInfo>)
    ensures forall i :: 0 <= i < |r| ==>
              exists c :: c in competitions.rows && c.data.countryId == Some(countryId) && r[i] == Info(c)
    ensures forall i :: 0 <= i < |competitions.rows| && competitions.rows[i].data.countryId == Some(countryId) ==>
              Info(competitions.rows[i]) in r
  {
    var rows := Where(competitions.rows, (c: Competition) => c.countryId == Some(countryId));
    var r := Infos(rows);
    forall i | 0 <= i < |competitions.rows| && competitions.rows[i].data.countryId == Some(countryId)
      ensures Info(competitions.rows[i]) in r
    {
      var j :| 0 <= j < |rows| && rows[j] == competitions.rows[i];
      assert r[j] == Info(rows[j]);
    }
    r
  }

  /** The players whose nationality key names `countryId`: a country's `players` relation. */
  function Nationals(players: Table<Player>, countryId: int): (r: seq<Row<Player>>)
    ensures forall i :: 0 <= i < |r| ==> r[i] in players.rows && r[i].data.nationalityId == countryId
    ensures forall i :: 0 <= i < |players.rows| && players.rows[i].data.nationalityId == countryId ==>
              players.rows[i] in r
  {
    Where(players.rows, (p: Player) => p.nationalityId == countryId)
  }

  /** The clubs whose country key names `countryId`: a country's `clubs` relation. */
  function CountryClubs(clubs: Table<Club>, countryId: int): (r: seq<Row<Club>>)
    ensures forall i :: 0 <= i < |r| ==> r[i] in clubs.rows && r[i].data.countryId == countryId
    ensures forall i :: 0 <= i < |clubs.rows| && clubs.rows[i].data.countryId == countryId ==>
              clubs.rows[i] in r
  {
    Where(clubs.rows, (c: Club) => c.countryId == countryId)
  }

  /** `findOne({ where: { id }, relations: ['players', 'clubs', 'competitions'] })`. */
  function LoadCountry(db: Db, id: int): (v: Option<CountryView>)
    ensures v.Some? <==> Has(db.countries, id)
    ensures v.Some? ==> v.value.id == id && Find(db.countries, id) == Some(v.value.country)
  {
    match Find(db.countries, id)
    case None => None
    case Some(c) => Some(CountryView(id, c, Nationals(db.players, id), CountryClubs(db.clubs, id), CountryCompetitions(db.competitions, id)))
  }

  /**
   * What a loaded country holds: exactly the players of that nationality,
   * exactly the clubs of that country, and exactly the competitions held in it.
   */
  lemma LoadCountryRelations(db: Db, id: int)
    requires Has(db.countries, id)
    ensures var c := LoadCountry(db, id).value;
            (forall i :: 0 <= i < |c.players| ==> c.players[i] in db.players.rows && c.players[i].data.nationalityId == id) &&
            (forall i :: 0 <= i < |db.players.rows| && db.players.rows[i].data.nationalityId == id ==>
               db.players.rows[i] in c.players) &&
            (forall i :: 0 <= i < |c.clubs| ==> c.clubs[i] in db.clubs.rows && c.clubs[i].data.countryId == id) &&
            (forall i :: 0 <= i < |db.clubs.rows| && db.clubs.rows[i].data.countryId == id ==> db.clubs.rows[i] in c.clubs) &&
            (forall i :: 0 <= i < |c.competitions| ==>
               exists r :: r in db.competitions.rows && r.data.countryId == Some(id) && c.competitions[i] == Info(r)) &&
            (forall i :: 0 <= i < |db.competitions.rows| && db.competitions.rows[i].data.countryId == Some(id) ==>
               Info(db.competitions.rows[i]) in c.competitions)
  {
    var c := LoadCountry(db, id).value;
    assert c.competitions == CountryCompetitions(db.competitions, id);
  }

  /** `findAndCount` on the clubs table with the same relations loaded; a refused window is the database's error. */
  function ClubPage(db: Db, q: Query): (r: Outcome<Page<ClubView>>)
    ensures r.Failure? <==> PageOf(db.clubs, q).Failure?
    ensures r.Failure? ==> r.error == PageOf(db.clubs, q).error
    ensures r.Success? ==>
              var rows := PageOf(db.clubs, q).value;
              r.value.currentPage == rows.currentPage && r.value.limit == rows.limit &&
              r.value.totalItems == rows.totalItems && r.value.totalPages == rows.totalPages &&
              |r.value.items| == |rows.items| &&
              forall i :: 0 <= i < |rows.items| ==> r.value.items[i] == View(db, rows.items[i])
  {
    match PageOf(db.clubs, q)
    case Failure(e) => Failure(e)
    case Success(rows) =>
      var items := seq(|rows.items|, i requires 0 <= i < |rows.items| => View(db, rows.items[i]));
      Success(Page(items, rows.currentPage, rows.limit, rows.totalItems, rows.totalPages))
  }

  /** The documents the three cached services store. */
  datatype Json =
    | CountryDoc(country: CountryView)
    | CountryPageDoc(countries: Page<Row<Country>>)
    | ClubDoc(club: ClubView)
    | ClubPageDoc(clubs: Page<ClubView>)
    | UserDoc(user: Row<Account>)
    | UserPageDoc(users: Page<Row<Account>>)

  function CountryOf(j: Json): Option<CountryView> {
    if j.CountryDoc? then Some(j.country) else None
  }

  function CountryPageOf(j: Json): Option<Page<Row<Country>>> {
    if j.CountryPageDoc? then Some(j.countries) else None
  }

  function ClubOf(j: Json): Option<ClubView> {
    if j.ClubDoc? then Some(j.club) else None
  }

  function ClubPageOf(j: Json): Option<Page<ClubView>> {
    if j.ClubPageDoc? then Some(j.clubs) else None
  }

  function UserOf(j: Json): Option<Row<Account>> {
    if j.UserDoc? then Some(j.user) else None
  }

  function UserPageOf(j: Json): Option<Page<Row<Account>>> {
    if j.UserPageDoc? then Some(j.users) else None
  }

  /** The service whose keys a document lives under. */
  function Base(j: Json): (b: string)
    ensures IsBase(b)
  {
    match j
    case CountryDoc(_) => COUNTRIES
    case CountryPageDoc(_) => COUNTRIES
    case ClubDoc(_) => CLUBS
    case ClubPageDoc(_) => CLUBS
    case UserDoc(_) => USERS
    case UserPageDoc(_) => USERS
  }

  datatype World = World(
    countries: Table<Country>,
    clubs: Table<Club>,
    players: Table<Player>,
    users: Table<Account>,
    competitions: Table<Competition>,
    cache: Store<Json>)

  function DbOf(w: World): Db {
    Db(w.countries, w.clubs, w.players, w.competitions)
  }

  /** What a service call leaves behind, and what it returns or throws. */
  datatype Step<T> = Step(world: World, result: Outcome<T>)

  /** The query a cached page answers. */
  function QueryOf<T>(p: Page<T>): Query {
    Query(p.currentPage, p.limit)
  }

  /** Document `j` under key `k` is what the service would load for `k` from the tables of `w`. */
  predicate Agrees(w: World, k: string, j: Json) {
    match j
    case CountryDoc(v) =>
      k == EntityKey(COUNTRIES, v.id) && LoadCountry(DbOf(w), v.id) == Some(v)
    case CountryPageDoc(p) =>
      k == PageKey(COUNTRIES, p.currentPage, p.limit) && PageOf(w.countries, QueryOf(p)) == Success(p)
    case ClubDoc(v) =>
      k == EntityKey(CLUBS, v.id) && LoadClub(DbOf(w), v.id) == Some(v)
    case ClubPageDoc(p) =>
      k == PageKey(CLUBS, p.currentPage, p.limit) && ClubPage(DbOf(w), QueryOf(p)) == Success(p)
    case UserDoc(row) =>
      k == EntityKey(USERS, row.id) && Find(w.users, row.id) == Some(row.data)
    case UserPageDoc(p) =>
      k == PageKey(USERS, p.currentPage, p.limit) && PageOf(w.users, QueryOf(p)) == Success(p)
  }

  /** Key `k` lies under the namespace of one of `bases`. */
  predicate Under(bases: set<string>, k: string) {
    exists b :: b in bases && IsBase(b) && Matches(Namespace(b), k)
  }

  /** A service's own keys lie under no other service's namespace. */
  lemma {:induction false} OwnKeyOutside(base: string, rest: string, stale: set<string>)
    requires IsBase(base) && base !in stale
    ensures !Under(stale, base + rest)
  {
    forall b | b in stale && IsBase(b) ensures !Matches(Namespace(b), base + rest) {
      NamespacesDisjoint(b, base, rest);
    }
  }

  lemma EntityKeyOutside(base: string, id: int, stale: set<string>)
    requires IsBase(base) && base !in stale
    ensures !Under(stale, EntityKey(base, id))
  {
    assert EntityKey(base, id) == base + (":" + IntToString(id));
    OwnKeyOutside(base, ":" + IntToString(id), stale);
  }

  lemma PageKeyOutside(base: string, page: int, limit: int, stale: set<string>)
    requires IsBase(base) && base !in stale
    ensures !Under(stale, PageKey(base, page, limit))
  {
    var rest := ":page=" + IntToString(page) + ":limit=" + IntToString(limit);
    assert PageKey(base, page, limit) == base + rest;
    OwnKeyOutside(base, rest, stale);
  }

  /** Every cached document agrees with the tables, except perhaps those under the namespaces of `stale`. */
  predicate CoherentExcept(w: World, stale: set<string>) {
    forall k :: k in w.cache.entries && w.cache.entries[k].raw.Json? && !Under(stale, k) ==>
      Agrees(w, k, w.cache.entries[k].raw.value)
  }

  /** Every cached document agrees with the tables: each cached read returns what a database read would. */
  predicate Coherent(w: World) {
    CoherentExcept(w, {})
  }

  /**
   * The tables a service's documents are loaded from are the same in `w` and
   * `w2`: the users table for the users service, the other four for the clubs
   * and countries services.
   */
  predicate SameTables(w: World, w2: World, base: string) {
    if base == USERS then w2.users == w.users else DbOf(w2) == DbOf(w)
  }

  /** A document sits under its own service's namespace. */
  lemma AgreesInNamespace(w: World, k: string, j: Json)
    requires Agrees(w, k, j)
    ensures Matches(Namespace(Base(j)), k)
  {
    match j
    case CountryDoc(v) => NamespaceCovers(COUNTRIES, v.id, 1, 1);
    case CountryPageDoc(p) => NamespaceCovers(COUNTRIES, 0, p.currentPage, p.limit);
    case ClubDoc(v) => NamespaceCovers(CLUBS, v.id, 1, 1);
    case ClubPageDoc(p) => NamespaceCovers(CLUBS, 0, p.currentPage, p.limit);
    case UserDoc(row) => NamespaceCovers(USERS, row.id, 1, 1);
    case UserPageDoc(p) => NamespaceCovers(USERS, 0, p.currentPage, p.limit);
  }

  /** A document that agrees and is outside `stale` belongs to a service outside `stale`. */
  lemma BaseOutside(w: World, k: string, j: Json, stale: set<string>)
    requires Agrees(w, k, j) && !Under(stale, k)
    ensures Base(j) !in stale
  {
    AgreesInNamespace(w, k, j);
  }

  /** `invalidateByPattern("<base>*")` on the state's cache. */
  function Invalidate(w: World, base: string): (w2: World)
    ensures w2.(cache := w.cache) == w
    ensures forall k :: k in w2.cache.entries <==> k in w.cache.entries && !Matches(Namespace(base), k)
    ensures forall k :: k in w2.cache.entries ==> w2.cache.entries[k] == w.cache.entries[k]
  {
    w.(cache := InvalidateByPattern(w.cache, Namespace(base)).store)
  }

  /** A cached club document goes stale once the row of its club's country changes. */
  lemma ClubDocStale(w: World, w2: World, k: int, v: ClubView)
    requires Agrees(w, EntityKey(CLUBS, k), ClubDoc(v))
    requires w2.clubs == w.clubs
    requires Find(w2.countries, v.club.countryId) != Find(w.countries, v.club.countryId)
    ensures LoadClub(DbOf(w2), k).Some? && LoadClub(DbOf(w2), k) != Some(v)
  {
    EntityKeyInjective(CLUBS, v.id, k);
  }

  /** Invalidating one service's namespace leaves another service's keys as they were. */
  lemma InvalidateSparesOthers(w: World, base: string, other: string, rest: string)
    requires IsBase(base) && IsBase(other) && base != other
    ensures Get(Invalidate(w, base).cache, other + rest) == Get(w.cache, other + rest)
  {
    NamespacesDisjoint(base, other, rest);
  }

  /** No key of the service `base` is left in the cache. */
  predicate Flushed(c: Store<Json>, base: string) {
    forall k :: k in c.entries ==> !Matches(Namespace(base), k)
  }

  /**
   * A write that changes tables and leaves the cache alone: the documents of
   * every service whose tables did not change stay coherent, so only the
   * services in `stale2` may go stale.
   */
  lemma {:induction false} ChangeKeepsCoherent(w: World, w2: World, stale: set<string>, stale2: set<string>)
    requires CoherentExcept(w, stale) && w2.cache == w.cache && stale <= stale2
    requires forall b :: IsBase(b) && b !in stale2 ==> SameTables(w, w2, b)
    ensures CoherentExcept(w2, stale2)
  {
    forall k | k in w2.cache.entries && w2.cache.entries[k].raw.Json? && !Under(stale2, k)
      ensures Agrees(w2, k, w2.cache.entries[k].raw.value)
    {
      var j := w.cache.entries[k].raw.value;
      assert !Under(stale, k);
      BaseOutside(w, k, j, stale2);
      assert SameTables(w, w2, Base(j));
    }
  }

  /**
   * The services' mutation discipline: invalidate one namespace and change
   * tables. The invalidated service is left with no key, and every service
   * whose tables did not change stays coherent.
   */
  lemma {:induction false} InvalidateKeepsCoherent(w: World, w2: World, base: string, stale: set<string>)
    requires CoherentExcept(w, stale) && IsBase(base)
    requires w2.cache == Invalidate(w, base).cache
    requires forall b :: IsBase(b) && b != base && b !in stale ==> SameTables(w, w2, b)
    ensures CoherentExcept(w2, stale - {base})
    ensures Flushed(w2.cache, base)
  {
    forall k | k in w2.cache.entries && w2.cache.entries[k].raw.Json? && !Under(stale - {base}, k)
      ensures Agrees(w2, k, w2.cache.entries[k].raw.value)
    {
      var j := w.cache.entries[k].raw.value;
      assert !Matches(Namespace(base), k);
      assert !Under(stale, k);
      BaseOutside(w, k, j, stale);
      AgreesInNamespace(w, k, j);
      assert Base(j) != base;
      assert SameTables(w, w2, Base(j));
    }
  }

  /** Writing a document that agrees with the tables keeps every service as coherent as it was. */
  lemma {:induction false} SetKeepsCoherent(w: World, k: string, j: Json, stale: set<string>)
    requires CoherentExcept(w, stale) && Agrees(w, k, j)
    ensures CoherentExcept(w.(cache := Set(w.cache, k, j, None)), stale)
  {
    var w2 := w.(cache := Set(w.cache, k, j, None));
    forall k2 | k2 in w2.cache.entries && w2.cache.entries[k2].raw.Json? && !Under(stale, k2)
      ensures Agrees(w2, k2, w2.cache.entries[k2].raw.value)
    {
      if k2 != k {
        assert Get(w2.cache, k2) == Get(w.cache, k2);
        assert Agrees(w, k2, w.cache.entries[k2].raw.value);
      }
    }
  }

  /**
   * The invalidation every write to the relational tables needs: both the
   * `clubs*` and the `countries*` namespaces, since each service's documents
   * embed the other's rows.
   */
  function Settle(w: World): (w2: World)
    ensures w2.(cache := w.cache) == w
    ensures Flushed(w2.cache, CLUBS) && Flushed(w2.cache, COUNTRIES)
    ensures forall k :: k in w2.cache.entries <==>
              k in w.cache.entries && !Matches(Namespace(CLUBS), k) && !Matches(Namespace(COUNTRIES), k)
  {
    Invalidate(Invalidate(w, CLUBS), COUNTRIES)
  }

  /** Whatever a write did to the relational tables, settling restores full coherence once the users' documents agree. */
  lemma {:induction false} SettleCoherent(w: World)
    requires CoherentExcept(w, {CLUBS, COUNTRIES})
    ensures Coherent(Settle(w))
  {
    var w1 := Invalidate(w, CLUBS);
    InvalidateKeepsCoherent(w, w1, CLUBS, {CLUBS, COUNTRIES});
    assert {CLUBS, COUNTRIES} - {CLUBS} == {COUNTRIES};
    InvalidateKeepsCoherent(w1, Settle(w), COUNTRIES, {COUNTRIES});
    assert {COUNTRIES} - {COUNTRIES} == {};
  }

  /** A service call's outcome, with the cache settled afterwards. */
  function Settled<T>(s: Step<T>): (r: Step<T>)
    ensures r.result == s.result && r.world == Settle(s.world)
  {
    Step(Settle(s.world), s.result)
  }
}
