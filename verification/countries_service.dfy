/**
 * The countries service: cache-aside reads under `countries:<id>` and
 * `countries:page=<p>:limit=<l>`, unique names and ISO codes, partial
 * updates, and invalidation of `countries*` on every write.
 */
module CountriesService {
  import opened Wrappers
  import opened Text
  import opened HttpErrors
  import opened Entities
  import opened Repository
  import opened RedisStore
  import opened CacheKeys
  import opened CacheAside
  import opened Pagination
  import opened Backend

  function NotFoundMessage(id: int): string {
    "Country with id " + IntToString(id) + " does not exist"
  }

  function NameTakenMessage(name: string): string {
    "Country with name " + name + " already exists"
  }

  function IsoTakenMessage(isoCode: string): string {
    "Country with ISO code " + isoCode + " already exists"
  }

  function Wrap(v: CountryView): Json {
    CountryDoc(v)
  }

  function WrapPage(p: Page<Row<Country>>): Json {
    CountryPageDoc(p)
  }

  /**
   * `findOne(id)`: the cached document, or the country loaded with its
   * players, clubs and competitions and written back. Only the cache may
   * change, and a failure changes nothing.
   */
  function FindOne(w: World, id: int): (s: Step<CountryView>)
    ensures s.world.(cache := w.cache) == w
    ensures s.result.Failure? ==> s.world == w && s.result.error == NotFound(NotFoundMessage(id))
    ensures Cached(w.cache, EntityKey(COUNTRIES, id), CountryOf).Some? ==>
              s == Step(w, Success(Cached(w.cache, EntityKey(COUNTRIES, id), CountryOf).value))
    ensures Cached(w.cache, EntityKey(COUNTRIES, id), CountryOf).None? ==>
              (s.result.Success? <==> Has(w.countries, id)) &&
              (s.result.Success? ==> LoadCountry(DbOf(w), id) == Some(s.result.value) &&
                                     Get(s.world.cache, EntityKey(COUNTRIES, id)) == Some(CountryDoc(s.result.value)))
    ensures forall k :: k != EntityKey(COUNTRIES, id) ==> Get(s.world.cache, k) == Get(w.cache, k)
  {
    var r := ReadThrough(w.cache, EntityKey(COUNTRIES, id), CountryOf, Wrap, LoadCountry(DbOf(w), id),
                         NotFound(NotFoundMessage(id)));
    Step(w.(cache := r.cache), r.result)
  }

  /**
   * While the countries' documents are coherent, `findOne` answers exactly
   * what the tables hold, hit or miss; it never makes any document stale.
   */
  lemma {:induction false} FindOneTransparent(w: World, id: int, stale: set<string>)
    requires CoherentExcept(w, stale)
    ensures CoherentExcept(FindOne(w, id).world, stale)
    ensures COUNTRIES !in stale ==>
              FindOne(w, id).result ==
                if Has(w.countries, id) then Success(LoadCountry(DbOf(w), id).value)
                else Failure(NotFound(NotFoundMessage(id)))
  {
    var key := EntityKey(COUNTRIES, id);
    match Cached(w.cache, key, CountryOf)
    case Some(v) =>
      if COUNTRIES !in stale {
        EntityKeyOutside(COUNTRIES, id, stale);
        assert Agrees(w, key, CountryDoc(v));
        EntityKeyInjective(COUNTRIES, v.id, id);
      }
    case None =>
      if Has(w.countries, id) {
        SetKeepsCoherent(w, key, CountryDoc(LoadCountry(DbOf(w), id).value), stale);
      }
  }

  /**
   * `findAll({ page, limit })`: the cached page, or the window of the table
   * written back. A window the database refuses throws its error and writes
   * nothing.
   */
  function FindAll(w: World, q: Query): (s: Step<Page<Row<Country>>>)
    ensures s.world.(cache := w.cache) == w
    ensures s.result.Failure? ==> s.world == w && s.result == PageOf(w.countries, q)
    ensures Cached(w.cache, PageKey(COUNTRIES, q.page, q.limit), CountryPageOf).Some? ==>
              s == Step(w, Success(Cached(w.cache, PageKey(COUNTRIES, q.page, q.limit), CountryPageOf).value))
    ensures Cached(w.cache, PageKey(COUNTRIES, q.page, q.limit), CountryPageOf).None? ==>
              s.result == PageOf(w.countries, q) &&
              (s.result.Success? ==> Get(s.world.cache, PageKey(COUNTRIES, q.page, q.limit)) == Some(CountryPageDoc(s.result.value)))
  {
    var r := ReadLoaded(w.cache, PageKey(COUNTRIES, q.page, q.limit), CountryPageOf, WrapPage, PageOf(w.countries, q));
    Step(w.(cache := r.cache), r.result)
  }

  /** While the countries' documents are coherent, `findAll` answers what the table's window now is, hit or miss. */
  lemma {:induction false} FindAllTransparent(w: World, q: Query, stale: set<string>)
    requires CoherentExcept(w, stale)
    ensures CoherentExcept(FindAll(w, q).world, stale)
    ensures COUNTRIES !in stale ==> FindAll(w, q).result == PageOf(w.countries, q)
  {
    var key := PageKey(COUNTRIES, q.page, q.limit);
    match Cached(w.cache, key, CountryPageOf)
    case Some(p) =>
      if COUNTRIES !in stale {
        PageKeyOutside(COUNTRIES, q.page, q.limit, stale);
        assert Agrees(w, key, CountryPageDoc(p));
        PageKeyInjective(COUNTRIES, p.currentPage, p.limit, q.page, q.limit);
      }
    case None =>
      if PageOf(w.countries, q).Success? {
        SetKeepsCoherent(w, key, CountryPageDoc(PageOf(w.countries, q).value), stale);
      }
  }

  /** `existsBy({ name })`. */
  predicate NameTaken(t: Table<Country>, name: string) {
    exists i :: 0 <= i < |t.rows| && t.rows[i].data.name == name
  }

  /** `existsBy({ isoCode })`. */
  predicate IsoTaken(t: Table<Country>, isoCode: string) {
    exists i :: 0 <= i < |t.rows| && t.rows[i].data.isoCode == isoCode
  }

  /** A taken name or ISO code stays taken when a row is appended. */
  lemma TakenAfterInsert(t: Table<Country>, d: Country)
    ensures NameTaken(Insert(t, d).0, d.name) && IsoTaken(Insert(t, d).0, d.isoCode)
    ensures forall n :: NameTaken(t, n) ==> NameTaken(Insert(t, d).0, n)
    ensures forall c :: IsoTaken(t, c) ==> IsoTaken(Insert(t, d).0, c)
  {
    var rows := Insert(t, d).0.rows;
    assert rows[|t.rows|].data == d;
    forall n | NameTaken(t, n) ensures NameTaken(Insert(t, d).0, n) {
      var i :| 0 <= i < |t.rows| && t.rows[i].data.name == n;
      assert rows[i] == t.rows[i];
    }
    forall c | IsoTaken(t, c) ensures IsoTaken(Insert(t, d).0, c) {
      var i :| 0 <= i < |t.rows| && t.rows[i].data.isoCode == c;
      assert rows[i] == t.rows[i];
    }
  }

  /**
   * `create(dto)`: the name check, then the ISO-code check, each a Conflict
   * thrown before anything is written; then `countries*` is invalidated and
   * the row inserted.
   */
  function Create(w: World, dto: Country): (s: Step<Row<Country>>)
    ensures NameTaken(w.countries, dto.name) ==> s == Step(w, Failure(Conflict(NameTakenMessage(dto.name))))
    ensures !NameTaken(w.countries, dto.name) && IsoTaken(w.countries, dto.isoCode) ==>
              s == Step(w, Failure(Conflict(IsoTakenMessage(dto.isoCode))))
    ensures s.result.Success? <==> !NameTaken(w.countries, dto.name) && !IsoTaken(w.countries, dto.isoCode)
    ensures s.result.Success? ==>
              s.result.value == Row(w.countries.nextId, dto) &&
              s.world.countries == Insert(w.countries, dto).0 &&
              s.world.(countries := w.countries, cache := w.cache) == w &&
              Flushed(s.world.cache, COUNTRIES)
  {
    if NameTaken(w.countries, dto.name) then Step(w, Failure(Conflict(NameTakenMessage(dto.name))))
    else if IsoTaken(w.countries, dto.isoCode) then Step(w, Failure(Conflict(IsoTakenMessage(dto.isoCode))))
    else
      var w1 := Invalidate(w, COUNTRIES);
      var (t, id) := Insert(w.countries, dto);
      Step(w1.(countries := t), Success(Row(id, dto)))
  }

  /**
   * `create` invalidates only `countries*`. A club document embeds its
   * country and its players' nationalities, so the clubs' documents are the
   * only ones that may go stale, and settling the cache restores coherence.
   */
  lemma {:induction false} CreateCoherent(w: World, dto: Country)
    requires Coherent(w)
    ensures CoherentExcept(Create(w, dto).world, {CLUBS})
    ensures Coherent(Settle(Create(w, dto).world))
  {
    var s := Create(w, dto);
    if s.result.Success? {
      InvalidateKeepsCoherent(w, s.world, COUNTRIES, {CLUBS});
    } else {
      ChangeKeepsCoherent(w, w, {}, {CLUBS});
    }
    SettleCoherent(s.world);
  }

  /** The fields of an update request; each may be absent. */
  datatype CountryChanges = CountryChanges(name: Option<string>, isoCode: Option<string>, flagUrl: Option<string>)

  /** The country after the update's assignments. */
  function Apply(c: Country, dto: CountryChanges): (r: Country)
    ensures r.name == (if Renames(dto.name, c.name) then dto.name.value else c.name)
    ensures r.isoCode == (if Renames(dto.isoCode, c.isoCode) then dto.isoCode.value else c.isoCode)
    ensures r.flagUrl == (if Filled(dto.flagUrl) then dto.flagUrl.value else c.flagUrl)
  {
    Country(if Renames(dto.name, c.name) then dto.name.value else c.name,
            if Renames(dto.isoCode, c.isoCode) then dto.isoCode.value else c.isoCode,
            if Filled(dto.flagUrl) then dto.flagUrl.value else c.flagUrl)
  }

  /** An update that gives no field, or only empty ones, changes nothing; applying one twice is applying it once. */
  lemma ApplyPartial(c: Country, dto: CountryChanges)
    ensures !Filled(dto.name) && !Filled(dto.isoCode) && !Filled(dto.flagUrl) ==> Apply(c, dto) == c
    ensures Apply(Apply(c, dto), dto) == Apply(c, dto)
  {
  }

  /** The Conflict an update throws, if any: the name is checked before the ISO code. */
  function UpdateConflict(t: Table<Country>, c: Country, dto: CountryChanges): (e: Option<HttpError>)
    ensures e.None? <==> !(Renames(dto.name, c.name) && NameTaken(t, dto.name.value)) &&
                         !(Renames(dto.isoCode, c.isoCode) && IsoTaken(t, dto.isoCode.value))
    ensures Renames(dto.name, c.name) && NameTaken(t, dto.name.value) ==> e == Some(Conflict(NameTakenMessage(dto.name.value)))
  {
    if Renames(dto.name, c.name) && NameTaken(t, dto.name.value) then Some(Conflict(NameTakenMessage(dto.name.value)))
    else if Renames(dto.isoCode, c.isoCode) && IsoTaken(t, dto.isoCode.value) then Some(Conflict(IsoTakenMessage(dto.isoCode.value)))
    else None
  }

  /**
   * `update(id, dto)`: `findOne`, then the checks of the changed fields, then
   * the invalidation of `countries*` and the save, which returns the loaded
   * country with the changes applied. Every failure leaves the state as
   * `findOne` left it.
   */
  function Update(w: World, id: int, dto: CountryChanges): (s: Step<CountryView>)
    ensures FindOne(w, id).result.Failure? ==> s == FindOne(w, id)
    ensures s.result.Failure? ==> s.world == FindOne(w, id).world
    ensures FindOne(w, id).result.Success? ==>
              var found := FindOne(w, id).result.value;
              var e := UpdateConflict(w.countries, found.country, dto);
              (e.Some? ==> s.result == Failure(e.value)) &&
              (e.None? ==> s.result == Success(found.(country := Apply(found.country, dto))) &&
                           s.world.countries == Save(w.countries, found.id, Apply(found.country, dto)) &&
                           s.world.(countries := w.countries, cache := w.cache) == w &&
                           s.world.cache == Invalidate(FindOne(w, id).world, COUNTRIES).cache &&
                           Flushed(s.world.cache, COUNTRIES))
  {
    var found := FindOne(w, id);
    if found.result.Failure? then found
    else
      var v := found.result.value;
      match UpdateConflict(w.countries, v.country, dto)
      case Some(e) => Step(found.world, Failure(e))
      case None =>
        var c := Apply(v.country, dto);
        var w1 := Invalidate(found.world, COUNTRIES);
        Step(w1.(countries := Save(w.countries, v.id, c)), Success(v.(country := c)))
  }

  /**
   * From a coherent cache, `update` saves the changes under the requested id
   * and returns the country as it now loads. Only the clubs' documents, which
   * embed the country, may be left stale, and settling the cache restores
   * coherence.
   */
  lemma {:induction false} UpdateCoherent(w: World, id: int, dto: CountryChanges)
    requires Coherent(w)
    ensures CoherentExcept(Update(w, id, dto).world, {CLUBS})
    ensures Coherent(Settle(Update(w, id, dto).world))
    ensures Update(w, id, dto).result.Success? ==>
              Has(w.countries, id) &&
              Find(Update(w, id, dto).world.countries, id) == Some(Apply(Find(w.countries, id).value, dto)) &&
              LoadCountry(DbOf(Update(w, id, dto).world), id) == Some(Update(w, id, dto).result.value)
  {
    FindOneTransparent(w, id, {});
    var s := Update(w, id, dto);
    if s.result.Success? {
      InvalidateKeepsCoherent(FindOne(w, id).world, s.world, COUNTRIES, {CLUBS});
    } else {
      ChangeKeepsCoherent(s.world, s.world, {}, {CLUBS});
    }
    SettleCoherent(s.world);
  }

  /**
   * A renaming `update` leaves a cached club document of that country in
   * place, still naming the country as it was: `clubs:<k>` is served stale
   * until something invalidates `clubs*`.
   */
  lemma {:induction false} UpdateLeavesClubStale(w: World, id: int, dto: CountryChanges, k: int)
    requires Coherent(w)
    requires Cached(w.cache, EntityKey(CLUBS, k), ClubOf).Some?
    requires Cached(w.cache, EntityKey(CLUBS, k), ClubOf).value.club.countryId == id
    requires Update(w, id, dto).result.Success? && Has(w.countries, id)
    requires Apply(Find(w.countries, id).value, dto) != Find(w.countries, id).value
    ensures Cached(Update(w, id, dto).world.cache, EntityKey(CLUBS, k), ClubOf) == Cached(w.cache, EntityKey(CLUBS, k), ClubOf)
    ensures LoadClub(DbOf(Update(w, id, dto).world), k).Some?
    ensures LoadClub(DbOf(Update(w, id, dto).world), k) != Cached(w.cache, EntityKey(CLUBS, k), ClubOf)
  {
    var key := EntityKey(CLUBS, k);
    var v := Cached(w.cache, key, ClubOf).value;
    assert Agrees(w, key, ClubDoc(v));
    var w2 := Update(w, id, dto).world;
    UpdateSavesRow(w, id, dto);
    UpdateSparesClubs(w, id, dto, k);
    ClubDocStale(w, w2, k, v);
  }

  /** From a coherent cache, a successful `update` rewrites the country's row and no other table. */
  lemma {:induction false} UpdateSavesRow(w: World, id: int, dto: CountryChanges)
    requires Coherent(w) && Update(w, id, dto).result.Success?
    ensures Has(w.countries, id)
    ensures Find(Update(w, id, dto).world.countries, id) == Some(Apply(Find(w.countries, id).value, dto))
    ensures Update(w, id, dto).world.clubs == w.clubs
  {
    FindOneTransparent(w, id, {});
  }

  /** A successful `update` leaves every club document in the cache as it was. */
  lemma {:induction false} UpdateSparesClubs(w: World, id: int, dto: CountryChanges, k: int)
    requires Update(w, id, dto).result.Success?
    ensures Get(Update(w, id, dto).world.cache, EntityKey(CLUBS, k)) == Get(w.cache, EntityKey(CLUBS, k))
  {
    var found := FindOne(w, id);
    var rest := ":" + IntToString(k);
    assert EntityKey(CLUBS, k) == CLUBS + rest;
    NamespacesDisjoint(COUNTRIES, CLUBS, rest);
    NamespaceCovers(COUNTRIES, id, 1, 1);
    assert Get(found.world.cache, CLUBS + rest) == Get(w.cache, CLUBS + rest);
    InvalidateSparesOthers(found.world, COUNTRIES, CLUBS, rest);
  }

  /** `remove(id)`: `findOne`, delete the row, then invalidate `countries*`. */
  function Remove(w: World, id: int): (s: Step<()>)
    ensures s.result.Failure? <==> FindOne(w, id).result.Failure?
    ensures s.result.Failure? ==> s == Step(FindOne(w, id).world, Failure(FindOne(w, id).result.error))
    ensures s.result.Success? ==>
              var found := FindOne(w, id).result.value;
              !Has(s.world.countries, found.id) &&
              (forall k :: k != found.id ==> Find(s.world.countries, k) == Find(w.countries, k)) &&
              s.world.(countries := w.countries, cache := w.cache) == w &&
              Flushed(s.world.cache, COUNTRIES)
  {
    var found := FindOne(w, id);
    if found.result.Failure? then Step(found.world, Failure(found.result.error))
    else
      var w1 := found.world.(countries := Delete(w.countries, found.result.value.id));
      Step(Invalidate(w1, COUNTRIES), Success(()))
  }

  /**
   * From a coherent cache, `remove` deletes exactly the requested id. Only
   * the clubs' documents may be left stale, and settling restores coherence.
   */
  lemma {:induction false} RemoveCoherent(w: World, id: int)
    requires Coherent(w)
    ensures CoherentExcept(Remove(w, id).world, {CLUBS})
    ensures Coherent(Settle(Remove(w, id).world))
    ensures Remove(w, id).result.Success? <==> Has(w.countries, id)
    ensures Remove(w, id).result.Success? ==> !Has(Remove(w, id).world.countries, id)
  {
    FindOneTransparent(w, id, {});
    var s := Remove(w, id);
    if s.result.Success? {
      InvalidateKeepsCoherent(FindOne(w, id).world, s.world, COUNTRIES, {CLUBS});
    } else {
      ChangeKeepsCoherent(s.world, s.world, {}, {CLUBS});
    }
    SettleCoherent(s.world);
  }

  /**
   * `createBulk(dtos)`: one `create` per request, in order, stopping at the
   * first failure; it adds no invalidation of its own.
   */
  function CreateBulk(w: World, dtos: seq<Country>): (s: Step<seq<Row<Country>>>)
    ensures s.result.Success? ==>
              |s.result.value| == |dtos| && forall i :: 0 <= i < |dtos| ==> s.result.value[i].data == dtos[i]
    ensures s.result.Success? ==> forall i :: 0 <= i < |dtos| ==>
              !NameTaken(w.countries, dtos[i].name) && !IsoTaken(w.countries, dtos[i].isoCode) &&
              NameTaken(s.world.countries, dtos[i].name) && IsoTaken(s.world.countries, dtos[i].isoCode)
    ensures s.result.Success? ==> forall i, j :: 0 <= i < j < |dtos| ==>
              dtos[i].name != dtos[j].name && dtos[i].isoCode != dtos[j].isoCode
    ensures forall n :: NameTaken(w.countries, n) ==> NameTaken(s.world.countries, n)
    ensures forall c :: IsoTaken(w.countries, c) ==> IsoTaken(s.world.countries, c)
    decreases |dtos|
  {
    if |dtos| == 0 then Step(w, Success([]))
    else
      var first := Create(w, dtos[0]);
      if first.result.Failure? then Step(first.world, Failure(first.result.error))
      else
        TakenAfterInsert(w.countries, dtos[0]);
        var rest := CreateBulk(first.world, dtos[1..]);
        if rest.result.Failure? then Step(rest.world, Failure(rest.result.error))
        else
          assert forall i :: 1 <= i < |dtos| ==> dtos[i] == dtos[1..][i - 1];
          Step(rest.world, Success([first.result.value] + rest.result.value))
  }

  /** In a sequential run, a batch that repeats a name fails with the Conflict of the repeat. */
  lemma RepeatedNameFails(w: World, d: Country, e: Country)
    requires d.name == e.name
    requires !NameTaken(w.countries, d.name) && !IsoTaken(w.countries, d.isoCode)
    ensures CreateBulk(w, [d, e]).result == Failure(Conflict(NameTakenMessage(e.name)))
  {
    TakenAfterInsert(w.countries, d);
    var first := Create(w, d);
    assert CreateBulk(first.world, [e]).result == Failure(Conflict(NameTakenMessage(e.name)));
    assert [d, e][1..] == [e];
  }
}
