/**
 * The request bodies the four management pages build from their forms, and
 * what two of them meet on the server.
 */
module ManagementPages {
  import opened Wrappers
  import opened Text
  import opened HttpErrors
  import opened Entities
  import opened Repository
  import opened Backend
  import opened ClientLists
  import C = ClientTypes
  import DtoValidation
  import CompetitionsService

  function CountryName(c: C.Country): string { c.name }
  function ClubName(c: C.Club): string { c.name }

  /** The id of the first country whose lower-cased name is the trimmed, lower-cased text; undefined otherwise. */
  function CountryIdByName(countries: seq<C.Country>, typed: string): (r: Option<int>)
    ensures r.Some? <==> exists c :: c in countries && ToLower(c.name) == SearchTerm(typed)
    ensures r.Some? ==> exists c :: c in countries && ToLower(c.name) == SearchTerm(typed) && c.id == r.value
  {
    var m := MatchByName(countries, typed, CountryName);
    if m.Some? then Some(m.value.id) else None
  }

  /** The same lookup over clubs. */
  function ClubIdByName(clubs: seq<C.Club>, typed: string): (r: Option<int>)
    ensures r.Some? <==> exists c :: c in clubs && ToLower(c.name) == SearchTerm(typed)
    ensures r.Some? ==> exists c :: c in clubs && ToLower(c.name) == SearchTerm(typed) && c.id == r.value
  {
    var m := MatchByName(clubs, typed, ClubName);
    if m.Some? then Some(m.value.id) else None
  }

  // ---------------------------------------------------------------------
  // Competitions
  // ---------------------------------------------------------------------

  /** The text fields of the add/edit competition form. */
  datatype CompetitionForm = CompetitionForm(name: string, logoUrl: string, establishedAt: string, competitionType: string, country: string)

  /** The add body: it has no field for clubs at all. */
  datatype NewCompetition = NewCompetition(
    name: string, logoUrl: string, establishedAt: Option<string>, competitionType: string, countryId: Option<int>)

  /** The edit body: no founding date, and the selected clubs as `clubsIds`. */
  datatype CompetitionEdit = CompetitionEdit(
    name: string, logoUrl: string, competitionType: string, countryId: Option<int>, clubsIds: seq<int>)

  /** `handleAddCompetition`: an empty date field is sent as undefined; the country is looked up by name. */
  function AddCompetitionBody(form: CompetitionForm, countries: seq<C.Country>): (b: NewCompetition)
    ensures b.establishedAt.None? <==> form.establishedAt == ""
    ensures b.countryId == CountryIdByName(countries, form.country)
    ensures b.name == form.name
  {
    NewCompetition(form.name, form.logoUrl,
                   if form.establishedAt != "" then Some(form.establishedAt) else None,
                   form.competitionType, CountryIdByName(countries, form.country))
  }

  /** `showEditCompetitionDialog`: the selection starts as the competition's current club ids. */
  function InitialSelection(c: C.Competition): (ids: seq<int>)
    ensures c.clubs.None? ==> ids == []
    ensures c.clubs.Some? ==> |ids| == |c.clubs.value|
    ensures c.clubs.Some? ==> forall i :: 0 <= i < |ids| ==> ids[i] == c.clubs.value[i].id
  {
    if c.clubs.Some? then seq(|c.clubs.value|, i requires 0 <= i < |c.clubs.value| => c.clubs.value[i].id) else []
  }

  /** `handleEditCompetition`: the form fields, the looked-up country and the current selection. */
  function EditCompetitionBody(form: CompetitionForm, countries: seq<C.Country>, selected: seq<int>): (b: CompetitionEdit)
    ensures b.clubsIds == selected && b.name == form.name
    ensures b.countryId == CountryIdByName(countries, form.country)
  {
    CompetitionEdit(form.name, form.logoUrl, form.competitionType, CountryIdByName(countries, form.country), selected)
  }

  /**
   * The add and the edit handler read the same form the same way: the
   * same name, logo, type and looked-up country, where the edit body alone
   * carries the selected clubs. A country typed as its own listed name,
   * in any case and with white space around it, is found by both.
   */
  lemma AddAndEditBodiesAgree(form: CompetitionForm, countries: seq<C.Country>, selected: seq<int>, c: C.Country)
    ensures var a := AddCompetitionBody(form, countries);
            var e := EditCompetitionBody(form, countries, selected);
            a.name == e.name && a.logoUrl == e.logoUrl && a.competitionType == e.competitionType &&
            a.countryId == e.countryId && e.clubsIds == selected
    ensures c in countries && SearchTerm(form.country) == ToLower(c.name) ==>
              AddCompetitionBody(form, countries).countryId.Some?
  {
  }

  /**
   * Opening the edit dialog and saving without touching a checkbox sends
   * the competition's own clubs back: each of its clubs' ids, in order,
   * and nothing when its clubs were not loaded.
   */
  lemma OpenAndSaveSendsOwnClubs(c: C.Competition, form: CompetitionForm, countries: seq<C.Country>)
    ensures var sent := EditCompetitionBody(form, countries, InitialSelection(c)).clubsIds;
            (c.clubs.None? ==> sent == []) &&
            (c.clubs.Some? ==> |sent| == |c.clubs.value| && forall k :: k in c.clubs.value ==> k.id in sent)
  {
    var sent := InitialSelection(c);
    if c.clubs.Some? {
      forall k | k in c.clubs.value
        ensures k.id in sent
      {
        var i :| 0 <= i < |c.clubs.value| && c.clubs.value[i] == k;
        assert sent[i] == k.id;
      }
    }
  }

  /** What the server's update receives: JSON drops the undefined country id; every other field is present. */
  function EditAsChanges(b: CompetitionEdit): (d: CompetitionsService.CompetitionChanges)
    ensures d.name == Some(b.name) && d.clubsIds == Some(b.clubsIds) && d.establishedAt.None?
  {
    CompetitionsService.CompetitionChanges(Some(b.name), Some(b.logoUrl), None, Some(b.competitionType), b.countryId, Some(b.clubsIds))
  }

  /**
   * The edit dialog always sends the name field, so saving a competition
   * without renaming it meets the server's unconditional name check and is
   * refused with 409, whatever type is chosen. The corrected update accepts
   * the same request exactly when the type is one of the enum column's
   * labels, as every option of the form's type select is.
   */
  lemma EditWithoutRenameRefused(w: World, id: int, form: CompetitionForm, countries: seq<C.Country>, selected: seq<int>)
    requires Has(w.competitions, id)
    requires form.name == Find(w.competitions, id).value.name
    ensures CompetitionsService.Update(w, id, EditAsChanges(EditCompetitionBody(form, countries, selected))) ==
      Step(w, Failure(Conflict(CompetitionsService.NameTakenMessage(Some(form.name)))))
    ensures CompetitionsService.UpdateChecked(w, id, EditAsChanges(EditCompetitionBody(form, countries, selected))).result.Success? <==>
      form.competitionType in CompetitionsService.COMPETITION_TYPES
    ensures form.competitionType in C.COMPETITION_TYPE_OPTIONS ==>
      CompetitionsService.UpdateChecked(w, id, EditAsChanges(EditCompetitionBody(form, countries, selected))).result.Success?
  {
    var dto := EditAsChanges(EditCompetitionBody(form, countries, selected));
    CompetitionsService.KeepingNameConflicts(w, id, dto);
    CompetitionsService.UpdateCheckedKeepsName(w, id, dto);
  }

  // ---------------------------------------------------------------------
  // Clubs
  // ---------------------------------------------------------------------

  datatype ClubForm = ClubForm(name: string, logoUrl: string, establishedAt: string, country: string)

  /** The add body; `countryId` None stands for NaN, which JSON sends as null. */
  datatype NewClub = NewClub(name: string, logoUrl: string, establishedAt: string, countryId: Option<int>)

  datatype ClubEdit = ClubEdit(name: string, logoUrl: string, countryId: Option<int>)

  /** `handleAddClub`: the country is `Number(text)` of the country field, whose suggestions are country names. */
  function AddClubBody(form: ClubForm): (b: NewClub)
    ensures Trim(form.country) == "" ==> b.countryId == Some(0)
    ensures b.countryId.Some? && Trim(form.country) != "" ==>
      exists k :: 0 <= k < |Trim(form.country)| && IsDigit(Trim(form.country)[k])
  {
    NewClub(form.name, form.logoUrl, form.establishedAt, NumberOf(form.country))
  }

  /** `handleEditClub`: the country is looked up by name instead. */
  function EditClubBody(form: ClubForm, countries: seq<C.Country>): (b: ClubEdit)
    ensures b.countryId == CountryIdByName(countries, form.country)
  {
    ClubEdit(form.name, form.logoUrl, CountryIdByName(countries, form.country))
  }

  /** The body the server's validation sees for an add request; `date` is the JSON text of the founding date, if any. */
  function AddClubAsBody(b: NewClub, date: Option<string>): DtoValidation.ClubBody {
    DtoValidation.ClubBody(Some(b.name), Some(b.logoUrl), b.countryId, date)
  }

  /**
   * Choosing a suggested country name (any non-blank text without a digit)
   * sends NaN, and the server refuses the club with "Country ID is required".
   */
  lemma AddClubByCountryNameRefused(form: ClubForm, date: Option<string>, isUrl: string -> bool, maxDate: Date, parseDate: string -> Option<Date>)
    requires forall i :: 0 <= i < |form.country| ==> !IsDigit(form.country[i])
    requires Trim(form.country) != ""
    ensures AddClubBody(form).countryId.None?
    ensures "Country ID is required" in DtoValidation.Report(DtoValidation.ClubChecks(AddClubAsBody(AddClubBody(form), date), isUrl, maxDate, parseDate))
  {
    NumberOfWithoutDigits(form.country);
    var checks := DtoValidation.ClubChecks(AddClubAsBody(AddClubBody(form), date), isUrl, maxDate, parseDate);
    assert !checks[5].ok && checks[5].message == "Country ID is required";
  }

  /** `handleAddClub` as intended: the country is looked up by name, as the edit handler does. */
  function AddClubBodyByName(form: ClubForm, countries: seq<C.Country>): (b: NewClub)
    ensures b.countryId.Some? <==> exists c :: c in countries && ToLower(c.name) == SearchTerm(form.country)
    ensures b.countryId.Some? ==> exists c :: c in countries && ToLower(c.name) == SearchTerm(form.country) && c.id == b.countryId.value
    ensures b.name == form.name && b.logoUrl == form.logoUrl
  {
    NewClub(form.name, form.logoUrl, form.establishedAt, CountryIdByName(countries, form.country))
  }

  /**
   * With the corrected add, choosing a suggested country name sends that
   * country's id, and the server's country checks both pass.
   */
  lemma AddClubByNameFindsCountry(form: ClubForm, countries: seq<C.Country>, date: Option<string>, isUrl: string -> bool, maxDate: Date, parseDate: string -> Option<Date>)
    requires exists c :: c in countries && ToLower(c.name) == SearchTerm(form.country)
    requires forall c :: c in countries ==> c.id >= 1
    ensures AddClubBodyByName(form, countries).countryId.Some?
    ensures AddClubBodyByName(form, countries).countryId == EditClubBody(form, countries).countryId
    ensures "Country ID is required" !in DtoValidation.Report(DtoValidation.ClubChecks(AddClubAsBody(AddClubBodyByName(form, countries), date), isUrl, maxDate, parseDate))
    ensures "Country ID must be a positive number" !in DtoValidation.Report(DtoValidation.ClubChecks(AddClubAsBody(AddClubBodyByName(form, countries), date), isUrl, maxDate, parseDate))
  {
    var b := AddClubBodyByName(form, countries);
    assert b.countryId.Some? && b.countryId.value >= 1;
    DtoValidation.CountryIdPasses(AddClubAsBody(b, date), isUrl, maxDate, parseDate);
  }

  // ---------------------------------------------------------------------
  // Players
  // ---------------------------------------------------------------------

  /** The text fields of the player form (the market value is left out). */
  datatype PlayerForm = PlayerForm(
    name: string, age: string, position: string, rating: string, imageUrl: string, club: string, nationality: string)

  datatype PlayerBody = PlayerBody(
    name: string, age: Option<int>, position: string, rating: Option<int>, imageUrl: string,
    clubId: Option<int>, nationalityId: Option<int>)

  const NATIONALITY_NOT_FOUND := "Nationality not found."

  /** The body both handlers build: numbers through `Number`, club and nationality looked up by name. */
  function PlayerBodyOf(form: PlayerForm, clubs: seq<C.Club>, nationalities: seq<C.Country>): PlayerBody {
    PlayerBody(form.name, NumberOf(form.age), form.position, NumberOf(form.rating), form.imageUrl,
               ClubIdByName(clubs, form.club), CountryIdByName(nationalities, form.nationality))
  }

  /**
   * `handleAddPlayer`: stops with "Nationality not found." and sends
   * nothing when no nationality matches; an unmatched club is a free agent.
   */
  function AddPlayerBody(form: PlayerForm, clubs: seq<C.Club>, nationalities: seq<C.Country>): (r: Result<PlayerBody, string>)
    ensures r.Failure? <==> forall c :: c in nationalities ==> ToLower(c.name) != SearchTerm(form.nationality)
    ensures r.Failure? ==> r.error == NATIONALITY_NOT_FOUND
    ensures r.Success? ==> r.value.nationalityId.Some?
    ensures r.Success? ==> (r.value.clubId.None? <==> forall c :: c in clubs ==> ToLower(c.name) != SearchTerm(form.club))
  {
    var nationality := CountryIdByName(nationalities, form.nationality);
    if nationality.None? then Failure(NATIONALITY_NOT_FOUND)
    else Success(PlayerBodyOf(form, clubs, nationalities))
  }

  /** `handleEditPlayer`: the same body, with no nationality guard. */
  function EditPlayerBody(form: PlayerForm, clubs: seq<C.Club>, nationalities: seq<C.Country>): (b: PlayerBody)
    ensures b.clubId == ClubIdByName(clubs, form.club)
  {
    PlayerBodyOf(form, clubs, nationalities)
  }

  /** A form that add refuses is still sent by edit, with the nationality left undefined; otherwise both send the same body. */
  lemma EditSkipsNationalityGuard(form: PlayerForm, clubs: seq<C.Club>, nationalities: seq<C.Country>)
    ensures AddPlayerBody(form, clubs, nationalities).Failure? <==> EditPlayerBody(form, clubs, nationalities).nationalityId.None?
    ensures AddPlayerBody(form, clubs, nationalities).Success? ==>
      AddPlayerBody(form, clubs, nationalities).value == EditPlayerBody(form, clubs, nationalities)
  {
  }

  // ---------------------------------------------------------------------
  // Countries
  // ---------------------------------------------------------------------

  /** The country form; the add and the edit body are exactly its three fields. */
  datatype CountryForm = CountryForm(name: string, isoCode: string, flagUrl: string)

  /** The body the server's validation sees for a country form: every field present. */
  function CountryAsBody(form: CountryForm): (b: DtoValidation.CountryBody)
    ensures b.name == Some(form.name) && b.isoCode == Some(form.isoCode) && b.flagUrl == Some(form.flagUrl)
  {
    DtoValidation.CountryBody(Some(form.name), Some(form.isoCode), Some(form.flagUrl))
  }

  /**
   * The server accepts a country form exactly when the name has 1 to 50
   * characters, the ISO code 2 or 3, and the flag field is a URL; an empty
   * name field is reported as missing.
   */
  lemma CountryFormAccepted(form: CountryForm, isUrl: string -> bool)
    ensures DtoValidation.Report(DtoValidation.CountryChecks(CountryAsBody(form), isUrl)) == [] <==>
              1 <= |form.name| <= 50 && 2 <= |form.isoCode| <= 3 && form.flagUrl != "" && isUrl(form.flagUrl)
    ensures form.name == "" ==> "Name is required" in DtoValidation.Report(DtoValidation.CountryChecks(CountryAsBody(form), isUrl))
  {
    DtoValidation.CountryAccepted(CountryAsBody(form), isUrl);
    if form.name == "" {
      assert !DtoValidation.CountryChecks(CountryAsBody(form), isUrl)[0].ok;
    }
  }
}
