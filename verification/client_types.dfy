/**
 * The records the client receives from the API and keeps in page state.
 * Only the fields some modelled client logic reads are kept; market value,
 * dates and the reverse relations are left out.
 */
module ClientTypes {
  import opened Wrappers

  datatype Country = Country(id: int, name: string, isoCode: string, flagUrl: string)

  /** A club, with its squad when the response carries it. */
  datatype Club = Club(id: int, name: string, logoUrl: string, country: Option<Country>, players: Option<seq<Player>>)

  /** A player; `position` is whatever text the server stored. */
  datatype Player = Player(
    id: int, name: string, age: int, position: string, rating: int,
    imageUrl: string, club: Option<Club>, nationality: Country)

  /** The `value`s of `competitionTypes`, the options of the competition forms' type select. */
  const COMPETITION_TYPE_OPTIONS: seq<string> := ["LEAGUE", "CUP", "SUPER_CUP", "INTERNATIONAL", "FRIENDLY"]

  datatype Competition = Competition(
    id: int, name: string, logoUrl: string, competitionType: string,
    country: Option<Country>, clubs: Option<seq<Club>>)
}
