/**
 * The stored entities of the football API, reduced to the columns the service
 * rules read or write. Relations are kept as foreign keys: a player points at
 * its club and nationality, a club at its country, and a competition lists the
 * clubs of its join table.
 */
module Entities {
  import opened Wrappers

  /** A user's role; `ADMIN` unlocks the write routes. */
  datatype Role = User | Admin

  /** Milliseconds since the epoch, as `new Date()` yields them. */
  type Date = int

  /** The claims a signed access token carries: `{sub, email, role}`. */
  datatype Payload = Payload(sub: int, email: string, role: Role)

  datatype Country = Country(name: string, isoCode: string, flagUrl: string)

  datatype Club = Club(name: string, logoUrl: string, establishedAt: Date, countryId: int)

  /** A player; rating, age and market value take no part in any rule modelled here. */
  datatype Player = Player(name: string, position: string, clubId: Option<int>, nationalityId: int)

  /** A stored account; `password` holds the bcrypt hash. */
  datatype Account = Account(email: string, password: string, role: Role)

  datatype Competition = Competition(
    name: string,
    logoUrl: string,
    establishedAt: Date,
    competitionType: string,
    countryId: Option<int>,
    clubIds: seq<int>)
}
