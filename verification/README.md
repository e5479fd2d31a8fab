# Football API manager: a verified model

This project models, in Dafny, the core of a football-data application. It
has a NestJS server over PostgreSQL and Redis, and a React client that
browses and administers countries, clubs, players, competitions and users.

Server side, the model covers:

- the two route guards: JWT bearer authentication, then role authorisation;
- the route-policy tables of the six controllers;
- the global exception filter;
- the Redis service and the cache-aside discipline of the clubs, countries and users services;
- every operation of those services and of the competitions and auth services;
- the request-body validation rules of the DTOs.

Client side, it covers:

- the page bar;
- the position table and the player card;
- the club page's squad sections;
- the list handling and request bodies of the four management pages.

The server's state is one value, `Backend.World`. It holds five tables and the
cache. A table is a sequence of rows in scan order plus the next generated
id. The cache is a map from keys to JSON documents. Every service operation is
a pure function from a world and a request to a `Step`: the new world and
either the result or the HTTP exception thrown.

A club document is the club with its country, its players and their
nationalities, and its competitions. A country document is the country with its
players, its clubs and its competitions. So each document is loaded from four
tables. `Backend.Agrees` says a cached document is exactly what the service
would load for its key now. `Backend.CoherentExcept(w, stale)` says every
cached document agrees, except perhaps those under the namespaces in `stale`.
`Backend.Coherent` is the case with no exception.

Each service invalidates only its own namespace, so a write can leave another
service's documents stale:

- the clubs service's writes can leave the countries' documents stale;
- the countries service's writes can leave the clubs' documents stale;
- the competitions service invalidates nothing, so its writes can leave both stale;
- the users service's create, update and remove keep the cache coherent; its bare `save`, used by the password reset, does not.

The lemmas named `…Coherent` prove exactly this for each write. They also
prove that `Backend.Settle`, which invalidates both `clubs*` and `countries*`,
restores full coherence. The lemmas named `…Transparent` show that a read
returns what a database read would whenever its own service's documents are
coherent. Three lemmas exhibit a stale document the source serves:

- `ClubsService.CreateLeavesCountryStale`;
- `CountriesService.UpdateLeavesClubStale`;
- `CompetitionsService.CreateLeavesCountryStale`.

External effects are parameters:

- JWT signing and verification (`sign`, `verify`);
- bcrypt hashing and comparison (`hash`, `compare`);
- class-validator's `isEmail` and `isUrl`;
- the clock (`now`, `maxDate`);
- `new Date(text)` for a date sent as JSON text (`parseDate`).

## Model

| member | source | states |
|---|---|---|
| Text.IntToStringRoundTrip | server/src/clubs/clubs.service.ts:74 | the numeral a template literal prints for an integer reads back as that integer |
| Text.IntToStringInjective | server/src/clubs/clubs.service.ts:114 | distinct ids print as distinct numerals, so distinct ids give distinct cache keys |
| Text.NumberOf | client/src/pages/ClubsManagement.tsx:105 | `Number(text)`: blank text is 0; any other text that reads as a number contains a digit |
| Text.NumberOfNumeral | server/src/common/dto/pagination-query.dto.ts:20 | `Number` reads back every integer numeral, so query strings convert to the integers they spell |
| Text.NumberOfWithoutDigits | client/src/pages/ClubsManagement.tsx:105 | a non-blank text with no digit converts to NaN |
| Text.IndexOf | client/src/components/PlayerCard.tsx:69 | `indexOf`: -1 exactly when the character is absent; otherwise its first position |
| Text.ContainsIffOccurs | client/src/pages/CompetitionsManagement.tsx:103-115 | `includes` holds exactly when the substring occurs at some position |
| Text.SplitAtSeparator | server/src/clubs/clubs.service.ts:74 | two texts joined at a separator that neither left part contains split back into the same parts |
| Text.Trim | client/src/pages/CompetitionsManagement.tsx:104 | `trim()` is the slice of the text left once the white space at both ends is cut off: everything cut off is white space, and the result neither starts nor ends with white space |
| Text.TrimChars | client/src/pages/CompetitionsManagement.tsx:104 | every character of the trimmed text comes from the text |
| Text.TrimNoSpace | client/src/pages/CompetitionsManagement.tsx:104 | a text without white space is its own trim |
| Text.ToLowerLowers | client/src/pages/CompetitionsManagement.tsx:104 | `toLowerCase()` keeps the length, leaves no capital, keeps every other character, and moves each capital to its lower-case letter 32 code points up |
| Text.ToLowerIdempotent | client/src/pages/CompetitionsManagement.tsx:104 | lower-casing twice is lower-casing once |
| Fields.Split | server/src/common/guards/jwt-auth.guard.ts:82 | `split(' ')` yields at least one field, no field contains the separator, and one field exactly when the separator is absent |
| Fields.SplitJoin | server/src/common/guards/jwt-auth.guard.ts:82 | joining the fields with the separator gives back the header |
| Fields.SplitFirst | server/src/common/guards/jwt-auth.guard.ts:82 | the first field is the text before the first separator |
| Fields.SplitSecond | server/src/common/guards/jwt-auth.guard.ts:82 | the second field runs from after the first separator to the next one |
| HttpErrors.HttpError.Status | server/src/common/guards/roles.guard.ts:47 | each exception class fixes one 4xx status, and distinct classes have distinct statuses |
| ExceptionFilter.Classify | server/src/common/filters/global-exception.filter.ts:17-45 | a non-Error gives 500 "Internal server error"; an HttpException keeps its status and takes its message from a string response, or from the object's message, error or the exception's own message; a unique violation gives 409 with its detail or the default text; another query failure gives 400 with its message; any other Error gives 500 with its message |
| ExceptionFilter.Catch | server/src/common/filters/global-exception.filter.ts:47-52 | the body's statusCode equals the status sent, its path is the request URL and its timestamp is the clock's reading |
| ExceptionFilter.ServiceErrorReply | server/src/common/filters/global-exception.filter.ts:20-31 | every exception a service or guard throws reaches the client with its own status and message |
| ExceptionFilter.ValidationFailure | server/src/common/filters/global-exception.filter.ts:26-30 | a validation failure reaches the client as 400 with the list of broken-constraint messages |
| ExceptionFilter.ErrorStatuses | server/src/common/filters/global-exception.filter.ts:17-45 | every reply has a 4xx or 5xx status, and a database error never gives 500 |
| RoutePolicy.Override | server/src/common/guards/jwt-auth.guard.ts:45-48 | `getAllAndOverride` returns the handler's value when it has one, else the class's |
| RoutePolicy.Resolve | server/src/common/guards/roles.guard.ts:35-38 | the public flag and the roles are each resolved handler first, class second |
| RoutePolicy.HandlerOverridesClass | server/src/common/guards/jwt-auth.guard.ts:45-48 | a handler that declares both keys decides the policy alone, whatever the class says |
| RoutePolicy.SuccessStatus | server/src/auth/auth.controller.ts:30-31 | a declared `@HttpCode` is the success status; otherwise POST answers 201 and the other verbs 200 |
| RoutePolicy.AuthController | server/src/auth/auth.controller.ts:17-55 | the routes are exactly POST register, POST login, POST request-password-reset and PATCH reset-password; all are public with no roles; only login answers 200 |
| RoutePolicy.UsersController | server/src/users/users.controller.ts:18-53 | no users route is public; only the list requires ADMIN; "profile" is declared before ":id" |
| RoutePolicy.ClubsController | server/src/clubs/clubs.controller.ts:18-89 | no class metadata; the two GETs are public; every other route, the player routes included, requires ADMIN; no route is both public and role-restricted |
| RoutePolicy.CompetitionsController | server/src/competitions/competitions.controller.ts:20-99 | the same split for competitions, including the club routes |
| RoutePolicy.PlayersController | server/src/players/players.controller.ts:20-71 | the same split for players |
| RoutePolicy.CountriesController | server/src/countries/countries.controller.ts:18-69 | the same split for countries, whose bulk route is "create-many" |
| Guards.ExtractToken | server/src/common/guards/jwt-auth.guard.ts:81-84 | no header gives no token, and an extracted token contains no space |
| Guards.ExtractTokenSound | server/src/common/guards/jwt-auth.guard.ts:81-84 | a token is extracted only from a header that is "Bearer", one space, the token, then nothing or a space |
| Guards.ExtractTokenComplete | server/src/common/guards/jwt-auth.guard.ts:81-84 | conversely, such a header yields exactly that token |
| Guards.OtherSchemeNoToken | server/src/common/guards/jwt-auth.guard.ts:83 | a first field other than exactly "Bearer" yields no token |
| Guards.JwtCanActivate | server/src/common/guards/jwt-auth.guard.ts:44-73 | a public route passes without a user; otherwise a missing or empty token and any verifier failure give the same 401; on success the result is true and the user is exactly the verified payload |
| Guards.RolesCanActivate | server/src/common/guards/roles.guard.ts:34-53 | with no roles metadata everyone passes; otherwise the caller passes exactly when a user is present and their role is listed, and every other caller gets 403; it never returns false |
| Guards.Gate | server/src/common/guards/roles.guard.ts:34-53 | the two guards in order: a 401 exactly when the JWT guard throws; otherwise admitted exactly when the roles guard passes the user the JWT guard set |
| Guards.PublicRouteOpen | server/src/common/guards/jwt-auth.guard.ts:49-51 | a public route without roles admits everyone, whatever the header and the verifier |
| Guards.PublicRouteWithRolesClosed | server/src/common/guards/roles.guard.ts:44-50 | a public route that declares roles rejects everyone with 403, because no user is ever set there |
| Guards.EmptyRolesClosed | server/src/common/guards/roles.guard.ts:40-50 | an explicitly empty `@Roles()` list admits nobody |
| Guards.ProtectedRouteNeedsToken | server/src/common/guards/jwt-auth.guard.ts:53-59 | on a protected route, a missing or empty token is a 401 before any role is looked at |
| Guards.AdminRouteAdmits | server/src/common/guards/roles.guard.ts:46-52 | an ADMIN-only route admits exactly the bearers of a token that verifies to an ADMIN payload |
| Guards.ControllerDecision | server/src/clubs/clubs.controller.ts:22-89 | on a controller with public reads and ADMIN writes, the reads admit everyone and the writes follow the ADMIN rule |
| RedisStore.DefaultTtl | server/src/redis/redis.service.ts:20 | the default expiry is the configured CACHE_TTL text whenever it is non-empty, "0" included; an unset or empty variable gives 60 |
| RedisStore.Connect | server/src/redis/redis.service.ts:16-21 | a fresh store reads every key as absent and matches no key with any pattern; its default expiry is the configured text or the fallback |
| RedisStore.Get | server/src/redis/redis.service.ts:29-35 | a hit exactly when the key holds a decodable value, and then that value; an absent key or an empty stored string gives null |
| RedisStore.Set | server/src/redis/redis.service.ts:44-48 | the key then reads back the value and no other key changes; the expiry is the ttl's numeral when the ttl is truthy, else the default text, so 0 means the default |
| RedisStore.Del | server/src/redis/redis.service.ts:54-56 | removes exactly that key |
| RedisStore.InvalidateByPattern | server/src/redis/redis.service.ts:62-67 | deletes exactly the matching keys, issues no delete when nothing matches, and leaves every other entry as it was |
| RedisStore.ClearCache | server/src/redis/redis.service.ts:72-74 | every key is gone |
| RedisStore.GetAfterSet | server/src/redis/redis.service.ts:29-56 | a set value reads back after a set or a delete of another key |
| CacheKeys.EntityKey | server/src/clubs/clubs.service.ts:114 | an entity key is the base, a colon and the id |
| CacheKeys.PageKey | server/src/clubs/clubs.service.ts:74 | a page key is the base followed by ":page=" |
| CacheKeys.EntityKeyInjective | server/src/clubs/clubs.service.ts:114 | distinct ids never share an entity key |
| CacheKeys.PageKeyInjective | server/src/clubs/clubs.service.ts:74 | distinct (page, limit) pairs never share a page key |
| CacheKeys.EntityKeyNotPageKey | server/src/clubs/clubs.service.ts:74-114 | an entity key is never a page key |
| CacheKeys.NamespaceCovers | server/src/clubs/clubs.service.ts:59 | the pattern "base*" matches every entity key and every page key of that base |
| CacheKeys.NamespacesDisjoint | server/src/countries/countries.service.ts:45 | one service's invalidation pattern never matches another service's keys |
| CacheAside.Cached | server/src/clubs/clubs.service.ts:113-118 | a hit is a stored document of the expected shape; a missing key is a miss |
| CacheAside.ReadLoaded | server/src/clubs/clubs.service.ts:74-101 | the page read: a hit is returned with the cache untouched; on a miss the load's outcome is returned, a failure writes nothing and a success is written under the key; no other key changes |
| CacheAside.ReadThrough | server/src/clubs/clubs.service.ts:112-131 | a hit is returned with the cache untouched; on a miss, a failed load throws and writes nothing, and a successful load is written under the key and returned; no other key changes |
| CacheAside.SecondReadHits | server/src/clubs/clubs.service.ts:112-131 | after a successful read, the same read hits and returns the same value |
| CacheAside.NotFoundNotCached | server/src/clubs/clubs.service.ts:124-126 | a NotFound is never cached, so a later read loads again |
| Backend.Members | server/src/players/entities/player.entity.ts:35-40 | the ids in a club's `players` relation are exactly the ids of the players whose club key names it |
| Backend.RowOf | server/src/clubs/clubs.service.ts:122 | a many-to-one relation loads the row with that key exactly when it exists, and null otherwise |
| Backend.Squad | server/src/clubs/clubs.service.ts:122 | a club's players relation holds exactly the players whose club key names it, each with its nationality's row |
| Backend.ClubCompetitions | server/src/clubs/clubs.service.ts:122 | a club's competitions relation holds exactly the competitions whose join rows list the club |
| Backend.CountryCompetitions | server/src/countries/countries.service.ts:107 | a country's competitions relation holds exactly the competitions whose country key names it |
| Backend.Nationals | server/src/countries/countries.service.ts:107 | a country's players relation holds exactly the players of that nationality |
| Backend.CountryClubs | server/src/countries/countries.service.ts:107 | a country's clubs relation holds exactly the clubs of that country |
| Backend.LoadClub | server/src/clubs/clubs.service.ts:120-123 | a club loads exactly when it exists, with its stored columns |
| Backend.LoadClubRelations | server/src/clubs/clubs.service.ts:120-123 | a loaded club carries its country's row, exactly its players with their nationalities' rows, and exactly the competitions that list it |
| Backend.LoadCountry | server/src/countries/countries.service.ts:105-111 | a country loads exactly when it exists, with its stored columns |
| Backend.LoadCountryRelations | server/src/countries/countries.service.ts:105-111 | a loaded country carries exactly its nationals, exactly its clubs and exactly the competitions held in it |
| Backend.ClubPage | server/src/clubs/clubs.service.ts:80-96 | fails exactly when the window of club rows fails, with the same database error; otherwise the page holds each window row's loaded club, with its relations, and echoes the window's counts |
| Backend.Invalidate | server/src/clubs/clubs.service.ts:59 | invalidating a base removes exactly the cached keys of that base and changes no table |
| Backend.InvalidateKeepsCoherent | server/src/clubs/clubs.service.ts:59-61 | after one namespace is invalidated and tables change, no key of that namespace is left; every other service's documents stay coherent as long as that service's tables did not change |
| Backend.ChangeKeepsCoherent | server/src/competitions/competitions.service.ts:96-114 | a write that changes tables and leaves the cache alone keeps coherent the documents of every service whose tables did not change |
| Backend.ClubDocStale | server/src/countries/countries.service.ts:143 | a cached club document goes stale once its country's row changes while the club rows stay the same |
| Backend.SetKeepsCoherent | server/src/clubs/clubs.service.ts:128 | writing a document that agrees with the tables keeps every service exactly as coherent as it was |
| Backend.SettleCoherent | server/src/clubs/clubs.service.ts:59 | whatever stale club or country documents a write left behind, invalidating both "clubs*" and "countries*" restores full coherence |
| Pagination.Param | server/src/common/dto/pagination-query.dto.ts:19-33 | an absent parameter takes its default; a given one is converted with `Number` |
| Pagination.ValidateQuery | server/src/common/dto/pagination-query.dto.ts:19-33 | accepted exactly when page is an integer of at least 1 and limit is an integer, with page defaulting to 1 and limit to 40 |
| Pagination.LimitWithoutMinimum | server/src/common/dto/pagination-query.dto.ts:28-33 | limits of 0 and -5 are accepted |
| Pagination.ValidateQueryWithMinimum | server/src/common/dto/pagination-query.dto.ts:25-33 | the documented minimum enforced: accepted exactly when the query is accepted and the limit is at least 1 |
| Pagination.Defaults | server/src/common/dto/pagination-query.dto.ts:23-33 | no parameters give page 1 and limit 40 |
| Pagination.Offset | server/src/clubs/clubs.service.ts:80 | the offset is 0 on the first page and for limit 0; past the first page it is at least the limit for a positive limit and at most the limit for a negative one |
| Pagination.TotalPages | server/src/clubs/clubs.service.ts:88 | `Math.ceil(total / limit)` as JSON carries it: null exactly for limit 0; for a positive limit the least count whose pages hold every item |
| Pagination.PageOf | server/src/clubs/clubs.service.ts:80-96 | fails exactly for a negative offset or limit, with PostgreSQL's error, the offset checked first; limit 0 returns every row; otherwise at most `limit` items, which are the table's rows from the offset on, in order, a full page when enough rows follow and none past the end; the response echoes page and limit and reports the totals |
| Pagination.NegativeLimitRefused | server/src/clubs/clubs.service.ts:80-96 | for a validated page, exactly a negative limit fails: the offset's error past the first page, the limit's on the first page |
| Pagination.RowOnItsPage | server/src/clubs/clubs.service.ts:80-96 | for a positive limit, every row appears on the page that its index divided by the limit selects, at its index modulo the limit |
| Repository.Find | server/src/clubs/clubs.service.ts:120-126 | finds a row exactly when one has the id, and in a valid table every row with the id holds that data |
| Repository.FindFirst | server/src/users/users.service.ts:195-203 | the first row matching a predicate; none exactly when no row matches |
| Repository.Insert | server/src/users/users.service.ts:117-121 | appends a row under the next generated id, which was not used, and leaves every other id as it was |
| Repository.FindLast | server/src/users/users.service.ts:117-121 | a row appended under an unused id is found |
| Repository.Save | server/src/users/users.service.ts:221-223 | `save` as an upsert: the id then holds the data and no other id changes |
| Repository.FindIgnoresNext | server/src/users/users.service.ts:117-121 | lookups do not depend on the id counter |
| Repository.AppendKeepsOthers | server/src/users/users.service.ts:117-121 | appending a row leaves every other id's lookup as it was |
| Repository.Replace | server/src/clubs/clubs.service.ts:161 | saving an existing row changes only that row's data, in place |
| Repository.DeleteRows | server/src/clubs/clubs.service.ts:170 | the rows left are exactly the rows without the id |
| Repository.Delete | server/src/clubs/clubs.service.ts:170 | `remove` drops the id and leaves every other id's lookup as it was |
| Repository.Window | server/src/clubs/clubs.service.ts:82-86 | `skip`/`take`: at most `take` consecutive rows from `skip` on |
| PasswordRule.PairRule | server/src/users/users.service.ts:138-157 | exactly one of newPassword and confirmPassword filled is "must be provided together"; both filled and unequal is "must be the same"; both filled and equal yields the new password; neither yields none, with an empty string counted as absent |
| PasswordRule.HashAfter | server/src/users/users.service.ts:154-156 | a new password replaces the stored one with its hash; otherwise the stored one is kept |
| PasswordRule.EmptyCountsAsAbsent | server/src/users/users.service.ts:138-140 | an empty field counts as missing: ("", none) changes nothing, and (p, "") is "provided together" |
| CountriesService.FindOne | server/src/countries/countries.service.ts:97-116 | cache-aside under "countries:<id>": a hit is returned untouched; on a miss, a missing id throws NotFound and writes nothing, and a found country is loaded with its players, clubs and competitions and cached; no table changes |
| CountriesService.FindOneTransparent | server/src/countries/countries.service.ts:97-116 | findOne keeps every service as coherent as it was; while the countries' documents are coherent it returns exactly the country as it loads now, with its relations, or NotFound for a missing id |
| CountriesService.FindAll | server/src/countries/countries.service.ts:56-89 | cache-aside under "countries:page=<p>:limit=<l>": a hit is returned untouched; a miss returns the table's window and caches it; a refused window throws the database's error and writes nothing |
| CountriesService.FindAllTransparent | server/src/countries/countries.service.ts:56-89 | findAll keeps every service as coherent as it was; while the countries' documents are coherent it returns exactly the table's window, or its error, for any limit |
| CountriesService.TakenAfterInsert | server/src/countries/countries.service.ts:178-203 | after an insert, its name and ISO code are taken, and every taken one stays taken |
| CountriesService.Create | server/src/countries/countries.service.ts:39-48 | a taken name is a Conflict and then a taken ISO code is, both before any invalidation or save; otherwise the country is inserted and "countries*" is invalidated |
| CountriesService.CreateCoherent | server/src/countries/countries.service.ts:39-48 | from a coherent cache, create leaves only the clubs' documents possibly stale, and settling restores coherence |
| CountriesService.Apply | server/src/countries/countries.service.ts:127-141 | name and ISO code change only when given, non-empty and different; the flag URL only when truthy |
| CountriesService.ApplyPartial | server/src/countries/countries.service.ts:127-141 | an update with no filled field changes nothing, and applying an update twice equals applying it once |
| CountriesService.UpdateConflict | server/src/countries/countries.service.ts:127-137 | a Conflict exactly when a changed name, then a changed ISO code, is already taken |
| CountriesService.Update | server/src/countries/countries.service.ts:124-146 | a missing id is findOne's NotFound; a conflict leaves the tables unchanged; otherwise "countries*" is invalidated and the applied row saved |
| CountriesService.UpdateCoherent | server/src/countries/countries.service.ts:124-146 | from a coherent cache, a successful update stores the applied changes and returns the country as it now loads; only the clubs' documents, which embed the country, may be left stale, and settling restores coherence |
| CountriesService.UpdateLeavesClubStale | server/src/countries/countries.service.ts:124-146 | an update that changes a country leaves a cached club document of that country in place, although the club would now load differently |
| CountriesService.UpdateSavesRow | server/src/countries/countries.service.ts:124-146 | from a coherent cache, a successful update rewrites the country's row and leaves the club table alone |
| CountriesService.UpdateSparesClubs | server/src/countries/countries.service.ts:143 | a successful update leaves every club document in the cache as it was |
| CountriesService.Remove | server/src/countries/countries.service.ts:152-156 | fails exactly as findOne does; otherwise the row is removed, then "countries*" is invalidated |
| CountriesService.RemoveCoherent | server/src/countries/countries.service.ts:152-156 | from a coherent cache, remove succeeds exactly for an existing id and deletes that row; only the clubs' documents may be left stale, and settling restores coherence |
| CountriesService.CreateBulk | server/src/countries/countries.service.ts:163-171 | one create per request in order, with no invalidation of its own; success inserts every country, and the names and ISO codes were pairwise distinct |
| CountriesService.RepeatedNameFails | server/src/countries/countries.service.ts:163-171 | a batch that repeats a name fails on the second copy with a Conflict |
| ClubsService.FindOne | server/src/clubs/clubs.service.ts:112-131 | cache-aside under "clubs:<id>": a hit is returned untouched; on a miss, a missing club throws NotFound and writes nothing, and a found club is loaded with its country, players, nationalities and competitions and cached |
| ClubsService.FindOneTransparent | server/src/clubs/clubs.service.ts:112-131 | findOne keeps every service as coherent as it was; while the clubs' documents are coherent it returns exactly the club as it loads now, with its relations, or NotFound |
| ClubsService.FindAll | server/src/clubs/clubs.service.ts:70-104 | cache-aside under "clubs:page=<p>:limit=<l>": a hit is returned as it is; a miss returns the page of loaded clubs and writes it under the same key; a refused window throws the database's error and writes nothing |
| ClubsService.FindAllTransparent | server/src/clubs/clubs.service.ts:70-104 | findAll keeps every service as coherent as it was; while the clubs' documents are coherent it returns exactly the page of clubs as they load now, or its error, for any limit |
| ClubsService.SyncMembers | server/src/clubs/clubs.service.ts:215-219 | saving a club with a players list points exactly those players at the club and detaches its former players |
| ClubsService.MembersAfterSync | server/src/clubs/clubs.service.ts:215-219 | after the save, the club's players are exactly the listed ones |
| ClubsService.SyncCurrentMembers | server/src/clubs/clubs.service.ts:161 | saving a club with its current players changes no player |
| ClubsService.SaveClub | server/src/clubs/clubs.service.ts:161 | the club row holds the saved columns, its players are synchronised, and no other table changes |
| ClubsService.Create | server/src/clubs/clubs.service.ts:47-62 | a taken name is a Conflict before anything else; a missing country is the countries service's NotFound; otherwise "clubs*" is invalidated and the club inserted, with the founding date defaulting to now, and returned with its country and no players or competitions |
| ClubsService.CreateCoherent | server/src/clubs/clubs.service.ts:47-62 | from a coherent cache, a created club points at the requested existing country; only the countries' documents may be left stale, and settling restores coherence |
| ClubsService.CreateLeavesCountryStale | server/src/clubs/clubs.service.ts:47-62 | after a successful create, the cache holds the country's document that create's own lookup stored, and it does not list the new club, while a load of the country now would |
| ClubsService.Rename | server/src/clubs/clubs.service.ts:142-157 | the name changes only when given, non-empty and different, and the logo only when truthy; the founding date and the country are kept |
| ClubsService.Update | server/src/clubs/clubs.service.ts:139-162 | a missing club is findOne's NotFound; a changed name already taken is a Conflict; a failure changes no table; a truthy country id moves the club to that country |
| ClubsService.UpdateCoherent | server/src/clubs/clubs.service.ts:139-162 | from a coherent cache, a successful update stores the club it returns, which is the club as it now loads, moves it to a requested existing country and changes no player; only the countries' documents may be left stale, and settling restores coherence |
| ClubsService.Remove | server/src/clubs/clubs.service.ts:168-172 | a missing club is findOne's NotFound; a club that players still belong to is refused by the database's foreign key and nothing changes; otherwise the club and its competition links are removed, then "clubs*" is invalidated |
| ClubsService.Unlink | server/src/competitions/entities/competition.entity.ts:38-46 | the competitions after a club's join rows are deleted: the same rows, none lists the club, and every other club and column kept |
| ClubsService.RemoveCoherent | server/src/clubs/clubs.service.ts:168-172 | from a coherent cache, remove succeeds exactly for an existing club with no players, and then no competition lists it; a club with players gets the foreign-key error; only the countries' documents may be left stale, and settling restores coherence |
| ClubsService.CreateEach | server/src/clubs/clubs.service.ts:179-182 | one create per request in order; no other table changes, and on success one club per request, each with the requested name |
| ClubsService.CreateEachTakes | server/src/clubs/clubs.service.ts:179-182 | on success every requested name was free before and is taken after; no taken name is ever freed |
| ClubsService.CreateEachDistinct | server/src/clubs/clubs.service.ts:179-182 | a batch that creates every club had pairwise distinct names |
| ClubsService.TakenAfterInsert | server/src/clubs/clubs.service.ts:249-257 | after an insert its name is taken, and every taken name stays taken |
| ClubsService.CreateBulk | server/src/clubs/clubs.service.ts:179-187 | on success "clubs*" is invalidated again, leaving no club key cached, and one club per request is returned |
| ClubsService.FindMany | server/src/clubs/clubs.service.ts:194-198 | one findOne per id: success gives one club per id; a failure is the NotFound of some listed id |
| ClubsService.FindManyTransparent | server/src/clubs/clubs.service.ts:194-198 | with a coherent cache, findMany succeeds exactly when every id exists, returns each club as it loads, with its relations, and keeps the cache coherent |
| ClubsService.FindManySucceeds | server/src/clubs/clubs.service.ts:194-198 | with a coherent cache, findMany succeeds exactly when every id names a club |
| ClubsService.FindManyLoads | server/src/clubs/clubs.service.ts:194-198 | with a coherent cache, a successful findMany returns at each place the club that id loads, with its relations |
| ClubsService.FindManyCoherent | server/src/clubs/clubs.service.ts:194-198 | findMany keeps a coherent cache coherent |
| ClubsService.Without | server/src/clubs/clubs.service.ts:237 | `filter(p => p.id !== playerId)`: the id is gone and every other id kept |
| ClubsService.DropPlayer | server/src/clubs/clubs.service.ts:237 | every entry of that player leaves a club's players list and the others stay in order |
| ClubsService.AddPlayer | server/src/clubs/clubs.service.ts:205-220 | a missing club or player is NotFound; a player already in the club is a Conflict; otherwise the player joins the club; a failure changes no table |
| ClubsService.AddPlayerCoherent | server/src/clubs/clubs.service.ts:205-220 | from a coherent cache, a successful add makes the player a member and keeps every other member; only the countries' documents may be left stale, and settling restores coherence |
| ClubsService.AddPlayerMembers | server/src/clubs/clubs.service.ts:205-220 | after a successful add, the members are exactly the former members and the player |
| ClubsService.RemovePlayer | server/src/clubs/clubs.service.ts:227-242 | a player not in the club is a BadRequest; otherwise the player is detached; a failure changes no table |
| ClubsService.RemovePlayerCoherent | server/src/clubs/clubs.service.ts:227-242 | from a coherent cache, a successful remove drops exactly that player from the members; only the countries' documents may be left stale, and settling restores coherence |
| UsersService.Load | server/src/users/users.service.ts:101-105 | a user loads exactly when it exists |
| UsersService.FindOne | server/src/users/users.service.ts:93-110 | cache-aside under "users:<id>": a hit returns the cached user and writes nothing; a missing id throws NotFound and writes nothing |
| UsersService.FindOneTransparent | server/src/users/users.service.ts:93-110 | findOne keeps every service as coherent as it was; while the users' documents are coherent it returns exactly the stored user, or NotFound |
| UsersService.GetProfile | server/src/users/users.service.ts:39-44 | fails exactly as findOne does; otherwise it is the user without the password field |
| UsersService.FindAll | server/src/users/users.service.ts:52-85 | cache-aside under "users:page=<p>:limit=<l>": a hit is returned untouched; a miss returns the table's window and caches it; a refused window throws the database's error and writes nothing |
| UsersService.FindAllTransparent | server/src/users/users.service.ts:52-85 | findAll keeps every service as coherent as it was; while the users' documents are coherent it returns exactly the table's window, or its error, for any limit |
| UsersService.ValidateEmail | server/src/users/users.service.ts:179-187 | a Conflict exactly when the email is taken |
| UsersService.FindByEmail | server/src/users/users.service.ts:195-203 | bypasses the cache: the stored user with that email, or NotFound exactly when there is none |
| UsersService.Create | server/src/users/users.service.ts:117-121 | inserts the user under the next id after invalidating "users*"; no other table changes |
| UsersService.CreateCoherent | server/src/users/users.service.ts:117-121 | create keeps the cache coherent |
| UsersService.UpdateError | server/src/users/users.service.ts:132-157 | a changed email already taken is a Conflict, checked before the password-pair rule |
| UsersService.Apply | server/src/users/users.service.ts:132-157 | the email changes only when given, non-empty and different; the password follows the pair rule; the role is kept |
| UsersService.Update | server/src/users/users.service.ts:129-162 | a missing id is findOne's NotFound; every Conflict and BadRequest comes before invalidation and save, so nothing changes; otherwise "users*" is invalidated and the applied user saved |
| UsersService.UpdateCoherent | server/src/users/users.service.ts:129-162 | update keeps the cache coherent, and on success the row holds the applied changes |
| UsersService.UpdatePassword | server/src/users/users.service.ts:146-157 | a successful update with neither password leaves the hash unchanged, and with both equal stores the new password's hash |
| UsersService.Remove | server/src/users/users.service.ts:168-172 | fails exactly as findOne does; otherwise the row is removed, then "users*" is invalidated |
| UsersService.RemoveCoherent | server/src/users/users.service.ts:168-172 | remove succeeds exactly for an existing id, deletes it, and keeps the cache coherent |
| UsersService.SaveAccount | server/src/users/users.service.ts:221-223 | `save(user)`: the row holds the user and nothing else changes, the cache included |
| CompetitionsService.FindOne | server/src/competitions/competitions.service.ts:80-88 | `findOneBy`: NotFound exactly for a missing id; the clubs relation is not loaded |
| CompetitionsService.FindOneWithClubs | server/src/competitions/competitions.service.ts:80-88 | the load with the clubs relation: the same outcome, with the stored club ids |
| CompetitionsService.Persist | server/src/competitions/competitions.service.ts:177 | saving a loaded competition stores its columns; the join table is rewritten only when clubs were loaded |
| CompetitionsService.PersistAsLoaded | server/src/competitions/competitions.service.ts:104 | in a table with distinct ids, saving a competition exactly as `findOneBy` loaded it leaves the table as it was |
| CompetitionsService.Create | server/src/competitions/competitions.service.ts:40-64 | as written: a taken name is a Conflict; a truthy country id must exist; a type outside the enum column's labels is refused by the INSERT with 22P02; the founding date defaults to now; the stored club list is always empty; only the competitions table changes |
| CompetitionsService.CreateKeeps | server/src/competitions/competitions.service.ts:40-64 | create keeps every document outside the clubs' and the countries' namespaces coherent |
| CompetitionsService.CreateCoherent | server/src/competitions/competitions.service.ts:40-64 | from a coherent cache, create succeeds exactly when the name is free, a truthy country id exists and the type is one of the enum labels, and then stores that country; only the clubs' and the countries' documents may be left stale, and settling restores coherence |
| CompetitionsService.CreateLeavesCountryStale | server/src/competitions/competitions.service.ts:40-64 | after a successful create with a country, the cache holds the country's document that create's own lookup stored, and it does not list the new competition, while a load of the country now would |
| CompetitionsService.CreateWithClubs | server/src/competitions/competitions.service.ts:40-64 | as intended: the clubs are looked up from the declared `clubsIds`, the type must be an enum label, and the stored competition lists those clubs and carries the requested type |
| CompetitionsService.CreateWithClubsCoherent | server/src/competitions/competitions.service.ts:40-64 | with a coherent cache, the corrected create succeeds exactly when the name is free, a truthy country id exists, every listed club exists and the type is an enum label; it stores exactly those clubs; only the clubs' and the countries' documents may be left stale, and settling restores coherence |
| CompetitionsService.CreateDropsClubs | server/src/competitions/competitions.service.ts:50-53 | a request the corrected create stores with its clubs is stored by the written create with none |
| CompetitionsService.Merge | server/src/competitions/competitions.service.ts:99-102 | `merge`: every given entity property is copied; the country id and the club ids are not entity properties and are dropped |
| CompetitionsService.Update | server/src/competitions/competitions.service.ts:96-105 | as written: succeeds exactly when the id exists, no competition has the request's name, and a given type is an enum label; an unknown type is refused with 22P02; a failure changes nothing |
| CompetitionsService.KeepingNameConflicts | server/src/competitions/competitions.service.ts:96-104 | an update that omits or repeats the competition's own name always fails with a Conflict |
| CompetitionsService.UpdateChecked | server/src/competitions/competitions.service.ts:96-105 | as intended: the name is checked only when the request changes it; a given type must still be an enum label |
| CompetitionsService.UpdateCheckedKeepsName | server/src/competitions/competitions.service.ts:96-105 | a request that keeps the name is accepted by the corrected update exactly when its type, if given, is an enum label, and is otherwise refused with 22P02; on success the merged fields are stored, keeping the founding date, the country and the clubs |
| CompetitionsService.CompetitionsWrite | server/src/competitions/competitions.service.ts:96-114 | a write to the competitions table alone leaves only the clubs' and the countries' documents possibly stale, and settling restores coherence |
| CompetitionsService.UpdateCoherent | server/src/competitions/competitions.service.ts:96-105 | update, as written and as corrected, invalidates nothing: only the clubs' and the countries' documents may be left stale, and settling restores coherence |
| CompetitionsService.Remove | server/src/competitions/competitions.service.ts:111-114 | NotFound exactly for a missing id; otherwise the row is removed |
| CompetitionsService.RemoveCoherent | server/src/competitions/competitions.service.ts:111-114 | remove invalidates nothing: only the clubs' and the countries' documents may be left stale, and settling restores coherence |
| CompetitionsService.AddClubTo | server/src/competitions/competitions.service.ts:161-178 | after the load: a missing club is NotFound; a loaded list that already has the club is a Conflict; otherwise the club is appended to a loaded list |
| CompetitionsService.AddClub | server/src/competitions/competitions.service.ts:161-178 | as written, on the entity `findOneBy` loads: every failure is a NotFound |
| CompetitionsService.AddClubLoaded | server/src/competitions/competitions.service.ts:161-178 | as intended, on the entity loaded with its clubs |
| CompetitionsService.AddClubChangesNothing | server/src/competitions/competitions.service.ts:165-175 | as written, it succeeds exactly when both rows exist, yet no stored competition changes, and with distinct ids the cache stays coherent |
| CompetitionsService.AddClubLoadedCoherent | server/src/competitions/competitions.service.ts:161-178 | the corrected add reports a club already present as a Conflict and otherwise stores the club in the competition; only the clubs' and the countries' documents may be left stale, and settling restores coherence |
| CompetitionsService.RemoveClubFrom | server/src/competitions/competitions.service.ts:185-192 | after the load: a missing club is NotFound; otherwise every club with that id is dropped, with no error when it is absent |
| CompetitionsService.RemoveClub | server/src/competitions/competitions.service.ts:185-192 | as written, on the entity `findOneBy` loads: every failure is a NotFound |
| CompetitionsService.RemoveClubLoaded | server/src/competitions/competitions.service.ts:185-192 | as intended, on the entity loaded with its clubs |
| CompetitionsService.RemoveClubChangesNothing | server/src/competitions/competitions.service.ts:189 | as written, it succeeds exactly when both rows exist, yet no stored competition changes, and with distinct ids the cache stays coherent |
| CompetitionsService.RemoveClubLoadedCoherent | server/src/competitions/competitions.service.ts:185-192 | the corrected remove succeeds exactly when both rows exist and then stores the competition without that club, the others kept in order; only the clubs' and the countries' documents may be left stale, and settling restores coherence |
| CompetitionsService.CreateMany | server/src/competitions/competitions.service.ts:140-152 | one create as written per request, in order; on success every stored competition has no clubs, the names were free and pairwise distinct, every type was an enum label, and taken names stay taken |
| CompetitionsService.CreateManyCoherent | server/src/competitions/competitions.service.ts:140-152 | createMany keeps every document outside the clubs' and the countries' namespaces coherent, and settling restores coherence |
| CompetitionsService.NameExistsAfterInsert | server/src/competitions/competitions.service.ts:121-133 | after an insert its name exists, and every existing name still does |
| DtoValidation.Report | server/src/main.ts:25-27 | the pipe's messages are exactly those of the failed checks; none exactly when every check passes |
| DtoValidation.PlayerAccepted | server/src/players/dto/create-player.dto.ts:13-44 | a player is accepted exactly when the name has 2 to 100 characters, age is at least 16, position is non-empty, rating is in 55..100, market value is positive, an image URL string is given, a given club id is positive, and the nationality id is positive |
| DtoValidation.MissingAgeReportedTwice | server/src/players/dto/create-player.dto.ts:18-20 | a missing age reports both "Age is required" and the minimum |
| DtoValidation.ClubAccepted | server/src/clubs/dto/create-club.dto.ts:13-29 | as written, a club is accepted exactly when the name has 3 to 100 characters, the logo is a URL, the country id is positive, and no founding date is sent |
| DtoValidation.ClubDateRejected | server/src/clubs/dto/create-club.dto.ts:26-28 | any founding date sent as JSON text is reported both as "Date must be valid" and as "Date cannot be in the future" |
| DtoValidation.ClubTypedAccepted | server/src/clubs/dto/create-club.dto.ts:13-29 | with the date converted as the competition body's is, a club is accepted exactly when the other fields pass and a date sent parses to a date no later than the class-definition instant |
| DtoValidation.Transformed | server/src/main.ts:23-29 | without a type conversion a date sent as text is never a Date; with one it is what `new Date(text)` gives |
| DtoValidation.CountryIdPasses | server/src/clubs/dto/create-club.dto.ts:22-24 | a positive country id raises neither country-id message, whatever else the body holds |
| DtoValidation.CountryAccepted | server/src/countries/dto/create-country.dto.ts:3-15 | a country is accepted exactly when the name has 1 to 50 characters, the ISO code 2 to 3, and the flag is a URL |
| DtoValidation.CompetitionAccepted | server/src/competitions/dto/create-competition.dto.ts:16-41 | a competition is accepted exactly when the name has 3 to 100 characters, the logo is a URL, a date sent parses to a date not in the future, the type is non-empty, and a given country id is positive; the club ids are unchecked |
| DtoValidation.UserAccepted | server/src/auth/dto/create-user.dto.ts:10-22 | a registration is accepted exactly when the email is a non-empty valid email and the password has 5 to 50 characters; the secret key is optional |
| DtoValidation.LoginAccepted | server/src/auth/dto/login-user.dto.ts:4-9 | a login is accepted exactly when the email is valid and the password has 5 to 50 characters |
| DtoValidation.EmailUpdatePasses | server/src/users/dto/update-user.dto.ts:5 | an inherited email is optional and, when present, must be a non-empty valid email |
| DtoValidation.PasswordUpdatePasses | server/src/users/dto/update-user.dto.ts:6-14 | an optional password field passes exactly when absent or 5 to 50 characters long |
| DtoValidation.UserUpdateAccepted | server/src/users/dto/update-user.dto.ts:5-15 | an update body is accepted exactly when each present field meets its create-time rule; nothing pairs the two new-password fields |
| DtoValidation.ReportEmptyConcat | server/src/main.ts:25-27 | two groups of checks pass together exactly when each group passes |
| DtoValidation.UpdatePasswordsFilled | server/src/users/dto/update-user.dto.ts:6-14 | in an accepted update body, a password field is filled exactly when it is present |
| DtoValidation.ResetAccepted | server/src/auth/dto/reset-password.dto.ts:3-19 | a reset is accepted exactly when the email is valid and both passwords have 5 to 50 characters; equality is not checked |
| DtoValidation.ResetRequestAccepted | server/src/auth/dto/request-reset-password.dto.ts:3-6 | a reset request is accepted exactly when the email is non-empty and valid |
| AuthService.AdminSecret | server/src/auth/auth.service.ts:39 | the admin secret is ADMIN_SECRET_KEY, or '' when it is not configured |
| AuthService.RoleFor | server/src/auth/auth.service.ts:55 | ADMIN exactly when the email equals the secret |
| AuthService.NoSecretNoAdmin | server/src/auth/auth.service.ts:39-55 | with no secret configured, no validated registration becomes ADMIN |
| AuthService.ResponseTokenAdmits | server/src/auth/auth.service.ts:127-145 | the issued token, sent as a bearer token, passes the JWT guard with exactly its payload |
| AuthService.Register | server/src/auth/auth.service.ts:47-65 | a taken email is a Conflict before hashing or creating; otherwise the user is stored with the hashed password and the role the secret decides, and the response answers for it |
| AuthService.Login | server/src/auth/auth.service.ts:72-108 | an unknown email and a wrong password give the same 401; otherwise the response answers for the stored user |
| AuthService.RegisterThenLogin | server/src/auth/auth.service.ts:47-108 | after a successful registration, logging in with the same credentials succeeds for the new user |
| AuthService.RequestPasswordReset | server/src/auth/auth.service.ts:152-154 | only checks that the email exists, NotFound otherwise, and changes nothing |
| AuthService.ResetAccount | server/src/auth/auth.service.ts:166-185 | the password follows the pair rule; the id, email and role are kept |
| AuthService.ResetPassword | server/src/auth/auth.service.ts:163-193 | an unknown email is NotFound before any other check; a broken pair is a BadRequest; otherwise the user is saved, without touching the cache, and "Password reset successfully" is returned even when no password was given |
| AuthService.ResetLeavesStaleCopy | server/src/auth/auth.service.ts:187 | after a password reset, a cached copy of the user still holds the old password hash |
| AuthService.ResetPasswordInvalidating | server/src/auth/auth.service.ts:163-193 | as intended: the same outcome, with "users*" invalidated before the save |
| AuthService.ResetCoherent | server/src/auth/auth.service.ts:163-193 | the corrected reset keeps the cache coherent and stores the new hash |
| AuthService.ValidatedResetComplete | server/src/auth/dto/reset-password.dto.ts:8-18 | for a validated reset body, the "provided together" branch cannot fire, and the reset succeeds exactly when the two passwords are equal |
| ClientPagination.Window | client/src/components/Pagination.tsx:41-50 | every link page lies in 1..T; from current page -4 up, the links are the consecutive pages First..Last |
| ClientPagination.WindowPages | client/src/components/Pagination.tsx:41-50 | for a current page of at least 1: at most eight links, exactly the pages from current-3 (at least 1) to current+4 (at most T), strictly increasing, and including the current page when it exists |
| ClientPagination.TargetInjective | client/src/components/Pagination.tsx:54 | distinct (page, limit) pairs link to distinct URLs |
| ClientPagination.PrevRequest | client/src/components/Pagination.tsx:16-18 | the previous button requests a page exactly when the current page is above 1, and that page is the current page minus one |
| ClientPagination.NextRequest | client/src/components/Pagination.tsx:20-23 | with a page count T, the next button requests a page exactly when the current page is below T, and that page is the current page plus one, at most T; with a null count it requests one only for a negative current page |
| ClientPagination.Bar | client/src/components/Pagination.tsx:9-69 | a missing pagination renders nothing; otherwise one link per window page over the page count, or over one page when the count is null; each link lies in that range, and a null count never disables the next button |
| ClientPagination.OneHighlightedLink | client/src/components/Pagination.tsx:57 | when the current page lies in 1..T, with a null T read as 1, exactly one link is highlighted, and it is the current page's |
| ClientPagination.DisabledExactlyWhenIdle | client/src/components/Pagination.tsx:16-69 | from a page of at least 1, the previous button is disabled exactly when clicking it would request nothing, and so is the next button for a page within 1..T; past T (page 1 of an empty table, where T is 0) and with a null T the next button is enabled and requests nothing |
| Positions.CodeRoundTrip | client/src/types/player/position.ts:1-16 | every code reads back, and only codes read as positions |
| Positions.Ordinal | client/src/types/player/position.ts:1-16 | each code has a place in the declaration order |
| Positions.OptionsListEachCodeOnce | client/src/types/player/position.ts:18-37 | the option list offers the fifteen codes once each, in declaration order, under the labels `mapPositionToLabel` gives |
| Positions.OrdinalIsPlace | client/src/types/player/position.ts:1-16 | each code sits at exactly one place of the declaration order |
| Positions.ColorsFollowHue | client/src/types/player/position.ts:57-85 | two codes share a palette exactly when they share a colour family: goalkeeper, defenders, midfielders, wingers, strikers |
| Positions.LineOf | client/src/pages/ClubDetails.tsx:68-102 | the club page's section of a code matches its colour family, wingers and strikers both being attackers |
| PlayerCard.DisplayName | client/src/components/PlayerCard.tsx:69-73 | a name without a space is shown as it is |
| PlayerCard.OnlyFirstSpaceMatters | client/src/components/PlayerCard.tsx:69-73 | otherwise it is the initial, ". ", then the rest from the first space on, so two spaces appear |
| PlayerCard.RankIsOneBased | client/src/components/PlayerCard.tsx:46-48 | the rank is "#" then the numeral of the index plus one |
| PlayerCard.LinkNamesPlayer | client/src/components/PlayerCard.tsx:16-17 | the card links to "/players/" followed by a numeral that reads back as the player's id |
| ClubDetails.Categorize | client/src/pages/ClubDetails.tsx:68-102 | each section holds exactly the squad's players of that section, in squad order |
| ClubDetails.SwitchMatchesTable | client/src/pages/ClubDetails.tsx:70-100 | the switch's case labels agree with the position table, and its default case is exactly the unknown texts |
| ClubDetails.InLineMembers | client/src/pages/ClubDetails.tsx:68-102 | a player is in a section exactly when they are in the squad and their position belongs there |
| ClubDetails.SectionsAddUp | client/src/pages/ClubDetails.tsx:68-102 | the four sections and the players with an unknown position add up to the squad |
| ClubDetails.Cards | client/src/pages/ClubDetails.tsx:323-337 | one card per player of a section |
| ClubDetails.AdminOnlyControls | client/src/pages/ClubDetails.tsx:213-230 | the edit and delete controls and every remove button appear exactly for an ADMIN, and each card's rank counts from #1 within its own section |
| ClientLists.Search | client/src/pages/CompetitionsManagement.tsx:103-115 | a blank query shows every row |
| ClientLists.MatchingMembers | client/src/pages/CompetitionsManagement.tsx:103-115 | otherwise a row is shown exactly when its lower-cased name contains the trimmed, lower-cased query |
| ClientLists.MatchingKeepsOrder | client/src/pages/CompetitionsManagement.tsx:103-115 | the filter keeps list order |
| ClientLists.OwnNameFindsRow | client/src/pages/PlayersManagement.tsx:97-109 | searching for a row's own name, in any surrounding white space, shows that row |
| ClientLists.FirstNamed | client/src/pages/PlayersManagement.tsx:129-131 | `find`: the first row whose lower-cased name equals the term, and none exactly when no row's does |
| ClientLists.MatchByName | client/src/pages/CompetitionsManagement.tsx:127-146 | a typed name picks a row whose lower-cased name equals the trimmed, lower-cased text; none exactly when no row matches |
| ClientLists.PaddedNameNeverMatches | client/src/pages/CompetitionsManagement.tsx:127-146 | a stored name that begins with white space is never picked, whatever is typed |
| ClientLists.Without | client/src/pages/CompetitionsManagement.tsx:274-276 | `filter(x => x.id !== id)`: exactly the rows with another id remain, and an absent id changes nothing |
| ClientLists.WithoutConcat | client/src/pages/PlayersManagement.tsx:240-242 | removing by id keeps list order |
| ClientLists.ReplaceTouchesNothingElse | client/src/pages/CompetitionsManagement.tsx:185-189 | apart from the edited id, the list is what it was |
| ClientLists.AddThenDeleteRestores | client/src/pages/PlayersManagement.tsx:159 | appending a row with a fresh id and then deleting it restores the list |
| ClientLists.Toggle | client/src/pages/CompetitionsManagement.tsx:229-235 | the id is selected afterwards exactly when the click was unchecked and it was not selected; other ids are unchanged |
| ClientLists.ToggleTwiceRestores | client/src/components/DropDownList.tsx:65 | clicking an unselected item twice restores the selection |
| ManagementPages.CountryIdByName | client/src/pages/CompetitionsManagement.tsx:127-146 | a country id is sent exactly when some country's lower-cased name equals the trimmed, lower-cased text, and it is that country's id |
| ManagementPages.ClubIdByName | client/src/pages/PlayersManagement.tsx:129-131 | the same lookup over clubs |
| ManagementPages.EditWithoutRenameRefused | client/src/pages/CompetitionsManagement.tsx:165-178 | saving a competition without renaming it is refused with 409 by the written update; the corrected one accepts it exactly when the chosen type is an enum label, as every option of the type select is |
| ManagementPages.AddAndEditBodiesAgree | client/src/pages/CompetitionsManagement.tsx:120-178 | the add and the edit handler send the same name, logo, type and looked-up country for one form, and only the edit body carries the selected clubs; a country typed as its listed name, in any case and padded, is found |
| ManagementPages.OpenAndSaveSendsOwnClubs | client/src/pages/CompetitionsManagement.tsx:165-202 | opening the edit dialog and saving without a click sends the competition's own club ids, one per club, and none when its clubs were not loaded |
| ManagementPages.AddClubBody | client/src/pages/ClubsManagement.tsx:101-105 | the country id is `Number` of the country text: 0 for blank text, and a number only when the text has a digit |
| ManagementPages.AddClubByCountryNameRefused | client/src/pages/ClubsManagement.tsx:397-414 | choosing a suggested country name sends NaN, and the server refuses the club with "Country ID is required", whatever date is sent |
| ManagementPages.AddClubBodyByName | client/src/pages/ClubsManagement.tsx:101-110 | as intended: the country is looked up by name, and an id is sent exactly when a country of that name exists |
| ManagementPages.AddClubByNameFindsCountry | client/src/pages/ClubsManagement.tsx:101-164 | with the corrected add, a listed country name sends that country's id, the same id the edit handler sends, and both country-id checks pass |
| ManagementPages.AddPlayerBody | client/src/pages/PlayersManagement.tsx:129-159 | stops with "Nationality not found." exactly when no nationality matches; an unmatched club sends no club id |
| ManagementPages.EditSkipsNationalityGuard | client/src/pages/PlayersManagement.tsx:141-144 | a form the add handler refuses is still sent by the edit handler, with no nationality id; otherwise both send the same body |
| ManagementPages.CountryFormAccepted | client/src/pages/CountriesManagement.tsx:82-96 | the server accepts a country form exactly when the name has 1 to 50 characters, the ISO code 2 or 3, and the flag field is a URL; an empty name is reported as missing |

## Left out

- JWT signing and verification, bcrypt hashing and comparison, and class-validator's `isEmail` and `isUrl` are parameters. Their algorithms are not modelled.
- Cache expiry over time is not modelled. The chosen TTL is recorded, but entries never expire, so expiry can only make reads miss more often.
- RedisStore.Set records the `EX` text it would send. Whether Redis accepts it, for instance a CACHE_TTL of "0" or one that is not a number, is not modelled.
- A cached document is returned as the value that was stored. JSON's turning a `Date` into text on a cache hit is not modelled.
- `Promise.all` in the bulk operations and `findMany` is modelled as one create or lookup after another. Interleavings between concurrent requests are not modelled.
- CompetitionsService.CreateMany runs its creates one after another. The source starts them all at once, so two requests with the same name could both pass the name check; this is not modelled.
- The competitions controller's bulk route (server/src/competitions/competitions.controller.ts:69-70) calls `createBulk`, which the competitions service does not define. The route is not modelled; CompetitionsService.CreateMany models the service method it evidently means.
- Controller handler signatures and parameter pipes such as `ParseIntPipe` are not modelled. Only the route-policy tables are.
- CountriesService.Remove and CountriesService.RemoveCoherent delete only the country's row. The country's relations are `cascade: true` with `orphanedRowAction: 'delete'` (server/src/countries/entities/country.entity.ts:20-35), and the effect of removing the loaded country on its players, clubs and competitions is not modelled. So "succeeds exactly for an existing id" holds for the row, not for what the database does to the rows that reference it.
- CountriesService.Update saves the country's columns only. The same cascade also makes the save write back the loaded players, clubs and competitions, which may come from a stale cached document; this is not modelled.
- ClubsService.SaveClub, ClubsService.Update, ClubsService.AddPlayer and ClubsService.RemovePlayer do not model that `save` also rewrites the club's competition join rows from the saved entity's `competitions` list, the inverse side of the many-to-many relation (server/src/clubs/entities/club.entity.ts:37-40). The model's save leaves the competitions table as it is. While the clubs' documents are coherent, ClubsService.FindOneTransparent gives that list as the club's current competitions, so the rewrite changes nothing. From a stale cached document, which the competitions writes as written can leave behind, the rewrite could re-link a deleted competition, refused with 23503, or drop a link added since.
- UsersService.Remove and CompetitionsService.Remove delete the row. No other table references a user, and a competition's join rows live in its row in this model.
- ClubsService.CLUB_IN_USE_MESSAGE is PostgreSQL's foreign-key message without the generated constraint name, which the model does not know.
- Eager relations nested inside a loaded relation are kept as foreign keys, not rows: a country's clubs carry their country's key, a club's players carry their club's key, and a competition carries its country's key.
- The rows of a loaded relation are listed in table scan order. PostgreSQL promises no order, so the model fixes one.
- Columns the operations here never read are not modelled: a user's `createdAt`, and a player's age, rating, market value and image URL.
- The players service (server/src/players/players.service.ts) is not part of this model. Its findOne appears only through the club membership operations.
- A cached document of the wrong shape is treated as a miss, whereas the service would return it as it is. With a coherent cache this cannot happen.
- Text.NumberOf reads optional white space around an optionally signed decimal integer. Exponents, hexadecimal, `Infinity` and fractions are not modelled, and neither are non-integer ids.
- DtoValidation.Report: the order of one property's messages is not modelled. class-validator lists the messages of one property in the reverse of its decorators' order; the model promises which messages are reported, not their order.
- CompetitionsService.COMPETITION_TYPES lists the labels of the client's `CompetitionType` union (client/src/types/competition/competitionType.ts:1-6). The server's enum file is not part of this model; the entity stores the column as that enum (server/src/competitions/entities/competition.entity.ts:28).
- ExceptionFilter.Raise throws every refused statement with no `detail`. PostgreSQL sends a DETAIL with a unique violation (23505), which the filter would show instead of its default message; that detail is not modelled. No modelled operation raises 23505.
- PlayerCard.Card renders a card with no position title and no colours for a position text outside the fifteen codes. The component would throw a TypeError there, because it indexes the colour table with the unknown text (client/src/components/PlayerCard.tsx:25). This cannot happen while the server's position enum lists the client's fifteen codes.
- String lengths in `@Length` count characters, not UTF-16 code units.
- JSON type mismatches, such as a string where a number is declared, are not modelled. A body property is present or absent. A date is sent as JSON text; a date sent as a JSON number is not modelled.
- server/src/competitions/dto/update-competition.dto.ts is not part of this model. Its fields are modelled as the optional fields of CompetitionsService.CompetitionChanges.
- The competitions `findAll` is not modelled. It is one unpaged, uncached `find()`.
- ClubsService.Create returns the club's stored columns. The `players: []` that a freshly saved entity carries is not modelled separately.
- `new Date(text)` is a parameter, `parseDate`, both for the server's `@Type(() => Date)` conversion and for the client's date field. Date parsing is not modelled.
- The player's market value is a float, and the client's player form sends it. The model's player request body leaves it out, because no property here depends on it. The server's player checks read every numeric property as a `real`.
- Text.ToLower covers ASCII and the Latin-1 capitals only. `toLocaleLowerCase` is treated as `toLowerCase`.
- React rendering, toasts, dialogs, navigation, the theme and `localStorage` are not modelled, and neither are the client service modules' HTTP calls.
- ClientPagination.WindowPages assumes a current page of at least 1. ClientPagination.Window also covers lower pages, where `slice` counts from the end.

## Findings

| source | as written | input that shows it | evidently intended | confidence | as-written member | corrected member |
|---|---|---|---|---|---|---|
| server/src/competitions/competitions.service.ts:96-104 | update checks the request's name for uniqueness unconditionally | PATCH /competitions/1 with the competition's own name, as the client's edit dialog always sends | check only a name that differs from the stored one, as the clubs and countries services do | high, not executed | CompetitionsService.KeepingNameConflicts | CompetitionsService.UpdateCheckedKeepsName |
| server/src/competitions/competitions.service.ts:50-53 | create reads clubs from `clubIds`, a field the validation pipe rejects, and ignores the declared `clubsIds` | POST /competitions with `clubsIds: [1]` for an existing club 1 | look up the clubs listed in `clubsIds` | high, not executed | CompetitionsService.CreateDropsClubs | CompetitionsService.CreateWithClubsCoherent |
| server/src/competitions/competitions.service.ts:161-192 | `findOneBy` does not load the clubs relation, so the membership check and the append see `undefined`, and remove filters nothing | POST /competitions/1/clubs/2 twice: both succeed and competition 1 still has no clubs | load the clubs relation before checking and changing it | high, not executed | CompetitionsService.AddClubChangesNothing | CompetitionsService.AddClubLoadedCoherent |
| server/src/common/dto/pagination-query.dto.ts:28-33 | limit has no `@Min(1)`, although its documentation states a minimum of 1 | GET /clubs?limit=0 passes validation and returns every club with `totalPages` null | reject a limit below 1 | high, not executed | Pagination.LimitWithoutMinimum | Pagination.ValidateQueryWithMinimum |
| server/src/auth/auth.service.ts:187 | resetPassword saves the user without invalidating "users*" | GET /users/1 caches user 1; a password reset for that user; GET /users/1 returns the old password hash's document | invalidate "users*" before saving, as the users service's update does | medium, not executed | AuthService.ResetLeavesStaleCopy | AuthService.ResetCoherent |
| client/src/pages/ClubsManagement.tsx:101-110 | the add-club handler sends `Number` of the country field, whose suggestions are country names | add a club choosing "Spain" from the suggestions: countryId is NaN, sent as null, and the server answers 400 "Country ID is required" | look the country up by name, as the edit handler does | high, not executed | ManagementPages.AddClubByCountryNameRefused | ManagementPages.AddClubByNameFindsCountry |
| server/src/clubs/clubs.service.ts:50-59 | create caches "countries:<cid>" through the countries service's findOne and then invalidates only "clubs*" | GET /countries/1 after POST /clubs with countryId 1 omits the new club | invalidate "countries*" too, as `Backend.Settle` does | high, not executed | ClubsService.CreateLeavesCountryStale | ClubsService.CreateCoherent |
| server/src/countries/countries.service.ts:143 | update invalidates only "countries*", while club documents embed the country | GET /clubs/1 caches club 1 of country 2; PATCH /countries/2 renames it; GET /clubs/1 still shows the old name | invalidate "clubs*" too | high, not executed | CountriesService.UpdateLeavesClubStale | CountriesService.UpdateCoherent |
| server/src/competitions/competitions.service.ts:40-64 | create and the other competition writes invalidate nothing, while club and country documents embed competitions | POST /competitions with countryId 1 caches "countries:1" through findOne; GET /countries/1 then omits the new competition | invalidate "clubs*" and "countries*" after each write | high, not executed | CompetitionsService.CreateLeavesCountryStale | CompetitionsService.CreateCoherent |
| server/src/clubs/dto/create-club.dto.ts:26-28 | `establishedAt` has `@IsDate` and `@MaxDate` but no `@Type(() => Date)`, and the pipe does no implicit conversion, so a date sent as JSON text stays a string | POST /clubs with `"establishedAt":"1899-11-29"` is refused with "Date must be valid" and "Date cannot be in the future"; the client's add form sends a filled-in date as such text (client/src/pages/ClubsManagement.tsx:104) | convert the text with `@Type(() => Date)`, as the competition body does | high, not executed | DtoValidation.ClubDateRejected | DtoValidation.ClubTypedAccepted |
