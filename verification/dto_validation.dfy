/**
 * The request bodies' class-validator decorators. Each decorator is a check
 * on one property with the message it reports; the validation pipe rejects a
 * body with a 400 listing the messages of the failed checks. A property that
 * is absent (`undefined` or `null`) is `None`. Without `@IsOptional` every
 * check still runs on an absent property and fails. With `@IsOptional` an
 * absent property skips its other checks, but an empty string is not absent.
 * `isEmail` and `isUrl` are the library's recognisers, left as parameters.
 */
module DtoValidation {
  import opened Wrappers
  import opened Text
  import opened Entities

  /** One decorator's verdict on one property, and the message it reports when it fails. */
  datatype Check = Check(ok: bool, message: string)

  /** The messages of the failed checks; which messages appear is modelled, not their order. */
  function Report(checks: seq<Check>): (messages: seq<string>)
    ensures |messages| <= |checks|
    ensures messages == [] <==> forall i :: 0 <= i < |checks| ==> checks[i].ok
    ensures forall m :: m in messages <==> exists i :: 0 <= i < |checks| && !checks[i].ok && checks[i].message == m
    decreases |checks|
  {
    if |checks| == 0 then []
    else
      var rest := Report(checks[1..]);
      assert forall i :: 1 <= i < |checks| ==> checks[i] == checks[1..][i - 1];
      (if checks[0].ok then [] else [checks[0].message]) + rest
  }

  /** `@IsOptional()`: an absent property's other checks do not run. */
  function Optional<T>(v: Option<T>, checks: seq<Check>): seq<Check> {
    if v.None? then [] else checks
  }

  /** `@Length(lo, hi)` on a string property. */
  predicate LengthIn(v: Option<string>, lo: nat, hi: nat) {
    v.Some? && lo <= |v.value| <= hi
  }

  /** `@IsPositive()` on an integer property. */
  predicate Positive(v: Option<int>) {
    v.Some? && v.value > 0
  }

  /** `@Min(n)` on a number property. */
  predicate AtLeast(v: Option<real>, n: real) {
    v.Some? && v.value >= n
  }

  /** `@Max(n)` on a number property. */
  predicate AtMost(v: Option<real>, n: real) {
    v.Some? && v.value <= n
  }

  /** A recogniser such as `@IsEmail()` or `@IsUrl()`. */
  predicate Recognised(v: Option<string>, recognise: string -> bool) {
    v.Some? && recognise(v.value)
  }

  // ---------------------------------------------------------------------
  // Players
  // ---------------------------------------------------------------------

  datatype PlayerBody = PlayerBody(
    name: Option<string>,
    age: Option<real>,
    position: Option<string>,
    rating: Option<real>,
    marketValue: Option<real>,
    imageUrl: Option<string>,
    clubId: Option<int>,
    nationalityId: Option<int>)

  function PlayerChecks(b: PlayerBody): seq<Check> {
    [Check(Filled(b.name), "Name is required"),
     Check(b.name.Some?, "Name must be a string"),
     Check(LengthIn(b.name, 2, 100), "Name must be between 2 and 100 characters"),
     Check(b.age.Some?, "Age is required"),
     Check(AtLeast(b.age, 16.0), "Age must be at least 16"),
     Check(Filled(b.position), "Position is required"),
     Check(b.rating.Some?, "Rating is required"),
     Check(AtLeast(b.rating, 55.0), "Rating must be at least 55"),
     Check(AtMost(b.rating, 100.0), "Rating cannot exceed 100"),
     Check(b.marketValue.Some?, "Market value is required"),
     Check(b.marketValue.Some? && b.marketValue.value > 0.0, "Market value must be a positive number"),
     Check(Filled(b.imageUrl), "Image URL is required"),
     Check(b.imageUrl.Some?, "Image URL must be a string")]
    + Optional(b.clubId, [Check(Positive(b.clubId), "Club ID must be a positive number")])
    + [Check(b.nationalityId.Some?, "Nationality ID is required"),
       Check(Positive(b.nationalityId), "Nationality ID must be a positive number")]
  }

  /**
   * A player body is accepted exactly when the name has 2 to 100 characters,
   * the age is at least 16 with no upper bound, the position is any non-empty
   * text, the rating lies in 55..100, the market value is positive, the image
   * URL is any non-empty text, a given club id is positive and the nationality
   * id is positive.
   */
  lemma PlayerAccepted(b: PlayerBody)
    ensures Report(PlayerChecks(b)) == [] <==>
              b.name.Some? && 2 <= |b.name.value| <= 100 &&
              b.age.Some? && b.age.value >= 16.0 &&
              b.position.Some? && b.position.value != "" &&
              b.rating.Some? && 55.0 <= b.rating.value <= 100.0 &&
              b.marketValue.Some? && b.marketValue.value > 0.0 &&
              b.imageUrl.Some? && b.imageUrl.value != "" &&
              (b.clubId.None? || b.clubId.value > 0) &&
              b.nationalityId.Some? && b.nationalityId.value > 0
  {
    var cs := PlayerChecks(b);
    if Report(cs) == [] {
      assert cs[0].ok && cs[2].ok && cs[4].ok && cs[5].ok && cs[7].ok && cs[8].ok && cs[10].ok && cs[11].ok;
      assert cs[|cs| - 1].ok;
      if b.clubId.Some? {
        assert cs[13].ok;
      }
    }
  }

  /** A missing age is reported both as missing and as below the minimum. */
  lemma MissingAgeReportedTwice(b: PlayerBody)
    requires b.age.None?
    ensures "Age is required" in Report(PlayerChecks(b)) && "Age must be at least 16" in Report(PlayerChecks(b))
  {
    assert !PlayerChecks(b)[3].ok && !PlayerChecks(b)[4].ok;
  }

  // ---------------------------------------------------------------------
  // Clubs, countries, competitions
  // ---------------------------------------------------------------------

  /**
   * What `transform: true` makes of a date sent as JSON text. With
   * `@Type(() => Date)` it is `new Date(text)`, which `parseDate` models
   * (`None` for an invalid date); without it the property stays a string,
   * which is never a `Date`. `None` means the value is not a valid `Date`.
   */
  function Transformed(text: string, typed: bool, parseDate: string -> Option<Date>): (d: Option<Date>)
    ensures !typed ==> d.None?
    ensures typed ==> d == parseDate(text)
  {
    if typed then parseDate(text) else None
  }

  /** `@IsDate()` then `@MaxDate(maxDate)` on the transformed value. */
  function DateChecks(d: Option<Date>, maxDate: Date, invalid: string, future: string): seq<Check> {
    [Check(d.Some?, invalid), Check(d.Some? && d.value <= maxDate, future)]
  }

  /** A club body; the founding date is the JSON text the request carried. */
  datatype ClubBody = ClubBody(name: Option<string>, logoUrl: Option<string>, countryId: Option<int>, establishedAt: Option<string>)

  /**
   * The club checks, with the founding date `typed` or not. `maxDate` is the
   * instant the class was defined, when `new Date()` in the decorator ran.
   */
  function ClubChecksWith(b: ClubBody, isUrl: string -> bool, maxDate: Date, typed: bool,
                          parseDate: string -> Option<Date>): seq<Check> {
    [Check(Filled(b.name), "Club name is required"),
     Check(b.name.Some?, "Club name must be a string"),
     Check(LengthIn(b.name, 3, 100), "Club name must be between 3 and 100 characters"),
     Check(Filled(b.logoUrl), "Logo URL is required"),
     Check(Recognised(b.logoUrl, isUrl), "Logo URL must be a valid URL"),
     Check(b.countryId.Some?, "Country ID is required"),
     Check(Positive(b.countryId), "Country ID must be a positive number")]
    + Optional(b.establishedAt, DateChecks(Transformed(b.establishedAt.GetOr(""), typed, parseDate), maxDate,
                                           "Date must be valid", "Date cannot be in the future"))
  }

  /** `CreateClubDto` as written: `establishedAt` has no `@Type(() => Date)`, so the text is never converted. */
  function ClubChecks(b: ClubBody, isUrl: string -> bool, maxDate: Date, parseDate: string -> Option<Date>): seq<Check> {
    ClubChecksWith(b, isUrl, maxDate, false, parseDate)
  }

  /** `CreateClubDto` as intended: `establishedAt` converted by `@Type(() => Date)`, as the competition body's is. */
  function ClubChecksTyped(b: ClubBody, isUrl: string -> bool, maxDate: Date, parseDate: string -> Option<Date>): seq<Check> {
    ClubChecksWith(b, isUrl, maxDate, true, parseDate)
  }

  /**
   * As written, a club body is accepted exactly when the name has 3 to 100
   * characters, the logo is a URL, the country id is positive, and no
   * founding date is sent at all.
   */
  lemma ClubAccepted(b: ClubBody, isUrl: string -> bool, maxDate: Date, parseDate: string -> Option<Date>)
    ensures Report(ClubChecks(b, isUrl, maxDate, parseDate)) == [] <==>
              b.name.Some? && 3 <= |b.name.value| <= 100 &&
              b.logoUrl.Some? && b.logoUrl.value != "" && isUrl(b.logoUrl.value) &&
              b.countryId.Some? && b.countryId.value > 0 &&
              b.establishedAt.None?
  {
    var cs := ClubChecks(b, isUrl, maxDate, parseDate);
    if b.establishedAt.Some? {
      ClubDateRejected(b, isUrl, maxDate, parseDate);
    }
    if Report(cs) == [] {
      assert cs[2].ok && cs[3].ok && cs[4].ok && cs[6].ok;
    }
  }

  /**
   * The discrepancy of `CreateClubDto`: every founding date sent, valid and
   * past or not, is reported both as invalid and as in the future.
   */
  lemma ClubDateRejected(b: ClubBody, isUrl: string -> bool, maxDate: Date, parseDate: string -> Option<Date>)
    requires b.establishedAt.Some?
    ensures "Date must be valid" in Report(ClubChecks(b, isUrl, maxDate, parseDate))
    ensures "Date cannot be in the future" in Report(ClubChecks(b, isUrl, maxDate, parseDate))
  {
    var cs := ClubChecks(b, isUrl, maxDate, parseDate);
    assert !cs[7].ok && !cs[8].ok;
  }

  /**
   * With `@Type(() => Date)`, a club body is accepted exactly when the name
   * has 3 to 100 characters, the logo is a URL, the country id is positive,
   * and a founding date sent is a valid date no later than the
   * class-definition instant.
   */
  lemma ClubTypedAccepted(b: ClubBody, isUrl: string -> bool, maxDate: Date, parseDate: string -> Option<Date>)
    ensures Report(ClubChecksTyped(b, isUrl, maxDate, parseDate)) == [] <==>
              b.name.Some? && 3 <= |b.name.value| <= 100 &&
              b.logoUrl.Some? && b.logoUrl.value != "" && isUrl(b.logoUrl.value) &&
              b.countryId.Some? && b.countryId.value > 0 &&
              (b.establishedAt.None? ||
               (parseDate(b.establishedAt.value).Some? && parseDate(b.establishedAt.value).value <= maxDate))
  {
    var cs := ClubChecksTyped(b, isUrl, maxDate, parseDate);
    if Report(cs) == [] {
      assert cs[2].ok && cs[3].ok && cs[4].ok && cs[6].ok;
      if b.establishedAt.Some? {
        assert cs[8].ok;
      }
    }
  }

  /** A positive country id silences both country-id messages, whatever the other properties are. */
  lemma CountryIdPasses(b: ClubBody, isUrl: string -> bool, maxDate: Date, parseDate: string -> Option<Date>)
    requires b.countryId.Some? && b.countryId.value > 0
    ensures "Country ID is required" !in Report(ClubChecks(b, isUrl, maxDate, parseDate))
    ensures "Country ID must be a positive number" !in Report(ClubChecks(b, isUrl, maxDate, parseDate))
  {
    var checks := ClubChecks(b, isUrl, maxDate, parseDate);
    forall i | 0 <= i < |checks| && !checks[i].ok
      ensures checks[i].message != "Country ID is required" && checks[i].message != "Country ID must be a positive number"
    {
      if i >= 7 {
        assert checks[i].message in ["Date must be valid", "Date cannot be in the future"];
      }
    }
  }

  datatype CountryBody = CountryBody(name: Option<string>, isoCode: Option<string>, flagUrl: Option<string>)

  function CountryChecks(b: CountryBody, isUrl: string -> bool): seq<Check> {
    [Check(Filled(b.name), "Name is required"),
     Check(LengthIn(b.name, 1, 50), "Name must be between 1 and 50 characters"),
     Check(Filled(b.isoCode), "ISO code is required"),
     Check(LengthIn(b.isoCode, 2, 3), "ISO code must be between 2 and 3 characters"),
     Check(Filled(b.flagUrl), "Flag URL is required"),
     Check(Recognised(b.flagUrl, isUrl), "Flag URL must be a valid URL")]
  }

  /**
   * A country body is accepted exactly when the name has 1 to 50 characters,
   * the ISO code 2 or 3 characters of any kind, and the flag is a URL.
   */
  lemma CountryAccepted(b: CountryBody, isUrl: string -> bool)
    ensures Report(CountryChecks(b, isUrl)) == [] <==>
              b.name.Some? && 1 <= |b.name.value| <= 50 &&
              b.isoCode.Some? && 2 <= |b.isoCode.value| <= 3 &&
              b.flagUrl.Some? && b.flagUrl.value != "" && isUrl(b.flagUrl.value)
  {
    var cs := CountryChecks(b, isUrl);
    if Report(cs) == [] {
      assert cs[1].ok && cs[3].ok && cs[4].ok && cs[5].ok;
    }
  }

  datatype CompetitionBody = CompetitionBody(
    name: Option<string>,
    logoUrl: Option<string>,
    establishedAt: Option<string>,
    competitionType: Option<string>,
    countryId: Option<int>,
    clubsIds: Option<seq<int>>)

  /** `CreateCompetitionDto`: its `establishedAt` is converted by `@Type(() => Date)`. */
  function CompetitionChecks(b: CompetitionBody, isUrl: string -> bool, maxDate: Date,
                             parseDate: string -> Option<Date>): seq<Check> {
    [Check(Filled(b.name), "Name is required"),
     Check(b.name.Some?, "Name must be a string"),
     Check(LengthIn(b.name, 3, 100), "Name must be between 3 and 100 characters"),
     Check(Filled(b.logoUrl), "Logo URL is required"),
     Check(b.logoUrl.Some?, "Logo URL must be a string"),
     Check(Recognised(b.logoUrl, isUrl), "Logo URL must be a valid URL")]
    + Optional(b.establishedAt, DateChecks(Transformed(b.establishedAt.GetOr(""), true, parseDate), maxDate,
                                           "Established date must be a valid date",
                                           "Established date cannot be in the future"))
    + [Check(Filled(b.competitionType), "Competition type is required")]
    + Optional(b.countryId, [Check(Positive(b.countryId), "Country ID must be a positive number")])
    + Optional(b.clubsIds, [Check(true, "Club IDs must be an array")])
  }

  /**
   * A competition body is accepted exactly when the name has 3 to 100
   * characters, the logo is a URL, a founding date sent is a valid date not
   * after the class-definition instant, the type is any non-empty text, and a
   * given country id is positive; the club ids are not examined.
   */
  lemma CompetitionAccepted(b: CompetitionBody, isUrl: string -> bool, maxDate: Date, parseDate: string -> Option<Date>)
    ensures Report(CompetitionChecks(b, isUrl, maxDate, parseDate)) == [] <==>
              b.name.Some? && 3 <= |b.name.value| <= 100 &&
              b.logoUrl.Some? && b.logoUrl.value != "" && isUrl(b.logoUrl.value) &&
              (b.establishedAt.None? ||
               (parseDate(b.establishedAt.value).Some? && parseDate(b.establishedAt.value).value <= maxDate)) &&
              b.competitionType.Some? && b.competitionType.value != "" &&
              (b.countryId.None? || b.countryId.value > 0)
  {
    var cs := CompetitionChecks(b, isUrl, maxDate, parseDate);
    var dates := if b.establishedAt.None? then 0 else 2;
    if Report(cs) == [] {
      assert cs[2].ok && cs[3].ok && cs[5].ok;
      if b.establishedAt.Some? {
        assert cs[7].ok;
      }
      assert cs[6 + dates].ok;
      if b.countryId.Some? {
        assert cs[7 + dates].ok;
      }
    }
  }

  // ---------------------------------------------------------------------
  // Accounts
  // ---------------------------------------------------------------------

  datatype UserBody = UserBody(email: Option<string>, password: Option<string>, secretKey: Option<string>)

  function UserChecks(b: UserBody, isEmail: string -> bool): seq<Check> {
    [Check(Filled(b.email), "Email is required"),
     Check(b.email.Some?, "Email must be a string"),
     Check(Recognised(b.email, isEmail), "Email must be valid"),
     Check(Filled(b.password), "Password is required"),
     Check(b.password.Some?, "Password must be a string"),
     Check(LengthIn(b.password, 5, 50), "Password must be between 5 and 50 characters")]
    + Optional(b.secretKey, [Check(true, "Secret key must be a string")])
  }

  /** A registration is accepted exactly when the email is a non-empty email and the password has 5 to 50 characters; the secret key is never constrained. */
  lemma UserAccepted(b: UserBody, isEmail: string -> bool)
    ensures Report(UserChecks(b, isEmail)) == [] <==>
              b.email.Some? && b.email.value != "" && isEmail(b.email.value) &&
              b.password.Some? && 5 <= |b.password.value| <= 50
  {
    var cs := UserChecks(b, isEmail);
    if Report(cs) == [] {
      assert cs[0].ok && cs[2].ok && cs[5].ok;
    }
  }

  datatype LoginBody = LoginBody(email: Option<string>, password: Option<string>)

  function LoginChecks(b: LoginBody, isEmail: string -> bool): seq<Check> {
    [Check(Filled(b.email), "Email is required"),
     Check(Recognised(b.email, isEmail), "Email must be valid"),
     Check(Filled(b.password), "Password is required"),
     Check(LengthIn(b.password, 5, 50), "Password must be between 5 and 50 characters")]
  }

  lemma LoginAccepted(b: LoginBody, isEmail: string -> bool)
    ensures Report(LoginChecks(b, isEmail)) == [] <==>
              b.email.Some? && b.email.value != "" && isEmail(b.email.value) &&
              b.password.Some? && 5 <= |b.password.value| <= 50
  {
    var cs := LoginChecks(b, isEmail);
    if Report(cs) == [] {
      assert cs[0].ok && cs[1].ok && cs[3].ok;
    }
  }

  /** The update body: the registration fields made optional, and the new password pair. */
  datatype UserUpdateBody = UserUpdateBody(
    email: Option<string>,
    password: Option<string>,
    secretKey: Option<string>,
    newPassword: Option<string>,
    confirmPassword: Option<string>)

  function EmailUpdateChecks(b: UserUpdateBody, isEmail: string -> bool): seq<Check> {
    Optional(b.email, [Check(Filled(b.email), "Email is required"),
                       Check(true, "Email must be a string"),
                       Check(Recognised(b.email, isEmail), "Email must be valid")])
  }

  /** The checks of an optional password field of 5 to 50 characters. */
  function PasswordUpdateChecks(v: Option<string>, required: bool): seq<Check> {
    Optional(v, (if required then [Check(Filled(v), "Password is required")] else []) +
                [Check(true, "Password must be a string"),
                 Check(LengthIn(v, 5, 50), "Password must be between 5 and 50 characters")])
  }

  function UserUpdateChecks(b: UserUpdateBody, isEmail: string -> bool): seq<Check> {
    EmailUpdateChecks(b, isEmail)
    + PasswordUpdateChecks(b.password, true)
    + Optional(b.secretKey, [Check(true, "Secret key must be a string")])
    + PasswordUpdateChecks(b.newPassword, false)
    + PasswordUpdateChecks(b.confirmPassword, false)
  }

  lemma EmailUpdatePasses(b: UserUpdateBody, isEmail: string -> bool)
    ensures Report(EmailUpdateChecks(b, isEmail)) == [] <==> b.email.None? || (b.email.value != "" && isEmail(b.email.value))
  {
    var cs := EmailUpdateChecks(b, isEmail);
    if b.email.Some? && Report(cs) == [] {
      assert cs[0].ok && cs[2].ok;
    }
  }

  lemma PasswordUpdatePasses(v: Option<string>, required: bool)
    ensures Report(PasswordUpdateChecks(v, required)) == [] <==> v.None? || 5 <= |v.value| <= 50
  {
    var cs := PasswordUpdateChecks(v, required);
    if v.Some? && Report(cs) == [] {
      assert cs[|cs| - 1].ok;
    }
  }

  /**
   * An update body is accepted exactly when each given field meets its
   * create-time rule and each given password of the pair has 5 to 50
   * characters; nothing ties the two passwords together.
   */
  lemma UserUpdateAccepted(b: UserUpdateBody, isEmail: string -> bool)
    ensures Report(UserUpdateChecks(b, isEmail)) == [] <==>
              (b.email.None? || (b.email.value != "" && isEmail(b.email.value))) &&
              (b.password.None? || 5 <= |b.password.value| <= 50) &&
              (b.newPassword.None? || 5 <= |b.newPassword.value| <= 50) &&
              (b.confirmPassword.None? || 5 <= |b.confirmPassword.value| <= 50)
  {
    var e := EmailUpdateChecks(b, isEmail);
    var p := PasswordUpdateChecks(b.password, true);
    var s := Optional(b.secretKey, [Check(true, "Secret key must be a string")]);
    var n := PasswordUpdateChecks(b.newPassword, false);
    var c := PasswordUpdateChecks(b.confirmPassword, false);
    ReportEmptyConcat(e, p);
    ReportEmptyConcat(e + p, s);
    ReportEmptyConcat(e + p + s, n);
    ReportEmptyConcat(e + p + s + n, c);
    EmailUpdatePasses(b, isEmail);
    PasswordUpdatePasses(b.password, true);
    PasswordUpdatePasses(b.newPassword, false);
    PasswordUpdatePasses(b.confirmPassword, false);
    assert Report(s) == [];
  }

  /** A joined list of checks passes exactly when both parts pass. */
  lemma ReportEmptyConcat(a: seq<Check>, b: seq<Check>)
    ensures Report(a + b) == [] <==> Report(a) == [] && Report(b) == []
  {
    if Report(a + b) == [] {
      forall i | 0 <= i < |a| ensures a[i].ok {
        assert (a + b)[i] == a[i];
      }
      forall i | 0 <= i < |b| ensures b[i].ok {
        assert (a + b)[|a| + i] == b[i];
      }
    }
  }

  /** On an accepted update body, a given password field is also a truthy one. */
  lemma UpdatePasswordsFilled(b: UserUpdateBody, isEmail: string -> bool)
    requires Report(UserUpdateChecks(b, isEmail)) == []
    ensures Filled(b.newPassword) <==> b.newPassword.Some?
    ensures Filled(b.confirmPassword) <==> b.confirmPassword.Some?
  {
    UserUpdateAccepted(b, isEmail);
  }

  datatype ResetBody = ResetBody(email: Option<string>, newPassword: Option<string>, confirmPassword: Option<string>)

  function ResetChecks(b: ResetBody, isEmail: string -> bool): seq<Check> {
    [Check(b.email.Some?, "Email must be a string"),
     Check(Recognised(b.email, isEmail), "Email must be valid"),
     Check(b.newPassword.Some?, "New Password must be a string"),
     Check(LengthIn(b.newPassword, 5, 50), "New Password must be between 5 and 50 characters"),
     Check(b.confirmPassword.Some?, "Confirm New Password must be a string"),
     Check(LengthIn(b.confirmPassword, 5, 50), "Confirm New Password must be between 5 and 50 characters")]
  }

  /** A reset body is accepted exactly when the email is recognised and both passwords have 5 to 50 characters; they need not be equal. */
  lemma ResetAccepted(b: ResetBody, isEmail: string -> bool)
    ensures Report(ResetChecks(b, isEmail)) == [] <==>
              b.email.Some? && isEmail(b.email.value) &&
              b.newPassword.Some? && 5 <= |b.newPassword.value| <= 50 &&
              b.confirmPassword.Some? && 5 <= |b.confirmPassword.value| <= 50
  {
    var cs := ResetChecks(b, isEmail);
    if Report(cs) == [] {
      assert cs[1].ok && cs[3].ok && cs[5].ok;
    }
  }

  datatype ResetRequestBody = ResetRequestBody(email: Option<string>)

  function ResetRequestChecks(b: ResetRequestBody, isEmail: string -> bool): seq<Check> {
    [Check(Filled(b.email), "Email is required"),
     Check(Recognised(b.email, isEmail), "Email must be valid")]
  }

  lemma ResetRequestAccepted(b: ResetRequestBody, isEmail: string -> bool)
    ensures Report(ResetRequestChecks(b, isEmail)) == [] <==> b.email.Some? && b.email.value != "" && isEmail(b.email.value)
  {
    var cs := ResetRequestChecks(b, isEmail);
    if Report(cs) == [] {
      assert cs[0].ok && cs[1].ok;
    }
  }
}
