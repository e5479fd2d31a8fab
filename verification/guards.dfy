/**
 * The request gate: the JWT guard, the roles guard, and their composition.
 * Token verification (a signed JWT, RFC 7519) is a parameter `verify`.
 */
module Guards {
  import opened Wrappers
  import opened Text
  import opened Fields
  import opened Entities
  import opened HttpErrors
  import opened RoutePolicy

  const INVALID_TOKEN := "Unauthorized. Invalid or missing token."
  const ACCESS_DENIED := "Access denied. You do not have permission to access this resource."
  const BEARER := "Bearer"

  /**
   * The Bearer scheme of section 2.1 of RFC 6750, read by splitting the
   * `Authorization` header on single spaces: the second field, when the first
   * is exactly "Bearer" (compared case-sensitively).
   */
  function ExtractToken(header: Option<string>): (token: Option<string>)
    ensures token.Some? ==> header.Some? && ' ' !in token.value
    ensures header.None? ==> token.None?
  {
    if header.None? then None
    else
      var fields := Split(header.value, ' ');
      if fields[0] == BEARER && |fields| >= 2 then Some(fields[1]) else None
  }

  /** The first space of a text is the one after a space-free prefix. */
  lemma IndexOfAt(s: string, c: char, i: int)
    requires 0 <= i < |s| && s[i] == c && c !in s[..i]
    ensures IndexOf(s, c) == i
  {
  }

  /**
   * What a header must look like to yield a token `t`: "Bearer", one space, `t`
   * without spaces, then either the end or another space.
   */
  predicate Carries(h: string, t: string) {
    |h| >= 7 + |t| && h[..7] == BEARER + " " && h[7..7 + |t|] == t && ' ' !in t &&
    (|h| == 7 + |t| || h[7 + |t|] == ' ')
  }

  /** A first field of exactly "Bearer" ends at position 6, so the header starts with "Bearer ". */
  lemma BearerFirst(h: string)
    requires |Split(h, ' ')| >= 2 && Split(h, ' ')[0] == BEARER
    ensures ' ' in h && IndexOf(h, ' ') == 6 && h[..7] == BEARER + " "
  {
    assert ' ' in h;
    SplitFirst(h, ' ');
    var i := IndexOf(h, ' ');
    assert h[..i] == BEARER;
    assert i == |BEARER| == 6;
    assert h[6] == ' ';
    assert h[..7] == h[..6] + [h[6]];
  }

  /** After "Bearer ", the second field is carried by the header. */
  lemma SecondFieldCarried(h: string)
    requires ' ' in h && IndexOf(h, ' ') == 6 && h[..7] == BEARER + " "
    ensures Carries(h, Split(h, ' ')[1])
  {
    SplitSecond(h, ' ');
    var t := Split(h, ' ')[1];
    var rest := h[7..];
    if ' ' in rest {
      var j := IndexOf(rest, ' ');
      assert t == rest[..j];
      assert h[7..7 + j] == rest[..j];
      assert h[7 + j] == rest[j];
    } else {
      assert t == rest;
      assert h[7..7 + |t|] == rest;
    }
  }

  /** Every token extracted from a header is carried by it. */
  lemma {:induction false} ExtractTokenSound(h: string)
    ensures ExtractToken(Some(h)).Some? ==> Carries(h, ExtractToken(Some(h)).value)
  {
    var fields := Split(h, ' ');
    if fields[0] == BEARER && |fields| >= 2 {
      BearerFirst(h);
      SecondFieldCarried(h);
    }
  }

  /** "Bearer " followed by anything splits into "Bearer" and the rest. */
  lemma BearerHeaderFirst(after: string)
    ensures ' ' in BEARER + " " + after
    ensures IndexOf(BEARER + " " + after, ' ') == 6
    ensures Split(BEARER + " " + after, ' ')[0] == BEARER
    ensures (BEARER + " " + after)[7..] == after
  {
    var h := BEARER + " " + after;
    assert h[..6] == BEARER;
    assert ' ' !in h[..6];
    IndexOfAt(h, ' ', 6);
    SplitFirst(h, ' ');
  }

  /** A space-free token followed by nothing or by a space is the text's first field. */
  lemma TokenFirstField(t: string, rest: string)
    requires ' ' !in t
    requires rest == [] || rest[0] == ' '
    ensures (if ' ' in t + rest then (t + rest)[..IndexOf(t + rest, ' ')] else t + rest) == t
  {
    var after := t + rest;
    if rest == [] {
      assert after == t;
    } else {
      assert after[..|t|] == t;
      IndexOfAt(after, ' ', |t|);
    }
  }

  /** Conversely, a header carrying `t` yields exactly `t`. */
  lemma {:induction false} ExtractTokenComplete(t: string, rest: string)
    requires ' ' !in t
    requires rest == [] || rest[0] == ' '
    ensures ExtractToken(Some(BEARER + " " + t + rest)) == Some(t)
  {
    var h := BEARER + " " + t + rest;
    assert h == BEARER + " " + (t + rest);
    BearerHeaderFirst(t + rest);
    SplitSecond(h, ' ');
    TokenFirstField(t, rest);
  }

  /** A header whose first field is not exactly "Bearer" yields no token. */
  lemma {:induction false} OtherSchemeNoToken(scheme: string, rest: string)
    requires ' ' !in scheme && scheme != BEARER
    ensures ExtractToken(Some(scheme + " " + rest)) == None
  {
    var h := scheme + " " + rest;
    assert h[..|scheme|] == scheme;
    IndexOfAt(h, ' ', |scheme|);
    SplitFirst(h, ' ');
  }

  /** Another scheme, including a differently-cased "bearer", yields no token. */
  lemma OtherSchemeHeaders()
    ensures ExtractToken(Some("Basic abc")) == None
    ensures ExtractToken(Some("bearer abc")) == None
  {
    OtherSchemeNoToken("Basic", "abc");
    assert "Basic" + " " + "abc" == "Basic abc";
    OtherSchemeNoToken("bearer", "abc");
    assert "bearer" + " " + "abc" == "bearer abc";
  }

  /** No header, or "Bearer" with nothing after it, yields no token. */
  lemma BareHeaders()
    ensures ExtractToken(None) == None
    ensures ExtractToken(Some(BEARER)) == None
  {
    assert ' ' !in BEARER;
    SplitFirst(BEARER, ' ');
  }

  /** "Bearer " and "Bearer  x" yield the empty token, which the guard rejects as missing. */
  lemma EmptyTokenHeaders()
    ensures ExtractToken(Some(BEARER + " ")) == Some("")
    ensures ExtractToken(Some(BEARER + "  x")) == Some("")
  {
    ExtractTokenComplete("", "");
    assert BEARER + " " + "" + "" == BEARER + " ";
    ExtractTokenComplete("", " x");
    assert BEARER + " " + "" + " x" == BEARER + "  x";
  }

  /** `canActivate` of the JWT guard passing: it returns `true` and leaves `req.user`. */
  datatype Pass = Pass(result: bool, user: Option<Payload>)

  /** JWT guard: public routes pass untouched; otherwise a non-empty bearer token must verify. */
  function JwtCanActivate(policy: Policy, header: Option<string>, verify: string -> Option<Payload>)
    : (r: Result<Pass, HttpError>)
    ensures r.Success? ==> r.value.result
    ensures r.Failure? ==> r.error == Unauthorized(INVALID_TOKEN)
    ensures policy.isPublic ==> r == Success(Pass(true, None))
    ensures !policy.isPublic ==>
              (r.Success? <==> ExtractToken(header).Some? && ExtractToken(header).value != "" &&
                               verify(ExtractToken(header).value).Some?)
    ensures !policy.isPublic && r.Success? ==>
              r.value.user.Some? && r.value.user == verify(ExtractToken(header).value)
  {
    if policy.isPublic then Success(Pass(true, None))
    else
      var token := ExtractToken(header);
      if token.None? || token.value == "" then Failure(Unauthorized(INVALID_TOKEN))
      else
        match verify(token.value)
        case None => Failure(Unauthorized(INVALID_TOKEN))
        case Some(payload) => Success(Pass(true, Some(payload)))
  }

  /** Roles guard: no roles metadata passes anyone; otherwise `req.user.role` must be listed. */
  function RolesCanActivate(requiredRoles: Option<seq<Role>>, user: Option<Payload>): (r: Result<bool, HttpError>)
    ensures r.Success? ==> r.value
    ensures r.Failure? ==> r.error == Forbidden(ACCESS_DENIED)
    ensures r.Success? <==> requiredRoles.None? || (user.Some? && user.value.role in requiredRoles.value)
  {
    if requiredRoles.None? then Success(true)
    else if user.None? || user.value.role !in requiredRoles.value then Failure(Forbidden(ACCESS_DENIED))
    else Success(true)
  }

  /** What reaches the handler. */
  datatype Decision = Allowed(user: Option<Payload>) | Reject401 | Reject403

  /**
   * The two guards in the order JWT, then roles. The source registers neither
   * guard in the files shown; this order is an assumption.
   */
  function Gate(policy: Policy, header: Option<string>, verify: string -> Option<Payload>): (d: Decision)
    ensures d == Reject401 <==> JwtCanActivate(policy, header, verify).Failure?
    ensures d.Allowed? <==>
              JwtCanActivate(policy, header, verify).Success? &&
              RolesCanActivate(policy.requiredRoles, JwtCanActivate(policy, header, verify).value.user).Success?
    ensures d.Allowed? ==> d.user == JwtCanActivate(policy, header, verify).value.user
  {
    match JwtCanActivate(policy, header, verify)
    case Failure(_) => Reject401
    case Success(pass) =>
      if RolesCanActivate(policy.requiredRoles, pass.user).Success? then Allowed(pass.user) else Reject403
  }

  /** A public route without roles lets everyone in, whatever the header and the verifier say. */
  lemma PublicRouteOpen(policy: Policy, header: Option<string>, verify: string -> Option<Payload>)
    requires policy.isPublic && policy.requiredRoles.None?
    ensures Gate(policy, header, verify) == Allowed(None)
  {
  }

  /** A public route that also declares roles rejects everyone: the JWT guard never sets a user there. */
  lemma PublicRouteWithRolesClosed(policy: Policy, header: Option<string>, verify: string -> Option<Payload>)
    requires policy.isPublic && policy.requiredRoles.Some?
    ensures Gate(policy, header, verify) == Reject403
  {
  }

  /** An explicitly empty `@Roles()` list is satisfied by nobody. */
  lemma EmptyRolesClosed(policy: Policy, header: Option<string>, verify: string -> Option<Payload>)
    requires policy.requiredRoles == Some([])
    ensures !Gate(policy, header, verify).Allowed?
  {
  }

  /** On a protected route, a missing or malformed credential is a 401 before any role is looked at. */
  lemma ProtectedRouteNeedsToken(policy: Policy, header: Option<string>, verify: string -> Option<Payload>)
    requires !policy.isPublic
    requires ExtractToken(header).None? || ExtractToken(header) == Some("")
    ensures Gate(policy, header, verify) == Reject401
  {
  }

  /** An ADMIN-only route admits exactly the bearers of a token that verifies to an ADMIN payload. */
  lemma {:induction false} AdminRouteAdmits(t: string, verify: string -> Option<Payload>)
    requires ' ' !in t && t != ""
    ensures Gate(Policy(false, Some([Admin])), Some(BEARER + " " + t), verify).Allowed? <==>
              verify(t).Some? && verify(t).value.role == Admin
  {
    ExtractTokenComplete(t, "");
    assert BEARER + " " + t + "" == BEARER + " " + t;
  }

  /** Every route of a controller whose reads are public and writes ADMIN-only is decided this way. */
  lemma ControllerDecision(c: Controller, r: Route, header: Option<string>, verify: string -> Option<Payload>)
    requires PublicReadsAdminWrites(c) && r in c.routes
    ensures r.verb == Get && (r.path == "" || r.path == ":id") ==> Gate(PolicyOf(c, r), header, verify) == Allowed(None)
    ensures !(r.verb == Get && (r.path == "" || r.path == ":id")) ==>
              (Gate(PolicyOf(c, r), header, verify).Allowed? <==>
                 JwtCanActivate(PolicyOf(c, r), header, verify).Success? &&
                 JwtCanActivate(PolicyOf(c, r), header, verify).value.user.value.role == Admin)
  {
  }
}
