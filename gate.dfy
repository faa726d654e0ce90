/**
 * The handler `ValidateJWT` installs in front of a protected handler. Given
 * the password JWT_PASSWORD, the request's Authorization header and what the
 * JWT library makes of the token, it decides between an internal error, an
 * unauthorized or forbidden response through the error encoder, a panic, or
 * calling the next handler with the identity headers added.
 */
module AuthorizationGate {
  import opened Wrappers
  import opened GoStrings
  import opened Jwt
  import opened HttpHeaders
  import RoleMatcher
  import TokenIssuer

  /** The separator the bearer token is split out with. */
  const BearerSeparator: string := "Bearer "

  /** Authorization headers shorter than this are rejected outright. */
  const MinHeaderLength: int := 8

  /** The outcome of the library's own checks (signature, expiry, not-before). */
  datatype LibraryVerdict = Rejected | Passed(valid: bool)

  /**
   * What the JWT library makes of a token string, apart from the key
   * function the middleware supplies: it cannot decode it, or it decodes the
   * header's signing method and the claims and then runs its own checks
   * with the key.
   */
  datatype Decoding = Malformed | Decoded(alg: SigningMethod, claims: Claim, verdict: LibraryVerdict)

  /** `jwt.ParseWithClaims` as the middleware sees it: an error, or claims and `token.Valid`. */
  datatype ParseResult = ParseErr | Parsed(claims: Claim, valid: bool)

  /** What happens to one request. */
  datatype Outcome =
    | InternalError          // status 500 written directly, no encoder call
    | Unauthorized           // ErrUnauthorized through the error encoder
    | Forbidden              // ErrForbidden through the error encoder
    | Panic                  // index out of range on the split header
    | Forward(added: seq<Header>)  // the headers added, then `next.ServeHTTP`

  /** What the Authorization header yields. */
  datatype Credential = NoCredential | SplitPanics | Bearer(token: string)

  /** The key function: only an HMAC method gets the password as its key. */
  function KeyFor(alg: SigningMethod, password: string): (key: Option<string>)
    ensures key.Some? <==> alg.Hmac?
    ensures key.Some? ==> key.value == password
  {
    if alg.Hmac? then Some(password) else None
  }

  /** `jwt.ParseWithClaims` with the middleware's key function. */
  function ParseWithClaims(d: Decoding, password: string): (p: ParseResult)
    ensures p.Parsed? <==> d.Decoded? && d.alg.Hmac? && d.verdict.Passed?
    ensures p.Parsed? ==> p.claims == d.claims && p.valid == d.verdict.valid
  {
    match d
    case Malformed => ParseErr
    case Decoded(alg, claims, verdict) =>
      if KeyFor(alg, password).None? then ParseErr
      else match verdict
        case Rejected => ParseErr
        case Passed(valid) => Parsed(claims, valid)
  }

  /**
   * The text `t` starts at `start` in `h` and runs up to the next
   * occurrence of the separator at or after `start`, or to the end of `h`.
   */
  ghost predicate FieldAt(h: string, start: nat, t: string)
  {
    && start + |t| <= |h|
    && h[start..start + |t|] == t
    && (forall k :: start <= k < start + |t| ==> !OccursAt(h, BearerSeparator, k))
    && (start + |t| == |h| || OccursAt(h, BearerSeparator, start + |t|))
  }

  /** Occurrences in a suffix are occurrences in the whole string, shifted. */
  lemma OccursInSuffix(h: string, start: nat, pat: string, k: nat)
    requires start <= |h|
    ensures OccursAt(h[start..], pat, k) <==> OccursAt(h, pat, start + k)
  {
    if start + k + |pat| <= |h| {
      assert h[start..][k..k + |pat|] == h[start + k..start + k + |pat|];
    }
  }

  /**
   * `strings.Split(header, "Bearer ")[1]`, or None where that index is out
   * of range: the text between the first occurrence of the separator and
   * the next one (or the end), not the header with a prefix removed.
   */
  function BearerField(header: string): (field: Option<string>)
    ensures field.None? <==> NoOccurrence(header, BearerSeparator)
    ensures field.Some? ==>
      Index(header, BearerSeparator).Some? &&
      FieldAt(header, Index(header, BearerSeparator).value + |BearerSeparator|, field.value)
  {
    var parts := Split(header, BearerSeparator);
    BearerFieldFacts(header);
    if |parts| < 2 then None else Some(parts[1])
  }

  /** The facts `BearerField` states, read off the two steps of the split. */
  lemma BearerFieldFacts(header: string)
    ensures var parts := Split(header, BearerSeparator);
      && (|parts| < 2 <==> NoOccurrence(header, BearerSeparator))
      && (|parts| >= 2 ==>
            Index(header, BearerSeparator).Some? &&
            FieldAt(header, Index(header, BearerSeparator).value + |BearerSeparator|, parts[1]))
  {
    var sep := BearerSeparator;
    SplitHead(header, sep);
    if Index(header, sep).Some? {
      var i := Index(header, sep).value;
      SplitTail(header, sep);
      var start := i + |sep|;
      var rest := header[start..];
      assert !NoOccurrence(header, sep);
      assert Split(header, sep)[1] == Split(rest, sep)[0];
      FieldOfRest(header, start);
    }
  }

  /** The first piece of the split of a suffix is the field starting there. */
  lemma FieldOfRest(header: string, start: nat)
    requires start <= |header|
    ensures FieldAt(header, start, Split(header[start..], BearerSeparator)[0])
  {
    var sep := BearerSeparator;
    var rest := header[start..];
    SplitHead(rest, sep);
    var end := if Index(rest, sep).Some? then Index(rest, sep).value else |rest|;
    assert Split(rest, sep)[0] == rest[..end] == header[start..start + end];
    forall k | start <= k < start + end
      ensures !OccursAt(header, sep, k)
    {
      OccursInSuffix(header, start, sep, k - start);
    }
    if Index(rest, sep).Some? {
      OccursInSuffix(header, start, sep, end);
    }
  }

  /** Lines 70-78 of jwt.go: the length guard, the split and the empty-token check. */
  function ExtractToken(authorization: string): (c: Credential)
    ensures c == SplitPanics <==> |authorization| >= MinHeaderLength && NoOccurrence(authorization, BearerSeparator)
    ensures c.Bearer? ==> c.token != "" && |authorization| >= MinHeaderLength && BearerField(authorization) == Some(c.token)
    ensures c == NoCredential <==> |authorization| < MinHeaderLength || BearerField(authorization) == Some("")
  {
    if |authorization| < MinHeaderLength then NoCredential
    else match BearerField(authorization)
      case None => SplitPanics
      case Some(token) => if token == "" then NoCredential else Bearer(token)
  }

  /** The headers added before forwarding: email, user id and the roles joined with ":". */
  function IdentityHeaders(c: Claim): (added: seq<Header>)
    ensures forall n :: (AddedUnder(added, n) ==
      (if n == "email" then [c.email] else []) +
      (if n == "user-id" then [c.id] else []) +
      (if n == "roles" then [Join(c.roles, ":")] else []))
  {
    var added := [Header("email", c.email), Header("user-id", c.id), Header("roles", Join(c.roles, ":"))];
    AddedUnderThree(added[0], added[1], added[2]);
    added
  }

  /** The values three additions file under each name. */
  lemma AddedUnderThree(x: Header, y: Header, z: Header)
    ensures forall n :: (AddedUnder([x, y, z], n) ==
      (if x.name == n then [x.value] else []) +
      (if y.name == n then [y.value] else []) +
      (if z.name == n then [z.value] else []))
  {
    forall n
      ensures AddedUnder([x, y, z], n) ==
        (if x.name == n then [x.value] else []) +
        (if y.name == n then [y.value] else []) +
        (if z.name == n then [z.value] else [])
    {
      assert [x, y, z][1..] == [y, z];
      assert [y, z][1..] == [z];
      assert [z][1..] == [];
      var vx := if x.name == n then [x.value] else [];
      var vy := if y.name == n then [y.value] else [];
      var vz := if z.name == n then [z.value] else [];
      assert AddedUnder([z], n) == vz + AddedUnder([], n) == vz;
      assert AddedUnder([y, z], n) == vy + vz;
      assert AddedUnder([x, y, z], n) == vx + (vy + vz);
    }
  }

  /** The claims the library accepts for the presented token, if it accepts any. */
  function Accepted(password: string, authorization: string, parse: string -> Decoding): Option<ParseResult>
  {
    match ExtractToken(authorization)
    case Bearer(token) =>
      var p := ParseWithClaims(parse(token), password);
      if p.Parsed? then Some(p) else None
    case _ => None
  }

  /**
   * The handler body of `ValidateJWT`, in the order the source checks:
   * password, header, parse (with the algorithm guard), roles, validity.
   */
  function Authorize(password: string, authorization: string, parse: string -> Decoding,
                     requiredClaims: seq<string>): (o: Outcome)
    ensures o == InternalError <==> password == ""
    ensures o == Panic <==>
      password != "" && |authorization| >= MinHeaderLength && NoOccurrence(authorization, BearerSeparator)
    ensures o == Forbidden <==>
      && password != "" && Accepted(password, authorization, parse).Some?
      && !RoleMatcher.Covers(Accepted(password, authorization, parse).value.claims.roles, requiredClaims)
    ensures o.Forward? <==>
      && password != "" && Accepted(password, authorization, parse).Some?
      && RoleMatcher.Covers(Accepted(password, authorization, parse).value.claims.roles, requiredClaims)
      && Accepted(password, authorization, parse).value.valid
    ensures o.Forward? ==> o.added == IdentityHeaders(Accepted(password, authorization, parse).value.claims)
    ensures password != "" && ExtractToken(authorization) == NoCredential ==> o == Unauthorized
  {
    if password == "" then InternalError
    else match ExtractToken(authorization)
      case NoCredential => Unauthorized
      case SplitPanics => Panic
      case Bearer(token) =>
        match ParseWithClaims(parse(token), password)
        case ParseErr => Unauthorized
        case Parsed(claims, valid) =>
          if !RoleMatcher.Covers(claims.roles, requiredClaims) then Forbidden
          else if valid then Forward(IdentityHeaders(claims))
          else Unauthorized
  }

  /** Each identity header is added exactly once, under its own name. */
  lemma IdentityHeadersUnder(c: Claim)
    ensures AddedUnder(IdentityHeaders(c), "email") == [c.email]
    ensures AddedUnder(IdentityHeaders(c), "user-id") == [c.id]
    ensures AddedUnder(IdentityHeaders(c), "roles") == [Join(c.roles, ":")]
    ensures forall n :: n != "email" && n != "user-id" && n != "roles" ==> AddedUnder(IdentityHeaders(c), n) == []
  {
    assert "email" != "user-id" && "email" != "roles" && "user-id" != "roles";
  }

  /**
   * The headers the next handler sees, when it is called at all: the
   * request's own, with the identity headers appended.
   */
  function HeadersForNext(password: string, inbound: HeaderMap, parse: string -> Decoding,
                          requiredClaims: seq<string>): (seen: Option<HeaderMap>)
    ensures seen.Some? <==> Authorize(password, Get(inbound, "Authorization"), parse, requiredClaims).Forward?
    ensures seen.Some? ==> forall n :: Values(inbound, n) <= Values(seen.value, n)
    ensures seen.Some? ==>
      var c := Accepted(password, Get(inbound, "Authorization"), parse).value.claims;
      && Values(seen.value, "email") == Values(inbound, "email") + [c.email]
      && Values(seen.value, "user-id") == Values(inbound, "user-id") + [c.id]
      && Values(seen.value, "roles") == Values(inbound, "roles") + [Join(c.roles, ":")]
    ensures seen.Some? ==>
      forall n :: n != "email" && n != "user-id" && n != "roles" ==> Values(seen.value, n) == Values(inbound, n)
  {
    match Authorize(password, Get(inbound, "Authorization"), parse, requiredClaims)
    case Forward(added) =>
      IdentityHeadersUnder(Accepted(password, Get(inbound, "Authorization"), parse).value.claims);
      AddAllValues(inbound, added, "email");
      AddAllValues(inbound, added, "user-id");
      AddAllValues(inbound, added, "roles");
      forall n | n != "email" && n != "user-id" && n != "roles"
        ensures Values(AddAll(inbound, added), n) == Values(inbound, n)
      {
        AddAllValues(inbound, added, n);
      }
      Some(AddAll(inbound, added))
    case _ => None
  }

  /**
   * A client that sends its own "email" header and a token good enough to
   * be forwarded: the next handler's `Get("email")` reads the client's
   * value, not the token's.
   */
  lemma ClientEmailHeaderWins(password: string, inbound: HeaderMap, parse: string -> Decoding,
                              requiredClaims: seq<string>)
    ensures var seen := HeadersForNext(password, inbound, parse, requiredClaims);
      seen.Some? && |Values(inbound, "email")| > 0 ==> Get(seen.value, "email") == Get(inbound, "email")
  {
  }

  /** A header that is the separator followed by a token without it yields that token. */
  lemma BearerPrefixStripped(token: string)
    requires NoOccurrence(token, BearerSeparator)
    ensures BearerField(BearerSeparator + token) == Some(token)
  {
    var h := BearerSeparator + token;
    var sep := BearerSeparator;
    assert h[0..|sep|] == sep;
    IndexIsFirst(h, sep, 0);
    SplitTail(h, sep);
    assert h[|sep|..] == token;
    SplitHead(token, sep);
  }

  /** Text before the separator is skipped: "Basic Bearer tok" yields "tok". */
  lemma SeparatorNeedNotBePrefix()
    ensures ExtractToken("Basic Bearer tok") == Bearer("tok")
  {
    var h := "Basic Bearer tok";
    var sep := BearerSeparator;
    forall k | 0 <= k < 6
      ensures !OccursAt(h, sep, k)
    {
      assert h[k + 1] != sep[1];
    }
    assert OccursAt(h, sep, 6);
    IndexIsFirst(h, sep, 6);
    SplitTail(h, sep);
    assert h[13..] == "tok";
    SplitHead("tok", sep);
  }

  /** A second separator ends the token: "Bearer abcBearer xyz" yields "abc". */
  lemma SecondSeparatorEndsToken()
    ensures ExtractToken("Bearer abcBearer xyz") == Bearer("abc")
  {
    var h := "Bearer abcBearer xyz";
    var sep := BearerSeparator;
    assert h[0..7] == sep;
    IndexIsFirst(h, sep, 0);
    SplitTail(h, sep);
    var rest := h[7..];
    FirstOccurrenceAtThree(rest);
    SplitHead(rest, sep);
    assert rest[..3] == "abc";
    assert Split(h, sep)[1] == "abc";
  }

  lemma FirstOccurrenceAtThree(rest: string)
    requires rest == "abcBearer xyz"
    ensures Index(rest, BearerSeparator) == Some(3)
  {
    var sep := BearerSeparator;
    forall k | 0 <= k < 3
      ensures !OccursAt(rest, sep, k)
    {
      assert rest[k] != sep[0];
    }
    assert rest[3..10] == sep;
    IndexIsFirst(rest, sep, 3);
  }

  /** A token whose header names a non-HMAC method is never forwarded nor judged on roles. */
  lemma NonHmacTokenUnauthorized(password: string, authorization: string, parse: string -> Decoding,
                                 requiredClaims: seq<string>)
    requires password != ""
    requires ExtractToken(authorization).Bearer?
    requires parse(ExtractToken(authorization).token).Decoded?
    requires parse(ExtractToken(authorization).token).alg.NonHmac?
    ensures Authorize(password, authorization, parse, requiredClaims) == Unauthorized
  {
  }

  /**
   * The role check comes before `token.Valid`: claims that lack a required
   * role are forbidden whether or not the token is valid.
   */
  lemma RolesBeforeValidity(password: string, authorization: string, parse: string -> Decoding,
                            requiredClaims: seq<string>, valid: bool)
    requires password != ""
    requires ExtractToken(authorization).Bearer?
    requires parse(ExtractToken(authorization).token).Decoded?
    requires parse(ExtractToken(authorization).token).alg.Hmac?
    requires parse(ExtractToken(authorization).token).verdict == Passed(valid)
    requires !RoleMatcher.Covers(parse(ExtractToken(authorization).token).claims.roles, requiredClaims)
    ensures Authorize(password, authorization, parse, requiredClaims) == Forbidden
  {
  }

  /**
   * A token issued by `CreateJWT` and presented as "Bearer <token>" is
   * forwarded with the issued identity when its roles cover the required
   * ones, and forbidden otherwise.
   */
  lemma IssuedTokenAuthorized(email: string, id: string, issuer: string, roles: seq<string>,
                              password: string, ttlSetting: TokenIssuer.AtoiOutcome, nowNanos: int,
                              token: string, parse: string -> Decoding, requiredClaims: seq<string>)
    requires TokenIssuer.PrepareClaims(email, id, issuer, roles, password, ttlSetting, nowNanos).Ready?
    requires token != "" && NoOccurrence(token, BearerSeparator)
    requires parse(token) ==
      Decoded(HS512, TokenIssuer.PrepareClaims(email, id, issuer, roles, password, ttlSetting, nowNanos).claims, Passed(true))
    ensures var o := Authorize(password, BearerSeparator + token, parse, requiredClaims);
      && (RoleMatcher.Covers(roles, requiredClaims) ==>
            o == Forward([Header("email", email), Header("user-id", id), Header("roles", Join(roles, ":"))]))
      && (!RoleMatcher.Covers(roles, requiredClaims) ==> o == Forbidden)
  {
    var c := TokenIssuer.PrepareClaims(email, id, issuer, roles, password, ttlSetting, nowNanos).claims;
    var h := BearerSeparator + token;
    BearerPrefixStripped(token);
    assert ExtractToken(h) == Bearer(token);
    assert ParseWithClaims(parse(token), password) == Parsed(c, true);
    assert Accepted(password, h, parse) == Some(Parsed(c, true));
  }

  /**
   * The roles header splits back into the issued roles when there is at
   * least one role and none contains ":".
   */
  lemma RolesHeaderRoundTrip(c: Claim)
    requires |c.roles| > 0
    requires forall k :: 0 <= k < |c.roles| ==> ':' !in c.roles[k]
    ensures IdentityHeaders(c)[2].name == "roles"
    ensures Split(IdentityHeaders(c)[2].value, ":") == c.roles
  {
    SplitJoin(c.roles, ':');
  }

  /**
   * The issued identity a@x.com / u1 with roles admin and viewer: required
   * [viewer] is forwarded, required [admin, superuser] is forbidden, and no
   * Authorization header at all is unauthorized.
   */
  lemma ExampleScenario(password: string, nowNanos: int, token: string, parse: string -> Decoding)
    requires password != ""
    requires token != "" && NoOccurrence(token, BearerSeparator)
    requires parse(token) ==
      Decoded(HS512, TokenIssuer.PrepareClaims("a@x.com", "u1", "svc", ["admin", "viewer"], password,
                                                 TokenIssuer.Ok(5), nowNanos).claims, Passed(true))
    ensures Authorize(password, BearerSeparator + token, parse, ["viewer"]) ==
      Forward([Header("email", "a@x.com"), Header("user-id", "u1"), Header("roles", "admin:viewer")])
    ensures Authorize(password, BearerSeparator + token, parse, ["admin", "superuser"]) == Forbidden
    ensures Authorize(password, "", parse, ["viewer"]) == Unauthorized
  {
    var roles := ["admin", "viewer"];
    assert roles[1] == "viewer";
    IssuedTokenAuthorized("a@x.com", "u1", "svc", roles, password, TokenIssuer.Ok(5), nowNanos,
                          token, parse, ["viewer"]);
    assert !RoleMatcher.Covers(roles, ["admin", "superuser"]) by {
      assert ["admin", "superuser"][1] == "superuser";
    }
    IssuedTokenAuthorized("a@x.com", "u1", "svc", roles, password, TokenIssuer.Ok(5), nowNanos,
                          token, parse, ["admin", "superuser"]);
    assert Join(roles, ":") == "admin:viewer";
  }
}
