/**
 * Token issuance, `CreateJWT`: the lifetime is resolved from the outcome of
 * parsing JWT_TTL, the password JWT_PASSWORD must be set, and the claim set
 * is built and handed to the signer. The environment, the clock and the
 * signer are parameters.
 */
module TokenIssuer {
  import opened Wrappers
  import opened Jwt

  /** Go's `int64`. */
  type Int64 = x: int | -0x8000_0000_0000_0000 <= x < 0x8000_0000_0000_0000

  const TwoTo64: int := 0x1_0000_0000_0000_0000

  /** What `strconv.Atoi` reports for the value of JWT_TTL (an unset variable reads as ""). */
  datatype AtoiOutcome = Ok(n: Int64) | SyntaxErr | RangeErr

  /** The lifetime used when JWT_TTL does not parse as a number. */
  const DefaultTtlMinutes: Int64 := 5

  const NanosPerSecond: int := 1_000_000_000
  const NanosPerMinute: int := 60 * NanosPerSecond

  /** The largest lifetime whose `time.Duration` in nanoseconds fits in an `int64`. */
  const MaxTtlMinutes: int := 153_722_867

  /** The errors `CreateJWT` returns. */
  datatype IssueError = ErrUnknown | SigningError(reason: string)

  /** What the signer reports. */
  datatype SignOutcome = Signed(token: string) | SignFailed(reason: string)

  /** The two results of `CreateJWT`. */
  datatype Returned = Returned(tokenString: string, err: Option<IssueError>)

  /** The claim set to sign, or the reason none is built. */
  datatype Prepared = Ready(claims: Claim) | Refused(err: IssueError)

  /** The lifetime in minutes, or None when `CreateJWT` must give up. */
  function ResolveTtl(parsed: AtoiOutcome): (ttl: Option<Int64>)
    ensures ttl.None? <==> parsed.RangeErr?
    ensures parsed.Ok? ==> ttl == Some(parsed.n)
    ensures parsed.SyntaxErr? ==> ttl == Some(5)
  {
    match parsed
    case Ok(n) => Some(n)
    case SyntaxErr => Some(DefaultTtlMinutes)
    case RangeErr => None
  }

  /** Two's-complement wrap-around of an integer into an `int64`. */
  function Wrap64(x: int): (w: Int64)
    ensures (x - w) % TwoTo64 == 0
    ensures -0x8000_0000_0000_0000 <= x < 0x8000_0000_0000_0000 ==> w == x
  {
    (x + 0x8000_0000_0000_0000) % TwoTo64 - 0x8000_0000_0000_0000
  }

  /** `time.Minute * time.Duration(ttl)`: nanoseconds, multiplied in `int64`. */
  function TtlDuration(ttl: Int64): (d: Int64)
    ensures (NanosPerMinute * ttl - d) % TwoTo64 == 0
    ensures -MaxTtlMinutes <= ttl <= MaxTtlMinutes ==> d == NanosPerMinute * ttl
  {
    Wrap64(NanosPerMinute * ttl)
  }

  /** `jwt.NewNumericDate`: a time in nanoseconds truncated to whole seconds. */
  function NumericDate(nanos: int): (seconds: int)
    ensures NanosPerSecond * seconds <= nanos < NanosPerSecond * (seconds + 1)
  {
    nanos / NanosPerSecond
  }

  /** The claim set `CreateJWT` builds, after its checks, at time `nowNanos`. */
  function BuildClaims(email: string, id: string, issuer: string, roles: seq<string>,
                       ttl: Int64, nowNanos: int): (c: Claim)
    ensures c.email == email && c.id == id && c.roles == roles && c.issuer == issuer
    ensures NanosPerSecond * c.notBefore <= nowNanos < NanosPerSecond * (c.notBefore + 1)
    ensures -MaxTtlMinutes <= ttl <= MaxTtlMinutes ==> c.expiresAt == c.notBefore + 60 * ttl
  {
    NumericDateShift(nowNanos, ttl);
    Claim(email, id, roles, issuer,
          NumericDate(nowNanos + TtlDuration(ttl)), NumericDate(nowNanos))
  }

  /** Everything `CreateJWT` does before signing. */
  function PrepareClaims(email: string, id: string, issuer: string, roles: seq<string>,
                         password: string, ttlSetting: AtoiOutcome, nowNanos: int): (p: Prepared)
    ensures p.Refused? <==> ttlSetting.RangeErr? || password == ""
    ensures p.Refused? ==> p.err == ErrUnknown
    ensures p.Ready? ==>
      && p.claims.email == email && p.claims.id == id
      && p.claims.roles == roles && p.claims.issuer == issuer
      && p.claims.notBefore == NumericDate(nowNanos)
      && p.claims.expiresAt == NumericDate(nowNanos + TtlDuration(ResolveTtl(ttlSetting).value))
  {
    match ResolveTtl(ttlSetting)
    case None => Refused(ErrUnknown)
    case Some(ttl) =>
      if password == "" then Refused(ErrUnknown)
      else Ready(BuildClaims(email, id, issuer, roles, ttl, nowNanos))
  }

  /**
   * `CreateJWT`: the claim set signed with HS512 under the password, or an
   * error together with an empty token string.
   */
  function CreateJwt(email: string, id: string, issuer: string, roles: seq<string>,
                     password: string, ttlSetting: AtoiOutcome, nowNanos: int,
                     sign: (SigningMethod, Claim, string) -> SignOutcome): (r: Returned)
    ensures r.err.Some? ==> r.tokenString == ""
    ensures r.err == Some(ErrUnknown) <==> ttlSetting.RangeErr? || password == ""
    ensures r.err.None? <==>
      && !ttlSetting.RangeErr? && password != ""
      && sign(HS512, PrepareClaims(email, id, issuer, roles, password, ttlSetting, nowNanos).claims, password).Signed?
    ensures r.err.None? ==>
      r.tokenString == sign(HS512, PrepareClaims(email, id, issuer, roles, password, ttlSetting, nowNanos).claims, password).token
    ensures PrepareClaims(email, id, issuer, roles, password, ttlSetting, nowNanos).Ready? &&
            sign(HS512, PrepareClaims(email, id, issuer, roles, password, ttlSetting, nowNanos).claims, password).SignFailed? ==>
      r.err == Some(SigningError(
        sign(HS512, PrepareClaims(email, id, issuer, roles, password, ttlSetting, nowNanos).claims, password).reason))
  {
    match PrepareClaims(email, id, issuer, roles, password, ttlSetting, nowNanos)
    case Refused(e) => Returned("", Some(e))
    case Ready(claims) =>
      match sign(HS512, claims, password)
      case Signed(token) => Returned(token, None)
      case SignFailed(reason) => Returned("", Some(SigningError(reason)))
  }

  /** Shifting a time by whole minutes shifts its NumericDate by as many minutes of seconds. */
  lemma NumericDateShift(nanos: int, minutes: int)
    ensures NumericDate(nanos + NanosPerMinute * minutes) == NumericDate(nanos) + 60 * minutes
  {
    var q, rem := nanos / NanosPerSecond, nanos % NanosPerSecond;
    assert nanos + NanosPerMinute * minutes == NanosPerSecond * (q + 60 * minutes) + rem;
  }

  /**
   * When the lifetime's duration does not overflow, a token is valid for
   * exactly `ttl` minutes from its NotBefore.
   */
  lemma ExpiryIsTtlAfterNotBefore(email: string, id: string, issuer: string, roles: seq<string>,
                                  password: string, ttlSetting: AtoiOutcome, nowNanos: int)
    requires PrepareClaims(email, id, issuer, roles, password, ttlSetting, nowNanos).Ready?
    requires ttlSetting.Ok? ==> -MaxTtlMinutes <= ttlSetting.n <= MaxTtlMinutes
    ensures var c := PrepareClaims(email, id, issuer, roles, password, ttlSetting, nowNanos).claims;
            c.expiresAt == c.notBefore + 60 * ResolveTtl(ttlSetting).value
  {
    var ttl := ResolveTtl(ttlSetting).value;
    assert TtlDuration(ttl) == NanosPerMinute * ttl;
    NumericDateShift(nowNanos, ttl);
  }

  /** An unset or non-numeric JWT_TTL gives tokens that live five minutes. */
  lemma UnparsableTtlGivesFiveMinutes(email: string, id: string, issuer: string, roles: seq<string>,
                                      password: string, nowNanos: int)
    requires password != ""
    ensures var c := PrepareClaims(email, id, issuer, roles, password, SyntaxErr, nowNanos).claims;
            c.expiresAt == c.notBefore + 300
  {
    ExpiryIsTtlAfterNotBefore(email, id, issuer, roles, password, SyntaxErr, nowNanos);
  }

  /**
   * Within the representable range, NotBefore comes no later than the
   * expiry exactly when the lifetime is not negative.
   */
  lemma NotBeforeAtMostExpiry(email: string, id: string, issuer: string, roles: seq<string>,
                              password: string, ttlSetting: AtoiOutcome, nowNanos: int)
    requires PrepareClaims(email, id, issuer, roles, password, ttlSetting, nowNanos).Ready?
    requires ttlSetting.Ok? ==> -MaxTtlMinutes <= ttlSetting.n <= MaxTtlMinutes
    ensures var c := PrepareClaims(email, id, issuer, roles, password, ttlSetting, nowNanos).claims;
            c.notBefore <= c.expiresAt <==> ResolveTtl(ttlSetting).value >= 0
  {
    ExpiryIsTtlAfterNotBefore(email, id, issuer, roles, password, ttlSetting, nowNanos);
  }

  /**
   * One minute past the representable range, the duration wraps to a large
   * negative value and the token expires long before its NotBefore.
   */
  lemma OverflowingTtlExpiresBeforeNotBefore(email: string, id: string, issuer: string,
                                             roles: seq<string>, password: string, nowNanos: int)
    requires password != ""
    requires 0 <= nowNanos < 0x4000_0000_0000_0000
    ensures var c := PrepareClaims(email, id, issuer, roles, password, Ok(MaxTtlMinutes + 1), nowNanos).claims;
            c.expiresAt < c.notBefore
  {
    assert TtlDuration(MaxTtlMinutes + 1) == NanosPerMinute * (MaxTtlMinutes + 1) - TwoTo64;
  }

  /**
   * One minute below the representable range, the duration wraps to a large
   * positive value: a negative lifetime then gives a token that expires
   * long after its NotBefore.
   */
  lemma UnderflowingTtlExpiresAfterNotBefore(email: string, id: string, issuer: string,
                                             roles: seq<string>, password: string, nowNanos: int)
    requires password != ""
    requires 0 <= nowNanos < 0x4000_0000_0000_0000
    ensures var c := PrepareClaims(email, id, issuer, roles, password, Ok(-MaxTtlMinutes - 1), nowNanos).claims;
            c.notBefore < c.expiresAt
  {
    assert TtlDuration(-MaxTtlMinutes - 1) == NanosPerMinute * (-MaxTtlMinutes - 1) + TwoTo64;
  }
}
