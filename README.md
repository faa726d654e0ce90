# jwtHelper: issuance and gate rules, modelled in Dafny

`jwtHelper` is a single Go file, `jwt.go`. `CreateJWT` issues an HS512-signed token that carries an
email, a user id and a list of roles. `ValidateJWT` builds an HTTP middleware that checks a bearer
token and a list of required roles before it calls the protected handler. The signing, the token
encoding and the signature and expiry checks belong to the `golang-jwt` library. This project
models the decision rules around them:

- `RoleMatcher` (`roles.dfy`): `hasRequiredClaims` is a method with the source's two loops. It
  loads the user's roles into a set, then looks up each required role and stops at the first one
  that is missing. It is proved equal to set containment of the required roles in the user's roles.
- `TokenIssuer` (`issuer.dfy`): `CreateJWT`. It resolves the lifetime from the outcome of
  `strconv.Atoi` on `JWT_TTL` and rejects an empty `JWT_PASSWORD`. It then builds the claims
  email, id, roles, issuer, `ExpiresAt` and `NotBefore`, and hands them to a signer that is a
  parameter. The lifetime in nanoseconds is multiplied in `int64` and wraps around, and
  NumericDates are cut down to whole seconds; the model writes out both.
- `AuthorizationGate` (`gate.dfy`): the handler body of `ValidateJWT`, as a pure function from the
  password, the `Authorization` header, what the library makes of the token and the required
  roles to an outcome: internal error, unauthorized, forbidden, a panic, or forward with the
  headers added. The bearer token is `strings.Split(header, "Bearer ")[1]`. That is the text
  between the first occurrence of `"Bearer "` and the next one, not the header with a prefix
  removed. When the header is at least 8 bytes long and holds no `"Bearer "`, the index is out
  of range and the handler panics; the model gives this its own outcome, `Panic`.
- `GoStrings` (`strings.dfy`): `strings.Index`, `strings.Split` (non-empty separator) and
  `strings.Join`, with both round trips. `HttpHeaders` (`headers.dfy`): `Header.Get` and
  `Header.Add`. `Jwt` (`jwt_types.dfy`): the claim set and the signing methods.
  `Wrappers` (`wrappers.dfy`): `Option`.

Where the intended behaviour of the system and the code disagree, the model follows the code:

- The lifetime setting is meant to default to 5 minutes only when it is absent, and a
  non-numeric value is meant to fail. In the code, a `JWT_TTL` that does not parse (unset, empty
  or non-numeric) falls back to 5 minutes. Only an out-of-range number makes `CreateJWT` fail
  with `ErrUnknown`.
- A missing signing secret is meant to be a configuration error of its own. An empty password
  makes `CreateJWT` fail with `ErrUnknown`.
- A credential is expected to start with the scheme marker. The code accepts `"Bearer "` anywhere
  in the header (`SeparatorNeedNotBePrefix`). A second occurrence cuts the token short
  (`SecondSeparatorEndsToken`). A header of 8 or more bytes with no separator panics rather than
  being refused; a shorter one is refused by the length guard (jwt.go:70-72).
- `notBefore <= expiresAt` is meant to hold for every token. Within the `int64` range of the
  duration (at most 153,722,867 minutes either way) it holds exactly when the lifetime is not
  negative (`NotBeforeAtMostExpiry`). Just past either bound the duration wraps and its sign
  flips: 153,722,868 minutes gives a token that expires before its `NotBefore`
  (`OverflowingTtlExpiresBeforeNotBefore`), and -153,722,868 minutes gives one that expires long
  after it (`UnderflowingTtlExpiresAfterNotBefore`). Further out, the sign comes back every 2^64
  nanoseconds.
- The identity data attached for the next handler is meant not to bypass metadata already on
  the request. `Header.Add` appends, so an `email` header the client sent itself is still what
  `Get("email")` returns downstream (`ClientEmailHeaderWins`).

## Model

| member | source | states |
|---|---|---|
| `GoStrings.IndexFrom` | jwt.go:74 | the result is the first position at or after `i` where the pattern occurs, or None when it occurs nowhere from `i` on |
| `GoStrings.Index` | jwt.go:74 | `strings.Index`: the first occurrence of the pattern, or None when there is none |
| `GoStrings.IndexIsFirst` | jwt.go:74 | an occurrence with no occurrence before it is exactly what `Index` returns |
| `GoStrings.Split` | jwt.go:74 | `strings.Split` with a non-empty separator gives at least one piece, and no piece contains the separator |
| `GoStrings.SplitHead` | jwt.go:74 | the first piece is all of the string when the separator is absent, and otherwise the text before its first occurrence |
| `GoStrings.SplitTail` | jwt.go:74 | after the first occurrence, the pieces are those of the rest of the string |
| `GoStrings.JoinSplit` | jwt.go:74 | joining the pieces of a split with the same separator rebuilds the string |
| `GoStrings.SplitJoin` | jwt.go:105 | splitting a join on a one-character separator gives back the parts when there is at least one part and no part contains the separator |
| `GoStrings.Join` | jwt.go:105 | `strings.Join`: for at least one part, the length is the parts' total plus one separator between each pair of neighbours, and the first part comes first; `JoinSplit` and `SplitJoin` characterise it as the inverse of `Split` |
| `RoleMatcher.HasRequiredClaims` | jwt.go:116-129 | returns true exactly when every required role is among the user's roles; the loop invariants carry the map contents and the roles checked so far |
| `RoleMatcher.CoversIsSubset` | jwt.go:116-129 | the matcher's verdict is set containment: the required roles, as a set, are a subset of the user's roles, as a set |
| `RoleMatcher.EmptyRequiredPasses` | jwt.go:122-128 | no required roles: every user passes, including one without roles |
| `RoleMatcher.NoRolesFailsNonEmpty` | jwt.go:117-126 | a user without roles fails every non-empty requirement |
| `RoleMatcher.OnlyElementsMatter` | jwt.go:117-126 | reordering or repeating entries in either list does not change the verdict |
| `TokenIssuer.ResolveTtl` | jwt.go:28-34 | the lifetime is the parsed number; any syntax error, an unset variable included, gives 5 minutes; only a range error gives no lifetime |
| `TokenIssuer.Wrap64` | jwt.go:40 | `int64` arithmetic: the result differs from the true value by a multiple of 2^64, and equals it when it is in range |
| `TokenIssuer.TtlDuration` | jwt.go:40 | `time.Minute * time.Duration(ttl)`: congruent to 60,000,000,000 ns per minute modulo 2^64, and equal to it when the lifetime is within ±153,722,867 minutes |
| `TokenIssuer.NumericDate` | jwt.go:46-48 | `jwt.NewNumericDate` truncated to seconds: the whole number of seconds whose span contains the instant |
| `TokenIssuer.BuildClaims` | jwt.go:41-50 | the claim literal keeps email, id, roles and issuer unchanged, `NotBefore` is the second containing now, and within range `ExpiresAt` is `NotBefore` plus 60 seconds per minute of lifetime |
| `TokenIssuer.PrepareClaims` | jwt.go:27-50 | refuses with `ErrUnknown` exactly on a range error or an empty password; otherwise the claims carry email, id, roles (same order) and issuer unchanged, `NotBefore` is now in whole seconds and `ExpiresAt` is now plus the wrapped lifetime, in whole seconds |
| `TokenIssuer.CreateJwt` | jwt.go:25-58 | on any error the token string is empty; `ErrUnknown` exactly on a range error or an empty password; success exactly when the HS512 signer accepts the prepared claims under the password, and the token is what it returns; a signer failure is returned with the signer's own reason |
| `TokenIssuer.ExpiryIsTtlAfterNotBefore` | jwt.go:40-49 | when the lifetime does not overflow, `ExpiresAt` is `NotBefore` plus 60 seconds per minute of lifetime |
| `TokenIssuer.UnparsableTtlGivesFiveMinutes` | jwt.go:28-34 | an unset or non-numeric `JWT_TTL` gives a token that expires 300 seconds after its `NotBefore` |
| `TokenIssuer.NotBeforeAtMostExpiry` | jwt.go:40-49 | within the `int64` range, `NotBefore <= ExpiresAt` exactly when the lifetime is not negative |
| `TokenIssuer.OverflowingTtlExpiresBeforeNotBefore` | jwt.go:40-46 | a lifetime of 153,722,868 minutes overflows the duration, and the token expires before its `NotBefore` |
| `TokenIssuer.UnderflowingTtlExpiresAfterNotBefore` | jwt.go:40-46 | a lifetime of -153,722,868 minutes overflows the duration, and the token expires after its `NotBefore` |
| `AuthorizationGate.KeyFor` | jwt.go:81-87 | the key function yields a key, the password, exactly for an HMAC signing method |
| `AuthorizationGate.ParseWithClaims` | jwt.go:81-92 | the parse succeeds exactly when the token decodes, names an HMAC method and passes the library's checks, and then it yields the decoded claims and validity |
| `AuthorizationGate.BearerField` | jwt.go:74 | None exactly when the header holds no `"Bearer "`; otherwise the text from just after the first occurrence up to the next occurrence or the end |
| `AuthorizationGate.ExtractToken` | jwt.go:70-78 | the split panics exactly when the header is at least 8 long and lacks the separator; no credential exactly when the header is shorter than 8 or the field is empty; otherwise the non-empty field |
| `AuthorizationGate.IdentityHeaders` | jwt.go:103-105 | the additions file exactly the email under `email`, the id under `user-id` and the roles joined with ":" under `roles`, and nothing under any other name |
| `AuthorizationGate.Authorize` | jwt.go:63-110 | internal error exactly when the password is empty; a panic exactly on the unsplittable header; forbidden exactly when the parse succeeds and the roles do not cover the requirement, whatever the validity; forward exactly when the parse succeeds, the roles cover the requirement and the token is valid, and then the added headers are email, user-id and the roles joined with ":"; otherwise unauthorized |
| `AuthorizationGate.HeadersForNext` | jwt.go:100-106 | the next handler is reached exactly on forward; it sees every header the client sent, unchanged in front, with the email, id and joined roles appended, and every other header name keeps exactly the client's values |
| `AuthorizationGate.ClientEmailHeaderWins` | jwt.go:103 | when the client sent its own `email` header, `Get("email")` downstream still reads the client's value |
| `AuthorizationGate.BearerPrefixStripped` | jwt.go:74 | `"Bearer "` followed by a token that does not contain it yields exactly that token |
| `AuthorizationGate.SeparatorNeedNotBePrefix` | jwt.go:74 | `"Basic Bearer tok"` yields the token `tok`: text before the separator is skipped |
| `AuthorizationGate.SecondSeparatorEndsToken` | jwt.go:74 | `"Bearer abcBearer xyz"` yields `abc`: a second separator ends the token |
| `AuthorizationGate.NonHmacTokenUnauthorized` | jwt.go:81-92 | a token whose header names a non-HMAC method is unauthorized, whatever its claims and validity |
| `AuthorizationGate.RolesBeforeValidity` | jwt.go:94-110 | claims that lack a required role are forbidden whether the token is valid or not |
| `AuthorizationGate.IssuedTokenAuthorized` | jwt.go:40-106 | the claims `CreateJWT` builds, presented as `"Bearer <token>"` and accepted by the library, are forwarded with the issued email, id and joined roles when the roles cover the requirement, and forbidden otherwise |
| `AuthorizationGate.RolesHeaderRoundTrip` | jwt.go:105 | the roles header splits on ":" back into the issued roles when there is at least one role and none contains ":" |
| `AuthorizationGate.ExampleScenario` | jwt.go:25-110 | a@x.com / u1 with roles admin and viewer: required [viewer] forwards with roles `admin:viewer`, required [admin, superuser] is forbidden, and an empty Authorization header is unauthorized |
| `HttpHeaders.Add` | jwt.go:103-105 | `Header.Add` appends the value under its name and leaves every other name alone |
| `HttpHeaders.Get` | jwt.go:70 | `Header.Get`: the first value under the name, or "" when the name has no values |
| `HttpHeaders.AddAll` | jwt.go:103-105 | after several additions, each name's old values are still in front, and the list has grown by the number of values added under that name |
| `HttpHeaders.AddAllValues` | jwt.go:103-105 | each name holds its old values followed by the values added under it, in order |
| `HttpHeaders.ClientValueStaysFirst` | jwt.go:103-105 | a value already present under a name is still what `Get` returns after the additions |
| `HttpHeaders.FirstAddedIsRead` | jwt.go:103-105 | under a name the client did not send, `Get` returns the first value added |

## Left out

- HMAC-SHA512 signing, the base64url and JSON encoding of tokens, and the library's signature,
  expiry and not-before checks are foreign code. The signer is a function parameter. What the
  library makes of a token (undecodable; or decoded method and claims with its own verdict) is
  an abstract input.
- `os.Getenv`, `time.Now` and `strconv.Atoi` are replaced by parameters: the password, the
  `Atoi` outcome (`Ok(n)`, syntax error, range error) and the current time in nanoseconds.
- TokenIssuer.PrepareClaims: the source reads the clock twice (lines 40 and 48), so
  `NotBefore` may be a later instant than the base of the expiry. The model uses one reading.
- TokenIssuer.PrepareClaims: overflow of the time value itself in `time.Time.Add` is not
  modelled. Only the `int64` overflow of the duration multiplication is.
- Writing the 500 status, `errorEncoder.Encode`, `log.Println` and `next.ServeHTTP` are I/O. They
  become the constructors of the outcome. What `net/http` does after a handler panics is not
  modelled.
- The closures that wrap the handler (`ValidateJWT`, lines 60-62) are plumbing. The required
  roles are an argument of `Authorize` instead.
- AuthorizationGate.RolesBeforeValidity covers a decoded token that is not valid. The
  golang-jwt library (v4, not part of this model) returns no error only after it has set
  `token.Valid`, so that case and the final unauthorized branch (jwt.go:107-109) do not happen
  with that library. The model keeps them because the handler checks for them.
- The type assertion `token.Claims.(*claim)` always succeeds, because the parse is given a
  `*claim`. The model keeps only `token.Valid`.
- The claims checked for roles are the ones the library decoded. The model does not track
  whether the library fills them in when it reports an error, because the gate returns before
  using them.
- Go strings are byte strings. Each element of a Dafny `string` stands for one byte, so the
  8-byte length guard counts elements.
- `strings.Split` with an empty separator is not modelled; the source never calls it that way.
- `net/http` canonicalises header names (`email` is stored as `Email`). Names are compared as
  written.
