/** The claim set carried by a token and the signing methods a token header can name. */
module Jwt {

  /**
   * The `claim` struct: the application claims email, id and roles and the
   * registered claims the middleware sets. Times are NumericDates, whole
   * seconds since the Unix epoch.
   */
  datatype Claim = Claim(
    email: string,
    id: string,
    roles: seq<string>,
    issuer: string,
    expiresAt: int,
    notBefore: int)

  /** The `alg` a token header declares, as the JWT library resolves it. */
  datatype SigningMethod = Hmac(name: string) | NonHmac(name: string)

  /** HMAC with SHA-512, the method tokens are issued with. */
  const HS512: SigningMethod := Hmac("HS512")
}
