/**
 * `TokenGenerator`: the token a successful login receives, and the
 * parameters the bearer scheme checks incoming tokens against.
 */
module Tokens {
  import opened Wrappers
  import opened Text
  import opened JwtOptions

  const JtiClaimType: string := "jti"
  const NameClaimType: string := "http://schemas.xmlsoap.org/ws/2005/05/identity/claims/name"
  const HmacSha256Signature: string := "http://www.w3.org/2001/04/xmldsig-more#hmac-sha256"

  datatype Claim = Claim(claimType: string, value: string)

  datatype SigningCredentials = SigningCredentials(key: seq<byte>, algorithm: string)

  /** The `SecurityTokenDescriptor` the token is created from. */
  datatype TokenDescriptor = TokenDescriptor(
    subject: seq<Claim>,
    expires: Ticks,
    issuer: string,
    audience: string,
    signing: SigningCredentials)

  /** The login answer: user name, serialized token and lifetime in milliseconds. */
  datatype JwtToken = JwtToken(username: string, accessToken: string, expiresIn: Int32)

  /** `TokenValidationParameters` of the bearer scheme. */
  datatype ValidationParameters = ValidationParameters(
    issuerSigningKey: seq<byte>,
    validIssuer: string,
    validAudience: string,
    validateIssuerSigningKey: bool)

  /** The parameters the bearer scheme is configured with. */
  function BearerParameters(c: JwtConfiguration): ValidationParameters {
    ValidationParameters(SecurityKeyBytes(c), c.issuer, c.audience, true)
  }

  /** The descriptor for a user: a token id claim and a name claim, signed with the configured key. */
  function Descriptor(c: JwtConfiguration, username: string, jti: string, expires: Ticks): TokenDescriptor {
    TokenDescriptor(
      [Claim(JtiClaimType, jti), Claim(NameClaimType, username)],
      expires,
      c.issuer,
      c.audience,
      SigningCredentials(SecurityKeyBytes(c), HmacSha256Signature))
  }

  /**
   * `GenerateToken`. The fresh GUID and the clock are parameters, and so is
   * `write`, the JWT handler's creation and serialization of the token,
   * which may throw.
   */
  function GenerateToken(c: JwtConfiguration, username: string, jti: string, now: Ticks,
                         write: TokenDescriptor -> Outcome<string>): (r: Outcome<JwtToken>)
    ensures r.Returned? <==>
      ExpirationDate(c, now).Returned? && write(Descriptor(c, username, jti, ExpirationDate(c, now).value)).Returned?
    ensures r.Returned? ==>
      && r.value.username == username
      && r.value.accessToken == write(Descriptor(c, username, jti, ExpirationDate(c, now).value)).value
      && r.value.expiresIn == ExpirationInMilliseconds(c)
  {
    match ExpirationDate(c, now)
    case Threw => Threw
    case Returned(expires) =>
      match write(Descriptor(c, username, jti, expires))
      case Threw => Threw
      case Returned(token) => Returned(JwtToken(username, token, ExpirationInMilliseconds(c)))
  }

  /**
   * A generated token is signed with HMAC-SHA-256 under the key, and names
   * the issuer and audience, that the bearer scheme validates against; its
   * subject holds exactly two claims, the token id and the user's name, and
   * it expires the configured minutes after issue.
   */
  lemma TokenMatchesBearerScheme(c: JwtConfiguration, username: string, jti: string, now: Ticks)
    requires ExpirationDate(c, now).Returned?
    ensures var d := Descriptor(c, username, jti, ExpirationDate(c, now).value);
      && d.signing.key == BearerParameters(c).issuerSigningKey
      && d.issuer == BearerParameters(c).validIssuer
      && d.audience == BearerParameters(c).validAudience
      && d.signing == SigningCredentials(BearerParameters(c).issuerSigningKey, HmacSha256Signature)
      && d.subject == [Claim(JtiClaimType, jti), Claim(NameClaimType, username)]
      && Claim(NameClaimType, username) in d.subject
      && d.expires - now == c.expirationMinutes as int * TicksPerMinute
  {
  }

  /** Tokens signed for one configuration validate under another only if the key strings are equal. */
  lemma SigningKeyIdentifiesConfiguration(c: JwtConfiguration, other: JwtConfiguration, username: string, jti: string, expires: Ticks)
    requires Descriptor(c, username, jti, expires).signing.key == BearerParameters(other).issuerSigningKey
    ensures c.securityKey == other.securityKey
  {
    KeyBytesInjective(c, other);
  }
}
