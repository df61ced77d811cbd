/**
 * `generateJWTToken`: the claim set and header handed to the signer. The
 * signer itself (HMAC-SHA256 and the base64 decoding of the secret) is a
 * function parameter; all that is assumed of its output is that it is a
 * non-empty string of base64url characters and dots, as a compact JWT is.
 */
module Jwt {
  import EnvFile

  const Audience: string := "doordash"
  /** Seconds between issue and expiry. */
  const Lifetime: int := 300

  /** The identity material read from the environment at startup. */
  datatype AccessKey = AccessKey(developerId: string, keyId: string, signingSecret: string)

  datatype Claims = Claims(aud: string, iss: string, kid: string, exp: int, iat: int)

  /** The signing options: `algorithm` and the protected header's `dd-ver` field. */
  datatype SigningOptions = SigningOptions(algorithm: string, ddVer: string)

  predicate IsBase64UrlChar(c: char) {
    ('A' <= c <= 'Z') || ('a' <= c <= 'z') || ('0' <= c <= '9') || c == '-' || c == '_'
  }

  predicate IsCompactJws(t: string) {
    |t| > 0 && forall k :: 0 <= k < |t| ==> IsBase64UrlChar(t[k]) || t[k] == '.'
  }

  type CompactToken = t: string | IsCompactJws(t) witness "e30"

  /** The foreign `jwt.sign(claims, secret, options)`. */
  type Signer = (Claims, string, SigningOptions) -> CompactToken

  /** `Math.floor(x)` on the exact quotient, ignoring floating-point rounding. */
  function Floor(x: real): int {
    x.Floor
  }

  /**
   * The claim set built from two separate `Date.now()` readings, in
   * milliseconds: `t1` for `exp` and `t2` for `iat`.
   */
  function ClaimSet(key: AccessKey, t1: int, t2: int): Claims {
    Claims(Audience, key.developerId, key.keyId,
           Floor(t1 as real / 1000.0 + Lifetime as real),
           Floor(t2 as real / 1000.0))
  }

  function Options(): SigningOptions {
    SigningOptions("HS256", "DD-JWT-V1")
  }

  function GenerateToken(sign: Signer, key: AccessKey, t1: int, t2: int): CompactToken {
    sign(ClaimSet(key, t1, t2), key.signingSecret, Options())
  }

  /** `Math.floor(ms / 1000)` is whole seconds, the integer quotient. */
  lemma SecondsOf(ms: int, extra: int)
    ensures Floor(ms as real / 1000.0 + extra as real) == ms / 1000 + extra
  {
  }

  /** Audience, issuer, key id and header do not depend on the clock. */
  lemma FixedFields(key: AccessKey, t1: int, t2: int)
    ensures var c := ClaimSet(key, t1, t2);
      c.aud == "doordash" && c.iss == key.developerId && c.kid == key.keyId
    ensures Options() == SigningOptions("HS256", "DD-JWT-V1")
  {
  }

  /** `exp` is the first reading plus 300 seconds and `iat` the second reading, in whole seconds. */
  lemma Timestamps(key: AccessKey, t1: int, t2: int)
    ensures ClaimSet(key, t1, t2).exp == t1 / 1000 + Lifetime
    ensures ClaimSet(key, t1, t2).iat == t2 / 1000
  {
  }

  /**
   * With readings less than a second apart and in order, the token lives
   * 299 or 300 seconds, exactly 300 when both fall in the same second, and
   * always expires after it is issued.
   */
  lemma ExpiryWindow(key: AccessKey, t1: int, t2: int)
    requires t1 <= t2 < t1 + 1000
    ensures var c := ClaimSet(key, t1, t2);
      299 <= c.exp - c.iat <= 300 && c.iat < c.exp
    ensures var c := ClaimSet(key, t1, t2);
      c.exp - c.iat == 300 <==> t1 / 1000 == t2 / 1000
  {
    Timestamps(key, t1, t2);
  }

  /** Equal readings give a lifetime of exactly 300 seconds. */
  lemma SameInstant(key: AccessKey, t: int)
    ensures ClaimSet(key, t, t).exp - ClaimSet(key, t, t).iat == Lifetime
  {
  }

  /**
   * A compact JWT is non-empty and has neither `$` nor line terminators, so
   * the `.env` rewrite inserts it literally and on a single line.
   */
  lemma TokenIsPlain(t: CompactToken)
    ensures EnvFile.PlainToken(t)
  {
  }
}
