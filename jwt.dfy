/**
 * The signed access token (a JSON Web Token, RFC 7519) as a symbolic codec.
 * A token carries the claims `sub` (the user id) and `exp` (seconds since
 * the epoch) and a signature that only the holder of the secret can
 * produce. Anything else a client puts in the cookie is `Malformed`.
 */
module Jwt {

  datatype Claims = Claims(sub: nat, exp: int)

  /** HMAC of the claims under a secret, kept symbolic. */
  datatype Signature = Hs256(key: string, claims: Claims)

  datatype AccessToken = Jws(claims: Claims, signature: Signature) | Malformed(raw: string)

  /** The outcome of `verifyAsync`: the payload, or one of its two errors. */
  datatype Verified = Valid(sub: nat) | Expired | Invalid

  /** Whole seconds of a millisecond clock, as the codec reads it. */
  function Seconds(now: nat): nat {
    now / 1000
  }

  /** `signAsync({sub}, {expiresIn, secret})` at clock value `now`. */
  function Sign(sub: nat, secret: string, expiresIn: int, now: nat): (t: AccessToken)
    ensures t.Jws? && t.claims.sub == sub && t.claims.exp == Seconds(now) + expiresIn
  {
    var claims := Claims(sub, Seconds(now) + expiresIn);
    Jws(claims, Hs256(secret, claims))
  }

  predicate SignedWith(t: AccessToken, secret: string) {
    t.Jws? && t.signature == Hs256(secret, t.claims)
  }

  /**
   * `verifyAsync(token, {secret})` at clock value `now`. The token is
   * expired on or after its `exp` second (section 4.1.4 of RFC 7519).
   */
  function Verify(t: AccessToken, secret: string, now: nat): (v: Verified)
    ensures v.Valid? <==> SignedWith(t, secret) && Seconds(now) < t.claims.exp
    ensures v.Valid? ==> v.sub == t.claims.sub
    ensures v.Expired? <==> SignedWith(t, secret) && t.claims.exp <= Seconds(now)
  {
    if !SignedWith(t, secret) then Invalid
    else if t.claims.exp <= Seconds(now) then Expired
    else Valid(t.claims.sub)
  }

  /** A token verifies to its subject until its lifetime has run out, and is expired afterwards. */
  lemma VerifySign(sub: nat, secret: string, expiresIn: int, signedAt: nat, now: nat)
    ensures Verify(Sign(sub, secret, expiresIn, signedAt), secret, now) ==
      if Seconds(now) < Seconds(signedAt) + expiresIn then Valid(sub) else Expired
  {
  }

  /** A token signed under one secret never verifies under another. */
  lemma VerifyOtherSecret(sub: nat, secret: string, other: string, expiresIn: int, signedAt: nat, now: nat)
    requires secret != other
    ensures Verify(Sign(sub, secret, expiresIn, signedAt), other, now) == Invalid
  {
  }
}
