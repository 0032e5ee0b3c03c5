/**
 * The shared helpers the services call: `isDateExpired` and the argon2
 * password hash. Both are foreign to the core; the model fixes a clock
 * convention and a symbolic hash.
 */
module Shared {
  import opened Wrappers

  /**
   * `isDateExpired(at)` against the clock value `now` (milliseconds). A date
   * is expired once the clock has moved past it: at `now == at` it is still
   * valid.
   */
  predicate IsDateExpired(at: int, now: nat): (expired: bool)
    ensures at >= now ==> !expired
  {
    at < now
  }

  /** Once a date has expired it stays expired as the clock moves on. */
  lemma ExpiryIsPermanent(at: int, now: nat, later: nat)
    requires IsDateExpired(at, now) && now <= later
    ensures IsDateExpired(at, later)
  {
  }

  /** A symbolic argon2 digest: it identifies the password it was computed from. */
  datatype PasswordHash = Argon2(password: string)

  /** `hashPassword(password)`. */
  function HashPassword(password: string): PasswordHash {
    Argon2(password)
  }

  /**
   * `verifyPassword(hash, password)`: true exactly when `hash` was computed
   * from `password`. A user document without a hash never verifies.
   */
  function VerifyPassword(hash: Option<PasswordHash>, password: string): (ok: bool)
    ensures ok ==> hash.Some?
  {
    hash == Some(HashPassword(password))
  }

  /** Two passwords with the same hash are the same password. */
  lemma HashPasswordInjective(p: string, q: string)
    requires HashPassword(p) == HashPassword(q)
    ensures p == q
  {
  }

  /** A hash verifies its own password and no other. */
  lemma VerifyHashedPassword(p: string, q: string)
    ensures VerifyPassword(Some(HashPassword(p)), q) <==> p == q
  {
  }
}
