/**
 * The `authSessions` collection: one row per login, binding an access and a
 * refresh token to a user until the refresh token expires.
 */
module AuthSessionSchema {
  import opened Wrappers
  import opened Collection
  import opened Jwt

  /** A session document; all four fields are required. */
  datatype AuthSessionModel = AuthSessionModel(
    user: nat,
    accessToken: AccessToken,
    refreshToken: string,
    refreshTokenExpiresAt: int)

  type AuthSessionDocument = Row<AuthSessionModel>

  /** The pair of tokens a client presents. */
  datatype AuthLoginTokens = AuthLoginTokens(accessToken: AccessToken, refreshToken: string)

  /** The filter `{accessToken, refreshToken}`. */
  predicate MatchesPair(m: AuthSessionModel, q: AuthLoginTokens) {
    m.accessToken == q.accessToken && m.refreshToken == q.refreshToken
  }

  function FindByPair(sessions: seq<AuthSessionDocument>, q: AuthLoginTokens): Option<nat> {
    FindFirst(sessions, q, MatchesPair)
  }

  /**
   * Nothing makes token pairs unique: when two rows carry the same pair,
   * the lookup sees only the earlier one.
   */
  lemma PairLookupTakesEarliest(sessions: seq<AuthSessionDocument>, q: AuthLoginTokens, i: nat, j: nat)
    requires i < j < |sessions|
    requires MatchesPair(sessions[i].doc, q) && MatchesPair(sessions[j].doc, q)
    ensures FindByPair(sessions, q).Some? && FindByPair(sessions, q).value <= i
    ensures FindByPair(sessions, q) != Some(j)
  {
  }
}
