/**
 * Flows that span several calls of the services.
 */
module Scenarios {
  import opened Wrappers
  import opened Errors
  import opened Collection
  import opened TokenSchema
  import opened Tokens
  import opened Users

  /**
   * A verification link works once: when the first `verifyUser` consumes
   * the token (activating its owner or finding the owner already active),
   * a second call with the same token fails as invalid or expired.
   */
  method VerifyTwice(service: UsersService, token: string, now: nat) returns (first: Outcome<ApiError>, second: Outcome<ApiError>)
    requires service.Valid() && TokenStringsDistinct(service.tokens.rows)
    modifies service, service.tokens
    ensures service.Valid()
    ensures first == Pass || first == Fail(AlreadyActivated) ==> second == Fail(TokenInvalidOrExpired)
  {
    ghost var rows := service.tokens.rows;
    first := service.VerifyUser(token, now);
    if first == Pass || first == Fail(AlreadyActivated) {
      var i := FindFirst(rows, (token, UserVerification), MatchesToken).value;
      SpentTokenIsGone(rows, service.tokens.nextId, token, UserVerification, i);
    }
    second := service.VerifyUser(token, now);
  }
}
