/** The `tokens` collection: single-use tokens for verification and password reset. */
module TokenSchema {
  import opened Collection

  datatype TokenType = UserVerification | PasswordReset

  /**
   * A token document: its owner's id, the random token string, the kind of
   * token (the source's field `type`) and its expiry in milliseconds.
   */
  datatype TokenModel = TokenModel(user: nat, token: string, kind: TokenType, expiresAt: int)

  type TokenDocument = Row<TokenModel>
}
