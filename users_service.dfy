/**
 * The account flows (`UsersService`): signup, e-mail verification, resend,
 * forgot / check / reset password, and the user lookups, over the `users`
 * collection and the token store. E-mail delivery is represented by the
 * requests the service hands to the mailer, kept in `outbox`.
 */
module Users {
  import opened Wrappers
  import opened Errors
  import opened Collection
  import opened JsString
  import opened Shared
  import opened RandomToken
  import opened UserSchema
  import opened UsersConst
  import opened CreateUserDto
  import opened TokenSchema
  import opened Tokens

  datatype EmailTemplate = UserVerificationEmail | PasswordResetEmail

  /** "Send `template` to `to` with a link embedding `token`." */
  datatype EmailRequest = EmailRequest(to: string, template: EmailTemplate, token: string)

  predicate MatchesEmail(m: UserModel, key: string) { m.email == key }
  predicate MatchesUsername(m: UserModel, key: string) { m.username == key }

  class UsersService {
    var users: seq<UserDocument>
    var nextId: nat
    var outbox: seq<EmailRequest>
    const tokens: TokensService

    ghost predicate Valid()
      reads this, tokens
    {
      IdsValid(users, nextId) && UniqueIndexes(users) && tokens.Valid()
    }

    constructor (tokens: TokensService)
      requires tokens.Valid()
      ensures Valid() && this.tokens == tokens
      ensures users == [] && outbox == []
    {
      users := [];
      nextId := 0;
      outbox := [];
      this.tokens := tokens;
    }

    /** `getUserById(id)`. */
    function GetUserById(id: nat): (r: Option<UserDocument>)
      reads this
      ensures r.Some? ==> r.value in users && r.value.id == id
      ensures r.None? <==> forall i :: 0 <= i < |users| ==> users[i].id != id
    {
      match IndexOfId(users, id)
      case None => None
      case Some(i) => Some(users[i])
    }

    /** `getUserByEmail(email)`: compares stored e-mails with the trimmed, lower-cased input. */
    function GetUserByEmail(email: string): (r: Option<UserDocument>)
      reads this
      ensures r.Some? ==> r.value in users && r.value.doc.email == LookupKey(email)
      ensures r.None? <==> forall i :: 0 <= i < |users| ==> users[i].doc.email != LookupKey(email)
    {
      match FindFirst(users, LookupKey(email), MatchesEmail)
      case None => None
      case Some(i) => Some(users[i])
    }

    /** `getUserByUsername(username)`: compares stored usernames with the trimmed, lower-cased input. */
    function GetUserByUsername(username: string): (r: Option<UserDocument>)
      reads this
      ensures r.Some? ==> r.value in users && r.value.doc.username == LookupKey(username)
      ensures r.None? <==> forall i :: 0 <= i < |users| ==> users[i].doc.username != LookupKey(username)
    {
      match FindFirst(users, LookupKey(username), MatchesUsername)
      case None => None
      case Some(i) => Some(users[i])
    }

    /**
     * Why signup refuses `input`, if it does: the e-mail check comes first,
     * then the username check, then the store's unique indexes, which can
     * still reject a document the two lookups let through.
     */
    function SignupConflict(input: CreateUserInput): (e: Option<ApiError>)
      reads this
      ensures e == Some(EmailTaken) <==> GetUserByEmail(input.email).Some?
      ensures e == Some(UsernameTaken) <==> GetUserByEmail(input.email).None? && GetUserByUsername(input.username).Some?
      ensures e.None? <==>
        && GetUserByEmail(input.email).None? && GetUserByUsername(input.username).None?
        && !ViolatesUniqueIndex(users, NewUser(input.username, input.email, Some(HashPassword(input.password))))
      ensures e.Some? ==> e.value in {EmailTaken, UsernameTaken, DuplicateKey}
    {
      if GetUserByEmail(input.email).Some? then Some(EmailTaken)
      else if GetUserByUsername(input.username).Some? then Some(UsernameTaken)
      else if ViolatesUniqueIndex(users, NewUser(input.username, input.email, Some(HashPassword(input.password)))) then Some(DuplicateKey)
      else None
    }

    /**
     * `createUser(dto)`: the e-mail is checked before the username; only when
     * both are free is the pending user stored, then its verification token
     * created and the verification e-mail requested.
     */
    method CreateUser(input: CreateUserInput, random: RandomBytes) returns (r: Result<UserDocument, ApiError>)
      requires Valid() && WellSized(random)
      modifies this, tokens
      ensures Valid()
      ensures old(SignupConflict(input)).Some? ==>
        r == Failure(old(SignupConflict(input)).value) && unchanged(this) && unchanged(tokens)
      ensures old(SignupConflict(input)).None? ==>
        var doc := NewUser(input.username, input.email, Some(HashPassword(input.password)));
        && users == old(users) + [Row(old(nextId), doc)] && nextId == old(nextId) + 1
        && (random.RandomError? ==>
              && r == Failure(RandomSourceFailed) && outbox == old(outbox)
              && tokens.rows == old(tokens.rows) && tokens.nextId == old(tokens.nextId))
        && (random.Drawn? ==>
              var t := GenerateRandomToken(DefaultLength, random).value;
              && r == Success(Row(old(nextId), doc))
              && tokens.rows == old(tokens.rows) + [Row(old(tokens.nextId), TokenModel(old(nextId), t, UserVerification, tokens.defaultExpiresAt))]
              && tokens.nextId == old(tokens.nextId) + 1
              && outbox == old(outbox) + [EmailRequest(doc.email, UserVerificationEmail, t)])
    {
      var conflict := SignupConflict(input);
      if conflict.Some? {
        return Failure(conflict.value);
      }
      var doc := NewUser(input.username, input.email, Some(HashPassword(input.password)));
      var user := InsertUser(doc);
      r := IssueVerification(user, random);
    }

    /** The tail of `createUser`: the new user's verification token, then the e-mail carrying it. */
    method IssueVerification(user: UserDocument, random: RandomBytes) returns (r: Result<UserDocument, ApiError>)
      requires Valid() && WellSized(random)
      modifies this`outbox, tokens
      ensures Valid()
      ensures random.RandomError? ==>
        && r == Failure(RandomSourceFailed) && outbox == old(outbox)
        && tokens.rows == old(tokens.rows) && tokens.nextId == old(tokens.nextId)
      ensures random.Drawn? ==>
        var t := GenerateRandomToken(DefaultLength, random).value;
        && r == Success(user)
        && tokens.rows == old(tokens.rows) + [Row(old(tokens.nextId), TokenModel(user.id, t, UserVerification, tokens.defaultExpiresAt))]
        && tokens.nextId == old(tokens.nextId) + 1
        && outbox == old(outbox) + [EmailRequest(user.doc.email, UserVerificationEmail, t)]
    {
      var created := tokens.CreateToken(user.id, UserVerification, random);
      match created
      case Failure(e) =>
        r := Failure(e);
      case Success(token) =>
        outbox := outbox + [EmailRequest(user.doc.email, UserVerificationEmail, token.doc.token)];
        r := Success(user);
    }

    /** `create(doc)` on the users collection, once the unique indexes have accepted `doc`. */
    method InsertUser(doc: UserModel) returns (user: UserDocument)
      requires Valid() && !ViolatesUniqueIndex(users, doc)
      modifies this
      ensures Valid() && outbox == old(outbox)
      ensures user == Row(old(nextId), doc) && users == old(users) + [user] && nextId == old(nextId) + 1
    {
      user := Row(nextId, doc);
      InsertKeepsUniqueIndexes(users, nextId, doc);
      users := users + [user];
      nextId := nextId + 1;
    }

    /**
     * `verifyUser(token)`: a missing or expired verification token fails and
     * changes nothing; otherwise the token is deleted, and its owner becomes
     * active if it was pending, or the call fails if it was not.
     */
    method VerifyUser(token: string, now: nat) returns (r: Outcome<ApiError>)
      requires Valid()
      modifies this, tokens
      ensures Valid() && nextId == old(nextId) && outbox == old(outbox) && tokens.nextId == old(tokens.nextId)
      ensures
        var v := old(tokens.GetTokenAndValidate(token, UserVerification, now));
        if v.Failure? then
          r == Fail(TokenInvalidOrExpired) && unchanged(this) && unchanged(tokens)
        else
          match old(GetUserById(v.value.doc.user))
          case None =>
            r == Fail(OwnerMissing) && unchanged(this) && unchanged(tokens)
          case Some(owner) =>
            && tokens.rows == DeleteById(old(tokens.rows), v.value.id) && tokens.nextId == old(tokens.nextId)
            && if owner.doc.status != Pending then
                 r == Fail(AlreadyActivated) && users == old(users)
               else
                 r == Pass && users == UpdateById(old(users), owner.id, owner.doc.(status := Active))
    {
      var details := tokens.GetTokenAndValidate(token, UserVerification, now);
      if details.Failure? {
        return Fail(TokenInvalidOrExpired);
      }
      var owner := GetUserById(details.value.doc.user);
      if owner.None? {
        return Fail(OwnerMissing);
      }
      var user := owner.value;
      if user.doc.status != Pending {
        tokens.DeleteToken(details.value.id);
        return Fail(AlreadyActivated);
      }
      users := UpdateById(users, user.id, user.doc.(status := Active));
      tokens.DeleteToken(details.value.id);
      r := Pass;
    }

    /**
     * `resendUserVerification(email)`: an unknown e-mail or a user who is not
     * pending fails before any token changes; otherwise the user's
     * verification token is regenerated (see `Regenerate`) and mailed.
     */
    method ResendUserVerification(email: string, random: RandomBytes) returns (r: Outcome<ApiError>)
      requires Valid() && WellSized(random)
      modifies this, tokens
      ensures Valid() && users == old(users) && nextId == old(nextId)
      ensures match old(GetUserByEmail(email))
        case None => r == Fail(NoAccountWithEmail) && unchanged(tokens) && outbox == old(outbox)
        case Some(user) =>
          if user.doc.status != Pending then
            r == Fail(AlreadyActivated) && unchanged(tokens) && outbox == old(outbox)
          else
            match GenerateRandomToken(DefaultLength, random)
            case Failure(e) =>
              && r == Fail(e) && outbox == old(outbox)
              && tokens.rows == old(tokens.rows) && tokens.nextId == old(tokens.nextId)
            case Success(t) =>
              && r == Pass
              && tokens.rows == Regenerate(old(tokens.rows), old(tokens.nextId), tokens.defaultExpiresAt, user.id, UserVerification, t).0
              && tokens.nextId == old(tokens.nextId) + |tokens.rows| - |old(tokens.rows)|
              && outbox == old(outbox) + [EmailRequest(user.doc.email, UserVerificationEmail, t)]
    {
      var found := GetUserByEmail(email);
      if found.None? {
        return Fail(NoAccountWithEmail);
      }
      var user := found.value;
      var pending := ValidateUserStatusIsPending(user);
      if pending.Fail? {
        return Fail(pending.error);
      }
      var details := tokens.GetTokenByUserIdAndCreateOrUpdate(user.id, UserVerification, random);
      match details
      case Failure(e) =>
        r := Fail(e);
      case Success(row) =>
        if row.Some? {
          outbox := outbox + [EmailRequest(user.doc.email, UserVerificationEmail, row.value.doc.token)];
        }
        r := Pass;
    }

    /**
     * `forgotPassword(email)`: the same gate as the resend, including the
     * requirement that the user be pending, then the password-reset token is
     * regenerated and mailed.
     */
    method ForgotPassword(email: string, random: RandomBytes) returns (r: Outcome<ApiError>)
      requires Valid() && WellSized(random)
      modifies this, tokens
      ensures Valid() && users == old(users) && nextId == old(nextId)
      ensures match old(GetUserByEmail(email))
        case None => r == Fail(NoAccountWithEmail) && unchanged(tokens) && outbox == old(outbox)
        case Some(user) =>
          if user.doc.status != Pending then
            r == Fail(AlreadyActivated) && unchanged(tokens) && outbox == old(outbox)
          else
            match GenerateRandomToken(DefaultLength, random)
            case Failure(e) =>
              && r == Fail(e) && outbox == old(outbox)
              && tokens.rows == old(tokens.rows) && tokens.nextId == old(tokens.nextId)
            case Success(t) =>
              && r == Pass
              && tokens.rows == Regenerate(old(tokens.rows), old(tokens.nextId), tokens.defaultExpiresAt, user.id, PasswordReset, t).0
              && tokens.nextId == old(tokens.nextId) + |tokens.rows| - |old(tokens.rows)|
              && outbox == old(outbox) + [EmailRequest(user.doc.email, PasswordResetEmail, t)]
    {
      var found := GetUserByEmail(email);
      if found.None? {
        return Fail(NoAccountWithEmail);
      }
      var user := found.value;
      var pending := ValidateUserStatusIsPending(user);
      if pending.Fail? {
        return Fail(pending.error);
      }
      var details := tokens.GetTokenByUserIdAndCreateOrUpdate(user.id, PasswordReset, random);
      match details
      case Failure(e) =>
        r := Fail(e);
      case Success(row) =>
        if row.Some? {
          outbox := outbox + [EmailRequest(user.doc.email, PasswordResetEmail, row.value.doc.token)];
        }
        r := Pass;
    }

    /** `checkResetPassword(token)`: succeeds exactly when a live reset token is stored; changes nothing. */
    method CheckResetPassword(token: string, now: nat) returns (r: Outcome<ApiError>)
      requires Valid()
      ensures r.Pass? <==>
        && (exists i :: 0 <= i < |tokens.rows| && tokens.rows[i].doc.token == token && tokens.rows[i].doc.kind == PasswordReset)
        && !IsDateExpired(tokens.defaultExpiresAt, now)
      ensures r.Fail? ==> r.error == TokenInvalidOrExpired
    {
      var details := tokens.GetTokenAndValidate(token, PasswordReset, now);
      r := if details.Success? then Pass else Fail(TokenInvalidOrExpired);
    }

    /**
     * `resetPassword(token, password)`: with a live reset token, the owner's
     * stored hash becomes the hash of the new password and the token is
     * deleted; otherwise nothing changes.
     */
    method ResetPassword(token: string, password: string, now: nat) returns (r: Outcome<ApiError>)
      requires Valid()
      modifies this, tokens
      ensures Valid() && nextId == old(nextId) && outbox == old(outbox) && tokens.nextId == old(tokens.nextId)
      ensures
        var v := old(tokens.GetTokenAndValidate(token, PasswordReset, now));
        if v.Failure? then
          r == Fail(TokenInvalidOrExpired) && unchanged(this) && unchanged(tokens)
        else
          match old(GetUserById(v.value.doc.user))
          case None =>
            r == Fail(OwnerMissing) && unchanged(this) && unchanged(tokens)
          case Some(owner) =>
            && r == Pass
            && users == UpdateById(old(users), owner.id, owner.doc.(password := Some(HashPassword(password))))
            && tokens.rows == DeleteById(old(tokens.rows), v.value.id) && tokens.nextId == old(tokens.nextId)
    {
      var details := tokens.GetTokenAndValidate(token, PasswordReset, now);
      if details.Failure? {
        return Fail(TokenInvalidOrExpired);
      }
      var owner := GetUserById(details.value.doc.user);
      if owner.None? {
        return Fail(OwnerMissing);
      }
      var user := owner.value;
      users := UpdateById(users, user.id, user.doc.(password := Some(HashPassword(password))));
      tokens.DeleteToken(details.value.id);
      r := Pass;
    }
  }

  /** Any spelling of an e-mail with the same trimmed, lower-cased form finds the same user. */
  lemma EmailLookupIgnoresCaseAndSpaces(service: UsersService, email: string)
    ensures service.GetUserByEmail(email) == service.GetUserByEmail(LookupKey(email))
  {
    LookupKeyIdempotent(email);
  }
}
