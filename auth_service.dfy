/**
 * The session service (`AuthService`): login, the silent renewal of an
 * access token from a refresh token, and logout, over the `authSessions`
 * collection, with the cookie instructions each one gives the response.
 */
module Auth {
  import opened Wrappers
  import opened Errors
  import opened Collection
  import opened Shared
  import opened RandomToken
  import opened Jwt
  import opened UserSchema
  import opened UsersConst
  import opened AuthSessionSchema
  import opened Tokens
  import opened Users

  /** The configuration the service reads: the signing secret and both lifetimes, in seconds. */
  datatype Config = Config(jwtSecret: string, accessTokenExpiresIn: int, refreshTokenExpiresIn: int)

  /** The environment validation requires both lifetimes to be positive. */
  predicate ValidConfig(config: Config) {
    config.accessTokenExpiresIn > 0 && config.refreshTokenExpiresIn > 0
  }

  /** The `X-ACCESS-TOKEN` and `X-REFRESH-TOKEN` cookies of a request, when present. */
  datatype RequestCookies = RequestCookies(accessToken: Option<AccessToken>, refreshToken: Option<string>)

  /** An instruction to the response about one of the two cookies. */
  datatype CookieOp =
    | SetAccessToken(access: AccessToken)
    | SetRefreshToken(refresh: string)
    | ClearAccessToken
    | ClearRefreshToken

  /** What `tryToCreateNewAccessToken` resolves to when it renews the token. */
  datatype NewAccessToken = NewAccessToken(userId: nat, accessToken: AccessToken)

  /** The branch a renewal attempt takes, read off the session table before it changes. */
  datatype RefreshStep = PairNotFound | SessionExpired(index: nat) | SessionLive(index: nat)

  /**
   * The session the pair `tokens` selects (the first row holding exactly that
   * pair), and whether its refresh token has expired at `now`.
   */
  function ClassifyRefresh(sessions: seq<AuthSessionDocument>, tokens: AuthLoginTokens, now: nat): (s: RefreshStep)
    ensures s.PairNotFound? <==> forall j :: 0 <= j < |sessions| ==> !MatchesPair(sessions[j].doc, tokens)
    ensures !s.PairNotFound? ==>
      && s.index < |sessions| && MatchesPair(sessions[s.index].doc, tokens)
      && (forall j :: 0 <= j < s.index ==> !MatchesPair(sessions[j].doc, tokens))
      && (s.SessionExpired? <==> IsDateExpired(sessions[s.index].doc.refreshTokenExpiresAt, now))
  {
    match FindByPair(sessions, tokens)
    case None => PairNotFound
    case Some(i) =>
      if IsDateExpired(sessions[i].doc.refreshTokenExpiresAt, now) then SessionExpired(i) else SessionLive(i)
  }

  /** No two sessions share a refresh token; freshly drawn refresh tokens keep it so. */
  predicate RefreshTokensDistinct(sessions: seq<AuthSessionDocument>) {
    forall i, j :: 0 <= i < j < |sessions| ==> sessions[i].doc.refreshToken != sessions[j].doc.refreshToken
  }

  /**
   * Rotation: renewing a live session whose access token no longer verifies
   * writes a token that differs from it, so afterwards the old pair selects
   * no session and the new pair selects the same row.
   */
  lemma RenewalRetiresOldPair(sessions: seq<AuthSessionDocument>, tokens: AuthLoginTokens, config: Config, now: nat, i: nat)
    requires ValidConfig(config) && RefreshTokensDistinct(sessions)
    requires ClassifyRefresh(sessions, tokens, now) == SessionLive(i)
    requires !Verify(tokens.accessToken, config.jwtSecret, now).Valid?
    ensures
      var s := sessions[i];
      var t := Sign(s.doc.user, config.jwtSecret, config.accessTokenExpiresIn, now);
      var after := sessions[i := Row(s.id, s.doc.(accessToken := t))];
      && t != tokens.accessToken
      && RefreshTokensDistinct(after)
      && FindByPair(after, tokens) == None
      && FindByPair(after, AuthLoginTokens(t, tokens.refreshToken)) == Some(i)
  {
    var s := sessions[i];
    var t := Sign(s.doc.user, config.jwtSecret, config.accessTokenExpiresIn, now);
    VerifySign(s.doc.user, config.jwtSecret, config.accessTokenExpiresIn, now, now);
    var after := sessions[i := Row(s.id, s.doc.(accessToken := t))];
    forall j | 0 <= j < |after| ensures !MatchesPair(after[j].doc, tokens) {
      if j != i {
        assert after[j] == sessions[j];
        assert sessions[j].doc.refreshToken != sessions[i].doc.refreshToken;
      }
    }
    var q := AuthLoginTokens(t, tokens.refreshToken);
    forall j | 0 <= j < i ensures !MatchesPair(after[j].doc, q) {
      assert sessions[j].doc.refreshToken != sessions[i].doc.refreshToken;
    }
    assert MatchesPair(after[i].doc, q);
    forall j, k | 0 <= j < k < |after| ensures after[j].doc.refreshToken != after[k].doc.refreshToken {
      assert after[j].doc.refreshToken == sessions[j].doc.refreshToken;
      assert after[k].doc.refreshToken == sessions[k].doc.refreshToken;
    }
  }

  /**
   * Removing the session a pair selects (logout, or renewal with an expired
   * refresh token) retires that pair for good: no later lookup finds it.
   */
  lemma RemovalRetiresPair(sessions: seq<AuthSessionDocument>, tokens: AuthLoginTokens, i: nat)
    requires RefreshTokensDistinct(sessions)
    requires FindByPair(sessions, tokens) == Some(i)
    ensures RefreshTokensDistinct(RemoveAt(sessions, i))
    ensures FindByPair(RemoveAt(sessions, i), tokens) == None
  {
    var after := RemoveAt(sessions, i);
    forall j | 0 <= j < |after| ensures !MatchesPair(after[j].doc, tokens) {
      if j >= i {
        assert after[j] == sessions[j + 1];
        assert sessions[i].doc.refreshToken != sessions[j + 1].doc.refreshToken;
      }
    }
    forall j, k | 0 <= j < k < |after| ensures after[j].doc.refreshToken != after[k].doc.refreshToken {
      var j' := if j < i then j else j + 1;
      var k' := if k < i then k else k + 1;
      assert after[j] == sessions[j'] && after[k] == sessions[k'];
    }
  }

  class AuthService {
    const config: Config
    const users: UsersService
    var sessions: seq<AuthSessionDocument>
    var nextId: nat

    ghost predicate Valid()
      reads this
    {
      ValidConfig(config) && IdsValid(sessions, nextId)
    }

    constructor (config: Config, users: UsersService)
      requires ValidConfig(config)
      ensures Valid() && this.config == config && this.users == users && sessions == []
    {
      this.config := config;
      this.users := users;
      sessions := [];
      nextId := 0;
    }

    /** `createAccessToken(user)`: a token for `userId` that verifies until the access lifetime has run out. */
    function CreateAccessToken(userId: nat, now: nat): (t: AccessToken)
      requires ValidConfig(config)
      ensures Verify(t, config.jwtSecret, now) == Verified.Valid(userId)
      ensures t.claims.exp == Seconds(now) + config.accessTokenExpiresIn
    {
      VerifySign(userId, config.jwtSecret, config.accessTokenExpiresIn, now, now);
      Sign(userId, config.jwtSecret, config.accessTokenExpiresIn, now)
    }

    /**
     * `logout(req, res)`: deletes the first session holding exactly the two
     * cookie tokens, if any, and clears both cookies in every case.
     */
    method Logout(cookies: RequestCookies) returns (ops: seq<CookieOp>)
      requires Valid()
      modifies this
      ensures Valid() && nextId == old(nextId)
      ensures ops == [ClearAccessToken, ClearRefreshToken]
      ensures
        if cookies.accessToken.None? || cookies.refreshToken.None? then sessions == old(sessions)
        else
          match FindByPair(old(sessions), AuthLoginTokens(cookies.accessToken.value, cookies.refreshToken.value))
          case None => sessions == old(sessions)
          case Some(i) => sessions == RemoveAt(old(sessions), i)
    {
      if cookies.accessToken.Some? && cookies.refreshToken.Some? {
        var found := FindByPair(sessions, AuthLoginTokens(cookies.accessToken.value, cookies.refreshToken.value));
        if found.Some? {
          DeleteByIdContents(sessions, nextId, sessions[found.value].id);
          IndexOfIdAt(sessions, nextId, found.value);
          sessions := RemoveAt(sessions, found.value);
        }
      }
      ops := [ClearAccessToken, ClearRefreshToken];
    }

    /**
     * `createLoginTokens(user)`: signs an access token, draws a refresh token
     * and stores the session, whose refresh token expires
     * `refreshTokenExpiresIn` seconds from now.
     */
    method CreateLoginTokens(user: UserDocument, random: RandomBytes, now: nat) returns (r: Result<AuthLoginTokens, ApiError>)
      requires Valid() && WellSized(random)
      modifies this
      ensures Valid()
      ensures match GenerateRandomToken(DefaultLength, random)
        case Failure(e) => r == Failure(e) && sessions == old(sessions) && nextId == old(nextId)
        case Success(refresh) =>
          var access := CreateAccessToken(user.id, now);
          && r == Success(AuthLoginTokens(access, refresh))
          && sessions == old(sessions) + [Row(old(nextId), AuthSessionModel(user.id, access, refresh, now + config.refreshTokenExpiresIn * 1000))]
          && nextId == old(nextId) + 1
    {
      var accessToken := CreateAccessToken(user.id, now);
      var refreshToken :- GenerateRandomToken(DefaultLength, random);
      var refreshTokenExpiresAt := now + config.refreshTokenExpiresIn * 1000;
      sessions := sessions + [Row(nextId, AuthSessionModel(user.id, accessToken, refreshToken, refreshTokenExpiresAt))];
      nextId := nextId + 1;
      r := Success(AuthLoginTokens(accessToken, refreshToken));
    }

    /**
     * `login(res, {email, password})`. An unknown e-mail and a wrong password
     * fail alike; a user who is not active fails next; in all three cases no
     * session is stored and no cookie is set. Otherwise one session is added,
     * both cookies are set to its tokens and the public view is returned.
     */
    method Login(email: string, password: string, random: RandomBytes, now: nat)
      returns (r: Result<UserPublic, ApiError>, ops: seq<CookieOp>)
      requires Valid() && WellSized(random)
      modifies this
      ensures Valid()
      ensures
        var found := users.GetUserByEmail(email);
        if found.None? || !VerifyPassword(found.value.doc.password, password) then
          r == Failure(InvalidCredentials) && ops == [] && sessions == old(sessions) && nextId == old(nextId)
        else if found.value.doc.status != Active then
          r == Failure(NotYetActivated) && ops == [] && sessions == old(sessions) && nextId == old(nextId)
        else
          match GenerateRandomToken(DefaultLength, random)
          case Failure(e) => r == Failure(e) && ops == [] && sessions == old(sessions) && nextId == old(nextId)
          case Success(refresh) =>
            var access := CreateAccessToken(found.value.id, now);
            && sessions == old(sessions) + [Row(old(nextId), AuthSessionModel(found.value.id, access, refresh, now + config.refreshTokenExpiresIn * 1000))]
            && nextId == old(nextId) + 1
            && ops == [SetAccessToken(access), SetRefreshToken(refresh)]
            && r == Success(GetUserPublic(found.value))
    {
      ops := [];
      var userWithSameEmail := users.GetUserByEmail(email);
      if userWithSameEmail.None? {
        return Failure(InvalidCredentials), ops;
      }
      var user := userWithSameEmail.value;
      if !VerifyPassword(user.doc.password, password) {
        return Failure(InvalidCredentials), ops;
      }
      var active := ValidateUserStatusIsActive(user);
      if active.Fail? {
        return Failure(active.error), ops;
      }
      var tokens := CreateLoginTokens(user, random, now);
      if tokens.Failure? {
        return Failure(tokens.error), ops;
      }
      ops := [SetAccessToken(tokens.value.accessToken), SetRefreshToken(tokens.value.refreshToken)];
      r := Success(GetUserPublic(user));
    }

    /**
     * `tryToCreateNewAccessToken({accessToken, refreshToken})`. No session with
     * exactly this pair: null, nothing changes. The session's refresh token
     * has expired: the session is deleted, null. The session's owner, loaded
     * with `populate('user')`, no longer exists: signing reads `user.id` of
     * null and the call rejects before any update (`OwnerMissing`).
     * Otherwise only that session's access token is replaced, in place, and
     * the new token and the session's owner are returned.
     */
    method TryToCreateNewAccessToken(tokens: AuthLoginTokens, now: nat)
      returns (r: Result<Option<NewAccessToken>, ApiError>)
      requires Valid()
      modifies this
      ensures Valid() && nextId == old(nextId)
      ensures match ClassifyRefresh(old(sessions), tokens, now)
        case PairNotFound => r == Success(None) && sessions == old(sessions)
        case SessionExpired(i) => r == Success(None) && sessions == RemoveAt(old(sessions), i)
        case SessionLive(i) =>
          var s := old(sessions)[i];
          var t := CreateAccessToken(s.doc.user, now);
          if users.GetUserById(s.doc.user).None? then
            r == Failure(OwnerMissing) && sessions == old(sessions)
          else
            && r == Success(Some(NewAccessToken(s.doc.user, t)))
            && sessions == old(sessions)[i := Row(s.id, s.doc.(accessToken := t))]
    {
      var found := FindByPair(sessions, tokens);
      if found.None? {
        return Success(None);
      }
      var i := found.value;
      var authSession := sessions[i];
      IndexOfIdAt(sessions, nextId, i);
      if IsDateExpired(authSession.doc.refreshTokenExpiresAt, now) {
        DeleteByIdContents(sessions, nextId, authSession.id);
        sessions := DeleteById(sessions, authSession.id);
        return Success(None);
      }
      var owner := users.GetUserById(authSession.doc.user);
      if owner.None? {
        return Failure(OwnerMissing);
      }
      var accessToken := CreateAccessToken(owner.value.id, now);
      sessions := UpdateById(sessions, authSession.id, authSession.doc.(accessToken := accessToken));
      r := Success(Some(NewAccessToken(owner.value.id, accessToken)));
    }
  }
}
