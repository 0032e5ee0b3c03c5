/**
 * The request guard (`AuthGuard`): reads the session cookies, identifies the
 * user either from a valid access token or by renewing the token from the
 * refresh token, and then allows or refuses the request according to the
 * route's `@Public()` and `@WithoutAuth()` flags.
 *
 * As written, the guard calls `removeLoginTokensFromCookie`,
 * `storeLoginTokensInCookie` and reads `newAccessToken.user.id`, none of
 * which `AuthService` defines or returns. The model follows what those
 * calls are evidently for: clear both cookies, set the access-token cookie,
 * and take the owner id that `tryToCreateNewAccessToken` returns.
 */
module Guard {
  import opened Wrappers
  import opened Errors
  import opened Collection
  import opened Shared
  import opened Jwt
  import opened UserSchema
  import opened AuthSessionSchema
  import opened Users
  import opened Auth

  /** The two route flags the guard reads. */
  datatype RouteMetadata = RouteMetadata(isPublic: bool, withoutAuth: bool)

  /** The session routes of the `auth` controller. */
  datatype Route =
    | PostLogout | PostSignup | PostResendVerification | PostVerify | PostForgotPassword
    | PostCheckResetPassword | PostResetPassword | PostLogin | GetUser

  /** The controller's flags: logout and the current-user route carry none; every other route is without-auth. */
  function MetadataOf(route: Route): (m: RouteMetadata)
    ensures !m.isPublic
    ensures m.withoutAuth <==> route != PostLogout && route != GetUser
  {
    match route
    case PostLogout => RouteMetadata(false, false)
    case GetUser => RouteMetadata(false, false)
    case _ => RouteMetadata(false, true)
  }

  /** The guard's verdict; an allowed request carries the user only on an authenticated route. */
  datatype Decision = Allow(user: Option<UserDocument>) | Deny(error: ApiError)

  /**
   * `canActivate` after extraction: a public route always passes; a
   * without-auth route refuses a signed-in user (403); any other route
   * refuses an anonymous one (401) and attaches the user otherwise.
   */
  function Decide(route: RouteMetadata, user: Option<UserDocument>): (d: Decision)
    ensures d.Deny? <==> !route.isPublic && (route.withoutAuth <==> user.Some?)
    ensures d.Deny? ==> d.error == (if route.withoutAuth then Forbidden else Unauthorized)
    ensures d.Deny? ==> Status(d.error) == (if route.withoutAuth then 403 else 401)
    ensures d.Allow? ==> (d.user.Some? <==> !route.isPublic && !route.withoutAuth)
    ensures d.Allow? && d.user.Some? ==> d.user == user
  {
    if route.isPublic then Allow(None)
    else if route.withoutAuth && user.Some? then Deny(Forbidden)
    else if route.withoutAuth then Allow(None)
    else if user.None? then Deny(Unauthorized)
    else Allow(user)
  }

  /**
   * Over the controller's routes: a signed-in user is refused every route
   * but logout and the current user (403), an anonymous one is refused
   * exactly those two (401), and the current-user route sees the user.
   */
  lemma RouteTableDecisions(route: Route, user: Option<UserDocument>)
    ensures user.Some? && route != PostLogout && route != GetUser ==> Decide(MetadataOf(route), user) == Deny(Forbidden)
    ensures user.None? && (route == PostLogout || route == GetUser) ==> Decide(MetadataOf(route), user) == Deny(Unauthorized)
    ensures user.Some? && route == GetUser ==> Decide(MetadataOf(route), user) == Allow(user)
    ensures user.None? && route != PostLogout && route != GetUser ==> Decide(MetadataOf(route), user) == Allow(None)
  {
  }

  /** A present, non-empty access-token cookie. */
  predicate HasAccessCookie(cookies: RequestCookies) {
    cookies.accessToken.Some? && cookies.accessToken.value != Malformed("")
  }

  /** A present, non-empty refresh-token cookie. */
  predicate HasRefreshCookie(cookies: RequestCookies) {
    cookies.refreshToken.Some? && cookies.refreshToken.value != ""
  }

  function CookiePair(cookies: RequestCookies): AuthLoginTokens
    requires cookies.accessToken.Some? && cookies.refreshToken.Some?
  {
    AuthLoginTokens(cookies.accessToken.value, cookies.refreshToken.value)
  }

  /** The access token does not verify and a refresh token is there to renew it. */
  predicate NeedsRenewal(cookies: RequestCookies, config: Config, now: nat) {
    HasAccessCookie(cookies) && !Verify(cookies.accessToken.value, config.jwtSecret, now).Valid?
    && HasRefreshCookie(cookies)
  }

  /**
   * The user id the guard settles on before loading the user: the token's
   * subject when it verifies, otherwise the owner of the live session that
   * holds exactly the two cookie tokens; none when it gives up earlier.
   */
  function SettledUserId(sessions: seq<AuthSessionDocument>, cookies: RequestCookies, config: Config, now: nat): Option<nat> {
    if !HasAccessCookie(cookies) then None
    else
      var v := Verify(cookies.accessToken.value, config.jwtSecret, now);
      if v.Valid? then Some(v.sub)
      else if !HasRefreshCookie(cookies) then None
      else
        match ClassifyRefresh(sessions, CookiePair(cookies), now)
        case SessionLive(i) => Some(sessions[i].doc.user)
        case _ => None
  }

  /**
   * Renewal rejects: the cookie pair selects a live session whose owner no
   * longer exists, so signing the new token throws.
   */
  predicate RenewalThrows(users: seq<UserDocument>, sessions: seq<AuthSessionDocument>, cookies: RequestCookies, config: Config, now: nat) {
    NeedsRenewal(cookies, config, now) &&
    match ClassifyRefresh(sessions, CookiePair(cookies), now)
    case SessionLive(i) => IndexOfId(users, sessions[i].doc.user).None?
    case _ => false
  }

  /**
   * The user the guard ends with: the settled id looked up, none if absent;
   * the renewal's rejection when it throws.
   */
  function ExtractedUser(users: UsersService, sessions: seq<AuthSessionDocument>, cookies: RequestCookies, config: Config, now: nat): Result<Option<UserDocument>, ApiError>
    reads users
  {
    if RenewalThrows(users.users, sessions, cookies, config, now) then Failure(OwnerMissing)
    else
      match SettledUserId(sessions, cookies, config, now)
      case None => Success(None)
      case Some(id) => Success(users.GetUserById(id))
  }

  /**
   * The effect of extraction on the session table and on the cookies: none
   * unless a renewal is attempted; then both cookies are cleared when the
   * pair selects no session or an expired one (which is deleted), nothing
   * changes when the live session's owner is gone (the renewal throws), and
   * the access-token cookie is replaced by the renewed token otherwise.
   */
  predicate ExtractedWith(before: seq<AuthSessionDocument>, after: seq<AuthSessionDocument>, ops: seq<CookieOp>,
                          users: seq<UserDocument>, cookies: RequestCookies, config: Config, now: nat)
  {
    if !NeedsRenewal(cookies, config, now) then after == before && ops == []
    else
      match ClassifyRefresh(before, CookiePair(cookies), now)
      case PairNotFound => after == before && ops == [ClearAccessToken, ClearRefreshToken]
      case SessionExpired(i) => after == RemoveAt(before, i) && ops == [ClearAccessToken, ClearRefreshToken]
      case SessionLive(i) =>
        var s := before[i];
        var t := Sign(s.doc.user, config.jwtSecret, config.accessTokenExpiresIn, now);
        if IndexOfId(users, s.doc.user).None? then after == before && ops == []
        else after == before[i := Row(s.id, s.doc.(accessToken := t))] && ops == [SetAccessToken(t)]
  }

  /**
   * The guard identifies a user only on proof: a token signed with the
   * secret and not yet expired, or a live session holding both cookie
   * tokens and owned by that user.
   */
  lemma IdentifiedOnlyOnProof(sessions: seq<AuthSessionDocument>, cookies: RequestCookies, config: Config, now: nat, id: nat)
    requires SettledUserId(sessions, cookies, config, now) == Some(id)
    ensures cookies.accessToken.Some?
    ensures || Verify(cookies.accessToken.value, config.jwtSecret, now) == Verified.Valid(id)
            || (cookies.refreshToken.Some? &&
                exists i :: 0 <= i < |sessions| && MatchesPair(sessions[i].doc, CookiePair(cookies))
                  && !IsDateExpired(sessions[i].doc.refreshTokenExpiresAt, now) && sessions[i].doc.user == id)
  {
    var v := Verify(cookies.accessToken.value, config.jwtSecret, now);
    if !v.Valid? {
      var i := ClassifyRefresh(sessions, CookiePair(cookies), now).index;
      assert MatchesPair(sessions[i].doc, CookiePair(cookies));
    }
  }

  /** Both cookies are cleared only when the guard has not identified anybody. */
  lemma ClearedOnlyWhenAnonymous(before: seq<AuthSessionDocument>, after: seq<AuthSessionDocument>, ops: seq<CookieOp>,
                                 users: seq<UserDocument>, cookies: RequestCookies, config: Config, now: nat)
    requires ExtractedWith(before, after, ops, users, cookies, config, now)
    requires ClearAccessToken in ops
    ensures SettledUserId(before, cookies, config, now) == None
    ensures ops == [ClearAccessToken, ClearRefreshToken]
  {
  }

  /**
   * A renewed access-token cookie authenticates on its own: at the same
   * instant it verifies to the user the guard settled on.
   */
  lemma RenewedCookieAuthenticates(before: seq<AuthSessionDocument>, after: seq<AuthSessionDocument>, ops: seq<CookieOp>,
                                   users: seq<UserDocument>, cookies: RequestCookies, config: Config, now: nat, t: AccessToken)
    requires ValidConfig(config)
    requires ExtractedWith(before, after, ops, users, cookies, config, now)
    requires SetAccessToken(t) in ops
    ensures SettledUserId(before, cookies, config, now).Some?
    ensures Verify(t, config.jwtSecret, now) == Verified.Valid(SettledUserId(before, cookies, config, now).value)
  {
    var i := ClassifyRefresh(before, CookiePair(cookies), now).index;
    VerifySign(before[i].doc.user, config.jwtSecret, config.accessTokenExpiresIn, now, now);
  }

  /**
   * Extraction never adds a session and keeps the table's invariants: ids
   * valid and refresh tokens distinct; a renewal that does not throw also
   * retires the pair it was asked with, and one that throws changes nothing.
   */
  lemma ExtractionKeepsSessionTable(before: seq<AuthSessionDocument>, after: seq<AuthSessionDocument>, ops: seq<CookieOp>,
                                    users: seq<UserDocument>, cookies: RequestCookies, config: Config, now: nat, nextId: nat)
    requires ValidConfig(config)
    requires ExtractedWith(before, after, ops, users, cookies, config, now)
    requires IdsValid(before, nextId) && RefreshTokensDistinct(before)
    ensures |after| <= |before|
    ensures IdsValid(after, nextId) && RefreshTokensDistinct(after)
    ensures NeedsRenewal(cookies, config, now) && !RenewalThrows(users, before, cookies, config, now) ==>
              FindByPair(after, CookiePair(cookies)) == None
    ensures RenewalThrows(users, before, cookies, config, now) ==> after == before && ops == []
  {
    if NeedsRenewal(cookies, config, now) {
      var pair := CookiePair(cookies);
      match ClassifyRefresh(before, pair, now)
      case PairNotFound =>
      case SessionExpired(i) =>
        RemovalRetiresPair(before, pair, i);
        DeleteByIdContents(before, nextId, before[i].id);
        IndexOfIdAt(before, nextId, i);
      case SessionLive(i) =>
        if IndexOfId(users, before[i].doc.user).None? {
          return;
        }
        RenewalRetiresOldPair(before, pair, config, now, i);
        var s := before[i];
        var t := Sign(s.doc.user, config.jwtSecret, config.accessTokenExpiresIn, now);
        assert after == before[i := Row(s.id, s.doc.(accessToken := t))];
        assert forall j :: 0 <= j < |after| ==> after[j].id == before[j].id;
    }
  }

  /**
   * `tryToExtractUser(context)`: settles on a user id from the cookies,
   * renewing the access token through the session service when it no
   * longer verifies, and loads that user; a rejected renewal propagates.
   */
  method TryToExtractUser(auth: AuthService, cookies: RequestCookies, now: nat)
    returns (user: Result<Option<UserDocument>, ApiError>, ops: seq<CookieOp>)
    requires auth.Valid()
    modifies auth
    ensures auth.Valid() && auth.nextId == old(auth.nextId)
    ensures user == ExtractedUser(auth.users, old(auth.sessions), cookies, auth.config, now)
    ensures ExtractedWith(old(auth.sessions), auth.sessions, ops, auth.users.users, cookies, auth.config, now)
  {
    ops := [];
    if !HasAccessCookie(cookies) {
      return Success(None), ops;
    }
    var accessToken := cookies.accessToken.value;
    var payload := Verify(accessToken, auth.config.jwtSecret, now);
    var userId: nat;
    if payload.Valid? {
      userId := payload.sub;
    } else {
      if !HasRefreshCookie(cookies) {
        return Success(None), ops;
      }
      var renewed := auth.TryToCreateNewAccessToken(CookiePair(cookies), now);
      if renewed.Failure? {
        return Failure(renewed.error), ops;
      }
      var newAccessToken := renewed.value;
      if newAccessToken.None? {
        ops := [ClearAccessToken, ClearRefreshToken];
        return Success(None), ops;
      }
      ops := [SetAccessToken(newAccessToken.value.accessToken)];
      userId := newAccessToken.value.userId;
    }
    user := Success(auth.users.GetUserById(userId));
  }

  /**
   * `canActivate(context)`: a public route skips extraction entirely;
   * otherwise `Decide` on the extracted user, or refuse with the rejection
   * extraction propagated.
   */
  method CanActivate(auth: AuthService, route: RouteMetadata, cookies: RequestCookies, now: nat)
    returns (d: Decision, ops: seq<CookieOp>)
    requires auth.Valid()
    modifies auth
    ensures auth.Valid() && auth.nextId == old(auth.nextId)
    ensures route.isPublic ==> d == Allow(None) && ops == [] && auth.sessions == old(auth.sessions)
    ensures !route.isPublic ==>
      && d == (match ExtractedUser(auth.users, old(auth.sessions), cookies, auth.config, now)
               case Failure(e) => Deny(e)
               case Success(user) => Decide(route, user))
      && ExtractedWith(old(auth.sessions), auth.sessions, ops, auth.users.users, cookies, auth.config, now)
  {
    if route.isPublic {
      return Allow(None), [];
    }
    var user;
    user, ops := TryToExtractUser(auth, cookies, now);
    d := if user.Failure? then Deny(user.error) else Decide(route, user.value);
  }
}
