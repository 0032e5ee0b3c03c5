/**
 * The user module's constants: the two regular expressions as predicates,
 * the status checks that throw, and the public projection of a user.
 */
module UsersConst {
  import opened Wrappers
  import opened Errors
  import opened JsString
  import opened Shared
  import opened UserSchema

  /** No character of `t` is a line terminator, so `.*` can consume all of it. */
  predicate NoLineTerminator(t: string) {
    forall k :: 0 <= k < |t| ==> !IsLineTerminator(t[k])
  }

  predicate IsSeparator(c: char) { c == '-' || c == '.' || c == '_' }

  /** `/^([a-z0-9]|[-._](?![-._])).*$/`: one leading character, then `.*` up to the end. */
  predicate UsernameRegex(s: string): (ok: bool)
    ensures ok ==> |s| >= 1 && !IsUpper(s[0])
    ensures ok ==> forall k :: 0 <= k < |s| ==> !IsLineTerminator(s[k])
  {
    && |s| >= 1
    && ((IsLower(s[0]) || IsDigit(s[0])) || (IsSeparator(s[0]) && !(|s| >= 2 && IsSeparator(s[1]))))
    && NoLineTerminator(s[1..])
  }

  /** The lookahead `(?=.*X)` at the start of `t`: an `X` is reachable without crossing a line end. */
  predicate Ahead(t: string, x: char -> bool) {
    exists j :: 0 <= j < |t| && x(t[j]) && NoLineTerminator(t[..j])
  }

  predicate IsNonWord(c: char) { !IsWordChar(c) }

  /**
   * `((?=.*\d)|(?=.*\W+))(?![.\n])(?=.*[A-Z])(?=.*[a-z]).*$` tried at
   * position `p`; the pattern has no `^`, so a match may start anywhere.
   */
  predicate PasswordRegexAt(s: string, p: nat): (ok: bool)
    requires p <= |s|
    ensures ok ==> p < |s| && s[p] != '.'
    ensures ok ==> forall k :: p <= k < |s| ==> !IsLineTerminator(s[k])
  {
    var t := s[p..];
    && (Ahead(t, IsDigit) || Ahead(t, IsNonWord))
    && !(|t| >= 1 && (t[0] == '.' || t[0] == '\n'))
    && Ahead(t, IsUpper)
    && Ahead(t, IsLower)
    && NoLineTerminator(t)
  }

  /** `PASSWORD_REGEX.test(s)`. */
  predicate PasswordRegex(s: string): (ok: bool)
    ensures ok ==> |s| >= 1 && !IsLineTerminator(s[|s| - 1])
  {
    exists p :: 0 <= p <= |s| && PasswordRegexAt(s, p)
  }

  predicate Contains(s: string, x: char -> bool) {
    exists i :: 0 <= i < |s| && x(s[i])
  }

  /** A password the pattern accepts has an upper-case letter, a lower-case letter and a digit or symbol. */
  lemma PasswordRegexNeedsClasses(s: string)
    requires PasswordRegex(s)
    ensures Contains(s, IsUpper) && Contains(s, IsLower)
    ensures Contains(s, IsDigit) || Contains(s, IsNonWord)
  {
    var p :| 0 <= p <= |s| && PasswordRegexAt(s, p);
    var t := s[p..];
    var u :| 0 <= u < |t| && IsUpper(t[u]) && NoLineTerminator(t[..u]);
    assert IsUpper(s[p + u]);
    var l :| 0 <= l < |t| && IsLower(t[l]) && NoLineTerminator(t[..l]);
    assert IsLower(s[p + l]);
    if Ahead(t, IsDigit) {
      var d :| 0 <= d < |t| && IsDigit(t[d]) && NoLineTerminator(t[..d]);
      assert IsDigit(s[p + d]);
    } else {
      var d :| 0 <= d < |t| && IsNonWord(t[d]) && NoLineTerminator(t[..d]);
      assert IsNonWord(s[p + d]);
    }
  }

  /**
   * Conversely, a single-line password that does not start with `.` and has
   * all three kinds of character is accepted.
   */
  lemma PasswordRegexFromClasses(s: string)
    requires NoLineTerminator(s) && (|s| >= 1 ==> s[0] != '.')
    requires Contains(s, IsUpper) && Contains(s, IsLower)
    requires Contains(s, IsDigit) || Contains(s, IsNonWord)
    ensures PasswordRegex(s)
  {
    assert s[0..] == s;
    forall x: char -> bool | Contains(s, x) ensures Ahead(s, x) {
      var i :| 0 <= i < |s| && x(s[i]);
      assert NoLineTerminator(s[..i]);
    }
    assert PasswordRegexAt(s, 0);
  }

  /** Lower-casing keeps a username the pattern accepts acceptable, so the stored form still matches. */
  lemma UsernameRegexSurvivesLowerCase(s: string)
    requires UsernameRegex(s)
    ensures UsernameRegex(ToLowerCase(s))
  {
    var r := ToLowerCase(s);
    assert r[1..] == ToLowerCase(s[1..]);
  }

  /** `validateUserStatusIsPending`: throws exactly when the status is not pending. */
  function ValidateUserStatusIsPending(user: UserDocument): (r: Outcome<ApiError>)
    ensures r.Fail? <==> user.doc.status != Pending
    ensures r.Fail? ==> r.error == AlreadyActivated
  {
    if user.doc.status != Pending then Fail(AlreadyActivated) else Pass
  }

  /** `validateUserStatusIsActive`: throws exactly when the status is not active. */
  function ValidateUserStatusIsActive(user: UserDocument): (r: Outcome<ApiError>)
    ensures r.Fail? <==> user.doc.status != Active
    ensures r.Fail? ==> r.error == NotYetActivated
  {
    if user.doc.status != Active then Fail(NotYetActivated) else Pass
  }

  /** What clients see of a user: no password hash and no status. */
  datatype UserPublic = UserPublic(id: nat, username: string, email: string, roles: seq<UserRole>)

  /** `getUserPublic`. */
  function GetUserPublic(user: UserDocument): (p: UserPublic)
    ensures p.id == user.id && p.username == user.doc.username
    ensures p.email == user.doc.email && p.roles == user.doc.roles
  {
    UserPublic(user.id, user.doc.username, user.doc.email, user.doc.roles)
  }

  /** The projection does not depend on the password hash or the status. */
  lemma GetUserPublicHidesSecrets(user: UserDocument, password: Option<PasswordHash>, status: UserStatus)
    ensures GetUserPublic(user.(doc := user.doc.(password := password, status := status))) == GetUserPublic(user)
  {
  }
}
