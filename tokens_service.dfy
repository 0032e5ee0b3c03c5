/**
 * The single-use token store (`TokensService`): creation, in-place
 * regeneration, lookup by token or by owner, validation and deletion over
 * the `tokens` collection.
 *
 * Callers in the user module use the names `getTokenByTokenAndValidate` and
 * `getTokenByUserIdAndCreateOrUpdateToken`; the service defines them as
 * `getTokenAndValidate` and `getTokenByUserIdAndCreateOrUpdate`. The model
 * has one operation for each pair.
 */
module Tokens {
  import opened Wrappers
  import opened Errors
  import opened Collection
  import opened Shared
  import opened RandomToken
  import opened TokenSchema

  /** The filter `{token, type}`. */
  predicate MatchesToken(m: TokenModel, q: (string, TokenType)) {
    m.token == q.0 && m.kind == q.1
  }

  /** The filter `{user, type}`. */
  predicate MatchesOwner(m: TokenModel, q: (nat, TokenType)) {
    m.user == q.0 && m.kind == q.1
  }

  /** The random source answers a request for a default-length token with the requested number of bytes. */
  predicate WellSized(random: RandomBytes) {
    random.Drawn? ==> |random.bytes| == ByteCount(DefaultLength)
  }

  /**
   * `getTokenByUserIdAndCreateOrUpdate` once the fresh token string `token`
   * is drawn: the new rows and the row returned. An existing row for
   * (`userId`, `kind`) gets the new string in place; otherwise a row is
   * created, and created as a password-reset token whatever `kind` was
   * asked for, exactly as the source does.
   */
  function Regenerate(rows: seq<TokenDocument>, nextId: nat, expiresAt: int,
                      userId: nat, kind: TokenType, token: string): (r: (seq<TokenDocument>, TokenDocument))
    ensures |rows| <= |r.0| <= |rows| + 1
    ensures r.1 in r.0 && r.1.doc.user == userId && r.1.doc.token == token
    ensures IdsValid(rows, nextId) ==> IdsValid(r.0, nextId + |r.0| - |rows|)
  {
    match FindFirst(rows, (userId, kind), MatchesOwner)
    case None =>
      var row := Row(nextId, TokenModel(userId, token, PasswordReset, expiresAt));
      (rows + [row], row)
    case Some(i) =>
      var row := Row(rows[i].id, rows[i].doc.(token := token));
      var after := rows[i := row];
      assert after[i] == row;
      (after, row)
  }

  /**
   * When (`userId`, `kind`) already has a row, regeneration keeps the row
   * count, the row's place, id, owner, kind and expiry, and changes only the
   * token string; every other row is untouched.
   */
  lemma RegenerateInPlace(rows: seq<TokenDocument>, nextId: nat, expiresAt: int,
                          userId: nat, kind: TokenType, token: string, i: nat)
    requires i < |rows| && MatchesOwner(rows[i].doc, (userId, kind))
    requires forall j :: 0 <= j < i ==> !MatchesOwner(rows[j].doc, (userId, kind))
    ensures var (after, row) := Regenerate(rows, nextId, expiresAt, userId, kind, token);
      && |after| == |rows| && after[i] == row
      && row.id == rows[i].id && row.doc == rows[i].doc.(token := token)
      && (forall j :: 0 <= j < |rows| && j != i ==> after[j] == rows[j])
  {
    assert FindFirst(rows, (userId, kind), MatchesOwner) == Some(i);
  }

  /**
   * When (`userId`, `kind`) has no row, regeneration appends one row, and its
   * kind is `PasswordReset` even when a verification token was asked for; so
   * the user still has no row of the requested kind.
   */
  lemma RegenerateCreatesPasswordReset(rows: seq<TokenDocument>, nextId: nat, expiresAt: int,
                                       userId: nat, kind: TokenType, token: string)
    requires forall j :: 0 <= j < |rows| ==> !MatchesOwner(rows[j].doc, (userId, kind))
    ensures var (after, row) := Regenerate(rows, nextId, expiresAt, userId, kind, token);
      && after == rows + [row]
      && row == Row(nextId, TokenModel(userId, token, PasswordReset, expiresAt))
      && (kind == UserVerification ==>
            forall j :: 0 <= j < |after| ==> !MatchesOwner(after[j].doc, (userId, UserVerification)))
  {
  }

  class TokensService {
    var rows: seq<TokenDocument>
    var nextId: nat
    /**
     * The schema's `expiresAt` default, `getDefaultTokenExpiration()`, is
     * evaluated once when the schema is defined, so every token gets this
     * same value.
     */
    const defaultExpiresAt: int

    ghost predicate Valid()
      reads this
    {
      && IdsValid(rows, nextId)
      && forall i :: 0 <= i < |rows| ==> rows[i].doc.expiresAt == defaultExpiresAt
    }

    constructor (defaultExpiresAt: int)
      ensures Valid() && rows == [] && this.defaultExpiresAt == defaultExpiresAt
    {
      rows := [];
      nextId := 0;
      this.defaultExpiresAt := defaultExpiresAt;
    }

    /** `createToken(userId, type)`. */
    method CreateToken(userId: nat, kind: TokenType, random: RandomBytes) returns (r: Result<TokenDocument, ApiError>)
      requires Valid() && WellSized(random)
      modifies this
      ensures Valid()
      ensures match GenerateRandomToken(DefaultLength, random)
        case Failure(e) => r == Failure(e) && rows == old(rows) && nextId == old(nextId)
        case Success(t) =>
          && r == Success(Row(old(nextId), TokenModel(userId, t, kind, defaultExpiresAt)))
          && rows == old(rows) + [r.value] && nextId == old(nextId) + 1
    {
      var token :- GenerateRandomToken(DefaultLength, random);
      var row := Row(nextId, TokenModel(userId, token, kind, defaultExpiresAt));
      rows := rows + [row];
      nextId := nextId + 1;
      r := Success(row);
    }

    /** `updateToken(id)`: a fresh string for the row with this id, or null if there is none. */
    method UpdateToken(id: nat, random: RandomBytes) returns (r: Result<Option<TokenDocument>, ApiError>)
      requires Valid() && WellSized(random)
      modifies this
      ensures Valid() && nextId == old(nextId)
      ensures match GenerateRandomToken(DefaultLength, random)
        case Failure(e) => r == Failure(e) && rows == old(rows)
        case Success(t) =>
          match IndexOfId(old(rows), id)
          case None => r == Success(None) && rows == old(rows)
          case Some(i) =>
            && rows == old(rows)[i := Row(id, old(rows)[i].doc.(token := t))]
            && r == Success(Some(rows[i]))
    {
      var token :- GenerateRandomToken(DefaultLength, random);
      match IndexOfId(rows, id)
      case None =>
        r := Success(None);
      case Some(i) =>
        rows := rows[i := Row(id, rows[i].doc.(token := token))];
        r := Success(Some(rows[i]));
    }

    /** `getToken(token, type)`: the first row holding this token string under this kind. */
    function GetToken(token: string, kind: TokenType): (r: Option<TokenDocument>)
      reads this
      ensures r.Some? ==> r.value in rows && r.value.doc.token == token && r.value.doc.kind == kind
      ensures r.None? <==> forall i :: 0 <= i < |rows| ==> !(rows[i].doc.token == token && rows[i].doc.kind == kind)
    {
      match FindFirst(rows, (token, kind), MatchesToken)
      case None => None
      case Some(i) => Some(rows[i])
    }

    /**
     * `getTokenAndValidate(token, type)`: the row, unless it is missing or
     * its expiry has passed.
     */
    function GetTokenAndValidate(token: string, kind: TokenType, now: nat): (r: Result<TokenDocument, ApiError>)
      reads this
      ensures r.Success? <==> GetToken(token, kind).Some? && !IsDateExpired(GetToken(token, kind).value.doc.expiresAt, now)
      ensures r.Success? ==> r.value == GetToken(token, kind).value
      ensures r.Success? ==> r.value in rows && r.value.doc.token == token && r.value.doc.kind == kind
      ensures r.Failure? ==> r.error == TokenInvalidOrExpired
    {
      match GetToken(token, kind)
      case None => Failure(TokenInvalidOrExpired)
      case Some(details) =>
        if IsDateExpired(details.doc.expiresAt, now) then Failure(TokenInvalidOrExpired) else Success(details)
    }

    /** `getTokenByUserId(userId, type)`. */
    function GetTokenByUserId(userId: nat, kind: TokenType): (r: Option<TokenDocument>)
      reads this
      ensures r.Some? ==> r.value in rows && r.value.doc.user == userId && r.value.doc.kind == kind
      ensures r.None? <==> forall i :: 0 <= i < |rows| ==> !MatchesOwner(rows[i].doc, (userId, kind))
    {
      match FindFirst(rows, (userId, kind), MatchesOwner)
      case None => None
      case Some(i) => Some(rows[i])
    }

    /** `getTokenByUserIdAndCreateOrUpdate(userId, type)`. */
    method GetTokenByUserIdAndCreateOrUpdate(userId: nat, kind: TokenType, random: RandomBytes)
      returns (r: Result<Option<TokenDocument>, ApiError>)
      requires Valid() && WellSized(random)
      modifies this
      ensures Valid()
      ensures match GenerateRandomToken(DefaultLength, random)
        case Failure(e) => r == Failure(e) && rows == old(rows) && nextId == old(nextId)
        case Success(t) =>
          var (after, row) := Regenerate(old(rows), old(nextId), defaultExpiresAt, userId, kind, t);
          && rows == after && r == Success(Some(row))
          && nextId == if |after| == |old(rows)| then old(nextId) else old(nextId) + 1
    {
      var found := FindFirst(rows, (userId, kind), MatchesOwner);
      match found
      case None =>
        var created := CreateToken(userId, PasswordReset, random);
        r := match created case Success(row) => Success(Some(row)) case Failure(e) => Failure(e);
      case Some(i) =>
        IndexOfIdAt(rows, nextId, i);
        r := UpdateToken(rows[i].id, random);
    }

    /** `deleteToken(id)`. */
    method DeleteToken(id: nat)
      requires Valid()
      modifies this
      ensures Valid() && nextId == old(nextId)
      ensures rows == DeleteById(old(rows), id)
    {
      DeleteByIdContents(rows, nextId, id);
      rows := DeleteById(rows, id);
    }
  }

  /**
   * Every token carries the schema's one-time default expiry, so once the
   * clock passes it no token of either kind validates, however recently it
   * was created.
   */
  lemma NoTokenValidatesAfterDefault(store: TokensService, token: string, kind: TokenType, now: nat)
    requires store.Valid() && IsDateExpired(store.defaultExpiresAt, now)
    ensures store.GetTokenAndValidate(token, kind, now) == Failure(TokenInvalidOrExpired)
  {
  }

  /** No two rows share a token string (the strings are 128 random hex digits). */
  predicate TokenStringsDistinct(rows: seq<TokenDocument>) {
    forall i, j :: 0 <= i < j < |rows| ==> rows[i].doc.token != rows[j].doc.token
  }

  /**
   * Single use: once the row a lookup finds is deleted, the same token
   * string finds nothing any more, and the strings stay distinct.
   */
  lemma SpentTokenIsGone(rows: seq<TokenDocument>, nextId: nat, token: string, kind: TokenType, i: nat)
    requires IdsValid(rows, nextId) && TokenStringsDistinct(rows)
    requires FindFirst(rows, (token, kind), MatchesToken) == Some(i)
    ensures TokenStringsDistinct(DeleteById(rows, rows[i].id))
    ensures FindFirst(DeleteById(rows, rows[i].id), (token, kind), MatchesToken) == None
  {
    var after := DeleteById(rows, rows[i].id);
    DeleteByIdContents(rows, nextId, rows[i].id);
    IndexOfIdAt(rows, nextId, i);
    assert after == RemoveAt(rows, i);
    forall j | 0 <= j < |after| ensures !MatchesToken(after[j].doc, (token, kind)) {
      var k := if j < i then j else j + 1;
      assert after[j] == rows[k] && k != i;
    }
    forall j, l | 0 <= j < l < |after| ensures after[j].doc.token != after[l].doc.token {
      var j' := if j < i then j else j + 1;
      var l' := if l < i then l else l + 1;
      assert after[j] == rows[j'] && after[l] == rows[l'];
    }
  }

  /** A token string is not found under the other kind than the one it is stored with. */
  lemma LookupIsKeyedOnKind(store: TokensService, token: string, kind: TokenType, other: TokenType)
    requires other != kind
    requires forall i :: 0 <= i < |store.rows| && store.rows[i].doc.token == token ==> store.rows[i].doc.kind == kind
    ensures store.GetToken(token, other) == None
  {
  }
}
