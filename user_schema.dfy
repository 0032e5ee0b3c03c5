/**
 * The `users` collection: status and role enumerations, the user document
 * with its creation defaults, and the two unique indexes.
 */
module UserSchema {
  import opened Wrappers
  import opened Collection
  import opened Shared
  import opened JsString

  datatype UserStatus = Pending | Active

  datatype UserRole = User

  /**
   * A user document. `username` and `email` pass through the schema's
   * lower-casing setter; `password` holds the hash and may be absent.
   */
  datatype UserModel = UserModel(
    username: string,
    email: string,
    password: Option<PasswordHash>,
    status: UserStatus,
    roles: seq<UserRole>)

  type UserDocument = Row<UserModel>

  /** The document `create({username, email, password})` stores. */
  function NewUser(username: string, email: string, password: Option<PasswordHash>): (m: UserModel)
    ensures m.status == Pending && m.roles == [User]
    ensures m.password == password
    ensures |m.username| == |username| && |m.email| == |email|
    ensures IsLowerCased(m.username) && IsLowerCased(m.email)
    ensures IsLowerCased(username) ==> m.username == username
    ensures IsLowerCased(email) ==> m.email == email
  {
    ToLowerCaseResult(username);
    ToLowerCaseResult(email);
    UserModel(ToLowerCase(username), ToLowerCase(email), password, Pending, [User])
  }

  /** Both unique indexes hold: no two users share a username or an e-mail. */
  predicate UniqueIndexes(users: seq<UserDocument>) {
    forall i, j :: 0 <= i < j < |users| ==>
      users[i].doc.username != users[j].doc.username && users[i].doc.email != users[j].doc.email
  }

  /** Inserting `m` would violate one of the unique indexes. */
  predicate ViolatesUniqueIndex(users: seq<UserDocument>, m: UserModel) {
    exists i :: 0 <= i < |users| && (users[i].doc.username == m.username || users[i].doc.email == m.email)
  }

  /** An insert the indexes accept keeps them satisfied. */
  lemma InsertKeepsUniqueIndexes(users: seq<UserDocument>, id: nat, m: UserModel)
    requires UniqueIndexes(users) && !ViolatesUniqueIndex(users, m)
    ensures UniqueIndexes(users + [Row(id, m)])
  {
  }
}
