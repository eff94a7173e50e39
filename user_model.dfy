/**
 * The user data-access functions: insertion, lookup by token, e-mail and id, setting and
 * clearing the session token, and a partial profile update.
 */
module UserModel {
  import opened Wrappers
  import opened Schema
  import opened Relational

  /** The fields `insert` writes; the others start `NULL`. */
  datatype NewUser = NewUser(email: string, firstName: string, lastName: string, password: string)

  /** The body of a profile update: `None` is a field left `undefined`. */
  datatype UserPatch = UserPatch(email: Option<string>, firstName: Option<string>, lastName: Option<string>, password: Option<string>)

  function HasUserId(userId: int): User -> bool {
    (u: User) => u.id == userId
  }

  function HoldsToken(token: string): User -> bool {
    (u: User) => u.authToken == Some(token)
  }

  function HasEmail(email: string): User -> bool {
    (u: User) => u.email == email
  }

  datatype InsertResult = InsertResult(users: seq<User>, insertId: int, nextUserId: int)

  /** `insert`: one new row under the next auto-increment id, with no image and no token. */
  function Insert(users: seq<User>, nextUserId: int, u: NewUser): (r: InsertResult)
    ensures r.insertId == nextUserId && r.nextUserId == nextUserId + 1
    ensures r.users == users + [User(r.insertId, u.email, u.firstName, u.lastName, None, u.password, None)]
  {
    InsertResult(users + [User(nextUserId, u.email, u.firstName, u.lastName, None, u.password, None)], nextUserId, nextUserId + 1)
  }

  /** `getByToken`: the first user holding the token, if any. */
  function GetByToken(users: seq<User>, token: string): (r: Option<User>)
    ensures r.None? <==> forall u :: u in users ==> u.authToken != Some(token)
    ensures r.Some? ==> r.value in users && r.value.authToken == Some(token)
  {
    FirstWhere(users, HoldsToken(token))
  }

  /** `getByEmail`: the first user with the e-mail address, if any. */
  function GetByEmail(users: seq<User>, email: string): (r: Option<User>)
    ensures r.None? <==> forall u :: u in users ==> u.email != email
    ensures r.Some? ==> r.value in users && r.value.email == email
  {
    FirstWhere(users, HasEmail(email))
  }

  /** `getOne`: the user with the id, or null. */
  function GetOne(users: seq<User>, userId: int): (r: Option<User>)
    ensures r.None? <==> forall u :: u in users ==> u.id != userId
    ensures r.Some? ==> r.value in users && r.value.id == userId
  {
    FirstWhere(users, HasUserId(userId))
  }

  function SettingToken(token: Option<string>): User -> User {
    (u: User) => u.(authToken := token)
  }

  /** `updateToken`: `UPDATE user SET auth_token = ? WHERE id = ?`. */
  function UpdateToken(users: seq<User>, userId: int, token: string): (r: seq<User>)
    ensures |r| == |users|
    ensures forall i :: 0 <= i < |users| ==>
      r[i] == if users[i].id == userId then users[i].(authToken := Some(token)) else users[i]
  {
    UpdateWhere(users, HasUserId(userId), SettingToken(Some(token)))
  }

  /** `deleteToken`: `UPDATE user SET auth_token = NULL WHERE auth_token = ?`. */
  function DeleteToken(users: seq<User>, token: string): (r: seq<User>)
    ensures |r| == |users|
    ensures forall i :: 0 <= i < |users| ==>
      r[i] == if users[i].authToken == Some(token) then users[i].(authToken := None) else users[i]
  {
    UpdateWhere(users, HoldsToken(token), SettingToken(None))
  }

  /** After a token is stored for an existing user, and no other user held it, the token identifies that user. */
  lemma UpdateTokenThenGetByToken(users: seq<User>, userId: int, token: string)
    requires GetOne(users, userId).Some?
    requires GetByToken(users, token).None?
    ensures GetByToken(UpdateToken(users, userId, token), token).Some?
    ensures GetByToken(UpdateToken(users, userId, token), token).value.id == userId
  {
    var after := UpdateToken(users, userId, token);
    var u := GetOne(users, userId).value;
    var k :| 0 <= k < |users| && users[k] == u;
    assert after[k] in after && after[k].authToken == Some(token);
    var found := GetByToken(after, token).value;
    var j :| 0 <= j < |after| && after[j] == found;
    assert users[j] in users;
  }

  /** After a token is deleted, it identifies nobody. */
  lemma DeleteTokenThenGetByToken(users: seq<User>, token: string)
    ensures GetByToken(DeleteToken(users, token), token).None?
  {
    var after := DeleteToken(users, token);
    forall u | u in after ensures u.authToken != Some(token) {
      var i :| 0 <= i < |after| && after[i] == u;
    }
  }

  // ---------------------------------------------------------------- update

  /** The `SET` list for a patch: each provided field's column with its value, in the order email, first name, last name, password. */
  function UserAssignments(patch: UserPatch): seq<(string, string)> {
    EmailPart(patch) + FirstNamePart(patch) + LastNamePart(patch) + PasswordPart(patch)
  }

  function EmailPart(patch: UserPatch): seq<(string, string)> {
    if patch.email.Some? then [("email", patch.email.value)] else []
  }

  function FirstNamePart(patch: UserPatch): seq<(string, string)> {
    if patch.firstName.Some? then [("first_name", patch.firstName.value)] else []
  }

  function LastNamePart(patch: UserPatch): seq<(string, string)> {
    if patch.lastName.Some? then [("last_name", patch.lastName.value)] else []
  }

  function PasswordPart(patch: UserPatch): seq<(string, string)> {
    if patch.password.Some? then [("password", patch.password.value)] else []
  }

  /** `queryParts` and `values` so far hold one `column = ?` and one value per assignment in `done`. */
  ghost predicate Built(queryParts: seq<string>, values: seq<SqlValue>, done: seq<(string, string)>) {
    && |queryParts| == |values| == |done|
    && forall i :: 0 <= i < |done| ==> queryParts[i] == done[i].0 + " = ?" && values[i] == Text(done[i].1)
  }

  lemma BuiltAppend(queryParts: seq<string>, values: seq<SqlValue>, done: seq<(string, string)>, column: string, value: string)
    requires Built(queryParts, values, done)
    ensures Built(queryParts + [column + " = ?"], values + [Text(value)], done + [(column, value)])
  {
  }

  /** `queryParts`/`values` as `update` pushes them: one `column = ?` per provided field, beside its value, then the user id for `WHERE id = ?`. */
  method BuildUserUpdate(userId: int, patch: UserPatch) returns (queryParts: seq<string>, values: seq<SqlValue>)
    ensures |values| == |queryParts| + 1
    ensures Built(queryParts, values[..|queryParts|], UserAssignments(patch))
    ensures values[|queryParts|] == Number(userId)
  {
    queryParts, values := [], [];
    ghost var done: seq<(string, string)> := [];
    if patch.email.Some? {
      BuiltAppend(queryParts, values, done, "email", patch.email.value);
      queryParts, values := queryParts + ["email" + " = ?"], values + [Text(patch.email.value)];
      done := done + [("email", patch.email.value)];
    }
    assert done == EmailPart(patch);
    if patch.firstName.Some? {
      BuiltAppend(queryParts, values, done, "first_name", patch.firstName.value);
      queryParts, values := queryParts + ["first_name" + " = ?"], values + [Text(patch.firstName.value)];
      done := done + [("first_name", patch.firstName.value)];
    }
    assert done == EmailPart(patch) + FirstNamePart(patch);
    if patch.lastName.Some? {
      BuiltAppend(queryParts, values, done, "last_name", patch.lastName.value);
      queryParts, values := queryParts + ["last_name" + " = ?"], values + [Text(patch.lastName.value)];
      done := done + [("last_name", patch.lastName.value)];
    }
    assert done == EmailPart(patch) + FirstNamePart(patch) + LastNamePart(patch);
    if patch.password.Some? {
      BuiltAppend(queryParts, values, done, "password", patch.password.value);
      queryParts, values := queryParts + ["password" + " = ?"], values + [Text(patch.password.value)];
      done := done + [("password", patch.password.value)];
    }
    assert done == UserAssignments(patch);
    values := values + [Number(userId)];
  }

  /** The effect of one `column = value` part on a row. */
  function SetUserColumn(u: User, column: string, value: string): User {
    if column == "email" then u.(email := value)
    else if column == "first_name" then u.(firstName := value)
    else if column == "last_name" then u.(lastName := value)
    else if column == "password" then u.(password := value)
    else u
  }

  /** The effect of a whole `SET` list on a row, part by part. */
  function ApplyUser(u: User, assignments: seq<(string, string)>): User
    decreases |assignments|
  {
    if assignments == [] then u
    else ApplyUser(SetUserColumn(u, assignments[0].0, assignments[0].1), assignments[1..])
  }

  function ApplyingToUser(assignments: seq<(string, string)>): User -> User {
    (u: User) => ApplyUser(u, assignments)
  }

  /** The row with exactly the provided fields replaced. */
  function PatchedUser(u: User, patch: UserPatch): User {
    u.(email := patch.email.GetOr(u.email),
       firstName := patch.firstName.GetOr(u.firstName),
       lastName := patch.lastName.GetOr(u.lastName),
       password := patch.password.GetOr(u.password))
  }

  lemma {:induction false} ApplyUserConcat(u: User, a: seq<(string, string)>, b: seq<(string, string)>)
    ensures ApplyUser(u, a + b) == ApplyUser(ApplyUser(u, a), b)
    decreases |a|
  {
    if a != [] {
      assert a + b != [] && (a + b)[0] == a[0] && (a + b)[1..] == a[1..] + b;
      ApplyUserConcat(SetUserColumn(u, a[0].0, a[0].1), a[1..], b);
    } else {
      assert a + b == b;
    }
  }

  /** Executing the `SET` list a patch builds changes exactly the provided fields. */
  lemma ApplyUserAssignments(u: User, patch: UserPatch)
    ensures ApplyUser(u, UserAssignments(patch)) == PatchedUser(u, patch)
  {
    var a := if patch.email.Some? then [("email", patch.email.value)] else [];
    var b := if patch.firstName.Some? then [("first_name", patch.firstName.value)] else [];
    var c := if patch.lastName.Some? then [("last_name", patch.lastName.value)] else [];
    var d := if patch.password.Some? then [("password", patch.password.value)] else [];
    ApplyUserConcat(u, a + b + c, d);
    ApplyUserConcat(u, a + b, c);
    ApplyUserConcat(u, a, b);
  }

  lemma {:induction false} ApplyUserKeepsId(u: User, a: seq<(string, string)>)
    ensures ApplyUser(u, a).id == u.id
    decreases |a|
  {
    if a != [] {
      ApplyUserKeepsId(SetUserColumn(u, a[0].0, a[0].1), a[1..]);
    }
  }

  /**
   * `update`: with no field provided the statement reads `UPDATE user SET  WHERE id = ?`,
   * which the database rejects (`None`); otherwise the user's row takes exactly the provided fields.
   */
  function Update(users: seq<User>, userId: int, patch: UserPatch): (r: Option<seq<User>>)
    ensures r.None? <==> patch == UserPatch(None, None, None, None)
    ensures r.Some? ==> |r.value| == |users| && forall i :: 0 <= i < |users| ==>
      r.value[i] == if users[i].id == userId then PatchedUser(users[i], patch) else users[i]
  {
    var a := UserAssignments(patch);
    if a == [] then None
    else
      var after := UpdateWhere(users, HasUserId(userId), ApplyingToUser(a));
      assert forall i :: 0 <= i < |users| ==> after[i] == if users[i].id == userId then PatchedUser(users[i], patch) else users[i] by {
        forall i | 0 <= i < |users| ensures after[i] == if users[i].id == userId then PatchedUser(users[i], patch) else users[i] {
          ApplyUserAssignments(users[i], patch);
        }
      }
      Some(after)
  }

  /** Reading a user back after an update gives the row with exactly the provided fields replaced. */
  lemma UpdateThenGetOne(users: seq<User>, userId: int, patch: UserPatch)
    requires Update(users, userId, patch).Some?
    ensures GetOne(Update(users, userId, patch).value, userId) ==
      match GetOne(users, userId) case None => None case Some(u) => Some(PatchedUser(u, patch))
  {
    var a := UserAssignments(patch);
    forall x | HasUserId(userId)(x) ensures HasUserId(userId)(ApplyingToUser(a)(x)) {
      ApplyUserKeepsId(x, a);
    }
    FirstUpdate(users, HasUserId(userId), ApplyingToUser(a));
    if GetOne(users, userId).Some? {
      ApplyUserAssignments(GetOne(users, userId).value, patch);
    }
  }
}
