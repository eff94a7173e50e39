/** The user image data-access functions: reading and storing a user's image file name. */
module UserImageModel {
  import opened Wrappers
  import opened Schema
  import opened Relational
  import opened UserModel

  function SettingUserImage(filename: string): User -> User {
    (u: User) => u.(imageFilename := Some(filename))
  }

  /** `getImageFilename`: null when there is no such user or the user has no image. */
  function GetImageFilename(users: seq<User>, userId: int): (r: Option<string>)
    ensures GetOne(users, userId).None? ==> r.None?
    ensures GetOne(users, userId).Some? ==> r == GetOne(users, userId).value.imageFilename
  {
    match FirstWhere(users, HasUserId(userId))
    case None => None
    case Some(u) => u.imageFilename
  }

  datatype SetImageResult = SetImageResult(updated: bool, previous: Option<string>, users: seq<User>)

  /** `setImageFilename`: the previous file name, then `UPDATE user SET image_filename = ? WHERE id = ?`, true when a row matched. */
  function SetImageFilename(users: seq<User>, userId: int, filename: string): (r: SetImageResult)
    ensures r.updated <==> GetOne(users, userId).Some?
    ensures r.previous == GetImageFilename(users, userId)
    ensures |r.users| == |users|
    ensures forall i :: 0 <= i < |users| ==>
      r.users[i] == if users[i].id == userId then users[i].(imageFilename := Some(filename)) else users[i]
  {
    var previous := GetImageFilename(users, userId);
    SetImageResult(|Select(users, HasUserId(userId))| > 0, previous, UpdateWhere(users, HasUserId(userId), SettingUserImage(filename)))
  }

  /** Once stored, the file name is what a read returns. */
  lemma SetThenGetUserImage(users: seq<User>, userId: int, filename: string)
    requires SetImageFilename(users, userId, filename).updated
    ensures GetImageFilename(SetImageFilename(users, userId, filename).users, userId) == Some(filename)
  {
    FirstUpdate(users, HasUserId(userId), SettingUserImage(filename));
  }

  /** A second store reports the first one's file name as the previous one. */
  lemma SetTwiceReportsPrevious(users: seq<User>, userId: int, first: string, second: string)
    requires SetImageFilename(users, userId, first).updated
    ensures SetImageFilename(SetImageFilename(users, userId, first).users, userId, second).previous == Some(first)
  {
    SetThenGetUserImage(users, userId, first);
  }
}
