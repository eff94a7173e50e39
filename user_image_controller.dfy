/**
 * The user image route handlers. The image bytes and the storage directory are not
 * modelled: whether the stored file can be read is an input of the read handler.
 */
module UserImageController {
  import opened Wrappers
  import opened Schema
  import opened Http
  import opened Text
  import opened ImageFormat
  import UserModel
  import UserImageModel
  import PetitionImageController
  import Db

  /**
   * `getImage`: the user must have a truthy file name and the file must be readable; the type
   * is chosen by the extension as it is, without lower-casing.
   */
  function GetImageResponse(s: State, userId: int, fileExists: bool): (r: ImageAnswer)
    ensures r.status in {NotFound, Ok}
    ensures r.status == Ok <==> Truthy(UserImageModel.GetImageFilename(s.users, userId)) && fileExists
    ensures r.status != Ok ==> r.contentType.None?
    ensures r.status == Ok ==> r.contentType.Some? && Allowed(r.contentType.value)
    ensures r.status == Ok ==>
      (r.contentType == Some(Png) <==> Extname(UserImageModel.GetImageFilename(s.users, userId).value) == ".png")
  {
    var name := UserImageModel.GetImageFilename(s.users, userId);
    if !Truthy(name) then ImageAnswer(NotFound, None)
    else if !fileExists then ImageAnswer(NotFound, None)
    else ImageAnswer(Ok, Some(ContentTypeForExtension(Extname(name.value))))
  }

  /** A file named `1_5.PNG` is served as JPEG for a user, and as PNG for a petition, whose handler lower-cases first. */
  lemma UpperCaseExtension()
    ensures var s := State(
        [User(1, "a@example.com", "Ann", "Lee", Some("1_5.PNG"), "hash", None)],
        [Petition(1, "Title", "d", 1, 1, 0, Some("1_5.PNG"))],
        [], [], 2, 1, 1);
      && GetImageResponse(s, 1, true) == ImageAnswer(Ok, Some(Jpeg))
      && PetitionImageController.GetImageResponse(s, Some(1), true) == ImageAnswer(Ok, Some(Png))
  {
    UpperCaseExtensionName();
    var s := State(
        [User(1, "a@example.com", "Ann", "Lee", Some("1_5.PNG"), "hash", None)],
        [Petition(1, "Title", "d", 1, 1, 0, Some("1_5.PNG"))],
        [], [], 2, 1, 1);
    assert UserModel.GetOne(s.users, 1) == Some(s.users[0]);
    assert s.petitions[0] in s.petitions;
  }

  lemma UpperCaseExtensionName()
    ensures Extname("1_5.PNG") == ".PNG"
    ensures ContentTypeForExtension(".PNG") == Jpeg
    ensures ContentTypeForExtension(Lower(".PNG")) == Png
  {
    ExtnameOfDotted("1_5", "PNG");
    assert "1_5" + "." + "PNG" == "1_5.PNG";
    assert Lower(".PNG") == ".png";
  }

  /** The conditions under which `setImage` stores a file name: a body and an accepted content type. */
  predicate Accepted(bodyPresent: bool, contentType: Option<string>) {
    bodyPresent && contentType.Some? && Allowed(contentType.value)
  }

  /** The tables after the new file name `<userId>_<now>.<subtype>` is stored. */
  function Stored(s: State, userId: int, contentType: string, now: nat): State
    requires Allowed(contentType)
  {
    s.(users := UserImageModel.SetImageFilename(s.users, userId, NewFilename(userId, now, contentType)).users)
  }

  /**
   * `setImage` as written: the model's answer is a two-element array, which is truthy
   * whatever it holds, so every accepted upload is answered 200.
   */
  function SetImageAsWritten(s: State, userId: int, bodyPresent: bool, contentType: Option<string>, now: nat): (o: Outcome)
    ensures o.status in {BadRequest, Ok}
    ensures o.status == BadRequest <==> !Accepted(bodyPresent, contentType)
    ensures o.status == BadRequest ==> o.after == s
    ensures o.status == Ok ==> o.after == Stored(s, userId, contentType.value, now)
  {
    if !Accepted(bodyPresent, contentType) then Outcome(BadRequest, s)
    else
      var r := UserImageModel.SetImageFilename(s.users, userId, NewFilename(userId, now, contentType.value));
      Outcome(Ok, s.(users := r.users))
  }

  /** A user with no image uploads one and is answered 200, "updated", rather than 201. */
  lemma FirstUploadAnswered200(s: State, userId: int, contentType: string, now: nat)
    requires Allowed(contentType)
    requires UserModel.GetOne(s.users, userId).Some? && UserModel.GetOne(s.users, userId).value.imageFilename.None?
    ensures UserImageModel.GetImageFilename(s.users, userId).None?
    ensures SetImageAsWritten(s, userId, true, Some(contentType), now).status == Ok
  {
  }

  /** `setImage` as intended: 200 when the user already had an image, 201 when the image is the first. */
  function SetImageResponse(s: State, userId: int, bodyPresent: bool, contentType: Option<string>, now: nat): (o: Outcome)
    ensures o.status in {BadRequest, Ok, Created}
    ensures o.status == BadRequest <==> !Accepted(bodyPresent, contentType)
    ensures o.status == BadRequest ==> o.after == s
    ensures o.status == Ok <==> Accepted(bodyPresent, contentType) && Truthy(UserImageModel.GetImageFilename(s.users, userId))
    ensures o.status != BadRequest ==> o.after == Stored(s, userId, contentType.value, now)
  {
    if !Accepted(bodyPresent, contentType) then Outcome(BadRequest, s)
    else
      var r := UserImageModel.SetImageFilename(s.users, userId, NewFilename(userId, now, contentType.value));
      if Truthy(r.previous) then Outcome(Ok, s.(users := r.users))
      else Outcome(Created, s.(users := r.users))
  }

  /** The handler as written and as intended store the same name; they differ only in answering a first image with 200. */
  lemma AsWrittenDiffersOnlyInStatus(s: State, userId: int, bodyPresent: bool, contentType: Option<string>, now: nat)
    ensures SetImageAsWritten(s, userId, bodyPresent, contentType, now).after == SetImageResponse(s, userId, bodyPresent, contentType, now).after
    ensures SetImageResponse(s, userId, bodyPresent, contentType, now).status == Created ==>
      SetImageAsWritten(s, userId, bodyPresent, contentType, now).status == Ok
  {
  }

  /** The stored name is read back, once the file is on disk, with the content type it was sent with. */
  lemma SetThenGetImage(s: State, userId: int, contentType: string, now: nat)
    requires Allowed(contentType)
    requires UserModel.GetOne(s.users, userId).Some?
    ensures GetImageResponse(SetImageResponse(s, userId, true, Some(contentType), now).after, userId, true)
      == ImageAnswer(Ok, Some(contentType))
  {
    var name := NewFilename(userId, now, contentType);
    UserImageModel.SetThenGetUserImage(s.users, userId, name);
    ServedTypeOfNewFilename(userId, now, contentType);
    assert name != "";
  }

  /** A second accepted upload for an existing user is answered 200. */
  lemma SecondUploadAnswered200(s: State, userId: int, first: string, second: string, now: nat, later: nat)
    requires Allowed(first) && Allowed(second)
    requires UserModel.GetOne(s.users, userId).Some?
    ensures var t := SetImageResponse(s, userId, true, Some(first), now).after;
      SetImageResponse(t, userId, true, Some(second), later).status == Ok
  {
    var name := NewFilename(userId, now, first);
    var t := Stored(s, userId, first, now);
    assert SetImageResponse(s, userId, true, Some(first), now).after == t;
    UserImageModel.SetThenGetUserImage(s.users, userId, name);
    assert UserImageModel.GetImageFilename(t.users, userId) == Some(name);
    assert name != "";
  }

  /** `deleteImage`: not implemented. */
  function DeleteImageResponse(s: State): (o: Outcome)
    ensures o.status == NotImplemented && o.after == s
  {
    NotImplementedResponse(s)
  }

  method GetImage(db: Db.Database, userId: int, fileExists: bool) returns (r: ImageAnswer)
    ensures r == GetImageResponse(db.State(), userId, fileExists)
  {
    var name := UserImageModel.GetImageFilename(db.users, userId);
    if !Truthy(name) || !fileExists {
      return ImageAnswer(NotFound, None);
    }
    return ImageAnswer(Ok, Some(ContentTypeForExtension(Extname(name.value))));
  }

  method SetImage(db: Db.Database, userId: int, bodyPresent: bool, contentType: Option<string>, now: nat) returns (status: int)
    requires db.Valid()
    modifies db
    ensures db.Valid()
    ensures var o := SetImageResponse(old(db.State()), userId, bodyPresent, contentType, now);
      status == o.status && db.State() == o.after
  {
    if !bodyPresent || contentType.None? || !Allowed(contentType.value) {
      return BadRequest;
    }
    var name := NewFilename(userId, now, contentType.value);
    var updated, previous := db.SetUserImageFilename(userId, name);
    if Truthy(previous) {
      return Ok;
    }
    return Created;
  }
}
