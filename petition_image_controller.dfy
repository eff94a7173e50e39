/**
 * The petition image route handlers. The image bytes and the storage directory are not
 * modelled: whether the stored file can be read is an input of the read handler.
 */
module PetitionImageController {
  import opened Wrappers
  import opened Schema
  import opened Http
  import opened Text
  import opened ImageFormat
  import PetitionImageModel
  import PetitionModel
  import UserModel
  import Db

  /**
   * `getImage`: the id must parse, the petition must have a truthy file name and the file
   * must be readable; the type is chosen by the lower-cased extension.
   */
  function GetImageResponse(s: State, petitionId: Option<int>, fileExists: bool): (r: ImageAnswer)
    ensures r.status in {BadRequest, NotFound, Ok}
    ensures r.status == BadRequest <==> petitionId.None?
    ensures r.status == Ok <==>
      petitionId.Some? && Truthy(PetitionImageModel.GetPetitionImageFilename(s.petitions, petitionId.value)) && fileExists
    ensures r.status != Ok ==> r.contentType.None?
    ensures r.status == Ok ==> r.contentType.Some? && Allowed(r.contentType.value)
    ensures r.status == Ok ==>
      (r.contentType == Some(Png) <==>
        Lower(Extname(PetitionImageModel.GetPetitionImageFilename(s.petitions, petitionId.value).value)) == ".png")
  {
    if petitionId.None? then ImageAnswer(BadRequest, None)
    else
      var name := PetitionImageModel.GetPetitionImageFilename(s.petitions, petitionId.value);
      if !Truthy(name) then ImageAnswer(NotFound, None)
      else if !fileExists then ImageAnswer(NotFound, None)
      else ImageAnswer(Ok, Some(ContentTypeForExtension(Lower(Extname(name.value)))))
  }

  /** The conditions under which `setImage` stores a file name. */
  predicate Accepted(s: State, petitionId: Option<int>, token: Option<string>, contentType: Option<string>) {
    && petitionId.Some? && Authenticate(s.users, token).Some?
    && PetitionModel.IsOwner(s.petitions, petitionId.value, Authenticate(s.users, token).value.id)
    && contentType.Some? && Allowed(contentType.value)
  }

  /**
   * `setImage`: id, token, user, ownership, content type; then the new file name is stored,
   * 200 when the petition had an image, 201 when it had none, 500 when no row was updated.
   */
  function SetImageResponse(s: State, petitionId: Option<int>, token: Option<string>, contentType: Option<string>, now: nat): (o: Outcome)
    ensures o.status in {BadRequest, Unauthorized, Forbidden, Ok, Created, InternalServerError}
    ensures o.status != Ok && o.status != Created ==> o.after == s
    ensures petitionId.None? ==> o.status == BadRequest
    ensures petitionId.Some? && Authenticate(s.users, token).None? ==> o.status == Unauthorized
    ensures petitionId.Some? && Authenticate(s.users, token).Some? && !SentByOwner(s, petitionId.value, token) ==>
      o.status == Forbidden
    ensures (&& petitionId.Some? && SentByOwner(s, petitionId.value, token)
             && (contentType.None? || !Allowed(contentType.value))) ==>
      o.status == BadRequest
    ensures o.status == Ok || o.status == Created <==> Accepted(s, petitionId, token, contentType)
    ensures o.status != InternalServerError
    ensures o.status == Ok <==>
      Accepted(s, petitionId, token, contentType) && Truthy(PetitionImageModel.GetPetitionImageFilename(s.petitions, petitionId.value))
    ensures Accepted(s, petitionId, token, contentType) ==>
      o.after == s.(petitions := PetitionImageModel.SetPetitionImageFilename(
        s.petitions, petitionId.value, NewFilename(petitionId.value, now, contentType.value)).petitions)
  {
    if petitionId.None? then Outcome(BadRequest, s)
    else
      match Authenticate(s.users, token)
      case None => Outcome(Unauthorized, s)
      case Some(user) =>
        if !PetitionModel.IsOwner(s.petitions, petitionId.value, user.id) then Outcome(Forbidden, s)
        else if contentType.None? || !Allowed(contentType.value) then Outcome(BadRequest, s)
        else
          var name := NewFilename(petitionId.value, now, contentType.value);
          var existing := PetitionImageModel.GetPetitionImageFilename(s.petitions, petitionId.value);
          var r := PetitionImageModel.SetPetitionImageFilename(s.petitions, petitionId.value, name);
          if r.updated && Truthy(existing) then Outcome(Ok, s.(petitions := r.petitions))
          else if r.updated then Outcome(Created, s.(petitions := r.petitions))
          else Outcome(InternalServerError, s)
  }

  /** An accepted upload is read back, once the file is on disk, with the content type it was sent with. */
  lemma SetThenGetImage(s: State, petitionId: int, token: Option<string>, contentType: Option<string>, now: nat)
    requires Accepted(s, Some(petitionId), token, contentType)
    ensures GetImageResponse(SetImageResponse(s, Some(petitionId), token, contentType, now).after, Some(petitionId), true)
      == ImageAnswer(Ok, contentType)
  {
    var name := NewFilename(petitionId, now, contentType.value);
    var r := PetitionImageModel.SetPetitionImageFilename(s.petitions, petitionId, name);
    PetitionImageModel.SetThenGetPetitionImage(s.petitions, petitionId, name);
    NewFilenameExtension(petitionId, now, contentType.value);
    ServedTypeOfNewFilename(petitionId, now, contentType.value);
    assert PetitionImageModel.GetPetitionImageFilename(r.petitions, petitionId) == Some(name);
    assert name != "";
  }

  /** Storing a file name leaves the petition's owner as it was. */
  lemma StoringKeepsOwner(ps: seq<Petition>, petitionId: int, userId: int, name: string)
    requires PetitionModel.IsOwner(ps, petitionId, userId)
    ensures PetitionModel.IsOwner(PetitionImageModel.SetPetitionImageFilename(ps, petitionId, name).petitions, petitionId, userId)
  {
    var r := PetitionImageModel.SetPetitionImageFilename(ps, petitionId, name);
    var p :| p in ps && p.id == petitionId && p.ownerId == userId;
    var k :| 0 <= k < |ps| && ps[k] == p;
    assert r.petitions[k] in r.petitions;
  }

  /** After an accepted upload, a second accepted upload by the owner answers 200: the petition now has an image. */
  lemma SecondUploadReplaces(s: State, petitionId: int, token: Option<string>, first: Option<string>, second: Option<string>,
                             now: nat, later: nat)
    requires Accepted(s, Some(petitionId), token, first)
    requires second.Some? && Allowed(second.value)
    ensures var t := SetImageResponse(s, Some(petitionId), token, first, now).after;
      SetImageResponse(t, Some(petitionId), token, second, later).status == Ok
  {
    var name := NewFilename(petitionId, now, first.value);
    var r := PetitionImageModel.SetPetitionImageFilename(s.petitions, petitionId, name);
    var t := s.(petitions := r.petitions);
    assert SetImageResponse(s, Some(petitionId), token, first, now).after == t;
    PetitionImageModel.SetThenGetPetitionImage(s.petitions, petitionId, name);
    assert Truthy(PetitionImageModel.GetPetitionImageFilename(t.petitions, petitionId)) by {
      assert name != "";
    }
    var user := Authenticate(s.users, token).value;
    assert Authenticate(t.users, token) == Some(user);
    StoringKeepsOwner(s.petitions, petitionId, user.id, name);
    assert Accepted(t, Some(petitionId), token, second);
  }

  method GetImage(db: Db.Database, petitionId: Option<int>, fileExists: bool) returns (r: ImageAnswer)
    ensures r == GetImageResponse(db.State(), petitionId, fileExists)
  {
    if petitionId.None? {
      return ImageAnswer(BadRequest, None);
    }
    var name := PetitionImageModel.GetPetitionImageFilename(db.petitions, petitionId.value);
    if !Truthy(name) || !fileExists {
      return ImageAnswer(NotFound, None);
    }
    var ext := Lower(Extname(name.value));
    return ImageAnswer(Ok, Some(ContentTypeForExtension(ext)));
  }

  method SetImage(db: Db.Database, petitionId: Option<int>, token: Option<string>, contentType: Option<string>, now: nat)
    returns (status: int)
    requires db.Valid()
    modifies db
    ensures db.Valid()
    ensures var o := SetImageResponse(old(db.State()), petitionId, token, contentType, now);
      status == o.status && db.State() == o.after
  {
    if petitionId.None? {
      return BadRequest;
    }
    if !Truthy(token) {
      return Unauthorized;
    }
    var user := UserModel.GetByToken(db.users, token.value);
    if user.None? {
      return Unauthorized;
    }
    if !PetitionModel.IsOwner(db.petitions, petitionId.value, user.value.id) {
      return Forbidden;
    }
    if contentType.None? || !Allowed(contentType.value) {
      return BadRequest;
    }
    var name := NewFilename(petitionId.value, now, contentType.value);
    var existing := PetitionImageModel.GetPetitionImageFilename(db.petitions, petitionId.value);
    var updated := db.SetPetitionImageFilename(petitionId.value, name);
    if updated && Truthy(existing) {
      return Ok;
    } else if updated {
      return Created;
    }
    return InternalServerError;
  }
}
