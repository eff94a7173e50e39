/** The petition image data-access functions: reading and storing a petition's image file name. */
module PetitionImageModel {
  import opened Wrappers
  import opened Schema
  import opened Relational

  function HasPetitionId(petitionId: int): Petition -> bool {
    (p: Petition) => p.id == petitionId
  }

  function SettingImage(filename: string): Petition -> Petition {
    (p: Petition) => p.(imageFilename := Some(filename))
  }

  /** `getPetitionImageFilename`: null when there is no such petition or it has no image. */
  function GetPetitionImageFilename(ps: seq<Petition>, petitionId: int): (r: Option<string>)
    ensures (forall p :: p in ps ==> p.id != petitionId) ==> r.None?
    ensures r.Some? ==> exists p :: p in ps && p.id == petitionId && p.imageFilename == r
    ensures (exists p :: p in ps && p.id == petitionId) ==>
      exists p :: p in ps && p.id == petitionId && r == p.imageFilename
  {
    match FirstWhere(ps, HasPetitionId(petitionId))
    case None => None
    case Some(p) => p.imageFilename
  }

  datatype SetImageResult = SetImageResult(updated: bool, petitions: seq<Petition>)

  /** `setPetitionImageFilename`: `UPDATE petition SET image_filename = ? WHERE id = ?`, true when a row matched. */
  function SetPetitionImageFilename(ps: seq<Petition>, petitionId: int, filename: string): (r: SetImageResult)
    ensures r.updated <==> exists p :: p in ps && p.id == petitionId
    ensures |r.petitions| == |ps|
    ensures forall i :: 0 <= i < |ps| ==>
      r.petitions[i] == if ps[i].id == petitionId then ps[i].(imageFilename := Some(filename)) else ps[i]
  {
    SetImageResult(|Select(ps, HasPetitionId(petitionId))| > 0, UpdateWhere(ps, HasPetitionId(petitionId), SettingImage(filename)))
  }

  /** Once stored, the file name is what a read returns. */
  lemma SetThenGetPetitionImage(ps: seq<Petition>, petitionId: int, filename: string)
    requires SetPetitionImageFilename(ps, petitionId, filename).updated
    ensures GetPetitionImageFilename(SetPetitionImageFilename(ps, petitionId, filename).petitions, petitionId) == Some(filename)
  {
    FirstUpdate(ps, HasPetitionId(petitionId), SettingImage(filename));
  }

  /** Storing an image for a missing petition changes nothing. */
  lemma SetMissingPetitionImage(ps: seq<Petition>, petitionId: int, filename: string)
    requires !SetPetitionImageFilename(ps, petitionId, filename).updated
    ensures SetPetitionImageFilename(ps, petitionId, filename).petitions == ps
  {
  }
}
