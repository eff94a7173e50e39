/**
 * The supporter route handlers: the supporter listing of a petition, and pledging support
 * at one of a petition's tiers.
 */
module SupporterController {
  import opened Wrappers
  import opened Schema
  import opened Http
  import SupportTierModel
  import SupporterModel
  import PetitionModel
  import UserModel
  import Db

  /** A listing answer: the status and the supporter rows sent with a 200. */
  datatype Listing = Listing(status: int, supporters: seq<SupporterModel.SupporterView>)

  // ---------------------------------------------------------------- listing

  /**
   * `getAllSupportersForPetition` as written: the model always returns a list, and an empty
   * list is truthy, so the "no petition" branch is never taken.
   */
  function GetAllSupportersAsWritten(s: State, petitionId: Option<int>): (r: Listing)
    ensures petitionId.None? <==> r.status == BadRequest
    ensures r.status != NotFound
    ensures r.status == Ok ==> r.supporters == SupporterModel.GetSupportersForPetition(s.supporters, s.users, petitionId.value)
  {
    if petitionId.None? then Listing(BadRequest, [])
    else Listing(Ok, SupporterModel.GetSupportersForPetition(s.supporters, s.users, petitionId.value))
  }

  /** A petition id that names no petition and no pledge is answered 200 with an empty list, not 404. */
  lemma MissingPetitionListedAsEmpty(s: State, petitionId: int)
    requires !PetitionModel.PetitionExists(s.petitions, petitionId)
    requires forall x :: x in s.supporters ==> x.petitionId != petitionId
    ensures GetAllSupportersAsWritten(s, Some(petitionId)) == Listing(Ok, [])
  {
  }

  /** The listing with the 404 the handler intends: a petition id that names no petition is not found. */
  function GetAllSupportersResponse(s: State, petitionId: Option<int>): (r: Listing)
    ensures petitionId.None? <==> r.status == BadRequest
    ensures r.status == NotFound <==> petitionId.Some? && !PetitionModel.PetitionExists(s.petitions, petitionId.value)
    ensures r.status in {BadRequest, NotFound, Ok}
    ensures r.status != Ok ==> r.supporters == []
    ensures r.status == Ok ==>
      && SupporterModel.NewestFirst(r.supporters)
      && forall v :: v in r.supporters <==>
           exists x, u :: x in s.supporters && x.petitionId == petitionId.value && u in s.users && u.id == x.userId
                          && v == SupporterModel.View(x, u)
  {
    if petitionId.None? then Listing(BadRequest, [])
    else if !PetitionModel.PetitionExists(s.petitions, petitionId.value) then Listing(NotFound, [])
    else Listing(Ok, SupporterModel.GetSupportersForPetition(s.supporters, s.users, petitionId.value))
  }

  /** Where the petition exists, the corrected listing sends exactly what the handler as written sends. */
  lemma ListingsAgreeOnExistingPetitions(s: State, petitionId: Option<int>)
    requires petitionId.None? || PetitionModel.PetitionExists(s.petitions, petitionId.value)
    ensures GetAllSupportersResponse(s, petitionId) == GetAllSupportersAsWritten(s, petitionId)
  {
  }

  method GetAllSupporters(db: Db.Database, petitionId: Option<int>) returns (r: Listing)
    ensures r == GetAllSupportersResponse(db.State(), petitionId)
  {
    if petitionId.None? {
      return Listing(BadRequest, []);
    }
    if !PetitionModel.PetitionExists(db.petitions, petitionId.value) {
      return Listing(NotFound, []);
    }
    var rows := SupporterModel.GetSupportersForPetition(db.supporters, db.users, petitionId.value);
    return Listing(Ok, rows);
  }

  // ---------------------------------------------------------------- pledge

  /**
   * `addSupporter`: id, token, user, the owner may not support their own petition, body
   * schema, one pledge per user and tier, then the tier must be one of the petition's.
   */
  function AddSupporterResponse(s: State, petitionId: Option<int>, token: Option<string>, bodyValid: bool,
                                tierId: int, message: Option<string>, now: int): (o: Outcome)
    ensures o.status in {BadRequest, Unauthorized, Forbidden, NotFound, Created}
    ensures o.status != Created ==> o.after == s
    ensures petitionId.None? ==> o.status == BadRequest
    ensures petitionId.Some? && Authenticate(s.users, token).None? ==> o.status == Unauthorized
    ensures petitionId.Some? && SentByOwner(s, petitionId.value, token) ==> o.status == Forbidden
    ensures (&& petitionId.Some? && Authenticate(s.users, token).Some? && !SentByOwner(s, petitionId.value, token)
             && !bodyValid) ==>
      o.status == BadRequest
    ensures (&& petitionId.Some? && Authenticate(s.users, token).Some? && !SentByOwner(s, petitionId.value, token) && bodyValid
             && SupporterModel.HasSupportedTier(s.supporters, Authenticate(s.users, token).value.id, tierId)) ==>
      o.status == Forbidden
    ensures (&& petitionId.Some? && Authenticate(s.users, token).Some? && !SentByOwner(s, petitionId.value, token) && bodyValid
             && !SupporterModel.HasSupportedTier(s.supporters, Authenticate(s.users, token).value.id, tierId)
             && !SupportTierModel.TierInPetition(s.supportTiers, tierId, petitionId.value)) ==>
      o.status == NotFound
    ensures o.status == Created <==>
      && petitionId.Some? && Authenticate(s.users, token).Some? && bodyValid
      && !PetitionModel.IsOwner(s.petitions, petitionId.value, Authenticate(s.users, token).value.id)
      && !SupporterModel.HasSupportedTier(s.supporters, Authenticate(s.users, token).value.id, tierId)
      && SupportTierModel.TierInPetition(s.supportTiers, tierId, petitionId.value)
    ensures o.status == Created ==> o.after == s.(
      supporters := s.supporters + [Supporter(s.nextSupporterId, petitionId.value, tierId, Authenticate(s.users, token).value.id, message, now)],
      nextSupporterId := s.nextSupporterId + 1)
  {
    if petitionId.None? then Outcome(BadRequest, s)
    else
      match Authenticate(s.users, token)
      case None => Outcome(Unauthorized, s)
      case Some(user) =>
        if PetitionModel.IsOwner(s.petitions, petitionId.value, user.id) then Outcome(Forbidden, s)
        else if !bodyValid then Outcome(BadRequest, s)
        else if SupporterModel.HasSupportedTier(s.supporters, user.id, tierId) then Outcome(Forbidden, s)
        else
          var r := SupporterModel.AddSupport(s.supportTiers, s.supporters, s.nextSupporterId, user.id, petitionId.value, tierId, message, now);
          if !r.added then Outcome(NotFound, s)
          else Outcome(Created, s.(supporters := r.supporters, nextSupporterId := r.nextSupporterId))
  }

  /** The owner is refused before the body is looked at; a repeated pledge is refused even at a tier that does not exist. */
  lemma AddSupporterPrecedence(s: State, petitionId: int, token: Option<string>, tierId: int, message: Option<string>, now: int)
    requires Authenticate(s.users, token).Some?
    ensures SentByOwner(s, petitionId, token) ==>
      AddSupporterResponse(s, Some(petitionId), token, false, tierId, message, now).status == Forbidden
    ensures (&& !SentByOwner(s, petitionId, token)
             && SupporterModel.HasSupportedTier(s.supporters, Authenticate(s.users, token).value.id, tierId)
             && !SupportTierModel.TierInPetition(s.supportTiers, tierId, petitionId)) ==>
      AddSupporterResponse(s, Some(petitionId), token, true, tierId, message, now).status == Forbidden
  {
  }

  /** After a pledge is accepted, the same request again is refused with 403 and changes nothing. */
  lemma AddSupporterTwiceRefused(s: State, petitionId: Option<int>, token: Option<string>, bodyValid: bool,
                                 tierId: int, message: Option<string>, now: int, later: int)
    requires AddSupporterResponse(s, petitionId, token, bodyValid, tierId, message, now).status == Created
    ensures var t := AddSupporterResponse(s, petitionId, token, bodyValid, tierId, message, now).after;
      AddSupporterResponse(t, petitionId, token, bodyValid, tierId, message, later) == Outcome(Forbidden, t)
  {
    var user := Authenticate(s.users, token).value;
    var t := AddSupporterResponse(s, petitionId, token, bodyValid, tierId, message, now).after;
    var row := Supporter(s.nextSupporterId, petitionId.value, tierId, user.id, message, now);
    assert t.users == s.users && t.petitions == s.petitions;
    assert row in t.supporters;
    assert SupporterModel.HasSupportedTier(t.supporters, user.id, tierId);
  }

  /** A pledge at one tier does not stand in the way of the same user's pledge at another tier of the petition. */
  lemma OtherTierStillAllowed(s: State, petitionId: int, token: Option<string>, tierId: int, otherTierId: int,
                              message: Option<string>, now: int, later: int)
    requires AddSupporterResponse(s, Some(petitionId), token, true, tierId, message, now).status == Created
    requires otherTierId != tierId
    requires SupportTierModel.TierInPetition(s.supportTiers, otherTierId, petitionId)
    requires !SupporterModel.HasSupportedTier(s.supporters, Authenticate(s.users, token).value.id, otherTierId)
    ensures var t := AddSupporterResponse(s, Some(petitionId), token, true, tierId, message, now).after;
      AddSupporterResponse(t, Some(petitionId), token, true, otherTierId, message, later).status == Created
  {
    var user := Authenticate(s.users, token).value;
    var row := Supporter(s.nextSupporterId, petitionId, tierId, user.id, message, now);
    var t := AddSupporterResponse(s, Some(petitionId), token, true, tierId, message, now).after;
    assert t.supporters == s.supporters + [row];
    assert !SupporterModel.HasSupportedTier(t.supporters, user.id, otherTierId);
  }

  /** Through the pledge handler keys stay valid, no user pledges twice at a tier, and every pledge is at a tier of its petition. */
  lemma AddSupporterKeepsInvariants(s: State, petitionId: Option<int>, token: Option<string>, bodyValid: bool,
                                    tierId: int, message: Option<string>, now: int)
    requires WellFormed(s)
    requires SupporterModel.OnePledgePerTier(s.supporters)
    requires SupporterModel.PledgesMatchTiers(s.supporters, s.supportTiers)
    ensures var o := AddSupporterResponse(s, petitionId, token, bodyValid, tierId, message, now);
      && WellFormed(o.after)
      && SupporterModel.OnePledgePerTier(o.after.supporters)
      && SupporterModel.PledgesMatchTiers(o.after.supporters, o.after.supportTiers)
  {
    var o := AddSupporterResponse(s, petitionId, token, bodyValid, tierId, message, now);
    if o.status == Created {
      var user := Authenticate(s.users, token).value;
      InsertSupporterKeepsWellFormed(s, Supporter(s.nextSupporterId, petitionId.value, tierId, user.id, message, now));
      SupporterModel.AddSupportKeepsOnePledgePerTier(s.supportTiers, s.supporters, s.nextSupporterId, user.id, petitionId.value, tierId, message, now);
      SupporterModel.AddSupportKeepsPledgesMatchTiers(s.supportTiers, s.supporters, s.nextSupporterId, user.id, petitionId.value, tierId, message, now);
    }
  }

  method AddSupporter(db: Db.Database, petitionId: Option<int>, token: Option<string>, bodyValid: bool,
                      tierId: int, message: Option<string>, now: int) returns (status: int)
    requires db.Valid()
    modifies db
    ensures db.Valid()
    ensures var o := AddSupporterResponse(old(db.State()), petitionId, token, bodyValid, tierId, message, now);
      status == o.status && db.State() == o.after
  {
    if petitionId.None? {
      return BadRequest;
    }
    if !Truthy(token) {
      return Unauthorized;
    }
    var user := UserModel.GetByToken(db.users, token.value);
    if user.None? {
      return Unauthorized;
    }
    if PetitionModel.IsOwner(db.petitions, petitionId.value, user.value.id) {
      return Forbidden;
    }
    if !bodyValid {
      return BadRequest;
    }
    if SupporterModel.HasSupportedTier(db.supporters, user.value.id, tierId) {
      return Forbidden;
    }
    var added := db.AddSupport(user.value.id, petitionId.value, tierId, message, now);
    if !added {
      return NotFound;
    }
    return Created;
  }
}
