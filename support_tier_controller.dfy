/**
 * The support-tier route handlers: each runs its checks in a fixed order, answering at the
 * first failure without touching the tables, and only then calls the data-access function.
 * Each handler is a response function over the tables and a method on the database proved
 * to answer and update as that function says.
 */
module SupportTierController {
  import opened Wrappers
  import opened Schema
  import opened Http
  import opened Relational
  import SupportTierModel
  import SupporterModel
  import PetitionModel
  import UserModel
  import Db

  // ---------------------------------------------------------------- add

  /** `addSupportTier`: id, token, user, body schema, ownership, then the model's two refusals as 403. */
  function AddSupportTierResponse(s: State, petitionId: Option<int>, token: Option<string>, bodyValid: bool,
                                  input: SupportTierModel.TierInput): (o: Outcome)
    ensures o.status in {BadRequest, Unauthorized, Forbidden, Created}
    ensures o.status != Created ==> o.after == s
    ensures petitionId.None? ==> o.status == BadRequest
    ensures petitionId.Some? && Authenticate(s.users, token).None? ==> o.status == Unauthorized
    ensures petitionId.Some? && Authenticate(s.users, token).Some? && !bodyValid ==> o.status == BadRequest
    ensures petitionId.Some? && Authenticate(s.users, token).Some? && bodyValid && !SentByOwner(s, petitionId.value, token) ==>
      o.status == Forbidden
    ensures (&& petitionId.Some? && SentByOwner(s, petitionId.value, token) && bodyValid
             && |SupportTierModel.TiersOf(s.supportTiers, petitionId.value)| >= SupportTierModel.MaxTiers) ==>
      o.status == Forbidden
    ensures (&& petitionId.Some? && SentByOwner(s, petitionId.value, token) && bodyValid
             && SupportTierModel.TitleTaken(s.supportTiers, petitionId.value, input.title)) ==>
      o.status == Forbidden
    ensures o.status == Created <==>
      && petitionId.Some? && Authenticate(s.users, token).Some? && bodyValid
      && PetitionModel.IsOwner(s.petitions, petitionId.value, Authenticate(s.users, token).value.id)
      && |SupportTierModel.TiersOf(s.supportTiers, petitionId.value)| < SupportTierModel.MaxTiers
      && !SupportTierModel.TitleTaken(s.supportTiers, petitionId.value, input.title)
    ensures o.status == Created ==> o.after == s.(
      supportTiers := s.supportTiers + [SupportTier(s.nextTierId, petitionId.value, input.title, input.description, input.cost)],
      nextTierId := s.nextTierId + 1)
  {
    if petitionId.None? then Outcome(BadRequest, s)
    else
      match Authenticate(s.users, token)
      case None => Outcome(Unauthorized, s)
      case Some(user) =>
        if !bodyValid then Outcome(BadRequest, s)
        else if !PetitionModel.IsOwner(s.petitions, petitionId.value, user.id) then Outcome(Forbidden, s)
        else
          var r := SupportTierModel.AddSupportTier(s.supportTiers, s.nextTierId, petitionId.value, input);
          if r.error.Some? then
            var named := r.error.value == SupportTierModel.TooManyTiers || r.error.value == SupportTierModel.TitleNotUnique;
            Outcome(if named then Forbidden else BadRequest, s)
          else Outcome(Created, s.(supportTiers := r.tiers, nextTierId := r.nextTierId))
  }

  /** Add looks at the body before ownership: a non-owner sending an invalid body is answered 400, not 403. */
  lemma AddSupportTierPrecedence(s: State, petitionId: int, token: Option<string>, input: SupportTierModel.TierInput)
    requires Authenticate(s.users, token).Some? && !SentByOwner(s, petitionId, token)
    ensures AddSupportTierResponse(s, Some(petitionId), token, false, input).status == BadRequest
    ensures AddSupportTierResponse(s, Some(petitionId), token, true, input).status == Forbidden
  {
  }

  /** Through the add handler no petition passes three tiers, titles stay unique within a petition and keys stay valid. */
  lemma AddSupportTierKeepsInvariants(s: State, petitionId: Option<int>, token: Option<string>, bodyValid: bool,
                                      input: SupportTierModel.TierInput)
    requires WellFormed(s)
    requires SupportTierModel.AtMostThreeTiers(s.supportTiers)
    requires SupportTierModel.TitlesUniqueWithinPetition(s.supportTiers)
    ensures WellFormed(AddSupportTierResponse(s, petitionId, token, bodyValid, input).after)
    ensures SupportTierModel.AtMostThreeTiers(AddSupportTierResponse(s, petitionId, token, bodyValid, input).after.supportTiers)
    ensures SupportTierModel.TitlesUniqueWithinPetition(AddSupportTierResponse(s, petitionId, token, bodyValid, input).after.supportTiers)
  {
    var o := AddSupportTierResponse(s, petitionId, token, bodyValid, input);
    if o.status == Created {
      SupportTierModel.AddKeepsAtMostThreeTiers(s.supportTiers, s.nextTierId, petitionId.value, input);
      SupportTierModel.AddKeepsTitlesUnique(s.supportTiers, s.nextTierId, petitionId.value, input);
      InsertTierKeepsWellFormed(s, SupportTier(s.nextTierId, petitionId.value, input.title, input.description, input.cost));
    }
  }

  method AddSupportTier(db: Db.Database, petitionId: Option<int>, token: Option<string>, bodyValid: bool,
                        input: SupportTierModel.TierInput) returns (status: int)
    requires db.Valid()
    modifies db
    ensures db.Valid()
    ensures var o := AddSupportTierResponse(old(db.State()), petitionId, token, bodyValid, input);
      status == o.status && db.State() == o.after
  {
    if petitionId.None? {
      return BadRequest;
    }
    if !Truthy(token) {
      return Unauthorized;
    }
    var user := UserModel.GetByToken(db.users, token.value);
    if user.None? {
      return Unauthorized;
    }
    if !bodyValid {
      return BadRequest;
    }
    if !PetitionModel.IsOwner(db.petitions, petitionId.value, user.value.id) {
      return Forbidden;
    }
    var error := db.AddSupportTier(petitionId.value, input);
    if error.Some? {
      if error.value == SupportTierModel.TooManyTiers || error.value == SupportTierModel.TitleNotUnique {
        return Forbidden;
      }
      return BadRequest;
    }
    return Created;
  }

  // ---------------------------------------------------------------- edit

  /** The tables after an edit that patched the tier rows with the id. */
  function Edited(s: State, tierId: int, patch: SupportTierModel.TierPatch): State {
    s.(supportTiers := SupportTierModel.EditSupportTier(s.supportTiers, s.supporters, tierId, patch).tiers)
  }

  /**
   * `editSupportTier` as written: ids, token, user, ownership of the petition in the path,
   * schema, pledges on the tier, then the model's edit keyed on the tier id alone.
   */
  function EditSupportTierAsWritten(s: State, petitionId: Option<int>, tierId: Option<int>, token: Option<string>,
                                    bodyValid: bool, patch: SupportTierModel.TierPatch): (o: Outcome)
    ensures o.status in {BadRequest, Unauthorized, Forbidden, Ok}
    ensures o.status != Ok ==> o.after == s
    ensures petitionId.None? || tierId.None? ==> o.status == BadRequest
    ensures petitionId.Some? && tierId.Some? && Authenticate(s.users, token).None? ==> o.status == Unauthorized
    ensures petitionId.Some? && tierId.Some? && Authenticate(s.users, token).Some? && !SentByOwner(s, petitionId.value, token) ==>
      o.status == Forbidden
    ensures petitionId.Some? && tierId.Some? && SentByOwner(s, petitionId.value, token) && !bodyValid ==> o.status == BadRequest
    ensures (&& petitionId.Some? && tierId.Some? && SentByOwner(s, petitionId.value, token) && bodyValid
             && SupportTierModel.SupportersExistForTier(s.supporters, tierId.value)) ==>
      o.status == Forbidden
    ensures (&& petitionId.Some? && tierId.Some? && SentByOwner(s, petitionId.value, token) && bodyValid
             && SupportTierModel.NoFieldProvided(patch)) ==>
      o.status == Forbidden
    ensures o.status == Ok <==>
      && petitionId.Some? && tierId.Some? && SentByOwner(s, petitionId.value, token) && bodyValid
      && !SupportTierModel.SupportersExistForTier(s.supporters, tierId.value)
      && !SupportTierModel.NoFieldProvided(patch)
    ensures o.status == Ok ==> o.after == Edited(s, tierId.value, patch)
  {
    if petitionId.None? || tierId.None? then Outcome(BadRequest, s)
    else
      match Authenticate(s.users, token)
      case None => Outcome(Unauthorized, s)
      case Some(user) =>
        if !PetitionModel.IsOwner(s.petitions, petitionId.value, user.id) then Outcome(Forbidden, s)
        else if !bodyValid then Outcome(BadRequest, s)
        else if SupportTierModel.SupportersExistForTier(s.supporters, tierId.value) then Outcome(Forbidden, s)
        else
          var r := SupportTierModel.EditSupportTier(s.supportTiers, s.supporters, tierId.value, patch);
          if r.error.Some? then Outcome(Forbidden, s) else Outcome(Ok, s.(supportTiers := r.tiers))
  }

  /** The owner of petition 1 renames a tier of petition 2 through petition 1's path, and is answered 200. */
  lemma EditAsWrittenChangesAnotherPetitionsTier()
    ensures var s := State(
        [User(1, "owner@example.com", "Ann", "Lee", None, "hash", Some("t"))],
        [Petition(1, "First", "d", 1, 1, 0, None), Petition(2, "Second", "d", 1, 2, 0, None)],
        [SupportTier(5, 2, "Gold", "d", 10)],
        [], 2, 6, 1);
      var o := EditSupportTierAsWritten(s, Some(1), Some(5), Some("t"), true, SupportTierModel.TierPatch(Some("Renamed"), None, None));
      && !SupportTierModel.TierInPetition(s.supportTiers, 5, 1)
      && o.status == Ok
      && o.after.supportTiers == [SupportTier(5, 2, "Renamed", "d", 10)]
  {
    var user := User(1, "owner@example.com", "Ann", "Lee", None, "hash", Some("t"));
    var s := State(
        [user],
        [Petition(1, "First", "d", 1, 1, 0, None), Petition(2, "Second", "d", 1, 2, 0, None)],
        [SupportTier(5, 2, "Gold", "d", 10)],
        [], 2, 6, 1);
    assert Authenticate(s.users, Some("t")) == Some(user);
    assert PetitionModel.IsOwner(s.petitions, 1, 1) by {
      assert s.petitions[0] in s.petitions;
    }
    var r := SupportTierModel.EditSupportTier(s.supportTiers, s.supporters, 5, SupportTierModel.TierPatch(Some("Renamed"), None, None));
    assert r.error.None?;
    assert r.tiers[0] == SupportTier(5, 2, "Renamed", "d", 10);
  }

  /**
   * `editSupportTier` with the tier required to belong to the petition in the path: a tier
   * of another petition, or no tier at all, is answered 404 and left alone.
   */
  function EditSupportTierResponse(s: State, petitionId: Option<int>, tierId: Option<int>, token: Option<string>,
                                   bodyValid: bool, patch: SupportTierModel.TierPatch): (o: Outcome)
    ensures o.status in {BadRequest, Unauthorized, Forbidden, NotFound, Ok}
    ensures o.status != Ok ==> o.after == s
    ensures petitionId.None? || tierId.None? ==> o.status == BadRequest
    ensures petitionId.Some? && tierId.Some? && Authenticate(s.users, token).None? ==> o.status == Unauthorized
    ensures petitionId.Some? && tierId.Some? && Authenticate(s.users, token).Some? && !SentByOwner(s, petitionId.value, token) ==>
      o.status == Forbidden
    ensures petitionId.Some? && tierId.Some? && SentByOwner(s, petitionId.value, token) && !bodyValid ==> o.status == BadRequest
    ensures (&& petitionId.Some? && tierId.Some? && SentByOwner(s, petitionId.value, token) && bodyValid
             && SupportTierModel.SupportersExistForTier(s.supporters, tierId.value)) ==>
      o.status == Forbidden
    ensures (&& petitionId.Some? && tierId.Some? && SentByOwner(s, petitionId.value, token) && bodyValid
             && !SupportTierModel.SupportersExistForTier(s.supporters, tierId.value)
             && !SupportTierModel.TierInPetition(s.supportTiers, tierId.value, petitionId.value)) ==>
      o.status == NotFound
    ensures (&& petitionId.Some? && tierId.Some? && SentByOwner(s, petitionId.value, token) && bodyValid
             && !SupportTierModel.SupportersExistForTier(s.supporters, tierId.value)
             && SupportTierModel.TierInPetition(s.supportTiers, tierId.value, petitionId.value)
             && SupportTierModel.NoFieldProvided(patch)) ==>
      o.status == Forbidden
    ensures o.status == Ok <==>
      && petitionId.Some? && tierId.Some? && Authenticate(s.users, token).Some?
      && PetitionModel.IsOwner(s.petitions, petitionId.value, Authenticate(s.users, token).value.id) && bodyValid
      && !SupportTierModel.SupportersExistForTier(s.supporters, tierId.value)
      && SupportTierModel.TierInPetition(s.supportTiers, tierId.value, petitionId.value)
      && !SupportTierModel.NoFieldProvided(patch)
    ensures o.status == Ok ==> o.after == Edited(s, tierId.value, patch)
  {
    if petitionId.None? || tierId.None? then Outcome(BadRequest, s)
    else
      match Authenticate(s.users, token)
      case None => Outcome(Unauthorized, s)
      case Some(user) =>
        if !PetitionModel.IsOwner(s.petitions, petitionId.value, user.id) then Outcome(Forbidden, s)
        else if !bodyValid then Outcome(BadRequest, s)
        else if SupportTierModel.SupportersExistForTier(s.supporters, tierId.value) then Outcome(Forbidden, s)
        else if !SupportTierModel.TierInPetition(s.supportTiers, tierId.value, petitionId.value) then Outcome(NotFound, s)
        else
          var r := SupportTierModel.EditSupportTier(s.supportTiers, s.supporters, tierId.value, patch);
          if r.error.Some? then Outcome(Forbidden, s) else Outcome(Ok, s.(supportTiers := r.tiers))
  }

  /** Edit checks ownership before the body, the reverse of add: a non-owner sending an invalid body is answered 403. */
  lemma EditSupportTierPrecedence(s: State, petitionId: int, tierId: int, token: Option<string>, patch: SupportTierModel.TierPatch)
    requires Authenticate(s.users, token).Some? && !SentByOwner(s, petitionId, token)
    ensures EditSupportTierResponse(s, Some(petitionId), Some(tierId), token, false, patch).status == Forbidden
    ensures EditSupportTierAsWritten(s, Some(petitionId), Some(tierId), token, false, patch).status == Forbidden
  {
  }

  /** With distinct tier ids, a successful edit changes only the one tier of the petition in the path. */
  lemma EditChangesOnlyThatTier(s: State, petitionId: Option<int>, tierId: Option<int>, token: Option<string>,
                                bodyValid: bool, patch: SupportTierModel.TierPatch)
    requires TierIdsDistinct(s.supportTiers)
    ensures var o := EditSupportTierResponse(s, petitionId, tierId, token, bodyValid, patch);
      && |o.after.supportTiers| == |s.supportTiers|
      && forall i :: 0 <= i < |s.supportTiers| && o.after.supportTiers[i] != s.supportTiers[i] ==>
           o.status == Ok && s.supportTiers[i].id == tierId.value && s.supportTiers[i].petitionId == petitionId.value
  {
    var o := EditSupportTierResponse(s, petitionId, tierId, token, bodyValid, patch);
    if o.status == Ok {
      var ts := s.supportTiers;
      forall i | 0 <= i < |ts| && o.after.supportTiers[i] != ts[i]
        ensures ts[i].id == tierId.value && ts[i].petitionId == petitionId.value
      {
        var t :| t in ts && t.id == tierId.value && t.petitionId == petitionId.value;
        var k :| 0 <= k < |ts| && ts[k] == t;
        assert ts[i].id == tierId.value;
        assert k == i;
      }
    }
  }

  /** Rows with the same ids and petitions at every position answer every tier-membership question alike. */
  lemma SameTierKeys(ts: seq<SupportTier>, us: seq<SupportTier>, tierId: int, petitionId: int)
    requires |us| == |ts|
    requires forall i :: 0 <= i < |ts| ==> us[i].id == ts[i].id && us[i].petitionId == ts[i].petitionId
    ensures SupportTierModel.TierInPetition(us, tierId, petitionId) == SupportTierModel.TierInPetition(ts, tierId, petitionId)
  {
    if SupportTierModel.TierInPetition(ts, tierId, petitionId) {
      var t :| t in ts && t.id == tierId && t.petitionId == petitionId;
      var k :| 0 <= k < |ts| && ts[k] == t;
      assert us[k] in us;
    }
    if SupportTierModel.TierInPetition(us, tierId, petitionId) {
      var t :| t in us && t.id == tierId && t.petitionId == petitionId;
      var k :| 0 <= k < |us| && us[k] == t;
      assert ts[k] in ts;
    }
  }

  /** An edit keeps every row's id and petition at its position. */
  lemma EditKeepsKeys(ts: seq<SupportTier>, sups: seq<Supporter>, tierId: int, patch: SupportTierModel.TierPatch)
    ensures var us := SupportTierModel.EditSupportTier(ts, sups, tierId, patch).tiers;
      && |us| == |ts|
      && forall i :: 0 <= i < |ts| ==> us[i].id == ts[i].id && us[i].petitionId == ts[i].petitionId
  {
  }

  /** The rows an edit produces keep distinct ids below the counter. */
  lemma EditedTiersKeepIds(ts: seq<SupportTier>, sups: seq<Supporter>, tierId: int, patch: SupportTierModel.TierPatch, bound: int)
    requires TierIdsDistinct(ts)
    requires forall i :: 0 <= i < |ts| ==> ts[i].id < bound
    ensures var us := SupportTierModel.EditSupportTier(ts, sups, tierId, patch).tiers;
      TierIdsDistinct(us) && forall i :: 0 <= i < |us| ==> us[i].id < bound
  {
    EditKeepsKeys(ts, sups, tierId, patch);
  }

  /** The rows an edit produces keep at most three tiers per petition. */
  lemma EditedTiersKeepCounts(ts: seq<SupportTier>, sups: seq<Supporter>, tierId: int, patch: SupportTierModel.TierPatch)
    requires SupportTierModel.AtMostThreeTiers(ts)
    ensures SupportTierModel.AtMostThreeTiers(SupportTierModel.EditSupportTier(ts, sups, tierId, patch).tiers)
  {
    forall p ensures |SupportTierModel.TiersOf(SupportTierModel.EditSupportTier(ts, sups, tierId, patch).tiers, p)| <= SupportTierModel.MaxTiers {
      SupportTierModel.EditKeepsTierCounts(ts, sups, tierId, patch, p);
    }
  }

  /** The rows an edit produces still hold every pledge's tier. */
  lemma EditedTiersKeepPledges(ts: seq<SupportTier>, sups: seq<Supporter>, tierId: int, patch: SupportTierModel.TierPatch)
    requires SupporterModel.PledgesMatchTiers(sups, ts)
    ensures SupporterModel.PledgesMatchTiers(sups, SupportTierModel.EditSupportTier(ts, sups, tierId, patch).tiers)
  {
    var us := SupportTierModel.EditSupportTier(ts, sups, tierId, patch).tiers;
    EditKeepsKeys(ts, sups, tierId, patch);
    forall i | 0 <= i < |sups|
      ensures SupportTierModel.TierInPetition(us, sups[i].supportTierId, sups[i].petitionId)
    {
      SameTierKeys(ts, us, sups[i].supportTierId, sups[i].petitionId);
    }
  }

  /** The tables after an edit keep valid keys. */
  lemma EditedKeepsWellFormed(s: State, tierId: int, patch: SupportTierModel.TierPatch)
    requires WellFormed(s)
    ensures WellFormed(Edited(s, tierId, patch))
  {
    EditedTiersKeepIds(s.supportTiers, s.supporters, tierId, patch, s.nextTierId);
    ReplaceTiersKeepsWellFormed(s, SupportTierModel.EditSupportTier(s.supportTiers, s.supporters, tierId, patch).tiers);
  }

  /** Through the edit handler keys stay valid, no petition passes three tiers and every pledge keeps its tier. */
  lemma EditSupportTierKeepsInvariants(s: State, petitionId: Option<int>, tierId: Option<int>, token: Option<string>,
                                       bodyValid: bool, patch: SupportTierModel.TierPatch)
    requires WellFormed(s)
    requires SupportTierModel.AtMostThreeTiers(s.supportTiers)
    requires SupporterModel.PledgesMatchTiers(s.supporters, s.supportTiers)
    ensures var o := EditSupportTierResponse(s, petitionId, tierId, token, bodyValid, patch);
      && WellFormed(o.after)
      && SupportTierModel.AtMostThreeTiers(o.after.supportTiers)
      && SupporterModel.PledgesMatchTiers(o.after.supporters, o.after.supportTiers)
  {
    var o := EditSupportTierResponse(s, petitionId, tierId, token, bodyValid, patch);
    if o.status == Ok {
      EditedKeepsWellFormed(s, tierId.value, patch);
      EditedTiersKeepCounts(s.supportTiers, s.supporters, tierId.value, patch);
      EditedTiersKeepPledges(s.supportTiers, s.supporters, tierId.value, patch);
    }
  }

  method EditSupportTier(db: Db.Database, petitionId: Option<int>, tierId: Option<int>, token: Option<string>,
                         bodyValid: bool, patch: SupportTierModel.TierPatch) returns (status: int)
    requires db.Valid()
    modifies db
    ensures db.Valid()
    ensures var o := EditSupportTierResponse(old(db.State()), petitionId, tierId, token, bodyValid, patch);
      status == o.status && db.State() == o.after
  {
    if petitionId.None? || tierId.None? {
      return BadRequest;
    }
    if !Truthy(token) {
      return Unauthorized;
    }
    var user := UserModel.GetByToken(db.users, token.value);
    if user.None? {
      return Unauthorized;
    }
    if !PetitionModel.IsOwner(db.petitions, petitionId.value, user.value.id) {
      return Forbidden;
    }
    if !bodyValid {
      return BadRequest;
    }
    if SupportTierModel.SupportersExistForTier(db.supporters, tierId.value) {
      return Forbidden;
    }
    if !SupportTierModel.TierInPetition(db.supportTiers, tierId.value, petitionId.value) {
      return NotFound;
    }
    var error := db.EditSupportTier(tierId.value, patch);
    if error.Some? {
      return Forbidden;
    }
    return Ok;
  }

  // ---------------------------------------------------------------- delete

  /** `deleteSupportTier`: ids, token, user, ownership, pledges on the tier, then the model's status or 200. */
  function DeleteSupportTierResponse(s: State, petitionId: Option<int>, tierId: Option<int>, token: Option<string>): (o: Outcome)
    ensures o.status in {BadRequest, Unauthorized, Forbidden, NotFound, Ok}
    ensures o.status != Ok ==> o.after == s
    ensures petitionId.None? || tierId.None? ==> o.status == BadRequest
    ensures petitionId.Some? && tierId.Some? && Authenticate(s.users, token).None? ==> o.status == Unauthorized
    ensures petitionId.Some? && tierId.Some? && Authenticate(s.users, token).Some? && !SentByOwner(s, petitionId.value, token) ==>
      o.status == Forbidden
    ensures (&& petitionId.Some? && tierId.Some? && SentByOwner(s, petitionId.value, token)
             && SupportTierModel.SupportersExistForTier(s.supporters, tierId.value)) ==>
      o.status == Forbidden
    ensures (&& petitionId.Some? && tierId.Some? && SentByOwner(s, petitionId.value, token)
             && !SupportTierModel.SupportersExistForTier(s.supporters, tierId.value)
             && |SupportTierModel.TiersOf(s.supportTiers, petitionId.value)| <= 1) ==>
      o.status == Forbidden
    ensures (&& petitionId.Some? && tierId.Some? && SentByOwner(s, petitionId.value, token)
             && !SupportTierModel.SupportersExistForTier(s.supporters, tierId.value)
             && |SupportTierModel.TiersOf(s.supportTiers, petitionId.value)| > 1
             && !SupportTierModel.TierInPetition(s.supportTiers, tierId.value, petitionId.value)) ==>
      o.status == NotFound
    ensures o.status == Ok <==>
      && petitionId.Some? && tierId.Some? && SentByOwner(s, petitionId.value, token)
      && !SupportTierModel.SupportersExistForTier(s.supporters, tierId.value)
      && |SupportTierModel.TiersOf(s.supportTiers, petitionId.value)| > 1
      && SupportTierModel.TierInPetition(s.supportTiers, tierId.value, petitionId.value)
    ensures o.status == Ok ==>
      o.after == s.(supportTiers := DeleteWhere(s.supportTiers, SupportTierModel.IsTierOf(tierId.value, petitionId.value)))
  {
    if petitionId.None? || tierId.None? then Outcome(BadRequest, s)
    else
      match Authenticate(s.users, token)
      case None => Outcome(Unauthorized, s)
      case Some(user) =>
        if !PetitionModel.IsOwner(s.petitions, petitionId.value, user.id) then Outcome(Forbidden, s)
        else if SupportTierModel.SupportersExistForTier(s.supporters, tierId.value) then Outcome(Forbidden, s)
        else
          var r := SupportTierModel.DeleteSupportTier(s.supportTiers, petitionId.value, tierId.value);
          if r.error.Some? then Outcome(r.status.value, s) else Outcome(Ok, s.(supportTiers := r.tiers))
  }

  /** The last-tier refusal (403) comes before the missing-tier answer (404); a present tier of a petition with several is removed. */
  lemma DeleteSupportTierPrecedence(s: State, petitionId: int, tierId: int, token: Option<string>)
    requires Authenticate(s.users, token).Some?
    requires PetitionModel.IsOwner(s.petitions, petitionId, Authenticate(s.users, token).value.id)
    requires !SupportTierModel.SupportersExistForTier(s.supporters, tierId)
    ensures |SupportTierModel.TiersOf(s.supportTiers, petitionId)| <= 1 ==>
      DeleteSupportTierResponse(s, Some(petitionId), Some(tierId), token).status == Forbidden
    ensures |SupportTierModel.TiersOf(s.supportTiers, petitionId)| > 1 && !SupportTierModel.TierInPetition(s.supportTiers, tierId, petitionId) ==>
      DeleteSupportTierResponse(s, Some(petitionId), Some(tierId), token).status == NotFound
    ensures |SupportTierModel.TiersOf(s.supportTiers, petitionId)| > 1 && SupportTierModel.TierInPetition(s.supportTiers, tierId, petitionId) ==>
      DeleteSupportTierResponse(s, Some(petitionId), Some(tierId), token).status == Ok
  {
  }

  /** A pledge that does not reference the deleted tier keeps its tier after the delete. */
  lemma DeletedTiersKeepPledges(ts: seq<SupportTier>, sups: seq<Supporter>, petitionId: int, tierId: int)
    requires SupporterModel.PledgesMatchTiers(sups, ts)
    requires !SupportTierModel.SupportersExistForTier(sups, tierId)
    ensures SupporterModel.PledgesMatchTiers(sups, DeleteWhere(ts, SupportTierModel.IsTierOf(tierId, petitionId)))
  {
    var us := DeleteWhere(ts, SupportTierModel.IsTierOf(tierId, petitionId));
    forall i | 0 <= i < |sups|
      ensures SupportTierModel.TierInPetition(us, sups[i].supportTierId, sups[i].petitionId)
    {
      var x := sups[i];
      var t :| t in ts && t.id == x.supportTierId && t.petitionId == x.petitionId;
      assert x in sups;
      assert t in us;
    }
  }

  /** The rows a delete leaves keep at most three tiers per petition. */
  lemma DeletedTiersKeepCounts(ts: seq<SupportTier>, petitionId: int, tierId: int)
    requires SupportTierModel.AtMostThreeTiers(ts)
    ensures SupportTierModel.AtMostThreeTiers(DeleteWhere(ts, SupportTierModel.IsTierOf(tierId, petitionId)))
  {
    var cond := SupportTierModel.IsTierOf(tierId, petitionId);
    var us := DeleteWhere(ts, cond);
    forall q ensures |SupportTierModel.TiersOf(us, q)| <= SupportTierModel.MaxTiers {
      DeleteShrinks(ts, SupportTierModel.OfPetition(q), cond);
      assert |SupportTierModel.TiersOf(ts, q)| <= SupportTierModel.MaxTiers;
      assert SupportTierModel.TiersOf(us, q) == Select(us, SupportTierModel.OfPetition(q));
      assert SupportTierModel.TiersOf(ts, q) == Select(ts, SupportTierModel.OfPetition(q));
    }
  }

  /** Through the delete handler keys stay valid, every petition with a tier keeps one, none passes three, and every pledge keeps its tier. */
  lemma DeleteSupportTierKeepsInvariants(s: State, petitionId: Option<int>, tierId: Option<int>, token: Option<string>, p: int)
    requires WellFormed(s)
    requires SupportTierModel.AtMostThreeTiers(s.supportTiers)
    requires SupporterModel.PledgesMatchTiers(s.supporters, s.supportTiers)
    ensures var o := DeleteSupportTierResponse(s, petitionId, tierId, token);
      && WellFormed(o.after)
      && SupportTierModel.AtMostThreeTiers(o.after.supportTiers)
      && SupporterModel.PledgesMatchTiers(o.after.supporters, o.after.supportTiers)
      && (|SupportTierModel.TiersOf(s.supportTiers, p)| >= 1 ==> |SupportTierModel.TiersOf(o.after.supportTiers, p)| >= 1)
  {
    var o := DeleteSupportTierResponse(s, petitionId, tierId, token);
    if o.status == Ok {
      var ts := s.supportTiers;
      var us := DeleteWhere(ts, SupportTierModel.IsTierOf(tierId.value, petitionId.value));
      SupportTierModel.DeleteKeepsTierIds(ts, SupportTierModel.IsTierOf(tierId.value, petitionId.value), s.nextTierId);
      DeletedTiersKeepCounts(ts, petitionId.value, tierId.value);
      DeletedTiersKeepPledges(ts, s.supporters, petitionId.value, tierId.value);
      ReplaceTiersKeepsWellFormed(s, us);
      assert o.after == s.(supportTiers := us);
      if |SupportTierModel.TiersOf(ts, p)| >= 1 {
        SupportTierModel.DeleteKeepsOneTier(ts, petitionId.value, tierId.value, p);
        assert SupportTierModel.DeleteSupportTier(ts, petitionId.value, tierId.value).tiers == o.after.supportTiers;
      }
    }
  }

  method DeleteSupportTier(db: Db.Database, petitionId: Option<int>, tierId: Option<int>, token: Option<string>) returns (status: int)
    requires db.Valid()
    modifies db
    ensures db.Valid()
    ensures var o := DeleteSupportTierResponse(old(db.State()), petitionId, tierId, token);
      status == o.status && db.State() == o.after
  {
    if petitionId.None? || tierId.None? {
      return BadRequest;
    }
    if !Truthy(token) {
      return Unauthorized;
    }
    var user := UserModel.GetByToken(db.users, token.value);
    if user.None? {
      return Unauthorized;
    }
    if !PetitionModel.IsOwner(db.petitions, petitionId.value, user.value.id) {
      return Forbidden;
    }
    if SupportTierModel.SupportersExistForTier(db.supporters, tierId.value) {
      return Forbidden;
    }
    var error, modelStatus := db.DeleteSupportTier(petitionId.value, tierId.value);
    if error.Some? {
      return modelStatus.value;
    }
    return Ok;
  }
}
