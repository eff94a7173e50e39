/**
 * The database the data-access functions run against: the four tables and the next
 * auto-increment ids, updated in place. Each mutating method performs one data-access
 * function's statements and is tied to the table-level function that specifies it.
 */
module Db {
  import opened Wrappers
  import opened Schema
  import opened Relational
  import SupportTierModel
  import SupporterModel
  import UserModel
  import PetitionModel
  import PetitionImageModel
  import UserImageModel

  class Database {
    var users: seq<User>
    var petitions: seq<Petition>
    var supportTiers: seq<SupportTier>
    var supporters: seq<Supporter>
    var nextUserId: int
    var nextTierId: int
    var nextSupporterId: int

    /** The tables as one value. */
    function State(): Schema.State
      reads this
    {
      Schema.State(users, petitions, supportTiers, supporters, nextUserId, nextTierId, nextSupporterId)
    }

    /** The primary keys hold. */
    predicate Valid()
      reads this
    {
      WellFormed(State())
    }

    /** A database holding the given tables. */
    constructor (s: State)
      requires WellFormed(s)
      ensures State() == s && Valid()
    {
      users, petitions, supportTiers, supporters := s.users, s.petitions, s.supportTiers, s.supporters;
      nextUserId, nextTierId, nextSupporterId := s.nextUserId, s.nextTierId, s.nextSupporterId;
    }

    // ------------------------------------------------------------ support tiers

    /** `addSupportTier`: count the petition's tiers, look for the title, then insert. */
    method AddSupportTier(petitionId: int, input: SupportTierModel.TierInput) returns (error: Option<string>)
      requires Valid()
      modifies this`supportTiers, this`nextTierId
      ensures Valid()
      ensures var r := SupportTierModel.AddSupportTier(old(supportTiers), old(nextTierId), petitionId, input);
        error == r.error && supportTiers == r.tiers && nextTierId == r.nextTierId
    {
      if |SupportTierModel.TiersOf(supportTiers, petitionId)| >= SupportTierModel.MaxTiers {
        return Some(SupportTierModel.TooManyTiers);
      }
      if SupportTierModel.TitleTaken(supportTiers, petitionId, input.title) {
        return Some(SupportTierModel.TitleNotUnique);
      }
      supportTiers := supportTiers + [SupportTier(nextTierId, petitionId, input.title, input.description, input.cost)];
      nextTierId := nextTierId + 1;
      return None;
    }

    /** `editSupportTier`: refuse while pledged, build the `SET` list, refuse it empty, then update the row with the id. */
    method EditSupportTier(tierId: int, patch: SupportTierModel.TierPatch) returns (error: Option<string>)
      requires Valid()
      modifies this`supportTiers
      ensures Valid()
      ensures var r := SupportTierModel.EditSupportTier(old(supportTiers), supporters, tierId, patch);
        error == r.error && supportTiers == r.tiers
    {
      if SupportTierModel.SupportersExistForTier(supporters, tierId) {
        return Some(SupportTierModel.SupporterExists);
      }
      var updates, values := SupportTierModel.BuildTierUpdate(patch);
      SupportTierModel.AssignmentsEmpty(patch);
      if |updates| == 0 {
        return Some(SupportTierModel.NoValidFields);
      }
      supportTiers := SupportTierModel.EditSupportTier(supportTiers, supporters, tierId, patch).tiers;
      return None;
    }

    /** `deleteSupportTier`: refuse for a petition's last tier, then delete the row with both ids, 404 when none matched. */
    method DeleteSupportTier(petitionId: int, tierId: int) returns (error: Option<string>, status: Option<int>)
      requires Valid()
      modifies this`supportTiers
      ensures Valid()
      ensures var r := SupportTierModel.DeleteSupportTier(old(supportTiers), petitionId, tierId);
        error == r.error && status == r.status && supportTiers == r.tiers
    {
      if |SupportTierModel.TiersOf(supportTiers, petitionId)| <= 1 {
        return Some(SupportTierModel.OnlyTier), Some(403);
      }
      var after := DeleteWhere(supportTiers, SupportTierModel.IsTierOf(tierId, petitionId));
      if |after| == |supportTiers| {
        return Some(SupportTierModel.NotFoundOrForbidden), Some(404);
      }
      SupportTierModel.DeleteKeepsTierIds(supportTiers, SupportTierModel.IsTierOf(tierId, petitionId), nextTierId);
      supportTiers := after;
      return None, None;
    }

    // ------------------------------------------------------------ supporters

    /** `addSupport`: check that the tier belongs to the petition, then insert the pledge stamped `now`. */
    method AddSupport(userId: int, petitionId: int, tierId: int, message: Option<string>, now: int) returns (added: bool)
      requires Valid()
      modifies this`supporters, this`nextSupporterId
      ensures Valid()
      ensures var r := SupporterModel.AddSupport(supportTiers, old(supporters), old(nextSupporterId), userId, petitionId, tierId, message, now);
        added == r.added && supporters == r.supporters && nextSupporterId == r.nextSupporterId
    {
      if !SupportTierModel.TierInPetition(supportTiers, tierId, petitionId) {
        return false;
      }
      supporters := supporters + [Supporter(nextSupporterId, petitionId, tierId, userId, message, now)];
      nextSupporterId := nextSupporterId + 1;
      return true;
    }

    // ------------------------------------------------------------ users

    /** `insert`: a new user row; the returned id is the row's. */
    method InsertUser(u: UserModel.NewUser) returns (insertId: int)
      requires Valid()
      modifies this`users, this`nextUserId
      ensures Valid()
      ensures var r := UserModel.Insert(old(users), old(nextUserId), u);
        insertId == r.insertId && users == r.users && nextUserId == r.nextUserId
    {
      insertId := nextUserId;
      users := users + [User(insertId, u.email, u.firstName, u.lastName, None, u.password, None)];
      nextUserId := nextUserId + 1;
    }

    /** `updateToken`. */
    method UpdateToken(userId: int, token: string)
      requires Valid()
      modifies this`users
      ensures Valid()
      ensures users == UserModel.UpdateToken(old(users), userId, token)
    {
      users := UserModel.UpdateToken(users, userId, token);
    }

    /** `deleteToken`. */
    method DeleteToken(token: string)
      requires Valid()
      modifies this`users
      ensures Valid()
      ensures users == UserModel.DeleteToken(old(users), token)
    {
      users := UserModel.DeleteToken(users, token);
    }

    /** `update`: build the `SET` list and its values, then run it; false when the statement is rejected. */
    method UpdateUser(userId: int, patch: UserModel.UserPatch) returns (ok: bool)
      requires Valid()
      modifies this`users
      ensures Valid()
      ensures var r := UserModel.Update(old(users), userId, patch);
        ok == r.Some? && users == (if r.Some? then r.value else old(users))
    {
      var queryParts, values := UserModel.BuildUserUpdate(userId, patch);
      if |queryParts| == 0 {
        assert UserModel.UserAssignments(patch) == [];
        return false;
      }
      users := UserModel.Update(users, userId, patch).value;
      return true;
    }

    // ------------------------------------------------------------ images

    /** `setPetitionImageFilename`. */
    method SetPetitionImageFilename(petitionId: int, filename: string) returns (updated: bool)
      requires Valid()
      modifies this`petitions
      ensures Valid()
      ensures var r := PetitionImageModel.SetPetitionImageFilename(old(petitions), petitionId, filename);
        updated == r.updated && petitions == r.petitions
    {
      var r := PetitionImageModel.SetPetitionImageFilename(petitions, petitionId, filename);
      petitions := r.petitions;
      return r.updated;
    }

    /** `setImageFilename`: read the previous file name, then update the row. */
    method SetUserImageFilename(userId: int, filename: string) returns (updated: bool, previous: Option<string>)
      requires Valid()
      modifies this`users
      ensures Valid()
      ensures var r := UserImageModel.SetImageFilename(old(users), userId, filename);
        updated == r.updated && previous == r.previous && users == r.users
    {
      previous := UserImageModel.GetImageFilename(users, userId);
      var r := UserImageModel.SetImageFilename(users, userId, filename);
      users := r.users;
      updated := r.updated;
    }

    // ------------------------------------------------------------ petition listing

    /** `getPetitions`: append the filter's conditions, select, then take the `LIMIT` page. */
    method GetPetitions(startIndex: nat, count: Option<nat>, f: PetitionModel.Filter) returns (rows: seq<Petition>)
      ensures rows == PetitionModel.GetPetitions(petitions, supporters, startIndex, count, f)
    {
      var clauses := PetitionModel.BuildClauses(f);
      var selected := Select(petitions, PetitionModel.Satisfying(clauses, supporters));
      rows := PetitionModel.Page(selected, startIndex, count);
    }

    /** `getTotalPetitions`: append the same conditions, then count. */
    method GetTotalPetitions(f: PetitionModel.Filter) returns (total: nat)
      ensures total == PetitionModel.GetTotalPetitions(petitions, supporters, f)
    {
      var clauses := PetitionModel.BuildClauses(f);
      total := |Select(petitions, PetitionModel.Satisfying(clauses, supporters))|;
    }
  }
}
