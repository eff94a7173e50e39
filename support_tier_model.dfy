/**
 * The support-tier data-access functions: adding a tier (at most three per petition, titles
 * unique within a petition), editing one (only while nobody supports it) and deleting one
 * (never a petition's last tier), each as a function of the tables it reads and writes.
 */
module SupportTierModel {
  import opened Wrappers
  import opened Schema
  import opened Relational

  const MaxTiers := 3

  const TooManyTiers := "Can add a support tier if 3 already exist."
  const TitleNotUnique := "Support title not unique within petition."
  const SupporterExists := "Cannot edit a support tier if a supporter already exists for it."
  const NoValidFields := "No valid fields provided for update"
  const OnlyTier := "Can not remove a support tier if it is the only one for a petition"
  const NotFoundOrForbidden := "Not Found or Forbidden"

  /** The body of a tier creation request. */
  datatype TierInput = TierInput(title: string, description: string, cost: int)

  /** The body of a tier edit request: `None` is a field left `undefined`. */
  datatype TierPatch = TierPatch(title: Option<string>, description: Option<string>, cost: Option<int>)

  function OfPetition(petitionId: int): SupportTier -> bool {
    (t: SupportTier) => t.petitionId == petitionId
  }

  function HasId(tierId: int): SupportTier -> bool {
    (t: SupportTier) => t.id == tierId
  }

  function IsTierOf(tierId: int, petitionId: int): SupportTier -> bool {
    (t: SupportTier) => t.id == tierId && t.petitionId == petitionId
  }

  function OfTier(tierId: int): Supporter -> bool {
    (s: Supporter) => s.supportTierId == tierId
  }

  /** The tiers of a petition, in table order; `COUNT(*) ... WHERE petition_id = ?` is its length. */
  function TiersOf(ts: seq<SupportTier>, petitionId: int): (r: seq<SupportTier>)
    ensures forall t :: t in r <==> t in ts && t.petitionId == petitionId
  {
    Select(ts, OfPetition(petitionId))
  }

  /** Some tier of the petition already carries the title. */
  function TitleTaken(ts: seq<SupportTier>, petitionId: int, title: string): (b: bool)
    ensures b <==> exists t :: t in ts && t.petitionId == petitionId && t.title == title
  {
    |Select(ts, (t: SupportTier) => t.title == title && t.petitionId == petitionId)| > 0
  }

  /** A tier with this id belongs to this petition. */
  function TierInPetition(ts: seq<SupportTier>, tierId: int, petitionId: int): (b: bool)
    ensures b <==> exists t :: t in ts && t.id == tierId && t.petitionId == petitionId
  {
    |Select(ts, IsTierOf(tierId, petitionId))| > 0
  }

  /** `supportersExistForTier`: some pledge references the tier, whatever its petition. */
  function SupportersExistForTier(sups: seq<Supporter>, tierId: int): (b: bool)
    ensures b <==> exists s :: s in sups && s.supportTierId == tierId
  {
    |Select(sups, OfTier(tierId))| > 0
  }

  // ---------------------------------------------------------------- add

  datatype AddResult = AddResult(error: Option<string>, tiers: seq<SupportTier>, nextTierId: int)

  /** `addSupportTier`: the count check, then the title check, then the insert. */
  function AddSupportTier(ts: seq<SupportTier>, nextTierId: int, petitionId: int, input: TierInput): (r: AddResult)
    ensures r.error.None? <==> |TiersOf(ts, petitionId)| < MaxTiers && !TitleTaken(ts, petitionId, input.title)
    ensures r.error == Some(TooManyTiers) <==> |TiersOf(ts, petitionId)| >= MaxTiers
    ensures r.error.Some? ==> r.error == Some(TooManyTiers) || r.error == Some(TitleNotUnique)
    ensures r.error.Some? ==> r.tiers == ts && r.nextTierId == nextTierId
    ensures r.error.None? ==>
      && r.tiers == ts + [SupportTier(nextTierId, petitionId, input.title, input.description, input.cost)]
      && r.nextTierId == nextTierId + 1
  {
    if |TiersOf(ts, petitionId)| >= MaxTiers then AddResult(Some(TooManyTiers), ts, nextTierId)
    else if TitleTaken(ts, petitionId, input.title) then AddResult(Some(TitleNotUnique), ts, nextTierId)
    else
      var tier := SupportTier(nextTierId, petitionId, input.title, input.description, input.cost);
      AddResult(None, ts + [tier], nextTierId + 1)
  }

  /** No petition has more than three tiers. */
  ghost predicate AtMostThreeTiers(ts: seq<SupportTier>) {
    forall p :: |TiersOf(ts, p)| <= MaxTiers
  }

  /** No two tiers of one petition share a title. */
  ghost predicate TitlesUniqueWithinPetition(ts: seq<SupportTier>) {
    forall i, j :: 0 <= i < j < |ts| && ts[i].petitionId == ts[j].petitionId ==> ts[i].title != ts[j].title
  }

  lemma TiersOfAppend(ts: seq<SupportTier>, t: SupportTier, p: int)
    ensures TiersOf(ts + [t], p) == TiersOf(ts, p) + (if t.petitionId == p then [t] else [])
  {
    SelectAppend(ts, t, OfPetition(p));
  }

  /** Adding a tier never takes a petition past three tiers. */
  lemma AddKeepsAtMostThreeTiers(ts: seq<SupportTier>, nextTierId: int, petitionId: int, input: TierInput)
    requires AtMostThreeTiers(ts)
    ensures AtMostThreeTiers(AddSupportTier(ts, nextTierId, petitionId, input).tiers)
  {
    var r := AddSupportTier(ts, nextTierId, petitionId, input);
    if r.error.None? {
      forall p ensures |TiersOf(r.tiers, p)| <= MaxTiers {
        TiersOfAppend(ts, r.tiers[|ts|], p);
      }
    }
  }

  /** Adding a tier never gives two tiers of one petition the same title. */
  lemma AddKeepsTitlesUnique(ts: seq<SupportTier>, nextTierId: int, petitionId: int, input: TierInput)
    requires TitlesUniqueWithinPetition(ts)
    ensures TitlesUniqueWithinPetition(AddSupportTier(ts, nextTierId, petitionId, input).tiers)
  {
    var r := AddSupportTier(ts, nextTierId, petitionId, input);
    if r.error.None? {
      forall i, j | 0 <= i < j < |r.tiers| && r.tiers[i].petitionId == r.tiers[j].petitionId
        ensures r.tiers[i].title != r.tiers[j].title
      {
        if j == |ts| {
          assert ts[i] in ts;
        }
      }
    }
  }

  // ---------------------------------------------------------------- edit

  /** The `SET` list for a patch: each provided field's column with its value, in the order title, description, cost. */
  function TierAssignments(patch: TierPatch): seq<(string, SqlValue)> {
    (if patch.title.Some? then [("title", Text(patch.title.value))] else [])
    + (if patch.description.Some? then [("description", Text(patch.description.value))] else [])
    + (if patch.cost.Some? then [("cost", Number(patch.cost.value))] else [])
  }

  /** `updates`/`values` as `editSupportTier` pushes them: one `column = ?` per provided field, beside its value. */
  method BuildTierUpdate(patch: TierPatch) returns (updates: seq<string>, values: seq<SqlValue>)
    ensures |updates| == |values| == |TierAssignments(patch)|
    ensures forall i :: 0 <= i < |updates| ==>
      updates[i] == TierAssignments(patch)[i].0 + " = ?" && values[i] == TierAssignments(patch)[i].1
  {
    updates, values := [], [];
    if patch.title.Some? {
      updates, values := updates + ["title = ?"], values + [Text(patch.title.value)];
    }
    if patch.description.Some? {
      updates, values := updates + ["description = ?"], values + [Text(patch.description.value)];
    }
    if patch.cost.Some? {
      updates, values := updates + ["cost = ?"], values + [Number(patch.cost.value)];
    }
  }

  /** The effect of one `column = value` part on a row. */
  function SetColumn(t: SupportTier, column: string, value: SqlValue): SupportTier {
    match value
    case Text(s) =>
      if column == "title" then t.(title := s)
      else if column == "description" then t.(description := s)
      else t
    case Number(n) => if column == "cost" then t.(cost := n) else t
  }

  /** The effect of a whole `SET` list on a row, part by part. */
  function ApplyTier(t: SupportTier, assignments: seq<(string, SqlValue)>): SupportTier
    decreases |assignments|
  {
    if assignments == [] then t
    else ApplyTier(SetColumn(t, assignments[0].0, assignments[0].1), assignments[1..])
  }

  function Applying(assignments: seq<(string, SqlValue)>): SupportTier -> SupportTier {
    (t: SupportTier) => ApplyTier(t, assignments)
  }

  /** The row with exactly the provided fields replaced. */
  function PatchedTier(t: SupportTier, patch: TierPatch): SupportTier {
    t.(title := patch.title.GetOr(t.title),
       description := patch.description.GetOr(t.description),
       cost := patch.cost.GetOr(t.cost))
  }

  function NoFieldProvided(patch: TierPatch): bool {
    patch.title.None? && patch.description.None? && patch.cost.None?
  }

  lemma {:induction false} ApplyTierConcat(t: SupportTier, a: seq<(string, SqlValue)>, b: seq<(string, SqlValue)>)
    ensures ApplyTier(t, a + b) == ApplyTier(ApplyTier(t, a), b)
    decreases |a|
  {
    if a != [] {
      assert a + b != [] && (a + b)[0] == a[0] && (a + b)[1..] == a[1..] + b;
      ApplyTierConcat(SetColumn(t, a[0].0, a[0].1), a[1..], b);
    } else {
      assert a + b == b;
    }
  }

  /** Executing the `SET` list a patch builds changes exactly the provided fields. */
  lemma ApplyTierAssignments(t: SupportTier, patch: TierPatch)
    ensures ApplyTier(t, TierAssignments(patch)) == PatchedTier(t, patch)
  {
    var a := if patch.title.Some? then [("title", Text(patch.title.value))] else [];
    var b := if patch.description.Some? then [("description", Text(patch.description.value))] else [];
    var c := if patch.cost.Some? then [("cost", Number(patch.cost.value))] else [];
    ApplyTierConcat(t, a + b, c);
    ApplyTierConcat(t, a, b);
  }

  lemma AssignmentsEmpty(patch: TierPatch)
    ensures TierAssignments(patch) == [] <==> NoFieldProvided(patch)
  {
  }

  lemma {:induction false} ApplyTierKeepsKeys(t: SupportTier, a: seq<(string, SqlValue)>)
    ensures ApplyTier(t, a).id == t.id && ApplyTier(t, a).petitionId == t.petitionId
    decreases |a|
  {
    if a != [] {
      ApplyTierKeepsKeys(SetColumn(t, a[0].0, a[0].1), a[1..]);
    }
  }

  datatype EditResult = EditResult(error: Option<string>, tiers: seq<SupportTier>)

  /** `editSupportTier`: refused while a pledge references the tier, or when no field is provided; otherwise `UPDATE ... WHERE id = ?`. */
  function EditSupportTier(ts: seq<SupportTier>, sups: seq<Supporter>, tierId: int, patch: TierPatch): (r: EditResult)
    ensures r.error.None? <==> !SupportersExistForTier(sups, tierId) && !NoFieldProvided(patch)
    ensures SupportersExistForTier(sups, tierId) ==> r.error == Some(SupporterExists)
    ensures r.error.Some? ==> r.tiers == ts
    ensures |r.tiers| == |ts|
    ensures r.error.None? ==> forall i :: 0 <= i < |ts| ==>
      r.tiers[i] == if ts[i].id == tierId then PatchedTier(ts[i], patch) else ts[i]
  {
    if SupportersExistForTier(sups, tierId) then EditResult(Some(SupporterExists), ts)
    else
      var a := TierAssignments(patch);
      AssignmentsEmpty(patch);
      if a == [] then EditResult(Some(NoValidFields), ts)
      else
        var after := UpdateWhere(ts, HasId(tierId), Applying(a));
        assert forall i :: 0 <= i < |ts| ==> after[i] == if ts[i].id == tierId then PatchedTier(ts[i], patch) else ts[i] by {
          forall i | 0 <= i < |ts| ensures after[i] == if ts[i].id == tierId then PatchedTier(ts[i], patch) else ts[i] {
            ApplyTierAssignments(ts[i], patch);
          }
        }
        EditResult(None, after)
  }

  /** Editing a tier never moves it to another petition, so every petition keeps its number of tiers. */
  lemma EditKeepsTierCounts(ts: seq<SupportTier>, sups: seq<Supporter>, tierId: int, patch: TierPatch, p: int)
    ensures |TiersOf(EditSupportTier(ts, sups, tierId, patch).tiers, p)| == |TiersOf(ts, p)|
  {
    var r := EditSupportTier(ts, sups, tierId, patch);
    if r.error.None? {
      var a := TierAssignments(patch);
      forall x ensures OfPetition(p)(Applying(a)(x)) == OfPetition(p)(x) {
        ApplyTierKeepsKeys(x, a);
      }
      SelectUpdateCount(ts, HasId(tierId), Applying(a), OfPetition(p));
    }
  }

  // ---------------------------------------------------------------- delete

  datatype DeleteResult = DeleteResult(error: Option<string>, status: Option<int>, tiers: seq<SupportTier>)

  /** `deleteSupportTier`: refused (403) when the petition has at most one tier, then `DELETE ... WHERE id = ? AND petition_id = ?`, 404 when no row matched. */
  function DeleteSupportTier(ts: seq<SupportTier>, petitionId: int, tierId: int): (r: DeleteResult)
    ensures |TiersOf(ts, petitionId)| <= 1 ==> r == DeleteResult(Some(OnlyTier), Some(403), ts)
    ensures r.error.None? <==> |TiersOf(ts, petitionId)| > 1 && TierInPetition(ts, tierId, petitionId)
    ensures r.error.Some? ==> r.tiers == ts && (r.status == Some(403) || r.status == Some(404))
    ensures r.status == Some(404) <==> |TiersOf(ts, petitionId)| > 1 && !TierInPetition(ts, tierId, petitionId)
    ensures r.error.None? ==> r.status.None?
    ensures r.error.None? ==> forall t :: t in r.tiers <==> t in ts && !(t.id == tierId && t.petitionId == petitionId)
  {
    if |TiersOf(ts, petitionId)| <= 1 then DeleteResult(Some(OnlyTier), Some(403), ts)
    else
      var after := DeleteWhere(ts, IsTierOf(tierId, petitionId));
      if |after| == |ts| then DeleteResult(Some(NotFoundOrForbidden), Some(404), ts)
      else DeleteResult(None, None, after)
  }

  /** With distinct tier ids, at most one row has a given id within a petition. */
  lemma {:induction false} AtMostOneMatch(ts: seq<SupportTier>, tierId: int, petitionId: int)
    requires TierIdsDistinct(ts)
    ensures |Select(ts, IsTierOf(tierId, petitionId))| <= 1
  {
    if ts != [] {
      var init, last := ts[..|ts| - 1], ts[|ts| - 1];
      AtMostOneMatch(init, tierId, petitionId);
      SelectLast(ts, IsTierOf(tierId, petitionId));
    }
  }

  /** Deleting a tier never leaves a petition that had tiers without one. */
  lemma DeleteKeepsOneTier(ts: seq<SupportTier>, petitionId: int, tierId: int, p: int)
    requires TierIdsDistinct(ts)
    requires |TiersOf(ts, p)| >= 1
    ensures |TiersOf(DeleteSupportTier(ts, petitionId, tierId).tiers, p)| >= 1
  {
    var r := DeleteSupportTier(ts, petitionId, tierId);
    if r.error.None? {
      if p == petitionId {
        DeleteCount(ts, OfPetition(p), IsTierOf(tierId, petitionId));
        AtMostOneMatch(ts, tierId, petitionId);
      } else {
        DeleteDisjoint(ts, OfPetition(p), IsTierOf(tierId, petitionId));
      }
    }
  }

  /** Deleting rows keeps tier ids distinct and below any bound they were below. */
  lemma {:induction false} DeleteKeepsTierIds(ts: seq<SupportTier>, cond: SupportTier -> bool, bound: int)
    requires TierIdsDistinct(ts)
    requires forall i :: 0 <= i < |ts| ==> ts[i].id < bound
    ensures TierIdsDistinct(DeleteWhere(ts, cond))
    ensures forall i :: 0 <= i < |DeleteWhere(ts, cond)| ==> DeleteWhere(ts, cond)[i].id < bound
  {
    if ts != [] {
      var init, last := ts[..|ts| - 1], ts[|ts| - 1];
      DeleteKeepsTierIds(init, cond, bound);
      DeleteLast(ts, cond);
      var kept := DeleteWhere(init, cond);
      assert forall x :: x in kept ==> x.id != last.id by {
        forall x | x in kept ensures x.id != last.id {
          var k :| 0 <= k < |init| && init[k] == x;
          assert ts[k] == x;
        }
      }
      if !cond(last) {
        var r := kept + [last];
        forall i, j | 0 <= i < j < |r| ensures r[i].id != r[j].id {
          if j == |kept| {
            assert r[i] in kept;
          } else {
            assert r[i] == kept[i] && r[j] == kept[j];
          }
        }
        forall i | 0 <= i < |r| ensures r[i].id < bound {
          if i < |kept| {
            assert r[i] == kept[i];
          }
        }
      }
    }
  }
}
