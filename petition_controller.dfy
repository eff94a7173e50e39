/**
 * The petition route handlers: the listing, which turns the query string into the
 * arguments of the two listing queries, and five handlers that answer 501.
 */
module PetitionController {
  import opened Wrappers
  import opened Schema
  import opened Http
  import opened Relational
  import PetitionModel
  import Db

  /** `categoryIds` as the query parser hands it over: absent or empty, one value, or repeated. */
  datatype CategoryParam = NoCategory | OneCategory(id: int) | CategoryList(ids: seq<int>)

  /**
   * The listing's query parameters, each already converted with `Number`/`String`; `None`
   * is a parameter that is absent or the empty string, the falsy cases.
   */
  datatype ListingQuery = ListingQuery(
    startIndex: Option<nat>,
    count: Option<nat>,
    q: Option<string>,
    categoryIds: CategoryParam,
    supportingCost: Option<int>,
    ownerId: Option<int>,
    supporterId: Option<int>,
    sortBy: Option<string>)

  /** The arguments the handler passes to the two listing queries. */
  datatype Arguments = Arguments(startIndex: nat, count: Option<nat>, filter: PetitionModel.Filter, sortBy: string)

  const DefaultSort: string := "CREATED_ASC"

  /** The handler's defaulting: a falsy parameter takes 0, null, `""`, or `CREATED_ASC`. */
  function ListingArguments(qp: ListingQuery): (a: Arguments)
    ensures qp.startIndex.Some? ==> a.startIndex == qp.startIndex.value
    ensures qp.startIndex.None? ==> a.startIndex == 0
    ensures a.count == qp.count
    ensures qp.q.Some? ==> a.filter.q == qp.q.value
    ensures qp.q.None? ==> a.filter.q == ""
    ensures qp.categoryIds.NoCategory? ==> a.filter.categoryIds.None?
    ensures qp.categoryIds.OneCategory? ==> a.filter.categoryIds == Some([qp.categoryIds.id])
    ensures qp.categoryIds.CategoryList? ==> a.filter.categoryIds == Some(qp.categoryIds.ids)
    ensures qp.supportingCost.Some? ==> a.filter.supportingCost == qp.supportingCost.value
    ensures qp.supportingCost.None? ==> a.filter.supportingCost == 0
    ensures a.filter.ownerId == qp.ownerId && a.filter.supporterId == qp.supporterId
    ensures qp.sortBy.Some? && qp.sortBy.value != "" ==> a.sortBy == qp.sortBy.value
    ensures qp.sortBy.None? || qp.sortBy.value == "" ==> a.sortBy == DefaultSort
  {
    var categoryIds := match qp.categoryIds
      case NoCategory => None
      case OneCategory(id) => Some([id])
      case CategoryList(ids) => Some(ids);
    Arguments(
      qp.startIndex.GetOr(0),
      qp.count,
      PetitionModel.Filter(qp.q.GetOr(""), categoryIds, qp.supportingCost.GetOr(0), qp.ownerId, qp.supporterId),
      if qp.sortBy.Some? && qp.sortBy.value != "" then qp.sortBy.value else DefaultSort)
  }

  /** With no parameter given the listing asks for every petition, from offset 0, unbounded. */
  lemma AbsentParametersTakeDefaults()
    ensures ListingArguments(ListingQuery(None, None, None, NoCategory, None, None, None, None))
      == Arguments(0, None, PetitionModel.Filter("", None, 0, None, None), DefaultSort)
  {
  }

  /** A listing answer: the status, the page of petitions and the total sent with a 200. */
  datatype Listing = Listing(status: int, petitions: seq<Petition>, count: nat)

  /** `getAllPetitions`: the body schema, then the page and the total; an empty page is 404. */
  function GetAllPetitionsResponse(s: State, bodyValid: bool, qp: ListingQuery): (r: Listing)
    ensures r.status in {BadRequest, NotFound, Ok}
    ensures r.status == BadRequest <==> !bodyValid
    ensures var a := ListingArguments(qp);
      r.status == NotFound <==> bodyValid && PetitionModel.GetPetitions(s.petitions, s.supporters, a.startIndex, a.count, a.filter) == []
    ensures r.status == Ok ==>
      && r.petitions != []
      && (forall p :: p in r.petitions ==> p in s.petitions && PetitionModel.Matches(ListingArguments(qp).filter, p, s.supporters))
      && |r.petitions| <= r.count
      && (qp.count.Some? ==> |r.petitions| <= qp.count.value)
    ensures var a := ListingArguments(qp);
      r.status == NotFound <==>
        bodyValid && (a.startIndex >= PetitionModel.GetTotalPetitions(s.petitions, s.supporters, a.filter) || a.count == Some(0))
    ensures var a := ListingArguments(qp);
      r.status == Ok ==>
        && r.petitions == PetitionModel.GetPetitions(s.petitions, s.supporters, a.startIndex, a.count, a.filter)
        && r.count == PetitionModel.GetTotalPetitions(s.petitions, s.supporters, a.filter)
  {
    if !bodyValid then Listing(BadRequest, [], 0)
    else
      var a := ListingArguments(qp);
      var petitions := PetitionModel.GetPetitions(s.petitions, s.supporters, a.startIndex, a.count, a.filter);
      var total := PetitionModel.GetTotalPetitions(s.petitions, s.supporters, a.filter);
      PetitionModel.PageWithinTotal(s.petitions, s.supporters, a.startIndex, a.count, a.filter);
      PetitionModel.TotalIsUnpaginatedPage(s.petitions, s.supporters, a.filter);
      if petitions == [] then Listing(NotFound, [], 0) else Listing(Ok, petitions, total)
  }

  /** The total sent with a page is the number of matching petitions, whatever page was asked for. */
  lemma ListingCountIsMatchingPetitions(s: State, bodyValid: bool, qp: ListingQuery)
    requires WellFormed(s)
    ensures var r := GetAllPetitionsResponse(s, bodyValid, qp);
      r.status == Ok ==> r.count == |RowSet(s.petitions, PetitionModel.MatchedBy(ListingArguments(qp).filter, s.supporters))|
  {
    if bodyValid {
      PetitionModel.TotalCountsMatchingPetitions(s.petitions, s.supporters, ListingArguments(qp).filter);
    }
  }

  /** With no parameter given and at least one petition, the listing is every petition in table order. */
  lemma AbsentParametersListEverything(s: State)
    requires s.petitions != []
    ensures GetAllPetitionsResponse(s, true, ListingQuery(None, None, None, NoCategory, None, None, None, None))
      == Listing(Ok, s.petitions, |s.petitions|)
  {
    var f := PetitionModel.Filter("", None, 0, None, None);
    AbsentParametersTakeDefaults();
    PetitionModel.FalsyFilterKeepsAll(s.petitions, s.supporters);
    PetitionModel.TotalIsUnpaginatedPage(s.petitions, s.supporters, f);
    PetitionModel.PageWithinTotal(s.petitions, s.supporters, 0, None, f);
  }

  /** A start index at the total gives 404 even though petitions match. */
  lemma PastTheEndIsNotFound(s: State, qp: ListingQuery)
    requires qp.startIndex.Some?
    requires qp.startIndex.value == PetitionModel.GetTotalPetitions(s.petitions, s.supporters, ListingArguments(qp).filter)
    ensures GetAllPetitionsResponse(s, true, qp).status == NotFound
  {
    var a := ListingArguments(qp);
    PetitionModel.TotalIsUnpaginatedPage(s.petitions, s.supporters, a.filter);
  }

  method GetAllPetitions(db: Db.Database, bodyValid: bool, qp: ListingQuery) returns (r: Listing)
    ensures r == GetAllPetitionsResponse(db.State(), bodyValid, qp)
  {
    if !bodyValid {
      return Listing(BadRequest, [], 0);
    }
    var a := ListingArguments(qp);
    var petitions := db.GetPetitions(a.startIndex, a.count, a.filter);
    var total := db.GetTotalPetitions(a.filter);
    if petitions == [] {
      return Listing(NotFound, [], 0);
    }
    return Listing(Ok, petitions, total);
  }
}
