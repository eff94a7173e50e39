/**
 * The petition listing queries: the page query and the count query share one `WHERE`
 * clause, a conjunction of up to five conditions, each added only when its argument is
 * truthy; the page query then takes `LIMIT startIndex, count` of the selected rows.
 */
module PetitionModel {
  import opened Wrappers
  import opened Schema
  import opened Relational
  import opened Text

  /** The five filter arguments, as the listing handler passes them; `None` is null. */
  datatype Filter = Filter(
    q: string,
    categoryIds: Option<seq<int>>,
    supportingCost: int,
    ownerId: Option<int>,
    supporterId: Option<int>)

  /** One `AND` condition of the `WHERE 1=1 ...` clause. */
  datatype Clause =
    | TitleOrDescriptionLike(q: string)
    | CategoryIn(ids: seq<int>)
    | CostAtMost(bound: int)
    | OwnedBy(ownerId: int)
    | SupportedBy(userId: int)

  /** JavaScript truthiness of a nullable number: null and 0 are falsy. */
  predicate TruthyNumber(n: Option<int>) {
    n.Some? && n.value != 0
  }

  /** The conditions appended for a filter, in the order the queries append them. */
  function ActiveClauses(f: Filter): seq<Clause> {
    (if f.q != "" then [TitleOrDescriptionLike(f.q)] else [])
    + (if f.categoryIds.Some? then [CategoryIn(f.categoryIds.value)] else [])
    + (if f.supportingCost != 0 then [CostAtMost(f.supportingCost)] else [])
    + (if TruthyNumber(f.ownerId) then [OwnedBy(f.ownerId.value)] else [])
    + (if TruthyNumber(f.supporterId) then [SupportedBy(f.supporterId.value)] else [])
  }

  /** The `if (...) { query += ' AND ...' }` sequence both listing queries run. */
  method BuildClauses(f: Filter) returns (clauses: seq<Clause>)
    ensures clauses == ActiveClauses(f)
  {
    clauses := [];
    if f.q != "" {
      clauses := clauses + [TitleOrDescriptionLike(f.q)];
    }
    if f.categoryIds.Some? {
      clauses := clauses + [CategoryIn(f.categoryIds.value)];
    }
    if f.supportingCost != 0 {
      clauses := clauses + [CostAtMost(f.supportingCost)];
    }
    if TruthyNumber(f.ownerId) {
      clauses := clauses + [OwnedBy(f.ownerId.value)];
    }
    if TruthyNumber(f.supporterId) {
      clauses := clauses + [SupportedBy(f.supporterId.value)];
    }
  }

  /** One condition on a petition row; `id IN (SELECT petition_id FROM supporter WHERE user_id = ?)` reads the supporter table. */
  predicate Holds(c: Clause, p: Petition, sups: seq<Supporter>) {
    match c
    case TitleOrDescriptionLike(q) => Contains(p.title, q) || Contains(p.description, q)
    case CategoryIn(ids) => p.categoryId in ids
    case CostAtMost(bound) => p.supportingCost <= bound
    case OwnedBy(ownerId) => p.ownerId == ownerId
    case SupportedBy(userId) => exists s :: s in sups && s.userId == userId && s.petitionId == p.id
  }

  predicate HoldsAll(clauses: seq<Clause>, p: Petition, sups: seq<Supporter>) {
    forall i :: 0 <= i < |clauses| ==> Holds(clauses[i], p, sups)
  }

  /** The filter read argument by argument: each one constrains the row only when it is truthy. */
  predicate Matches(f: Filter, p: Petition, sups: seq<Supporter>) {
    && (f.q == "" || Contains(p.title, f.q) || Contains(p.description, f.q))
    && (f.categoryIds.None? || p.categoryId in f.categoryIds.value)
    && (f.supportingCost == 0 || p.supportingCost <= f.supportingCost)
    && (!TruthyNumber(f.ownerId) || p.ownerId == f.ownerId.value)
    && (!TruthyNumber(f.supporterId) || exists s :: s in sups && s.userId == f.supporterId.value && s.petitionId == p.id)
  }

  lemma HoldsAllSingle(c: Clause, p: Petition, sups: seq<Supporter>)
    ensures HoldsAll([c], p, sups) <==> Holds(c, p, sups)
  {
    assert [c][0] == c;
  }

  lemma HoldsAllConcat(a: seq<Clause>, b: seq<Clause>, p: Petition, sups: seq<Supporter>)
    ensures HoldsAll(a + b, p, sups) <==> HoldsAll(a, p, sups) && HoldsAll(b, p, sups)
  {
    if HoldsAll(a, p, sups) && HoldsAll(b, p, sups) {
      forall i | 0 <= i < |a + b| ensures Holds((a + b)[i], p, sups) {
        if i >= |a| {
          assert (a + b)[i] == b[i - |a|];
        }
      }
    }
    if HoldsAll(a + b, p, sups) {
      forall i | 0 <= i < |b| ensures Holds(b[i], p, sups) {
        assert (a + b)[|a| + i] == b[i];
      }
      forall i | 0 <= i < |a| ensures Holds(a[i], p, sups) {
        assert (a + b)[i] == a[i];
      }
    }
  }

  /** The appended conditions say exactly what the filter arguments mean. */
  lemma ClausesMeanFilter(f: Filter, p: Petition, sups: seq<Supporter>)
    ensures HoldsAll(ActiveClauses(f), p, sups) <==> Matches(f, p, sups)
  {
    var a := if f.q != "" then [TitleOrDescriptionLike(f.q)] else [];
    var b := if f.categoryIds.Some? then [CategoryIn(f.categoryIds.value)] else [];
    var c := if f.supportingCost != 0 then [CostAtMost(f.supportingCost)] else [];
    var d := if TruthyNumber(f.ownerId) then [OwnedBy(f.ownerId.value)] else [];
    var e := if TruthyNumber(f.supporterId) then [SupportedBy(f.supporterId.value)] else [];
    assert ActiveClauses(f) == a + b + c + d + e;
    assert HoldsAll([], p, sups);
    if f.q != "" { HoldsAllSingle(TitleOrDescriptionLike(f.q), p, sups); }
    if f.categoryIds.Some? { HoldsAllSingle(CategoryIn(f.categoryIds.value), p, sups); }
    if f.supportingCost != 0 { HoldsAllSingle(CostAtMost(f.supportingCost), p, sups); }
    if TruthyNumber(f.ownerId) { HoldsAllSingle(OwnedBy(f.ownerId.value), p, sups); }
    if TruthyNumber(f.supporterId) { HoldsAllSingle(SupportedBy(f.supporterId.value), p, sups); }
    assert HoldsAll(a, p, sups) <==> (f.q == "" || Contains(p.title, f.q) || Contains(p.description, f.q));
    assert HoldsAll(b, p, sups) <==> (f.categoryIds.None? || p.categoryId in f.categoryIds.value);
    assert HoldsAll(c, p, sups) <==> (f.supportingCost == 0 || p.supportingCost <= f.supportingCost);
    assert HoldsAll(d, p, sups) <==> (!TruthyNumber(f.ownerId) || p.ownerId == f.ownerId.value);
    assert HoldsAll(e, p, sups) <==>
      (!TruthyNumber(f.supporterId) || exists s :: s in sups && s.userId == f.supporterId.value && s.petitionId == p.id);
    HoldsAllConcat(a + b + c + d, e, p, sups);
    HoldsAllConcat(a + b + c, d, p, sups);
    HoldsAllConcat(a + b, c, p, sups);
    HoldsAllConcat(a, b, p, sups);
  }

  function MatchedBy(f: Filter, sups: seq<Supporter>): Petition -> bool {
    (p: Petition) => Matches(f, p, sups)
  }

  function Satisfying(clauses: seq<Clause>, sups: seq<Supporter>): Petition -> bool {
    (p: Petition) => HoldsAll(clauses, p, sups)
  }

  /** `SELECT * FROM petition WHERE 1=1 ...`: the petitions satisfying every appended condition, in table order. */
  function FilterPetitions(ps: seq<Petition>, sups: seq<Supporter>, f: Filter): (r: seq<Petition>)
    ensures forall p :: p in r <==> p in ps && Matches(f, p, sups)
  {
    var r := Select(ps, Satisfying(ActiveClauses(f), sups));
    assert forall p :: p in r <==> p in ps && Matches(f, p, sups) by {
      forall p ensures p in r <==> p in ps && Matches(f, p, sups) {
        ClausesMeanFilter(f, p, sups);
      }
    }
    r
  }

  /** With every argument falsy, the listing keeps every petition. */
  lemma FalsyFilterKeepsAll(ps: seq<Petition>, sups: seq<Supporter>)
    ensures FilterPetitions(ps, sups, Filter("", None, 0, None, None)) == ps
  {
    var f := Filter("", None, 0, None, None);
    assert ActiveClauses(f) == [];
    SelectAll(ps, Satisfying(ActiveClauses(f), sups));
  }

  /** `LIMIT startIndex, count`: the rows from offset `startIndex`, at most `count` of them; a null count leaves the page unbounded. */
  function Page<T>(rows: seq<T>, startIndex: nat, count: Option<nat>): (r: seq<T>)
    ensures |r| == if startIndex >= |rows| then 0 else
      match count
      case None => |rows| - startIndex
      case Some(c) => if c < |rows| - startIndex then c else |rows| - startIndex
    ensures |r| > 0 ==> startIndex + |r| <= |rows|
    ensures forall i :: 0 <= i < |r| ==> r[i] == rows[startIndex + i]
  {
    if startIndex >= |rows| then []
    else
      match count
      case None => rows[startIndex..]
      case Some(c) => if c < |rows| - startIndex then rows[startIndex..startIndex + c] else rows[startIndex..]
  }

  /** `getPetitions`: a page of the filtered petitions (the `ORDER BY` splice is not modelled; table order is kept). */
  function GetPetitions(ps: seq<Petition>, sups: seq<Supporter>, startIndex: nat, count: Option<nat>, f: Filter): (r: seq<Petition>)
    ensures forall p :: p in r ==> p in ps && Matches(f, p, sups)
    ensures count.Some? ==> |r| <= count.value
    ensures startIndex >= |FilterPetitions(ps, sups, f)| ==> r == []
    ensures startIndex < |FilterPetitions(ps, sups, f)| ==>
      |r| == if count.Some? && count.value < |FilterPetitions(ps, sups, f)| - startIndex then count.value
             else |FilterPetitions(ps, sups, f)| - startIndex
    ensures forall i :: 0 <= i < |r| ==>
      startIndex + i < |FilterPetitions(ps, sups, f)| && r[i] == FilterPetitions(ps, sups, f)[startIndex + i]
  {
    Page(FilterPetitions(ps, sups, f), startIndex, count)
  }

  /** `getTotalPetitions`: `COUNT(*)` over the same `WHERE` clause. */
  function GetTotalPetitions(ps: seq<Petition>, sups: seq<Supporter>, f: Filter): (n: nat)
    ensures n <= |ps|
  {
    |Select(ps, Satisfying(ActiveClauses(f), sups))|
  }

  /** The count query counts exactly the rows the page query returns when it is not paginated. */
  lemma TotalIsUnpaginatedPage(ps: seq<Petition>, sups: seq<Supporter>, f: Filter)
    ensures GetTotalPetitions(ps, sups, f) == |GetPetitions(ps, sups, 0, None, f)|
  {
  }

  /** A page never holds more rows than the total, and the page from offset 0 with no count is the whole filtered set. */
  lemma PageWithinTotal(ps: seq<Petition>, sups: seq<Supporter>, startIndex: nat, count: Option<nat>, f: Filter)
    ensures |GetPetitions(ps, sups, startIndex, count, f)| <= GetTotalPetitions(ps, sups, f)
    ensures GetPetitions(ps, sups, 0, None, f) == FilterPetitions(ps, sups, f)
  {
  }

  predicate PetitionIdsDistinct(ps: seq<Petition>) {
    forall i, j :: 0 <= i < j < |ps| ==> ps[i].id != ps[j].id
  }

  /** With distinct petition ids, the total is the number of petitions the filter keeps. */
  lemma TotalCountsMatchingPetitions(ps: seq<Petition>, sups: seq<Supporter>, f: Filter)
    requires PetitionIdsDistinct(ps)
    ensures GetTotalPetitions(ps, sups, f) == |RowSet(ps, MatchedBy(f, sups))|
  {
    forall p | p in ps ensures Satisfying(ActiveClauses(f), sups)(p) == MatchedBy(f, sups)(p) {
      ClausesMeanFilter(f, p, sups);
    }
    assert forall i, j :: 0 <= i < j < |ps| ==> ps[i] != ps[j];
    SelectCardinalityOf(ps, Satisfying(ActiveClauses(f), sups), MatchedBy(f, sups));
  }

  /** The listing's total is the number of matching petitions, whichever page is asked for; an empty page can sit beside a positive total. */
  lemma EmptyPageBesidePositiveTotal(ps: seq<Petition>, sups: seq<Supporter>, f: Filter)
    requires GetTotalPetitions(ps, sups, f) > 0
    ensures GetPetitions(ps, sups, GetTotalPetitions(ps, sups, f), None, f) == []
    ensures GetPetitions(ps, sups, 0, Some(0), f) == []
  {
  }

  function OwnedPetition(petitionId: int, userId: int): Petition -> bool {
    (p: Petition) => p.id == petitionId && p.ownerId == userId
  }

  /**
   * The ownership test the handlers call as `checkPetitionOwner(petitionId, userId)`: a
   * petition with this id is owned by this user.
   */
  function IsOwner(ps: seq<Petition>, petitionId: int, userId: int): (b: bool)
    ensures b <==> exists p :: p in ps && p.id == petitionId && p.ownerId == userId
  {
    |Select(ps, OwnedPetition(petitionId, userId))| > 0
  }

  function WithId(petitionId: int): Petition -> bool {
    (p: Petition) => p.id == petitionId
  }

  /** A petition row with this id exists. */
  function PetitionExists(ps: seq<Petition>, petitionId: int): (b: bool)
    ensures b <==> exists p :: p in ps && p.id == petitionId
  {
    |Select(ps, WithId(petitionId))| > 0
  }
}
