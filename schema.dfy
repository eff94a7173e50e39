/**
 * The rows of the relational schema, with the columns the queries read or write, and a
 * value snapshot of the whole database. Column names follow the tables: `first_name`
 * becomes `firstName`, `support_tier_id` becomes `supportTierId`, and so on.
 */
module Schema {
  import opened Wrappers

  /** A row of `user`; `password` holds the hash. */
  datatype User = User(
    id: int,
    email: string,
    firstName: string,
    lastName: string,
    imageFilename: Option<string>,
    password: string,
    authToken: Option<string>)

  /** A row of `petition`, with the columns the listing filters and the image handlers use. */
  datatype Petition = Petition(
    id: int,
    title: string,
    description: string,
    categoryId: int,
    ownerId: int,
    supportingCost: int,
    imageFilename: Option<string>)

  /** A row of `support_tier`. */
  datatype SupportTier = SupportTier(
    id: int,
    petitionId: int,
    title: string,
    description: string,
    cost: int)

  /** A row of `supporter`: one pledge. */
  datatype Supporter = Supporter(
    id: int,
    petitionId: int,
    supportTierId: int,
    userId: int,
    message: Option<string>,
    timestamp: int)

  /** A value of a query parameter. */
  datatype SqlValue = Text(text: string) | Number(number: int)

  /** The four tables and the next auto-increment id of the three that are inserted into. */
  datatype State = State(
    users: seq<User>,
    petitions: seq<Petition>,
    supportTiers: seq<SupportTier>,
    supporters: seq<Supporter>,
    nextUserId: int,
    nextTierId: int,
    nextSupporterId: int)

  /** Primary keys: ids are distinct within each table and below the table's next auto-increment id. */
  predicate WellFormed(s: State) {
    && (forall i, j :: 0 <= i < j < |s.users| ==> s.users[i].id != s.users[j].id)
    && (forall i :: 0 <= i < |s.users| ==> s.users[i].id < s.nextUserId)
    && (forall i, j :: 0 <= i < j < |s.petitions| ==> s.petitions[i].id != s.petitions[j].id)
    && TierIdsDistinct(s.supportTiers)
    && (forall i :: 0 <= i < |s.supportTiers| ==> s.supportTiers[i].id < s.nextTierId)
    && (forall i, j :: 0 <= i < j < |s.supporters| ==> s.supporters[i].id != s.supporters[j].id)
    && (forall i :: 0 <= i < |s.supporters| ==> s.supporters[i].id < s.nextSupporterId)
  }

  predicate TierIdsDistinct(ts: seq<SupportTier>) {
    forall i, j :: 0 <= i < j < |ts| ==> ts[i].id != ts[j].id
  }

  /** Replacing the tier rows by rows with distinct ids below the counter keeps the keys valid. */
  lemma ReplaceTiersKeepsWellFormed(s: State, ts: seq<SupportTier>)
    requires WellFormed(s)
    requires TierIdsDistinct(ts) && forall i :: 0 <= i < |ts| ==> ts[i].id < s.nextTierId
    ensures WellFormed(s.(supportTiers := ts))
  {
  }

  /** A tier inserted under the next tier id keeps the keys valid. */
  lemma InsertTierKeepsWellFormed(s: State, t: SupportTier)
    requires WellFormed(s) && t.id == s.nextTierId
    ensures WellFormed(s.(supportTiers := s.supportTiers + [t], nextTierId := s.nextTierId + 1))
  {
    var ts := s.supportTiers + [t];
    forall i, j | 0 <= i < j < |ts| ensures ts[i].id != ts[j].id {
      if j == |s.supportTiers| {
        assert ts[i] == s.supportTiers[i];
      } else {
        assert ts[i] == s.supportTiers[i] && ts[j] == s.supportTiers[j];
      }
    }
  }

  /** A pledge inserted under the next supporter id keeps the keys valid. */
  lemma InsertSupporterKeepsWellFormed(s: State, x: Supporter)
    requires WellFormed(s) && x.id == s.nextSupporterId
    ensures WellFormed(s.(supporters := s.supporters + [x], nextSupporterId := s.nextSupporterId + 1))
  {
    var xs := s.supporters + [x];
    forall i, j | 0 <= i < j < |xs| ensures xs[i].id != xs[j].id {
      if j == |s.supporters| {
        assert xs[i] == s.supporters[i];
      } else {
        assert xs[i] == s.supporters[i] && xs[j] == s.supporters[j];
      }
    }
  }
}
