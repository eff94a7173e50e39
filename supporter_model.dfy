/**
 * The supporter data-access functions: the supporter listing of a petition (joined with the
 * pledging users, newest first), pledging at a tier, and whether a user already pledged at a tier.
 */
module SupporterModel {
  import opened Wrappers
  import opened Schema
  import opened Relational
  import opened SupportTierModel

  /** One row of the supporter listing: the selected supporter columns and the pledging user's names. */
  datatype SupporterView = SupporterView(
    supportId: int,
    supportTierId: int,
    message: Option<string>,
    supporterId: int,
    supporterFirstName: string,
    supporterLastName: string,
    timestamp: int)

  function View(s: Supporter, u: User): SupporterView {
    SupporterView(s.id, s.supportTierId, s.message, s.userId, u.firstName, u.lastName, s.timestamp)
  }

  function PledgedTo(petitionId: int): Supporter -> bool {
    (s: Supporter) => s.petitionId == petitionId
  }

  function HasUserId(userId: int): User -> bool {
    (u: User) => u.id == userId
  }

  /** The views that pair one supporter row with each of the given users. */
  function ViewsOf(s: Supporter, us: seq<User>): (r: seq<SupporterView>)
    ensures forall v :: v in r <==> exists u :: u in us && v == View(s, u)
  {
    if us == [] then []
    else
      assert us == [us[0]] + us[1..];
      [View(s, us[0])] + ViewsOf(s, us[1..])
  }

  /** `supporter s JOIN user u ON s.user_id = u.id`: one view per pair of matching rows. */
  function Join(rows: seq<Supporter>, users: seq<User>): (r: seq<SupporterView>)
    ensures forall v :: v in r <==> exists s, u :: s in rows && u in users && u.id == s.userId && v == View(s, u)
  {
    if rows == [] then []
    else
      var init, last := rows[..|rows| - 1], rows[|rows| - 1];
      assert rows == init + [last];
      var matches := Select(users, HasUserId(last.userId));
      assert forall u :: u in matches <==> u in users && u.id == last.userId;
      var r := Join(init, users) + ViewsOf(last, matches);
      assert forall v :: v in r ==> exists s, u :: s in rows && u in users && u.id == s.userId && v == View(s, u) by {
        forall v | v in r
          ensures exists s, u :: s in rows && u in users && u.id == s.userId && v == View(s, u)
        {
          if v !in Join(init, users) {
            var u :| u in matches && v == View(last, u);
            assert last in rows && u in users && u.id == last.userId;
          }
        }
      }
      assert forall v :: (exists s, u :: s in rows && u in users && u.id == s.userId && v == View(s, u)) ==> v in r by {
        forall v | exists s, u :: s in rows && u in users && u.id == s.userId && v == View(s, u)
          ensures v in r
        {
          var s, u :| s in rows && u in users && u.id == s.userId && v == View(s, u);
          if s == last {
            assert u in matches;
          } else {
            assert s in init;
          }
        }
      }
      r
  }

  /** Timestamps never increase along the listing. */
  ghost predicate NewestFirst(vs: seq<SupporterView>) {
    forall i, j :: 0 <= i < j < |vs| ==> vs[i].timestamp >= vs[j].timestamp
  }

  lemma PrependNewestFirst(x: SupporterView, vs: seq<SupporterView>)
    requires NewestFirst(vs)
    requires forall y :: y in vs ==> y.timestamp <= x.timestamp
    ensures NewestFirst([x] + vs)
  {
    forall i, j | 0 <= i < j < |[x] + vs|
      ensures ([x] + vs)[i].timestamp >= ([x] + vs)[j].timestamp
    {
      if i == 0 {
        assert ([x] + vs)[j] == vs[j - 1];
        assert vs[j - 1] in vs;
      } else {
        assert ([x] + vs)[i] == vs[i - 1] && ([x] + vs)[j] == vs[j - 1];
      }
    }
  }

  function InsertNewestFirst(v: SupporterView, vs: seq<SupporterView>): (r: seq<SupporterView>)
    requires NewestFirst(vs)
    ensures NewestFirst(r)
    ensures multiset(r) == multiset(vs) + multiset{v}
  {
    if vs == [] || v.timestamp >= vs[0].timestamp then
      assert forall y :: y in vs ==> y.timestamp <= v.timestamp by {
        forall y | y in vs ensures y.timestamp <= v.timestamp {
          var k :| 0 <= k < |vs| && vs[k] == y;
          assert k == 0 || vs[0].timestamp >= vs[k].timestamp;
        }
      }
      PrependNewestFirst(v, vs);
      [v] + vs
    else
      assert vs == [vs[0]] + vs[1..];
      var rest := InsertNewestFirst(v, vs[1..]);
      assert forall y :: y in rest ==> y.timestamp <= vs[0].timestamp by {
        forall y | y in rest ensures y.timestamp <= vs[0].timestamp {
          assert y in multiset(rest);
          if y != v {
            assert y in multiset(vs[1..]);
            var k :| 0 <= k < |vs[1..]| && vs[1..][k] == y;
            assert vs[k + 1] == y;
          }
        }
      }
      PrependNewestFirst(vs[0], rest);
      [vs[0]] + rest
  }

  /** `ORDER BY s.timestamp DESC`: the same rows, newest first. */
  function SortNewestFirst(vs: seq<SupporterView>): (r: seq<SupporterView>)
    ensures NewestFirst(r)
    ensures multiset(r) == multiset(vs)
  {
    if vs == [] then []
    else
      assert vs == [vs[0]] + vs[1..];
      InsertNewestFirst(vs[0], SortNewestFirst(vs[1..]))
  }

  /**
   * `getSupportersForPetition`: the petition's pledges joined with their users, newest
   * first; always a list, empty when the petition has no pledge or does not exist.
   */
  function GetSupportersForPetition(sups: seq<Supporter>, users: seq<User>, petitionId: int): (r: seq<SupporterView>)
    ensures NewestFirst(r)
    ensures multiset(r) == multiset(Join(Select(sups, PledgedTo(petitionId)), users))
    ensures forall v :: v in r <==>
      exists s, u :: s in sups && s.petitionId == petitionId && u in users && u.id == s.userId && v == View(s, u)
    ensures (forall s :: s in sups ==> s.petitionId != petitionId) ==> r == []
  {
    var joined := Join(Select(sups, PledgedTo(petitionId)), users);
    var r := SortNewestFirst(joined);
    SameMembers(r, joined);
    r
  }

  lemma SameMembers(a: seq<SupporterView>, b: seq<SupporterView>)
    requires multiset(a) == multiset(b)
    ensures forall v :: v in a <==> v in b
  {
    forall v ensures v in a <==> v in b {
      assert v in a <==> v in multiset(a);
      assert v in b <==> v in multiset(b);
    }
  }

  /** `hasSupportedTier`: the user already has a pledge at this tier. */
  function HasSupportedTier(sups: seq<Supporter>, userId: int, tierId: int): (b: bool)
    ensures b <==> exists s :: s in sups && s.userId == userId && s.supportTierId == tierId
  {
    |Select(sups, (s: Supporter) => s.userId == userId && s.supportTierId == tierId)| > 0
  }

  datatype AddSupportResult = AddSupportResult(added: bool, supporters: seq<Supporter>, nextSupporterId: int)

  /** `addSupport`: false when the tier is not one of that petition's; otherwise the pledge is inserted, stamped `now`. */
  function AddSupport(ts: seq<SupportTier>, sups: seq<Supporter>, nextSupporterId: int, userId: int,
                      petitionId: int, tierId: int, message: Option<string>, now: int): (r: AddSupportResult)
    ensures r.added <==> TierInPetition(ts, tierId, petitionId)
    ensures !r.added ==> r.supporters == sups && r.nextSupporterId == nextSupporterId
    ensures r.added ==>
      && r.supporters == sups + [Supporter(nextSupporterId, petitionId, tierId, userId, message, now)]
      && r.nextSupporterId == nextSupporterId + 1
  {
    if !TierInPetition(ts, tierId, petitionId) then AddSupportResult(false, sups, nextSupporterId)
    else
      var row := Supporter(nextSupporterId, petitionId, tierId, userId, message, now);
      AddSupportResult(true, sups + [row], nextSupporterId + 1)
  }

  /** No user holds two pledges at one tier. */
  ghost predicate OnePledgePerTier(sups: seq<Supporter>) {
    forall i, j :: 0 <= i < j < |sups| ==>
      !(sups[i].userId == sups[j].userId && sups[i].supportTierId == sups[j].supportTierId)
  }

  /** Every pledge is at a tier of the petition it names. */
  ghost predicate PledgesMatchTiers(sups: seq<Supporter>, ts: seq<SupportTier>) {
    forall i :: 0 <= i < |sups| ==> TierInPetition(ts, sups[i].supportTierId, sups[i].petitionId)
  }

  /** A pledge by a user not yet pledged at the tier keeps one pledge per user and tier. */
  lemma AddSupportKeepsOnePledgePerTier(ts: seq<SupportTier>, sups: seq<Supporter>, nextSupporterId: int, userId: int,
                                        petitionId: int, tierId: int, message: Option<string>, now: int)
    requires OnePledgePerTier(sups)
    requires !HasSupportedTier(sups, userId, tierId)
    ensures OnePledgePerTier(AddSupport(ts, sups, nextSupporterId, userId, petitionId, tierId, message, now).supporters)
  {
    var r := AddSupport(ts, sups, nextSupporterId, userId, petitionId, tierId, message, now);
    if r.added {
      forall i, j | 0 <= i < j < |r.supporters|
        ensures !(r.supporters[i].userId == r.supporters[j].userId && r.supporters[i].supportTierId == r.supporters[j].supportTierId)
      {
        if j == |sups| {
          assert sups[i] in sups;
        }
      }
    }
  }

  /** `addSupport` only ever inserts a pledge at a tier of the named petition. */
  lemma AddSupportKeepsPledgesMatchTiers(ts: seq<SupportTier>, sups: seq<Supporter>, nextSupporterId: int, userId: int,
                                         petitionId: int, tierId: int, message: Option<string>, now: int)
    requires PledgesMatchTiers(sups, ts)
    ensures PledgesMatchTiers(AddSupport(ts, sups, nextSupporterId, userId, petitionId, tierId, message, now).supporters, ts)
  {
  }
}
