/**
 * The three statement shapes the data-access functions issue against a table, given as
 * operations on a sequence of rows in table order: `SELECT ... WHERE`, `UPDATE ... WHERE`
 * and `DELETE ... WHERE`. `COUNT(*)` is the length of a selection, and a check of the form
 * `results.length > 0` is its non-emptiness.
 */
module Relational {
  import opened Wrappers

  /** The rows satisfying `cond`, in table order. */
  function Select<T(!new)>(rows: seq<T>, cond: T -> bool): (r: seq<T>)
    ensures |r| <= |rows|
    ensures forall x :: x in r <==> x in rows && cond(x)
    ensures |r| == |rows| <==> forall x :: x in rows ==> cond(x)
    ensures |r| > 0 <==> exists x :: x in rows && cond(x)
  {
    if rows == [] then []
    else
      var init, last := rows[..|rows| - 1], rows[|rows| - 1];
      assert rows == init + [last];
      Select(init, cond) + (if cond(last) then [last] else [])
  }

  /** `rows[0]` of a selection: the first row in table order satisfying `cond`, `None` when there is none. */
  function FirstWhere<T(!new)>(rows: seq<T>, cond: T -> bool): (r: Option<T>)
    ensures r.None? <==> forall x :: x in rows ==> !cond(x)
    ensures r.Some? ==> exists k :: 0 <= k < |rows| && rows[k] == r.value && cond(r.value) && forall j :: 0 <= j < k ==> !cond(rows[j])
  {
    if rows == [] then None
    else if cond(rows[0]) then Some(rows[0])
    else
      var r := FirstWhere(rows[1..], cond);
      assert r.Some? ==> exists k :: 0 <= k < |rows| && rows[k] == r.value && cond(r.value) && forall j :: 0 <= j < k ==> !cond(rows[j]) by {
        if r.Some? {
          var k :| 0 <= k < |rows[1..]| && rows[1..][k] == r.value && cond(r.value) && forall j :: 0 <= j < k ==> !cond(rows[1..][j]);
          assert forall j :: 0 <= j < k + 1 ==> !cond(rows[j]) by {
            forall j | 0 <= j < k + 1 ensures !cond(rows[j]) {
              if j > 0 { assert rows[j] == rows[1..][j - 1]; }
            }
          }
        }
      }
      assert r.None? ==> forall x :: x in rows ==> !cond(x) by {
        assert rows == [rows[0]] + rows[1..];
      }
      r
  }

  /** Every row satisfying `cond` replaced by `f` of it; the others untouched. */
  function UpdateWhere<T(!new)>(rows: seq<T>, cond: T -> bool, f: T -> T): seq<T> {
    seq(|rows|, i requires 0 <= i < |rows| => if cond(rows[i]) then f(rows[i]) else rows[i])
  }

  /** The rows that do not satisfy `cond`, in table order. */
  function DeleteWhere<T(!new)>(rows: seq<T>, cond: T -> bool): (r: seq<T>)
    ensures |r| <= |rows|
    ensures forall x :: x in r <==> x in rows && !cond(x)
    ensures |r| == |rows| <==> forall x :: x in rows ==> !cond(x)
  {
    if rows == [] then []
    else
      var init, last := rows[..|rows| - 1], rows[|rows| - 1];
      assert rows == init + [last];
      DeleteWhere(init, cond) + (if cond(last) then [] else [last])
  }

  lemma SelectLast<T(!new)>(rows: seq<T>, cond: T -> bool)
    requires rows != []
    ensures Select(rows, cond) == Select(rows[..|rows| - 1], cond) + (if cond(rows[|rows| - 1]) then [rows[|rows| - 1]] else [])
  {
  }

  /** A condition every row satisfies selects the whole table. */
  lemma {:induction false} SelectAll<T(!new)>(rows: seq<T>, cond: T -> bool)
    requires forall x :: x in rows ==> cond(x)
    ensures Select(rows, cond) == rows
  {
    if rows != [] {
      var init := rows[..|rows| - 1];
      forall x | x in init ensures cond(x) {
        var k :| 0 <= k < |init| && init[k] == x;
        assert rows[k] == x;
      }
      SelectAll(init, cond);
      SelectLast(rows, cond);
      assert rows == init + [rows[|rows| - 1]];
    }
  }

  lemma SetLast<T>(rows: seq<T>, cond: T -> bool)
    requires rows != []
    ensures (set x | x in rows && cond(x)) ==
      (set x | x in rows[..|rows| - 1] && cond(x)) + (if cond(rows[|rows| - 1]) then {rows[|rows| - 1]} else {})
  {
    assert rows == rows[..|rows| - 1] + [rows[|rows| - 1]];
  }

  lemma AddOne<T>(a: set<T>, y: T)
    requires y !in a
    ensures |a + {y}| == |a| + 1
  {
  }

  /** Over a table without repeated rows, a selection holds as many rows as the set of rows satisfying the condition. */
  lemma {:induction false} SelectCardinality<T(!new)>(rows: seq<T>, cond: T -> bool)
    requires forall i, j :: 0 <= i < j < |rows| ==> rows[i] != rows[j]
    ensures |Select(rows, cond)| == |set x | x in rows && cond(x)|
  {
    if rows != [] {
      var init, last := rows[..|rows| - 1], rows[|rows| - 1];
      assert forall i, j :: 0 <= i < j < |init| ==> init[i] != init[j];
      SelectCardinality(init, cond);
      SelectLast(rows, cond);
      assert last !in init;
      SetLast(rows, cond);
      if cond(last) {
        AddOne((set x | x in init && cond(x)), last);
      }
    }
  }

  /** The set of rows satisfying `keep`. */
  ghost function RowSet<T(!new)>(rows: seq<T>, keep: T -> bool): set<T> {
    set x | x in rows && keep(x)
  }

  /** The same, for a condition that agrees with the selecting one on every row. */
  lemma SelectCardinalityOf<T(!new)>(rows: seq<T>, cond: T -> bool, keep: T -> bool)
    requires forall i, j :: 0 <= i < j < |rows| ==> rows[i] != rows[j]
    requires forall x :: x in rows ==> cond(x) == keep(x)
    ensures |Select(rows, cond)| == |RowSet(rows, keep)|
  {
    SelectCardinality(rows, cond);
    assert RowSet(rows, keep) == (set x | x in rows && cond(x));
  }

  /** A row appended to the table joins a selection exactly when it satisfies the condition. */
  lemma SelectAppend<T(!new)>(rows: seq<T>, x: T, cond: T -> bool)
    ensures Select(rows + [x], cond) == Select(rows, cond) + (if cond(x) then [x] else [])
  {
    assert (rows + [x])[..|rows|] == rows;
  }

  /** An update that never changes whether a row satisfies `c` keeps the number of rows satisfying `c`. */
  lemma {:induction false} SelectUpdateCount<T(!new)>(rows: seq<T>, cond: T -> bool, f: T -> T, c: T -> bool)
    requires forall x :: c(f(x)) == c(x)
    ensures |Select(UpdateWhere(rows, cond, f), c)| == |Select(rows, c)|
  {
    if rows != [] {
      var n := |rows|;
      var updated := UpdateWhere(rows, cond, f);
      assert updated[..n - 1] == UpdateWhere(rows[..n - 1], cond, f);
      SelectUpdateCount(rows[..n - 1], cond, f, c);
    }
  }

  /** Deleting the rows that satisfy `d` removes at most as many rows satisfying `c` as satisfy `d`. */
  lemma {:induction false} DeleteCount<T(!new)>(rows: seq<T>, c: T -> bool, d: T -> bool)
    ensures |Select(rows, c)| <= |Select(DeleteWhere(rows, d), c)| + |Select(rows, d)|
  {
    if rows != [] {
      var init, last := rows[..|rows| - 1], rows[|rows| - 1];
      DeleteCount(init, c, d);
      SelectLast(rows, c);
      SelectLast(rows, d);
      DeleteLast(rows, d);
      if d(last) {
        assert DeleteWhere(rows, d) == DeleteWhere(init, d);
        assert |Select(rows, d)| == |Select(init, d)| + 1;
      } else {
        assert DeleteWhere(rows, d) == DeleteWhere(init, d) + [last];
        SelectAppend(DeleteWhere(init, d), last, c);
        assert Select(rows, d) == Select(init, d);
      }
    }
  }

  /** Deleting rows never adds rows satisfying `c`. */
  lemma {:induction false} DeleteShrinks<T(!new)>(rows: seq<T>, c: T -> bool, d: T -> bool)
    ensures |Select(DeleteWhere(rows, d), c)| <= |Select(rows, c)|
  {
    if rows != [] {
      var init, last := rows[..|rows| - 1], rows[|rows| - 1];
      DeleteShrinks(init, c, d);
      SelectLast(rows, c);
      DeleteLast(rows, d);
      if d(last) {
        assert DeleteWhere(rows, d) == DeleteWhere(init, d);
      } else {
        assert DeleteWhere(rows, d) == DeleteWhere(init, d) + [last];
        SelectAppend(DeleteWhere(init, d), last, c);
      }
    }
  }

  /** Deleting rows that never satisfy `c` leaves the selection by `c` as it was. */
  lemma {:induction false} DeleteDisjoint<T(!new)>(rows: seq<T>, c: T -> bool, d: T -> bool)
    requires forall x :: c(x) ==> !d(x)
    ensures Select(DeleteWhere(rows, d), c) == Select(rows, c)
  {
    if rows != [] {
      var init, last := rows[..|rows| - 1], rows[|rows| - 1];
      DeleteDisjoint(init, c, d);
      SelectLast(rows, c);
      DeleteLast(rows, d);
      if d(last) {
        assert !c(last);
        assert DeleteWhere(rows, d) == DeleteWhere(init, d);
      } else {
        assert DeleteWhere(rows, d) == DeleteWhere(init, d) + [last];
        SelectAppend(DeleteWhere(init, d), last, c);
      }
    }
  }

  lemma DeleteLast<T(!new)>(rows: seq<T>, cond: T -> bool)
    requires rows != []
    ensures DeleteWhere(rows, cond) == DeleteWhere(rows[..|rows| - 1], cond) + (if cond(rows[|rows| - 1]) then [] else [rows[|rows| - 1]])
  {
  }

  /** Updating the rows a condition selects, in a way that keeps them selected, updates the first of them. */
  lemma {:induction false} FirstUpdate<T(!new)>(rows: seq<T>, cond: T -> bool, f: T -> T)
    requires forall x :: cond(x) ==> cond(f(x))
    ensures FirstWhere(UpdateWhere(rows, cond, f), cond) ==
      match FirstWhere(rows, cond) case None => None case Some(x) => Some(f(x))
  {
    if rows != [] {
      var u := UpdateWhere(rows, cond, f);
      assert u[0] == if cond(rows[0]) then f(rows[0]) else rows[0];
      if !cond(rows[0]) {
        assert u[1..] == UpdateWhere(rows[1..], cond, f);
        FirstUpdate(rows[1..], cond, f);
      }
    }
  }
}
