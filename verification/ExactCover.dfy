/**
  The exact cover problem that a torus states: choose rows so that every open
  column has an item of exactly one chosen row.
*/
module ExactCover {
  import opened Torus

  ghost predicate RowsOk(t: Torus) {
    forall x: nat | IsItem(t, x) :: RowOk(t, x)
  }

  /** A pick is an item standing for its whole row, which must lie within the columns hs. */
  ghost predicate Within(t: Torus, hs: set<nat>, x: nat)
    requires RowsOk(t)
  {
    IsItem(t, x) && RowOk(t, x) && RowCols(t, x) <= hs
  }

  ghost predicate Apart(t: Torus, x: nat, y: nat)
    requires RowsOk(t) && IsItem(t, x) && IsItem(t, y)
  {
    RowOk(t, x) && RowOk(t, y) && RowCols(t, x) !! RowCols(t, y)
  }

  /** The rows of the picks lie within hs, do not overlap, and leave no column out. */
  ghost predicate IsExactCover(t: Torus, hs: set<nat>, picks: seq<nat>)
    requires RowsOk(t)
  {
    && (forall i | 0 <= i < |picks| :: Within(t, hs, picks[i]))
    && (forall i, k | 0 <= i < k < |picks| :: Apart(t, picks[i], picks[k]))
    && (forall c | c in hs :: exists i :: 0 <= i < |picks| && c in RowColsOf(t, picks[i]))
  }

  ghost function RowColsOf(t: Torus, x: nat): set<nat>
    requires RowsOk(t)
  {
    if IsItem(t, x) then assert RowOk(t, x); RowCols(t, x) else {}
  }

  ghost predicate Solvable(t: Torus, hs: set<nat>)
    requires RowsOk(t)
  {
    exists picks :: IsExactCover(t, hs, picks)
  }

  lemma CoverNothing(t: Torus)
    requires RowsOk(t)
    ensures IsExactCover(t, {}, [])
  {
  }

  /** Adding row x to a cover of the remaining columns covers all of hs. */
  lemma ExtendCover(t: Torus, hs: set<nat>, x: nat, picks: seq<nat>)
    requires RowsOk(t) && Within(t, hs, x)
    requires IsExactCover(t, hs - RowColsOf(t, x), picks)
    ensures IsExactCover(t, hs, [x] + picks)
  {
    var all := [x] + picks;
    forall i | 0 <= i < |all| ensures Within(t, hs, all[i]) {
      assert i > 0 ==> all[i] == picks[i - 1] && Within(t, hs - RowColsOf(t, x), picks[i - 1]);
    }
    forall i, k | 0 <= i < k < |all| ensures Apart(t, all[i], all[k]) {
      assert all[k] == picks[k - 1] && Within(t, hs - RowColsOf(t, x), picks[k - 1]);
      assert i > 0 ==> all[i] == picks[i - 1] && Apart(t, picks[i - 1], picks[k - 1]);
    }
    forall c | c in hs ensures exists i :: 0 <= i < |all| && c in RowColsOf(t, all[i]) {
      if c in RowColsOf(t, x) {
        assert all[0] == x;
      } else {
        assert c in hs - RowColsOf(t, x);
        var i :| 0 <= i < |picks| && c in RowColsOf(t, picks[i]);
        assert all[i + 1] == picks[i];
      }
    }
  }

  ghost function Drop(picks: seq<nat>, k: nat): seq<nat>
    requires k < |picks|
  {
    picks[..k] + picks[k + 1..]
  }

  lemma DropKeepsRows(t: Torus, hs: set<nat>, picks: seq<nat>, k: nat)
    requires RowsOk(t) && IsExactCover(t, hs, picks) && k < |picks|
    ensures forall i | 0 <= i < |Drop(picks, k)| :: Within(t, hs - RowColsOf(t, picks[k]), Drop(picks, k)[i])
    ensures forall i, j | 0 <= i < j < |Drop(picks, k)| :: Apart(t, Drop(picks, k)[i], Drop(picks, k)[j])
  {
    var rest, hs' := Drop(picks, k), hs - RowColsOf(t, picks[k]);
    assert Within(t, hs, picks[k]);
    forall i | 0 <= i < |rest| ensures Within(t, hs', rest[i]) {
      var a := if i < k then i else i + 1;
      assert rest[i] == picks[a] && Within(t, hs, picks[a]);
      assert if a < k then Apart(t, picks[a], picks[k]) else Apart(t, picks[k], picks[a]);
    }
    forall i, j | 0 <= i < j < |rest| ensures Apart(t, rest[i], rest[j]) {
      var a, b := if i < k then i else i + 1, if j < k then j else j + 1;
      assert rest[i] == picks[a] && rest[j] == picks[b] && Apart(t, picks[a], picks[b]);
    }
  }

  /** Dropping one chosen row leaves a cover of the columns outside that row. */
  lemma DropPick(t: Torus, hs: set<nat>, picks: seq<nat>, k: nat)
    requires RowsOk(t) && IsExactCover(t, hs, picks) && k < |picks|
    ensures IsExactCover(t, hs - RowColsOf(t, picks[k]), Drop(picks, k))
  {
    hide Within, Apart, RowColsOf, RowOk;
    var rest, hs' := Drop(picks, k), hs - RowColsOf(t, picks[k]);
    DropKeepsRows(t, hs, picks, k);
    forall d | d in hs' ensures exists i :: 0 <= i < |rest| && d in RowColsOf(t, rest[i]) {
      assert d in hs;
      var m :| 0 <= m < |picks| && d in RowColsOf(t, picks[m]);
      assert rest[if m < k then m else m - 1] == picks[m];
    }
  }

  /** Every cover has a row through c, and without it covers what that row leaves. */
  lemma ReduceCover(t: Torus, hs: set<nat>, picks: seq<nat>, c: nat) returns (x: nat, rest: seq<nat>)
    requires RowsOk(t) && IsExactCover(t, hs, picks) && c in hs
    ensures Within(t, hs, x) && t.col[x] == c
    ensures IsExactCover(t, hs - RowColsOf(t, x), rest)
  {
    var k :| 0 <= k < |picks| && c in RowColsOf(t, picks[k]);
    assert Within(t, hs, picks[k]);
    x :| x in RowSet(t, picks[k]) && t.col[x] == c;
    SameRow(t, picks[k], x);
    rest := Drop(picks, k);
    DropPick(t, hs, picks, k);
  }

  lemma SameRow(t: Torus, x: nat, y: nat)
    requires RowsOk(t) && IsItem(t, x) && y in RowSet(t, x)
    ensures IsItem(t, y) && RowOk(t, y) && RowColsOf(t, y) == RowColsOf(t, x)
  {
    assert RowOk(t, x);
    assert RowOk(t, y);
  }

  /** If no row through c leads to a cover of what it leaves, there is no cover at all. */
  lemma Exhausted(t: Torus, hs: set<nat>, c: nat, tried: seq<nat>)
    requires RowsOk(t) && c in hs
    requires forall x: nat :: Within(t, hs, x) && t.col[x] == c ==> x in tried
    requires forall i | 0 <= i < |tried| :: !Solvable(t, hs - RowColsOf(t, tried[i]))
    ensures !Solvable(t, hs)
  {
    if picks :| IsExactCover(t, hs, picks) {
      var x, rest := ReduceCover(t, hs, picks, c);
      assert false;
    }
  }
}
