/**
  The torus under construction: what holds after each column and each row that
  the solver's constructor adds, and that the finished torus poses the board's
  exact cover problem.
*/
module SudokuBuild {
  import opened Torus
  import opened TorusBuild
  import opened ExactCover
  import opened Sudoku

  /** sudoku.cc:25. */
  const MAX_NODES: nat := 1 + 81 * 4 + 9 * 9 * 9 * 4

  ghost const NO_TORUS := Torus({}, map[], map[])

  const BLANK := Node(0, 0, 0, 0, 0, 0, 0)

  /** Nothing is covered, and everything is below the next free index. */
  ghost predicate Full(t: Torus, v: View, cur: nat) {
    && Elems(v.heads) == t.headers && v.lists.Keys == t.headers
    && (forall c | c in t.headers :: c < cur)
    && (forall x: nat | IsItem(t, x) :: x < cur && t.col[x] in v.lists && x in v.lists[t.col[x]])
  }

  /** The table holds exactly the headers named in w, each under its own name. */
  ghost predicate TableOk(t: Torus, s: seq<Node>, columns: seq<nat>, w: set<nat>) {
    && |columns| == 400
    && (forall n: nat | n < 400 :: (columns[n] != 0 <==> n in w)
          && (columns[n] != 0 ==> columns[n] in t.headers && columns[n] < |s| && s[columns[n]].name == n))
    && (forall c: nat | c in t.headers :: c != 0 && c < |s| && s[c].name < 400 && columns[s[c].name] == c)
  }

  ghost predicate RowTable(b: seq<int>, t: Torus, s: seq<Node>, lab: map<nat, Label>, columns: seq<nat>)
    requires IsBoard(b)
  {
    RowsOk(t) && forall x: nat | IsItem(t, x) ::
      LabelOk(t, s, lab, x) && RowColsOf(t, x) <= t.headers && RowEncodes(b, t, lab, columns, x)
  }

  ghost predicate BuildInv(b: seq<int>, t: Torus, v: View, s: seq<Node>, cur: nat, columns: seq<nat>,
                           w: set<nat>, lab: map<nat, Label>)
  {
    && IsBoard(b) && Rep(t, v, s) && Full(t, v, cur) && TableOk(t, s, columns, w)
    && RowTable(b, t, s, lab, columns) && 1 <= cur <= |s| == MAX_NODES
  }

  lemma EmptyRep(s: seq<Node>)
    requires |s| == MAX_NODES && forall m | 0 <= m < |s| :: s[m] == BLANK
    ensures Rep(NO_TORUS, View([], map[]), s)
  {
    assert LinkH(s, ROOT, [], -1);
    assert WellFormed(NO_TORUS, |s|);
  }

  lemma EmptyBuild(b: seq<int>, s: seq<Node>, columns: seq<nat>)
    requires IsBoard(b) && |s| == MAX_NODES && (forall m | 0 <= m < |s| :: s[m] == BLANK)
    requires |columns| == 400 && forall n | 0 <= n < 400 :: columns[n] == 0
    ensures BuildInv(b, NO_TORUS, View([], map[]), s, 1, columns, {}, map[])
  {
    EmptyRep(s);
  }

  // ---------------------------------------------------------------- a column

  lemma ColumnFull(t: Torus, v: View, cur: nat)
    requires Full(t, v, cur) && Unused(t, cur) && cur !in v.lists
    ensures Full(WithColumn(t, cur), WithColumnView(v, cur), cur + 1)
  {
    var v' := WithColumnView(v, cur);
    assert forall h :: h in v'.heads <==> h in v.heads || h == cur;
    assert Elems(v'.heads) == Elems(v.heads) + {cur};
    assert forall x: nat | IsItem(WithColumn(t, cur), x) :: IsItem(t, x);
  }

  lemma ColumnTable(t: Torus, s: seq<Node>, cur: nat, columns: seq<nat>, w: set<nat>, n: nat)
    requires Bounded(s) && 0 < cur < |s| && s[ROOT].left != cur
    requires TableOk(t, s, columns, w) && (forall c | c in t.headers :: c < cur) && n < 400 && n !in w
    ensures TableOk(WithColumn(t, cur), ColumnAppended(s, cur, n), columns[n := cur], w + {n})
  {
    hide ColumnAppended, Bounded;
    ColumnAppendedFields(s, cur, n);
    var r, t', cs := ColumnAppended(s, cur, n), WithColumn(t, cur), columns[n := cur];
    forall c: nat | c in t'.headers ensures c != 0 && c < |r| && r[c].name < 400 && cs[r[c].name] == c {
      if c != cur {
        assert c in t.headers;
        assert columns[s[c].name] != 0;
      }
    }
  }

  /** Appending a column that was not there yet, while there are no rows. */
  lemma AppendStep(b: seq<int>, t: Torus, v: View, s: seq<Node>, cur: nat, columns: seq<nat>,
                   w: set<nat>, lab: map<nat, Label>, n: nat)
    requires BuildInv(b, t, v, s, cur, columns, w, lab) && t.col == map[] && t.ring == map[]
    requires cur < |s| && n < 400 && n !in w
    ensures Bounded(s) && BuildInv(b, WithColumn(t, cur), WithColumnView(v, cur), ColumnAppended(s, cur, n), cur + 1,
                     columns[n := cur], w + {n}, lab)
  {
    assert Unused(t, cur) && cur !in v.lists;
    ColumnAppendedRep(t, v, s, cur, n);
    ColumnFull(t, v, cur);
    ColumnTable(t, s, cur, columns, w, n);
    assert forall x: nat :: !IsItem(WithColumn(t, cur), x);
  }

  /** The order in which the constructor goes through the digits of the units. */
  function Rank(n: nat): int {
    n % 100 / 10 * 27 + (n % 10 - 1) * 3 + n / 100 - 1
  }

  /** The names in w: wanted cells below i. */
  ghost predicate CellsSoFar(b: seq<int>, w: set<nat>, i: nat)
    requires IsBoard(b)
  {
    forall n: nat | n < 400 :: n in w <==> n < i <= CELLS && b[n] == 0
  }

  /** The names in w: all wanted cells, and the wanted digits of units ranked below r. */
  ghost predicate UnitsSoFar(b: seq<int>, w: set<nat>, r: int)
    requires IsBoard(b)
  {
    forall n: nat | n < 400 :: n in w <==> Wanted(b, n) && (n < CELLS || Rank(n) < r)
  }

  lemma RankOf(k: nat, u: nat, v: nat)
    requires k < 3 && u < 9 && 1 <= v <= 9
    ensures Rank(UnitColumn(k, u, v)) == u * 27 + (v - 1) * 3 + k
  {
    UnitColumnParts(k, u, v);
  }

  /** Two names of the same rank are the same name. */
  lemma RankInjective(n: nat, k: nat, u: nat, v: nat)
    requires k < 3 && u < 9 && 1 <= v <= 9
    requires 100 <= n < 400 && n % 100 / 10 < 9 && n % 10 >= 1 && Rank(n) == u * 27 + (v - 1) * 3 + k
    ensures n == UnitColumn(k, u, v)
  {
    UnitColumnOf(n);
    var k', u', v' := n / 100 - 1, n % 100 / 10, n % 10;
    assert u' == u && v' == v && k' == k;
  }

  lemma UnitStep(b: seq<int>, w: set<nat>, k: nat, u: nat, v: nat)
    requires IsBoard(b) && k < 3 && u < 9 && 1 <= v <= 9
    requires UnitsSoFar(b, w, u * 27 + (v - 1) * 3 + k)
    ensures UnitColumn(k, u, v) < 400 && UnitColumn(k, u, v) !in w
    ensures UnitsSoFar(b, if Given(b, k, u, v) then w else w + {UnitColumn(k, u, v)}, u * 27 + (v - 1) * 3 + k + 1)
  {
    var m, r := UnitColumn(k, u, v), u * 27 + (v - 1) * 3 + k;
    UnitColumnParts(k, u, v);
    RankOf(k, u, v);
    assert Wanted(b, m) <==> !Given(b, k, u, v);
    var w' := if Given(b, k, u, v) then w else w + {m};
    forall n: nat | n < 400 ensures n in w' <==> Wanted(b, n) && (n < CELLS || Rank(n) < r + 1) {
      if Wanted(b, n) && n >= CELLS && Rank(n) == r {
        RankInjective(n, k, u, v);
      }
    }
  }

  lemma AllUnits(b: seq<int>, w: set<nat>)
    requires IsBoard(b) && UnitsSoFar(b, w, 243)
    ensures AllWanted(b, w)
  {
    forall n: nat | n < 400 ensures n in w <==> Wanted(b, n) {
      if Wanted(b, n) && n >= CELLS {
        assert n % 100 / 10 <= 8 && n % 10 <= 9 && n / 100 <= 3;
      }
    }
  }

  lemma CellsToUnits(b: seq<int>, w: set<nat>)
    requires IsBoard(b) && CellsSoFar(b, w, CELLS)
    ensures UnitsSoFar(b, w, 0)
  {
    forall n: nat | n < 400 ensures n in w <==> Wanted(b, n) && (n < CELLS || Rank(n) < 0) {
      if Wanted(b, n) && n >= CELLS {
        assert Rank(n) >= 0;
      }
    }
  }

  // ---------------------------------------------------------------- a row

  /** The four column names of cell i and digit v, in the order the items are made. */
  function NeedNames(i: nat, v: nat): seq<nat> {
    [i, UnitColumn(0, UnitOf(0, i), v), UnitColumn(1, UnitOf(1, i), v), UnitColumn(2, UnitOf(2, i), v)]
  }

  ghost function NeedColumns(columns: seq<nat>, i: nat, v: nat): (cs: seq<nat>)
    requires |columns| == 400 && i < CELLS && 1 <= v <= 9
    ensures |cs| == 4
  {
    NamesInRange(i, v);
    [columns[NeedNames(i, v)[0]], columns[NeedNames(i, v)[1]], columns[NeedNames(i, v)[2]], columns[NeedNames(i, v)[3]]]
  }

  lemma NamesInRange(i: nat, v: nat)
    requires i < CELLS && 1 <= v <= 9
    ensures forall j | 0 <= j < 4 :: NeedNames(i, v)[j] < 400
    ensures i < 100 <= NeedNames(i, v)[1] < 200 <= NeedNames(i, v)[2] < 300 <= NeedNames(i, v)[3]
    ensures forall j | 1 <= j < 4 :: NeedNames(i, v)[j] % 10 == v
    ensures forall n: nat :: Needs(i, v, n) <==> n in NeedNames(i, v)
  {
    UnitOfCell(0, i);
    UnitOfCell(1, i);
    UnitOfCell(2, i);
    UnitColumnParts(0, UnitOf(0, i), v);
    UnitColumnParts(1, UnitOf(1, i), v);
    UnitColumnParts(2, UnitOf(2, i), v);
    var ns := NeedNames(i, v);
    assert ns[0] == i && ns[1] % 10 == v && ns[2] % 10 == v && ns[3] % 10 == v;
  }

  ghost predicate AllWanted(b: seq<int>, w: set<nat>)
    requires IsBoard(b)
  {
    forall n: nat | n < 400 :: n in w <==> Wanted(b, n)
  }

  /** The columns a candidate needs are all there, and they are four. */
  lemma CandidateColumns(b: seq<int>, t: Torus, s: seq<Node>, columns: seq<nat>, w: set<nat>, i: nat, v: nat)
    requires IsBoard(b) && TableOk(t, s, columns, w) && AllWanted(b, w) && Candidate(b, i, v)
    ensures var cs := NeedColumns(columns, i, v);
      && Distinct(cs) && (forall j | 0 <= j < 4 :: cs[j] in t.headers && cs[j] < |s| && cs[j] != 0)
      && (forall n: nat | n < 400 && columns[n] != 0 :: columns[n] in cs <==> Needs(i, v, n))
  {
    NamesInRange(i, v);
    var ns, cs := NeedNames(i, v), NeedColumns(columns, i, v);
    forall j | 0 <= j < 4
      ensures cs[j] == columns[ns[j]] && cs[j] != 0 && cs[j] in t.headers && s[cs[j]].name == ns[j]
    {
      CandidateWants(b, i, v, ns[j]);
    }
    forall n: nat | n < 400 && columns[n] != 0 ensures columns[n] in cs <==> Needs(i, v, n) {
      if columns[n] in cs {
        var j :| 0 <= j < 4 && cs[j] == columns[n];
        assert s[cs[j]].name == ns[j];
      }
      if n in ns {
        var j :| 0 <= j < 4 && ns[j] == n;
        assert cs[j] == columns[n];
      }
    }
  }

  ghost function LabelRow(lab: map<nat, Label>, k: nat, l: Label): map<nat, Label> {
    lab[k := l][k + 1 := l][k + 2 := l][k + 3 := l]
  }

  lemma OldRowCols(t: Torus, u: Torus, s: seq<Node>, r: seq<Node>, k: nat, x: nat)
    requires RowsOk(t) && RowsOk(u) && OldRows(t, u, s, r, k) && IsItem(t, x)
    ensures IsItem(u, x) && RowSet(u, x) == RowSet(t, x) && RowSet(t, x) <= t.col.Keys
    ensures RowColsOf(u, x) == RowColsOf(t, x)
  {
    assert RowOk(t, x) && IsItem(u, x) && RowOk(u, x);
    forall y | y in RowSet(t, x) ensures u.col[y] == t.col[y] {
      assert IsItem(t, y);
    }
  }

  lemma OldRowLabel(t: Torus, u: Torus, s: seq<Node>, r: seq<Node>, k: nat, lab: map<nat, Label>, l: Label, x: nat)
    requires IsItem(t, x) && IsItem(u, x) && RowSet(u, x) == RowSet(t, x) && RowSet(t, x) <= t.col.Keys
    requires OldRows(t, u, s, r, k) && LabelOk(t, s, lab, x)
    requires !(k <= x < k + 4) && (forall y | k <= y < k + 4 :: y !in t.col)
    ensures LabelOk(u, r, LabelRow(lab, k, l), x)
  {
  }

  /** A row that was there before reads and covers what it did. */
  lemma OldRowKept(b: seq<int>, t: Torus, u: Torus, s: seq<Node>, r: seq<Node>, k: nat, lab: map<nat, Label>,
                   columns: seq<nat>, l: Label, x: nat)
    requires IsBoard(b) && RowTable(b, t, s, lab, columns) && RowsOk(u) && OldRows(t, u, s, r, k)
    requires IsItem(t, x) && !(k <= x < k + 4) && (forall y | k <= y < k + 4 :: y !in t.col)
    ensures LabelOk(u, r, LabelRow(lab, k, l), x) && RowColsOf(u, x) <= u.headers
    ensures RowEncodes(b, u, LabelRow(lab, k, l), columns, x)
  {
    hide RowOk, RowColsOf, RowSet, RowsOk, LabelOk, Candidate, Needs;
    assert LabelOk(t, s, lab, x) && RowEncodes(b, t, lab, columns, x) && RowColsOf(t, x) <= t.headers;
    OldRowCols(t, u, s, r, k, x);
    OldRowLabel(t, u, s, r, k, lab, l, x);
  }

  lemma NewRowCols(t: Torus, s: seq<Node>, k: nat, cs: seq<nat>, ns: seq<nat>, x: nat)
    requires RowsOk(t) && NewRow(t, s, k, cs, ns) && k <= x < k + 4
    ensures forall c :: c in RowColsOf(t, x) <==> c in cs
  {
    assert RowOk(t, x);
    forall c ensures c in RowColsOf(t, x) <==> c in cs {
      if c in RowColsOf(t, x) {
        var y :| y in RowSet(t, x) && t.col[y] == c;
        assert cs[y - k] == c;
      }
      if c in cs {
        var j: nat :| j < 4 && cs[j] == c;
        assert k + j in RowSet(t, x) && t.col[k + j] == cs[k + j - k];
      }
    }
  }

  /** The new row reads as cell i, digit v, and covers what they need. */
  lemma NewRowOk(b: seq<int>, t: Torus, s: seq<Node>, k: nat, lab: map<nat, Label>, columns: seq<nat>,
                 i: nat, v: nat, x: nat)
    requires IsBoard(b) && RowsOk(t) && |columns| == 400 && Candidate(b, i, v)
    requires NewRow(t, s, k, NeedColumns(columns, i, v), NeedNames(i, v)) && k <= x < k + 4
    requires forall j | 0 <= j < 4 :: NeedColumns(columns, i, v)[j] in t.headers
    requires forall n: nat | n < 400 && columns[n] != 0 :: columns[n] in NeedColumns(columns, i, v) <==> Needs(i, v, n)
    ensures LabelOk(t, s, LabelRow(lab, k, Label(i, v)), x) && RowColsOf(t, x) <= t.headers
    ensures RowEncodes(b, t, LabelRow(lab, k, Label(i, v)), columns, x)
  {
    var cs, ns, lab' := NeedColumns(columns, i, v), NeedNames(i, v), LabelRow(lab, k, Label(i, v));
    NewRowCols(t, s, k, cs, ns, x);
    NamesInRange(i, v);
    assert s[k].name == ns[0] && s[k + 1].name == ns[1];
    assert k in RowSet(t, x) && k + 1 in RowSet(t, x);
    assert lab'[x] == Label(i, v);
    forall y | y in RowSet(t, x)
      ensures y < |s| && (if s[y].name < 100 then s[y].name == i else s[y].name % 10 == v)
    {
      assert s[y].name == ns[y - k];
    }
  }

  ghost predicate RowsDone(b: seq<int>, t: Torus, lab: map<nat, Label>, d: nat)
    requires IsBoard(b)
  {
    forall i: nat, v: nat | Candidate(b, i, v) && i * 9 + v - 1 < d :: HasRow(t, lab, i, v)
  }

  lemma RowFull(t: Torus, v: View, s: seq<Node>, cur: nat, cs: seq<nat>)
    requires Full(t, v, cur) && RowFits(t, v, s, cur, cs)
    ensures Full(TorusWithRow(t, cur, cs), ViewSoFar(v, cur, cs, 4), cur + 4)
  {
    hide Rep, TorusSoFar, ViewSoFar, WithRow;
    RowParts(t, cur, cs);
    var u, v' := TorusWithRow(t, cur, cs), ViewSoFar(v, cur, cs, 4);
    forall x: nat | IsItem(u, x) ensures x < cur + 4 && u.col[x] in v'.lists && x in v'.lists[u.col[x]] {
      if cur <= x < cur + 4 {
        ListsSoFar(v, cur, cs, 4, u.col[x], x);
      } else {
        assert IsItem(t, x);
        ListsSoFar(v, cur, cs, 4, u.col[x], x);
      }
    }
  }

  lemma RowTableStep(b: seq<int>, t: Torus, u: Torus, s: seq<Node>, r: seq<Node>, k: nat, columns: seq<nat>,
                     w: set<nat>, lab: map<nat, Label>, i: nat, v: nat)
    requires IsBoard(b) && RowTable(b, t, s, lab, columns) && TableOk(t, s, columns, w) && AllWanted(b, w)
    requires Candidate(b, i, v) && (forall y | k <= y < k + 4 :: y !in t.col) && RowsOk(u)
    requires OldRows(t, u, s, r, k) && NewRow(u, r, k, NeedColumns(columns, i, v), NeedNames(i, v))
    ensures RowTable(b, u, r, LabelRow(lab, k, Label(i, v)), columns)
  {
    hide RowsOk, LabelOk, RowEncodes, RowColsOf, NewRow, OldRows, NeedColumns, NeedNames;
    CandidateColumns(b, t, s, columns, w, i, v);
    var lab' := LabelRow(lab, k, Label(i, v));
    forall x: nat | IsItem(u, x)
      ensures LabelOk(u, r, lab', x) && RowColsOf(u, x) <= u.headers && RowEncodes(b, u, lab', columns, x)
    {
      OldRowsHeaders(t, u, s, r, k, x);
      if k <= x < k + 4 {
        NewRowOk(b, u, r, k, lab, columns, i, v, x);
      } else {
        OldRowKept(b, t, u, s, r, k, lab, columns, Label(i, v), x);
      }
    }
  }

  lemma OldRowsHeaders(t: Torus, u: Torus, s: seq<Node>, r: seq<Node>, k: nat, x: nat)
    requires OldRows(t, u, s, r, k)
    ensures u.headers == t.headers && (!(k <= x < k + 4) && IsItem(u, x) ==> IsItem(t, x))
  {
  }

  lemma RowTableNames(t: Torus, u: Torus, s: seq<Node>, r: seq<Node>, k: nat, columns: seq<nat>, w: set<nat>)
    requires TableOk(t, s, columns, w) && OldRows(t, u, s, r, k) && forall c | c in t.headers :: c < k
    ensures TableOk(u, r, columns, w)
  {
  }

  lemma RowsDoneStep(b: seq<int>, t: Torus, u: Torus, s: seq<Node>, r: seq<Node>, k: nat, lab: map<nat, Label>,
                     columns: seq<nat>, i: nat, v: nat, d: nat)
    requires IsBoard(b) && RowsDone(b, t, lab, d) && (forall y | k <= y < k + 4 :: y !in t.col)
    requires i < CELLS && 1 <= v <= 9 && d == i * 9 + v - 1 && |columns| == 400
    requires OldRows(t, u, s, r, k) && NewRow(u, r, k, NeedColumns(columns, i, v), NeedNames(i, v))
    ensures RowsDone(b, u, LabelRow(lab, k, Label(i, v)), d + 1)
  {
    var lab' := LabelRow(lab, k, Label(i, v));
    forall i': nat, v': nat | Candidate(b, i', v') && i' * 9 + v' - 1 < d + 1 ensures HasRow(u, lab', i', v') {
      if i' * 9 + v' - 1 < d {
        assert HasRow(t, lab, i', v');
        var x: nat :| IsItem(t, x) && x in lab && lab[x] == Label(i', v');
        assert IsItem(u, x) && x in lab' && lab'[x] == Label(i', v');
      } else {
        assert i' == i && v' == v;
        assert IsItem(u, k) && lab'[k] == Label(i, v);
      }
    }
  }

  /** Adding the row of a candidate keeps all of it. */
  lemma RowStep(b: seq<int>, t: Torus, v: View, s: seq<Node>, cur: nat, columns: seq<nat>,
                w: set<nat>, lab: map<nat, Label>, i: nat, d: nat)
    requires BuildInv(b, t, v, s, cur, columns, w, lab) && AllWanted(b, w)
    requires cur + 3 < |s| && Candidate(b, i, d) && RowsDone(b, t, lab, i * 9 + d - 1)
    ensures var cs, ns := NeedColumns(columns, i, d), NeedNames(i, d);
      && RowFits(t, v, s, cur, cs)
      && BuildInv(b, TorusWithRow(t, cur, cs), ViewSoFar(v, cur, cs, 4), RowAdded(s, cur, cs, ns), cur + 4,
                  columns, w, LabelRow(lab, cur, Label(i, d)))
      && RowsDone(b, TorusWithRow(t, cur, cs), LabelRow(lab, cur, Label(i, d)), i * 9 + d)
  {
    var cs, ns := NeedColumns(columns, i, d), NeedNames(i, d);
    RowFitsHere(b, t, v, s, cur, columns, w, lab, i, d);
    hide TorusWithRow, ViewSoFar, RowAdded, Candidate, NeedColumns, NeedNames, Rep, Full, TableOk, RowTable,
      RowsDone, OldRows, NewRow, RowFits, AllWanted, LabelRow;
    RowAddedRep(t, v, s, cur, cs, ns);
    var u, r := TorusWithRow(t, cur, cs), RowAdded(s, cur, cs, ns);
    TorusRowsOk(u, ViewSoFar(v, cur, cs, 4), r);
    RowFull(t, v, s, cur, cs);
    RowTableNames(t, u, s, r, cur, columns, w);
    RowTableStep(b, t, u, s, r, cur, columns, w, lab, i, d);
    RowsDoneStep(b, t, u, s, r, cur, lab, columns, i, d, i * 9 + d - 1);
  }

  lemma TorusRowsOk(t: Torus, v: View, s: seq<Node>)
    requires Rep(t, v, s)
    ensures RowsOk(t)
  {
  }

  lemma RowFitsHere(b: seq<int>, t: Torus, v: View, s: seq<Node>, cur: nat, columns: seq<nat>,
                    w: set<nat>, lab: map<nat, Label>, i: nat, d: nat)
    requires BuildInv(b, t, v, s, cur, columns, w, lab) && AllWanted(b, w) && cur + 3 < |s| && Candidate(b, i, d)
    ensures RowFits(t, v, s, cur, NeedColumns(columns, i, d)) && |columns| == 400
    ensures i < CELLS && 1 <= d <= 9 && Bounded(s) && (forall y | cur <= y < cur + 4 :: y !in t.col)
    ensures forall c | c in t.headers :: c < cur
  {
    CandidateColumns(b, t, s, columns, w, i, d);
    forall x: nat | cur <= x < cur + 4 ensures Unused(t, x) {
      assert x in t.col ==> IsItem(t, x);
    }
  }

  // ---------------------------------------------------------------- the finished torus

  lemma FullInv(t: Torus, v: View, s: seq<Node>, cur: nat)
    requires Rep(t, v, s) && Full(t, v, cur)
    ensures Inv(t, v, s)
  {
    forall x: nat | IsItem(t, x) ensures RowOk(t, x) && RowCols(t, x) <= Elems(v.heads) {
      assert RowOk(t, x);
      forall c | c in RowCols(t, x) ensures c in t.headers {
        var y :| y in RowSet(t, x) && t.col[y] == c;
        assert IsItem(t, y);
      }
    }
  }

  lemma TableColumns(b: seq<int>, t: Torus, s: seq<Node>, columns: seq<nat>, w: set<nat>)
    requires IsBoard(b) && TableOk(t, s, columns, w) && AllWanted(b, w)
    ensures ColumnsOk(b, t, columns)
  {
    forall c: nat | c in t.headers ensures exists n :: 0 <= n < 400 && columns[n] == c && c != 0 {
      assert columns[s[c].name] == c;
    }
  }

  /** When every wanted column and every candidate row is in, the board's problem is posed. */
  lemma Finished(b: seq<int>, t: Torus, v: View, s: seq<Node>, cur: nat, columns: seq<nat>,
                 w: set<nat>, lab: map<nat, Label>)
    requires BuildInv(b, t, v, s, cur, columns, w, lab) && AllWanted(b, w) && RowsDone(b, t, lab, 81 * 9)
    ensures Inv(t, v, s) && Elems(v.heads) == t.headers && Labelled(t, s, lab) && Encodes(b, t, lab, columns)
  {
    FullInv(t, v, s, cur);
    TableColumns(b, t, s, columns, w);
  }
}
