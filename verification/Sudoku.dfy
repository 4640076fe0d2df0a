/**
  Sudoku itself: what a completion of a board is, and that the exact covers of
  the torus the solver builds are exactly the completions.
*/
module Sudoku {
  import opened Torus
  import opened ExactCover

  const CELLS: nat := 81

  /** The cell a row of the torus fills and the digit it puts there. */
  datatype Label = Label(cell: nat, val: nat)

  predicate IsBoard(b: seq<int>) {
    |b| == CELLS && forall i | 0 <= i < CELLS :: 0 <= b[i] <= 9
  }

  /** Cell i's row (k = 0), column (k = 1) or box (k = 2), sudoku.cc:48-50. */
  function UnitOf(k: nat, i: nat): nat {
    if k == 0 then i / 9 else if k == 1 then i % 9 else i / 9 / 3 * 3 + i % 9 / 3
  }

  /** Names of the columns for digit v in unit u, sudoku.cc:186-199. */
  function UnitColumn(k: nat, u: nat, v: nat): nat {
    100 * (k + 1) + u * 10 + v
  }

  /**
    A completion keeps the givens, fills every cell with a digit and repeats no
    digit in a row, column or box.
  */
  ghost predicate Completion(b: seq<int>, sol: seq<int>)
    requires IsBoard(b)
  {
    && |sol| == CELLS
    && (forall i | 0 <= i < CELLS :: 1 <= sol[i] <= 9 && (b[i] != 0 ==> sol[i] == b[i]))
    && (forall k: nat, i: nat, j: nat | k < 3 && i < j < CELLS && UnitOf(k, i) == UnitOf(k, j) :: sol[i] != sol[j])
  }

  // ---------------------------------------------------------------- units and the pigeonhole

  /** The p-th cell of a unit, and where in its unit a cell stands. */
  function CellAt(k: nat, u: nat, p: nat): nat {
    if k == 0 then u * 9 + p
    else if k == 1 then p * 9 + u
    else (u / 3 * 3 + p / 3) * 9 + u % 3 * 3 + p % 3
  }

  function PlaceOf(k: nat, i: nat): nat {
    if k == 0 then i % 9 else if k == 1 then i / 9 else i / 9 % 3 * 3 + i % 9 % 3
  }

  lemma ByNine(a: nat, r: nat)
    requires r < 9
    ensures (a * 9 + r) / 9 == a && (a * 9 + r) % 9 == r
  {
  }

  lemma ByThree(a: nat, r: nat)
    requires r < 3
    ensures (a * 3 + r) / 3 == a && (a * 3 + r) % 3 == r
  {
  }

  lemma CellOfBox(a: nat, b: nat, c: nat, d: nat)
    requires a < 3 && b < 3 && c < 3 && d < 3
    ensures var i := (a * 3 + c) * 9 + b * 3 + d;
      && i < CELLS && i / 9 / 3 == a && i / 9 % 3 == c && i % 9 / 3 == b && i % 9 % 3 == d
  {
    var hi, lo := a * 3 + c, b * 3 + d;
    var i := hi * 9 + lo;
    ByNine(hi, lo);
    assert i / 9 == hi && i % 9 == lo;
    ByThree(a, c);
    ByThree(b, d);
  }

  lemma CellOfUnit(k: nat, u: nat, p: nat)
    requires k < 3 && u < 9 && p < 9
    ensures CellAt(k, u, p) < CELLS && UnitOf(k, CellAt(k, u, p)) == u && PlaceOf(k, CellAt(k, u, p)) == p
  {
    if k < 2 {
      ByNine(u, p);
      ByNine(p, u);
    } else {
      CellOfBox(u / 3, u % 3, p / 3, p % 3);
    }
  }

  lemma UnitOfCell(k: nat, i: nat)
    requires k < 3 && i < CELLS
    ensures UnitOf(k, i) < 9 && PlaceOf(k, i) < 9 && CellAt(k, UnitOf(k, i), PlaceOf(k, i)) == i
  {
    var r, c := i / 9, i % 9;
    assert i == r * 9 + c && r < 9 && c < 9;
    ByThree(r / 3, c / 3);
    ByThree(r % 3, c % 3);
    if k == 2 {
      assert r == r / 3 * 3 + r % 3 && c == c / 3 * 3 + c % 3;
      assert UnitOf(k, i) == r / 3 * 3 + c / 3 && PlaceOf(k, i) == r % 3 * 3 + c % 3;
      assert CellAt(k, UnitOf(k, i), PlaceOf(k, i)) == r * 9 + c;
    }
  }

  ghost function Digits(sol: seq<int>, k: nat, u: nat): (q: seq<int>)
    requires |sol| == CELLS && k < 3 && u < 9
    ensures |q| == 9 && forall p: nat | p < 9 :: CellAt(k, u, p) < CELLS && q[p] == sol[CellAt(k, u, p)]
  {
    seq(9, p requires 0 <= p < 9 => CellOfUnit(k, u, p); sol[CellAt(k, u, p)])
  }

  ghost function Values(q: seq<int>): set<int> {
    set x | x in q
  }

  lemma {:induction false} ValuesSize(q: seq<int>)
    ensures |Values(q)| <= |q|
    ensures |Values(q)| == |q| <==> Distinct(q)
  {
    if q != [] {
      var k := |q| - 1;
      ValuesSize(q[..k]);
      assert q == q[..k] + [q[k]];
      assert Values(q) == Values(q[..k]) + {q[k]};
      if q[k] in q[..k] {
        var i :| 0 <= i < k && q[..k][i] == q[k];
        assert q[i] == q[k];
        assert Values(q) == Values(q[..k]);
      } else {
        assert forall i, j | 0 <= i < j < |q| && j < k :: q[i] == q[..k][i] && q[j] == q[..k][j];
        assert Distinct(q[..k]) ==> Distinct(q);
        assert Distinct(q) ==> Distinct(q[..k]);
      }
    }
  }

  const NINE: set<int> := {1, 2, 3, 4, 5, 6, 7, 8, 9}

  lemma SubsetSize(a: set<int>, b: set<int>)
    requires a <= b
    ensures |a| <= |b| && (|a| == |b| ==> a == b)
  {
    assert |b| == |a| + |b - a|;
  }

  /** Nine digits: no digit is missing exactly when none is repeated. */
  lemma Pigeonhole(q: seq<int>)
    requires |q| == 9 && forall p | 0 <= p < 9 :: 1 <= q[p] <= 9
    ensures Distinct(q) <==> forall v | 1 <= v <= 9 :: v in q
  {
    ValuesSize(q);
    forall x | x in Values(q) ensures x in NINE {
      var p :| 0 <= p < 9 && q[p] == x;
    }
    assert |NINE| == 9;
    if Distinct(q) {
      SubsetSize(Values(q), NINE);
      forall v | 1 <= v <= 9 ensures v in q {
        assert v in NINE;
        assert v in Values(q);
      }
    }
    if forall v | 1 <= v <= 9 :: v in q {
      assert NINE <= Values(q);
      SubsetSize(NINE, Values(q));
    }
  }

  /** Every unit contains every digit. */
  ghost predicate Complete(sol: seq<int>)
    requires |sol| == CELLS
  {
    forall k: nat, u: nat, v: nat | k < 3 && u < 9 && 1 <= v <= 9 :: Placed(sol, k, u, v)
  }

  ghost predicate Placed(sol: seq<int>, k: nat, u: nat, v: nat) {
    exists i :: 0 <= i < |sol| && UnitOf(k, i) == u && sol[i] == v
  }

  lemma PlacedInDigits(sol: seq<int>, k: nat, u: nat, v: nat)
    requires |sol| == CELLS && k < 3 && u < 9
    ensures Placed(sol, k, u, v) <==> v in Digits(sol, k, u)
  {
    var q := Digits(sol, k, u);
    if Placed(sol, k, u, v) {
      var i :| 0 <= i < |sol| && UnitOf(k, i) == u && sol[i] == v;
      UnitOfCell(k, i);
      assert q[PlaceOf(k, i)] == v;
    }
    if v in q {
      var p :| 0 <= p < 9 && q[p] == v;
      CellOfUnit(k, u, p);
    }
  }

  lemma UnitDistinct(sol: seq<int>, k: nat, u: nat)
    requires |sol| == CELLS && k < 3 && u < 9 && forall i | 0 <= i < CELLS :: 1 <= sol[i] <= 9
    ensures Distinct(Digits(sol, k, u)) <==> forall v: nat | 1 <= v <= 9 :: Placed(sol, k, u, v)
  {
    var q := Digits(sol, k, u);
    Pigeonhole(q);
    forall v: nat | 1 <= v <= 9 ensures Placed(sol, k, u, v) <==> v in q {
      PlacedInDigits(sol, k, u, v);
    }
  }

  ghost predicate NoRepeat(sol: seq<int>) {
    forall k: nat, i: nat, j: nat | k < 3 && i < j < |sol| && UnitOf(k, i) == UnitOf(k, j) :: sol[i] != sol[j]
  }

  /** No digit repeats in any unit exactly when no digit is missing from any. */
  lemma NoRepeatIffComplete(sol: seq<int>)
    requires |sol| == CELLS && forall i | 0 <= i < CELLS :: 1 <= sol[i] <= 9
    ensures NoRepeat(sol) <==> Complete(sol)
  {
    hide UnitOf, PlaceOf, CellAt;
    if NoRepeat(sol) {
      forall k: nat, u: nat, v: nat | k < 3 && u < 9 && 1 <= v <= 9 ensures Placed(sol, k, u, v) {
        UnitDistinct(sol, k, u);
        var q := Digits(sol, k, u);
        forall p: nat, r: nat | p < r < 9 ensures q[p] != q[r] {
          CellOfUnit(k, u, p);
          CellOfUnit(k, u, r);
        }
      }
    }
    if Complete(sol) {
      forall k: nat, i: nat, j: nat | k < 3 && i < j < CELLS && UnitOf(k, i) == UnitOf(k, j) ensures sol[i] != sol[j] {
        UnitOfCell(k, i);
        UnitOfCell(k, j);
        UnitDistinct(sol, k, UnitOf(k, i));
        var q := Digits(sol, k, UnitOf(k, i));
        assert q[PlaceOf(k, i)] == sol[i] && q[PlaceOf(k, j)] == sol[j];
      }
    }
  }

  // ---------------------------------------------------------------- the torus of a board

  ghost predicate Given(b: seq<int>, k: nat, u: nat, v: nat) {
    exists j :: 0 <= j < |b| && UnitOf(k, j) == u && b[j] == v
  }

  /** The column names of a board: empty cells, and digits no given supplies. */
  ghost predicate Wanted(b: seq<int>, n: nat)
    requires IsBoard(b)
  {
    (n < CELLS && b[n] == 0) ||
    (100 <= n < 400 && n % 100 / 10 < 9 && n % 10 >= 1 && !Given(b, n / 100 - 1, n % 100 / 10, n % 10))
  }

  /** The rows of a board: empty cell i takes digit v that none of its units has. */
  ghost predicate Candidate(b: seq<int>, i: nat, v: nat)
    requires IsBoard(b)
  {
    i < CELLS && 1 <= v <= 9 && b[i] == 0 && forall k: nat | k < 3 :: !Given(b, k, UnitOf(k, i), v)
  }

  ghost predicate Needs(i: nat, v: nat, n: nat) {
    n == i || n == UnitColumn(0, UnitOf(0, i), v) || n == UnitColumn(1, UnitOf(1, i), v)
    || n == UnitColumn(2, UnitOf(2, i), v)
  }

  lemma UnitColumnParts(k: nat, u: nat, v: nat)
    requires k < 3 && u < 9 && v < 10
    ensures var n := UnitColumn(k, u, v);
      100 <= n < 400 && n / 100 - 1 == k && n % 100 / 10 == u && n % 10 == v
  {
  }

  lemma UnitColumnOf(n: nat)
    requires 100 <= n < 400 && n % 100 / 10 < 9
    ensures n == UnitColumn(n / 100 - 1, n % 100 / 10, n % 10)
  {
  }

  /** What a row for cell i and digit v covers, read from a column's name. */
  lemma NeedsUnit(i: nat, v: nat, k: nat, u: nat, w: nat)
    requires i < CELLS && 1 <= v <= 9 && k < 3 && u < 9 && 1 <= w <= 9
    ensures Needs(i, v, UnitColumn(k, u, w)) <==> UnitOf(k, i) == u && v == w
  {
    hide UnitOf, UnitColumn;
    UnitOfCell(0, i);
    UnitOfCell(1, i);
    UnitOfCell(2, i);
    UnitColumnsDiffer(k, u, w, 0, UnitOf(0, i), v);
    UnitColumnsDiffer(k, u, w, 1, UnitOf(1, i), v);
    UnitColumnsDiffer(k, u, w, 2, UnitOf(2, i), v);
  }

  /** Different units and digits have different columns, none of them a cell's. */
  lemma UnitColumnsDiffer(k: nat, u: nat, v: nat, k': nat, u': nat, v': nat)
    requires k < 3 && u < 9 && v < 10 && k' < 3 && u' < 9 && v' < 10
    ensures UnitColumn(k, u, v) == UnitColumn(k', u', v') <==> k == k' && u == u' && v == v'
    ensures UnitColumn(k, u, v) >= 100
  {
    hide UnitColumn;
    UnitColumnParts(k, u, v);
    UnitColumnParts(k', u', v');
  }

  lemma NeedsCell(i: nat, v: nat, n: nat)
    requires n < CELLS
    ensures Needs(i, v, n) <==> n == i
  {
  }

  lemma CandidateWants(b: seq<int>, i: nat, v: nat, n: nat)
    requires IsBoard(b) && Candidate(b, i, v) && Needs(i, v, n)
    ensures Wanted(b, n) && n < 400
  {
    UnitOfCell(0, i);
    UnitOfCell(1, i);
    UnitOfCell(2, i);
    UnitColumnParts(0, UnitOf(0, i), v);
    UnitColumnParts(1, UnitOf(1, i), v);
    UnitColumnParts(2, UnitOf(2, i), v);
  }

  /** The header with a given name, where 0 (the root) stands for "no such column". */
  ghost predicate ColumnsOk(b: seq<int>, t: Torus, columns: seq<nat>)
    requires IsBoard(b)
  {
    && |columns| == 400
    && (forall n: nat | n < 400 :: columns[n] != 0 <==> Wanted(b, n))
    && (forall n: nat, m: nat | n < m < 400 && columns[n] != 0 :: columns[n] != columns[m])
    && (forall n: nat | n < 400 && columns[n] != 0 :: columns[n] in t.headers)
    && (forall c: nat | c in t.headers :: exists n :: 0 <= n < 400 && columns[n] == c && c != 0)
  }

  /** Row x is the row of its label: it has the four columns that label needs. */
  ghost predicate RowEncodes(b: seq<int>, t: Torus, lab: map<nat, Label>, columns: seq<nat>, x: nat)
    requires IsBoard(b) && RowsOk(t)
  {
    && x in lab && Candidate(b, lab[x].cell, lab[x].val) && |columns| == 400
    && (forall n: nat | n < 400 && columns[n] != 0 ::
          columns[n] in RowColsOf(t, x) <==> Needs(lab[x].cell, lab[x].val, n))
  }

  /** The torus poses the exact cover problem of board b. */
  ghost predicate Encodes(b: seq<int>, t: Torus, lab: map<nat, Label>, columns: seq<nat>)
    requires IsBoard(b)
  {
    && RowsOk(t) && ColumnsOk(b, t, columns)
    && (forall x: nat | IsItem(t, x) :: RowColsOf(t, x) <= t.headers && RowEncodes(b, t, lab, columns, x))
    && (forall i: nat, v: nat | Candidate(b, i, v) :: HasRow(t, lab, i, v))
  }

  ghost predicate HasRow(t: Torus, lab: map<nat, Label>, i: nat, v: nat) {
    exists x: nat :: IsItem(t, x) && x in lab && lab[x] == Label(i, v)
  }

  /** Row x reads as lab[x] wherever solve() starts reading it. */
  ghost predicate LabelOk(t: Torus, s: seq<Node>, lab: map<nat, Label>, x: nat)
    requires IsItem(t, x)
  {
    && x in lab && lab[x].cell < CELLS
    && (forall y | y in RowSet(t, x) :: y < |s|
          && (if s[y].name < 100 then s[y].name == lab[x].cell else s[y].name % 10 == lab[x].val))
    && (exists y :: y in RowSet(t, x) && y < |s| && s[y].name < 100)
    && (exists y :: y in RowSet(t, x) && y < |s| && s[y].name >= 100)
  }

  ghost predicate Labelled(t: Torus, s: seq<Node>, lab: map<nat, Label>) {
    forall x: nat | IsItem(t, x) :: LabelOk(t, s, lab, x)
  }

  // ---------------------------------------------------------------- writing the answer

  ghost predicate LabelledPicks(lab: map<nat, Label>, xs: seq<nat>) {
    forall i | 0 <= i < |xs| :: xs[i] in lab && lab[xs[i]].cell < CELLS
  }

  /** The board with the rows of xs written into it, first to last. */
  ghost function Written(b: seq<int>, lab: map<nat, Label>, xs: seq<nat>): (r: seq<int>)
    requires |b| == CELLS && LabelledPicks(lab, xs)
    ensures |r| == CELLS
  {
    if xs == [] then b else
      var k := |xs| - 1;
      Written(b, lab, xs[..k])[lab[xs[k]].cell := lab[xs[k]].val]
  }

  /** A cell that exactly one row fills gets that row's digit; one that none fills is kept. */
  lemma {:induction false} WrittenAt(b: seq<int>, lab: map<nat, Label>, xs: seq<nat>, i: nat)
    requires |b| == CELLS && LabelledPicks(lab, xs) && i < CELLS
    ensures (forall m | 0 <= m < |xs| :: lab[xs[m]].cell != i) ==> Written(b, lab, xs)[i] == b[i]
    ensures forall m | 0 <= m < |xs| && lab[xs[m]].cell == i
      && (forall j | m < j < |xs| :: lab[xs[j]].cell != i) :: Written(b, lab, xs)[i] == lab[xs[m]].val
  {
    if xs != [] {
      var k := |xs| - 1;
      assert xs == xs[..k] + [xs[k]];
      WrittenAt(b, lab, xs[..k], i);
      assert forall m | 0 <= m < k :: xs[..k][m] == xs[m];
    }
  }

  // ---------------------------------------------------------------- every exact cover is a completion

  ghost predicate Poses(b: seq<int>, t: Torus, lab: map<nat, Label>, columns: seq<nat>, picks: seq<nat>)
  {
    IsBoard(b) && Encodes(b, t, lab, columns) && IsExactCover(t, t.headers, picks)
  }

  lemma PickLabel(b: seq<int>, t: Torus, lab: map<nat, Label>, columns: seq<nat>, picks: seq<nat>, m: nat)
    requires Poses(b, t, lab, columns, picks) && m < |picks|
    ensures IsItem(t, picks[m]) && RowEncodes(b, t, lab, columns, picks[m])
    ensures picks[m] in lab && lab[picks[m]].cell < CELLS
  {
    assert Within(t, t.headers, picks[m]);
  }

  lemma PicksLabelled(b: seq<int>, t: Torus, lab: map<nat, Label>, columns: seq<nat>, picks: seq<nat>)
    requires Poses(b, t, lab, columns, picks)
    ensures LabelledPicks(lab, picks)
  {
    forall m: nat | m < |picks| ensures picks[m] in lab && lab[picks[m]].cell < CELLS {
      PickLabel(b, t, lab, columns, picks, m);
    }
  }

  ghost predicate Meets(lab: map<nat, Label>, x: nat, n: nat) {
    x in lab && Needs(lab[x].cell, lab[x].val, n)
  }

  /** Each wanted column is met by a pick ... */
  lemma SomePickMeets(b: seq<int>, t: Torus, lab: map<nat, Label>, columns: seq<nat>, picks: seq<nat>, n: nat)
    returns (m: nat)
    requires Poses(b, t, lab, columns, picks) && n < 400 && Wanted(b, n)
    ensures m < |picks| && Meets(lab, picks[m], n)
  {
    assert columns[n] in t.headers;
    m :| 0 <= m < |picks| && columns[n] in RowColsOf(t, picks[m]);
    PickLabel(b, t, lab, columns, picks, m);
  }

  /** ... and by no two. */
  lemma OnePickMeets(b: seq<int>, t: Torus, lab: map<nat, Label>, columns: seq<nat>, picks: seq<nat>,
                     n: nat, m: nat, m': nat)
    requires Poses(b, t, lab, columns, picks) && n < 400 && Wanted(b, n) && m < m' < |picks|
    ensures !(Meets(lab, picks[m], n) && Meets(lab, picks[m'], n))
  {
    PickLabel(b, t, lab, columns, picks, m);
    PickLabel(b, t, lab, columns, picks, m');
    assert Apart(t, picks[m], picks[m']);
  }

  /** The pick for a cell is the one whose digit ends up there. */
  lemma AnswerAtPick(b: seq<int>, t: Torus, lab: map<nat, Label>, columns: seq<nat>, picks: seq<nat>, m: nat)
    requires Poses(b, t, lab, columns, picks) && m < |picks| && LabelledPicks(lab, picks)
    ensures Written(b, lab, picks)[lab[picks[m]].cell] == lab[picks[m]].val
    ensures 1 <= lab[picks[m]].val <= 9
  {
    var i := lab[picks[m]].cell;
    PickLabel(b, t, lab, columns, picks, m);
    NeedsCell(i, lab[picks[m]].val, i);
    forall j | m < j < |picks| ensures lab[picks[j]].cell != i {
      OnePickMeets(b, t, lab, columns, picks, i, m, j);
    }
    WrittenAt(b, lab, picks, i);
  }

  /** Givens are kept and empty cells get digits. */
  lemma AnswerAtCell(b: seq<int>, t: Torus, lab: map<nat, Label>, columns: seq<nat>, picks: seq<nat>, i: nat)
    requires Poses(b, t, lab, columns, picks) && i < CELLS && LabelledPicks(lab, picks)
    ensures 1 <= Written(b, lab, picks)[i] <= 9 && (b[i] != 0 ==> Written(b, lab, picks)[i] == b[i])
  {
    if b[i] == 0 {
      var m := SomePickMeets(b, t, lab, columns, picks, i);
      NeedsCell(lab[picks[m]].cell, lab[picks[m]].val, i);
      AnswerAtPick(b, t, lab, columns, picks, m);
    } else {
      forall m: nat | m < |picks| ensures lab[picks[m]].cell != i {
        PickLabel(b, t, lab, columns, picks, m);
      }
      WrittenAt(b, lab, picks, i);
    }
  }

  lemma AnswerPlaces(b: seq<int>, t: Torus, lab: map<nat, Label>, columns: seq<nat>, picks: seq<nat>,
                     k: nat, u: nat, v: nat)
    requires Poses(b, t, lab, columns, picks) && LabelledPicks(lab, picks) && k < 3 && u < 9 && 1 <= v <= 9
    ensures Placed(Written(b, lab, picks), k, u, v)
  {
    var sol := Written(b, lab, picks);
    if Given(b, k, u, v) {
      var j :| 0 <= j < |b| && UnitOf(k, j) == u && b[j] == v;
      AnswerAtCell(b, t, lab, columns, picks, j);
    } else {
      UnitColumnParts(k, u, v);
      var m := SomePickMeets(b, t, lab, columns, picks, UnitColumn(k, u, v));
      PickLabel(b, t, lab, columns, picks, m);
      NeedsUnit(lab[picks[m]].cell, lab[picks[m]].val, k, u, v);
      AnswerAtPick(b, t, lab, columns, picks, m);
    }
  }

  /** Writing any exact cover into the board completes it, however the givens clash. */
  lemma CoverIsCompletion(b: seq<int>, t: Torus, lab: map<nat, Label>, columns: seq<nat>, picks: seq<nat>)
    requires IsBoard(b) && Encodes(b, t, lab, columns) && IsExactCover(t, t.headers, picks)
    ensures LabelledPicks(lab, picks) && Completion(b, Written(b, lab, picks))
  {
    PicksLabelled(b, t, lab, columns, picks);
    var sol := Written(b, lab, picks);
    forall i: nat | i < CELLS ensures 1 <= sol[i] <= 9 && (b[i] != 0 ==> sol[i] == b[i]) {
      AnswerAtCell(b, t, lab, columns, picks, i);
    }
    forall k: nat, u: nat, v: nat | k < 3 && u < 9 && 1 <= v <= 9 ensures Placed(sol, k, u, v) {
      AnswerPlaces(b, t, lab, columns, picks, k, u, v);
    }
    NoRepeatIffComplete(sol);
  }

  // ---------------------------------------------------------------- every completion is an exact cover

  ghost predicate Solves(b: seq<int>, t: Torus, lab: map<nat, Label>, columns: seq<nat>, sol: seq<int>) {
    IsBoard(b) && Encodes(b, t, lab, columns) && Completion(b, sol)
  }

  /** A completion fills each empty cell with a digit the solver has a row for. */
  lemma CompletionCandidate(b: seq<int>, sol: seq<int>, i: nat)
    requires IsBoard(b) && Completion(b, sol) && i < CELLS && b[i] == 0
    ensures Candidate(b, i, sol[i])
  {
    forall k: nat | k < 3 ensures !Given(b, k, UnitOf(k, i), sol[i]) {
      if j :| 0 <= j < |b| && UnitOf(k, j) == UnitOf(k, i) && b[j] == sol[i] {
        assert false;
      }
    }
  }

  ghost function RowFor(t: Torus, lab: map<nat, Label>, i: nat, v: nat): (x: nat)
    requires HasRow(t, lab, i, v)
    ensures IsItem(t, x) && x in lab && lab[x] == Label(i, v)
  {
    var x: nat :| IsItem(t, x) && x in lab && lab[x] == Label(i, v);
    x
  }

  /** The rows of the empty cells below n. */
  ghost function Chosen(b: seq<int>, t: Torus, lab: map<nat, Label>, columns: seq<nat>, sol: seq<int>, n: nat): seq<nat>
    requires Solves(b, t, lab, columns, sol) && n <= CELLS
  {
    if n == 0 then [] else
      var rest := Chosen(b, t, lab, columns, sol, n - 1);
      if b[n - 1] != 0 then rest else
        CompletionCandidate(b, sol, n - 1);
        rest + [RowFor(t, lab, n - 1, sol[n - 1])]
  }

  /** Entry x of a choice is the row of the digit its cell has in the completion. */
  ghost predicate Fits(b: seq<int>, t: Torus, lab: map<nat, Label>, sol: seq<int>, x: nat)
    requires |b| == |sol| == CELLS
  {
    && IsItem(t, x) && x in lab && lab[x].cell < CELLS
    && b[lab[x].cell] == 0 && lab[x].val == sol[lab[x].cell]
  }

  ghost predicate Filled(lab: map<nat, Label>, picks: seq<nat>, i: nat) {
    exists m :: 0 <= m < |picks| && picks[m] in lab && lab[picks[m]].cell == i
  }

  /** The picks are the rows of the empty cells below n, in cell order. */
  ghost predicate GoodChoice(b: seq<int>, t: Torus, lab: map<nat, Label>, sol: seq<int>, picks: seq<nat>, n: nat)
    requires |b| == |sol| == CELLS
  {
    && (forall m | 0 <= m < |picks| :: Fits(b, t, lab, sol, picks[m]) && lab[picks[m]].cell < n)
    && (forall m, m' | 0 <= m < m' < |picks| ::
          Fits(b, t, lab, sol, picks[m]) && Fits(b, t, lab, sol, picks[m']) && lab[picks[m]].cell < lab[picks[m']].cell)
    && (forall i: nat | i < n <= CELLS && b[i] == 0 :: Filled(lab, picks, i))
  }

  lemma GoodChoiceSnoc(b: seq<int>, t: Torus, lab: map<nat, Label>, sol: seq<int>, rest: seq<nat>, n: nat, x: nat)
    requires |b| == |sol| == CELLS && n < CELLS && GoodChoice(b, t, lab, sol, rest, n)
    requires Fits(b, t, lab, sol, x) && lab[x].cell == n
    ensures GoodChoice(b, t, lab, sol, rest + [x], n + 1)
  {
    var picks := rest + [x];
    assert forall m | 0 <= m < |rest| :: picks[m] == rest[m];
    forall i: nat | i < n + 1 && b[i] == 0 ensures Filled(lab, picks, i) {
      if i < n {
        assert Filled(lab, rest, i);
        var m :| 0 <= m < |rest| && rest[m] in lab && lab[rest[m]].cell == i;
        assert picks[m] == rest[m];
      } else {
        assert picks[|rest|] == x;
      }
    }
  }

  lemma {:induction false} ChosenFits(b: seq<int>, t: Torus, lab: map<nat, Label>, columns: seq<nat>, sol: seq<int>,
                                      n: nat)
    requires Solves(b, t, lab, columns, sol) && n <= CELLS
    ensures GoodChoice(b, t, lab, sol, Chosen(b, t, lab, columns, sol, n), n)
  {
    hide Encodes, Completion, GoodChoice, Fits, HasRow, IsItem;
    SolvesSizes(b, t, lab, columns, sol);
    if n == 0 {
      NoChoice(b, t, lab, sol);
    } else {
      ChosenFits(b, t, lab, columns, sol, n - 1);
      var rest := Chosen(b, t, lab, columns, sol, n - 1);
      if b[n - 1] == 0 {
        ChosenRowFits(b, t, lab, columns, sol, n - 1);
        GoodChoiceSnoc(b, t, lab, sol, rest, n - 1, RowFor(t, lab, n - 1, sol[n - 1]));
      } else {
        GoodChoiceGiven(b, t, lab, sol, rest, n - 1);
      }
    }
  }

  lemma SolvesSizes(b: seq<int>, t: Torus, lab: map<nat, Label>, columns: seq<nat>, sol: seq<int>)
    requires Solves(b, t, lab, columns, sol)
    ensures |b| == |sol| == CELLS && forall i | 0 <= i < CELLS :: sol[i] >= 0
  {
  }

  lemma NoChoice(b: seq<int>, t: Torus, lab: map<nat, Label>, sol: seq<int>)
    requires |b| == |sol| == CELLS
    ensures GoodChoice(b, t, lab, sol, [], 0)
  {
  }

  lemma GoodChoiceGiven(b: seq<int>, t: Torus, lab: map<nat, Label>, sol: seq<int>, rest: seq<nat>, n: nat)
    requires |b| == |sol| == CELLS && n < CELLS && b[n] != 0 && GoodChoice(b, t, lab, sol, rest, n)
    ensures GoodChoice(b, t, lab, sol, rest, n + 1)
  {
  }

  lemma ChosenRowFits(b: seq<int>, t: Torus, lab: map<nat, Label>, columns: seq<nat>, sol: seq<int>, i: nat)
    requires Solves(b, t, lab, columns, sol) && i < CELLS && b[i] == 0
    ensures sol[i] >= 0 && HasRow(t, lab, i, sol[i])
    ensures var x := RowFor(t, lab, i, sol[i]); x in lab && lab[x].cell == i && Fits(b, t, lab, sol, x)
  {
    hide UnitOf, UnitColumn, Needs, Given;
    CompletionCandidate(b, sol, i);
  }

  /** Two cells of a completion never need the same column. */
  lemma NeedsApart(b: seq<int>, sol: seq<int>, i: nat, j: nat, n: nat)
    requires IsBoard(b) && Completion(b, sol) && i < j < CELLS && n < 400 && Wanted(b, n)
    ensures !(Needs(i, sol[i], n) && Needs(j, sol[j], n))
  {
    if n < CELLS {
      NeedsCell(i, sol[i], n);
      NeedsCell(j, sol[j], n);
    } else {
      UnitColumnOf(n);
      var k, u, v := n / 100 - 1, n % 100 / 10, n % 10;
      NeedsUnit(i, sol[i], k, u, v);
      NeedsUnit(j, sol[j], k, u, v);
    }
  }

  lemma FitsApart(b: seq<int>, t: Torus, lab: map<nat, Label>, columns: seq<nat>, sol: seq<int>, x: nat, y: nat)
    requires Solves(b, t, lab, columns, sol) && Fits(b, t, lab, sol, x) && Fits(b, t, lab, sol, y)
    requires lab[x].cell < lab[y].cell
    ensures Apart(t, x, y)
  {
    assert RowEncodes(b, t, lab, columns, x) && RowEncodes(b, t, lab, columns, y) && RowOk(t, x) && RowOk(t, y);
    forall c | c in RowColsOf(t, x) ensures c !in RowColsOf(t, y) {
      assert c in t.headers;
      var n :| 0 <= n < 400 && columns[n] == c && c != 0;
      NeedsApart(b, sol, lab[x].cell, lab[y].cell, n);
    }
  }

  /** Some empty cell of a completion needs each wanted column. */
  lemma SomeCellNeeds(b: seq<int>, sol: seq<int>, n: nat) returns (i: nat)
    requires IsBoard(b) && Completion(b, sol) && n < 400 && Wanted(b, n)
    ensures i < CELLS && b[i] == 0 && Needs(i, sol[i], n)
  {
    if n < CELLS {
      i := n;
    } else {
      UnitColumnOf(n);
      var k, u, v := n / 100 - 1, n % 100 / 10, n % 10;
      NoRepeatIffComplete(sol);
      assert NoRepeat(sol);
      assert Placed(sol, k, u, v);
      i :| 0 <= i < |sol| && UnitOf(k, i) == u && sol[i] == v;
      assert b[i] == v ==> Given(b, k, u, v);
      NeedsUnit(i, v, k, u, v);
    }
  }

  /** The rows chosen for a completion write out just that completion. */
  lemma ChosenWrites(b: seq<int>, t: Torus, lab: map<nat, Label>, columns: seq<nat>, sol: seq<int>, picks: seq<nat>)
    requires Solves(b, t, lab, columns, sol) && GoodChoice(b, t, lab, sol, picks, CELLS)
    ensures LabelledPicks(lab, picks) && Written(b, lab, picks) == sol
  {
    hide Encodes, UnitOf;
    assert forall m | 0 <= m < |picks| :: Fits(b, t, lab, sol, picks[m]);
    var w := Written(b, lab, picks);
    forall i: nat | i < CELLS
      ensures w[i] == sol[i]
    {
      WrittenAt(b, lab, picks, i);
      if b[i] == 0 {
        assert Filled(lab, picks, i);
        var m :| 0 <= m < |picks| && picks[m] in lab && lab[picks[m]].cell == i;
        assert forall j | m < j < |picks| :: lab[picks[m]].cell < lab[picks[j]].cell;
      }
    }
  }

  /** Every completion of the board is what some exact cover of its torus writes. */
  lemma CompletionIsCover(b: seq<int>, t: Torus, lab: map<nat, Label>, columns: seq<nat>, sol: seq<int>)
    returns (picks: seq<nat>)
    requires IsBoard(b) && Encodes(b, t, lab, columns) && Completion(b, sol)
    ensures IsExactCover(t, t.headers, picks) && LabelledPicks(lab, picks) && Written(b, lab, picks) == sol
  {
    picks := Chosen(b, t, lab, columns, sol, CELLS);
    ChosenFits(b, t, lab, columns, sol, CELLS);
    ChosenWrites(b, t, lab, columns, sol, picks);
    forall m | 0 <= m < |picks| ensures Within(t, t.headers, picks[m]) {
      assert Fits(b, t, lab, sol, picks[m]) && RowOk(t, picks[m]);
    }
    forall m, m' | 0 <= m < m' < |picks| ensures Apart(t, picks[m], picks[m']) {
      FitsApart(b, t, lab, columns, sol, picks[m], picks[m']);
    }
    forall c | c in t.headers ensures exists m :: 0 <= m < |picks| && c in RowColsOf(t, picks[m]) {
      var n :| 0 <= n < 400 && columns[n] == c && c != 0;
      var i := SomeCellNeeds(b, sol, n);
      assert Filled(lab, picks, i);
      var m :| 0 <= m < |picks| && picks[m] in lab && lab[picks[m]].cell == i;
      assert Fits(b, t, lab, sol, picks[m]) && RowEncodes(b, t, lab, columns, picks[m]);
    }
    assert IsExactCover(t, t.headers, picks);
  }

  /** Two cells share a unit when they share a row, a column, or a square of three rows and three columns. */
  lemma UnitsAre(i: nat, j: nat)
    requires i < 81 && j < 81
    ensures UnitOf(0, i) == UnitOf(0, j) <==> i / 9 == j / 9
    ensures UnitOf(1, i) == UnitOf(1, j) <==> i % 9 == j % 9
    ensures UnitOf(2, i) == UnitOf(2, j) <==> i / 27 == j / 27 && i % 9 / 3 == j % 9 / 3
  {
    var a, b, c, d := i / 9 / 3, i % 9 / 3, j / 9 / 3, j % 9 / 3;
    assert a == i / 27 && c == j / 27;
    ByThree(a, b);
    ByThree(c, d);
  }
}
