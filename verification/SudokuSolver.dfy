/**
  The solver of examples/sudoku/sudoku.cc: Knuth's dancing links over a fixed
  array of nodes, with the board written back through `inout`.
*/
module SudokuSolver {
  import opened Torus
  import opened Cover
  import opened ExactCover
  import opened Sudoku
  import opened TorusBuild
  import opened SudokuBuild

  lemma LabelsSurvive(t: Torus, s: seq<Node>, r: seq<Node>, lab: map<nat, Label>)
    requires Labelled(t, s, lab) && SameNames(s, r)
    ensures Labelled(t, r, lab)
  {
    forall x: nat | IsItem(t, x) ensures LabelOk(t, r, lab, x) {
      assert LabelOk(t, s, lab, x);
    }
  }

  ghost predicate Picked(t: Torus, xs: seq<nat>) {
    forall i | 0 <= i < |xs| :: IsItem(t, xs[i])
  }

  lemma InvRowsOk(t: Torus, v: View, s: seq<Node>)
    requires Inv(t, v, s)
    ensures RowsOk(t)
  {
  }

  /** The rows of column c that the problem with columns heads still allows. */
  lemma CandidatesListed(t: Torus, v: View, s: seq<Node>, c: nat)
    requires Inv(t, v, s) && c in v.heads
    ensures RowsOk(t) && c in v.lists
    ensures forall x: nat :: Within(t, Elems(v.heads), x) && t.col[x] == c ==> x in v.lists[c]
  {
    InvRowsOk(t, v, s);
    assert c in Elems(v.heads);
  }

  lemma GivenSnoc(b: seq<int>, d: int, k: nat, u: nat, v: nat)
    ensures Given(b + [d], k, u, v) <==> Given(b, k, u, v) || (UnitOf(k, |b|) == u && d == v)
  {
    var bb := b + [d];
    if Given(b, k, u, v) {
      var j :| 0 <= j < |b| && UnitOf(k, j) == u && b[j] == v;
      assert bb[j] == v;
    }
    if UnitOf(k, |b|) == u && d == v {
      assert bb[|b|] == v;
    }
  }

  lemma BuildSizes(b: seq<int>, t: Torus, v: View, s: seq<Node>, cur: nat, columns: seq<nat>,
                   w: set<nat>, lab: map<nat, Label>)
    requires BuildInv(b, t, v, s, cur, columns, w, lab)
    ensures |columns| == 400 && |s| == MAX_NODES && 0 < cur <= MAX_NODES && Bounded(s) && IsBoard(b)
  {
  }

  lemma FreshBounded(s: seq<Node>, r: nat, c: nat, name: nat)
    requires Bounded(s) && r < |s| && c < |s|
    ensures Bounded(s[r := FreshNode(r, name).(col := c)])
  {
  }

  lemma RowLists(t: Torus, v: View, s: seq<Node>, k: nat, cs: seq<nat>)
    requires RowFits(t, v, s, k, cs)
    ensures |cs| == 4 && forall i | 0 <= i < |cs| :: cs[i] in v.lists
  {
  }

  lemma FourItems(s: seq<Node>, k: nat, cs: seq<nat>, ns: seq<nat>)
    requires Bounded(s) && |cs| == |ns| == 4 && k + 3 < |s| && forall i | 0 <= i < |cs| :: cs[i] < |s|
    ensures ItemsAdded(s, k, cs, ns, 4) ==
      ItemAdded(ItemAdded(ItemAdded(ItemAdded(s, k, cs[0], ns[0]), k + 1, cs[1], ns[1]), k + 2, cs[2], ns[2]),
                k + 3, cs[3], ns[3])
  {
    hide ItemAdded, Bounded;
    assert ItemsAdded(s, k, cs, ns, 0) == s;
    assert ItemsAdded(s, k, cs, ns, 1) == ItemAdded(s, k, cs[0], ns[0]);
    assert ItemsAdded(s, k, cs, ns, 2) == ItemAdded(ItemsAdded(s, k, cs, ns, 1), k + 1, cs[1], ns[1]);
    assert ItemsAdded(s, k, cs, ns, 3) == ItemAdded(ItemsAdded(s, k, cs, ns, 2), k + 2, cs[2], ns[2]);
  }

  lemma NothingDone(b: seq<int>, t: Torus, lab: map<nat, Label>)
    requires IsBoard(b)
    ensures RowsDone(b, t, lab, 0)
  {
  }

  lemma CandidateByMarks(b: seq<int>, i: nat, v: nat)
    requires IsBoard(b) && i < CELLS && 1 <= v <= 9 && b[i] == 0
    ensures Candidate(b, i, v) <==>
      !Given(b, 0, i / 9, v) && !Given(b, 1, i % 9, v) && !Given(b, 2, i / 9 / 3 * 3 + i % 9 / 3, v)
  {
    assert UnitOf(0, i) == i / 9 && UnitOf(1, i) == i % 9 && UnitOf(2, i) == i / 9 / 3 * 3 + i % 9 / 3;
    if Candidate(b, i, v) {
      assert !Given(b, 0, UnitOf(0, i), v) && !Given(b, 1, UnitOf(1, i), v) && !Given(b, 2, UnitOf(2, i), v);
    }
    if !Given(b, 0, i / 9, v) && !Given(b, 1, i % 9, v) && !Given(b, 2, UnitOf(2, i), v) {
      forall k: nat | k < 3 ensures !Given(b, k, UnitOf(k, i), v) {
        assert k == 0 || k == 1 || k == 2;
      }
    }
  }

  /** What AddRow needs to know of the columns it links into. */
  lemma RowColumns(b: seq<int>, t: Torus, v: View, s: seq<Node>, cur: nat, columns: seq<nat>,
                   w: set<nat>, lab: map<nat, Label>, i: nat, d: nat)
    requires BuildInv(b, t, v, s, cur, columns, w, lab) && AllWanted(b, w) && cur + 3 < |s| && Candidate(b, i, d)
    ensures i < CELLS && 1 <= d <= 9 && |columns| == 400 && |s| == MAX_NODES && Bounded(s)
    ensures var cs, ns := NeedColumns(columns, i, d), NeedNames(i, d);
      && |ns| == 4 && (forall j | 0 <= j < 4 :: ns[j] < 400 && cs[j] < |s| && cs[j] == columns[ns[j]])
      && ns[0] == i && ns[1] == UnitColumn(0, UnitOf(0, i), d)
      && ns[2] == UnitColumn(1, UnitOf(1, i), d) && ns[3] == UnitColumn(2, UnitOf(2, i), d)
  {
    RowFitsHere(b, t, v, s, cur, columns, w, lab, i, d);
    NamesInRange(i, d);
  }

  lemma SkipRow(b: seq<int>, t: Torus, lab: map<nat, Label>, i: nat, v: nat)
    requires IsBoard(b) && i < CELLS && 1 <= v <= 9 && !Candidate(b, i, v) && RowsDone(b, t, lab, i * 9 + v - 1)
    ensures RowsDone(b, t, lab, i * 9 + v)
  {
    forall i': nat, v': nat | Candidate(b, i', v') && i' * 9 + v' - 1 < i * 9 + v ensures HasRow(t, lab, i', v') {
      assert i' * 9 + v' - 1 == i * 9 + v - 1 ==> i' == i && v' == v;
    }
  }

  lemma SkipCell(b: seq<int>, t: Torus, lab: map<nat, Label>, i: nat)
    requires IsBoard(b) && i < CELLS && b[i] != 0 && RowsDone(b, t, lab, i * 9)
    ensures RowsDone(b, t, lab, (i + 1) * 9)
  {
    forall i': nat, v': nat | Candidate(b, i', v') && i' * 9 + v' - 1 < (i + 1) * 9 ensures HasRow(t, lab, i', v') {
      assert i' * 9 + v' - 1 >= i * 9 ==> i' == i;
    }
  }

  lemma LabelsOfPicks(t: Torus, s: seq<Node>, lab: map<nat, Label>, xs: seq<nat>)
    requires Labelled(t, s, lab) && Picked(t, xs)
    ensures LabelledPicks(lab, xs)
  {
    forall i | 0 <= i < |xs| ensures xs[i] in lab && lab[xs[i]].cell < CELLS {
      assert LabelOk(t, s, lab, xs[i]);
    }
  }

  lemma CoverManyNone(t: Torus, p: Snap)
    requires Inv(t, p.view, p.arr)
    ensures CoverMany(t, p, []) == p && LeftOpen(t, p, p, [])
  {
  }

  /** A row's links, read from any array that holds the torus. */
  lemma RowLinks(t: Torus, v: View, s: seq<Node>, x: nat)
    requires Inv(t, v, s) && IsItem(t, x)
    ensures CircH(s, x, RingOf(t, x))
  {
    assert ItemOk(t, s, x);
  }

  lemma ColOf(t: Torus, v: View, s: seq<Node>, x: nat)
    requires Inv(t, v, s) && IsItem(t, x)
    ensures x < |s| && x in t.col && s[x].col == t.col[x]
  {
    assert ItemOk(t, s, x);
  }

  /** The header list is empty just when the root is its own left neighbour. */
  lemma RootLinks(t: Torus, v: View, s: seq<Node>)
    requires Inv(t, v, s)
    ensures |s| > 0 && (s[ROOT].left == ROOT <==> v.heads == [])
  {
    assert CircH(s, ROOT, v.heads) && LinkH(s, ROOT, v.heads, |v.heads| - 1);
  }

  /** Covering c leaves c's own column as it was. */
  lemma ColumnLinks(t: Torus, v: View, s: seq<Node>, c: nat)
    requires Inv(t, v, s) && c in v.heads
    ensures CircV(CoverOne(t, Snap(v, s), c).arr, c, ListOf(v, c))
  {
    CoverableHolds(t, v, s, c);
    CoverInv(t, v, s, c);
    assert ColumnOk(t, CoverView(t, v, s, c), Covered(t, v, s, c), c);
  }

  /** The i-th node of a row, counting x itself as number -1, carries the cell or the digit. */
  ghost predicate ReadsAs(s: seq<Node>, x: nat, ring: seq<nat>, i: int, l: Label) {
    && At(x, ring, i) < |s|
    && (if s[At(x, ring, i)].name < 100
        then s[At(x, ring, i)].name == l.cell else s[At(x, ring, i)].name % 10 == l.val)
  }

  lemma LabelPlaces(t: Torus, s: seq<Node>, lab: map<nat, Label>, x: nat) returns (a: int, b: int)
    requires Labelled(t, s, lab) && IsItem(t, x)
    ensures x in lab && -1 <= a < |RingOf(t, x)| && -1 <= b < |RingOf(t, x)|
    ensures forall i | -1 <= i < |RingOf(t, x)| :: ReadsAs(s, x, RingOf(t, x), i, lab[x])
    ensures At(x, RingOf(t, x), a) < |s| && s[At(x, RingOf(t, x), a)].name < 100
    ensures At(x, RingOf(t, x), b) < |s| && s[At(x, RingOf(t, x), b)].name >= 100
  {
    assert LabelOk(t, s, lab, x);
    var ring := RingOf(t, x);
    forall i | -1 <= i < |ring| ensures ReadsAs(s, x, ring, i, lab[x]) {
      assert At(x, ring, i) in RowSet(t, x);
    }
    var y :| y in RowSet(t, x) && y < |s| && s[y].name < 100;
    a := RingPlace(t, x, y);
    var z :| z in RowSet(t, x) && z < |s| && s[z].name >= 100;
    b := RingPlace(t, x, z);
  }

  lemma RingPlace(t: Torus, x: nat, y: nat) returns (i: int)
    requires IsItem(t, x) && y in RowSet(t, x)
    ensures -1 <= i < |RingOf(t, x)| && At(x, RingOf(t, x), i) == y
  {
    if y == x {
      i := -1;
    } else {
      i :| 0 <= i < |t.ring[x]| && t.ring[x][i] == y;
    }
  }

  lemma PickedSnoc(t: Torus, xs: seq<nat>, x: nat)
    requires Picked(t, xs) && IsItem(t, x)
    ensures Picked(t, xs + [x])
  {
  }

  lemma {:induction false} DistinctCount(xs: seq<nat>)
    requires Distinct(xs)
    ensures |Elems(xs)| == |xs|
  {
    if xs != [] {
      var k := |xs| - 1;
      DistinctCount(xs[..k]);
      assert Elems(xs) == Elems(xs[..k]) + {xs[k]};
    }
  }

  lemma ProperSubsetSmaller(a: set<nat>, b: set<nat>)
    requires a < b
    ensures |a| < |b|
  {
    assert |b - a| == |b| - |a|;
    assert b - a != {};
  }

  // ---------------------------------------------------------------- what solve() establishes

  /** The stack grew by an exact cover of hs, and the whole stack is on the board. */
  ghost predicate Solution(t: Torus, lab: map<nat, Label>, hs: set<nat>, stk: seq<nat>, stk': seq<nat>,
                           b: seq<int>, b': seq<int>)
  {
    && RowsOk(t) && LabelledPicks(lab, stk') && |b| == CELLS
    && stk <= stk' && IsExactCover(t, hs, stk'[|stk|..])
    && b' == Written(b, lab, stk')
  }

  /** Choosing any of the rows xs leaves columns that cannot be covered. */
  ghost predicate Refuted(t: Torus, hs: set<nat>, xs: seq<nat>) {
    RowsOk(t) && forall i | 0 <= i < |xs| :: !Solvable(t, hs - RowColsOf(t, xs[i]))
  }

  lemma RefutedSnoc(t: Torus, hs: set<nat>, xs: seq<nat>, k: nat)
    requires k < |xs| && Refuted(t, hs, xs[..k]) && Refuted(t, hs, [xs[k]])
    ensures Refuted(t, hs, xs[..k + 1])
  {
    assert [xs[k]][0] == xs[k];
    assert forall i | 0 <= i < k :: xs[..k + 1][i] == xs[..k][i];
  }

  lemma RefutedNone(t: Torus, hs: set<nat>)
    requires RowsOk(t)
    ensures Refuted(t, hs, [])
  {
  }

  lemma SolvedAtOnce(t: Torus, v: View, lab: map<nat, Label>, stk: seq<nat>, b: seq<int>)
    requires v.heads == [] && RowsOk(t) && LabelledPicks(lab, stk) && |b| == CELLS
    ensures Solution(t, lab, Elems(v.heads), stk, stk, b, Written(b, lab, stk))
  {
    assert stk[|stk|..] == [];
    CoverNothing(t);
  }

  lemma NoneLeft(t: Torus, v: View, s: seq<Node>, c: nat)
    requires Inv(t, v, s) && c in v.heads && Refuted(t, Elems(v.heads), ListOf(v, c))
    ensures !Solvable(t, Elems(v.heads))
  {
    CandidatesListed(t, v, s, c);
    assert c in Elems(v.heads);
    Exhausted(t, Elems(v.heads), c, ListOf(v, c));
  }

  /** After covering c, the columns of a row through c are open and the row is a candidate. */
  lemma TryOpens(t: Torus, v: View, s: seq<Node>, c: nat, x: nat)
    requires Inv(t, v, s) && c in v.heads && x in ListOf(v, c)
    ensures RowsOk(t) && IsItem(t, x) && Within(t, Elems(v.heads), x)
    ensures var q := CoverOne(t, Snap(v, s), c);
      && Open(t, q, RingOf(t, x))
      && Elems(q.view.heads) - Cols(t, RingOf(t, x)) == Elems(v.heads) - RowColsOf(t, x)
      && c in RowColsOf(t, x)
  {
    hide Inv, Coverable, OpenColumns, RowOk, Elems, Cols;
    InvRowsOk(t, v, s);
    CoverableHolds(t, v, s, c);
    RingOpen(t, v, s, c, x);
    var hs := Elems(v.heads);
    assert hs - {c} - RestCols(t, x) == hs - ({c} + RestCols(t, x));
  }

  lemma TryShrinks(t: Torus, v: View, s: seq<Node>, c: nat, x: nat, r: Snap)
    requires Inv(t, v, s) && c in v.heads && x in ListOf(v, c)
    requires LeftOpen(t, CoverOne(t, Snap(v, s), c), r, RingOf(t, x))
    ensures RowsOk(t) && Elems(r.view.heads) == Elems(v.heads) - RowColsOf(t, x)
    ensures |r.view.heads| < |v.heads|
  {
    TryOpens(t, v, s, c, x);
    assert c in Elems(v.heads);
    DistinctCount(v.heads);
    DistinctCount(r.view.heads);
    ProperSubsetSmaller(Elems(r.view.heads), Elems(v.heads));
  }

  lemma SolutionWith(t: Torus, lab: map<nat, Label>, v: View, x: nat, stk: seq<nat>, stk': seq<nat>,
                     b: seq<int>, b': seq<int>)
    requires RowsOk(t) && Within(t, Elems(v.heads), x)
    requires Solution(t, lab, Elems(v.heads) - RowColsOf(t, x), stk + [x], stk', b, b')
    ensures Solution(t, lab, Elems(v.heads), stk, stk', b, b')
  {
    var picks := stk'[|stk + [x]|..];
    ExtendCover(t, Elems(v.heads), x, picks);
    assert stk'[|stk|] == x;
    assert stk'[|stk|..] == [x] + picks;
  }

  class SudokuSolver {
    const nodes: array<Node>
    const inout: array<int>
    const columns: array<nat>
    var stack: seq<nat>
    var curNode: nat
    ghost var torus: Torus
    ghost var view: View
    ghost var labels: map<nat, Label>

    ghost predicate Valid()
      reads this, nodes
    {
      Inv(torus, view, nodes[..])
    }

    /** What solve() needs of the rows and of the board besides. */
    ghost predicate Ready()
      reads this, nodes
    {
      Valid() && Labelled(torus, nodes[..], labels) && inout.Length == CELLS && Picked(torus, stack)
    }

    // -------------------------------------------------------------- construction

    /** The torus is partly built, with the columns named in w. */
    ghost predicate Building(w: set<nat>)
      reads this, nodes, columns, inout
    {
      BuildInv(inout[..], torus, view, nodes[..], curNode, columns[..], w, labels)
    }

    /** Builds the torus of the board: sudoku.cc:33-93. */
    constructor (board: array<int>)
      requires IsBoard(board[..])
      ensures Ready() && fresh(nodes) && inout == board && stack == []
      ensures Elems(view.heads) == torus.headers
      ensures exists cs :: Encodes(board[..], torus, labels, cs)
    {
      hide BuildInv, CellsSoFar, AllWanted, RowsDone, Given, Inv, Labelled, Encodes;
      inout := board;
      nodes := new Node[MAX_NODES](_ => BLANK);
      columns := new nat[400](_ => 0);
      stack := [];
      curNode := 1;
      torus, view, labels := NO_TORUS, View([], map[]), map[];
      new;
      EmptyBuild(inout[..], nodes[..], columns[..]);
      var rows := MarkGivens(0);
      var cols := MarkGivens(1);
      var boxes := MarkGivens(2);
      ghost var w := AppendCells();
      w := AppendUnits(rows, cols, boxes, w);
      AddRows(rows, cols, boxes, w);
      Finished(inout[..], torus, view, nodes[..], curNode, columns[..], w, labels);
    }

    /** Which digits the givens put in which unit of kind k: sudoku.cc:43-55. */
    method MarkGivens(k: nat) returns (seen: array2<bool>)
      requires IsBoard(inout[..]) && k < 3
      ensures fresh(seen) && seen.Length0 == CELLS && seen.Length1 == 10
      ensures forall u: nat, v: nat | u < CELLS && v < 10 :: seen[u, v] <==> Given(inout[..], k, u, v)
    {
      seen := new bool[CELLS, 10]((_, _) => false);
      for i := 0 to CELLS
        invariant forall u: nat, v: nat | u < CELLS && v < 10 :: seen[u, v] <==> Given(inout[..i], k, u, v)
      {
        UnitOfCell(k, i);
        seen[UnitOf(k, i), inout[i]] := true;
        forall u: nat, v: nat | u < CELLS && v < 10 ensures seen[u, v] <==> Given(inout[..i + 1], k, u, v) {
          GivenSnoc(inout[..i], inout[i], k, u, v);
          assert inout[..i + 1] == inout[..i] + [inout[i]];
        }
      }
      assert inout[..CELLS] == inout[..];
    }

    /** sudoku.cc:158-165. */
    method AppendColumn(n: nat, ghost w: set<nat>)
      requires Building(w) && torus.col == map[] && torus.ring == map[]
      requires curNode < MAX_NODES && n < 400 && n !in w
      modifies nodes, columns, this`curNode, this`torus, this`view
      ensures Building(w + {n}) && torus.col == map[] && torus.ring == map[] && curNode == old(curNode) + 1
    {
      AppendStep(inout[..], torus, view, nodes[..], curNode, columns[..], w, labels, n);
      hide BuildInv, Bounded;
      assert columns.Length == 400 && nodes.Length == MAX_NODES && 0 < curNode by {
        BuildSizes(inout[..], torus, view, nodes[..], curNode, columns[..], w, labels);
      }
      var c := curNode;
      nodes[c] := FreshNode(c, n);
      curNode := curNode + 1;
      LinkLeft(ROOT, c);
      columns[n] := c;
      torus, view := WithColumn(torus, c), WithColumnView(view, c);
    }

    method LinkLeft(old_: nat, nnew: nat)
      requires Bounded(nodes[..]) && old_ < nodes.Length && nnew < nodes.Length
      modifies nodes
      ensures nodes[..] == PutLeft(old(nodes[..]), old_, nnew)
    {
      nodes[nnew] := nodes[nnew].(left := nodes[old_].left);
      nodes[nnew] := nodes[nnew].(right := old_);
      nodes[nodes[old_].left] := nodes[nodes[old_].left].(right := nnew);
      nodes[old_] := nodes[old_].(left := nnew);
    }

    method LinkUp(old_: nat, nnew: nat)
      requires Bounded(nodes[..]) && old_ < nodes.Length && nnew < nodes.Length
      modifies nodes
      ensures nodes[..] == PutUp(old(nodes[..]), old_, nnew)
    {
      nodes[nnew] := nodes[nnew].(up := nodes[old_].up);
      nodes[nnew] := nodes[nnew].(down := old_);
      nodes[nodes[old_].up] := nodes[nodes[old_].up].(down := nnew);
      nodes[old_] := nodes[old_].(up := nnew);
      nodes[old_] := nodes[old_].(size := nodes[old_].size + 1);
      nodes[nnew] := nodes[nnew].(col := old_);
    }

    /** One column for each empty cell: sudoku.cc:57-61. */
    method AppendCells() returns (ghost w: set<nat>)
      requires Building({}) && torus.col == map[] && torus.ring == map[] && curNode == 1
      modifies nodes, columns, this`curNode, this`torus, this`view
      ensures Building(w) && torus.col == map[] && torus.ring == map[] && curNode <= 1 + CELLS
      ensures CellsSoFar(inout[..], w, CELLS)
    {
      w := {};
      BuildSizes(inout[..], torus, view, nodes[..], curNode, columns[..], w, labels);
      hide BuildInv;
      for i := 0 to CELLS
        invariant Building(w) && torus.col == map[] && torus.ring == map[] && curNode <= 1 + i
        invariant CellsSoFar(inout[..], w, i)
      {
        if inout[i] == 0 {
          AppendColumn(i, w);
          w := w + {i};
        }
      }
    }

    /** One column for each digit a unit still lacks: sudoku.cc:63-72. */
    method AppendUnits(rows: array2<bool>, cols: array2<bool>, boxes: array2<bool>, ghost w0: set<nat>)
      returns (ghost w: set<nat>)
      requires Building(w0) && torus.col == map[] && torus.ring == map[] && curNode <= 1 + CELLS
      requires IsBoard(inout[..]) && CellsSoFar(inout[..], w0, CELLS)
      requires Marks(rows, inout[..], 0) && Marks(cols, inout[..], 1) && Marks(boxes, inout[..], 2)
      modifies nodes, columns, this`curNode, this`torus, this`view
      ensures Building(w) && torus.col == map[] && torus.ring == map[] && curNode <= 1 + 81 * 4
      ensures AllWanted(inout[..], w)
    {
      hide BuildInv, CellsSoFar, UnitsSoFar, AllWanted, IsBoard;
      w := w0;
      CellsToUnits(inout[..], w);
      for i := 0 to 9
        invariant Building(w) && torus.col == map[] && torus.ring == map[] && curNode <= 1 + CELLS + i * 27
        invariant UnitsSoFar(inout[..], w, i * 27)
      {
        for v := 1 to 10
          invariant Building(w) && torus.col == map[] && torus.ring == map[]
          invariant curNode <= 1 + CELLS + i * 27 + (v - 1) * 3
          invariant UnitsSoFar(inout[..], w, i * 27 + (v - 1) * 3)
        {
          w := AppendUnit(0, i, v, rows, w);
          w := AppendUnit(1, i, v, cols, w);
          w := AppendUnit(2, i, v, boxes, w);
        }
      }
      AllUnits(inout[..], w);
    }

    ghost predicate Marks(seen: array2<bool>, b: seq<int>, k: nat)
      reads seen
    {
      && seen.Length0 == CELLS && seen.Length1 == 10
      && forall u: nat, v: nat | u < CELLS && v < 10 :: seen[u, v] <==> Given(b, k, u, v)
    }

    /** sudoku.cc:65-70 for one kind of unit. */
    method AppendUnit(k: nat, u: nat, v: nat, seen: array2<bool>, ghost w0: set<nat>) returns (ghost w: set<nat>)
      requires k < 3 && u < 9 && 1 <= v <= 9 && Marks(seen, inout[..], k)
      requires Building(w0) && torus.col == map[] && torus.ring == map[] && curNode < MAX_NODES
      requires IsBoard(inout[..]) && UnitsSoFar(inout[..], w0, u * 27 + (v - 1) * 3 + k)
      modifies nodes, columns, this`curNode, this`torus, this`view
      ensures Building(w) && torus.col == map[] && torus.ring == map[] && curNode <= old(curNode) + 1
      ensures UnitsSoFar(inout[..], w, u * 27 + (v - 1) * 3 + k + 1)
    {
      hide BuildInv, UnitsSoFar, IsBoard;
      w := w0;
      UnitStep(inout[..], w, k, u, v);
      if !seen[u, v] {
        AppendColumn(UnitColumn(k, u, v), w);
        w := w + {UnitColumn(k, u, v)};
      }
    }

    /** sudoku.cc:167-184. */
    method NewItem(name: nat) returns (r: nat)
      requires Bounded(nodes[..]) && curNode < nodes.Length && name < columns.Length && columns[name] < nodes.Length
      modifies nodes, this`curNode
      ensures r == old(curNode) && curNode == r + 1
      ensures nodes[..] == ItemAdded(old(nodes[..]), r, columns[name], name)
    {
      hide Bounded;
      r := curNode;
      assert Bounded(nodes[..][r := FreshNode(r, name).(col := columns[name])]) by {
        FreshBounded(nodes[..], r, columns[name], name);
      }
      nodes[r] := FreshNode(r, name).(col := columns[name]);
      curNode := curNode + 1;
      LinkUp(columns[name], r);
    }

    /** The row of cell i and digit v: sudoku.cc:82-88. */
    method AddRow(i: nat, v: nat, ghost w: set<nat>)
      requires Building(w) && IsBoard(inout[..]) && AllWanted(inout[..], w) && curNode + 3 < MAX_NODES
      requires Candidate(inout[..], i, v) && RowsDone(inout[..], torus, labels, i * 9 + v - 1)
      modifies nodes, this`curNode, this`torus, this`view, this`labels
      ensures Building(w) && curNode == old(curNode) + 4 && RowsDone(inout[..], torus, labels, i * 9 + v)
    {
      hide BuildInv, AllWanted, Candidate, RowsDone, Bounded, UnitOf, UnitColumn, ItemAdded, PutLeft, RowFits,
        TorusWithRow, ViewSoFar, LabelRow, NeedColumns, NeedNames, ItemsAdded, IsBoard;
      BuildSizes(inout[..], torus, view, nodes[..], curNode, columns[..], w, labels);
      RowColumns(inout[..], torus, view, nodes[..], curNode, columns[..], w, labels, i, v);
      RowStep(inout[..], torus, view, nodes[..], curNode, columns[..], w, labels, i, v);
      ghost var cs, ns, s := NeedColumns(columns[..], i, v), NeedNames(i, v), nodes[..];
      RowLists(torus, view, s, curNode, cs);
      ghost var k := curNode;
      var n0 := NewItem(i);
      var nr := NewItem(UnitColumn(0, UnitOf(0, i), v));
      var nc := NewItem(UnitColumn(1, UnitOf(1, i), v));
      var nb := NewItem(UnitColumn(2, UnitOf(2, i), v));
      FourItems(s, k, cs, ns);
      assert nodes[..] == ItemsAdded(s, k, cs, ns, 4);
      LinkLeft(n0, nr);
      LinkLeft(n0, nc);
      LinkLeft(n0, nb);
      assert nodes[..] == RowAdded(s, k, cs, ns);
      torus, view := TorusWithRow(torus, k, cs), ViewSoFar(view, k, cs, 4);
      labels := LabelRow(labels, k, Label(i, v));
    }

    /** One row for each empty cell and each digit it can take: sudoku.cc:74-92. */
    method AddRows(rows: array2<bool>, cols: array2<bool>, boxes: array2<bool>, ghost w: set<nat>)
      requires Building(w) && IsBoard(inout[..]) && AllWanted(inout[..], w)
      requires torus.col == map[] && torus.ring == map[] && curNode <= 1 + 81 * 4
      requires Marks(rows, inout[..], 0) && Marks(cols, inout[..], 1) && Marks(boxes, inout[..], 2)
      modifies nodes, this`curNode, this`torus, this`view, this`labels
      ensures Building(w) && RowsDone(inout[..], torus, labels, 81 * 9)
    {
      ghost var b := inout[..];
      NothingDone(b, torus, labels);
      hide BuildInv, AllWanted, RowsDone;
      for i := 0 to CELLS
        invariant Building(w) && RowsDone(b, torus, labels, i * 9) && curNode <= 325 + i * 36
      {
        if inout[i] == 0 {
          for v := 1 to 10
            invariant Building(w) && RowsDone(b, torus, labels, i * 9 + v - 1) && curNode <= 325 + i * 36 + (v - 1) * 4
          {
            UnitOfCell(0, i);
            UnitOfCell(1, i);
            UnitOfCell(2, i);
            CandidateByMarks(b, i, v);
            if !(rows[i / 9, v] || cols[i % 9, v] || boxes[i / 9 / 3 * 3 + i % 9 / 3, v]) {
              AddRow(i, v, w);
            } else {
              SkipRow(b, torus, labels, i, v);
            }
          }
        } else {
          SkipCell(b, torus, labels, i);
        }
      }
    }

    // -------------------------------------------------------------- cover and uncover

    method UnlinkItem(j: nat)
      requires Bounded(nodes[..]) && j < nodes.Length
      modifies nodes
      ensures nodes[..] == UnlinkV(old(nodes[..]), j)
    {
      nodes[nodes[j].down] := nodes[nodes[j].down].(up := nodes[j].up);
      nodes[nodes[j].up] := nodes[nodes[j].up].(down := nodes[j].down);
      nodes[nodes[j].col] := nodes[nodes[j].col].(size := nodes[nodes[j].col].size - 1);
    }

    method RelinkItem(j: nat)
      requires Bounded(nodes[..]) && j < nodes.Length
      modifies nodes
      ensures nodes[..] == RelinkV(old(nodes[..]), j)
    {
      nodes[nodes[j].col] := nodes[nodes[j].col].(size := nodes[nodes[j].col].size + 1);
      nodes[nodes[j].down] := nodes[nodes[j].down].(up := j);
      nodes[nodes[j].up] := nodes[nodes[j].up].(down := j);
    }

    method UnlinkHeader(c: nat)
      requires Bounded(nodes[..]) && c < nodes.Length
      modifies nodes
      ensures nodes[..] == UnlinkH(old(nodes[..]), c)
    {
      nodes[nodes[c].right] := nodes[nodes[c].right].(left := nodes[c].left);
      nodes[nodes[c].left] := nodes[nodes[c].left].(right := nodes[c].right);
    }

    method RelinkHeader(c: nat)
      requires Bounded(nodes[..]) && c < nodes.Length
      modifies nodes
      ensures nodes[..] == RelinkH(old(nodes[..]), c)
    {
      nodes[nodes[c].right] := nodes[nodes[c].right].(left := c);
      nodes[nodes[c].left] := nodes[nodes[c].left].(right := c);
    }

    /** Takes row's other items out of their columns, left to right. */
    method UnlinkRow(row: nat, ghost s: seq<Node>, ghost v: View, ghost c: nat, ghost k: nat)
      requires Coverable(torus, v, s, c)
      requires k < |ListOf(v, c)| && row == ListOf(v, c)[k]
      requires nodes[..] == Progress(s, c, Rings(torus, ListOf(v, c)[..k]))
      modifies nodes
      ensures nodes[..] == Progress(s, c, Rings(torus, ListOf(v, c)[..k + 1]))
    {
      hide Coverable, Progress, UnlinkV, ListOf, RingOf, Bounded;
      ghost var t, xs := torus, ListOf(v, c);
      ghost var ring, done := RingOf(t, row), Rings(t, xs[..k]);
      RingsPrefix(t, xs, k);
      ProgressLinks(t, v, s, c, done, row);
      assert LinkH(nodes[..], row, ring, -1);
      var j := nodes[row].right;
      ghost var i := 0;
      assert done + ring[..0] == done;
      while j != row
        invariant 0 <= i <= |ring| && j == At(row, ring, i)
        invariant nodes[..] == Progress(s, c, done + ring[..i])
        decreases |ring| - i
      {
        ghost var js := done + ring[..i + 1];
        assert js == (done + ring[..i]) + [j];
        assert js <= CoverItems(t, v, c);
        ProgressStep(t, v, s, c, done + ring[..i], j);
        ProgressLinks(t, v, s, c, js, row);
        UnlinkItem(j);
        assert LinkH(nodes[..], row, ring, i);
        j := nodes[j].right;
        i := i + 1;
      }
      assert i == |ring| && ring[..i] == ring;
    }

    /** Puts row's other items back, right to left. */
    method RelinkRow(row: nat, ghost s: seq<Node>, ghost v: View, ghost c: nat, ghost k: nat)
      requires Coverable(torus, v, s, c)
      requires k < |ListOf(v, c)| && row == ListOf(v, c)[k]
      requires nodes[..] == Progress(s, c, Rings(torus, ListOf(v, c)[..k + 1]))
      modifies nodes
      ensures nodes[..] == Progress(s, c, Rings(torus, ListOf(v, c)[..k]))
    {
      hide Coverable, Progress, RelinkV, ListOf, RingOf, Bounded;
      ghost var t, xs := torus, ListOf(v, c);
      ghost var ring, done := RingOf(t, row), Rings(t, xs[..k]);
      RingsPrefix(t, xs, k);
      ProgressLinks(t, v, s, c, done + ring, row);
      assert LinkH(nodes[..], row, ring, |ring| - 1);
      var j := nodes[row].left;
      ghost var i := |ring|;
      assert ring[..i] == ring;
      while j != row
        invariant 0 <= i <= |ring| && j == At(row, ring, i - 1)
        invariant nodes[..] == Progress(s, c, done + ring[..i])
        decreases i
      {
        ghost var js := done + ring[..i - 1];
        assert done + ring[..i] == js + [j];
        assert js + [j] <= CoverItems(t, v, c);
        ProgressStep(t, v, s, c, js, j);
        ProgressLinks(t, v, s, c, js, row);
        RelinkItem(j);
        assert LinkH(nodes[..], row, ring, i - 2);
        j := nodes[j].left;
        i := i - 1;
      }
      assert i == 0 && done + ring[..0] == done;
    }

    method Cover(c: nat)
      requires Valid() && c in view.heads
      modifies nodes, this`view
      ensures Valid() && Snap(view, nodes[..]) == CoverOne(torus, old(Snap(view, nodes[..])), c)
    {
      hide Coverable, Progress, UnlinkH, ListOf, RingOf, Inv, Bounded;
      ghost var t, v, s := torus, view, nodes[..];
      CoverableHolds(t, v, s, c);
      ghost var xs := ListOf(v, c);
      ProgressStart(t, v, s, c);
      UnlinkHeader(c);
      assert xs[..0] == [];
      ProgressLinks(t, v, s, c, [], c);
      assert LinkV(nodes[..], c, xs, -1);
      var row := nodes[c].down;
      ghost var k := 0;
      while row != c
        invariant 0 <= k <= |xs| && row == At(c, xs, k)
        invariant nodes[..] == Progress(s, c, Rings(t, xs[..k]))
        invariant torus == t && view == v
        decreases |xs| - k
      {
        UnlinkRow(row, s, v, c, k);
        RingsPrefix(t, xs, k + 1);
        ProgressLinks(t, v, s, c, Rings(t, xs[..k + 1]), c);
        assert LinkV(nodes[..], c, xs, k);
        row := nodes[row].down;
        k := k + 1;
      }
      assert k == |xs| && xs[..k] == xs;
      view := CoverOne(t, Snap(v, s), c).view;
    }

    /** The arguments are the view and array that Cover(c) started from. */
    method Uncover(c: nat, ghost v: View, ghost s: seq<Node>)
      requires Inv(torus, v, s) && c in v.heads
      requires Snap(view, nodes[..]) == CoverOne(torus, Snap(v, s), c)
      modifies nodes, this`view
      ensures Valid() && view == v && nodes[..] == s
    {
      hide Coverable, Progress, UnlinkH, RelinkH, ListOf, RingOf, Inv, Bounded;
      ghost var t := torus;
      CoverableHolds(t, v, s, c);
      ghost var xs := ListOf(v, c);
      ProgressStart(t, v, s, c);
      ProgressLinks(t, v, s, c, CoverItems(t, v, c), c);
      assert LinkV(nodes[..], c, xs, |xs| - 1);
      var row := nodes[c].up;
      ghost var k := |xs|;
      assert xs[..k] == xs;
      while row != c
        invariant 0 <= k <= |xs| && row == At(c, xs, k - 1)
        invariant nodes[..] == Progress(s, c, Rings(t, xs[..k]))
        invariant torus == t
        decreases k
      {
        assert row == xs[k - 1];
        RelinkRow(row, s, v, c, k - 1);
        RingsPrefix(t, xs, k - 1);
        ProgressLinks(t, v, s, c, Rings(t, xs[..k - 1]), c);
        assert LinkV(nodes[..], c, xs, k - 2);
        row := nodes[row].up;
        k := k - 1;
      }
      assert k == 0 && xs[..0] == [];
      ProgressLinks(t, v, s, c, [], c);
      RelinkHeader(c);
      view := v;
    }

    // -------------------------------------------------------------- the search

    method GetMinColumn() returns (c: nat)
      requires Valid() && view.heads != []
      ensures c in view.heads
      ensures nodes[c].size <= 1 || forall d | d in view.heads :: d < nodes.Length && nodes[c].size <= nodes[d].size
    {
      ghost var heads := view.heads;
      assert CircH(nodes[..], ROOT, heads);
      hide Inv, Bounded;
      assert LinkH(nodes[..], ROOT, heads, -1) && LinkH(nodes[..], ROOT, heads, 0);
      c := nodes[ROOT].right;
      var minSize := nodes[c].size;
      if minSize > 1 {
        var cc := nodes[c].right;
        ghost var i := 1;
        while cc != ROOT
          invariant 1 <= i <= |heads| && cc == At(ROOT, heads, i)
          invariant c in heads && minSize == nodes[c].size
          invariant forall d | 0 <= d < i :: nodes[c].size <= nodes[heads[d]].size
          decreases |heads| - i
        {
          if minSize > nodes[cc].size {
            c := cc;
            minSize := nodes[cc].size;
            if minSize <= 1 { break; }
          }
          assert LinkH(nodes[..], ROOT, heads, i);
          cc := nodes[cc].right;
          i := i + 1;
        }
      }
    }

    /** Covers the columns of row's other items, going right. */
    method CoverRow(row: nat)
      requires Valid() && IsItem(torus, row) && Open(torus, Snap(view, nodes[..]), RingOf(torus, row))
      modifies nodes, this`view
      ensures Valid()
      ensures Snap(view, nodes[..]) == CoverMany(torus, old(Snap(view, nodes[..])), RingOf(torus, row))
      ensures LeftOpen(torus, old(Snap(view, nodes[..])), Snap(view, nodes[..]), RingOf(torus, row))
    {
      hide Inv, CoverMany, OpenColumns, RingOf, IsItem, SameNames, Elems, CoverOne;
      ghost var t, p, ring := torus, Snap(view, nodes[..]), RingOf(torus, row);
      RowLinks(t, view, nodes[..], row);
      assert LinkH(nodes[..], row, ring, -1);
      var j := nodes[row].right;
      ghost var i := 0;
      assert ring[..0] == [];
      CoverManyNone(t, p);
      while j != row
        invariant 0 <= i <= |ring| && j == At(row, ring, i) && torus == t
        invariant Snap(view, nodes[..]) == CoverMany(t, p, ring[..i])
        invariant LeftOpen(t, p, Snap(view, nodes[..]), ring[..i])
        decreases |ring| - i
      {
        assert ring[..i + 1] == ring[..i] + [j];
        OpenPrefix(t, p, ring, i + 1);
        CoverManySnoc(t, p, ring[..i], j);
        ColOf(t, view, nodes[..], j);
        Cover(nodes[j].col);
        RowLinks(t, view, nodes[..], row);
        assert LinkH(nodes[..], row, ring, i);
        j := nodes[j].right;
        i := i + 1;
      }
      assert ring[..i] == ring;
    }

    /** Undoes CoverRow(row), going left; p is what CoverRow started from. */
    method UncoverRow(row: nat, ghost p: Snap)
      requires IsItem(torus, row) && Open(torus, p, RingOf(torus, row))
      requires Snap(view, nodes[..]) == CoverMany(torus, p, RingOf(torus, row))
      modifies nodes, this`view
      ensures Valid() && Snap(view, nodes[..]) == p
    {
      hide Inv, CoverMany, OpenColumns, RingOf, IsItem, SameNames, Elems, CoverOne;
      ghost var t, ring := torus, RingOf(torus, row);
      CoverManyOpen(t, p, ring);
      RowLinks(t, view, nodes[..], row);
      assert LinkH(nodes[..], row, ring, |ring| - 1);
      var j := nodes[row].left;
      ghost var i := |ring|;
      assert ring[..i] == ring;
      while j != row
        invariant 0 <= i <= |ring| && j == At(row, ring, i - 1) && torus == t
        invariant Snap(view, nodes[..]) == CoverMany(t, p, ring[..i])
        invariant LeftOpen(t, p, Snap(view, nodes[..]), ring[..i])
        decreases i
      {
        ghost var js := ring[..i - 1];
        assert ring[..i] == js + [j];
        OpenPrefix(t, p, ring, i);
        OpenPrefix(t, p, ring, i - 1);
        CoverManyOpen(t, p, js);
        CoverManySnoc(t, p, js, j);
        ghost var q := CoverMany(t, p, js);
        ColOf(t, view, nodes[..], j);
        Uncover(nodes[j].col, q.view, q.arr);
        RowLinks(t, view, nodes[..], row);
        assert LinkH(nodes[..], row, ring, i - 2);
        j := nodes[j].left;
        i := i - 1;
      }
      CoverManyNone(t, p);
      assert ring[..0] == [];
    }

    /** Reads the row of x off the array: sudoku.cc:99-111 for one stack entry. */
    method ReadRow(x: nat) returns (cell: int, val: int)
      requires Ready() && IsItem(torus, x)
      ensures x in labels && cell == labels[x].cell && val == labels[x].val
    {
      hide Inv, Labelled, RingOf, IsItem, LabelOk, Picked;
      ghost var t, ring := torus, RingOf(torus, x);
      RowLinks(t, view, nodes[..], x);
      ghost var a, b := LabelPlaces(t, nodes[..], labels, x);
      cell, val := -1, -1;
      var n := x;
      ghost var m := -1;
      while cell == -1 || val == -1
        invariant -1 <= m <= |ring| && n == At(x, ring, m)
        invariant if cell == -1 then m <= a else cell == labels[x].cell
        invariant if val == -1 then m <= b else val == labels[x].val
        decreases |ring| - m
      {
        assert ReadsAs(nodes[..], x, ring, m, labels[x]);
        if nodes[n].name < 100 {
          cell := nodes[n].name;
        } else {
          val := nodes[n].name % 10;
        }
        assert LinkH(nodes[..], x, ring, m);
        n := nodes[n].right;
        m := m + 1;
      }
    }

    /** Writes every chosen row into the board. */
    method WriteSolution()
      requires Ready()
      modifies inout
      ensures LabelledPicks(labels, stack) && inout[..] == Written(old(inout[..]), labels, stack)
    {
      hide Inv, Labelled, IsItem;
      ghost var b := inout[..];
      LabelsOfPicks(torus, nodes[..], labels, stack);
      assert stack[..0] == [];
      for i := 0 to |stack|
        invariant Ready()
        invariant inout[..] == Written(b, labels, stack[..i])
      {
        var cell, val := ReadRow(stack[i]);
        inout[cell] := val;
        assert stack[..i + 1][..i] == stack[..i];
      }
      assert stack[..|stack|] == stack;
    }

    /**
      True with an exact cover of the open columns pushed on the stack and all of
      the stack written to the board, or false with everything as it was and no
      exact cover in existence.
    */
    method Solve() returns (found: bool)
      requires Ready()
      modifies nodes, this`view, this`stack, inout
      ensures found ==>
        Solution(torus, labels, Elems(old(view.heads)), old(stack), stack, old(inout[..]), inout[..])
      ensures !found ==> RowsOk(torus) && !Solvable(torus, Elems(old(view.heads)))
      ensures !found ==>
        nodes[..] == old(nodes[..]) && stack == old(stack) && view == old(view) && inout[..] == old(inout[..])
      decreases |view.heads|, 1
    {
      hide Inv, Labelled, Picked, SameNames, RowsOk, Solvable, Solution, Refuted, ListOf, Elems, CoverOne;
      hide LabelledPicks, Written;
      ghost var t, v, s := torus, view, nodes[..];
      InvRowsOk(t, v, s);
      RootLinks(t, v, s);
      if nodes[ROOT].left == ROOT {
        WriteSolution();
        SolvedAtOnce(t, v, labels, stack, old(inout[..]));
        return true;
      }
      var c := GetMinColumn();
      ghost var xs := ListOf(v, c);
      Cover(c);
      ghost var q := CoverOne(t, Snap(v, s), c);
      LabelsSurvive(t, s, nodes[..], labels);
      ColumnLinks(t, v, s, c);
      assert LinkV(nodes[..], c, xs, -1);
      var row := nodes[c].down;
      ghost var k := 0;
      RefutedNone(t, Elems(v.heads));
      assert xs[..0] == [];
      while row != c
        invariant 0 <= k <= |xs| && row == At(c, xs, k) && torus == t
        invariant Ready() && Snap(view, nodes[..]) == q && stack == old(stack) && inout[..] == old(inout[..])
        invariant Refuted(t, Elems(v.heads), xs[..k])
        decreases |xs| - k
      {
        found := Try(row, v, s, c);
        if found { return; }
        RefutedSnoc(t, Elems(v.heads), xs, k);
        assert LinkV(nodes[..], c, xs, k);
        row := nodes[row].down;
        k := k + 1;
      }
      Uncover(c, v, s);
      assert xs[..k] == xs;
      NoneLeft(t, v, s, c);
      return false;
    }

    /** One turn of solve()'s loop: choose row, search on, and take it back on failure. */
    method Try(row: nat, ghost v: View, ghost s: seq<Node>, ghost c: nat) returns (found: bool)
      requires Inv(torus, v, s) && c in v.heads && row in ListOf(v, c)
      requires Snap(view, nodes[..]) == CoverOne(torus, Snap(v, s), c)
      requires Ready()
      modifies nodes, this`view, this`stack, inout
      ensures found ==>
        Solution(torus, labels, Elems(v.heads), old(stack), stack, old(inout[..]), inout[..])
      ensures !found ==> Refuted(torus, Elems(v.heads), [row])
      ensures !found ==>
        nodes[..] == old(nodes[..]) && stack == old(stack) && view == old(view) && inout[..] == old(inout[..])
      decreases |v.heads|, 0
    {
      hide Inv, Labelled, Picked, RowsOk, Solvable, Solution, Within, ListOf, Elems, CoverOne, CoverMany, IsItem,
        RingOf, RowColsOf, Cols, Open, SameNames;
      ghost var t, p, stk := torus, Snap(view, nodes[..]), stack;
      TryOpens(t, v, s, c, row);
      PickedSnoc(t, stack, row);
      stack := stack + [row];
      CoverRow(row);
      TryShrinks(t, v, s, c, row, Snap(view, nodes[..]));
      LabelsSurvive(t, p.arr, nodes[..], labels);
      found := Solve();
      if found {
        SolutionWith(t, labels, v, row, stk, stack, old(inout[..]), inout[..]);
        return;
      }
      stack := stack[..|stack| - 1];
      UncoverRow(row, p);
    }
  }

  const NO_SOLUTION := "NoSolution"

  /** The characters of a puzzle as numbers, digit or not. */
  function Parse(puzzle: string): (b: seq<int>)
    ensures |b| == |puzzle|
  {
    seq(|puzzle|, i requires 0 <= i < |puzzle| => puzzle[i] as int - '0' as int)
  }

  ghost predicate HasCompletion(b: seq<int>) {
    IsBoard(b) && exists sol :: Completion(b, sol)
  }

  /**
    sudoku.cc:263-291.  The answer completes the puzzle if anything does; it is
    NoSolution for every puzzle that has no completion, including one whose givens
    clash or that is not all digits.
  */
  method SolveSudoku(puzzle: string) returns (result: string)
    requires |puzzle| == CELLS
    ensures HasCompletion(Parse(puzzle)) ==> |result| == CELLS && Completion(Parse(puzzle), Parse(result))
    ensures !HasCompletion(Parse(puzzle)) ==> result == NO_SOLUTION
  {
    hide Encodes, Inv, Solution, Labelled, Picked, RowsOk, Solvable, Completion, Elems, HasCompletion;
    result := NO_SOLUTION;
    var board, valid := ReadPuzzle(puzzle);
    ghost var b := Parse(puzzle);
    if valid {
      var s := new SudokuSolver(board);
      ghost var t, lab, heads := s.torus, s.labels, s.view.heads;
      ghost var cs :| Encodes(b, t, lab, cs);
      var found := s.Solve();
      Decided(b, t, lab, cs, s.stack, board[..], found, heads);
      if found {
        CompletionInRange(b, board[..]);
        result := ShowBoard(board);
      }
    } else {
      NotABoard(b);
    }
  }

  method ReadPuzzle(puzzle: string) returns (board: array<int>, valid: bool)
    requires |puzzle| == CELLS
    ensures fresh(board) && board[..] == Parse(puzzle) && (valid <==> IsBoard(Parse(puzzle)))
  {
    board := new int[CELLS](_ => 0);
    valid := true;
    for i := 0 to CELLS
      invariant forall j | 0 <= j < i :: board[j] == Parse(puzzle)[j]
      invariant valid <==> forall j | 0 <= j < i :: 0 <= Parse(puzzle)[j] <= 9
    {
      board[i] := puzzle[i] as int - '0' as int;
      valid := valid && 0 <= board[i] <= 9;
    }
  }

  method ShowBoard(board: array<int>) returns (text: string)
    requires board.Length == CELLS && forall i | 0 <= i < CELLS :: 1 <= board[i] <= 9
    ensures |text| == CELLS && Parse(text) == board[..]
  {
    text := "";
    for i := 0 to CELLS
      invariant |text| == i && forall j | 0 <= j < i :: text[j] as int == board[j] + '0' as int
    {
      text := text + [(board[i] + '0' as int) as char];
    }
  }

  lemma CompletionInRange(b: seq<int>, sol: seq<int>)
    requires IsBoard(b) && Completion(b, sol)
    ensures HasCompletion(b) && |sol| == CELLS && forall i | 0 <= i < CELLS :: 1 <= sol[i] <= 9
  {
  }

  lemma NotABoard(b: seq<int>)
    requires !IsBoard(b)
    ensures !HasCompletion(b)
  {
  }

  /** What solve()'s verdict on the torus says about the board. */
  lemma Decided(b: seq<int>, t: Torus, lab: map<nat, Label>, cs: seq<nat>, stk: seq<nat>, b': seq<int>,
                found: bool, heads: seq<nat>)
    requires IsBoard(b) && Encodes(b, t, lab, cs) && Elems(heads) == t.headers
    requires found ==> Solution(t, lab, Elems(heads), [], stk, b, b')
    requires !found ==> RowsOk(t) && !Solvable(t, Elems(heads))
    ensures found ==> Completion(b, b')
    ensures !found ==> !HasCompletion(b)
  {
    if found {
      assert stk[0..] == stk;
      CoverIsCompletion(b, t, lab, cs, stk);
    } else if HasCompletion(b) {
      var sol :| Completion(b, sol);
      var picks := CompletionIsCover(b, t, lab, cs, sol);
    }
  }
}
