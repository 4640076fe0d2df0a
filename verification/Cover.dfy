/**
  Covering and uncovering a column of any well-formed torus: what the array is
  afterwards, that the invariant survives, and that uncovering restores the
  array node for node.
*/
module Cover {
  import opened Torus

  /** The items that covering a column with items xs takes out, in order. */
  ghost function Rings(t: Torus, xs: seq<nat>): seq<nat> {
    if xs == [] then [] else Rings(t, xs[..|xs| - 1]) + RingOf(t, xs[|xs| - 1])
  }

  ghost function RingOf(t: Torus, x: nat): seq<nat> {
    if IsItem(t, x) then t.ring[x] else []
  }

  ghost function ListOf(v: View, c: nat): seq<nat> {
    if c in v.lists then v.lists[c] else []
  }

  lemma {:induction false} RingsMember(t: Torus, xs: seq<nat>, y: nat)
    ensures y in Rings(t, xs) <==> exists i :: 0 <= i < |xs| && y in RingOf(t, xs[i])
  {
    if xs != [] {
      var k := |xs| - 1;
      RingsMember(t, xs[..k], y);
      assert y in Rings(t, xs) <==> y in Rings(t, xs[..k]) || y in RingOf(t, xs[k]);
      assert forall i | 0 <= i < k :: xs[..k][i] == xs[i];
    }
  }

  /** Taking the items of xs[..k] and then the ring of xs[k] is a stretch of the whole. */
  lemma {:induction false} RingsPrefix(t: Torus, xs: seq<nat>, k: nat)
    requires k <= |xs|
    ensures Rings(t, xs[..k]) <= Rings(t, xs)
    ensures k < |xs| ==> Rings(t, xs[..k + 1]) == Rings(t, xs[..k]) + RingOf(t, xs[k]) <= Rings(t, xs)
    decreases |xs| - k
  {
    if k == |xs| {
      assert xs[..k] == xs;
    } else {
      assert xs[..k + 1][..k] == xs[..k];
      RingsPrefix(t, xs, k + 1);
    }
  }

  /** The rows met in one uncovered column are disjoint, so no item is taken out twice. */
  lemma {:induction false} RingsDistinct(t: Torus, n: nat, xs: seq<nat>, c: nat)
    requires WellFormed(t, n) && Distinct(xs)
    requires forall i | 0 <= i < |xs| :: IsItem(t, xs[i]) && t.col[xs[i]] == c
    ensures Distinct(Rings(t, xs))
  {
    hide WellFormed;
    if xs != [] {
      var k := |xs| - 1;
      RingsDistinct(t, n, xs[..k], c);
      var a, b := Rings(t, xs[..k]), t.ring[xs[k]];
      RingDistinct(t, n, xs[k]);
      forall y | y in a ensures y !in b {
        RingsMember(t, xs[..k], y);
        var i :| 0 <= i < k && y in RingOf(t, xs[..k][i]);
        RowsApart(t, n, xs[i], xs[k], y);
      }
      var r := a + b;
      assert r == Rings(t, xs);
      forall i, j | 0 <= i < j < |r| ensures r[i] != r[j] {
        assert i < |a| ==> r[i] in a;
        assert j >= |a| ==> r[j] == b[j - |a|] && r[j] in b;
      }
    }
  }

  lemma RingDistinct(t: Torus, n: nat, x: nat)
    requires WellFormed(t, n) && IsItem(t, x)
    ensures Distinct(t.ring[x])
  {
    assert RowOk(t, x);
  }

  lemma RowsApart(t: Torus, n: nat, x: nat, z: nat, y: nat)
    requires WellFormed(t, n) && IsItem(t, x) && IsItem(t, z)
    requires x != z && t.col[x] == t.col[z] && y in t.ring[x]
    ensures y !in t.ring[z]
  {
    assert RowOk(t, x) && RowOk(t, z);
    assert y in RowSet(t, x) && z in RowSet(t, z) && x in RowSet(t, x);
  }

  /** Members of one row have the same columns, each in its own. */
  lemma RowMates(t: Torus, n: nat, x: nat, y: nat)
    requires WellFormed(t, n) && IsItem(t, x) && y in t.ring[x]
    ensures IsItem(t, y) && RowSet(t, y) <= t.col.Keys && RowSet(t, x) <= t.col.Keys
    ensures RowCols(t, y) == RowCols(t, x) && t.col[y] != t.col[x]
    ensures t.col[y] in RowCols(t, x) && x in t.ring[y]
  {
    assert RowOk(t, x) && y in RowSet(t, x) && x in RowSet(t, x);
    assert RowOk(t, y) && x in RowSet(t, y);
  }

  lemma ColumnItems(t: Torus, v: View, s: seq<Node>, c: nat)
    requires Rep(t, v, s) && c in t.headers
    ensures Distinct(v.lists[c])
    ensures forall i | 0 <= i < |v.lists[c]| :: IsItem(t, v.lists[c][i]) && t.col[v.lists[c][i]] == c
  {
    assert ColumnOk(t, v, s, c);
    assert forall i | 0 <= i < |v.lists[c]| :: v.lists[c][i] in v.lists[c];
  }

  /** Everything a cover takes out is still linked, and none of it is in c itself. */
  lemma RingsHideable(t: Torus, v: View, s: seq<Node>, c: nat)
    requires Inv(t, v, s) && c in v.heads
    ensures c in t.headers
    ensures forall i | 0 <= i < |v.lists[c]| :: IsItem(t, v.lists[c][i]) && t.col[v.lists[c][i]] == c
    ensures Hideable(t, v.lists, Rings(t, v.lists[c]))
    ensures forall i | 0 <= i < |Rings(t, v.lists[c])| :: t.col[Rings(t, v.lists[c])[i]] != c
  {
    assert c in Elems(v.heads);
    var xs := v.lists[c];
    ColumnItems(t, v, s, c);
    RingsDistinct(t, |s|, xs, c);
    var js := Rings(t, xs);
    forall i | 0 <= i < |js|
      ensures IsItem(t, js[i]) && t.col[js[i]] in v.lists && js[i] in v.lists[t.col[js[i]]] && t.col[js[i]] != c
    {
      RingsMember(t, xs, js[i]);
      var m :| 0 <= m < |xs| && js[i] in RingOf(t, xs[m]);
      RingLinked(t, v, s, xs[m], js[i]);
    }
  }

  lemma RingLinked(t: Torus, v: View, s: seq<Node>, x: nat, y: nat)
    requires Inv(t, v, s) && IsItem(t, x) && t.col[x] in v.heads && x in v.lists[t.col[x]] && y in t.ring[x]
    ensures IsItem(t, y) && t.col[y] in v.heads && t.col[y] in v.lists && y in v.lists[t.col[y]]
    ensures t.col[y] != t.col[x]
  {
    RowMates(t, |s|, x, y);
    assert RowCols(t, x) <= Elems(v.heads);
    assert t.col[y] in Elems(v.heads);
  }

  // ---------------------------------------------------------------- covering

  ghost function CoverItems(t: Torus, v: View, c: nat): seq<nat> {
    Rings(t, ListOf(v, c))
  }

  ghost predicate Coverable(t: Torus, v: View, s: seq<Node>, c: nat) {
    Inv(t, v, s) && c in v.heads && c in t.headers && c < |s|
    && (forall i | 0 <= i < |v.lists[c]| :: IsItem(t, v.lists[c][i]))
    && BelowLength(CoverItems(t, v, c), |s|)
    && ListsDistinct(v.lists) && ListsInColumn(t, v.lists)
    && Hideable(t, v.lists, CoverItems(t, v, c))
  }

  lemma CoverableHolds(t: Torus, v: View, s: seq<Node>, c: nat)
    requires Inv(t, v, s) && c in v.heads
    ensures Coverable(t, v, s, c)
  {
    RingsHideable(t, v, s, c);
    RepListsDistinct(t, v, s);
    HideableBelow(t, v.lists, Rings(t, v.lists[c]), |s|);
  }

  /** The array after covering column c, and the view that goes with it. */
  ghost function Covered(t: Torus, v: View, s: seq<Node>, c: nat): (r: seq<Node>)
    requires Coverable(t, v, s, c)
  {
    UnlinkAll(UnlinkH(s, c), CoverItems(t, v, c))
  }

  ghost function CoverView(t: Torus, v: View, s: seq<Node>, c: nat): (r: View)
    requires Coverable(t, v, s, c)
  {
    View(Without(v.heads, c), HideAll(t, v.lists, CoverItems(t, v, c)))
  }

  lemma CoverPrefix(t: Torus, v: View, s: seq<Node>, c: nat, js: seq<nat>)
    requires Coverable(t, v, s, c) && js <= CoverItems(t, v, c)
    ensures Hideable(t, v.lists, js) && BelowLength(js, |s|)
    ensures forall i | 0 <= i < |js| :: t.col[js[i]] != c
  {
    hide Rep, Live, Rings;
    RingsHideable(t, v, s, c);
    var all := CoverItems(t, v, c);
    assert forall i | 0 <= i < |js| :: js[i] == all[i];
  }

  /** Part way through: js of the items are out, and c's own list is untouched. */
  lemma CoverMoment(t: Torus, v: View, s: seq<Node>, c: nat, js: seq<nat>)
    requires Coverable(t, v, s, c) && js <= CoverItems(t, v, c)
    ensures Hideable(t, v.lists, js) && BelowLength(js, |s|)
    ensures Rep(t, View(Without(v.heads, c), HideAll(t, v.lists, js)), UnlinkAll(UnlinkH(s, c), js))
    ensures HideAll(t, v.lists, js)[c] == v.lists[c]
  {
    CoverPrefix(t, v, s, c, js);
    UnlinkHRep(t, v, s, c);
    hide Rep, Live, Hideable, BelowLength, ListsDistinct, ListsInColumn, CoverItems, UnlinkH;
    var v1 := v.(heads := Without(v.heads, c));
    UnlinkAllRep(t, v1, UnlinkH(s, c), js);
    HideAllElsewhere(t, v.lists, js, c);
  }

  lemma HiddenMeetsColumn(t: Torus, v: View, s: seq<Node>, c: nat, x: nat)
    requires Rep(t, v, s) && c in t.headers && IsItem(t, x) && x in CoverItems(t, v, c)
    ensures RowOk(t, x) && c in RowCols(t, x)
  {
    hide CircH, CircV, Bounded, Rings, ItemOk, ColumnOk, RowSet, RowCols, RowOk;
    var xs := ListOf(v, c);
    RingsMember(t, xs, x);
    var i :| 0 <= i < |xs| && x in RingOf(t, xs[i]);
    ColumnItems(t, v, s, c);
    RowMates(t, |s|, xs[i], x);
    RowMates(t, |s|, x, xs[i]);
    assert RowOk(t, x);
  }

  lemma ColumnHides(t: Torus, v: View, s: seq<Node>, c: nat, x: nat, y: nat)
    requires Inv(t, v, s) && c in t.headers && IsItem(t, x) && t.col[x] in v.heads && x in v.lists[t.col[x]]
    requires y in t.ring[x] && IsItem(t, y) && t.col[y] == c
    ensures x in CoverItems(t, v, c)
  {
    RingLinked(t, v, s, x, y);
    RowMates(t, |s|, x, y);
    var xs := ListOf(v, c);
    var i :| 0 <= i < |xs| && xs[i] == y;
    assert x in RingOf(t, xs[i]);
    RingsMember(t, xs, x);
  }

  /** Which rows are still linked after covering c: those without an item in c. */
  lemma CoverHidesRow(t: Torus, v: View, s: seq<Node>, c: nat, x: nat)
    requires Inv(t, v, s) && c in t.headers && IsItem(t, x)
    requires t.col[x] in v.heads && t.col[x] != c && x in v.lists[t.col[x]]
    ensures RowOk(t, x) && (x in CoverItems(t, v, c) <==> c in RowCols(t, x))
  {
    hide CircH, CircV, Bounded, CoverItems, ItemOk, ColumnOk, Live;
    assert RowOk(t, x);
    if x in CoverItems(t, v, c) {
      HiddenMeetsColumn(t, v, s, c, x);
    }
    if c in RowCols(t, x) {
      var y :| y in RowSet(t, x) && t.col[y] == c;
      ColumnHides(t, v, s, c, x, y);
    }
  }

  lemma CoverLive(t: Torus, v: View, s: seq<Node>, c: nat)
    requires Coverable(t, v, s, c)
    ensures Live(t, CoverView(t, v, s, c))
  {
    var w := CoverView(t, v, s, c);
    WithoutMember(v.heads, c);
    var js := CoverItems(t, v, c);
    assert Hidden(t, v.lists, w.lists, js);
    forall x: nat | IsItem(t, x) && t.col[x] in w.heads
      ensures RowOk(t, x) && (x in w.lists[t.col[x]] <==> RowCols(t, x) <= Elems(w.heads))
    {
      assert RowOk(t, x);
      var d := t.col[x];
      assert x in w.lists[d] <==> x in v.lists[d] && x !in js;
      if x in v.lists[d] {
        CoverHidesRow(t, v, s, c, x);
      }
    }
  }

  /** Covering an uncovered column keeps the invariant. */
  lemma CoverInv(t: Torus, v: View, s: seq<Node>, c: nat)
    requires Coverable(t, v, s, c)
    ensures Inv(t, CoverView(t, v, s, c), Covered(t, v, s, c))
    ensures CoverView(t, v, s, c).lists[c] == v.lists[c]
    ensures Elems(CoverView(t, v, s, c).heads) == Elems(v.heads) - {c}
  {
    CoverMoment(t, v, s, c, CoverItems(t, v, c));
    CoverLive(t, v, s, c);
    WithoutMember(v.heads, c);
  }

  /** The array while c is being covered, once the items js are out. */
  ghost function Progress(s: seq<Node>, c: nat, js: seq<nat>): seq<Node> {
    if Bounded(s) && c < |s| && BelowLength(js, |s|) then UnlinkAll(UnlinkH(s, c), js) else s
  }

  lemma ProgressStart(t: Torus, v: View, s: seq<Node>, c: nat)
    requires Coverable(t, v, s, c)
    ensures Bounded(s) && c < |s| && Progress(s, c, []) == UnlinkH(s, c)
    ensures RelinkH(Progress(s, c, []), c) == s
    ensures Progress(s, c, CoverItems(t, v, c)) == Covered(t, v, s, c)
  {
    hide CircV, UnlinkH, RelinkH, UnlinkV, RowOk, ColumnOk, Live;
    RelinkUndoesUnlinkH(s, ROOT, v.heads, c);
  }

  /** Part way through, rows still read left to right and c's column top to bottom. */
  lemma ProgressLinks(t: Torus, v: View, s: seq<Node>, c: nat, js: seq<nat>, x: nat)
    requires Coverable(t, v, s, c) && js <= CoverItems(t, v, c)
    ensures Bounded(Progress(s, c, js)) && |Progress(s, c, js)| == |s|
    ensures CircV(Progress(s, c, js), c, ListOf(v, c))
    ensures x in ListOf(v, c) ==> CircH(Progress(s, c, js), x, RingOf(t, x))
  {
    CoverMoment(t, v, s, c, js);
    var w := View(Without(v.heads, c), HideAll(t, v.lists, js));
    assert ColumnOk(t, w, Progress(s, c, js), c);
    if x in ListOf(v, c) {
      assert IsItem(t, x) && ItemOk(t, Progress(s, c, js), x);
    }
  }

  ghost predicate SameNames(s: seq<Node>, r: seq<Node>) {
    |s| == |r| && forall m | 0 <= m < |s| :: s[m].name == r[m].name
  }

  /** No cover renames a node. */
  lemma {:induction false} UnlinkAllKeepsNames(s: seq<Node>, js: seq<nat>)
    requires Bounded(s) && BelowLength(js, |s|)
    ensures SameNames(s, UnlinkAll(s, js))
  {
    if js != [] {
      UnlinkAllKeepsNames(s, js[..|js| - 1]);
    }
  }

  lemma UnlinkHKeepsNames(s: seq<Node>, c: nat)
    requires Bounded(s) && c < |s|
    ensures SameNames(s, UnlinkH(s, c))
  {
  }

  lemma CoveredKeepsNames(t: Torus, v: View, s: seq<Node>, c: nat)
    requires Coverable(t, v, s, c)
    ensures SameNames(s, Covered(t, v, s, c))
  {
    UnlinkHKeepsNames(s, c);
    UnlinkAllKeepsNames(UnlinkH(s, c), CoverItems(t, v, c));
  }

  // ---------------------------------------------------------------- uncovering

  /** Taking out one more item, and putting it back. */
  lemma ProgressStep(t: Torus, v: View, s: seq<Node>, c: nat, js: seq<nat>, j: nat)
    requires Coverable(t, v, s, c) && js + [j] <= CoverItems(t, v, c)
    ensures j < |s| && |Progress(s, c, js)| == |Progress(s, c, js + [j])| == |s|
    ensures Bounded(Progress(s, c, js)) && Bounded(Progress(s, c, js + [j]))
    ensures Progress(s, c, js + [j]) == UnlinkV(Progress(s, c, js), j)
    ensures Progress(s, c, js) == RelinkV(Progress(s, c, js + [j]), j)
  {
    var jj := js + [j];
    assert jj[..|js|] == js && jj[|js|] == j;
    CoverMoment(t, v, s, c, jj);
    CoverMoment(t, v, s, c, js);
    var v1 := View(Without(v.heads, c), HideAll(t, v.lists, js));
    var u := Progress(s, c, js);
    HideOne(t, v.lists, v1.lists, js, j);
    assert ColumnOk(t, v1, u, t.col[j]);
    RelinkUndoesUnlinkV(u, t.col[j], v1.lists[t.col[j]], j);
    assert UnlinkAll(UnlinkH(s, c), jj) == UnlinkV(u, j);
  }

  /** sudoku.cc:231-242 on a value: put the items back last to first, then the header. */
  ghost function RelinkAll(s: seq<Node>, js: seq<nat>): (r: seq<Node>)
    requires Bounded(s) && BelowLength(js, |s|)
    ensures Bounded(r) && |r| == |s|
    decreases |js|
  {
    if js == [] then s else RelinkAll(RelinkV(s, js[|js| - 1]), js[..|js| - 1])
  }

  lemma {:induction false} RelinkAllRestores(t: Torus, v: View, s: seq<Node>, c: nat, js: seq<nat>)
    requires Coverable(t, v, s, c) && js <= CoverItems(t, v, c)
    ensures Bounded(Progress(s, c, js)) && |Progress(s, c, js)| == |s| && BelowLength(js, |s|)
    ensures RelinkAll(Progress(s, c, js), js) == Progress(s, c, [])
  {
    hide Inv, RelinkV, Progress, CoverItems;
    ProgressLinks(t, v, s, c, js, c);
    if js != [] {
      var k := |js| - 1;
      assert js == js[..k] + [js[k]];
      ProgressStep(t, v, s, c, js[..k], js[k]);
      RelinkAllRestores(t, v, s, c, js[..k]);
    }
  }

  /** Uncovering a column of any well-formed torus undoes covering it: every link, every size. */
  lemma UncoverUndoesCover(t: Torus, v: View, s: seq<Node>, c: nat)
    requires Inv(t, v, s) && c in v.heads
    ensures Coverable(t, v, s, c)
    ensures RelinkH(RelinkAll(Covered(t, v, s, c), CoverItems(t, v, c)), c) == s
  {
    CoverableHolds(t, v, s, c);
    ProgressStart(t, v, s, c);
    RelinkAllRestores(t, v, s, c, CoverItems(t, v, c));
  }

  // ---------------------------------------------------------------- covering a whole row

  datatype Snap = Snap(view: View, arr: seq<Node>)

  /** The items js have distinct columns, all of them uncovered. */
  ghost predicate OpenColumns(t: Torus, heads: seq<nat>, js: seq<nat>) {
    && (forall i | 0 <= i < |js| :: IsItem(t, js[i]) && t.col[js[i]] in heads)
    && (forall i, k | 0 <= i < k < |js| :: t.col[js[i]] != t.col[js[k]])
  }

  ghost function Cols(t: Torus, js: seq<nat>): set<nat>
  {
    set i | 0 <= i < |js| && IsItem(t, js[i]) :: t.col[js[i]]
  }

  lemma ColsSnoc(t: Torus, js: seq<nat>, j: nat)
    requires IsItem(t, j)
    ensures Cols(t, js + [j]) == Cols(t, js) + {t.col[j]}
  {
    var jj := js + [j];
    forall c | c in Cols(t, js) + {t.col[j]} ensures c in Cols(t, jj) {
      if c == t.col[j] {
        assert jj[|js|] == j;
      } else {
        var i :| 0 <= i < |js| && IsItem(t, js[i]) && t.col[js[i]] == c;
        assert jj[i] == js[i];
      }
    }
  }

  ghost function CoverOne(t: Torus, p: Snap, c: nat): (q: Snap)
    requires Inv(t, p.view, p.arr) && c in p.view.heads
    ensures Inv(t, q.view, q.arr) && SameNames(p.arr, q.arr)
    ensures Elems(q.view.heads) == Elems(p.view.heads) - {c}
    ensures Coverable(t, p.view, p.arr, c)
    ensures q == Snap(CoverView(t, p.view, p.arr, c), Covered(t, p.view, p.arr, c))
  {
    CoverableHolds(t, p.view, p.arr, c);
    CoverInv(t, p.view, p.arr, c);
    CoveredKeepsNames(t, p.view, p.arr, c);
    Snap(CoverView(t, p.view, p.arr, c), Covered(t, p.view, p.arr, c))
  }

  ghost predicate Open(t: Torus, p: Snap, js: seq<nat>) {
    Inv(t, p.view, p.arr) && OpenColumns(t, p.view.heads, js)
  }

  /** What covering the first columns of a row leaves open. */
  ghost predicate LeftOpen(t: Torus, p: Snap, q: Snap, js: seq<nat>) {
    Inv(t, q.view, q.arr) && SameNames(p.arr, q.arr) && Elems(q.view.heads) == Elems(p.view.heads) - Cols(t, js)
  }

  lemma OpenPrefix(t: Torus, p: Snap, js: seq<nat>, k: nat)
    requires Open(t, p, js) && k <= |js|
    ensures Open(t, p, js[..k])
  {
    hide Inv;
  }

  lemma NextOpen(t: Torus, p: Snap, q: Snap, js: seq<nat>, j: nat)
    requires OpenColumns(t, p.view.heads, js + [j])
    requires Elems(q.view.heads) == Elems(p.view.heads) - Cols(t, js)
    ensures OpenColumns(t, p.view.heads, js) && IsItem(t, j) && t.col[j] in q.view.heads
  {
    var jj := js + [j];
    assert jj[|js|] == j && forall i | 0 <= i < |js| :: jj[i] == js[i];
    assert t.col[j] in Elems(p.view.heads);
    assert t.col[j] in Elems(q.view.heads);
  }

  /** The array and view after covering the columns of the items js one after another. */
  ghost function CoverMany(t: Torus, p: Snap, js: seq<nat>): Snap {
    if js == [] then p else
      var q, j := CoverMany(t, p, js[..|js| - 1]), js[|js| - 1];
      if Inv(t, q.view, q.arr) && IsItem(t, j) && t.col[j] in q.view.heads
      then CoverOne(t, q, t.col[j]) else q
  }

  lemma CoverManySnoc(t: Torus, p: Snap, js: seq<nat>, j: nat)
    requires OpenColumns(t, p.view.heads, js + [j]) && LeftOpen(t, p, CoverMany(t, p, js), js)
    ensures IsItem(t, j) && t.col[j] in CoverMany(t, p, js).view.heads
    ensures CoverMany(t, p, js + [j]) == CoverOne(t, CoverMany(t, p, js), t.col[j])
    ensures LeftOpen(t, p, CoverMany(t, p, js + [j]), js + [j])
  {
    hide CoverOne, Inv;
    var jj, q := js + [j], CoverMany(t, p, js);
    assert jj[..|js|] == js && jj[|js|] == j;
    NextOpen(t, p, q, js, j);
    ColsSnoc(t, js, j);
    assert CoverMany(t, p, jj) == CoverOne(t, q, t.col[j]);
  }

  lemma {:induction false} CoverManyOpen(t: Torus, p: Snap, js: seq<nat>)
    requires Open(t, p, js)
    ensures LeftOpen(t, p, CoverMany(t, p, js), js)
  {
    hide Inv, CoverOne, OpenColumns;
    if js != [] {
      var k := |js| - 1;
      OpenPrefix(t, p, js, k);
      CoverManyOpen(t, p, js[..k]);
      assert js == js[..k] + [js[k]];
      CoverManySnoc(t, p, js[..k], js[k]);
    }
  }

  /** Once c is covered, a row with an item x in it has all its other columns open. */
  lemma RingOpen(t: Torus, v: View, s: seq<Node>, c: nat, x: nat)
    requires Coverable(t, v, s, c) && x in v.lists[c]
    ensures IsItem(t, x) && t.col[x] == c && RowOk(t, x)
    ensures RowCols(t, x) <= Elems(v.heads) && RowCols(t, x) == {c} + RestCols(t, x)
    ensures OpenColumns(t, CoverView(t, v, s, c).heads, t.ring[x])
    ensures Elems(CoverView(t, v, s, c).heads) == Elems(v.heads) - {c}
  {
    ColumnItems(t, v, s, c);
    assert RowOk(t, x);
    CoverInv(t, v, s, c);
    var js := t.ring[x];
    forall i | 0 <= i < |js|
      ensures IsItem(t, js[i]) && t.col[js[i]] in CoverView(t, v, s, c).heads
    {
      RingLinked(t, v, s, x, js[i]);
      assert t.col[js[i]] in Elems(CoverView(t, v, s, c).heads);
    }
    forall i, k | 0 <= i < k < |js| ensures t.col[js[i]] != t.col[js[k]] {
      assert js[i] in RowSet(t, x) && js[k] in RowSet(t, x);
    }
    RowColsSplit(t, x);
  }

  /** The columns of the rest of x's row. */
  ghost function RestCols(t: Torus, x: nat): set<nat>
    requires IsItem(t, x) && RowOk(t, x)
  {
    assert forall i | 0 <= i < |t.ring[x]| :: t.ring[x][i] in RowSet(t, x);
    Cols(t, t.ring[x])
  }

  lemma RowColsSplit(t: Torus, x: nat)
    requires IsItem(t, x) && RowOk(t, x)
    ensures RowCols(t, x) == {t.col[x]} + RestCols(t, x)
  {
    var js := t.ring[x];
    forall c | c in RowCols(t, x) ensures c in {t.col[x]} + RestCols(t, x) {
      var y :| y in RowSet(t, x) && t.col[y] == c;
      if y != x {
        var i :| 0 <= i < |js| && js[i] == y;
        assert IsItem(t, js[i]) && t.col[js[i]] == c;
      }
    }
    forall c | c in {t.col[x]} + RestCols(t, x) ensures c in RowCols(t, x) {
      if c == t.col[x] {
        assert x in RowSet(t, x);
      } else {
        var i :| 0 <= i < |js| && IsItem(t, js[i]) && t.col[js[i]] == c;
        assert js[i] in RowSet(t, x);
      }
    }
  }
}
