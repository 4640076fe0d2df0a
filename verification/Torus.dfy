/**
  Knuth's toroidal doubly linked lists, as the Sudoku solver keeps them in a
  fixed array of nodes.  Everything in this module is about values: a snapshot
  of the array is a `seq<Node>`, links are indices into it, and index 0 is the
  root of the header list.
*/
module Torus {

  datatype Node = Node(left: nat, right: nat, up: nat, down: nat, col: nat, name: nat, size: int)

  const ROOT: nat := 0

  /** The part of the structure that no cover or uncover changes. */
  datatype Torus = Torus(
    headers: set<nat>,             // the column headers
    col: map<nat, nat>,            // each item's column header
    ring: map<nat, seq<nat>>)      // the other items of each item's row, going right

  /** The part that covering changes: the header list and each column's list of items. */
  datatype View = View(heads: seq<nat>, lists: map<nat, seq<nat>>)

  // ---------------------------------------------------------------- plain lists

  ghost predicate Distinct<T>(xs: seq<T>) {
    forall i, j | 0 <= i < j < |xs| :: xs[i] != xs[j]
  }

  ghost function Elems(xs: seq<nat>): set<nat> {
    set x | x in xs
  }

  ghost function Without(xs: seq<nat>, x: nat): seq<nat>
    requires x in xs
  {
    var k :| 0 <= k < |xs| && xs[k] == x;
    xs[..k] + xs[k + 1..]
  }

  lemma WithoutAt(xs: seq<nat>, k: nat)
    requires Distinct(xs) && k < |xs|
    ensures Without(xs, xs[k]) == xs[..k] + xs[k + 1..]
    ensures Distinct(Without(xs, xs[k]))
    ensures forall y :: y in Without(xs, xs[k]) <==> y in xs && y != xs[k]
    ensures Elems(Without(xs, xs[k])) == Elems(xs) - {xs[k]}
  {
    var ys := xs[..k] + xs[k + 1..];
    assert Without(xs, xs[k]) == ys;
    forall y ensures y in ys <==> y in xs && y != xs[k] {
      if y in xs && y != xs[k] {
        var i :| 0 <= i < |xs| && xs[i] == y;
        assert if i < k then ys[i] == y else ys[i - 1] == y;
      }
    }
  }

  lemma WithoutMember(xs: seq<nat>, x: nat)
    requires Distinct(xs) && x in xs
    ensures Distinct(Without(xs, x)) && |Without(xs, x)| == |xs| - 1
    ensures forall y :: y in Without(xs, x) <==> y in xs && y != x
    ensures Elems(Without(xs, x)) == Elems(xs) - {x}
  {
    var k :| 0 <= k < |xs| && xs[k] == x;
    WithoutAt(xs, k);
  }

  // ---------------------------------------------------------------- circular lists

  /** The i-th element of the circle that starts and ends at h. */
  function At(h: nat, xs: seq<nat>, i: int): nat {
    if 0 <= i < |xs| then xs[i] else h
  }

  /** All links stay inside the array. */
  predicate Bounded(s: seq<Node>) {
    forall k | 0 <= k < |s| ::
      s[k].left < |s| && s[k].right < |s| && s[k].up < |s| && s[k].down < |s| && s[k].col < |s|
  }

  ghost predicate InArray(s: seq<Node>, h: nat, xs: seq<nat>) {
    h < |s| && h !in xs && Distinct(xs) && forall i | 0 <= i < |xs| :: xs[i] < |s|
  }

  ghost predicate LinkV(s: seq<Node>, h: nat, xs: seq<nat>, i: int)
    requires InArray(s, h, xs)
  {
    s[At(h, xs, i)].down == At(h, xs, i + 1) && s[At(h, xs, i + 1)].up == At(h, xs, i)
  }

  /** Going down from h visits exactly xs and comes back; going up visits it backwards. */
  ghost predicate CircV(s: seq<Node>, h: nat, xs: seq<nat>) {
    InArray(s, h, xs) && forall i | -1 <= i < |xs| :: LinkV(s, h, xs, i)
  }

  ghost predicate LinkH(s: seq<Node>, h: nat, xs: seq<nat>, i: int)
    requires InArray(s, h, xs)
  {
    s[At(h, xs, i)].right == At(h, xs, i + 1) && s[At(h, xs, i + 1)].left == At(h, xs, i)
  }

  /** Going right from h visits exactly xs and comes back; going left visits it backwards. */
  ghost predicate CircH(s: seq<Node>, h: nat, xs: seq<nat>) {
    InArray(s, h, xs) && forall i | -1 <= i < |xs| :: LinkH(s, h, xs, i)
  }

  // ---------------------------------------------------------------- elementary link changes

  /** sudoku.cc:224-226, the three assignments that take item j out of its column. */
  function UnlinkV(s: seq<Node>, j: nat): (r: seq<Node>)
    requires Bounded(s) && j < |s|
    ensures Bounded(r) && |r| == |s|
  {
    var s1 := s[s[j].down := s[s[j].down].(up := s[j].up)];
    var s2 := s1[s1[j].up := s1[s1[j].up].(down := s1[j].down)];
    s2[s2[j].col := s2[s2[j].col].(size := s2[s2[j].col].size - 1)]
  }

  /** sudoku.cc:235-237, the three assignments that put it back. */
  function RelinkV(s: seq<Node>, j: nat): (r: seq<Node>)
    requires Bounded(s) && j < |s|
    ensures Bounded(r) && |r| == |s|
  {
    var s1 := s[s[j].col := s[s[j].col].(size := s[s[j].col].size + 1)];
    var s2 := s1[s1[j].down := s1[s1[j].down].(up := j)];
    s2[s2[j].up := s2[s2[j].up].(down := j)]
  }

  /** sudoku.cc:220-221, taking header c out of the header list. */
  function UnlinkH(s: seq<Node>, c: nat): (r: seq<Node>)
    requires Bounded(s) && c < |s|
    ensures Bounded(r) && |r| == |s|
  {
    var s1 := s[s[c].right := s[s[c].right].(left := s[c].left)];
    s1[s1[c].left := s1[s1[c].left].(right := s1[c].right)]
  }

  /** sudoku.cc:240-241, putting header c back. */
  function RelinkH(s: seq<Node>, c: nat): (r: seq<Node>)
    requires Bounded(s) && c < |s|
    ensures Bounded(r) && |r| == |s|
  {
    var s1 := s[s[c].right := s[s[c].right].(left := c)];
    s1[s1[c].left := s1[s1[c].left].(right := c)]
  }

  /** What a vertical unlink of j writes, field by field. */
  lemma UnlinkVFields(s: seq<Node>, j: nat)
    requires Bounded(s) && j < |s| && s[j].up != j && s[j].down != j
    ensures var r := UnlinkV(s, j); forall m | 0 <= m < |s| ::
      && r[m].left == s[m].left && r[m].right == s[m].right && r[m].col == s[m].col && r[m].name == s[m].name
      && r[m].down == (if m == s[j].up then s[j].down else s[m].down)
      && r[m].up == (if m == s[j].down then s[j].up else s[m].up)
      && r[m].size == s[m].size - (if m == s[j].col then 1 else 0)
  {
  }

  lemma RelinkVFields(s: seq<Node>, j: nat)
    requires Bounded(s) && j < |s| && s[j].up != j && s[j].down != j
    ensures var r := RelinkV(s, j); forall m | 0 <= m < |s| ::
      && r[m].left == s[m].left && r[m].right == s[m].right && r[m].col == s[m].col && r[m].name == s[m].name
      && r[m].down == (if m == s[j].up then j else s[m].down)
      && r[m].up == (if m == s[j].down then j else s[m].up)
      && r[m].size == s[m].size + (if m == s[j].col then 1 else 0)
  {
  }

  /** What a horizontal unlink of c writes. */
  lemma UnlinkHFields(s: seq<Node>, c: nat)
    requires Bounded(s) && c < |s| && s[c].left != c && s[c].right != c
    ensures var r := UnlinkH(s, c); forall m | 0 <= m < |s| ::
      && r[m].up == s[m].up && r[m].down == s[m].down && r[m].col == s[m].col && r[m].size == s[m].size
      && r[m].right == (if m == s[c].left then s[c].right else s[m].right)
      && r[m].left == (if m == s[c].right then s[c].left else s[m].left)
  {
  }

  /** Putting back what was just taken out restores every field of every node. */
  lemma RelinkUndoesUnlinkV(s: seq<Node>, h: nat, xs: seq<nat>, j: nat)
    requires Bounded(s) && CircV(s, h, xs) && j in xs
    ensures RelinkV(UnlinkV(s, j), j) == s
  {
    hide UnlinkV, RelinkV;
    var k :| 0 <= k < |xs| && xs[k] == j;
    assert LinkV(s, h, xs, k - 1) && LinkV(s, h, xs, k);
    UnlinkVFields(s, j);
    var u := UnlinkV(s, j);
    RelinkVFields(u, j);
    var r := RelinkV(u, j);
    forall m: nat | m < |s|
      ensures r[m] == s[m]
    {
    }
  }

  lemma RelinkUndoesUnlinkH(s: seq<Node>, h: nat, xs: seq<nat>, c: nat)
    requires Bounded(s) && CircH(s, h, xs) && c in xs
    ensures RelinkH(UnlinkH(s, c), c) == s
  {
    var k :| 0 <= k < |xs| && xs[k] == c;
    assert LinkH(s, h, xs, k - 1) && LinkH(s, h, xs, k);
    var u := UnlinkH(s, c);
    assert u[c].left == s[c].left && u[c].right == s[c].right;
  }

  lemma AtWithout(h: nat, xs: seq<nat>, k: nat, ys: seq<nat>, i: int)
    requires k < |xs| && ys == xs[..k] + xs[k + 1..] && -1 <= i <= |ys|
    ensures At(h, ys, i) == At(h, xs, if i < k then i else i + 1)
  {
  }

  /** A vertical unlink shortens its own circle by exactly j ... */
  lemma UnlinkVShortens(s: seq<Node>, h: nat, xs: seq<nat>, j: nat)
    requires Bounded(s) && CircV(s, h, xs) && j in xs
    ensures CircV(UnlinkV(s, j), h, Without(xs, j))
  {
    hide UnlinkV, Without, Elems, Bounded;
    var k :| 0 <= k < |xs| && xs[k] == j;
    WithoutAt(xs, k);
    var r, ys := UnlinkV(s, j), Without(xs, j);
    assert LinkV(s, h, xs, k - 1) && LinkV(s, h, xs, k);
    UnlinkVFields(s, j);
    forall i | -1 <= i < |ys| ensures LinkV(r, h, ys, i) {
      assert LinkV(s, h, xs, if i < k then i else i + 1);
      AtWithout(h, xs, k, ys, i);
      AtWithout(h, xs, k, ys, i + 1);
    }
  }

  /** ... and leaves every circle that shares no node with it alone. */
  lemma UnlinkVElsewhere(s: seq<Node>, h: nat, xs: seq<nat>, j: nat, h2: nat, ys: seq<nat>)
    requires Bounded(s) && CircV(s, h, xs) && j in xs
    requires CircV(s, h2, ys) && h2 != h && h2 !in xs && h !in ys
    requires forall y | y in ys :: y !in xs
    ensures CircV(UnlinkV(s, j), h2, ys)
  {
    var k :| 0 <= k < |xs| && xs[k] == j;
    assert LinkV(s, h, xs, k - 1) && LinkV(s, h, xs, k);
    var r := UnlinkV(s, j);
    forall i | -1 <= i < |ys| ensures LinkV(r, h2, ys, i) {
      assert LinkV(s, h2, ys, i);
    }
  }

  lemma UnlinkVKeepsCircH(s: seq<Node>, j: nat, h: nat, xs: seq<nat>)
    requires Bounded(s) && j < |s| && CircH(s, h, xs)
    ensures CircH(UnlinkV(s, j), h, xs) && UnlinkV(s, j)[h].col == s[h].col
  {
    var r := UnlinkV(s, j);
    forall i | -1 <= i < |xs| ensures LinkH(r, h, xs, i) {
      assert LinkH(s, h, xs, i);
    }
  }

  lemma UnlinkHShortens(s: seq<Node>, h: nat, xs: seq<nat>, c: nat)
    requires Bounded(s) && CircH(s, h, xs) && c in xs
    ensures CircH(UnlinkH(s, c), h, Without(xs, c))
  {
    hide UnlinkH, Without, Elems, Bounded;
    var k :| 0 <= k < |xs| && xs[k] == c;
    WithoutAt(xs, k);
    var r, ys := UnlinkH(s, c), Without(xs, c);
    assert LinkH(s, h, xs, k - 1) && LinkH(s, h, xs, k);
    UnlinkHFields(s, c);
    forall i | -1 <= i < |ys| ensures LinkH(r, h, ys, i) {
      assert LinkH(s, h, xs, if i < k then i else i + 1);
      AtWithout(h, xs, k, ys, i);
      AtWithout(h, xs, k, ys, i + 1);
    }
  }

  lemma UnlinkHElsewhere(s: seq<Node>, h: nat, xs: seq<nat>, c: nat, h2: nat, ys: seq<nat>)
    requires Bounded(s) && CircH(s, h, xs) && c in xs
    requires CircH(s, h2, ys) && h2 != h && h2 !in xs && h !in ys
    requires forall y | y in ys :: y !in xs
    ensures CircH(UnlinkH(s, c), h2, ys) && UnlinkH(s, c)[h2].col == s[h2].col
  {
    var k :| 0 <= k < |xs| && xs[k] == c;
    assert LinkH(s, h, xs, k - 1) && LinkH(s, h, xs, k);
    var r := UnlinkH(s, c);
    forall i | -1 <= i < |ys| ensures LinkH(r, h2, ys, i) {
      assert LinkH(s, h2, ys, i);
    }
  }

  lemma UnlinkHKeepsCircV(s: seq<Node>, c: nat, h: nat, xs: seq<nat>)
    requires Bounded(s) && c < |s| && CircV(s, h, xs)
    ensures CircV(UnlinkH(s, c), h, xs) && UnlinkH(s, c)[h].size == s[h].size
  {
    var r := UnlinkH(s, c);
    forall i | -1 <= i < |xs| ensures LinkV(r, h, xs, i) {
      assert LinkV(s, h, xs, i);
    }
  }

  // ---------------------------------------------------------------- well-formed tori

  ghost predicate IsItem(t: Torus, x: nat) {
    x in t.col && x in t.ring
  }

  ghost function RowSet(t: Torus, x: nat): set<nat>
    requires IsItem(t, x)
  {
    {x} + Elems(t.ring[x])
  }

  /** The headers that x's row has an item in. */
  ghost function RowCols(t: Torus, x: nat): set<nat>
    requires IsItem(t, x) && RowSet(t, x) <= t.col.Keys
  {
    set y | y in RowSet(t, x) :: t.col[y]
  }

  /** A row: its members agree on what the row is, and no two share a column. */
  ghost predicate RowOk(t: Torus, x: nat)
    requires IsItem(t, x)
  {
    && x !in t.ring[x] && Distinct(t.ring[x])
    && RowSet(t, x) <= t.col.Keys
    && (forall y | y in RowSet(t, x) :: IsItem(t, y) && RowSet(t, y) == RowSet(t, x))
    && (forall y, z | y in RowSet(t, x) && z in RowSet(t, x) && y != z :: t.col[y] != t.col[z])
  }

  ghost predicate WellFormed(t: Torus, n: nat) {
    && t.col.Keys == t.ring.Keys
    && ROOT !in t.headers && ROOT !in t.col
    && (forall c | c in t.headers :: c < n && c !in t.col)
    && (forall x: nat | IsItem(t, x) :: x < n && t.col[x] in t.headers && RowOk(t, x))
  }

  /** Column c's circle is lists[c], holds only c's items, and its size is recorded. */
  ghost predicate ColumnOk(t: Torus, v: View, s: seq<Node>, c: nat)
    requires c in v.lists
  {
    && CircV(s, c, v.lists[c]) && s[c].size == |v.lists[c]|
    && forall x | x in v.lists[c] :: IsItem(t, x) && t.col[x] == c
  }

  ghost predicate ItemOk(t: Torus, s: seq<Node>, x: nat)
    requires IsItem(t, x)
  {
    CircH(s, x, t.ring[x]) && s[x].col == t.col[x]
  }

  /** The array s holds torus t with its circles as v lists them. */
  ghost predicate Rep(t: Torus, v: View, s: seq<Node>) {
    && Bounded(s) && WellFormed(t, |s|)
    && v.lists.Keys == t.headers
    && Elems(v.heads) <= t.headers && CircH(s, ROOT, v.heads)
    && (forall x: nat | IsItem(t, x) :: ItemOk(t, s, x))
    && (forall c | c in t.headers :: ColumnOk(t, v, s, c))
  }

  /** In an uncovered column, exactly the rows without covered columns are linked. */
  ghost predicate Live(t: Torus, v: View)
    requires v.lists.Keys == t.headers
    requires forall x: nat | IsItem(t, x) :: t.col[x] in t.headers && RowOk(t, x)
  {
    forall x: nat | IsItem(t, x) && t.col[x] in v.heads ::
      x in v.lists[t.col[x]] <==> assert RowOk(t, x); RowCols(t, x) <= Elems(v.heads)
  }

  ghost predicate Inv(t: Torus, v: View, s: seq<Node>) {
    Rep(t, v, s) && Live(t, v)
  }

  // ---------------------------------------------------------------- hiding items

  ghost function Hide(t: Torus, ls: map<nat, seq<nat>>, j: nat): map<nat, seq<nat>>
    requires j in t.col && t.col[j] in ls && j in ls[t.col[j]]
  {
    ls[t.col[j] := Without(ls[t.col[j]], j)]
  }

  lemma UnlinkVColumn(t: Torus, v: View, s: seq<Node>, j: nat, c: nat)
    requires Rep(t, v, s) && IsItem(t, j) && j in v.lists[t.col[j]] && c in t.headers
    ensures ColumnOk(t, v.(lists := Hide(t, v.lists, j)), UnlinkV(s, j), c)
  {
    hide LinkV, LinkH, RowOk, Without, Elems;
    var cj := t.col[j];
    assert ColumnOk(t, v, s, cj) && ColumnOk(t, v, s, c) && ItemOk(t, s, j);
    WithoutMember(v.lists[cj], j);
    if c == cj {
      UnlinkVShortens(s, c, v.lists[c], j);
    } else {
      UnlinkVElsewhere(s, cj, v.lists[cj], j, c, v.lists[c]);
    }
  }

  lemma UnlinkVRep(t: Torus, v: View, s: seq<Node>, j: nat)
    requires Rep(t, v, s) && IsItem(t, j) && j in v.lists[t.col[j]]
    ensures Rep(t, v.(lists := Hide(t, v.lists, j)), UnlinkV(s, j))
  {
    hide UnlinkV, LinkH, InArray, RowOk, ColumnOk;
    var r := UnlinkV(s, j);
    UnlinkVKeepsCircH(s, j, ROOT, v.heads);
    forall x: nat | IsItem(t, x) ensures ItemOk(t, r, x) {
      assert ItemOk(t, s, x);
      UnlinkVKeepsCircH(s, j, x, t.ring[x]);
    }
    forall c | c in t.headers ensures ColumnOk(t, v.(lists := Hide(t, v.lists, j)), r, c) {
      UnlinkVColumn(t, v, s, j, c);
    }
  }

  lemma UnlinkHRep(t: Torus, v: View, s: seq<Node>, c: nat)
    requires Rep(t, v, s) && c in v.heads
    ensures Rep(t, v.(heads := Without(v.heads, c)), UnlinkH(s, c))
  {
    hide UnlinkH, LinkH, LinkV, Without;
    var r := UnlinkH(s, c);
    var v' := v.(heads := Without(v.heads, c));
    WithoutMember(v.heads, c);
    UnlinkHShortens(s, ROOT, v.heads, c);
    assert forall y :: y in v.heads ==> y in Elems(v.heads);
    forall x: nat | IsItem(t, x) ensures ItemOk(t, r, x) {
      assert ItemOk(t, s, x) && RowOk(t, x);
      assert forall y | y in t.ring[x] :: y in RowSet(t, x);
      UnlinkHElsewhere(s, ROOT, v.heads, c, x, t.ring[x]);
    }
    forall d | d in t.headers ensures ColumnOk(t, v', r, d) {
      assert ColumnOk(t, v, s, d);
      UnlinkHKeepsCircV(s, c, d, v.lists[d]);
    }
  }

  /** The items js are distinct and each is linked in its column. */
  ghost predicate Hideable(t: Torus, ls: map<nat, seq<nat>>, js: seq<nat>) {
    Distinct(js) && forall i | 0 <= i < |js| :: IsItem(t, js[i]) && t.col[js[i]] in ls && js[i] in ls[t.col[js[i]]]
  }

  ghost predicate ListsDistinct(ls: map<nat, seq<nat>>) {
    forall c | c in ls :: Distinct(ls[c])
  }

  /** The lists r are the lists ls with exactly the items of js taken out. */
  ghost predicate Hidden(t: Torus, ls: map<nat, seq<nat>>, r: map<nat, seq<nat>>, js: seq<nat>) {
    && r.Keys == ls.Keys && ListsDistinct(r)
    && (forall c: nat | c in ls :: forall y: nat :: y in r[c] <==> y in ls[c] && y !in js)
  }

  lemma HideOne(t: Torus, ls: map<nat, seq<nat>>, r: map<nat, seq<nat>>, js: seq<nat>, j: nat)
    requires ListsInColumn(t, ls) && Hideable(t, ls, js + [j]) && Hidden(t, ls, r, js)
    ensures IsItem(t, j) && t.col[j] in r && j in r[t.col[j]]
    ensures Hidden(t, ls, Hide(t, r, j), js + [j])
  {
    var jj := js + [j];
    assert jj[|js|] == j;
    var c := t.col[j];
    assert j !in js by {
      assert forall i | 0 <= i < |js| :: js[i] == jj[i] && jj[i] != jj[|js|];
    }
    assert forall y :: y in jj <==> y in js || y == j;
    WithoutMember(r[c], j);
    var r' := Hide(t, r, j);
    forall d: nat | d in ls ensures forall y: nat :: y in r'[d] <==> y in ls[d] && y !in jj {
      assert forall y: nat :: y in r[d] <==> y in ls[d] && y !in js;
      assert d != c ==> r'[d] == r[d] && j !in ls[d];
    }
  }

  ghost predicate ListsInColumn(t: Torus, ls: map<nat, seq<nat>>) {
    forall c: nat, i: nat | c in ls && i < |ls[c]| :: ls[c][i] in t.col && t.col[ls[c][i]] == c
  }

  /** Hiding the items of js one after another. */
  ghost function HideAll(t: Torus, ls: map<nat, seq<nat>>, js: seq<nat>): (r: map<nat, seq<nat>>)
    requires ListsDistinct(ls) && ListsInColumn(t, ls) && Hideable(t, ls, js)
    ensures Hidden(t, ls, r, js)
  {
    if js == [] then ls else
      var k := |js| - 1;
      assert js == js[..k] + [js[k]];
      var r := HideAll(t, ls, js[..k]);
      HideOne(t, ls, r, js[..k], js[k]);
      Hide(t, r, js[k])
  }

  /** A column none of whose items are hidden keeps its list. */
  lemma {:induction false} HideAllElsewhere(t: Torus, ls: map<nat, seq<nat>>, js: seq<nat>, c: nat)
    requires ListsDistinct(ls) && ListsInColumn(t, ls) && Hideable(t, ls, js)
    requires c in ls && forall i | 0 <= i < |js| :: t.col[js[i]] != c
    ensures HideAll(t, ls, js)[c] == ls[c]
  {
    if js != [] {
      var k := |js| - 1;
      assert js == js[..k] + [js[k]];
      HideAllElsewhere(t, ls, js[..k], c);
    }
  }

  ghost predicate BelowLength(js: seq<nat>, n: nat) {
    forall i | 0 <= i < |js| :: js[i] < n
  }

  lemma HideableBelow(t: Torus, ls: map<nat, seq<nat>>, js: seq<nat>, n: nat)
    requires WellFormed(t, n) && Hideable(t, ls, js)
    ensures BelowLength(js, n)
  {
  }

  ghost function UnlinkAll(s: seq<Node>, js: seq<nat>): (r: seq<Node>)
    requires Bounded(s) && BelowLength(js, |s|)
    ensures Bounded(r) && |r| == |s|
  {
    if js == [] then s else UnlinkV(UnlinkAll(s, js[..|js| - 1]), js[|js| - 1])
  }

  lemma {:induction false} UnlinkAllRep(t: Torus, v: View, s: seq<Node>, js: seq<nat>)
    requires Rep(t, v, s)
    requires ListsDistinct(v.lists) && ListsInColumn(t, v.lists) && Hideable(t, v.lists, js)
    ensures BelowLength(js, |s|)
    ensures Rep(t, v.(lists := HideAll(t, v.lists, js)), UnlinkAll(s, js))
  {
    hide CircH, CircV, RowOk, UnlinkV;
    HideableBelow(t, v.lists, js, |s|);
    if js != [] {
      var k := |js| - 1;
      assert js == js[..k] + [js[k]];
      UnlinkAllRep(t, v, s, js[..k]);
      HideOne(t, v.lists, HideAll(t, v.lists, js[..k]), js[..k], js[k]);
      var v1 := v.(lists := HideAll(t, v.lists, js[..k]));
      var v2 := v1.(lists := Hide(t, v1.lists, js[k]));
      UnlinkVRep(t, v1, UnlinkAll(s, js[..k]), js[k]);
      assert v2 == v.(lists := HideAll(t, v.lists, js));
      assert UnlinkAll(s, js) == UnlinkV(UnlinkAll(s, js[..k]), js[k]);
    }
  }

  lemma RepListsDistinct(t: Torus, v: View, s: seq<Node>)
    requires Rep(t, v, s)
    ensures ListsDistinct(v.lists) && ListsInColumn(t, v.lists)
  {
    forall c: nat | c in v.lists
      ensures Distinct(v.lists[c])
      ensures forall i: nat | i < |v.lists[c]| :: v.lists[c][i] in t.col && t.col[v.lists[c][i]] == c
    {
      assert ColumnOk(t, v, s, c);
      forall i: nat | i < |v.lists[c]| ensures v.lists[c][i] in t.col && t.col[v.lists[c][i]] == c {
        assert v.lists[c][i] in v.lists[c];
      }
    }
  }
}
