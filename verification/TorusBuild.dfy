/**
  Building a torus: the two insertions of sudoku.cc:244-260, and that adding a
  column or a row of four items to a torus gives a torus.
*/
module TorusBuild {
  import opened Torus

  function FreshNode(k: nat, name: nat): Node {
    Node(k, k, k, k, k, name, 0)
  }

  /** sudoku.cc:244-250. */
  function PutLeft(s: seq<Node>, old_: nat, nnew: nat): (r: seq<Node>)
    requires Bounded(s) && old_ < |s| && nnew < |s|
    ensures Bounded(r) && |r| == |s|
  {
    var s1 := s[nnew := s[nnew].(left := s[old_].left)];
    var s2 := s1[nnew := s1[nnew].(right := old_)];
    var s3 := s2[s2[old_].left := s2[s2[old_].left].(right := nnew)];
    s3[old_ := s3[old_].(left := nnew)]
  }

  /** sudoku.cc:252-260. */
  function PutUp(s: seq<Node>, old_: nat, nnew: nat): (r: seq<Node>)
    requires Bounded(s) && old_ < |s| && nnew < |s|
    ensures Bounded(r) && |r| == |s|
  {
    var s1 := s[nnew := s[nnew].(up := s[old_].up)];
    var s2 := s1[nnew := s1[nnew].(down := old_)];
    var s3 := s2[s2[old_].up := s2[s2[old_].up].(down := nnew)];
    var s4 := s3[old_ := s3[old_].(up := nnew)];
    var s5 := s4[old_ := s4[old_].(size := s4[old_].size + 1)];
    s5[nnew := s5[nnew].(col := old_)]
  }

  lemma PutLeftGrows(s: seq<Node>, h: nat, xs: seq<nat>, k: nat)
    requires Bounded(s) && CircH(s, h, xs) && k < |s| && k != h && k !in xs
    ensures CircH(PutLeft(s, h, k), h, xs + [k])
  {
    var r, ys := PutLeft(s, h, k), xs + [k];
    assert LinkH(s, h, xs, |xs| - 1);
    forall i | -1 <= i < |ys| ensures LinkH(r, h, ys, i) {
      assert i < |xs| ==> LinkH(s, h, xs, i);
    }
  }

  lemma PutUpGrows(s: seq<Node>, h: nat, xs: seq<nat>, k: nat)
    requires Bounded(s) && CircV(s, h, xs) && k < |s| && k != h && k !in xs
    ensures CircV(PutUp(s, h, k), h, xs + [k])
  {
    var r, ys := PutUp(s, h, k), xs + [k];
    assert LinkV(s, h, xs, |xs| - 1);
    forall i | -1 <= i < |ys| ensures LinkV(r, h, ys, i) {
      assert i < |xs| ==> LinkV(s, h, xs, i);
    }
  }

  /** Two arrays that agree on the horizontal links of a circle. */
  lemma CircHSame(s: seq<Node>, r: seq<Node>, h: nat, xs: seq<nat>)
    requires CircH(s, h, xs) && |r| == |s|
    requires forall i | -1 <= i <= |xs| ::
      r[At(h, xs, i)].left == s[At(h, xs, i)].left && r[At(h, xs, i)].right == s[At(h, xs, i)].right
    ensures CircH(r, h, xs)
  {
    forall i | -1 <= i < |xs| ensures LinkH(r, h, xs, i) {
      assert LinkH(s, h, xs, i);
    }
  }

  lemma CircVSame(s: seq<Node>, r: seq<Node>, h: nat, xs: seq<nat>)
    requires CircV(s, h, xs) && |r| == |s|
    requires forall i | -1 <= i <= |xs| ::
      r[At(h, xs, i)].up == s[At(h, xs, i)].up && r[At(h, xs, i)].down == s[At(h, xs, i)].down
    ensures CircV(r, h, xs)
  {
    forall i | -1 <= i < |xs| ensures LinkV(r, h, xs, i) {
      assert LinkV(s, h, xs, i);
    }
  }

  /** A column's circle holds its header and items only. */
  lemma ColumnApart(t: Torus, v: View, s: seq<Node>, c: nat)
    requires c in v.lists && c in t.headers && ColumnOk(t, v, s, c)
    ensures forall i | -1 <= i <= |v.lists[c]| ::
      At(c, v.lists[c], i) == c || (At(c, v.lists[c], i) in t.col && t.col[At(c, v.lists[c], i)] == c)
  {
    forall i | -1 <= i <= |v.lists[c]|
      ensures At(c, v.lists[c], i) == c || (At(c, v.lists[c], i) in t.col && t.col[At(c, v.lists[c], i)] == c)
    {
      assert 0 <= i < |v.lists[c]| ==> v.lists[c][i] in v.lists[c];
    }
  }

  /** Index k is not in use yet. */
  ghost predicate Unused(t: Torus, k: nat) {
    k != ROOT && k !in t.headers && k !in t.col && k !in t.ring
  }

  // ---------------------------------------------------------------- adding a column

  ghost function WithColumn(t: Torus, k: nat): Torus {
    t.(headers := t.headers + {k})
  }

  ghost function WithColumnView(v: View, k: nat): View {
    View(v.heads + [k], v.lists[k := []])
  }

  function ColumnAppended(s: seq<Node>, k: nat, name: nat): (r: seq<Node>)
    requires Bounded(s) && 0 < k < |s|
    ensures Bounded(r) && |r| == |s|
  {
    PutLeft(s[k := FreshNode(k, name)], ROOT, k)
  }

  lemma ColumnAppendedFields(s: seq<Node>, k: nat, name: nat)
    requires Bounded(s) && 0 < k < |s| && s[ROOT].left != k
    ensures var r := ColumnAppended(s, k, name);
      && r[k].name == name && r[k].up == k && r[k].down == k && r[k].size == 0
      && (forall m | 0 <= m < |s| && m != k :: r[m].up == s[m].up && r[m].down == s[m].down
            && r[m].col == s[m].col && r[m].name == s[m].name && r[m].size == s[m].size)
      && (forall m | 0 <= m < |s| && m != k && m != ROOT && m != s[ROOT].left ::
            r[m].left == s[m].left && r[m].right == s[m].right)
  {
  }

  lemma HeaderListGrows(s: seq<Node>, heads: seq<nat>, k: nat, name: nat)
    requires Bounded(s) && CircH(s, ROOT, heads) && 0 < k < |s| && k !in heads
    ensures CircH(ColumnAppended(s, k, name), ROOT, heads + [k])
    ensures s[ROOT].left == At(ROOT, heads, |heads| - 1)
  {
    var s1 := s[k := FreshNode(k, name)];
    assert LinkH(s, ROOT, heads, |heads| - 1);
    CircHSame(s, s1, ROOT, heads);
    PutLeftGrows(s1, ROOT, heads, k);
  }

  lemma ColumnAppendedItem(t: Torus, v: View, s: seq<Node>, k: nat, name: nat, x: nat)
    requires Rep(t, v, s) && k < |s| && Unused(t, k) && IsItem(t, x)
    ensures RowOk(WithColumn(t, k), x) && ItemOk(WithColumn(t, k), ColumnAppended(s, k, name), x)
  {
    hide ColumnAppended, Bounded, ColumnOk;
    LastHeader(t, v, s, k, name);
    ColumnAppendedFields(s, k, name);
    assert ItemOk(t, s, x) && RowOk(t, x);
    RowApart(t, |s|, x);
    CircHSame(s, ColumnAppended(s, k, name), x, t.ring[x]);
    RowOkSame(t, WithColumn(t, k), x);
  }

  lemma LastHeader(t: Torus, v: View, s: seq<Node>, k: nat, name: nat)
    requires Rep(t, v, s) && k < |s| && Unused(t, k)
    ensures s[ROOT].left != k && s[ROOT].left !in t.col && CircH(ColumnAppended(s, k, name), ROOT, v.heads + [k])
  {
    assert forall h :: h in v.heads ==> h in Elems(v.heads);
    HeaderListGrows(s, v.heads, k, name);
    assert s[ROOT].left == ROOT || s[ROOT].left in v.heads;
  }

  lemma ColumnAppendedColumn(t: Torus, v: View, s: seq<Node>, k: nat, name: nat, c: nat)
    requires Rep(t, v, s) && k < |s| && Unused(t, k) && c in WithColumn(t, k).headers
    ensures ColumnOk(WithColumn(t, k), WithColumnView(v, k), ColumnAppended(s, k, name), c)
  {
    hide ColumnAppended, Bounded, ItemOk, RowOk;
    LastHeader(t, v, s, k, name);
    ColumnAppendedFields(s, k, name);
    var r := ColumnAppended(s, k, name);
    if c == k {
      NewColumnOk(WithColumn(t, k), WithColumnView(v, k), r, k);
    } else {
      assert ColumnOk(t, v, s, c);
      ColumnApart(t, v, s, c);
      CircVSame(s, r, c, v.lists[c]);
    }
  }

  /** Adding a column header keeps a torus a torus. */
  lemma ColumnAppendedRep(t: Torus, v: View, s: seq<Node>, k: nat, name: nat)
    requires Rep(t, v, s) && k < |s| && Unused(t, k)
    ensures s[ROOT].left != k
    ensures Rep(WithColumn(t, k), WithColumnView(v, k), ColumnAppended(s, k, name))
  {
    hide ColumnAppended, RowOk, ItemOk, ColumnOk, CircH;
    var t', v', r := WithColumn(t, k), WithColumnView(v, k), ColumnAppended(s, k, name);
    LastHeader(t, v, s, k, name);
    forall x: nat | IsItem(t', x) ensures x < |s| && t'.col[x] in t'.headers && RowOk(t', x) && ItemOk(t', r, x) {
      assert IsItem(t, x);
      ColumnAppendedItem(t, v, s, k, name, x);
    }
    forall c | c in t'.headers ensures ColumnOk(t', v', r, c) {
      ColumnAppendedColumn(t, v, s, k, name, c);
    }
  }

  lemma NewColumnOk(t: Torus, v: View, r: seq<Node>, k: nat)
    requires k < |r| && k in v.lists && v.lists[k] == [] && r[k].up == k && r[k].down == k && r[k].size == 0
    ensures ColumnOk(t, v, r, k)
  {
    assert LinkV(r, k, [], -1);
  }

  /** Rows hold items only, never the root or a header. */
  lemma RowApart(t: Torus, n: nat, x: nat)
    requires WellFormed(t, n) && IsItem(t, x)
    ensures forall i | -1 <= i <= |t.ring[x]| :: At(x, t.ring[x], i) in t.col
  {
    assert RowOk(t, x);
    forall i | -1 <= i <= |t.ring[x]| ensures At(x, t.ring[x], i) in t.col {
      assert At(x, t.ring[x], i) in RowSet(t, x);
    }
  }

  lemma RowOkSame(t: Torus, t': Torus, x: nat)
    requires IsItem(t, x) && RowOk(t, x)
    requires forall y: nat | IsItem(t, y) :: IsItem(t', y) && t'.ring[y] == t.ring[y] && t'.col[y] == t.col[y]
    ensures RowOk(t', x)
  {
    assert RowSet(t', x) == RowSet(t, x);
    forall y | y in RowSet(t, x) ensures IsItem(t', y) && RowSet(t', y) == RowSet(t', x) {
      assert IsItem(t, y) && RowSet(t, y) == RowSet(t, x);
    }
  }

  // ---------------------------------------------------------------- adding an item

  ghost function WithItem(t: Torus, k: nat, c: nat): Torus {
    t.(col := t.col[k := c], ring := t.ring[k := []])
  }

  ghost function WithItemView(v: View, k: nat, c: nat): View
    requires c in v.lists
  {
    v.(lists := v.lists[c := v.lists[c] + [k]])
  }

  /** sudoku.cc:167-184. */
  function ItemAdded(s: seq<Node>, k: nat, c: nat, name: nat): (r: seq<Node>)
    requires Bounded(s) && k < |s| && c < |s|
    ensures Bounded(r) && |r| == |s|
  {
    PutUp(s[k := FreshNode(k, name).(col := c)], c, k)
  }

  lemma ItemAddedFields(s: seq<Node>, k: nat, c: nat, name: nat)
    requires Bounded(s) && k < |s| && c < |s| && k != c && s[c].up != k
    ensures var r := ItemAdded(s, k, c, name);
      && r[k].name == name && r[k].left == k && r[k].right == k && r[k].col == c
      && (forall m | 0 <= m < |s| && m != k :: r[m].left == s[m].left && r[m].right == s[m].right
            && r[m].col == s[m].col && r[m].name == s[m].name
            && r[m].size == s[m].size + (if m == c then 1 else 0))
      && (forall m | 0 <= m < |s| && m != k && m != c && m != s[c].up ::
            r[m].up == s[m].up && r[m].down == s[m].down)
  {
  }

  lemma ColumnListGrows(s: seq<Node>, c: nat, xs: seq<nat>, k: nat, name: nat)
    requires Bounded(s) && CircV(s, c, xs) && k < |s| && k !in xs && k != c
    ensures CircV(ItemAdded(s, k, c, name), c, xs + [k])
    ensures s[c].up == At(c, xs, |xs| - 1)
  {
    var s1 := s[k := FreshNode(k, name).(col := c)];
    assert LinkV(s, c, xs, |xs| - 1);
    CircVSame(s, s1, c, xs);
    PutUpGrows(s1, c, xs, k);
  }

  lemma SingleRowOk(t: Torus, r: seq<Node>, k: nat)
    requires IsItem(t, k) && t.ring[k] == [] && k < |r|
    requires r[k].left == k && r[k].right == k && r[k].col == t.col[k]
    ensures RowOk(t, k) && ItemOk(t, r, k)
  {
    assert RowSet(t, k) == {k};
    assert LinkH(r, k, [], -1);
  }

  lemma ItemAddedColumn(t: Torus, v: View, s: seq<Node>, k: nat, c: nat, name: nat, d: nat)
    requires Rep(t, v, s) && k < |s| && Unused(t, k) && c in t.headers && d in t.headers
    ensures ColumnOk(WithItem(t, k, c), WithItemView(v, k, c), ItemAdded(s, k, c, name), d)
  {
    hide ItemAdded, Bounded, RowOk, ItemOk;
    var r := ItemAdded(s, k, c, name);
    assert ColumnOk(t, v, s, c) && ColumnOk(t, v, s, d);
    ColumnListGrows(s, c, v.lists[c], k, name);
    ItemAddedFields(s, k, c, name);
    if d != c {
      assert s[c].up == c || s[c].up in v.lists[c];
      ColumnApart(t, v, s, d);
      CircVSame(s, r, d, v.lists[d]);
    }
  }

  lemma ItemAddedItem(t: Torus, v: View, s: seq<Node>, k: nat, c: nat, name: nat, x: nat)
    requires Rep(t, v, s) && k < |s| && Unused(t, k) && c in t.headers && c < |s| && s[c].up != k
    requires IsItem(WithItem(t, k, c), x)
    ensures RowOk(WithItem(t, k, c), x) && ItemOk(WithItem(t, k, c), ItemAdded(s, k, c, name), x)
  {
    hide ItemAdded, Bounded, ColumnOk, RowOk, CircH;
    var t', r := WithItem(t, k, c), ItemAdded(s, k, c, name);
    ItemAddedFields(s, k, c, name);
    if x == k {
      SingleRowOk(t', r, k);
    } else {
      assert IsItem(t, x);
      assert ItemOk(t, s, x) && RowOk(t, x);
      RowApart(t, |s|, x);
      CircHSame(s, r, x, t.ring[x]);
      RowOkSame(t, t', x);
    }
  }

  lemma ItemAddedHeads(t: Torus, v: View, s: seq<Node>, k: nat, c: nat, name: nat)
    requires Rep(t, v, s) && k < |s| && Unused(t, k) && c in t.headers
    ensures c < |s| && s[c].up != k && CircH(ItemAdded(s, k, c, name), ROOT, v.heads)
  {
    hide ItemAdded, Bounded, WellFormed, ItemOk;
    assert ColumnOk(t, v, s, c);
    ColumnListGrows(s, c, v.lists[c], k, name);
    assert s[c].up == c || s[c].up in v.lists[c];
    ItemAddedFields(s, k, c, name);
    assert forall h :: h in v.heads ==> h in Elems(v.heads);
    CircHSame(s, ItemAdded(s, k, c, name), ROOT, v.heads);
  }

  /** Adding an item, for now alone in its row, at the bottom of column c. */
  lemma ItemAddedRep(t: Torus, v: View, s: seq<Node>, k: nat, c: nat, name: nat)
    requires Rep(t, v, s) && k < |s| && Unused(t, k) && c in t.headers
    ensures c < |s| && s[c].up != k
    ensures Rep(WithItem(t, k, c), WithItemView(v, k, c), ItemAdded(s, k, c, name))
  {
    hide RowOk, ItemOk, ColumnOk, ItemAdded, CircH, Bounded;
    var t', v', r := WithItem(t, k, c), WithItemView(v, k, c), ItemAdded(s, k, c, name);
    ItemAddedHeads(t, v, s, k, c, name);
    forall x: nat | IsItem(t', x) ensures x < |s| && t'.col[x] in t'.headers && RowOk(t', x) && ItemOk(t', r, x) {
      ItemAddedItem(t, v, s, k, c, name, x);
      assert x != k ==> IsItem(t, x);
    }
    forall d | d in t'.headers ensures ColumnOk(t', v', r, d) {
      ItemAddedColumn(t, v, s, k, c, name, d);
    }
  }

  // ---------------------------------------------------------------- closing a row of four

  /** sudoku.cc:86-88. */
  function RowClosed(s: seq<Node>, k: nat): (r: seq<Node>)
    requires Bounded(s) && k + 3 < |s|
    ensures Bounded(r) && |r| == |s|
  {
    PutLeft(PutLeft(PutLeft(s, k, k + 1), k, k + 2), k, k + 3)
  }

  /** Four items standing alone in their rows, in four columns. */
  ghost predicate FourLoose(t: Torus, s: seq<Node>, k: nat) {
    && k + 3 < |s|
    && (forall x: nat | k <= x < k + 4 :: IsItem(t, x) && t.ring[x] == [] && s[x].left == x && s[x].right == x)
    && (forall x: nat, y: nat | k <= x < y < k + 4 :: x in t.col && y in t.col && t.col[x] != t.col[y])
  }

  ghost predicate RowOfFour(t: Torus, k: nat) {
    && (forall x: nat | k <= x < k + 4 :: IsItem(t, x))
    && IsItem(t, k) && IsItem(t, k + 1) && IsItem(t, k + 2) && IsItem(t, k + 3)
    && (forall x: nat, y: nat | k <= x < y < k + 4 :: t.col[x] != t.col[y])
    && t.ring[k] == [k + 1, k + 2, k + 3] && t.ring[k + 1] == [k + 2, k + 3, k]
    && t.ring[k + 2] == [k + 3, k, k + 1] && t.ring[k + 3] == [k, k + 1, k + 2]
  }

  ghost predicate LinksOfFour(r: seq<Node>, k: nat) {
    && k + 3 < |r|
    && r[k].right == k + 1 && r[k + 1].right == k + 2 && r[k + 2].right == k + 3 && r[k + 3].right == k
    && r[k + 1].left == k && r[k + 2].left == k + 1 && r[k + 3].left == k + 2 && r[k].left == k + 3
  }

  ghost function WithRow(t: Torus, k: nat): Torus {
    t.(ring := t.ring[k := [k + 1, k + 2, k + 3]][k + 1 := [k + 2, k + 3, k]]
                     [k + 2 := [k + 3, k, k + 1]][k + 3 := [k, k + 1, k + 2]])
  }

  lemma RowClosedFields(s: seq<Node>, k: nat)
    requires Bounded(s) && k + 3 < |s|
    requires forall x: nat | k <= x < k + 4 :: s[x].left == x && s[x].right == x
    ensures var r := RowClosed(s, k);
      && LinksOfFour(r, k)
      && (forall m | 0 <= m < |s| :: r[m].up == s[m].up && r[m].down == s[m].down
            && r[m].col == s[m].col && r[m].name == s[m].name && r[m].size == s[m].size)
      && (forall m | 0 <= m < |s| && !(k <= m < k + 4) :: r[m] == s[m])
  {
  }

  ghost predicate FourRings(t: Torus, k: nat) {
    && k in t.ring && k + 1 in t.ring && k + 2 in t.ring && k + 3 in t.ring
    && t.ring[k] == [k + 1, k + 2, k + 3] && t.ring[k + 1] == [k + 2, k + 3, k]
    && t.ring[k + 2] == [k + 3, k, k + 1] && t.ring[k + 3] == [k, k + 1, k + 2]
  }

  lemma FourSets(t: Torus, k: nat, x: nat)
    requires FourRings(t, k) && IsItem(t, x) && k <= x < k + 4
    ensures RowSet(t, x) == {k, k + 1, k + 2, k + 3}
  {
    if x == k {
      assert RowSet(t, x) == {k, k + 1, k + 2, k + 3};
    } else if x == k + 1 {
      assert RowSet(t, x) == {k, k + 1, k + 2, k + 3};
    } else if x == k + 2 {
      assert RowSet(t, x) == {k, k + 1, k + 2, k + 3};
    } else {
      assert RowSet(t, x) == {k, k + 1, k + 2, k + 3};
    }
  }

  lemma FourCircle(t: Torus, r: seq<Node>, k: nat, x: nat)
    requires k <= x < k + 4 && RowOfFour(t, k) && LinksOfFour(r, k)
    ensures CircH(r, x, t.ring[x])
  {
    forall i | -1 <= i < 3 ensures LinkH(r, x, t.ring[x], i) {
    }
  }

  lemma FourRow(t: Torus, r: seq<Node>, k: nat, x: nat)
    requires k <= x < k + 4 && RowOfFour(t, k) && LinksOfFour(r, k)
    ensures RowSet(t, x) == {k, k + 1, k + 2, k + 3} && CircH(r, x, t.ring[x]) && RowOk(t, x)
  {
    hide RowSet, CircH;
    FourCircle(t, r, k, x);
    forall y: nat | k <= y < k + 4
      ensures RowSet(t, y) == {k, k + 1, k + 2, k + 3}
    {
      FourSets(t, k, y);
    }
    forall y, z | y in RowSet(t, x) && z in RowSet(t, x) && y != z ensures t.col[y] != t.col[z] {
      assert if y < z then t.col[y] != t.col[z] else t.col[z] != t.col[y];
    }
  }

  lemma RowClosedItem(t: Torus, v: View, s: seq<Node>, k: nat, x: nat)
    requires Rep(t, v, s) && FourLoose(t, s, k) && IsItem(t, x)
    ensures RowOk(WithRow(t, k), x) && ItemOk(WithRow(t, k), RowClosed(s, k), x)
  {
    hide RowClosed, Bounded, ColumnOk, RowOk, CircV, LinkH, LinkV, RowSet;
    var t', r := WithRow(t, k), RowClosed(s, k);
    RowClosedFields(s, k);
    assert ItemOk(t, s, x);
    if k <= x < k + 4 {
      FourRow(t', r, k, x);
    } else {
      OldRow(t, |s|, s, k, x);
      CircHSame(s, r, x, t.ring[x]);
    }
  }

  /** Linking four loose items into one row keeps a torus a torus. */
  lemma RowClosedRep(t: Torus, v: View, s: seq<Node>, k: nat)
    requires Rep(t, v, s) && FourLoose(t, s, k)
    ensures Rep(WithRow(t, k), v, RowClosed(s, k))
  {
    hide RowOk, ItemOk, ColumnOk, CircH, RowClosed;
    var t', r := WithRow(t, k), RowClosed(s, k);
    assert IsItem(t, k) && IsItem(t, k + 1) && IsItem(t, k + 2) && IsItem(t, k + 3);
    RowClosedHeads(t, v, s, k);
    forall x: nat | IsItem(t', x) ensures x < |s| && t'.col[x] in t'.headers && RowOk(t', x) && ItemOk(t', r, x) {
      assert IsItem(t, x);
      RowClosedItem(t, v, s, k, x);
    }
    forall d | d in t'.headers ensures ColumnOk(t', v, r, d) {
      RowClosedColumn(t, v, s, k, d);
    }
  }

  lemma RowClosedColumn(t: Torus, v: View, s: seq<Node>, k: nat, d: nat)
    requires Rep(t, v, s) && FourLoose(t, s, k) && d in t.headers
    ensures ColumnOk(WithRow(t, k), v, RowClosed(s, k), d)
  {
    hide RowClosed, Bounded, WellFormed, ItemOk, LinksOfFour;
    RowClosedFields(s, k);
    assert ColumnOk(t, v, s, d);
    CircVSame(s, RowClosed(s, k), d, v.lists[d]);
  }

  lemma RowClosedHeads(t: Torus, v: View, s: seq<Node>, k: nat)
    requires Rep(t, v, s) && FourLoose(t, s, k)
    ensures CircH(RowClosed(s, k), ROOT, v.heads)
  {
    hide RowClosed, Bounded, ItemOk, ColumnOk, LinksOfFour, RowOk;
    RowClosedFields(s, k);
    forall i | -1 <= i <= |v.heads| ensures !(k <= At(ROOT, v.heads, i) < k + 4) {
      var h := At(ROOT, v.heads, i);
      assert h == ROOT || h in Elems(v.heads);
      assert h !in t.col;
    }
    CircHSame(s, RowClosed(s, k), ROOT, v.heads);
  }

  /** An older row has none of the four in it and stays as it is. */
  lemma OldRow(t: Torus, n: nat, s: seq<Node>, k: nat, x: nat)
    requires WellFormed(t, n) && FourLoose(t, s, k) && IsItem(t, x) && !(k <= x < k + 4)
    ensures RowOk(WithRow(t, k), x)
    ensures forall i | -1 <= i <= |t.ring[x]| :: !(k <= At(x, t.ring[x], i) < k + 4)
  {
    var ring, t' := t.ring[x], WithRow(t, k);
    assert RowOk(t, x);
    forall y | y in RowSet(t, x) ensures !(k <= y < k + 4) {
      assert x in RowSet(t, x) && RowSet(t, y) == RowSet(t, x);
    }
    forall i | -1 <= i <= |ring| ensures !(k <= At(x, ring, i) < k + 4) {
      assert At(x, ring, i) in RowSet(t, x);
    }
    assert RowSet(t', x) == RowSet(t, x);
    forall y | y in RowSet(t, x) ensures IsItem(t', y) && RowSet(t', y) == RowSet(t', x) {
      assert IsItem(t, y) && RowSet(t, y) == RowSet(t, x) && t'.ring[y] == t.ring[y];
    }
  }

  // ---------------------------------------------------------------- adding a row of four

  /** Four new items k, k + 1, k + 2, k + 3 can go into the columns cs. */
  ghost predicate RowFits(t: Torus, v: View, s: seq<Node>, k: nat, cs: seq<nat>) {
    && Rep(t, v, s) && Bounded(s) && k + 3 < |s| && |cs| == 4 && Distinct(cs)
    && (forall x: nat | k <= x < k + 4 :: Unused(t, x))
    && (forall j | 0 <= j < 4 :: cs[j] in t.headers && cs[j] in v.lists && cs[j] < |s|)
  }

  /** The first j of them are in. */
  ghost function TorusSoFar(t: Torus, k: nat, cs: seq<nat>, j: nat): Torus
    requires j <= |cs|
  {
    if j == 0 then t else WithItem(TorusSoFar(t, k, cs, j - 1), k + j - 1, cs[j - 1])
  }

  ghost function ViewSoFar(v: View, k: nat, cs: seq<nat>, j: nat): (r: View)
    requires j <= |cs| && forall i | 0 <= i < |cs| :: cs[i] in v.lists
    ensures r.lists.Keys == v.lists.Keys && r.heads == v.heads
  {
    if j == 0 then v else WithItemView(ViewSoFar(v, k, cs, j - 1), k + j - 1, cs[j - 1])
  }

  function ItemsAdded(s: seq<Node>, k: nat, cs: seq<nat>, ns: seq<nat>, j: nat): (r: seq<Node>)
    requires Bounded(s) && j <= |cs| == |ns| && k + |cs| <= |s| && forall i | 0 <= i < |cs| :: cs[i] < |s|
    ensures Bounded(r) && |r| == |s|
  {
    if j == 0 then s else ItemAdded(ItemsAdded(s, k, cs, ns, j - 1), k + j - 1, cs[j - 1], ns[j - 1])
  }

  lemma {:induction false} TorusSoFarParts(t: Torus, k: nat, cs: seq<nat>, j: nat)
    requires j <= |cs|
    ensures var u := TorusSoFar(t, k, cs, j);
      && u.headers == t.headers
      && (forall x: nat | !(k <= x < k + j) ::
            (x in u.col <==> x in t.col) && (x in u.ring <==> x in t.ring)
            && (x in t.col ==> u.col[x] == t.col[x]) && (x in t.ring ==> u.ring[x] == t.ring[x]))
      && (forall x: nat | k <= x < k + j :: IsItem(u, x) && u.ring[x] == [] && u.col[x] == cs[x - k])
  {
    if j != 0 {
      TorusSoFarParts(t, k, cs, j - 1);
    }
  }

  /** What is known of the array when j of the items are in. */
  ghost predicate AddedSoFar(t: Torus, v: View, s: seq<Node>, k: nat, cs: seq<nat>, ns: seq<nat>, j: nat)
    requires RowFits(t, v, s, k, cs) && |ns| == 4 && j <= 4
  {
    var r := ItemsAdded(s, k, cs, ns, j);
    && Rep(TorusSoFar(t, k, cs, j), ViewSoFar(v, k, cs, j), r)
    && (forall m: nat | m < |s| && !(k <= m < k + j) :: r[m].name == s[m].name)
    && (forall m: nat | k <= m < k + j :: r[m].name == ns[m - k] && r[m].left == m && r[m].right == m)
  }

  lemma AddOne(t: Torus, v: View, s: seq<Node>, k: nat, cs: seq<nat>, ns: seq<nat>, j: nat)
    requires RowFits(t, v, s, k, cs) && |ns| == 4 && j < 4 && AddedSoFar(t, v, s, k, cs, ns, j)
    ensures AddedSoFar(t, v, s, k, cs, ns, j + 1)
  {
    hide Rep, ItemAdded, Bounded, RowOk, Distinct;
    var u, w, r := TorusSoFar(t, k, cs, j), ViewSoFar(v, k, cs, j), ItemsAdded(s, k, cs, ns, j);
    TorusSoFarParts(t, k, cs, j);
    assert Unused(t, k + j);
    assert Unused(u, k + j) && cs[j] in u.headers;
    ItemAddedRep(u, w, r, k + j, cs[j], ns[j]);
    ItemAddedFields(r, k + j, cs[j], ns[j]);
  }

  lemma {:induction false} AddAll(t: Torus, v: View, s: seq<Node>, k: nat, cs: seq<nat>, ns: seq<nat>, j: nat)
    requires RowFits(t, v, s, k, cs) && |ns| == 4 && j <= 4
    ensures AddedSoFar(t, v, s, k, cs, ns, j)
  {
    if j != 0 {
      AddAll(t, v, s, k, cs, ns, j - 1);
      AddOne(t, v, s, k, cs, ns, j - 1);
    }
  }

  ghost function TorusWithRow(t: Torus, k: nat, cs: seq<nat>): Torus
    requires |cs| == 4
  {
    WithRow(TorusSoFar(t, k, cs, 4), k)
  }

  /** sudoku.cc:82-88 as a whole. */
  function RowAdded(s: seq<Node>, k: nat, cs: seq<nat>, ns: seq<nat>): (r: seq<Node>)
    requires Bounded(s) && |cs| == |ns| == 4 && k + 3 < |s| && forall i | 0 <= i < |cs| :: cs[i] < |s|
    ensures Bounded(r) && |r| == |s|
  {
    RowClosed(ItemsAdded(s, k, cs, ns, 4), k)
  }

  /** The new row has just the four items, in the four columns, with the four names. */
  ghost predicate NewRow(t: Torus, s: seq<Node>, k: nat, cs: seq<nat>, ns: seq<nat>) {
    && |cs| == 4 && |ns| == 4 && k + 3 < |s|
    && (forall x: nat | k <= x < k + 4 ::
          IsItem(t, x) && RowSet(t, x) == {k, k + 1, k + 2, k + 3} && t.col[x] == cs[x - k] && s[x].name == ns[x - k])
  }

  /** Everything else is as it was. */
  ghost predicate OldRows(t: Torus, u: Torus, s: seq<Node>, r: seq<Node>, k: nat) {
    && |s| == |r| && u.headers == t.headers
    && (forall x: nat | !(k <= x < k + 4) :: IsItem(u, x) <==> IsItem(t, x))
    && (forall x: nat | IsItem(t, x) :: IsItem(u, x) && u.ring[x] == t.ring[x] && u.col[x] == t.col[x])
    && (forall m: nat | m < |s| && !(k <= m < k + 4) :: r[m].name == s[m].name)
  }

  lemma LooseSoFar(t: Torus, v: View, s: seq<Node>, k: nat, cs: seq<nat>, ns: seq<nat>)
    requires RowFits(t, v, s, k, cs) && |ns| == 4
    ensures AddedSoFar(t, v, s, k, cs, ns, 4)
    ensures FourLoose(TorusSoFar(t, k, cs, 4), ItemsAdded(s, k, cs, ns, 4), k)
  {
    hide Rep, ItemsAdded, Bounded;
    AddAll(t, v, s, k, cs, ns, 4);
    TorusSoFarParts(t, k, cs, 4);
  }

  /** Adding a row of four items keeps a torus a torus and disturbs no other row. */
  lemma RowAddedRep(t: Torus, v: View, s: seq<Node>, k: nat, cs: seq<nat>, ns: seq<nat>)
    requires RowFits(t, v, s, k, cs) && |ns| == 4
    ensures Rep(TorusWithRow(t, k, cs), ViewSoFar(v, k, cs, 4), RowAdded(s, k, cs, ns))
    ensures NewRow(TorusWithRow(t, k, cs), RowAdded(s, k, cs, ns), k, cs, ns)
    ensures OldRows(t, TorusWithRow(t, k, cs), s, RowAdded(s, k, cs, ns), k)
  {
    hide Rep, ItemsAdded, RowClosed, Bounded, TorusSoFar, ViewSoFar, WithRow, RowSet, Unused, FourLoose, LinksOfFour;
    LooseSoFar(t, v, s, k, cs, ns);
    var u, r := TorusSoFar(t, k, cs, 4), ItemsAdded(s, k, cs, ns, 4);
    RowClosedRep(u, ViewSoFar(v, k, cs, 4), r, k);
    LooseLinks(u, r, k);
    RowClosedFields(r, k);
    RowParts(t, k, cs);
  }

  lemma LooseLinks(t: Torus, s: seq<Node>, k: nat)
    requires FourLoose(t, s, k)
    ensures k + 3 < |s| && forall x: nat | k <= x < k + 4 :: s[x].left == x && s[x].right == x
  {
  }

  lemma RowParts(t: Torus, k: nat, cs: seq<nat>)
    requires |cs| == 4 && forall x: nat | k <= x < k + 4 :: Unused(t, x)
    ensures var u := TorusWithRow(t, k, cs);
      && u.headers == t.headers
      && (forall x: nat | k <= x < k + 4 ::
            IsItem(u, x) && RowSet(u, x) == {k, k + 1, k + 2, k + 3} && u.col[x] == cs[x - k])
      && (forall x: nat | !(k <= x < k + 4) :: IsItem(u, x) <==> IsItem(t, x))
      && (forall x: nat | IsItem(t, x) :: IsItem(u, x) && u.ring[x] == t.ring[x] && u.col[x] == t.col[x])
  {
    hide TorusSoFar, RowSet;
    TorusSoFarParts(t, k, cs, 4);
    var u := TorusWithRow(t, k, cs);
    assert FourRings(u, k);
    forall x: nat | k <= x < k + 4
      ensures IsItem(u, x) && RowSet(u, x) == {k, k + 1, k + 2, k + 3}
    {
      assert x == k || x == k + 1 || x == k + 2 || x == k + 3;
      assert IsItem(TorusSoFar(t, k, cs, 4), x);
      FourSets(u, k, x);
    }
    forall x: nat | IsItem(t, x)
      ensures !(k <= x < k + 4)
    {
      assert k <= x < k + 4 ==> Unused(t, x);
    }
  }

  /** The items of the new row are in their columns' lists; the other lists are kept. */
  lemma {:induction false} ListsSoFar(v: View, k: nat, cs: seq<nat>, j: nat, c: nat, x: nat)
    requires j <= |cs| && (forall i | 0 <= i < |cs| :: cs[i] in v.lists) && c in v.lists
    ensures x in v.lists[c] ==> x in ViewSoFar(v, k, cs, j).lists[c]
    ensures k <= x < k + j && c == cs[x - k] ==> x in ViewSoFar(v, k, cs, j).lists[c]
  {
    if j != 0 {
      ListsSoFar(v, k, cs, j - 1, c, x);
      var w := ViewSoFar(v, k, cs, j - 1);
      if c == cs[j - 1] {
        assert (w.lists[c] + [k + j - 1])[|w.lists[c]|] == k + j - 1;
      }
    }
  }
}
