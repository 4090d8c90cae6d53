/**
 AdminList (src/kv/KVClass.h:1242-1282): every cell of the tablet, gathered row by row,
 sorted twice and flattened.
 */
module AdminLists {
  import opened Basics
  import opened Tablets

  // ------------------------------------------------------------- the orders

  /** `std::string`'s order. */
  predicate Less(a: string, b: string) {
    b != "" && (a == "" || a[0] < b[0] || (a[0] == b[0] && Less(a[1..], b[1..])))
  }

  /** The strings part at position `n`: `a` ends there, or has the smaller byte. */
  ghost predicate PartAt(a: string, b: string, n: nat) {
    n <= |a| && n < |b| && a[..n] == b[..n] && (n == |a| || a[n] < b[n])
  }

  /** The order of std::string: a proper prefix comes first, otherwise the byte at the first difference decides. */
  lemma {:induction false} LessExactly(a: string, b: string)
    ensures Less(a, b) <==> exists n :: PartAt(a, b, n)
  {
    if b != "" && (a == "" || a[0] < b[0]) {
      assert PartAt(a, b, 0);
    } else if b != "" && a[0] == b[0] {
      LessExactly(a[1..], b[1..]);
      if n: nat :| PartAt(a[1..], b[1..], n) {
        assert a[..n + 1] == [a[0]] + a[1..][..n] && b[..n + 1] == [b[0]] + b[1..][..n];
        assert PartAt(a, b, n + 1);
      }
      if n: nat :| PartAt(a, b, n) {
        assert a[1..][..n - 1] == a[..n][1..] && b[1..][..n - 1] == b[..n][1..];
        assert PartAt(a[1..], b[1..], n - 1);
      }
    } else {
      forall n: nat
        ensures !PartAt(a, b, n)
      {
        NoPart(a, b, n);
      }
    }
  }

  lemma NoPart(a: string, b: string, n: nat)
    requires b == "" || (a != "" && a[0] > b[0])
    ensures !PartAt(a, b, n)
  {
    assert 0 < n <= |a| && n < |b| ==> a[..n][0] == a[0] && b[..n][0] == b[0];
  }

  lemma {:induction false} LessIrreflexive(a: string)
    ensures !Less(a, a)
  {
    if a != "" {
      LessIrreflexive(a[1..]);
    }
  }

  lemma {:induction false} LessAsymmetric(a: string, b: string)
    ensures !(Less(a, b) && Less(b, a))
  {
    if a != "" && b != "" {
      LessAsymmetric(a[1..], b[1..]);
    }
  }

  lemma {:induction false} LessTotal(a: string, b: string)
    ensures a == b || Less(a, b) || Less(b, a)
  {
    if a != "" && b != "" {
      LessTotal(a[1..], b[1..]);
      assert a == [a[0]] + a[1..] && b == [b[0]] + b[1..];
    }
  }

  /** What is below b is below anything b is not above. */
  lemma {:induction false} LessThrough(a: string, b: string, c: string)
    requires Less(a, b) && !Less(c, b)
    ensures Less(a, c)
  {
    if a != "" && c != "" && a[0] == b[0] == c[0] {
      LessThrough(a[1..], b[1..], c[1..]);
    }
  }

  predicate CellBefore(x: Cell, y: Cell) {
    Less(x.row, y.row) || (x.row == y.row && Less(x.col, y.col))
  }

  lemma BeforeIsOrder(x: Cell, y: Cell)
    ensures !(CellBefore(x, y) && CellBefore(y, x)) && !CellBefore(x, x)
  {
    LessAsymmetric(x.row, y.row);
    LessAsymmetric(x.col, y.col);
    LessIrreflexive(x.row);
    LessIrreflexive(x.col);
  }

  // ------------------------------------------------------------- sorting

  /** No element is below an earlier one. */
  ghost predicate Sorted<T(!new)>(xs: seq<T>, key: T -> string) {
    forall i, j :: 0 <= i < j < |xs| ==> !Less(key(xs[j]), key(xs[i]))
  }

  ghost predicate Ascending<T(!new)>(xs: seq<T>, key: T -> string) {
    forall i, j :: 0 <= i < j < |xs| ==> Less(key(xs[i]), key(xs[j]))
  }

  /** What std::sort promises of any algorithm: a sorted permutation. */
  method Sort<T(==,!new)>(xs: seq<T>, key: T -> string) returns (ys: seq<T>)
    ensures multiset(ys) == multiset(xs) && Sorted(ys, key)
  {
    ys := [];
    var n := 0;
    while n < |xs|
      invariant 0 <= n <= |xs|
      invariant multiset(ys) == multiset(xs[..n]) && Sorted(ys, key)
    {
      ys := Insert(ys, xs[n], key);
      assert xs[..n + 1] == xs[..n] + [xs[n]];
      n := n + 1;
    }
    assert xs[..n] == xs;
  }

  method Insert<T(==,!new)>(ys: seq<T>, x: T, key: T -> string) returns (zs: seq<T>)
    requires Sorted(ys, key)
    ensures multiset(zs) == multiset(ys) + multiset{x} && Sorted(zs, key)
  {
    var k := |ys|;
    while k > 0 && Less(key(x), key(ys[k - 1]))
      invariant 0 <= k <= |ys|
      invariant forall i :: k <= i < |ys| ==> Less(key(x), key(ys[i]))
    {
      k := k - 1;
    }
    zs := ys[..k] + [x] + ys[k..];
    InsertPermutes(ys, x, k);
    InsertSorted(ys, x, key, k);
  }

  lemma InsertPermutes<T(!new)>(ys: seq<T>, x: T, k: nat)
    requires k <= |ys|
    ensures multiset(ys[..k] + [x] + ys[k..]) == multiset(ys) + multiset{x}
  {
    assert ys == ys[..k] + ys[k..];
  }

  lemma InsertSorted<T(!new)>(ys: seq<T>, x: T, key: T -> string, k: nat)
    requires Sorted(ys, key) && k <= |ys|
    requires forall i :: k <= i < |ys| ==> Less(key(x), key(ys[i]))
    requires k > 0 ==> !Less(key(x), key(ys[k - 1]))
    ensures Sorted(ys[..k] + [x] + ys[k..], key)
  {
    forall i | 0 <= i < k
      ensures !Less(key(x), key(ys[i]))
    {
      if Less(key(x), key(ys[i])) && i < k - 1 {
        LessThrough(key(x), key(ys[i]), key(ys[k - 1]));
      }
    }
    forall i | k <= i < |ys|
      ensures !Less(key(ys[i]), key(x))
    {
      LessAsymmetric(key(x), key(ys[i]));
    }
  }

  /** Sorting what has distinct keys leaves them strictly ascending. */
  lemma SortedAscends<T(!new)>(xs: seq<T>, ys: seq<T>, key: T -> string)
    requires multiset(ys) == multiset(xs) && Sorted(ys, key)
    requires forall i, j :: 0 <= i < j < |xs| ==> key(xs[i]) != key(xs[j])
    ensures Ascending(ys, key)
  {
    assert Distinct(xs);
    PermutationDistinct(xs, ys);
    forall i, j | 0 <= i < j < |ys|
      ensures Less(key(ys[i]), key(ys[j]))
    {
      assert ys[i] in multiset(xs) && ys[j] in multiset(xs);
      assert key(ys[i]) != key(ys[j]);
      LessTotal(key(ys[i]), key(ys[j]));
    }
  }

  // ------------------------------------------------------------- the listing

  /** One element of `all_rs`. */
  datatype RowKeys = RowKeys(row: string, cols: seq<string>)

  const RowKey := (r: RowKeys) => r.row
  const ColKey := (c: string) => c

  /** The gathered row: its columns ascending, each once. */
  ghost predicate RowListed(t: Tablet, r: RowKeys) {
    && r.row in t && Ascending(r.cols, ColKey)
    && forall ck :: ck in r.cols <==> ck in t[r.row]
  }

  function CellsOf(r: RowKeys): (cells: seq<Cell>)
    ensures |cells| == |r.cols| && forall i :: 0 <= i < |cells| ==> cells[i] == Cell(r.row, r.cols[i])
  {
    seq(|r.cols|, i requires 0 <= i < |r.cols| => Cell(r.row, r.cols[i]))
  }

  function Flat(rows: seq<RowKeys>): seq<Cell> {
    if rows == [] then [] else Flat(rows[..|rows| - 1]) + CellsOf(rows[|rows| - 1])
  }

  ghost predicate CellsAscend(out: seq<Cell>) {
    forall i, j :: 0 <= i < j < |out| ==> CellBefore(out[i], out[j])
  }

  /** Every cell of the tablet once, by row and within the row by column. */
  ghost predicate Listing(t: Tablet, out: seq<Cell>) {
    CellsAscend(out) && forall c :: c in out <==> c in ContentsOf(t)
  }

  method ColumnsOf(t: Tablet, rk: string) returns (r: RowKeys)
    requires rk in t
    ensures r.row == rk && RowListed(t, r)
  {
    var cols, left := [], t[rk].Keys;
    while left != {}
      invariant left <= t[rk].Keys
      invariant forall ck :: ck in cols <==> ck in t[rk] && ck !in left
      invariant Distinct(cols)
      decreases left
    {
      var ck :| ck in left;
      cols := cols + [ck];
      left := left - {ck};
    }
    var sorted := Sort(cols, ColKey);
    SortedAscends(cols, sorted, ColKey);
    assert forall ck :: ck in sorted <==> ck in multiset(cols);
    r := RowKeys(rk, sorted);
  }

  /** The rows outside `left` have been gathered, each once. */
  ghost predicate Gathered(t: Tablet, rows: seq<RowKeys>, left: set<string>) {
    && (forall i :: 0 <= i < |rows| ==> RowListed(t, rows[i]) && rows[i].row !in left)
    && (forall rk :: rk in t && rk !in left ==> exists i :: 0 <= i < |rows| && rows[i].row == rk)
    && (forall i, j :: 0 <= i < j < |rows| ==> rows[i].row != rows[j].row)
  }

  lemma GatheredOneMore(t: Tablet, rows: seq<RowKeys>, left: set<string>, r: RowKeys)
    requires Gathered(t, rows, left) && r.row in left && RowListed(t, r)
    ensures Gathered(t, rows + [r], left - {r.row})
  {
    forall rk | rk in t && rk !in left - {r.row}
      ensures exists i :: 0 <= i < |rows + [r]| && (rows + [r])[i].row == rk
    {
      if rk == r.row {
        assert (rows + [r])[|rows|].row == rk;
      } else {
        var i :| 0 <= i < |rows| && rows[i].row == rk;
        assert (rows + [r])[i].row == rk;
      }
    }
  }

  /** The first loop: `all_rs`, each row's columns sorted. */
  method GatherRows(t: Tablet) returns (rows: seq<RowKeys>)
    ensures Gathered(t, rows, {})
  {
    var left := t.Keys;
    rows := [];
    while left != {}
      invariant left <= t.Keys && Gathered(t, rows, left)
      decreases left
    {
      var rk :| rk in left;
      var r := ColumnsOf(t, rk);
      GatheredOneMore(t, rows, left, r);
      rows := rows + [r];
      left := left - {rk};
    }
  }

  /** The last loop: every gathered key, row by row. */
  method Flatten(rows: seq<RowKeys>) returns (out: seq<Cell>)
    ensures out == Flat(rows)
  {
    out := [];
    for n := 0 to |rows|
      invariant out == Flat(rows[..n])
    {
      assert rows[..n + 1][..n] == rows[..n];
      out := out + CellsOf(rows[n]);
    }
    assert rows[..|rows|] == rows;
  }

  method AdminList(t: Tablet) returns (out: seq<Cell>)
    ensures Listing(t, out)
  {
    var rows := GatherRows(t);
    var sorted := Sort(rows, RowKey);
    SortedAscends(rows, sorted, RowKey);
    SortKeepsRows(t, rows, sorted);
    FlatLists(t, sorted);
    out := Flatten(sorted);
  }

  lemma SortKeepsRows(t: Tablet, rows: seq<RowKeys>, sorted: seq<RowKeys>)
    requires multiset(sorted) == multiset(rows)
    requires forall i :: 0 <= i < |rows| ==> RowListed(t, rows[i])
    requires forall rk :: rk in t ==> exists i :: 0 <= i < |rows| && rows[i].row == rk
    ensures forall i :: 0 <= i < |sorted| ==> RowListed(t, sorted[i])
    ensures forall rk :: rk in t ==> exists i :: 0 <= i < |sorted| && sorted[i].row == rk
  {
    forall i | 0 <= i < |sorted| ensures RowListed(t, sorted[i]) {
      assert sorted[i] in multiset(rows);
    }
    forall rk | rk in t ensures exists i :: 0 <= i < |sorted| && sorted[i].row == rk {
      var i :| 0 <= i < |rows| && rows[i].row == rk;
      assert rows[i] in multiset(sorted);
    }
  }

  lemma {:induction false} FlatHas(rows: seq<RowKeys>, c: Cell)
    ensures c in Flat(rows) <==> exists i :: 0 <= i < |rows| && rows[i].row == c.row && c.col in rows[i].cols
  {
    if rows != [] {
      var n := |rows| - 1;
      FlatHas(rows[..n], c);
      CellsHas(rows[n], c);
    }
  }

  lemma CellsHas(r: RowKeys, c: Cell)
    ensures c in CellsOf(r) <==> c.row == r.row && c.col in r.cols
  {
    if c.row == r.row && c.col in r.cols {
      var i :| 0 <= i < |r.cols| && r.cols[i] == c.col;
      assert CellsOf(r)[i] == c;
    }
  }

  lemma {:induction false} FlatAscends(t: Tablet, rows: seq<RowKeys>)
    requires Ascending(rows, RowKey) && forall i :: 0 <= i < |rows| ==> RowListed(t, rows[i])
    ensures CellsAscend(Flat(rows))
  {
    if rows != [] {
      var n := |rows| - 1;
      var front, last := Flat(rows[..n]), CellsOf(rows[n]);
      assert Ascending(rows[..n], RowKey);
      FlatAscends(t, rows[..n]);
      forall i, j | 0 <= i < |front| && 0 <= j < |last| ensures CellBefore(front[i], last[j]) {
        FlatHas(rows[..n], front[i]);
        var k :| 0 <= k < n && rows[k].row == front[i].row;
        assert Less(RowKey(rows[k]), RowKey(rows[n]));
      }
      assert RowListed(t, rows[n]);
      forall i, j | 0 <= i < j < |last| ensures CellBefore(last[i], last[j]) {
        assert Less(ColKey(rows[n].cols[i]), ColKey(rows[n].cols[j]));
      }
    }
  }

  lemma FlatLists(t: Tablet, rows: seq<RowKeys>)
    requires Ascending(rows, RowKey) && forall i :: 0 <= i < |rows| ==> RowListed(t, rows[i])
    requires forall rk :: rk in t ==> exists i :: 0 <= i < |rows| && rows[i].row == rk
    ensures Listing(t, Flat(rows))
  {
    FlatAscends(t, rows);
    forall c
      ensures c in Flat(rows) <==> c in ContentsOf(t)
    {
      FlatHas(rows, c);
      ContentsLookup(t, c);
    }
  }

  lemma {:induction false} SortedUnique(a: seq<Cell>, b: seq<Cell>)
    requires CellsAscend(a)
    requires CellsAscend(b)
    requires forall c :: c in a <==> c in b
    ensures a == b
  {
    assert b != [] ==> b[0] in a;
    if a != [] {
      assert a[0] in b;
      var i :| 0 <= i < |b| && b[i] == a[0];
      assert b[0] in a;
      var j :| 0 <= j < |a| && a[j] == b[0];
      BeforeIsOrder(a[0], b[0]);
      assert a[0] == b[0];
      forall c
        ensures c in a[1..] <==> c in b[1..]
      {
        TailWithout(a, c);
        TailWithout(b, c);
      }
      SortedUnique(a[1..], b[1..]);
    }
  }

  lemma TailWithout(a: seq<Cell>, c: Cell)
    requires a != [] && CellsAscend(a)
    ensures c in a[1..] <==> c in a && c != a[0]
  {
    BeforeIsOrder(a[0], a[0]);
    assert forall k :: 1 <= k < |a| ==> CellBefore(a[0], a[k]);
    assert a == [a[0]] + a[1..];
  }

  /** Empty rows are unobservable: a listing is determined by the contents, whatever order the maps are walked in. */
  lemma AdminListUnobservable(t: Tablet, u: Tablet, a: seq<Cell>, b: seq<Cell>)
    requires ContentsOf(t) == ContentsOf(u) && Listing(t, a) && Listing(u, b)
    ensures a == b
  {
    SortedUnique(a, b);
  }
}
