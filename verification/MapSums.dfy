/** Folding over the keys of a map, in whatever order they come. */
module MapSums {

  ghost function SumOver<K>(keys: set<K>, f: K -> int): int {
    if keys == {} then 0
    else
      var k :| k in keys;
      f(k) + SumOver(keys - {k}, f)
  }

  lemma {:induction false} SumRemove<K>(keys: set<K>, f: K -> int, k: K)
    requires k in keys
    ensures SumOver(keys, f) == f(k) + SumOver(keys - {k}, f)
    decreases |keys|
  {
    var j :| j in keys && SumOver(keys, f) == f(j) + SumOver(keys - {j}, f);
    if j != k {
      SumRemove(keys - {j}, f, k);
      SumRemove(keys - {k}, f, j);
      assert keys - {j} - {k} == keys - {k} - {j};
    }
  }

  lemma {:induction false} SumSame<K>(keys: set<K>, f: K -> int, g: K -> int)
    requires forall k :: k in keys ==> f(k) == g(k)
    ensures SumOver(keys, f) == SumOver(keys, g)
    decreases |keys|
  {
    if k :| k in keys {
      SumRemove(keys, f, k);
      SumRemove(keys, g, k);
      SumSame(keys - {k}, f, g);
    }
  }

  lemma SumInsert<K>(keys: set<K>, f: K -> int, g: K -> int, k: K)
    requires k !in keys && forall j :: j in keys ==> f(j) == g(j)
    ensures SumOver(keys + {k}, g) == SumOver(keys, f) + g(k)
  {
    SumRemove(keys + {k}, g, k);
    assert keys + {k} - {k} == keys;
    SumSame(keys, f, g);
  }

  lemma SumUpdate<K>(keys: set<K>, f: K -> int, g: K -> int, k: K)
    requires k in keys && forall j :: j in keys && j != k ==> f(j) == g(j)
    ensures SumOver(keys, g) == SumOver(keys, f) - f(k) + g(k)
  {
    SumRemove(keys, f, k);
    SumRemove(keys, g, k);
    SumSame(keys - {k}, f, g);
  }

  lemma {:induction false} SumZero<K>(keys: set<K>, f: K -> int)
    requires forall k :: k in keys ==> f(k) == 0
    ensures SumOver(keys, f) == 0
    decreases |keys|
  {
    if k :| k in keys {
      SumRemove(keys, f, k);
      SumZero(keys - {k}, f);
    }
  }

  lemma {:induction false} SumNonNegative<K>(keys: set<K>, f: K -> int)
    requires forall k :: k in keys ==> f(k) >= 0
    ensures SumOver(keys, f) >= 0
    decreases |keys|
  {
    if k :| k in keys {
      SumRemove(keys, f, k);
      SumNonNegative(keys - {k}, f);
    }
  }

  lemma {:induction false} SumPlus<K>(keys: set<K>, f: K -> int, g: K -> int, h: K -> int)
    requires forall k :: k in keys ==> h(k) == f(k) + g(k)
    ensures SumOver(keys, h) == SumOver(keys, f) + SumOver(keys, g)
    decreases |keys|
  {
    if k :| k in keys {
      SumRemove(keys, f, k);
      SumRemove(keys, g, k);
      SumRemove(keys, h, k);
      SumPlus(keys - {k}, f, g, h);
    }
  }

  ghost function RowSum<A, K>(keys: set<K>, f: (A, K) -> int, a: A): int {
    SumOver(keys, k => f(a, k))
  }

  ghost function ColumnSum<A, K>(rows: set<A>, f: (A, K) -> int, k: K): int {
    SumOver(rows, a => f(a, k))
  }

  lemma RowSumIs<A, K>(keys: set<K>, f: (A, K) -> int, a: A, g: K -> int)
    requires forall k :: k in keys ==> g(k) == f(a, k)
    ensures RowSum(keys, f, a) == SumOver(keys, g)
  {
    SumSame(keys, g, k => f(a, k));
  }

  lemma ColumnSumIs<A, K>(rows: set<A>, f: (A, K) -> int, k: K, g: A -> int)
    requires forall a :: a in rows ==> g(a) == f(a, k)
    ensures ColumnSum(rows, f, k) == SumOver(rows, g)
  {
    SumSame(rows, g, a => f(a, k));
  }

  lemma {:induction false} SumSwap<A, K>(rows: set<A>, keys: set<K>, f: (A, K) -> int)
    ensures SumOver(rows, a => RowSum(keys, f, a)) == SumOver(keys, k => ColumnSum(rows, f, k))
    decreases |rows|
  {
    if a :| a in rows {
      var fewer := rows - {a};
      SumRemove(rows, x => RowSum(keys, f, x), a);
      SumSwap(fewer, keys, f);
      forall k | k in keys ensures ColumnSum(rows, f, k) == f(a, k) + ColumnSum(fewer, f, k) {
        SumRemove(rows, x => f(x, k), a);
      }
      SumPlus(keys, k => f(a, k), k => ColumnSum(fewer, f, k), k => ColumnSum(rows, f, k));
    } else {
      SumZero(keys, k => ColumnSum(rows, f, k));
    }
  }

  /** Adding up row by row or column by column comes to the same. */
  lemma RowsAndColumns<A, K>(rows: set<A>, keys: set<K>, f: (A, K) -> int, byRow: A -> int, byColumn: K -> int)
    requires forall a :: a in rows ==> byRow(a) == RowSum(keys, f, a)
    requires forall k :: k in keys ==> byColumn(k) == ColumnSum(rows, f, k)
    ensures SumOver(rows, byRow) == SumOver(keys, byColumn)
  {
    SumSame(rows, byRow, a => RowSum(keys, f, a));
    SumSwap(rows, keys, f);
    SumSame(keys, byColumn, k => ColumnSum(rows, f, k));
  }

  /** A sum whose terms vanish outside two keys. */
  lemma SumOfTwo<K>(keys: set<K>, f: K -> int, x: K, y: K)
    requires x in keys && y in keys && forall k :: k in keys && k != x && k != y ==> f(k) == 0
    ensures SumOver(keys, f) == f(x) + if x == y then 0 else f(y)
  {
    SumRemove(keys, f, x);
    if x != y {
      SumRemove(keys - {x}, f, y);
    }
    assert x == y ==> keys - {x} - {y} == keys - {x};
    SumZero(keys - {x} - {y}, f);
  }
}
