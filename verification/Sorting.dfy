/** A stable sort, as sort.SliceStable gives one, and the order of Go strings. */
module Sorting {

  ghost predicate TotalPreorder<T(!new)>(le: (T, T) -> bool) {
    && (forall a, b :: le(a, b) || le(b, a))
    && (forall a, b, c :: le(a, b) && le(b, c) ==> le(a, c))
  }

  ghost predicate SortedBy<T>(le: (T, T) -> bool, s: seq<T>) {
    forall i, j :: 0 <= i < j < |s| ==> le(s[i], s[j])
  }

  /** Puts x behind everything that may stand before it. */
  function InsertLast<T>(le: (T, T) -> bool, s: seq<T>, x: T): (r: seq<T>)
    ensures multiset(r) == multiset(s) + multiset{x}
  {
    if s == [] || le(s[|s| - 1], x) then s + [x]
    else
      assert s == s[..|s| - 1] + [s[|s| - 1]];
      InsertLast(le, s[..|s| - 1], x) + [s[|s| - 1]]
  }

  function StableSort<T>(le: (T, T) -> bool, s: seq<T>): (r: seq<T>)
    ensures multiset(r) == multiset(s) && |r| == |s|
  {
    if s == [] then []
    else
      assert s == s[..|s| - 1] + [s[|s| - 1]];
      var r := InsertLast(le, StableSort(le, s[..|s| - 1]), s[|s| - 1]);
      assert |multiset(r)| == |r| && |multiset(s)| == |s|;
      r
  }

  lemma {:induction false} InsertKeepsSorted<T(!new)>(le: (T, T) -> bool, s: seq<T>, x: T)
    requires TotalPreorder(le) && SortedBy(le, s)
    ensures SortedBy(le, InsertLast(le, s, x))
  {
    if s != [] && !le(s[|s| - 1], x) {
      var init, last := s[..|s| - 1], s[|s| - 1];
      InsertKeepsSorted(le, init, x);
      var r := InsertLast(le, init, x);
      forall i | 0 <= i < |r| ensures le(r[i], last) {
        assert r[i] in multiset(init) + multiset{x};
      }
    }
  }

  lemma {:induction false} SortIsSorted<T(!new)>(le: (T, T) -> bool, s: seq<T>)
    requires TotalPreorder(le)
    ensures SortedBy(le, StableSort(le, s))
  {
    if s != [] {
      SortIsSorted(le, s[..|s| - 1]);
      InsertKeepsSorted(le, StableSort(le, s[..|s| - 1]), s[|s| - 1]);
    }
  }

  /** Equal elements stay in the order they came in: where every later element that may stand behind
      an earlier one does, and any other stands before it, the sort is sorted that way too. */
  ghost predicate Refines<T(!new)>(le: (T, T) -> bool, lex: (T, T) -> bool, s: seq<T>) {
    && (forall a, b, c :: lex(a, b) && lex(b, c) ==> lex(a, c))
    && (forall i, j :: 0 <= i < j < |s| ==> if le(s[i], s[j]) then lex(s[i], s[j]) else lex(s[j], s[i]))
  }

  lemma {:induction false} InsertIsStable<T(!new)>(le: (T, T) -> bool, lex: (T, T) -> bool, s: seq<T>, x: T)
    requires (forall a, b, c :: lex(a, b) && lex(b, c) ==> lex(a, c)) && SortedBy(lex, s)
    requires forall y :: y in s ==> if le(y, x) then lex(y, x) else lex(x, y)
    ensures SortedBy(lex, InsertLast(le, s, x))
  {
    if s != [] && !le(s[|s| - 1], x) {
      var init, last := s[..|s| - 1], s[|s| - 1];
      InsertIsStable(le, lex, init, x);
      var r := InsertLast(le, init, x);
      forall i | 0 <= i < |r| ensures lex(r[i], last) {
        assert r[i] in multiset(init) + multiset{x};
      }
    }
  }

  lemma {:induction false} SortIsStable<T(!new)>(le: (T, T) -> bool, lex: (T, T) -> bool, s: seq<T>)
    requires Refines(le, lex, s)
    ensures SortedBy(lex, StableSort(le, s))
  {
    if s != [] {
      var init, last := s[..|s| - 1], s[|s| - 1];
      SortIsStable(le, lex, init);
      var r := StableSort(le, init);
      forall y | y in r ensures if le(y, last) then lex(y, last) else lex(last, y) {
        assert y in multiset(r) && y in multiset(init);
        var i :| 0 <= i < |init| && init[i] == y;
      }
      InsertIsStable(le, lex, r, last);
    }
  }

  // ---------- strings in Go's order ----------

  predicate StringLe(a: string, b: string) {
    a == "" || (b != "" && (a[0] < b[0] || (a[0] == b[0] && StringLe(a[1..], b[1..]))))
  }

  /** A string comes before the strings it begins, and otherwise as its first other character says. */
  lemma {:induction false} StringOrder(a: string, b: string)
    ensures StringLe(a, b) <==>
            a <= b || exists i :: 0 <= i < |a| && i < |b| && a[..i] == b[..i] && a[i] < b[i]
  {
    if a != "" && b != "" {
      var u, v := a[1..], b[1..];
      assert a == [a[0]] + u && b == [b[0]] + v;
      if a[0] == b[0] {
        StringOrder(u, v);
        if i :| 0 <= i < |u| && i < |v| && u[..i] == v[..i] && u[i] < v[i] {
          assert a[..i + 1] == [a[0]] + u[..i] && b[..i + 1] == [b[0]] + v[..i];
        }
        if i :| 0 <= i < |a| && i < |b| && a[..i] == b[..i] && a[i] < b[i] {
          assert u[..i - 1] == a[..i][1..] && v[..i - 1] == b[..i][1..];
          assert u[i - 1] < v[i - 1];
        }
      } else if a[0] < b[0] {
        assert a[..0] == b[..0];
      }
    }
  }

  lemma {:induction false} StringTotal(a: string, b: string)
    ensures StringLe(a, b) || StringLe(b, a)
    ensures StringLe(a, b) && StringLe(b, a) ==> a == b
  {
    if a != "" && b != "" {
      StringTotal(a[1..], b[1..]);
      assert a == [a[0]] + a[1..] && b == [b[0]] + b[1..];
    }
  }

  lemma {:induction false} StringTransitive(a: string, b: string, c: string)
    requires StringLe(a, b) && StringLe(b, c)
    ensures StringLe(a, c)
  {
    if a != "" && a[0] == b[0] == c[0] {
      StringTransitive(a[1..], b[1..], c[1..]);
    }
  }

  lemma StringPreorder()
    ensures TotalPreorder(StringLe)
  {
    forall a, b ensures StringLe(a, b) || StringLe(b, a) {
      StringTotal(a, b);
    }
    forall a, b, c | StringLe(a, b) && StringLe(b, c) ensures StringLe(a, c) {
      StringTransitive(a, b, c);
    }
  }
}
