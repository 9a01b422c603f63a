/** The elements of a sequence, and applying a function along one. */
module Seqs {

  // ---------- elements ----------

  ghost predicate Distinct<T>(s: seq<T>) {
    forall i, j :: 0 <= i < j < |s| ==> s[i] != s[j]
  }

  ghost function Elems<T>(s: seq<T>): set<T> { set x | x in s }

  lemma {:induction false} CountDistinct<T>(s: seq<T>)
    requires Distinct(s)
    ensures |Elems(s)| == |s|
  {
    if s != [] {
      var init, last := s[..|s| - 1], s[|s| - 1];
      CountDistinct(init);
      assert Elems(s) == Elems(init) + {last};
    }
  }

  lemma DistinctSnoc<T>(s: seq<T>, x: T)
    requires Distinct(s) && x !in Elems(s)
    ensures Distinct(s + [x]) && Elems(s + [x]) == Elems(s) + {x}
  {
    assert x !in s;
  }

  /** The elements p holds of, in order. */
  function Filter<T>(s: seq<T>, p: T -> bool): seq<T> {
    if s == [] then [] else Filter(s[..|s| - 1], p) + if p(s[|s| - 1]) then [s[|s| - 1]] else []
  }

  lemma {:induction false} FilterFirst<T>(s: seq<T>, p: T -> bool)
    requires s != []
    ensures Filter(s, p) == (if p(s[0]) then [s[0]] else []) + Filter(s[1..], p)
  {
    var n := |s| - 1;
    if n == 0 {
      assert s[..0] == [] && s[1..] == [];
    } else {
      FilterFirst(s[..n], p);
      FilterLast(s, p);
      FilterLast(s[1..], p);
      assert s[..n][1..] == s[1..][..n - 1];
    }
  }

  lemma FilterLast<T>(s: seq<T>, p: T -> bool)
    requires s != []
    ensures Filter(s, p) == Filter(s[..|s| - 1], p) + if p(s[|s| - 1]) then [s[|s| - 1]] else []
  {
  }

  lemma {:induction false} FilterCounts<T>(s: seq<T>, p: T -> bool, x: T)
    ensures multiset(Filter(s, p))[x] == if p(x) then multiset(s)[x] else 0
  {
    if s != [] {
      FilterCounts(s[..|s| - 1], p, x);
      assert s == s[..|s| - 1] + [s[|s| - 1]];
    }
  }

  // ---------- a function along a sequence ----------

  function Map<A, B>(f: A -> B, s: seq<A>): (r: seq<B>)
    ensures |r| == |s| && forall i :: 0 <= i < |s| ==> r[i] == f(s[i])
  {
    seq(|s|, i requires 0 <= i < |s| => f(s[i]))
  }

  lemma MapConcat<A, B>(f: A -> B, a: seq<A>, b: seq<A>)
    ensures Map(f, a + b) == Map(f, a) + Map(f, b)
  {
  }

  /** f and then g, line by line. */
  lemma MapTwice<A, B, C>(f: A -> B, g: B -> C, h: A -> C, s: seq<A>)
    requires forall i :: 0 <= i < |s| ==> g(f(s[i])) == h(s[i])
    ensures Map(g, Map(f, s)) == Map(h, s)
  {
  }

  lemma MapSame<A>(f: A -> A, s: seq<A>)
    requires forall i :: 0 <= i < |s| ==> f(s[i]) == s[i]
    ensures Map(f, s) == s
  {
  }

  lemma TakeOut<A>(t: seq<A>, j: nat)
    requires j < |t|
    ensures multiset(t[..j] + t[j + 1..]) == multiset(t) - multiset{t[j]}
  {
    assert t == t[..j] + [t[j]] + t[j + 1..];
  }

  lemma MapTakeOut<A, B>(f: A -> B, t: seq<A>, j: nat)
    requires j < |t|
    ensures multiset(Map(f, t[..j] + t[j + 1..])) == multiset(Map(f, t)) - multiset{f(t[j])} &&
            f(t[j]) in multiset(Map(f, t))
  {
    assert Map(f, t[..j] + t[j + 1..]) == Map(f, t)[..j] + Map(f, t)[j + 1..];
    TakeOut(Map(f, t), j);
    assert Map(f, t)[j] == f(t[j]);
  }

  /** The results, with their multiplicity, do not depend on the order. */
  lemma {:induction false} MapMultiset<A, B>(f: A -> B, s: seq<A>, t: seq<A>)
    requires multiset(s) == multiset(t)
    ensures multiset(Map(f, s)) == multiset(Map(f, t))
  {
    if s == [] {
      assert |multiset(t)| == |t|;
    } else {
      var j := Find(s, t);
      TakeOut(s, 0);
      TakeOut(t, j);
      MapMultiset(f, s[..0] + s[1..], t[..j] + t[j + 1..]);
      MapPutBack(f, s, t, 0, j);
    }
  }

  lemma MapPutBack<A, B>(f: A -> B, s: seq<A>, t: seq<A>, i: nat, j: nat)
    requires i < |s| && j < |t| && s[i] == t[j]
    requires multiset(Map(f, s[..i] + s[i + 1..])) == multiset(Map(f, t[..j] + t[j + 1..]))
    ensures multiset(Map(f, s)) == multiset(Map(f, t))
  {
    MapTakeOut(f, s, i);
    MapTakeOut(f, t, j);
    SameWithout(multiset(Map(f, s)), multiset(Map(f, t)), f(s[i]));
  }

  lemma Find<A>(s: seq<A>, t: seq<A>) returns (j: nat)
    requires s != [] && multiset(s) == multiset(t)
    ensures j < |t| && t[j] == s[0]
  {
    assert s[0] in multiset(t);
    j :| j < |t| && t[j] == s[0];
  }

  lemma SameWithout<B>(a: multiset<B>, b: multiset<B>, x: B)
    requires x in a && x in b && a - multiset{x} == b - multiset{x}
    ensures a == b
  {
    assert a == (a - multiset{x}) + multiset{x} && b == (b - multiset{x}) + multiset{x};
  }
}
