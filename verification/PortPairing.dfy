/** Pairing the declared ports of a running service with the ports it is published on. */
module PortPairing {
  import opened Seqs
  import opened Sorting
  import opened ComposeInspect

  /** The places below n that satisfy p, in order. */
  function Places(n: nat, p: int -> bool): (r: seq<int>)
    ensures forall i :: i in r <==> 0 <= i < n && p(i)
  {
    if n == 0 then [] else Places(n - 1, p) + if p(n - 1) then [n - 1] else []
  }

  lemma {:induction false} PlacesDistinct(n: nat, p: int -> bool)
    ensures Distinct(Places(n, p))
  {
    if n > 0 {
      PlacesDistinct(n - 1, p);
      var r := Places(n - 1, p);
      forall i | 0 <= i < |r| ensures r[i] < n - 1 {
        assert r[i] in r;
      }
    }
  }

  // ---------- bins ----------

  predicate Declared(bs: seq<Binding>, i: int) { 0 <= i < |bs| && bs[i].hostPort != 0 }

  predicate BindsTo(bs: seq<Binding>, i: int, container: int) { Declared(bs, i) && bs[i].container == container }

  predicate Publishes(own: seq<Publisher>, k: int, container: int) { 0 <= k < |own| && own[k].container == container }

  function BindBin(bs: seq<Binding>, container: int): seq<int> { Places(|bs|, i => BindsTo(bs, i, container)) }

  function PubBin(own: seq<Publisher>, container: int): seq<int> { Places(|own|, k => Publishes(own, k, container)) }

  /** A container port that settles its binding: one binding, one publisher. */
  predicate Clear(bs: seq<Binding>, own: seq<Publisher>, container: int) {
    |BindBin(bs, container)| == 1 && |PubBin(own, container)| == 1
  }

  predicate Loose(bs: seq<Binding>, own: seq<Publisher>, i: int) {
    Declared(bs, i) && !Clear(bs, own, bs[i].container)
  }

  predicate LoosePub(bs: seq<Binding>, own: seq<Publisher>, k: int) {
    0 <= k < |own| && !Clear(bs, own, own[k].container)
  }

  function HostPortAt(bs: seq<Binding>, i: int): int { if 0 <= i < |bs| then bs[i].hostPort else 0 }

  function PortAt(own: seq<Publisher>, k: int): int { if 0 <= k < |own| then own[k].publishedPort else 0 }

  predicate BindLe(bs: seq<Binding>, i: int, j: int) { HostPortAt(bs, i) <= HostPortAt(bs, j) }

  predicate PubLe(own: seq<Publisher>, i: int, j: int) { PortAt(own, i) <= PortAt(own, j) }

  function LooseBinds(bs: seq<Binding>, own: seq<Publisher>): seq<int> { Places(|bs|, i => Loose(bs, own, i)) }

  function LoosePubs(bs: seq<Binding>, own: seq<Publisher>): seq<int> { Places(|own|, k => LoosePub(bs, own, k)) }

  function SortedBinds(bs: seq<Binding>, own: seq<Publisher>): seq<int> {
    StableSort((i, j) => BindLe(bs, i, j), LooseBinds(bs, own))
  }

  function SortedPubs(bs: seq<Binding>, own: seq<Publisher>): seq<int> {
    StableSort((i, j) => PubLe(own, i, j), LoosePubs(bs, own))
  }

  // ---------- the pairing ----------

  /** Bindings settled by their container port. */
  function DirectPairs(bs: seq<Binding>, own: seq<Publisher>): map<int, int> {
    map i | 0 <= i < |bs| && Declared(bs, i) && Clear(bs, own, bs[i].container) :: PubBin(own, bs[i].container)[0]
  }

  /** The n-th of one list with the n-th of the other. */
  function Zip(a: seq<int>, b: seq<int>): map<int, int>
    requires |a| == |b|
  {
    if a == [] then map[] else Zip(a[..|a| - 1], b[..|b| - 1])[a[|a| - 1] := b[|b| - 1]]
  }

  /** The others in the order of their ports, if as many bindings as publishers are left. */
  function SortedPairs(bs: seq<Binding>, own: seq<Publisher>): map<int, int> {
    if LooseBinds(bs, own) == [] || |LooseBinds(bs, own)| != |LoosePubs(bs, own)| then map[]
    else Zip(SortedBinds(bs, own), SortedPubs(bs, own))
  }

  function Pairing(bs: seq<Binding>, own: seq<Publisher>): map<int, int> {
    DirectPairs(bs, own) + SortedPairs(bs, own)
  }

  function PortsOf(own: seq<Publisher>, pairs: map<int, int>): map<int, int> {
    map i | i in pairs :: PortAt(own, pairs[i])
  }

  function Own(name: string, ps: seq<Publisher>): seq<Publisher> {
    if ps == [] then []
    else Own(name, ps[..|ps| - 1]) + if ps[|ps| - 1].service == name then [ps[|ps| - 1]] else []
  }

  /** Where each declared binding of the service is found to be published. */
  function Resolved(name: string, bs: seq<Binding>, ps: seq<Publisher>): map<int, int> {
    PortsOf(Own(name, ps), Pairing(bs, Own(name, ps)))
  }

  // ---------- the pairing is an injective assignment ----------

  lemma {:induction false} ZipAt(a: seq<int>, b: seq<int>)
    requires |a| == |b| && Distinct(a)
    ensures forall i :: i in Zip(a, b) <==> i in a
    ensures forall n :: 0 <= n < |a| ==> a[n] in Zip(a, b) && Zip(a, b)[a[n]] == b[n]
  {
    if a != [] {
      var m := |a| - 1;
      ZipAt(a[..m], b[..m]);
      assert a == a[..m] + [a[m]];
      forall n | 0 <= n < |a| ensures a[n] in Zip(a, b) && Zip(a, b)[a[n]] == b[n] {
        assert a[n] in a;
        if n < m {
          assert a[..m][n] == a[n] != a[m] && b[..m][n] == b[n];
        }
      }
    }
  }

  lemma ZipPairs(a: seq<int>, b: seq<int>)
    requires |a| == |b| && Distinct(a) && Distinct(b)
    ensures forall i :: i in Zip(a, b) ==> i in a && Zip(a, b)[i] in b
    ensures forall i, j :: i in Zip(a, b) && j in Zip(a, b) && i != j ==> Zip(a, b)[i] != Zip(a, b)[j]
  {
    ZipAt(a, b);
    forall i | i in Zip(a, b) ensures exists n :: 0 <= n < |a| && a[n] == i && Zip(a, b)[i] == b[n] {
      assert i in a;
    }
  }

  lemma SortKeepsDistinct(le: (int, int) -> bool, s: seq<int>)
    requires Distinct(s)
    ensures Distinct(StableSort(le, s)) && forall i :: i in StableSort(le, s) <==> i in s
  {
    var r := StableSort(le, s);
    forall i ensures i in r <==> i in s {
      assert i in r <==> i in multiset(r);
      assert i in s <==> i in multiset(s);
    }
    forall i, j | 0 <= i < j < |r| ensures r[i] != r[j] {
      if r[i] == r[j] {
        MultisetTwice(r, i, j);
        OnceInMultiset(s, r[i]);
      }
    }
  }

  lemma MultisetTwice(s: seq<int>, i: int, j: int)
    requires 0 <= i < j < |s| && s[i] == s[j]
    ensures multiset(s)[s[i]] >= 2
  {
    assert s == s[..j] + s[j..];
    assert s[..j][i] == s[i] && s[j..][0] == s[i];
  }

  lemma {:induction false} OnceInMultiset(s: seq<int>, x: int)
    requires Distinct(s)
    ensures multiset(s)[x] <= 1
  {
    if s != [] {
      OnceInMultiset(s[..|s| - 1], x);
      assert s == s[..|s| - 1] + [s[|s| - 1]];
    }
  }

  lemma LooseParts(bs: seq<Binding>, own: seq<Publisher>)
    ensures Distinct(SortedBinds(bs, own)) && Distinct(SortedPubs(bs, own))
    ensures forall i :: i in SortedBinds(bs, own) <==> Loose(bs, own, i)
    ensures forall k :: k in SortedPubs(bs, own) <==> LoosePub(bs, own, k)
  {
    PlacesDistinct(|bs|, i => Loose(bs, own, i));
    PlacesDistinct(|own|, k => LoosePub(bs, own, k));
    SortKeepsDistinct((i, j) => BindLe(bs, i, j), LooseBinds(bs, own));
    SortKeepsDistinct((i, j) => PubLe(own, i, j), LoosePubs(bs, own));
  }

  lemma SortedPairsAre(bs: seq<Binding>, own: seq<Publisher>)
    ensures forall i :: i in SortedPairs(bs, own) ==> Loose(bs, own, i) && LoosePub(bs, own, SortedPairs(bs, own)[i])
    ensures forall i, j :: i in SortedPairs(bs, own) && j in SortedPairs(bs, own) && i != j ==>
              SortedPairs(bs, own)[i] != SortedPairs(bs, own)[j]
  {
    LooseParts(bs, own);
    if LooseBinds(bs, own) != [] && |LooseBinds(bs, own)| == |LoosePubs(bs, own)| {
      ZipPairs(SortedBinds(bs, own), SortedPubs(bs, own));
    }
  }

  lemma DirectPairsAre(bs: seq<Binding>, own: seq<Publisher>, i: int)
    requires i in DirectPairs(bs, own)
    ensures var k := DirectPairs(bs, own)[i];
            0 <= k < |own| && own[k].container == bs[i].container && !LoosePub(bs, own, k) && !Loose(bs, own, i)
    ensures forall j :: BindsTo(bs, j, bs[i].container) ==> j == i
  {
    var c := bs[i].container;
    assert PubBin(own, c)[0] in PubBin(own, c);
    assert i in BindBin(bs, c);
    forall j | BindsTo(bs, j, c) ensures j == i {
      assert j in BindBin(bs, c);
    }
  }

  /** Every paired binding is a declared one, its partner one of the service's publishers, and no
      publisher is paired twice. */
  lemma PairingIsInjective(bs: seq<Binding>, own: seq<Publisher>)
    ensures forall i :: i in Pairing(bs, own) ==> Declared(bs, i) && 0 <= Pairing(bs, own)[i] < |own|
    ensures forall i, j :: i in Pairing(bs, own) && j in Pairing(bs, own) && i != j ==>
      Pairing(bs, own)[i] != Pairing(bs, own)[j]
  {
    SortedPairsAre(bs, own);
    forall i | i in DirectPairs(bs, own) {
      DirectPairsAre(bs, own, i);
    }
    forall i, j | i in DirectPairs(bs, own) && j in DirectPairs(bs, own) &&
        DirectPairs(bs, own)[i] == DirectPairs(bs, own)[j]
      ensures i == j
    {
      assert BindsTo(bs, j, bs[i].container);
    }
  }

  // ---------- publishers that are the declared ports ----------

  /** What is declared, and what is published: container port and host port. */
  function DeclaredPorts(bs: seq<Binding>): seq<(int, int)> {
    seq(|bs|, i requires 0 <= i < |bs| => (bs[i].container, bs[i].hostPort))
  }

  function PublishedPorts(own: seq<Publisher>): seq<(int, int)> {
    seq(|own|, k requires 0 <= k < |own| => (own[k].container, own[k].publishedPort))
  }

  /** The entries of the pairs at some places. */
  function At(ports: seq<(int, int)>, places: seq<int>): seq<(int, int)>
  {
    seq(|places|, n requires 0 <= n < |places| => Pick(ports, places[n]))
  }

  function Pick(ports: seq<(int, int)>, i: int): (int, int) {
    if 0 <= i < |ports| then ports[i] else (0, 0)
  }

  lemma AtSnoc(ports: seq<(int, int)>, places: seq<int>, n: int)
    requires 0 <= n < |ports|
    ensures At(ports, places + [n]) == At(ports, places) + [ports[n]]
  {
  }

  lemma CountSnoc(s: seq<(int, int)>, y: (int, int), x: (int, int))
    ensures multiset(s + [y])[x] == multiset(s)[x] + if x == y then 1 else 0
  {
  }

  /** How many of the pairs a predicate on pairs picks, by multiplicity. */
  lemma PlacesStep(ports: seq<(int, int)>, n: nat, p: int -> bool, x: (int, int))
    requires n < |ports|
    ensures multiset(At(ports, Places(n + 1, p)))[x] ==
            multiset(At(ports, Places(n, p)))[x] + if p(n) && x == ports[n] then 1 else 0
    ensures multiset(ports[..n + 1])[x] == multiset(ports[..n])[x] + if x == ports[n] then 1 else 0
  {
    var r := Places(n, p);
    assert ports[..n + 1] == ports[..n] + [ports[n]];
    CountSnoc(ports[..n], ports[n], x);
    if p(n) {
      AtSnoc(ports, r, n);
      CountSnoc(At(ports, r), ports[n], x);
    } else {
      assert Places(n + 1, p) == r;
    }
  }

  lemma {:induction false} PlacesMultiset(ports: seq<(int, int)>, n: nat, p: int -> bool, keep: ((int, int)) -> bool,
                                          x: (int, int))
    requires n <= |ports| && forall i :: 0 <= i < n ==> p(i) == keep(ports[i])
    ensures multiset(At(ports, Places(n, p)))[x] == if keep(x) then multiset(ports[..n])[x] else 0
  {
    if n > 0 {
      var m := n - 1;
      PlacesMultiset(ports, m, p, keep, x);
      PlacesStep(ports, m, p, x);
      assert n == m + 1 && p(m) == keep(ports[m]);
    }
  }

  /** Picking the same pairs from two orders of the same pairs. */
  lemma SamePicked(a: seq<(int, int)>, b: seq<(int, int)>, p: int -> bool, q: int -> bool, keep: ((int, int)) -> bool)
    requires multiset(a) == multiset(b)
    requires forall i :: 0 <= i < |a| ==> p(i) == keep(a[i])
    requires forall i :: 0 <= i < |b| ==> q(i) == keep(b[i])
    ensures multiset(At(a, Places(|a|, p))) == multiset(At(b, Places(|b|, q)))
    ensures |Places(|a|, p)| == |Places(|b|, q)|
  {
    assert a[..|a|] == a && b[..|b|] == b;
    var x, y := At(a, Places(|a|, p)), At(b, Places(|b|, q));
    forall v ensures multiset(x)[v] == multiset(y)[v] {
      PlacesMultiset(a, |a|, p, keep, v);
      PlacesMultiset(b, |b|, q, keep, v);
    }
    assert |multiset(x)| == |x| && |multiset(y)| == |y|;
  }

  predicate Ascending(a: seq<int>) { forall i, j :: 0 <= i < j < |a| ==> a[i] <= a[j] }

  lemma LastIsGreatest(a: seq<int>, x: int)
    requires Ascending(a) && x in multiset(a)
    ensures a != [] && x <= a[|a| - 1]
  {
    assert x in a;
  }

  lemma SameTop(a: seq<int>, b: seq<int>)
    requires multiset(a) == multiset(b) && |a| == |b| > 0 && Ascending(a) && Ascending(b)
    ensures a[|a| - 1] == b[|b| - 1]
  {
    assert a[|a| - 1] in multiset(a) && b[|b| - 1] in multiset(b);
    LastIsGreatest(a, b[|b| - 1]);
    LastIsGreatest(b, a[|a| - 1]);
  }

  lemma WithoutTop(a: seq<int>)
    requires a != []
    ensures multiset(a[..|a| - 1]) == multiset(a) - multiset{a[|a| - 1]} && a == a[..|a| - 1] + [a[|a| - 1]]
  {
    TakeOut(a, |a| - 1);
    assert a[..|a| - 1] + a[|a|..] == a[..|a| - 1];
  }

  /** Two sorted orders of the same numbers are the same. */
  lemma {:induction false} SortedSame(a: seq<int>, b: seq<int>)
    requires multiset(a) == multiset(b) && |a| == |b| && Ascending(a) && Ascending(b)
    ensures a == b
  {
    if a != [] {
      SameTop(a, b);
      WithoutTop(a);
      WithoutTop(b);
      SortedSame(a[..|a| - 1], b[..|b| - 1]);
    }
  }

  predicate AllDeclared(bs: seq<Binding>) { forall i :: 0 <= i < |bs| ==> bs[i].hostPort != 0 }

  /** The publishers are the declared ports, in whatever order. */
  ghost predicate Permutation(bs: seq<Binding>, own: seq<Publisher>) {
    AllDeclared(bs) && multiset(DeclaredPorts(bs)) == multiset(PublishedPorts(own))
  }

  lemma BinsMatch(bs: seq<Binding>, own: seq<Publisher>, c: int)
    requires Permutation(bs, own)
    ensures |BindBin(bs, c)| == |PubBin(own, c)|
    ensures multiset(At(DeclaredPorts(bs), BindBin(bs, c))) == multiset(At(PublishedPorts(own), PubBin(own, c)))
  {
    SamePicked(DeclaredPorts(bs), PublishedPorts(own), i => BindsTo(bs, i, c), k => Publishes(own, k, c),
               (x: (int, int)) => x.0 == c);
  }

  lemma DirectIsOwnPort(bs: seq<Binding>, own: seq<Publisher>, i: int)
    requires Permutation(bs, own) && 0 <= i < |bs| && Clear(bs, own, bs[i].container)
    ensures PortAt(own, PubBin(own, bs[i].container)[0]) == bs[i].hostPort
  {
    var c := bs[i].container;
    BinsMatch(bs, own, c);
    assert i in BindBin(bs, c);
    assert BindBin(bs, c) == [i];
    var k := PubBin(own, c)[0];
    assert k in PubBin(own, c);
    assert At(DeclaredPorts(bs), [i]) == [(c, bs[i].hostPort)];
    assert At(PublishedPorts(own), PubBin(own, c)) == [(c, own[k].publishedPort)];
    assert (c, bs[i].hostPort) in multiset([(c, own[k].publishedPort)]);
  }

  lemma LooseMatch(bs: seq<Binding>, own: seq<Publisher>)
    requires Permutation(bs, own)
    ensures |LooseBinds(bs, own)| == |LoosePubs(bs, own)|
    ensures multiset(At(DeclaredPorts(bs), LooseBinds(bs, own))) ==
            multiset(At(PublishedPorts(own), LoosePubs(bs, own)))
  {
    SamePicked(DeclaredPorts(bs), PublishedPorts(own), i => Loose(bs, own, i), k => LoosePub(bs, own, k),
               (x: (int, int)) => !Clear(bs, own, x.0));
  }

  function Second(x: (int, int)): int { x.1 }

  lemma SecondsOfBinds(bs: seq<Binding>, places: seq<int>)
    requires forall n :: 0 <= n < |places| ==> 0 <= places[n] < |bs|
    ensures Map(Second, At(DeclaredPorts(bs), places)) == Map(i => HostPortAt(bs, i), places)
  {
  }

  lemma SecondsOfPubs(own: seq<Publisher>, places: seq<int>)
    requires forall n :: 0 <= n < |places| ==> 0 <= places[n] < |own|
    ensures Map(Second, At(PublishedPorts(own), places)) == Map(k => PortAt(own, k), places)
  {
  }

  lemma InRange(s: seq<int>, n: int)
    requires forall i :: i in s ==> 0 <= i < n
    ensures forall k :: 0 <= k < |s| ==> 0 <= s[k] < n
  {
    forall k | 0 <= k < |s| ensures 0 <= s[k] < n {
      assert s[k] in s;
    }
  }

  lemma LoosePortsMatch(bs: seq<Binding>, own: seq<Publisher>)
    requires Permutation(bs, own)
    ensures multiset(Map(i => HostPortAt(bs, i), LooseBinds(bs, own))) ==
            multiset(Map(k => PortAt(own, k), LoosePubs(bs, own)))
  {
    var lb, lp := LooseBinds(bs, own), LoosePubs(bs, own);
    LooseMatch(bs, own);
    MapMultiset(Second, At(DeclaredPorts(bs), lb), At(PublishedPorts(own), lp));
    InRange(lb, |bs|);
    InRange(lp, |own|);
    SecondsOfBinds(bs, lb);
    SecondsOfPubs(own, lp);
  }

  lemma BindsAscending(bs: seq<Binding>, s: seq<int>)
    ensures var r := StableSort((i, j) => BindLe(bs, i, j), s);
            Ascending(Map(i => HostPortAt(bs, i), r)) &&
                multiset(Map(i => HostPortAt(bs, i), r)) == multiset(Map(i => HostPortAt(bs, i), s))
  {
    var le := (i: int, j: int) => BindLe(bs, i, j);
    SortIsSorted(le, s);
    var r := StableSort(le, s);
    forall i, j | 0 <= i < j < |r| ensures HostPortAt(bs, r[i]) <= HostPortAt(bs, r[j]) {
      assert le(r[i], r[j]);
    }
    MapMultiset(i => HostPortAt(bs, i), r, s);
  }

  lemma PubsAscending(own: seq<Publisher>, s: seq<int>)
    ensures var r := StableSort((i, j) => PubLe(own, i, j), s);
            Ascending(Map(k => PortAt(own, k), r)) &&
                multiset(Map(k => PortAt(own, k), r)) == multiset(Map(k => PortAt(own, k), s))
  {
    var le := (i: int, j: int) => PubLe(own, i, j);
    SortIsSorted(le, s);
    var r := StableSort(le, s);
    forall i, j | 0 <= i < j < |r| ensures PortAt(own, r[i]) <= PortAt(own, r[j]) {
      assert le(r[i], r[j]);
    }
    MapMultiset(k => PortAt(own, k), r, s);
  }

  /** In sorted order the loose bindings' ports are the loose publishers' ports. */
  lemma SortedPortsMatch(bs: seq<Binding>, own: seq<Publisher>)
    requires Permutation(bs, own)
    ensures Map(i => HostPortAt(bs, i), SortedBinds(bs, own)) == Map(k => PortAt(own, k), SortedPubs(bs, own))
  {
    LooseMatch(bs, own);
    LoosePortsMatch(bs, own);
    BindsAscending(bs, LooseBinds(bs, own));
    PubsAscending(own, LoosePubs(bs, own));
    SortedSame(Map(i => HostPortAt(bs, i), SortedBinds(bs, own)), Map(k => PortAt(own, k), SortedPubs(bs, own)));
  }

  lemma SortedIsOwnPort(bs: seq<Binding>, own: seq<Publisher>, i: int)
    requires Permutation(bs, own) && Loose(bs, own, i)
    ensures i in SortedPairs(bs, own) && PortAt(own, SortedPairs(bs, own)[i]) == bs[i].hostPort
  {
    var sb, sp := SortedBinds(bs, own), SortedPubs(bs, own);
    LooseParts(bs, own);
    LooseMatch(bs, own);
    SortedPortsMatch(bs, own);
    assert i in LooseBinds(bs, own);
    ZipAt(sb, sp);
    var n :| 0 <= n < |sb| && sb[n] == i;
    assert Map(i => HostPortAt(bs, i), sb)[n] == Map(k => PortAt(own, k), sp)[n];
  }

  /** When the publishers are the declared ports in any order and docker picked none, every binding
      is paired with its own port: no drift. */
  lemma PermutationHasNoDrift(name: string, bs: seq<Binding>, ps: seq<Publisher>, i: int)
    requires Permutation(bs, Own(name, ps)) && 0 <= i < |bs|
    ensures i in Resolved(name, bs, ps) && Resolved(name, bs, ps)[i] == bs[i].hostPort
  {
    var own := Own(name, ps);
    if Clear(bs, own, bs[i].container) {
      SortedPairsAre(bs, own);
      DirectIsOwnPort(bs, own, i);
    } else {
      SortedIsOwnPort(bs, own, i);
    }
  }
}
