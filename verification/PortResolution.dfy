/** What pairing the declared ports of a service with its publishers comes to, said of the bindings
    and the rows of `docker compose ps` alone. */
module PortResolution {
  import opened Seqs
  import opened Sorting
  import opened ComposeInspect
  import opened PortPairing

  /** Binding i is the only declared one with its container port, row k the service's only one. */
  ghost predicate Settles(name: string, bs: seq<Binding>, ps: seq<Publisher>, i: int, k: int) {
    && 0 <= i < |bs| && bs[i].hostPort != 0
    && 0 <= k < |ps| && ps[k].service == name && ps[k].container == bs[i].container
    && (forall j :: 0 <= j < |bs| && bs[j].hostPort != 0 && bs[j].container == bs[i].container ==> j == i)
    && (forall m :: 0 <= m < |ps| && ps[m].service == name && ps[m].container == bs[i].container ==> m == k)
  }

  /** The declared bindings and the rows of the service that nothing settles. */
  ghost function LeftBinds(name: string, bs: seq<Binding>, ps: seq<Publisher>): set<int> {
    set i | 0 <= i < |bs| && bs[i].hostPort != 0 && !exists k :: Settles(name, bs, ps, i, k)
  }

  ghost function LeftPubs(name: string, bs: seq<Binding>, ps: seq<Publisher>): set<int> {
    set k | 0 <= k < |ps| && ps[k].service == name && !exists i :: Settles(name, bs, ps, i, k)
  }

  predicate Precedes(bs: seq<Binding>, i: int, j: int) {
    && 0 <= i < |bs| && 0 <= j < |bs|
    && (bs[i].hostPort < bs[j].hostPort || (bs[i].hostPort == bs[j].hostPort && i < j))
  }

  /** The left bindings and the left rows, one to one. */
  ghost predicate OneToOne(name: string, bs: seq<Binding>, ps: seq<Publisher>, out: map<int, int>,
                           pairs: map<int, int>) {
    && pairs.Keys == LeftBinds(name, bs, ps) && pairs.Values == LeftPubs(name, bs, ps)
    && (forall i, j :: i in pairs && j in pairs && pairs[i] == pairs[j] ==> i == j)
    && (forall i :: i in pairs ==> 0 <= pairs[i] < |ps| && i in out && out[i] == ps[pairs[i]].publishedPort)
  }

  /** A binding whose container port settles it has the port of that row. The others are paired only
      if as many rows are left: each with another row, their ports in the order of the declared host
      ports, bindings of one host port in the order they are declared. */
  ghost predicate ResolvesPorts(name: string, bs: seq<Binding>, ps: seq<Publisher>, out: map<int, int>) {
    var left := LeftBinds(name, bs, ps);
    && (forall i :: i in out ==> 0 <= i < |bs| && bs[i].hostPort != 0)
    && (forall i, k :: Settles(name, bs, ps, i, k) ==> i in out && out[i] == ps[k].publishedPort)
    && (|left| != |LeftPubs(name, bs, ps)| ==> forall i :: i in left ==> i !in out)
    && (|left| == |LeftPubs(name, bs, ps)| ==>
          && (exists pairs :: OneToOne(name, bs, ps, out, pairs))
          && (forall i, j :: i in left && j in left && i in out && j in out && Precedes(bs, i, j) ==>
                out[i] <= out[j]))
  }

  // ---------- the service's publishers among the rows ----------

  function OwnPlaces(name: string, ps: seq<Publisher>): seq<int> {
    Places(|ps|, k => 0 <= k < |ps| && ps[k].service == name)
  }

  lemma PlacesAgree(n: nat, p: int -> bool, q: int -> bool)
    requires forall i :: 0 <= i < n ==> p(i) == q(i)
    ensures Places(n, p) == Places(n, q)
  {
  }

  lemma {:induction false} OwnIs(name: string, ps: seq<Publisher>)
    ensures |Own(name, ps)| == |OwnPlaces(name, ps)| && Distinct(OwnPlaces(name, ps))
    ensures forall m :: 0 <= m < |Own(name, ps)| ==>
              0 <= OwnPlaces(name, ps)[m] < |ps| && Own(name, ps)[m] == ps[OwnPlaces(name, ps)[m]]
  {
    PlacesDistinct(|ps|, k => 0 <= k < |ps| && ps[k].service == name);
    if ps != [] {
      var init := ps[..|ps| - 1];
      OwnIs(name, init);
      PlacesAgree(|init|, k => 0 <= k < |ps| && ps[k].service == name, k => 0 <= k < |init| && init[k].service == name);
    }
  }

  lemma OnlyElement(s: seq<int>, x: int)
    requires Distinct(s)
    ensures |s| == 1 && s[0] == x <==> forall y :: y in s <==> y == x
  {
    if |s| == 1 && s[0] == x {
      assert s == [x];
    }
    if forall y :: y in s <==> y == x {
      assert x in s;
      if |s| > 1 {
        assert s[0] in s && s[1] in s && s[0] != s[1];
      }
    }
  }

  /** The place of the m-th of the service's publishers among the rows. */
  function RowOf(name: string, ps: seq<Publisher>, m: int): int {
    if 0 <= m < |OwnPlaces(name, ps)| then OwnPlaces(name, ps)[m] else -1
  }

  lemma RowsOf(name: string, ps: seq<Publisher>, c: int)
    ensures forall m :: Publishes(Own(name, ps), m, c) ==>
              var k := RowOf(name, ps, m); 0 <= k < |ps| && ps[k].service == name && ps[k].container == c
    ensures forall k :: 0 <= k < |ps| && ps[k].service == name ==>
              exists m :: 0 <= m < |Own(name, ps)| && RowOf(name, ps, m) == k
  {
    OwnIs(name, ps);
    forall m | Publishes(Own(name, ps), m, c)
      ensures var k := RowOf(name, ps, m); 0 <= k < |ps| && ps[k].service == name && ps[k].container == c
    {
      assert OwnPlaces(name, ps)[m] in OwnPlaces(name, ps);
    }
    forall k | 0 <= k < |ps| && ps[k].service == name
      ensures exists m :: 0 <= m < |Own(name, ps)| && RowOf(name, ps, m) == k
    {
      assert k in OwnPlaces(name, ps);
      var m :| 0 <= m < |OwnPlaces(name, ps)| && OwnPlaces(name, ps)[m] == k;
      assert RowOf(name, ps, m) == k;
    }
  }

  lemma RowsDiffer(name: string, ps: seq<Publisher>, m: int, n: int)
    requires 0 <= m < |Own(name, ps)| && 0 <= n < |Own(name, ps)| && RowOf(name, ps, m) == RowOf(name, ps, n)
    ensures m == n
  {
    OwnIs(name, ps);
  }

  lemma BindAlone(bs: seq<Binding>, i: int)
    requires Declared(bs, i)
    ensures |BindBin(bs, bs[i].container)| == 1 <==>
            forall j :: 0 <= j < |bs| && bs[j].hostPort != 0 && bs[j].container == bs[i].container ==> j == i
  {
    var c := bs[i].container;
    PlacesDistinct(|bs|, j => BindsTo(bs, j, c));
    OnlyElement(BindBin(bs, c), i);
    assert i in BindBin(bs, c);
    forall j ensures j in BindBin(bs, c) <==> 0 <= j < |bs| && bs[j].hostPort != 0 && bs[j].container == c {
    }
    if |BindBin(bs, c)| == 1 {
      assert BindBin(bs, c)[0] == i;
    }
  }

  lemma PubAlone(name: string, ps: seq<Publisher>, m: int, c: int)
    requires Publishes(Own(name, ps), m, c)
    ensures |PubBin(Own(name, ps), c)| == 1 <==>
            forall k :: 0 <= k < |ps| && ps[k].service == name && ps[k].container == c ==> k == RowOf(name, ps, m)
    ensures |PubBin(Own(name, ps), c)| == 1 ==> PubBin(Own(name, ps), c)[0] == m
  {
    var own := Own(name, ps);
    PlacesDistinct(|own|, n => Publishes(own, n, c));
    OnlyElement(PubBin(own, c), m);
    assert m in PubBin(own, c);
    OwnIs(name, ps);
    RowsOf(name, ps, c);
    if forall k :: 0 <= k < |ps| && ps[k].service == name && ps[k].container == c ==> k == RowOf(name, ps, m) {
      forall n ensures n in PubBin(own, c) <==> n == m {
        if n in PubBin(own, c) {
          assert Publishes(own, n, c);
          RowsDiffer(name, ps, n, m);
        }
      }
    }
    if |PubBin(own, c)| == 1 {
      assert PubBin(own, c)[0] == m;
      forall k | 0 <= k < |ps| && ps[k].service == name && ps[k].container == c ensures k == RowOf(name, ps, m) {
        var n :| 0 <= n < |own| && RowOf(name, ps, n) == k;
        assert Publishes(own, n, c);
        assert n in PubBin(own, c);
      }
    }
  }

  /** Settled in the sense of the pairing, which looks at the service's publishers only. */
  lemma SettlesIs(name: string, bs: seq<Binding>, ps: seq<Publisher>, i: int, m: int)
    requires Declared(bs, i) && 0 <= m < |Own(name, ps)|
    ensures Settles(name, bs, ps, i, RowOf(name, ps, m)) <==>
            Publishes(Own(name, ps), m, bs[i].container) && Clear(bs, Own(name, ps), bs[i].container)
  {
    var own, k := Own(name, ps), RowOf(name, ps, m);
    OwnIs(name, ps);
    assert k in OwnPlaces(name, ps);
    assert own[m] == ps[k];
    if own[m].container == bs[i].container {
      BindAlone(bs, i);
      PubAlone(name, ps, m, bs[i].container);
    }
  }

  lemma ClearHasBoth(bs: seq<Binding>, own: seq<Publisher>, c: int) returns (i: int, m: int)
    requires Clear(bs, own, c)
    ensures BindsTo(bs, i, c) && Publishes(own, m, c)
  {
    i, m := BindBin(bs, c)[0], PubBin(own, c)[0];
    assert i in BindBin(bs, c) && m in PubBin(own, c);
  }

  lemma LeftBindsAre(name: string, bs: seq<Binding>, ps: seq<Publisher>, i: int)
    ensures i in LeftBinds(name, bs, ps) <==> Loose(bs, Own(name, ps), i)
  {
    var own := Own(name, ps);
    if Declared(bs, i) {
      var c := bs[i].container;
      if Clear(bs, own, c) {
        var j, m := ClearHasBoth(bs, own, c);
        SettlesIs(name, bs, ps, i, m);
      }
      if k :| Settles(name, bs, ps, i, k) {
        RowsOf(name, ps, c);
        var m :| 0 <= m < |own| && RowOf(name, ps, m) == k;
        SettlesIs(name, bs, ps, i, m);
      }
    }
  }

  lemma LeftPubsAre(name: string, bs: seq<Binding>, ps: seq<Publisher>, m: int)
    requires 0 <= m < |Own(name, ps)|
    ensures RowOf(name, ps, m) in LeftPubs(name, bs, ps) <==> LoosePub(bs, Own(name, ps), m)
  {
    var own, k := Own(name, ps), RowOf(name, ps, m);
    OwnIs(name, ps);
    assert k in OwnPlaces(name, ps);
    var c := own[m].container;
    if Clear(bs, own, c) {
      var i, n := ClearHasBoth(bs, own, c);
      SettlesIs(name, bs, ps, i, m);
    }
    if i :| Settles(name, bs, ps, i, k) {
      SettlesIs(name, bs, ps, i, m);
    }
  }

  lemma CountLeftBinds(name: string, bs: seq<Binding>, ps: seq<Publisher>)
    ensures |LeftBinds(name, bs, ps)| == |LooseBinds(bs, Own(name, ps))|
  {
    var own := Own(name, ps);
    PlacesDistinct(|bs|, i => Loose(bs, own, i));
    CountDistinct(LooseBinds(bs, own));
    forall i ensures i in Elems(LooseBinds(bs, own)) <==> i in LeftBinds(name, bs, ps) {
      LeftBindsAre(name, bs, ps, i);
    }
    assert Elems(LooseBinds(bs, own)) == LeftBinds(name, bs, ps);
  }

  lemma LeftRow(name: string, bs: seq<Binding>, ps: seq<Publisher>, k: int) returns (m: int)
    requires k in LeftPubs(name, bs, ps)
    ensures LoosePub(bs, Own(name, ps), m) && RowOf(name, ps, m) == k
  {
    RowsOf(name, ps, 0);
    m :| 0 <= m < |Own(name, ps)| && RowOf(name, ps, m) == k;
    LeftPubsAre(name, bs, ps, m);
  }

  lemma CountLeftPubs(name: string, bs: seq<Binding>, ps: seq<Publisher>)
    ensures |LeftPubs(name, bs, ps)| == |LoosePubs(bs, Own(name, ps))|
  {
    var own := Own(name, ps);
    var loose := LoosePubs(bs, own);
    var rows := Map(m => RowOf(name, ps, m), loose);
    PlacesDistinct(|own|, k => LoosePub(bs, own, k));
    forall x, y | 0 <= x < y < |rows| ensures rows[x] != rows[y] {
      assert loose[x] in loose && loose[y] in loose;
      if rows[x] == rows[y] {
        RowsDiffer(name, ps, loose[x], loose[y]);
      }
    }
    CountDistinct(rows);
    forall k ensures k in Elems(rows) <==> k in LeftPubs(name, bs, ps) {
      if k in Elems(rows) {
        var x :| 0 <= x < |rows| && rows[x] == k;
        assert loose[x] in loose;
        LeftPubsAre(name, bs, ps, loose[x]);
      }
      if k in LeftPubs(name, bs, ps) {
        var m := LeftRow(name, bs, ps, k);
        assert m in loose;
        var x :| 0 <= x < |loose| && loose[x] == m;
        assert rows[x] == k;
      }
    }
    assert Elems(rows) == LeftPubs(name, bs, ps);
  }

  // ---------- the order of the rest ----------

  predicate NotAfter(bs: seq<Binding>, i: int, j: int) {
    HostPortAt(bs, i) < HostPortAt(bs, j) || (HostPortAt(bs, i) == HostPortAt(bs, j) && i <= j)
  }

  lemma {:induction false} PlacesBelow(n: nat, p: int -> bool)
    ensures forall x, y :: 0 <= x < y < |Places(n, p)| ==> Places(n, p)[x] < Places(n, p)[y]
  {
    if n > 0 {
      PlacesBelow(n - 1, p);
      var r := Places(n - 1, p);
      forall x | 0 <= x < |r| ensures r[x] < n - 1 {
        assert r[x] in r;
      }
    }
  }

  lemma BindsInOrder(bs: seq<Binding>, own: seq<Publisher>, x: nat, y: nat)
    requires x < y < |SortedBinds(bs, own)|
    ensures NotAfter(bs, SortedBinds(bs, own)[x], SortedBinds(bs, own)[y])
  {
    var lex := (i: int, j: int) => NotAfter(bs, i, j);
    PlacesBelow(|bs|, i => Loose(bs, own, i));
    SortIsStable((i, j) => BindLe(bs, i, j), lex, LooseBinds(bs, own));
    assert lex(SortedBinds(bs, own)[x], SortedBinds(bs, own)[y]);
  }

  lemma PubsInOrder(bs: seq<Binding>, own: seq<Publisher>, x: nat, y: nat)
    requires x <= y < |SortedPubs(bs, own)|
    ensures PortAt(own, SortedPubs(bs, own)[x]) <= PortAt(own, SortedPubs(bs, own)[y])
  {
    var sp := SortedPubs(bs, own);
    var ports := Map(k => PortAt(own, k), sp);
    assert Ascending(ports) by {
      PubsAscending(own, LoosePubs(bs, own));
    }
    assert ports[x] == PortAt(own, sp[x]) && ports[y] == PortAt(own, sp[y]);
  }

  lemma RestPlace(bs: seq<Binding>, own: seq<Publisher>, i: int) returns (x: nat)
    requires i in SortedPairs(bs, own)
    ensures x < |SortedBinds(bs, own)| == |SortedPubs(bs, own)|
    ensures SortedBinds(bs, own)[x] == i && SortedPairs(bs, own)[i] == SortedPubs(bs, own)[x]
  {
    LooseParts(bs, own);
    ZipAt(SortedBinds(bs, own), SortedPubs(bs, own));
    x :| 0 <= x < |SortedBinds(bs, own)| && SortedBinds(bs, own)[x] == i;
  }

  lemma RestInOrder(bs: seq<Binding>, own: seq<Publisher>, i: int, j: int)
    requires i in SortedPairs(bs, own) && j in SortedPairs(bs, own) && Precedes(bs, i, j)
    ensures PortAt(own, SortedPairs(bs, own)[i]) <= PortAt(own, SortedPairs(bs, own)[j])
  {
    var x := RestPlace(bs, own, i);
    var y := RestPlace(bs, own, j);
    if y < x {
      BindsInOrder(bs, own, y, x);
    }
    PubsInOrder(bs, own, x, y);
  }

  // ---------- the pairing resolves ----------

  lemma SettledPort(name: string, bs: seq<Binding>, ps: seq<Publisher>, i: int, k: int)
    requires Settles(name, bs, ps, i, k)
    ensures i in Resolved(name, bs, ps) && Resolved(name, bs, ps)[i] == ps[k].publishedPort
  {
    var own, c := Own(name, ps), bs[i].container;
    RowsOf(name, ps, c);
    var m :| 0 <= m < |own| && RowOf(name, ps, m) == k;
    SettlesIs(name, bs, ps, i, m);
    PubAlone(name, ps, m, c);
    SortedPairsAre(bs, own);
    OwnIs(name, ps);
    assert own[m] == ps[k];
  }

  lemma LeftPort(name: string, bs: seq<Binding>, ps: seq<Publisher>, i: int)
    requires i in LeftBinds(name, bs, ps)
    ensures var own := Own(name, ps);
            if |LeftBinds(name, bs, ps)| == |LeftPubs(name, bs, ps)| then
              i in SortedPairs(bs, own) && i in Resolved(name, bs, ps) &&
              Resolved(name, bs, ps)[i] == PortAt(own, SortedPairs(bs, own)[i])
            else i !in Resolved(name, bs, ps)
  {
    var own := Own(name, ps);
    LeftBindsAre(name, bs, ps, i);
    CountLeftBinds(name, bs, ps);
    CountLeftPubs(name, bs, ps);
    LooseParts(bs, own);
    if |LooseBinds(bs, own)| == |LoosePubs(bs, own)| {
      assert i in LooseBinds(bs, own);
      ZipAt(SortedBinds(bs, own), SortedPubs(bs, own));
    }
  }

  lemma ZipCovers(a: seq<int>, b: seq<int>, k: int)
    requires |a| == |b| && Distinct(a) && k in b
    ensures exists i :: i in Zip(a, b) && Zip(a, b)[i] == k
  {
    ZipAt(a, b);
    var n :| 0 <= n < |b| && b[n] == k;
    assert a[n] in Zip(a, b) && Zip(a, b)[a[n]] == k;
  }

  ghost function RestPairs(name: string, bs: seq<Binding>, ps: seq<Publisher>): map<int, int> {
    map i | i in SortedPairs(bs, Own(name, ps)) :: RowOf(name, ps, SortedPairs(bs, Own(name, ps))[i])
  }

  lemma RestPair(name: string, bs: seq<Binding>, ps: seq<Publisher>, i: int)
    requires i in SortedPairs(bs, Own(name, ps)) && i in LeftBinds(name, bs, ps)
    requires |LeftBinds(name, bs, ps)| == |LeftPubs(name, bs, ps)|
    ensures var k := RowOf(name, ps, SortedPairs(bs, Own(name, ps))[i]);
            k in LeftPubs(name, bs, ps) && i in Resolved(name, bs, ps) &&
            Resolved(name, bs, ps)[i] == ps[k].publishedPort
  {
    var own := Own(name, ps);
    SortedPairsAre(bs, own);
    LeftPort(name, bs, ps, i);
    var m := SortedPairs(bs, own)[i];
    LeftPubsAre(name, bs, ps, m);
    OwnIs(name, ps);
  }

  lemma RowTaken(name: string, bs: seq<Binding>, ps: seq<Publisher>, k: int)
    requires k in LeftPubs(name, bs, ps) && |LeftBinds(name, bs, ps)| == |LeftPubs(name, bs, ps)|
    ensures k in RestPairs(name, bs, ps).Values
  {
    var own, pairs := Own(name, ps), RestPairs(name, bs, ps);
    var m := LeftRow(name, bs, ps, k);
    CountLeftBinds(name, bs, ps);
    CountLeftPubs(name, bs, ps);
    LooseParts(bs, own);
    ZipCovers(SortedBinds(bs, own), SortedPubs(bs, own), m);
    var i :| i in SortedPairs(bs, own) && SortedPairs(bs, own)[i] == m;
    assert i in pairs && pairs[i] == k;
  }

  lemma RestKeys(name: string, bs: seq<Binding>, ps: seq<Publisher>)
    requires |LeftBinds(name, bs, ps)| == |LeftPubs(name, bs, ps)|
    ensures RestPairs(name, bs, ps).Keys == LeftBinds(name, bs, ps)
  {
    SortedPairsAre(bs, Own(name, ps));
    forall i ensures i in RestPairs(name, bs, ps) <==> i in LeftBinds(name, bs, ps) {
      LeftBindsAre(name, bs, ps, i);
      if i in LeftBinds(name, bs, ps) {
        LeftPort(name, bs, ps, i);
      }
    }
  }

  lemma RestDiffer(name: string, bs: seq<Binding>, ps: seq<Publisher>, i: int, j: int)
    requires var pairs := RestPairs(name, bs, ps); i in pairs && j in pairs && pairs[i] == pairs[j]
    ensures i == j
  {
    SortedPairsAre(bs, Own(name, ps));
    RowsDiffer(name, ps, SortedPairs(bs, Own(name, ps))[i], SortedPairs(bs, Own(name, ps))[j]);
  }

  lemma RestIsOneToOne(name: string, bs: seq<Binding>, ps: seq<Publisher>)
    requires |LeftBinds(name, bs, ps)| == |LeftPubs(name, bs, ps)|
    ensures OneToOne(name, bs, ps, Resolved(name, bs, ps), RestPairs(name, bs, ps))
  {
    var pairs := RestPairs(name, bs, ps);
    RestKeys(name, bs, ps);
    forall i | i in pairs
      ensures pairs[i] in LeftPubs(name, bs, ps) && i in Resolved(name, bs, ps) &&
              Resolved(name, bs, ps)[i] == ps[pairs[i]].publishedPort
    {
      RestPair(name, bs, ps, i);
    }
    assert pairs.Values == LeftPubs(name, bs, ps) by {
      forall k | k in LeftPubs(name, bs, ps) {
        RowTaken(name, bs, ps, k);
      }
    }
    forall i, j | i in pairs && j in pairs && pairs[i] == pairs[j] ensures i == j {
      RestDiffer(name, bs, ps, i, j);
    }
  }

  lemma ResolvedResolves(name: string, bs: seq<Binding>, ps: seq<Publisher>)
    ensures ResolvesPorts(name, bs, ps, Resolved(name, bs, ps))
  {
    var own, left := Own(name, ps), LeftBinds(name, bs, ps);
    PairingIsInjective(bs, own);
    forall i, k | Settles(name, bs, ps, i, k)
      ensures i in Resolved(name, bs, ps) && Resolved(name, bs, ps)[i] == ps[k].publishedPort
    {
      SettledPort(name, bs, ps, i, k);
    }
    forall i | i in left {
      LeftPort(name, bs, ps, i);
    }
    if |left| == |LeftPubs(name, bs, ps)| {
      RestIsOneToOne(name, bs, ps);
      forall i, j | i in left && j in left && Precedes(bs, i, j)
        ensures i in Resolved(name, bs, ps) && j in Resolved(name, bs, ps) &&
                Resolved(name, bs, ps)[i] <= Resolved(name, bs, ps)[j]
      {
        RestInOrder(bs, own, i, j);
      }
    }
  }
}
