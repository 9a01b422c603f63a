/** Filling the bins and matching ports as the inspection of a running stack does it. */
module PortMatching {
  import opened Sorting
  import opened ComposeInspect
  import opened PortPairing
  import opened PortResolution

  /** What a Go map of slices answers. */
  function Bin(bins: map<int, seq<int>>, c: int): seq<int> {
    if c in bins then bins[c] else []
  }

  method OwnPublishers(name: string, ps: seq<Publisher>) returns (own: seq<Publisher>)
    ensures own == Own(name, ps)
  {
    own := [];
    for i := 0 to |ps|
      invariant own == Own(name, ps[..i])
    {
      assert ps[..i + 1][..i] == ps[..i];
      if ps[i].service == name {
        own := own + [ps[i]];
      }
    }
    assert ps[..|ps|] == ps;
  }

  function BindBinUpTo(bs: seq<Binding>, n: nat, c: int): seq<int> { Places(n, i => BindsTo(bs, i, c)) }

  function PubBinUpTo(own: seq<Publisher>, n: nat, c: int): seq<int> { Places(n, k => Publishes(own, k, c)) }

  lemma BindBinStep(bs: seq<Binding>, n: nat, c: int)
    ensures BindBinUpTo(bs, n + 1, c) == BindBinUpTo(bs, n, c) + if BindsTo(bs, n, c) then [n] else []
  {
  }

  lemma PubBinStep(own: seq<Publisher>, n: nat, c: int)
    ensures PubBinUpTo(own, n + 1, c) == PubBinUpTo(own, n, c) + if Publishes(own, n, c) then [n] else []
  {
  }

  ghost predicate BindBins(bins: map<int, seq<int>>, bs: seq<Binding>, n: nat) {
    forall c :: Bin(bins, c) == BindBinUpTo(bs, n, c)
  }

  ghost predicate PubBins(bins: map<int, seq<int>>, own: seq<Publisher>, n: nat) {
    forall c :: Bin(bins, c) == PubBinUpTo(own, n, c)
  }

  lemma BindBinsGrow(bins: map<int, seq<int>>, bs: seq<Binding>, n: nat)
    requires n < |bs| && BindBins(bins, bs, n)
    ensures BindBins(if bs[n].hostPort == 0 then bins
                     else bins[bs[n].container := Bin(bins, bs[n].container) + [n]], bs, n + 1)
  {
    var after := if bs[n].hostPort == 0 then bins else bins[bs[n].container := Bin(bins, bs[n].container) + [n]];
    forall c ensures Bin(after, c) == BindBinUpTo(bs, n + 1, c) {
      BindBinStep(bs, n, c);
      assert Bin(bins, c) == BindBinUpTo(bs, n, c);
    }
  }

  lemma PubBinsGrow(bins: map<int, seq<int>>, own: seq<Publisher>, n: nat)
    requires n < |own| && PubBins(bins, own, n)
    ensures PubBins(bins[own[n].container := Bin(bins, own[n].container) + [n]], own, n + 1)
  {
    var after := bins[own[n].container := Bin(bins, own[n].container) + [n]];
    forall c ensures Bin(after, c) == PubBinUpTo(own, n + 1, c) {
      PubBinStep(own, n, c);
      assert Bin(bins, c) == PubBinUpTo(own, n, c);
    }
  }

  method BinBindings(bs: seq<Binding>) returns (bins: map<int, seq<int>>)
    ensures BindBins(bins, bs, |bs|)
  {
    bins := map[];
    for i := 0 to |bs|
      invariant BindBins(bins, bs, i)
    {
      BindBinsGrow(bins, bs, i);
      if bs[i].hostPort == 0 {
        continue;
      }
      bins := bins[bs[i].container := Bin(bins, bs[i].container) + [i]];
    }
  }

  method BinPublishers(own: seq<Publisher>) returns (bins: map<int, seq<int>>)
    ensures PubBins(bins, own, |own|)
  {
    bins := map[];
    for i := 0 to |own|
      invariant PubBins(bins, own, i)
    {
      PubBinsGrow(bins, own, i);
      bins := bins[own[i].container := Bin(bins, own[i].container) + [i]];
    }
  }

  /** Bindings and publishers settled by the containers looked at so far. */
  predicate SettledBind(bs: seq<Binding>, own: seq<Publisher>, done: set<int>, i: int) {
    Declared(bs, i) && bs[i].container in done && Clear(bs, own, bs[i].container)
  }

  predicate SettledPub(bs: seq<Binding>, own: seq<Publisher>, done: set<int>, k: int) {
    0 <= k < |own| && own[k].container in done && Clear(bs, own, own[k].container)
  }

  ghost predicate Settled(bs: seq<Binding>, own: seq<Publisher>, done: set<int>, out: map<int, int>, pubs: set<int>) {
    && (forall i :: i in out <==> SettledBind(bs, own, done, i))
    && (forall k :: k in pubs <==> SettledPub(bs, own, done, k))
    && (forall i :: i in out ==> out[i] == PortAt(own, PubBin(own, bs[i].container)[0]))
  }

  lemma OnlyBind(bs: seq<Binding>, own: seq<Publisher>, c: int, j: int)
    requires Clear(bs, own, c)
    ensures BindsTo(bs, j, c) <==> j == BindBin(bs, c)[0]
    ensures Publishes(own, j, c) <==> j == PubBin(own, c)[0]
  {
    assert j in BindBin(bs, c) <==> BindsTo(bs, j, c);
    assert j in PubBin(own, c) <==> Publishes(own, j, c);
  }

  lemma SettleClear(bs: seq<Binding>, own: seq<Publisher>, done: set<int>, out: map<int, int>, pubs: set<int>, c: int)
    requires Settled(bs, own, done, out, pubs) && Clear(bs, own, c)
    ensures var i, k := BindBin(bs, c)[0], PubBin(own, c)[0];
            Settled(bs, own, done + {c}, out[i := PortAt(own, k)], pubs + {k})
  {
    var i, k := BindBin(bs, c)[0], PubBin(own, c)[0];
    forall j ensures SettledBind(bs, own, done + {c}, j) <==> SettledBind(bs, own, done, j) || j == i {
      OnlyBind(bs, own, c, j);
    }
    forall j ensures SettledPub(bs, own, done + {c}, j) <==> SettledPub(bs, own, done, j) || j == k {
      OnlyBind(bs, own, c, j);
    }
    OnlyBind(bs, own, c, i);
  }

  lemma SettleUnclear(bs: seq<Binding>, own: seq<Publisher>, done: set<int>, out: map<int, int>, pubs: set<int>, c: int)
    requires Settled(bs, own, done, out, pubs) && !Clear(bs, own, c)
    ensures Settled(bs, own, done + {c}, out, pubs)
  {
    forall j ensures SettledBind(bs, own, done + {c}, j) <==> SettledBind(bs, own, done, j) {
    }
    forall j ensures SettledPub(bs, own, done + {c}, j) <==> SettledPub(bs, own, done, j) {
    }
  }

  lemma AllSettled(bs: seq<Binding>, own: seq<Publisher>, done: set<int>, out: map<int, int>, pubs: set<int>)
    requires Settled(bs, own, done, out, pubs) && forall c :: Clear(bs, own, c) ==> c in done
    ensures out == PortsOf(own, DirectPairs(bs, own))
    ensures forall k :: k in pubs <==> 0 <= k < |own| && Clear(bs, own, own[k].container)
    ensures forall i :: i in out <==> Declared(bs, i) && Clear(bs, own, bs[i].container)
  {
    forall i ensures i in out <==> i in DirectPairs(bs, own) {
      assert i in out <==> SettledBind(bs, own, done, i);
    }
    forall k ensures k in pubs <==> 0 <= k < |own| && Clear(bs, own, own[k].container) {
      assert k in pubs <==> SettledPub(bs, own, done, k);
    }
  }

  /** One container: its pair, if it has one binding and one publisher. */
  method MatchContainer(bs: seq<Binding>, own: seq<Publisher>, bIdxs: seq<int>, pIdxs: seq<int>, out0: map<int, int>,
                        binds0: set<int>, pubs0: set<int>, ghost done: set<int>, ghost c: int)
    returns (out: map<int, int>, binds: set<int>, pubs: set<int>)
    requires Settled(bs, own, done, out0, pubs0) && binds0 == out0.Keys
    requires bIdxs == BindBin(bs, c) && pIdxs == PubBin(own, c)
    ensures Settled(bs, own, done + {c}, out, pubs) && binds == out.Keys
  {
    out, binds, pubs := out0, binds0, pubs0;
    if |bIdxs| == 1 && |pIdxs| == 1 {
      SettleClear(bs, own, done, out, pubs, c);
      assert pIdxs[0] in PubBin(own, c);
      out := out[bIdxs[0] := own[pIdxs[0]].publishedPort];
      binds := binds + {bIdxs[0]};
      pubs := pubs + {pIdxs[0]};
    } else {
      SettleUnclear(bs, own, done, out, pubs, c);
    }
  }

  lemma SomeElement(s: set<int>)
    requires s != {}
    ensures exists c :: c in s
  {
    if forall c :: c !in s {
      assert false;
    }
  }

  lemma BinsAt(bindBins: map<int, seq<int>>, pubBins: map<int, seq<int>>, bs: seq<Binding>, own: seq<Publisher>, c: int)
    requires BindBins(bindBins, bs, |bs|) && PubBins(pubBins, own, |own|)
    ensures Bin(bindBins, c) == BindBin(bs, c) && Bin(pubBins, c) == PubBin(own, c)
    ensures Clear(bs, own, c) ==> c in bindBins
  {
    assert Bin(bindBins, c) == BindBinUpTo(bs, |bs|, c) == BindBin(bs, c);
    assert Bin(pubBins, c) == PubBinUpTo(own, |own|, c) == PubBin(own, c);
  }

  /** The first step: pairs settled by their container port, the containers coming in any order. */
  method MatchContainers(bs: seq<Binding>, own: seq<Publisher>)
    returns (out: map<int, int>, binds: set<int>, pubs: set<int>)
    ensures out == PortsOf(own, DirectPairs(bs, own))
    ensures forall i :: i in binds <==> Declared(bs, i) && Clear(bs, own, bs[i].container)
    ensures forall k :: k in pubs <==> 0 <= k < |own| && Clear(bs, own, own[k].container)
  {
    var bindBins := BinBindings(bs);
    var pubBins := BinPublishers(own);
    out, binds, pubs := map[], {}, {};
    var rest := bindBins.Keys;
    ghost var done := {};
    while rest != {}
      invariant Settled(bs, own, done, out, pubs) && binds == out.Keys && bindBins.Keys <= done + rest
      decreases rest
    {
      SomeElement(rest);
      var container :| container in rest;
      BinsAt(bindBins, pubBins, bs, own, container);
      out, binds, pubs := MatchContainer(bs, own, Bin(bindBins, container), Bin(pubBins, container), out, binds, pubs,
                                         done, container);
      rest := rest - {container};
      done := done + {container};
    }
    forall c | Clear(bs, own, c) ensures c in done {
      BinsAt(bindBins, pubBins, bs, own, c);
    }
    AllSettled(bs, own, done, out, pubs);
  }

  function LooseBindsUpTo(bs: seq<Binding>, own: seq<Publisher>, n: nat): seq<int> { Places(n, i => Loose(bs, own, i)) }

  lemma LooseBindsStep(bs: seq<Binding>, own: seq<Publisher>, n: nat)
    ensures LooseBindsUpTo(bs, own, n + 1) == LooseBindsUpTo(bs, own, n) + if Loose(bs, own, n) then [n] else []
  {
  }

  /** The places that are not matched, in order. */
  method UnmatchedBinds(bs: seq<Binding>, own: seq<Publisher>, binds: set<int>) returns (loose: seq<int>)
    requires forall i :: i in binds <==> Declared(bs, i) && Clear(bs, own, bs[i].container)
    ensures loose == LooseBinds(bs, own)
  {
    loose := [];
    for i := 0 to |bs|
      invariant loose == LooseBindsUpTo(bs, own, i)
    {
      LooseBindsStep(bs, own, i);
      if bs[i].hostPort == 0 || i in binds {
        continue;
      }
      loose := loose + [i];
    }
  }

  function LoosePubsUpTo(bs: seq<Binding>, own: seq<Publisher>, n: nat): seq<int> {
    Places(n, k => LoosePub(bs, own, k))
  }

  lemma LoosePubsStep(bs: seq<Binding>, own: seq<Publisher>, n: nat)
    ensures LoosePubsUpTo(bs, own, n + 1) == LoosePubsUpTo(bs, own, n) + if LoosePub(bs, own, n) then [n] else []
  {
  }

  method UnmatchedPubs(bs: seq<Binding>, own: seq<Publisher>, pubs: set<int>) returns (loose: seq<int>)
    requires forall k :: k in pubs <==> 0 <= k < |own| && Clear(bs, own, own[k].container)
    ensures loose == LoosePubs(bs, own)
  {
    loose := [];
    for i := 0 to |own|
      invariant loose == LoosePubsUpTo(bs, own, i)
    {
      LoosePubsStep(bs, own, i);
      if i in pubs {
        continue;
      }
      loose := loose + [i];
    }
  }

  lemma ZipStep(own: seq<Publisher>, direct: map<int, int>, a: seq<int>, b: seq<int>, n: nat)
    requires |a| == |b| && n < |a|
    ensures PortsOf(own, direct + Zip(a[..n + 1], b[..n + 1])) ==
            PortsOf(own, direct + Zip(a[..n], b[..n]))[a[n] := PortAt(own, b[n])]
  {
    assert a[..n + 1][..n] == a[..n] && b[..n + 1][..n] == b[..n];
  }

  /** The second step: the n-th loose binding gets the n-th loose publisher's port. */
  method PairInOrder(own: seq<Publisher>, out0: map<int, int>, binds: seq<int>, pubs: seq<int>,
                     ghost direct: map<int, int>)
    returns (out: map<int, int>)
    requires |binds| == |pubs| && (forall k :: k in pubs ==> 0 <= k < |own|) && out0 == PortsOf(own, direct)
    ensures out == PortsOf(own, direct + Zip(binds, pubs))
  {
    out := out0;
    assert direct + Zip(binds[..0], pubs[..0]) == direct;
    for k := 0 to |binds|
      invariant out == PortsOf(own, direct + Zip(binds[..k], pubs[..k]))
    {
      ZipStep(own, direct, binds, pubs, k);
      assert pubs[k] in pubs;
      out := out[binds[k] := own[pubs[k]].publishedPort];
    }
    assert binds[..|binds|] == binds && pubs[..|binds|] == pubs;
  }

  /** resolvedPortsForService: the result is the pairing's, whatever order the maps come in, and what
      the pairing is for. */
  method ResolvedPortsForService(name: string, bs: seq<Binding>, ps: seq<Publisher>) returns (out: map<int, int>)
    ensures out == Resolved(name, bs, ps) && ResolvesPorts(name, bs, ps, out)
  {
    ResolvedResolves(name, bs, ps);
    if bs == [] {
      return map[];
    }
    var own := OwnPublishers(name, ps);
    if own == [] {
      NobodyPublishes(bs);
      return map[];
    }
    out := MatchOwn(bs, own);
  }

  method MatchOwn(bs: seq<Binding>, own: seq<Publisher>) returns (out: map<int, int>)
    ensures out == PortsOf(own, Pairing(bs, own))
  {
    var binds, pubs;
    out, binds, pubs := MatchContainers(bs, own);
    var looseBinds := UnmatchedBinds(bs, own, binds);
    var loosePubs := UnmatchedPubs(bs, own, pubs);
    ghost var direct := DirectPairs(bs, own);
    if looseBinds == [] || |looseBinds| != |loosePubs| {
      assert direct + map[] == direct;
      return;
    }
    looseBinds := StableSort((i, j) => BindLe(bs, i, j), looseBinds);
    loosePubs := StableSort((i, j) => PubLe(own, i, j), loosePubs);
    LooseParts(bs, own);
    out := PairInOrder(own, out, looseBinds, loosePubs, direct);
  }

  lemma NobodyPublishes(bs: seq<Binding>)
    ensures Pairing(bs, []) == map[]
  {
    forall c ensures !Clear(bs, [], c) {
      assert PubBin([], c) == [];
    }
    assert DirectPairs(bs, []) == map[];
    assert LoosePubs(bs, []) == [];
  }
}
