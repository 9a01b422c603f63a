/** Writing, keeping and removing the override file, and what the merged compose files say. */
module OverrideFile {
  import opened Seqs
  import opened Wrappers
  import opened ComposeInspect
  import opened PortWalk
  import opened PortPairing
  import opened PortResolution
  import opened PortMatching
  import opened ComposeOverride

  /** The file's `ports:` lists; each replaces the service's list in the base file. None stands
      for no file. */
  type OnDisk = Option<map<string, seq<Binding>>>

  function MergedService(svc: Service, file: OnDisk): Service {
    if file.Some? && svc.name in file.value then Service(svc.name, file.value[svc.name]) else svc
  }

  /** What docker compose makes of the base file and the override. */
  function Merged(services: seq<Service>, file: OnDisk): seq<Service> {
    Map((svc: Service) => MergedService(svc, file), services)
  }

  function Emission(updated: seq<Service>, affected: set<string>): map<string, seq<Binding>> {
    if updated == [] then map[]
    else
      var svc := updated[|updated| - 1];
      var before := Emission(updated[..|updated| - 1], affected);
      if svc.name in affected then before[svc.name := svc.ports] else before
  }

  method WriteComposeOverride(file0: OnDisk, services: seq<Service>, affected: set<string>) returns (file: OnDisk)
    ensures file == if affected == {} then file0 else Some(Emission(services, affected))
  {
    if affected == {} {
      return file0;
    }
    var out: map<string, seq<Binding>> := map[];
    for i := 0 to |services|
      invariant out == Emission(services[..i], affected)
    {
      assert services[..i + 1][..i] == services[..i];
      if services[i].name !in affected {
        continue;
      }
      out := out[services[i].name := services[i].ports];
    }
    assert services[..|services|] == services;
    return Some(out);
  }

  /** A running service with a declared port that no publisher could be found for. */
  predicate Unmatched(svc: Service, ps: seq<Publisher>) {
    svc.name in RunningSet(ps) && Missing(svc.ports, Resolved(svc.name, svc.ports, ps))
  }

  predicate Missing(bs: seq<Binding>, found: map<int, int>) {
    exists j :: 0 <= j < |bs| && bs[j].hostPort != 0 && j !in found
  }

  function UnmatchedNames(services: seq<Service>, ps: seq<Publisher>): seq<string> {
    if services == [] then []
    else
      UnmatchedNames(services[..|services| - 1], ps) +
      if Unmatched(services[|services| - 1], ps) then [services[|services| - 1].name] else []
  }

  /** A service is warned about if it runs and has a declared binding that no container port settles while
      the numbers of bindings and publishers left do not agree. */
  lemma UnmatchedIs(svc: Service, ps: seq<Publisher>)
    ensures Unmatched(svc, ps) <==>
            && (exists k :: 0 <= k < |ps| && ps[k].service == svc.name)
            && LeftBinds(svc.name, svc.ports, ps) != {}
            && |LeftBinds(svc.name, svc.ports, ps)| != |LeftPubs(svc.name, svc.ports, ps)|
  {
    var found, left := Resolved(svc.name, svc.ports, ps), LeftBinds(svc.name, svc.ports, ps);
    if k :| 0 <= k < |ps| && ps[k].service == svc.name {
      assert ps[k] in ps;
    }
    forall j | j in left {
      LeftPort(svc.name, svc.ports, ps, j);
    }
    forall j | 0 <= j < |svc.ports| && svc.ports[j].hostPort != 0 && j !in left ensures j in found {
      var k :| Settles(svc.name, svc.ports, ps, j, k);
      SettledPort(svc.name, svc.ports, ps, j, k);
    }
  }

  lemma {:induction false} UnmatchedAre(services: seq<Service>, ps: seq<Publisher>)
    ensures UnmatchedNames(services, ps) ==
            Map((svc: Service) => svc.name, Filter(services, (svc: Service) => Unmatched(svc, ps)))
  {
    if services != [] {
      var init, last := services[..|services| - 1], services[|services| - 1];
      UnmatchedAre(init, ps);
      MapConcat((svc: Service) => svc.name, Filter(init, (svc: Service) => Unmatched(svc, ps)),
                if Unmatched(last, ps) then [last] else []);
    }
  }

  method AnyMissing(bs: seq<Binding>, found: map<int, int>) returns (r: bool)
    ensures r == Missing(bs, found)
  {
    for j := 0 to |bs|
      invariant forall k :: 0 <= k < j ==> bs[k].hostPort == 0 || k in found
    {
      if bs[j].hostPort == 0 {
        continue;
      }
      if j !in found {
        return true;
      }
    }
    return false;
  }

  method UnmatchedRunningServices(services: seq<Service>, ps: seq<Publisher>) returns (out: seq<string>)
    ensures out == UnmatchedNames(services, ps)
  {
    var running := RunningSet(ps);
    out := [];
    for i := 0 to |services|
      invariant out == UnmatchedNames(services[..i], ps)
    {
      assert services[..i + 1][..i] == services[..i];
      if services[i].name !in running {
        continue;
      }
      var resolved := ResolvedPortsForService(services[i].name, services[i].ports, ps);
      var bad := AnyMissing(services[i].ports, resolved);
      if bad {
        out := out + [services[i].name];
      }
    }
    assert services[..|services|] == services;
  }

  function Affected(combined: seq<Shift>): set<string> { set s | s in combined :: s.service }

  /** What manageComposeOverride leaves on disk. */
  function Managed(file: OnDisk, services: seq<Service>, ps: seq<Publisher>, combined: seq<Shift>,
                   walked: map<string, Service>): OnDisk {
    if combined != [] then Some(Emission(OverrideOf(services, ps, walked), Affected(combined)))
    else if UnmatchedNames(services, ps) != [] then file
    else None
  }

  method ManageComposeOverride(file0: OnDisk, services: seq<Service>, ps: seq<Publisher>, combined: seq<Shift>,
                               walked: map<string, Service>)
    returns (file: OnDisk, warn: seq<string>)
    ensures file == Managed(file0, services, ps, combined, walked)
    ensures warn == if combined == [] then UnmatchedNames(services, ps) else []
  {
    if |combined| > 0 {
      var updated := OverrideServices(services, ps, walked);
      assert combined[0] in combined && combined[0].service in Affected(combined);
      file := WriteComposeOverride(file0, updated, Affected(combined));
      return file, [];
    }
    var unmatched := UnmatchedRunningServices(services, ps);
    if |unmatched| > 0 {
      return file0, unmatched;
    }
    return None, [];
  }

  // ---------- the merged files say what the override list says ----------

  lemma {:induction false} EmissionFinds(updated: seq<Service>, affected: set<string>)
    requires UniqueServices(updated)
    ensures forall i :: 0 <= i < |updated| ==>
              (updated[i].name in Emission(updated, affected) <==> updated[i].name in affected)
    ensures forall i :: 0 <= i < |updated| && updated[i].name in affected ==>
              Emission(updated, affected)[updated[i].name] == updated[i].ports
    ensures forall n :: n in Emission(updated, affected) ==> exists i :: 0 <= i < |updated| && updated[i].name == n
  {
    if updated != [] {
      EmissionFinds(updated[..|updated| - 1], affected);
      forall n | n in Emission(updated, affected) ensures exists i :: 0 <= i < |updated| && updated[i].name == n {
        if n == updated[|updated| - 1].name {
          assert updated[|updated| - 1].name == n;
        } else {
          var i :| 0 <= i < |updated| - 1 && updated[..|updated| - 1][i].name == n;
          assert updated[i].name == n;
        }
      }
    }
  }

  /** A service without shifts has the declared ports, one with shifts has others. */
  lemma {:induction false} NoShiftNoChange(name: string, before: seq<Binding>, after: seq<Binding>)
    requires |before| == |after| && forall j :: 0 <= j < |before| ==>
      after[j] == before[j].(hostPort := after[j].hostPort)
    ensures Moves(name, before, after) == [] <==> before == after
    ensures forall s :: s in Moves(name, before, after) ==> s.service == name
  {
    if before != [] {
      var n := |before| - 1;
      NoShiftNoChange(name, before[..n], after[..n]);
      assert before == before[..n] + [before[n]] && after == after[..n] + [after[n]];
    }
  }

  /** A service is named in the shift list if and only if its ports differ. */
  lemma {:induction false} NamedIfMoved(before: seq<Service>, after: seq<Service>, i: nat)
    requires SameShape(before, after) && UniqueServices(before) && i < |before|
    requires forall k, j :: 0 <= k < |before| && 0 <= j < |before[k].ports| ==>
               after[k].ports[j] == before[k].ports[j].(hostPort := after[k].ports[j].hostPort)
    ensures (exists s :: s in AllMoves(before, after) && s.service == before[i].name) <==>
      before[i].ports != after[i].ports
    ensures forall s :: s in AllMoves(before, after) ==> exists k :: 0 <= k < |before| && s.service == before[k].name
  {
    var n := |before| - 1;
    var init, initAfter := before[..n], after[..n];
    var last := Moves(before[n].name, before[n].ports, after[n].ports);
    NoShiftNoChange(before[n].name, before[n].ports, after[n].ports);
    if n > 0 {
      NamedIfMoved(init, initAfter, if i < n then i else 0);
    }
    assert forall s :: s in AllMoves(before, after) <==> s in AllMoves(init, initAfter) || s in last;
    forall s | s in AllMoves(init, initAfter) ensures exists k :: 0 <= k < n && s.service == before[k].name {
      var k :| 0 <= k < |init| && s.service == init[k].name;
    }
    if i == n && before[n].ports != after[n].ports {
      assert last[0] in last;
    }
  }

  ghost predicate PortsOnly(before: seq<Service>, after: seq<Service>) {
    SameShape(before, after) &&
    forall k, j :: 0 <= k < |before| && 0 <= j < |before[k].ports| ==>
      after[k].ports[j] == before[k].ports[j].(hostPort := after[k].ports[j].hostPort)
  }

  lemma OverridePortsOnly(services: seq<Service>, ps: seq<Publisher>, walked: map<string, Service>)
    requires WalkedOk(services, walked)
    ensures PortsOnly(services, OverrideOf(services, ps, walked))
  {
    OverrideShape(services, ps, walked);
    forall k | 0 <= k < |services| {
      OverriddenShape(services[k], ps, walked);
    }
  }

  lemma SameMembers(a: seq<Shift>, b: seq<Shift>, s: Shift)
    requires multiset(a) == multiset(b)
    ensures s in a <==> s in b
  {
    assert s in a <==> s in multiset(a);
    assert s in b <==> s in multiset(b);
  }

  /** The shift list names a service if and only if its ports in the override are not the declared. */
  lemma AffectedIfMoved(services: seq<Service>, over: seq<Service>, combined: seq<Shift>, i: nat)
    requires PortsOnly(services, over) && UniqueServices(services) && i < |services|
    requires multiset(combined) == multiset(AllMoves(services, over))
    ensures services[i].name in Affected(combined) <==> services[i] != over[i]
  {
    NamedIfMoved(services, over, i);
    forall s ensures s in combined <==> s in AllMoves(services, over) {
      SameMembers(combined, AllMoves(services, over), s);
    }
    assert services[i].ports == over[i].ports ==> services[i] == over[i];
  }

  lemma EmittedOverride(services: seq<Service>, over: seq<Service>, combined: seq<Shift>)
    requires PortsOnly(services, over) && UniqueServices(services)
    requires multiset(combined) == multiset(AllMoves(services, over))
    ensures Merged(services, Some(Emission(over, Affected(combined)))) == over
  {
    assert UniqueServices(over);
    EmissionFinds(over, Affected(combined));
    forall i | 0 <= i < |services|
      ensures MergedService(services[i], Some(Emission(over, Affected(combined)))) == over[i]
    {
      AffectedIfMoved(services, over, combined, i);
      assert over[i].name == services[i].name;
    }
  }

  lemma NothingMoved(services: seq<Service>, over: seq<Service>)
    requires PortsOnly(services, over) && UniqueServices(services) && AllMoves(services, over) == []
    ensures over == services
  {
    forall i | 0 <= i < |services| ensures over[i] == services[i] {
      AffectedIfMoved(services, over, [], i);
    }
  }

  /** The file gives every service it names the ports that are declared anyway. */
  predicate Harmless(services: seq<Service>, file: OnDisk) {
    file.Some? ==> forall i :: 0 <= i < |services| && services[i].name in file.value ==>
      file.value[services[i].name] == services[i].ports
  }

  lemma MergeHarmless(services: seq<Service>, file: OnDisk)
    ensures Merged(services, file) == services <==> Harmless(services, file)
  {
    var merged := Merged(services, file);
    if merged == services && file.Some? {
      forall i | 0 <= i < |services| && services[i].name in file.value
        ensures file.value[services[i].name] == services[i].ports
      {
        assert merged[i] == MergedService(services[i], file);
      }
    }
  }

  /** The base file merged with the override on disk gives every service the ports of the override
      list if and only if something moved, or every running service could be matched, or the file
      that was there before was harmless. In the remaining case a stale file is kept although no
      shift is reported. */
  lemma MergeIsOverride(file0: OnDisk, services: seq<Service>, ps: seq<Publisher>, combined: seq<Shift>,
                        walked: map<string, Service>)
    requires UniqueServices(services) && WalkedOk(services, walked)
    requires SameShape(services, OverrideOf(services, ps, walked))
    requires multiset(combined) == multiset(AllMoves(services, OverrideOf(services, ps, walked)))
    ensures Merged(services, Managed(file0, services, ps, combined, walked)) == OverrideOf(services, ps, walked) <==>
            combined != [] || UnmatchedNames(services, ps) == [] || Harmless(services, file0)
  {
    var over := OverrideOf(services, ps, walked);
    OverridePortsOnly(services, ps, walked);
    if combined != [] {
      EmittedOverride(services, over, combined);
    } else {
      assert |multiset(AllMoves(services, over))| == |AllMoves(services, over)|;
      NothingMoved(services, over);
      MergeHarmless(services, file0);
      MergeHarmless(services, None);
    }
  }

  const WEB := Service("web", [Binding("", 8080, 80, "")])

  /** Two live ports for one declared port: nothing is paired, no shift is reported, and the file of
      an earlier session goes on moving the service. */
  const TWO_LIVE := [Publisher("web", "", 80, 9000, "tcp"), Publisher("web", "", 80, 9001, "tcp")]

  lemma TwoLiveUnpaired()
    ensures Resolved("web", WEB.ports, TWO_LIVE) == map[]
  {
    assert TWO_LIVE[..1] == [TWO_LIVE[0]] && TWO_LIVE[..1][..0] == [];
    assert Own("web", TWO_LIVE) == TWO_LIVE;
    assert Publishes(TWO_LIVE, 0, 80) && Publishes(TWO_LIVE, 1, 80);
    assert 0 in PubBin(TWO_LIVE, 80) && 1 in PubBin(TWO_LIVE, 80);
    assert !Clear(WEB.ports, TWO_LIVE, 80);
    assert DirectPairs(WEB.ports, TWO_LIVE) == map[];
    assert 0 in LoosePubs(WEB.ports, TWO_LIVE) && 1 in LoosePubs(WEB.ports, TWO_LIVE);
    assert |LooseBinds(WEB.ports, TWO_LIVE)| <= 1;
  }

  lemma StaleFileKept()
    ensures var stale := Some(map["web" := [Binding("", 9500, 80, "")]]);
            && StateShifts([WEB], TWO_LIVE, None) == []
            && Managed(stale, [WEB], TWO_LIVE, [], map[]) == stale
            && Merged([WEB], stale) != OverrideOf([WEB], TWO_LIVE, map[])
  {
    TwoLiveUnpaired();
    assert Adjusted(WEB, TWO_LIVE) == WEB.ports;
    NoMoves("web", WEB.ports);
    assert [WEB][..0] == [];
    assert TWO_LIVE[0] in TWO_LIVE && "web" in RunningSet(TWO_LIVE);
    assert Unmatched(WEB, TWO_LIVE);
    assert OverrideOf([WEB], TWO_LIVE, map[])[0] == Service("web", WEB.ports);
    assert Merged([WEB], Some(map["web" := [Binding("", 9500, 80, "")]]))[0].ports[0].hostPort == 9500;
  }
}
