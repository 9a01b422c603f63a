/** The two artefacts a compose entry leaves behind, the shift list and the override file, and
    their agreement. */
module ComposeOverride {
  import opened Seqs
  import opened Wrappers
  import opened ComposeInspect
  import opened PortWalk
  import opened PortPairing
  import opened PortResolution
  import opened PortMatching

  /** The services with at least one publisher. */
  function RunningSet(ps: seq<Publisher>): set<string> { set p | p in ps :: p.service }

  /** A service's bindings, each moved to where it was found to be published. */
  function Adjusted(svc: Service, ps: seq<Publisher>): (ports: seq<Binding>)
    ensures |ports| == |svc.ports|
  {
    var found := Resolved(svc.name, svc.ports, ps);
    seq(|svc.ports|, j requires 0 <= j < |svc.ports| => AdjustedTo(svc.ports[j], j, found))
  }

  function AdjustedTo(b: Binding, j: int, found: map<int, int>): Binding {
    if b.hostPort != 0 && j in found then b.(hostPort := found[j]) else b
  }

  // ---------- shifts ----------

  /** The drift of the running services among `only`, None for all. */
  function StateShifts(services: seq<Service>, ps: seq<Publisher>, only: Option<set<string>>): seq<Shift> {
    if services == [] then []
    else
      var svc := services[|services| - 1];
      StateShifts(services[..|services| - 1], ps, only) +
      if only.Some? && svc.name !in only.value then [] else Moves(svc.name, svc.ports, Adjusted(svc, ps))
  }

  lemma MovesAt(name: string, before: seq<Binding>, after: seq<Binding>, i: nat)
    requires i < |before| == |after|
    ensures var b, c := before[i], after[i];
            Moves(name, before[..i + 1], after[..i + 1]) ==
            Moves(name, before[..i], after[..i]) +
              if b.hostPort == c.hostPort then [] else [Shift(name, b.hostPort, c.hostPort, b.protocol, b.hostIP)]
  {
    assert before[..i + 1][..i] == before[..i] && after[..i + 1][..i] == after[..i];
  }

  /** The drift of one service. */
  method DriftOf(svc: Service, ps: seq<Publisher>) returns (shifts: seq<Shift>)
    ensures shifts == Moves(svc.name, svc.ports, Adjusted(svc, ps))
  {
    shifts := [];
    var resolved := ResolvedPortsForService(svc.name, svc.ports, ps);
    var after := Adjusted(svc, ps);
    for i := 0 to |svc.ports|
      invariant shifts == Moves(svc.name, svc.ports[..i], after[..i])
    {
      var b := svc.ports[i];
      MovesAt(svc.name, svc.ports, after, i);
      if b.hostPort == 0 || i !in resolved || resolved[i] == b.hostPort {
        continue;
      }
      shifts := shifts + [Shift(svc.name, b.hostPort, resolved[i], b.protocol, b.hostIP)];
    }
    assert svc.ports[..|svc.ports|] == svc.ports && after[..|svc.ports|] == after;
  }

  method StateShiftsForServices(services: seq<Service>, ps: seq<Publisher>, only: Option<set<string>>)
    returns (shifts: seq<Shift>)
    ensures shifts == StateShifts(services, ps, only)
  {
    shifts := [];
    for i := 0 to |services|
      invariant shifts == StateShifts(services[..i], ps, only)
    {
      var svc := services[i];
      assert services[..i + 1][..i] == services[..i];
      if only.Some? && svc.name !in only.value {
        continue;
      }
      var more := DriftOf(svc, ps);
      shifts := shifts + more;
    }
    assert services[..|services|] == services;
  }

  method CombinedComposeShifts(services: seq<Service>, ps: seq<Publisher>, walkShifts: seq<Shift>)
    returns (out: seq<Shift>)
    ensures out == walkShifts + StateShifts(services, ps, Some(RunningSet(ps)))
  {
    if |ps| == 0 {
      NobodyRuns(services);
      return walkShifts;
    }
    var drift := StateShiftsForServices(services, ps, Some(RunningSet(ps)));
    return walkShifts + drift;
  }

  lemma {:induction false} NobodyRuns(services: seq<Service>)
    ensures StateShifts(services, [], Some(RunningSet([]))) == []
  {
    if services != [] {
      NobodyRuns(services[..|services| - 1]);
    }
  }

  /** The services whose ports are walked: those that do not run. */
  function ToWalk(services: seq<Service>, running: set<string>): seq<Service> {
    if services == [] then []
    else
      var svc := services[|services| - 1];
      ToWalk(services[..|services| - 1], running) + if svc.name in running then [] else [svc]
  }

  lemma {:induction false} ToWalkFilters(services: seq<Service>, running: set<string>)
    ensures ToWalk(services, running) == Filter(services, (svc: Service) => svc.name !in running)
  {
    if services != [] {
      ToWalkFilters(services[..|services| - 1], running);
    }
  }

  method ServicesNeedingWalk(services: seq<Service>, running: set<string>) returns (out: seq<Service>)
    ensures out == ToWalk(services, running)
  {
    out := [];
    for i := 0 to |services|
      invariant out == ToWalk(services[..i], running)
    {
      assert services[..i + 1][..i] == services[..i];
      if services[i].name in running {
        continue;
      }
      out := out + [services[i]];
    }
    assert services[..|services|] == services;
  }

  // ---------- the override ----------

  function Overridden(svc: Service, ps: seq<Publisher>, walked: map<string, Service>): Service {
    if svc.name in RunningSet(ps) then Service(svc.name, Adjusted(svc, ps))
    else if svc.name in walked then Service(svc.name, walked[svc.name].ports)
    else svc
  }

  function OverrideOf(services: seq<Service>, ps: seq<Publisher>, walked: map<string, Service>): seq<Service> {
    Map((svc: Service) => Overridden(svc, ps, walked), services)
  }

  method MoveTo(bs: seq<Binding>, found: map<int, int>) returns (ports: seq<Binding>)
    ensures |ports| == |bs| && forall j :: 0 <= j < |bs| ==> ports[j] == AdjustedTo(bs[j], j, found)
  {
    ports := bs;
    for j := 0 to |bs|
      invariant |ports| == |bs|
      invariant forall k :: 0 <= k < j ==> ports[k] == AdjustedTo(bs[k], k, found)
      invariant forall k :: j <= k < |bs| ==> ports[k] == bs[k]
    {
      if bs[j].hostPort == 0 {
        continue;
      }
      if j in found {
        ports := ports[j := ports[j].(hostPort := found[j])];
      }
    }
  }

  /** What the override says of a service. Running, which is having a publisher, it has the ports it was
      found on, and keeps the declared one of a binding that could not be found; otherwise it has the
      ports it was walked to, and the declared ones if it was not. */
  lemma OverrideGives(services: seq<Service>, ps: seq<Publisher>, walked: map<string, Service>, i: nat)
    requires i < |services|
    ensures |OverrideOf(services, ps, walked)| == |services|
    ensures var svc, o := services[i], OverrideOf(services, ps, walked)[i];
            var runs := exists k :: 0 <= k < |ps| && ps[k].service == svc.name;
            && o.name == svc.name
            && (!runs ==> o.ports == if svc.name in walked then walked[svc.name].ports else svc.ports)
            && (runs ==>
                  exists found :: ResolvesPorts(svc.name, svc.ports, ps, found) && MovedTo(svc.ports, o.ports, found))
  {
    var svc, found := services[i], Resolved(services[i].name, services[i].ports, ps);
    ResolvedResolves(svc.name, svc.ports, ps);
    assert MovedTo(svc.ports, Adjusted(svc, ps), found) by {
      forall j | 0 <= j < |svc.ports| && j in found ensures svc.ports[j].hostPort != 0 {
        assert ResolvesPorts(svc.name, svc.ports, ps, found);
      }
    }
    if k :| 0 <= k < |ps| && ps[k].service == svc.name {
      assert ps[k] in ps;
    }
  }

  /** The bindings at the places found have those host ports, the others are as declared. */
  predicate MovedTo(before: seq<Binding>, after: seq<Binding>, found: map<int, int>) {
    |after| == |before| && forall j :: 0 <= j < |before| ==>
      after[j] == if j in found then before[j].(hostPort := found[j]) else before[j]
  }

  lemma OverrideStep(services: seq<Service>, i: nat, ps: seq<Publisher>, walked: map<string, Service>)
    requires i < |services|
    ensures OverrideOf(services[..i + 1], ps, walked) == OverrideOf(services[..i], ps, walked) +
            [Overridden(services[i], ps, walked)]
  {
  }

  method OverrideServices(services: seq<Service>, ps: seq<Publisher>, walked: map<string, Service>)
    returns (out: seq<Service>)
    ensures out == OverrideOf(services, ps, walked)
  {
    var running := RunningSet(ps);
    out := [];
    for i := 0 to |services|
      invariant out == OverrideOf(services[..i], ps, walked)
    {
      var svc := services[i];
      OverrideStep(services, i, ps, walked);
      if svc.name in running {
        var resolved := ResolvedPortsForService(svc.name, svc.ports, ps);
        var ports := MoveTo(svc.ports, resolved);
        assert ports == Adjusted(svc, ps);
        out := out + [Service(svc.name, ports)];
      } else if svc.name in walked {
        out := out + [Service(svc.name, walked[svc.name].ports)];
      } else {
        out := out + [svc];
      }
    }
    assert services[..|services|] == services;
  }

  // ---------- the shift list is the difference to the override ----------

  predicate UniqueServices(services: seq<Service>) {
    forall i, j :: 0 <= i < j < |services| ==> services[i].name != services[j].name
  }

  /** walkedByService. */
  function ByName(walked: seq<Service>): map<string, Service> {
    if walked == [] then map[] else ByName(walked[..|walked| - 1])[walked[|walked| - 1].name := walked[|walked| - 1]]
  }

  lemma {:induction false} ByNameFinds(walked: seq<Service>)
    requires UniqueServices(walked)
    ensures forall i :: 0 <= i < |walked| ==>
      walked[i].name in ByName(walked) && ByName(walked)[walked[i].name] == walked[i]
  {
    if walked != [] {
      ByNameFinds(walked[..|walked| - 1]);
    }
  }

  /** Walking changes nothing but host ports. */
  predicate OnlyPortsMove(svc: Service, walked: map<string, Service>) {
    svc.name in walked ==>
      |walked[svc.name].ports| == |svc.ports| &&
      forall j :: 0 <= j < |svc.ports| ==>
        walked[svc.name].ports[j] == svc.ports[j].(hostPort := walked[svc.name].ports[j].hostPort)
  }

  predicate WalkedOk(services: seq<Service>, walked: map<string, Service>) {
    forall i :: 0 <= i < |services| ==> OnlyPortsMove(services[i], walked)
  }

  /** The shifts of the walk, service by service. */
  function WalkMoves(services: seq<Service>, running: set<string>, walked: map<string, Service>): seq<Shift>
    requires WalkedOk(services, walked)
  {
    if services == [] then []
    else
      var svc := services[|services| - 1];
      WalkMoves(services[..|services| - 1], running, walked) +
      if svc.name in running || svc.name !in walked then [] else Moves(svc.name, svc.ports, walked[svc.name].ports)
  }

  lemma {:induction false} NoMoves(name: string, ports: seq<Binding>)
    ensures Moves(name, ports, ports) == []
  {
    if ports != [] {
      NoMoves(name, ports[..|ports| - 1]);
    }
  }

  lemma OverriddenShape(svc: Service, ps: seq<Publisher>, walked: map<string, Service>)
    requires OnlyPortsMove(svc, walked)
    ensures var o := Overridden(svc, ps, walked);
            && o.name == svc.name && |o.ports| == |svc.ports|
            && forall j :: 0 <= j < |svc.ports| ==> o.ports[j] == svc.ports[j].(hostPort := o.ports[j].hostPort)
  {
  }

  lemma OverrideShape(services: seq<Service>, ps: seq<Publisher>, walked: map<string, Service>)
    requires WalkedOk(services, walked)
    ensures SameShape(services, OverrideOf(services, ps, walked))
  {
    forall i | 0 <= i < |services| {
      OverriddenShape(services[i], ps, walked);
    }
  }

  lemma OneService(svc: Service, ps: seq<Publisher>, walked: map<string, Service>)
    requires OnlyPortsMove(svc, walked)
    ensures var o := Overridden(svc, ps, walked);
            |o.ports| == |svc.ports| &&
            Moves(svc.name, svc.ports, o.ports) ==
              (if svc.name in RunningSet(ps) || svc.name !in walked then []
               else Moves(svc.name, svc.ports, walked[svc.name].ports)) +
              (if svc.name in RunningSet(ps) then Moves(svc.name, svc.ports, Adjusted(svc, ps)) else [])
  {
    OverriddenShape(svc, ps, walked);
    NoMoves(svc.name, svc.ports);
  }

  /** Walk shifts and drift together are exactly the bindings whose port in the override differs
      from the declared one, one record each. */
  lemma {:induction false} ShiftsAreTheDifference(services: seq<Service>, ps: seq<Publisher>,
                                                  walked: map<string, Service>)
    requires WalkedOk(services, walked)
    ensures SameShape(services, OverrideOf(services, ps, walked))
    ensures multiset(WalkMoves(services, RunningSet(ps), walked) + StateShifts(services, ps, Some(RunningSet(ps)))) ==
            multiset(AllMoves(services, OverrideOf(services, ps, walked)))
  {
    OverrideShape(services, ps, walked);
    if services != [] {
      var init, svc := services[..|services| - 1], services[|services| - 1];
      ShiftsAreTheDifference(init, ps, walked);
      OneService(svc, ps, walked);
      AllMovesLast(services, ps, walked);
    }
  }

  lemma AllMovesLast(services: seq<Service>, ps: seq<Publisher>, walked: map<string, Service>)
    requires WalkedOk(services, walked) && services != []
    requires SameShape(services, OverrideOf(services, ps, walked))
    ensures var init, svc := services[..|services| - 1], services[|services| - 1];
            && SameShape(init, OverrideOf(init, ps, walked)) && |Overridden(svc, ps, walked).ports| == |svc.ports|
            && AllMoves(services, OverrideOf(services, ps, walked)) ==
                 AllMoves(init, OverrideOf(init, ps, walked)) +
                 Moves(svc.name, svc.ports, Overridden(svc, ps, walked).ports)
  {
    var init, over := services[..|services| - 1], OverrideOf(services, ps, walked);
    OverrideShape(init, ps, walked);
    assert over[..|services| - 1] == OverrideOf(init, ps, walked);
    assert over[|services| - 1] == Overridden(services[|services| - 1], ps, walked);
  }

  lemma LastWalked(services: seq<Service>, running: set<string>, after: seq<Service>)
    requires services != [] && services[|services| - 1].name !in running && SameShape(ToWalk(services, running), after)
    ensures var init, svc := services[..|services| - 1], services[|services| - 1];
            var n := |after| - 1;
            && n >= 0 && SameShape(ToWalk(init, running), after[..n])
            && after[n].name == svc.name && |after[n].ports| == |svc.ports|
            && AllMoves(ToWalk(services, running), after) ==
                 AllMoves(ToWalk(init, running), after[..n]) + Moves(svc.name, svc.ports, after[n].ports)
  {
    var n := |after| - 1;
    assert ToWalk(services, running)[..n] == ToWalk(services[..|services| - 1], running);
  }

  /** What the walk reports is what its result says, service by service. */
  lemma {:induction false} WalkMovesAre(services: seq<Service>, running: set<string>, after: seq<Service>,
                                        walked: map<string, Service>)
    requires WalkedOk(services, walked) && SameShape(ToWalk(services, running), after)
    requires forall i :: 0 <= i < |after| ==> after[i].name in walked && walked[after[i].name] == after[i]
    ensures AllMoves(ToWalk(services, running), after) == WalkMoves(services, running, walked)
  {
    if services != [] {
      var init, svc := services[..|services| - 1], services[|services| - 1];
      if svc.name in running {
        assert ToWalk(services, running) == ToWalk(init, running);
        WalkMovesAre(init, running, after, walked);
      } else {
        var n := |after| - 1;
        LastWalked(services, running, after);
        WalkMovesAre(init, running, after[..n], walked);
        assert walked[svc.name] == after[n];
      }
    }
  }

  lemma {:induction false} ToWalkNames(services: seq<Service>, running: set<string>)
    requires UniqueServices(services)
    ensures UniqueServices(ToWalk(services, running))
    ensures forall k :: 0 <= k < |ToWalk(services, running)| ==>
              ToWalk(services, running)[k].name !in running && ToWalk(services, running)[k] in services
  {
    if services != [] {
      ToWalkNames(services[..|services| - 1], running);
      var r := ToWalk(services[..|services| - 1], running);
      forall k | 0 <= k < |r| ensures r[k].name != services[|services| - 1].name && r[k] in services {
        assert r[k] in services[..|services| - 1];
      }
    }
  }

  lemma {:induction false} ByNameFrom(walked: seq<Service>, name: string)
    requires name in ByName(walked)
    ensures exists k :: 0 <= k < |walked| && walked[k].name == name && ByName(walked)[name] == walked[k]
  {
    var n := |walked| - 1;
    if walked[n].name != name {
      ByNameFrom(walked[..n], name);
      var k :| 0 <= k < n && walked[..n][k].name == name && ByName(walked[..n])[name] == walked[..n][k];
      assert walked[k] == walked[..n][k];
    }
  }

  /** What a walk of the stopped services gives is fit to be looked up by name. */
  lemma WalkFits(services: seq<Service>, running: set<string>, after: seq<Service>, owned: set<Key>,
                 placed: seq<set<nat>>, maxAttempts: int, os: OS)
    requires UniqueServices(services) && Walked(ToWalk(services, running), after, owned, placed, maxAttempts, os)
    ensures WalkedOk(services, ByName(after))
    ensures AllMoves(ToWalk(services, running), after) == WalkMoves(services, running, ByName(after))
  {
    var before := ToWalk(services, running);
    ToWalkNames(services, running);
    forall i, j | 0 <= i < j < |after| ensures after[i].name != after[j].name {
      assert before[i].name != before[j].name;
    }
    ByNameFinds(after);
    forall i | 0 <= i < |services| && services[i].name in ByName(after)
      ensures OnlyPortsMove(services[i], ByName(after))
    {
      ByNameFrom(after, services[i].name);
      var k :| 0 <= k < |after| && after[k].name == services[i].name && ByName(after)[services[i].name] == after[k];
      assert before[k] in services && before[k].name == services[i].name;
      SameName(services, before[k], i);
      assert ServiceWalked(before[k], after[k], owned, placed[k], owned + AllKeys(after, placed), maxAttempts, os);
    }
    WalkMovesAre(services, running, after, ByName(after));
  }

  lemma SameName(services: seq<Service>, svc: Service, i: nat)
    requires UniqueServices(services) && i < |services| && svc in services && svc.name == services[i].name
    ensures svc == services[i]
  {
  }

  /** The apply path as a whole: the stopped services are walked, if walking is enabled, the others
      inspected, and the shift list is exactly the difference between the declared ports and the
      override's. */
  method ApplyPath(services: seq<Service>, state: StackState, walking: bool, maxAttempts: int, os: OS)
    returns (combined: seq<Shift>, walkedByService: map<string, Service>)
    requires UniqueServices(services)
    ensures WalkedOk(services, walkedByService)
    ensures SameShape(services, OverrideOf(services, state.publishers, walkedByService))
    ensures multiset(combined) == multiset(AllMoves(services, OverrideOf(services, state.publishers, walkedByService)))
  {
    var walkShifts: seq<Shift> := [];
    walkedByService := map[];
    if walking {
      walkShifts, walkedByService := WalkStopped(services, state, maxAttempts, os);
    } else {
      NothingWalked(services, RunningSet(state.publishers));
    }
    combined := CombinedComposeShifts(services, state.publishers, walkShifts);
    ShiftsAreTheDifference(services, state.publishers, walkedByService);
  }

  method WalkStopped(services: seq<Service>, state: StackState, maxAttempts: int, os: OS)
    returns (walkShifts: seq<Shift>, walkedByService: map<string, Service>)
    requires UniqueServices(services)
    ensures WalkedOk(services, walkedByService)
    ensures walkShifts == WalkMoves(services, RunningSet(state.publishers), walkedByService)
  {
    var toWalk := ServicesNeedingWalk(services, RunningSet(state.publishers));
    var walked;
    ghost var placed;
    walked, walkShifts, placed := WalkComposeServices(toWalk, state.owned, maxAttempts, os);
    walkedByService := map[];
    for i := 0 to |walked|
      invariant walkedByService == ByName(walked[..i])
    {
      assert walked[..i + 1][..i] == walked[..i];
      walkedByService := walkedByService[walked[i].name := walked[i]];
    }
    assert walked[..|walked|] == walked;
    WalkFits(services, RunningSet(state.publishers), walked, state.owned, placed, maxAttempts, os);
  }

  /** With walking switched off only drift is left, and the override moves running services only. */
  lemma {:induction false} NothingWalked(services: seq<Service>, running: set<string>)
    ensures WalkedOk(services, map[]) && WalkMoves(services, running, map[]) == []
  {
    if services != [] {
      NothingWalked(services[..|services| - 1], running);
    }
  }

  lemma OwnOfStopped(name: string, ps: seq<Publisher>)
    requires name !in RunningSet(ps)
    ensures Own(name, ps) == []
  {
    if ps != [] {
      assert ps[|ps| - 1] in ps;
      forall q | q in ps[..|ps| - 1] ensures q.service in RunningSet(ps) {
        assert q in ps;
      }
      OwnOfStopped(name, ps[..|ps| - 1]);
    }
  }

  lemma StoppedHasNoDrift(svc: Service, ps: seq<Publisher>)
    requires svc.name !in RunningSet(ps)
    ensures Adjusted(svc, ps) == svc.ports && Moves(svc.name, svc.ports, Adjusted(svc, ps)) == []
  {
    OwnOfStopped(svc.name, ps);
    NobodyPublishes(svc.ports);
    NoMoves(svc.name, svc.ports);
  }

  /** Asking about all services or only about the running ones gives the same drift: a stopped
      service has none. The adopt path, which asks about all, agrees with the override as well. */
  lemma {:induction false} AllOrRunning(services: seq<Service>, ps: seq<Publisher>)
    ensures StateShifts(services, ps, None) == StateShifts(services, ps, Some(RunningSet(ps)))
  {
    if services != [] {
      AllOrRunning(services[..|services| - 1], ps);
      var svc := services[|services| - 1];
      if svc.name !in RunningSet(ps) {
        StoppedHasNoDrift(svc, ps);
      }
    }
  }

  /** The adopt path: nothing is walked, and the drift of all services is the difference. */
  lemma AdoptPathAgrees(services: seq<Service>, ps: seq<Publisher>)
    ensures WalkedOk(services, map[]) && SameShape(services, OverrideOf(services, ps, map[]))
    ensures multiset(StateShifts(services, ps, None)) == multiset(AllMoves(services, OverrideOf(services, ps, map[])))
  {
    AllOrRunning(services, ps);
    NothingWalked(services, RunningSet(ps));
    ShiftsAreTheDifference(services, ps, map[]);
    assert [] + StateShifts(services, ps, None) == StateShifts(services, ps, None);
  }
}
