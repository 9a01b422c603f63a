/** Walking the declared ports of stopped services to free ones. The operating system's answers
    are an oracle that may answer differently every time it is asked. */
module PortWalk {
  import opened ComposeInspect

  datatype Answer = Free | InUse | Failed

  /** The answer to the n-th attempt to listen, and the port the system picks for port 0. */
  datatype OS = OS(listen: (string, int, nat) -> Answer, pick: nat -> Answer, picked: nat -> int)

  datatype Probe = Found(port: int) | NotFound

  /** The ports an attempt is made for: the first always, and as many as there may be attempts. */
  predicate InWindow(port: int, start: int, attempts: int) {
    start <= port && (port == start || port < start + attempts)
  }

  /** A port that could not be had: taken already, or answered as in use. */
  ghost predicate Busy(os: OS, host: string, q: int, taken: set<Key>) {
    HostPortKey(host, q) in taken || exists n :: os.listen(host, q, n) == InUse
  }

  /** Every port of the window could not be had. */
  ghost predicate Exhausted(os: OS, host: string, start: int, attempts: int, taken: set<Key>) {
    forall q :: InWindow(q, start, attempts) ==> Busy(os, host, q, taken)
  }

  /** probeFreePort. Port 0 leaves the choice to the system, which is asked once. */
  method ProbeFreePort(host: string, start: int, maxAttempts: int, taken: set<Key>, os: OS, tick0: nat)
    returns (r: Probe, tick: nat)
    ensures start == 0 ==>
      r == (if os.pick(tick0) == Free then Found(os.picked(tick0)) else NotFound) && tick == tick0 + 1
    ensures start != 0 && r.Found? ==>
              && start <= r.port && (r.port == start || r.port < start + maxAttempts)
              && HostPortKey(host, r.port) !in taken && (exists n :: os.listen(host, r.port, n) == Free)
              && forall q :: start <= q < r.port ==> Busy(os, host, q, taken)
    ensures start != 0 && r.NotFound? ==>
              || (forall q :: start <= q && (q == start || q < start + maxAttempts) ==>
                    HostPortKey(host, q) in taken || exists n :: os.listen(host, q, n) == InUse)
              || exists q, n :: start <= q && (q == start || q < start + maxAttempts) && os.listen(host, q, n) == Failed
  {
    tick := tick0;
    var attempts := maxAttempts;
    if attempts < 1 {
      attempts := 1;
    }
    if start == 0 {
      r := if os.pick(tick) == Free then Found(os.picked(tick)) else NotFound;
      tick := tick + 1;
      return;
    }
    for attempt := 0 to attempts
      invariant forall q :: start <= q < start + attempt ==> Busy(os, host, q, taken)
    {
      var port := start + attempt;
      if HostPortKey(host, port) in taken {
        continue;
      }
      var answer := os.listen(host, port, tick);
      ghost var asked := tick;
      tick := tick + 1;
      if answer == Free {
        assert os.listen(host, port, asked) == Free;
        return Found(port), tick;
      }
      if answer != InUse {
        assert os.listen(host, port, asked) == Failed;
        return NotFound, tick;
      }
      assert os.listen(host, port, asked) == InUse;
    }
    forall q | start <= q && (q == start || q < start + maxAttempts)
      ensures HostPortKey(host, q) in taken || exists n :: os.listen(host, q, n) == InUse
    {
      assert Busy(os, host, q, taken);
    }
    return NotFound, tick;
  }

  // ---------- one service ----------

  function Host(b: Binding): string {
    if b.hostIP == "" then "127.0.0.1" else b.hostIP
  }

  function KeyOf(b: Binding): Key { HostPortKey(Host(b), b.hostPort) }

  /** The keys of the bindings at these places. */
  function KeysAt(ports: seq<Binding>, placed: set<nat>): set<Key> {
    set j | j in placed && j < |ports| :: KeyOf(ports[j])
  }

  ghost predicate DistinctKeys(ports: seq<Binding>, placed: set<nat>) {
    forall i, j :: i in placed && j in placed && i < |ports| && j < |ports| && i != j ==>
        KeyOf(ports[i]) != KeyOf(ports[j])
  }

  /** A binding the walk leaves alone: docker picks its port, the project holds it already, or
      nothing in its window could be had. */
  ghost predicate LeftAlone(b: Binding, owned: set<Key>, handed: set<Key>, maxAttempts: int, os: OS) {
    || b.hostPort == 0 || KeyOf(b) in owned
    || Exhausted(os, Host(b), b.hostPort, maxAttempts, handed)
    || exists q, n :: InWindow(q, b.hostPort, maxAttempts) && os.listen(Host(b), q, n) == Failed
  }

  /** The port was answered free, and each one passed over on the way to it could not be had. */
  ghost predicate FoundFirst(b: Binding, c: Binding, handed: set<Key>, os: OS) {
    && (exists n :: os.listen(Host(b), c.hostPort, n) == Free)
    && forall q :: b.hostPort <= q < c.hostPort ==> Busy(os, Host(b), q, handed)
  }

  /** A binding that was placed sits in its window and differs from the declared one in its port
      only. */
  predicate Placed(b: Binding, c: Binding, owned: set<Key>, maxAttempts: int) {
    c == b.(hostPort := c.hostPort) && b.hostPort != 0 && KeyOf(b) !in owned &&
        InWindow(c.hostPort, b.hostPort, maxAttempts)
  }

  /** The shifts of one service: a record for every binding whose port moved, in order. */
  function Moves(name: string, before: seq<Binding>, after: seq<Binding>): seq<Shift>
    requires |before| == |after|
  {
    if before == [] then []
    else
      var n := |before| - 1;
      var b, c := before[n], after[n];
      Moves(name, before[..n], after[..n]) +
      if b.hostPort == c.hostPort then [] else [Shift(name, b.hostPort, c.hostPort, b.protocol, b.hostIP)]
  }

  ghost predicate Walking(before: seq<Binding>, after: seq<Binding>, owned: set<Key>, handed0: set<Key>,
                          handed: set<Key>, placed: set<nat>, maxAttempts: int, os: OS)
  {
    && |after| <= |before|
    && (forall j :: j in placed ==>
          j < |after| && Placed(before[j], after[j], owned, maxAttempts) && FoundFirst(before[j], after[j], handed, os))
    && (forall j :: 0 <= j < |after| && j !in placed ==>
          after[j] == before[j] && LeftAlone(before[j], owned, handed, maxAttempts, os))
    && handed == handed0 + KeysAt(after, placed) && handed0 !! KeysAt(after, placed) && DistinctKeys(after, placed)
  }

  lemma LeftAloneMore(b: Binding, owned: set<Key>, taken: set<Key>, more: set<Key>, maxAttempts: int, os: OS)
    requires taken <= more && LeftAlone(b, owned, taken, maxAttempts, os)
    ensures LeftAlone(b, owned, more, maxAttempts, os)
  {
    if Exhausted(os, Host(b), b.hostPort, maxAttempts, taken) {
      forall q | InWindow(q, b.hostPort, maxAttempts) ensures Busy(os, Host(b), q, more) {
        assert Busy(os, Host(b), q, taken);
      }
    }
  }

  lemma FoundFirstMore(b: Binding, c: Binding, taken: set<Key>, more: set<Key>, os: OS)
    requires taken <= more && FoundFirst(b, c, taken, os)
    ensures FoundFirst(b, c, more, os)
  {
    forall q | b.hostPort <= q < c.hostPort ensures Busy(os, Host(b), q, more) {
      assert Busy(os, Host(b), q, taken);
    }
  }

  lemma WalkOn(before: seq<Binding>, after: seq<Binding>, owned: set<Key>, handed0: set<Key>, handed: set<Key>,
               placed: set<nat>, maxAttempts: int, os: OS)
    requires Walking(before, after, owned, handed0, handed, placed, maxAttempts, os) && |after| < |before|
    requires LeftAlone(before[|after|], owned, handed, maxAttempts, os)
    ensures Walking(before, after + [before[|after|]], owned, handed0, handed, placed, maxAttempts, os)
  {
    assert KeysAt(after + [before[|after|]], placed) == KeysAt(after, placed);
  }

  lemma KeysPlace(after: seq<Binding>, placed: set<nat>, c: Binding)
    requires forall j :: j in placed ==> j < |after|
    ensures KeysAt(after + [c], placed + {|after|}) == KeysAt(after, placed) + {KeyOf(c)}
  {
    var longer, n := after + [c], |after|;
    assert longer[n] == c && n in placed + {n};
    forall k | k in KeysAt(after, placed) ensures k in KeysAt(longer, placed + {n}) {
      var j :| j in placed && j < |after| && KeyOf(after[j]) == k;
      assert longer[j] == after[j];
    }
  }

  lemma DistinctPlace(after: seq<Binding>, placed: set<nat>, c: Binding)
    requires (forall j :: j in placed ==> j < |after|) && DistinctKeys(after, placed) &&
             KeyOf(c) !in KeysAt(after, placed)
    ensures DistinctKeys(after + [c], placed + {|after|})
  {
    forall j | j in placed ensures KeyOf((after + [c])[j]) in KeysAt(after, placed) {
      assert (after + [c])[j] == after[j];
    }
  }

  lemma WalkPlace(before: seq<Binding>, after: seq<Binding>, owned: set<Key>, handed0: set<Key>, handed: set<Key>,
                  placed: set<nat>, maxAttempts: int, os: OS, c: Binding)
    requires Walking(before, after, owned, handed0, handed, placed, maxAttempts, os) && |after| < |before|
    requires Placed(before[|after|], c, owned, maxAttempts) && KeyOf(c) !in handed
    requires FoundFirst(before[|after|], c, handed, os)
    ensures Walking(before, after + [c], owned, handed0, handed + {KeyOf(c)}, placed + {|after|}, maxAttempts, os)
  {
    KeysPlace(after, placed, c);
    DistinctPlace(after, placed, c);
    forall j | 0 <= j < |after| && j !in placed {
      LeftAloneMore(before[j], owned, handed, handed + {KeyOf(c)}, maxAttempts, os);
    }
    forall j | j in placed {
      FoundFirstMore(before[j], after[j], handed, handed + {KeyOf(c)}, os);
    }
    FoundFirstMore(before[|after|], c, handed, handed + {KeyOf(c)}, os);
  }

  /** The walk over one binding. */
  method WalkBinding(p: Binding, owned: set<Key>, handed: set<Key>, maxAttempts: int, os: OS, tick0: nat)
    returns (c: Binding, ok: bool, tick: nat)
    ensures ok ==> Placed(p, c, owned, maxAttempts) && KeyOf(c) !in handed && FoundFirst(p, c, handed, os)
    ensures !ok ==> c == p && LeftAlone(p, owned, handed, maxAttempts, os)
  {
    if p.hostPort == 0 || HostPortKey(Host(p), p.hostPort) in owned {
      return p, false, tick0;
    }
    var r;
    r, tick := ProbeFreePort(Host(p), p.hostPort, maxAttempts, handed, os, tick0);
    if r.NotFound? {
      return p, false, tick;
    }
    return p.(hostPort := r.port), true, tick;
  }

  /** What one turn of the walk keeps. */
  lemma WalkTurn(before: seq<Binding>, after: seq<Binding>, owned: set<Key>, handed0: set<Key>, handed: set<Key>,
                 placed: set<nat>, maxAttempts: int, os: OS, c: Binding, ok: bool)
    requires Walking(before, after, owned, handed0, handed, placed, maxAttempts, os) && |after| < |before|
    requires ok ==> Placed(before[|after|], c, owned, maxAttempts) && KeyOf(c) !in handed &&
                    FoundFirst(before[|after|], c, handed, os)
    requires !ok ==> c == before[|after|] && LeftAlone(c, owned, handed, maxAttempts, os)
    ensures Walking(before, after + [c], owned, handed0, if ok then handed + {KeyOf(c)} else handed,
                    if ok then placed + {|after|} else placed, maxAttempts, os)
  {
    if ok {
      WalkPlace(before, after, owned, handed0, handed, placed, maxAttempts, os, c);
    } else {
      WalkOn(before, after, owned, handed0, handed, placed, maxAttempts, os);
    }
  }

  /** What it adds to the shifts. */
  lemma MovesTurn(svc: Service, after: seq<Binding>, c: Binding)
    requires |after| < |svc.ports|
    ensures var p := svc.ports[|after|];
            Moves(svc.name, svc.ports[..|after| + 1], after + [c]) ==
            Moves(svc.name, svc.ports[..|after|], after) +
              if p.hostPort == c.hostPort then [] else [Shift(svc.name, p.hostPort, c.hostPort, p.protocol, p.hostIP)]
  {
    var j := |after|;
    var before, longer := svc.ports[..j + 1], after + [c];
    assert before[..j] == svc.ports[..j] && longer[..j] == after;
  }

  lemma WalkStart(before: seq<Binding>, owned: set<Key>, handed: set<Key>, maxAttempts: int, os: OS)
    ensures Walking(before, [], owned, handed, handed, {}, maxAttempts, os)
  {
    assert KeysAt([], {}) == {};
  }

  /** The walk over one service's bindings. */
  method WalkService(svc: Service, owned: set<Key>, handed0: set<Key>, maxAttempts: int, os: OS, tick0: nat)
    returns (ports: seq<Binding>, shifts: seq<Shift>, handed: set<Key>, tick: nat, ghost placed: set<nat>)
    ensures |ports| == |svc.ports|
    ensures Walking(svc.ports, ports, owned, handed0, handed, placed, maxAttempts, os)
    ensures shifts == Moves(svc.name, svc.ports, ports)
  {
    ports, shifts, handed, tick, placed := [], [], handed0, tick0, {};
    WalkStart(svc.ports, owned, handed0, maxAttempts, os);
    for j := 0 to |svc.ports|
      invariant |ports| == j && Walking(svc.ports, ports, owned, handed0, handed, placed, maxAttempts, os)
      invariant shifts == Moves(svc.name, svc.ports[..j], ports)
    {
      var p := svc.ports[j];
      var moved, ok;
      moved, ok, tick := WalkBinding(p, owned, handed, maxAttempts, os, tick);
      WalkTurn(svc.ports, ports, owned, handed0, handed, placed, maxAttempts, os, moved, ok);
      MovesTurn(svc, ports, moved);
      ports := ports + [moved];
      if !ok {
        continue;
      }
      handed := handed + {KeyOf(moved)};
      placed := placed + {j};
      if moved.hostPort != p.hostPort {
        shifts := shifts + [Shift(svc.name, p.hostPort, moved.hostPort, p.protocol, p.hostIP)];
      }
    }
    assert svc.ports[..|svc.ports|] == svc.ports;
  }

  // ---------- all services ----------

  /** The shift records between two versions of the same services. */
  function AllMoves(before: seq<Service>, after: seq<Service>): seq<Shift>
    requires SameShape(before, after)
  {
    if before == [] then []
    else
      var n := |before| - 1;
      AllMoves(before[..n], after[..n]) + Moves(before[n].name, before[n].ports, after[n].ports)
  }

  predicate SameShape(before: seq<Service>, after: seq<Service>) {
    |before| == |after| &&
    forall i :: 0 <= i < |before| ==> after[i].name == before[i].name && |after[i].ports| == |before[i].ports|
  }

  function AllKeys(after: seq<Service>, placed: seq<set<nat>>): set<Key>
    requires |after| == |placed|
  {
    if after == [] then {}
    else AllKeys(after[..|after| - 1], placed[..|after| - 1]) + KeysAt(after[|after| - 1].ports, placed[|after| - 1])
  }

  /** What a walk comes to. `placed` says which bindings were given a port by a probe: those have
      pairwise distinct keys, none of them held by the project, each in its own window and moved
      in nothing but the port; all others are as declared. */
  ghost predicate Walked(before: seq<Service>, after: seq<Service>, owned: set<Key>, placed: seq<set<nat>>,
                         maxAttempts: int, os: OS) {
    && SameShape(before, after) && |placed| == |after|
    && (forall i :: 0 <= i < |after| ==>
          ServiceWalked(before[i], after[i], owned, placed[i], owned + AllKeys(after, placed), maxAttempts, os))
    && (forall i, k :: 0 <= i < k < |after| ==> KeysAt(after[i].ports, placed[i]) !! KeysAt(after[k].ports, placed[k]))
  }

  ghost predicate ServiceWalked(before: Service, after: Service, owned: set<Key>, placed: set<nat>, handed: set<Key>,
                                maxAttempts: int, os: OS)
  {
    && |after.ports| == |before.ports|
    && (forall j :: j in placed ==>
          && j < |after.ports| && Placed(before.ports[j], after.ports[j], owned, maxAttempts)
          && FoundFirst(before.ports[j], after.ports[j], handed, os))
    && (forall j :: 0 <= j < |after.ports| && j !in placed ==>
          after.ports[j] == before.ports[j] && LeftAlone(before.ports[j], owned, handed, maxAttempts, os))
    && KeysAt(after.ports, placed) !! owned && DistinctKeys(after.ports, placed)
  }

  lemma ServiceWalkedMore(b: Service, a: Service, owned: set<Key>, placed: set<nat>, handed: set<Key>, more: set<Key>,
                          maxAttempts: int, os: OS)
    requires ServiceWalked(b, a, owned, placed, handed, maxAttempts, os) && handed <= more
    ensures ServiceWalked(b, a, owned, placed, more, maxAttempts, os)
  {
    forall j | 0 <= j < |a.ports| && j !in placed {
      LeftAloneMore(b.ports[j], owned, handed, more, maxAttempts, os);
    }
    forall j | j in placed {
      FoundFirstMore(b.ports[j], a.ports[j], handed, more, os);
    }
  }

  lemma KeysWithin(after: seq<Service>, placed: seq<set<nat>>, i: nat)
    requires |after| == |placed| && i < |after|
    ensures KeysAt(after[i].ports, placed[i]) <= AllKeys(after, placed)
  {
    if i < |after| - 1 {
      KeysWithin(after[..|after| - 1], placed[..|after| - 1], i);
    }
  }

  lemma NewServiceWalked(b: Service, a: Service, owned: set<Key>, handed0: set<Key>, handed: set<Key>, more: set<nat>,
                         maxAttempts: int, os: OS)
    requires |a.ports| == |b.ports| && owned <= handed0
    requires Walking(b.ports, a.ports, owned, handed0, handed, more, maxAttempts, os)
    ensures ServiceWalked(b, a, owned, more, handed, maxAttempts, os)
  {
  }

  lemma AllKeysSnoc(after: seq<Service>, placed: seq<set<nat>>, a: Service, more: set<nat>)
    requires |after| == |placed|
    ensures AllKeys(after + [a], placed + [more]) == AllKeys(after, placed) + KeysAt(a.ports, more)
  {
    assert (after + [a])[..|after|] == after && (placed + [more])[..|after|] == placed;
  }

  lemma WalkedSnoc(before: seq<Service>, after: seq<Service>, owned: set<Key>, placed: seq<set<nat>>, maxAttempts: int,
                   os: OS, longer: seq<Service>, b: Service, a: Service, more: set<nat>, handed: set<Key>)
    requires longer == before + [b] && Walked(before, after, owned, placed, maxAttempts, os)
    requires a.name == b.name && |a.ports| == |b.ports|
    requires Walking(b.ports, a.ports, owned, owned + AllKeys(after, placed), handed, more, maxAttempts, os)
    ensures Walked(longer, after + [a], owned, placed + [more], maxAttempts, os)
    ensures handed == owned + AllKeys(after + [a], placed + [more])
  {
    var as_, ps := after + [a], placed + [more];
    AllKeysSnoc(after, placed, a, more);
    forall i | 0 <= i < |as_|
      ensures ServiceWalked(longer[i], as_[i], owned, ps[i], handed, maxAttempts, os)
    {
      if i < |after| {
        ServiceWalkedMore(before[i], after[i], owned, placed[i], owned + AllKeys(after, placed), handed,
                          maxAttempts, os);
      } else {
        NewServiceWalked(b, a, owned, owned + AllKeys(after, placed), handed, more, maxAttempts, os);
      }
    }
    forall i | 0 <= i < |after| ensures KeysAt(after[i].ports, placed[i]) !! KeysAt(a.ports, more) {
      KeysWithin(after, placed, i);
    }
  }

  lemma AllMovesSnoc(before: seq<Service>, after: seq<Service>, b: Service, a: Service)
    requires SameShape(before, after) && a.name == b.name && |a.ports| == |b.ports|
    ensures AllMoves(before + [b], after + [a]) == AllMoves(before, after) + Moves(b.name, b.ports, a.ports)
  {
    assert (before + [b])[..|before|] == before && (after + [a])[..|after|] == after;
  }

  /** What one turn over the services adds. */
  lemma ServicesTurn(services: seq<Service>, updated: seq<Service>, owned: set<Key>, placed: seq<set<nat>>,
                     maxAttempts: int, os: OS, ports: seq<Binding>, here: set<nat>, handed: set<Key>)
    requires |updated| < |services| && Walked(services[..|updated|], updated, owned, placed, maxAttempts, os)
    requires |ports| == |services[|updated|].ports|
    requires Walking(services[|updated|].ports, ports, owned, owned + AllKeys(updated, placed), handed, here,
                     maxAttempts, os)
    ensures var svc := services[|updated|];
            var after := updated + [Service(svc.name, ports)];
            && Walked(services[..|updated| + 1], after, owned, placed + [here], maxAttempts, os)
            && handed == owned + AllKeys(after, placed + [here])
            && AllMoves(services[..|updated| + 1], after) ==
                 AllMoves(services[..|updated|], updated) + Moves(svc.name, svc.ports, ports)
  {
    var before, svc := services[..|updated|], services[|updated|];
    var a := Service(svc.name, ports);
    assert services[..|updated| + 1] == before + [svc];
    WalkedSnoc(before, updated, owned, placed, maxAttempts, os, services[..|updated| + 1], svc, a, here, handed);
    AllMovesSnoc(before, updated, svc, a);
  }

  /** walkComposeServices. */
  method WalkComposeServices(services: seq<Service>, owned: set<Key>, maxAttempts: int, os: OS)
    returns (updated: seq<Service>, shifts: seq<Shift>, ghost placed: seq<set<nat>>)
    ensures Walked(services, updated, owned, placed, maxAttempts, os)
    ensures shifts == AllMoves(services, updated)
  {
    updated, shifts, placed := [], [], [];
    var handed, tick := owned, 0;
    for i := 0 to |services|
      invariant |updated| == |placed| == i && Walked(services[..i], updated, owned, placed, maxAttempts, os)
      invariant handed == owned + AllKeys(updated, placed) && shifts == AllMoves(services[..i], updated)
    {
      var svc := services[i];
      var ports, moved, now, t;
      ghost var here;
      ports, moved, now, t, here := WalkService(svc, owned, handed, maxAttempts, os, tick);
      ServicesTurn(services, updated, owned, placed, maxAttempts, os, ports, here, now);
      updated, placed, shifts := updated + [Service(svc.name, ports)], placed + [here], shifts + moved;
      handed, tick := now, t;
    }
    assert services[..|services|] == services;
  }

  lemma {:induction false} AllKeysFrom(after: seq<Service>, placed: seq<set<nat>>, k: Key)
    requires |after| == |placed| && k in AllKeys(after, placed)
    ensures exists i :: 0 <= i < |after| && k in KeysAt(after[i].ports, placed[i])
  {
    var n := |after| - 1;
    if k !in KeysAt(after[n].ports, placed[n]) {
      AllKeysFrom(after[..n], placed[..n], k);
      var i :| 0 <= i < n && k in KeysAt(after[..n][i].ports, placed[..n][i]);
      assert k in KeysAt(after[i].ports, placed[i]);
    }
  }

  /** A port that is taken or in use: the project holds it, the walk has handed it out, or the system
      says so. */
  ghost predicate Unavailable(after: seq<Service>, owned: set<Key>, placed: seq<set<nat>>, os: OS, host: string, q: int)
    requires |after| == |placed|
  {
    || HostPortKey(host, q) in owned
    || (exists n :: os.listen(host, q, n) == InUse)
    || exists i, j :: 0 <= i < |after| && j in placed[i] && j < |after[i].ports| &&
         HostPortKey(host, q) == KeyOf(after[i].ports[j])
  }

  lemma TakenIsUnavailable(after: seq<Service>, owned: set<Key>, placed: seq<set<nat>>, os: OS, host: string, q: int)
    requires |after| == |placed| && Busy(os, host, q, owned + AllKeys(after, placed))
    ensures Unavailable(after, owned, placed, os, host, q)
  {
    var k := HostPortKey(host, q);
    if k in AllKeys(after, placed) {
      AllKeysFrom(after, placed, k);
      var i :| 0 <= i < |after| && k in KeysAt(after[i].ports, placed[i]);
      var j :| j in placed[i] && j < |after[i].ports| && KeyOf(after[i].ports[j]) == k;
    }
  }

  /** What the walk does with binding j of service i. It is moved in its host port only, and to less
      than maxAttempts ports further; it is not moved if docker picks its port or the project holds
      it. A port found for it was answered free, and each port passed over was unavailable; if none was
      found, each port that may be tried was unavailable, unless an attempt failed otherwise. */
  lemma EveryPortTried(before: seq<Service>, after: seq<Service>, owned: set<Key>, placed: seq<set<nat>>,
                       maxAttempts: int, os: OS, i: nat, j: nat)
    requires Walked(before, after, owned, placed, maxAttempts, os) && i < |after| && j < |after[i].ports|
    ensures |before| == |after| && |before[i].ports| == |after[i].ports|
    ensures var b, c := before[i].ports[j], after[i].ports[j];
            var host := if b.hostIP == "" then "127.0.0.1" else b.hostIP;
            && c == b.(hostPort := c.hostPort)
            && (c.hostPort == b.hostPort || b.hostPort < c.hostPort < b.hostPort + maxAttempts)
            && (b.hostPort == 0 || HostPortKey(host, b.hostPort) in owned ==> c == b && j !in placed[i])
            && (j in placed[i] ==>
                  && (exists n :: os.listen(host, c.hostPort, n) == Free)
                  && forall q :: b.hostPort <= q < c.hostPort ==> Unavailable(after, owned, placed, os, host, q))
            && (b.hostPort != 0 && HostPortKey(host, b.hostPort) !in owned && j !in placed[i] ==>
                  c == b && (|| (forall q :: b.hostPort <= q && (q == b.hostPort || q < b.hostPort + maxAttempts) ==>
                                   Unavailable(after, owned, placed, os, host, q))
                             || exists q, n :: b.hostPort <= q && (q == b.hostPort || q < b.hostPort + maxAttempts) &&
                                  os.listen(host, q, n) == Failed))
  {
    var b, c := before[i].ports[j], after[i].ports[j];
    assert ServiceWalked(before[i], after[i], owned, placed[i], owned + AllKeys(after, placed), maxAttempts, os);
    if j in placed[i] {
      forall q | b.hostPort <= q < c.hostPort ensures Unavailable(after, owned, placed, os, Host(b), q) {
        assert Busy(os, Host(b), q, owned + AllKeys(after, placed));
        TakenIsUnavailable(after, owned, placed, os, Host(b), q);
      }
    }
    if Exhausted(os, Host(b), b.hostPort, maxAttempts, owned + AllKeys(after, placed)) {
      forall q | b.hostPort <= q && (q == b.hostPort || q < b.hostPort + maxAttempts)
        ensures Unavailable(after, owned, placed, os, Host(b), q)
      {
        assert Busy(os, Host(b), q, owned + AllKeys(after, placed));
        TakenIsUnavailable(after, owned, placed, os, Host(b), q);
      }
    }
  }

  // ---------- the shift records ----------

  /** The records of a walk or a drift, one by one: `at` has the places, in order, of exactly the
      bindings whose host port is another than declared. */
  ghost predicate Reports(name: string, before: seq<Binding>, after: seq<Binding>, shifts: seq<Shift>, at: seq<nat>)
    requires |before| == |after|
  {
    && |at| == |shifts|
    && (forall m, n :: 0 <= m < n < |at| ==> at[m] < at[n])
    && (forall n :: 0 <= n < |at| ==>
          && at[n] < |before| && shifts[n].service == name
          && shifts[n].old_ == before[at[n]].hostPort && shifts[n].new_ == after[at[n]].hostPort
          && shifts[n].protocol == before[at[n]].protocol && shifts[n].hostIP == before[at[n]].hostIP)
    && (forall j :: 0 <= j < |before| ==> (j in at <==> before[j].hostPort != after[j].hostPort))
  }

  lemma ReportsNext(name: string, before: seq<Binding>, after: seq<Binding>, shifts: seq<Shift>, at: seq<nat>)
    requires |before| == |after| > 0 && Reports(name, before[..|before| - 1], after[..|before| - 1], shifts, at)
    ensures var n := |before| - 1;
            var b, c := before[n], after[n];
            if b.hostPort == c.hostPort then Reports(name, before, after, shifts, at)
            else Reports(name, before, after, shifts + [Shift(name, b.hostPort, c.hostPort, b.protocol, b.hostIP)],
                         at + [n])
  {
    var n := |before| - 1;
    forall m | 0 <= m < |at| ensures at[m] < n && before[..n][at[m]] == before[at[m]] {
    }
    forall j | 0 <= j < n ensures j in at <==> before[j].hostPort != after[j].hostPort {
      assert before[..n][j] == before[j] && after[..n][j] == after[j];
    }
    assert n !in at;
  }

  /** The places of the bindings that have moved. */
  function MovedAt(before: seq<Binding>, after: seq<Binding>): seq<nat>
    requires |before| == |after|
  {
    if before == [] then []
    else
      var n := |before| - 1;
      MovedAt(before[..n], after[..n]) + if before[n].hostPort == after[n].hostPort then [] else [n]
  }

  lemma {:induction false} MovesReport(name: string, before: seq<Binding>, after: seq<Binding>)
    requires |before| == |after|
    ensures Reports(name, before, after, Moves(name, before, after), MovedAt(before, after))
  {
    if before != [] {
      var n := |before| - 1;
      MovesReport(name, before[..n], after[..n]);
      ReportsNext(name, before, after, Moves(name, before[..n], after[..n]), MovedAt(before[..n], after[..n]));
      if before[n].hostPort == after[n].hostPort {
        assert Moves(name, before, after) == Moves(name, before[..n], after[..n]);
        assert MovedAt(before, after) == MovedAt(before[..n], after[..n]);
      }
    }
  }

  /** No two ports a walk hands out collide, on whatever service. */
  lemma PlacedNeverCollide(before: seq<Service>, after: seq<Service>, owned: set<Key>, placed: seq<set<nat>>,
                           maxAttempts: int, os: OS, i: nat, j: nat, k: nat, l: nat)
    requires Walked(before, after, owned, placed, maxAttempts, os)
    requires i < |after| && j in placed[i] && k < |after| && l in placed[k] && (i, j) != (k, l)
    ensures j < |after[i].ports| && l < |after[k].ports| && KeyOf(after[i].ports[j]) != KeyOf(after[k].ports[l])
    ensures KeyOf(after[i].ports[j]) !in owned
  {
    assert ServiceWalked(before[i], after[i], owned, placed[i], owned + AllKeys(after, placed), maxAttempts, os);
    assert ServiceWalked(before[k], after[k], owned, placed[k], owned + AllKeys(after, placed), maxAttempts, os);
    assert KeyOf(after[i].ports[j]) in KeysAt(after[i].ports, placed[i]);
    assert KeyOf(after[k].ports[l]) in KeysAt(after[k].ports, placed[k]);
    if i == k {
      assert DistinctKeys(after[i].ports, placed[i]);
    }
  }
}
