/** What `docker compose ps` says about a running stack. */
module ComposeInspect {
  import opened AsciiCase
  import opened Seqs

  /** One `ports:` entry of a service; a host port of 0 lets docker pick one. */
  datatype Binding = Binding(hostIP: string, hostPort: int, container: int, protocol: string)

  datatype Service = Service(name: string, ports: seq<Binding>)

  datatype Publisher = Publisher(service: string, hostIP: string, container: int, publishedPort: int, protocol: string)

  datatype Shift = Shift(service: string, old_: int, new_: int, protocol: string, hostIP: string)

  datatype Row = Row(url: string, targetPort: int, publishedPort: int, protocol: string)

  datatype PSEntry = PSEntry(service: string, state: string, health: string, publishers: seq<Row>)

  /** The text `host:port`; the port's digits hold no colon, so it stands for the pair. */
  datatype Key = Key(host: string, port: int)

  predicate Loopback(host: string) {
    host == "0.0.0.0" || host == "[::]" || host == "::" || host == "127.0.0.1" || host == "localhost"
  }

  function HostPortKey(host: string, port: int): Key {
    Key(if host == "" || Loopback(host) then "localhost" else host, port)
  }

  function CanonComposeHost(host: string): string {
    if Loopback(host) then "" else host
  }

  /** However a binding's host is spelled, the publisher docker reports for it has the same key. */
  lemma CanonKeepsKey(host: string, port: int)
    ensures HostPortKey(CanonComposeHost(host), port) == HostPortKey(host, port)
    ensures CanonComposeHost(CanonComposeHost(host)) == CanonComposeHost(host)
  {
  }

  predicate AnyHost(host: string) {
    host in ["", "localhost", "127.0.0.1", "0.0.0.0", "::", "[::]"]
  }

  /** Two addresses collide exactly if they have one port and one host, the ways to write the local
      machine and all of its addresses being one. */
  lemma KeysCollide(host: string, port: int, other: string, port': int)
    ensures HostPortKey(host, port) == HostPortKey(other, port') <==>
            port == port' && (host == other || (AnyHost(host) && AnyHost(other)))
    ensures CanonComposeHost(host) == if AnyHost(host) then "" else host
  {
  }

  datatype StackState = StackState(adopted: set<string>, owned: set<Key>, publishers: seq<Publisher>)

  predicate IsRunning(e: PSEntry) { EqualFold(e.state, "running") }

  predicate IsAdopted(e: PSEntry) {
    IsRunning(e) && (e.health == "" || EqualFold(e.health, "healthy"))
  }

  function PublisherOf(e: PSEntry, p: Row): Publisher {
    Publisher(e.service, CanonComposeHost(p.url), p.targetPort, p.publishedPort, p.protocol)
  }

  /** Row r of entry e is a live binding. */
  predicate Live(es: seq<PSEntry>, e: int, r: int) {
    0 <= e < |es| && 0 <= r < |es[e].publishers| &&
    es[e].service != "" && IsRunning(es[e]) && es[e].publishers[r].publishedPort != 0
  }

  /** A running entry of a named service holds the ports its rows publish; it is adopted if it is healthy
      or has no health check. */
  lemma LiveAndAdopted(es: seq<PSEntry>, e: int, r: int)
    requires 0 <= e < |es|
    ensures Live(es, e, r) <==>
            0 <= r < |es[e].publishers| && es[e].publishers[r].publishedPort != 0 && es[e].service != "" &&
            SameText(es[e].state, "running")
    ensures IsAdopted(es[e]) <==>
            SameText(es[e].state, "running") && (es[e].health == "" || SameText(es[e].health, "healthy"))
  {
    TextsFold(es[e].state, "running");
    TextsFold(es[e].health, "healthy");
  }

  /** Row (e, r) comes before (d, q). */
  predicate Before(e: int, r: int, d: int, q: int) { e < d || (e == d && r < q) }

  ghost predicate OwnedUpTo(es: seq<PSEntry>, owned: set<Key>, d: int, q: int) {
    forall k :: k in owned <==> exists e, r ::
      Live(es, e, r) && Before(e, r, d, q) &&
          k == HostPortKey(es[e].publishers[r].url, es[e].publishers[r].publishedPort)
  }

  ghost predicate PublishersUpTo(es: seq<PSEntry>, ps: seq<Publisher>, d: int, q: int) {
    forall p :: p in ps <==> exists e, r ::
      Live(es, e, r) && Before(e, r, d, q) && p == PublisherOf(es[e], es[e].publishers[r])
  }

  lemma NothingMore(es: seq<PSEntry>, d: int, q: int, d': int, q': int)
    requires forall e, r :: Live(es, e, r) ==> (Before(e, r, d, q) <==> Before(e, r, d', q'))
    ensures forall owned :: OwnedUpTo(es, owned, d, q) ==> OwnedUpTo(es, owned, d', q')
    ensures forall ps :: PublishersUpTo(es, ps, d, q) ==> PublishersUpTo(es, ps, d', q')
  {
  }

  lemma OneMoreRow(es: seq<PSEntry>, owned: set<Key>, ps: seq<Publisher>, d: int, q: int)
    requires Live(es, d, q) && OwnedUpTo(es, owned, d, q) && PublishersUpTo(es, ps, d, q)
    ensures OwnedUpTo(es, owned + {HostPortKey(es[d].publishers[q].url, es[d].publishers[q].publishedPort)}, d, q + 1)
    ensures var p := PublisherOf(es[d], es[d].publishers[q]);
            PublishersUpTo(es, if p in ps then ps else ps + [p], d, q + 1)
  {
    var row := es[d].publishers[q];
    var key, p := HostPortKey(row.url, row.publishedPort), PublisherOf(es[d], row);
    forall e, r ensures Before(e, r, d, q + 1) <==> Before(e, r, d, q) || (e == d && r == q) {
    }
    var now := owned + {key};
    forall k ensures k in now <==> exists e, r ::
      Live(es, e, r) && Before(e, r, d, q + 1) &&
          k == HostPortKey(es[e].publishers[r].url, es[e].publishers[r].publishedPort)
    {
      if k == key {
        assert Live(es, d, q) && Before(d, q, d, q + 1);
      }
    }
    var more := if p in ps then ps else ps + [p];
    forall x ensures x in more <==> exists e, r ::
      Live(es, e, r) && Before(e, r, d, q + 1) && x == PublisherOf(es[e], es[e].publishers[r])
    {
      if x == p {
        assert Live(es, d, q) && Before(d, q, d, q + 1);
      }
    }
  }

  /** Adds one entry's rows to what has been found so far. */
  method AddRows(es: seq<PSEntry>, d: int, owned0: set<Key>, ps0: seq<Publisher>)
    returns (owned: set<Key>, ps: seq<Publisher>)
    requires 0 <= d < |es| && es[d].service != "" && IsRunning(es[d])
    requires OwnedUpTo(es, owned0, d, 0) && PublishersUpTo(es, ps0, d, 0) && Distinct(ps0)
    ensures OwnedUpTo(es, owned, d + 1, 0) && PublishersUpTo(es, ps, d + 1, 0) && Distinct(ps)
    ensures ps0 <= ps
  {
    owned, ps := owned0, ps0;
    for q := 0 to |es[d].publishers|
      invariant OwnedUpTo(es, owned, d, q) && PublishersUpTo(es, ps, d, q) && Distinct(ps) && ps0 <= ps
    {
      var p := es[d].publishers[q];
      if p.publishedPort == 0 {
        NothingMore(es, d, q, d, q + 1);
        continue;
      }
      OneMoreRow(es, owned, ps, d, q);
      owned := owned + {HostPortKey(p.url, p.publishedPort)};
      var pub := PublisherOf(es[d], p);
      if pub !in ps {
        ps := ps + [pub];
      }
    }
    NothingMore(es, d, |es[d].publishers|, d + 1, 0);
  }

  /** interpretComposePS: docker lists a binding once per address family; after the host is
      canonicalised it is kept once. Only running entries hold ports. */
  method InterpretComposePS(es: seq<PSEntry>) returns (s: StackState)
    ensures forall n :: n in s.adopted <==> exists e :: 0 <= e < |es| && es[e].service == n != "" && IsAdopted(es[e])
    ensures forall k :: k in s.owned <==> exists e, r ::
              Live(es, e, r) && k == HostPortKey(es[e].publishers[r].url, es[e].publishers[r].publishedPort)
    ensures forall p :: p in s.publishers <==> exists e, r ::
              Live(es, e, r) && p == Publisher(
                es[e].service, CanonComposeHost(es[e].publishers[r].url), es[e].publishers[r].targetPort,
                es[e].publishers[r].publishedPort, es[e].publishers[r].protocol)
    ensures Distinct(s.publishers)
    ensures forall k :: k in s.owned <==> exists p :: p in s.publishers && k == HostPortKey(p.hostIP, p.publishedPort)
  {
    var adopted: set<string>, owned: set<Key>, ps: seq<Publisher> := {}, {}, [];
    for d := 0 to |es|
      invariant forall n :: n in adopted <==> exists e :: 0 <= e < d && es[e].service == n != "" && IsAdopted(es[e])
      invariant OwnedUpTo(es, owned, d, 0) && PublishersUpTo(es, ps, d, 0) && Distinct(ps)
    {
      if es[d].service == "" {
        NothingMore(es, d, 0, d + 1, 0);
        continue;
      }
      if IsAdopted(es[d]) {
        adopted := adopted + {es[d].service};
      }
      if !IsRunning(es[d]) {
        NothingMore(es, d, 0, d + 1, 0);
        continue;
      }
      owned, ps := AddRows(es, d, owned, ps);
    }
    AllRows(es);
    OwnedArePublished(es, owned, ps);
    s := StackState(adopted, owned, ps);
  }

  /** The owned keys are those of the publishers. */
  lemma OwnedArePublished(es: seq<PSEntry>, owned: set<Key>, ps: seq<Publisher>)
    requires OwnedUpTo(es, owned, |es|, 0) && PublishersUpTo(es, ps, |es|, 0)
    ensures forall k :: k in owned <==> exists p :: p in ps && k == HostPortKey(p.hostIP, p.publishedPort)
  {
    forall k | k in owned ensures exists p :: p in ps && k == HostPortKey(p.hostIP, p.publishedPort) {
      var e, r :| Live(es, e, r) && Before(e, r, |es|, 0) &&
        k == HostPortKey(es[e].publishers[r].url, es[e].publishers[r].publishedPort);
      CanonKeepsKey(es[e].publishers[r].url, es[e].publishers[r].publishedPort);
      assert PublisherOf(es[e], es[e].publishers[r]) in ps;
    }
    forall p | p in ps ensures HostPortKey(p.hostIP, p.publishedPort) in owned {
      var e, r :| Live(es, e, r) && Before(e, r, |es|, 0) && p == PublisherOf(es[e], es[e].publishers[r]);
      CanonKeepsKey(es[e].publishers[r].url, es[e].publishers[r].publishedPort);
    }
  }

  lemma AllRows(es: seq<PSEntry>)
    ensures forall e, r :: Live(es, e, r) ==> Before(e, r, |es|, 0)
  {
  }
}
