/** The event broker, one atomic step at a time: consumers come and go under the write lock,
    broadcasts visit the clients one by one under the read lock. */
module SseBroker {
  import opened Seqs

  /** A broadcast under way: the clients there were when it took the lock, with the types each of
      them excludes, those not yet visited, and those the event was sent to. */
  datatype Cast = Cast(kind: string, clients: map<nat, set<string>>, todo: set<nat>, reached: seq<nat>)

  /** `closed` are the channels closed so far, `tries` counts the calls of a client's cancel
      function, `closings` how often a channel was closed. */
  datatype State = State(
    clients: map<nat, set<string>>,
    closed: set<nat>,
    closings: map<nat, nat>,
    next: nat,
    casts: map<nat, Cast>,
    finished: seq<Cast>,
    sendsOnClosed: nat)

  datatype Action =
    | Subscribe(exclude: set<string>)
    | Cancel(id: nat)
    | Begin(sender: nat, kind: string)
    | Visit(sender: nat, id: nat)
    | End(sender: nat)

  const Start := State(map[], {}, map[], 0, map[], [], 0)

  /** The write lock excludes every reader. A cancel function only exists for a client that has
      subscribed; it may be called again. */
  ghost predicate Enabled(s: State, a: Action) {
    match a
    case Subscribe(_) => s.casts == map[]
    case Cancel(id) => id < s.next && (id in s.closings || s.casts == map[])
    case Begin(t, _) => t !in s.casts
    case Visit(t, id) => t in s.casts && id in s.casts[t].todo
    case End(t) => t in s.casts && s.casts[t].todo == {}
  }

  function Count(m: map<nat, nat>, id: nat): nat { if id in m then m[id] else 0 }

  ghost function Apply(s: State, a: Action): State
    requires Enabled(s, a)
  {
    match a
    case Subscribe(exclude) => s.(clients := s.clients[s.next := exclude], next := s.next + 1)
    case Cancel(id) =>
      if id in s.closings then s
      else
        s.(clients := s.clients - {id}, closed := s.closed + {id},
           closings := s.closings[id := Count(s.closings, id) + 1])
    case Begin(t, kind) => s.(casts := s.casts[t := Cast(kind, s.clients, s.clients.Keys, [])])
    case Visit(t, id) =>
      var c := s.casts[t];
      var left := c.(todo := c.todo - {id});
      if id in s.clients && c.kind in s.clients[id] then s.(casts := s.casts[t := left])
      else
        s.(casts := s.casts[t := left.(reached := c.reached + [id])],
           sendsOnClosed := s.sendsOnClosed + if id in s.closed then 1 else 0)
    case End(t) => s.(casts := s.casts - {t}, finished := s.finished + [s.casts[t]])
  }

  ghost predicate IsRun(states: seq<State>, actions: seq<Action>) {
    && |states| == |actions| + 1
    && (forall i :: 0 <= i < |actions| ==> Enabled(states[i], actions[i]))
    && (forall i :: 0 <= i < |actions| ==> states[i + 1] == Apply(states[i], actions[i]))
  }

  // ---------- the invariant ----------

  /** The clients visited are those that do not exclude the event, once each. */
  ghost predicate CastOk(c: Cast) {
    && c.todo <= c.clients.Keys && Distinct(c.reached)
    && forall id :: id in c.reached <==> id in c.clients && id !in c.todo && c.kind !in c.clients[id]
  }

  ghost predicate Invariant(s: State) {
    && s.sendsOnClosed == 0
    && s.clients.Keys !! s.closed
    && (forall id :: id in s.clients || id in s.closed ==> id < s.next)
    && (forall id: nat :: id < s.next ==> id in s.clients || id in s.closed)
    && s.closed == s.closings.Keys && (forall id :: id in s.closings ==> s.closings[id] == 1)
    && (forall t :: t in s.casts ==> CastOk(s.casts[t]) && s.casts[t].clients == s.clients)
    && (forall i :: 0 <= i < |s.finished| ==> CastOk(s.finished[i]) && s.finished[i].todo == {})
  }

  lemma VisitKeeps(c: Cast, id: nat)
    requires CastOk(c) && id in c.todo
    ensures var left := c.(todo := c.todo - {id});
            CastOk(if c.kind in c.clients[id] then left else left.(reached := c.reached + [id]))
  {
  }

  lemma StepKeepsInvariant(s: State, a: Action)
    requires Invariant(s) && Enabled(s, a)
    ensures Invariant(Apply(s, a))
  {
    match a {
      case Visit(t, id) => VisitKeeps(s.casts[t], id);
      case _ =>
    }
  }

  lemma {:induction false} RunsKeepInvariant(states: seq<State>, actions: seq<Action>, i: nat)
    requires IsRun(states, actions) && states[0] == Start && i < |states|
    ensures Invariant(states[i])
  {
    if i > 0 {
      RunsKeepInvariant(states, actions, i - 1);
      StepKeepsInvariant(states[i - 1], actions[i - 1]);
    } else {
      assert Start.closings.Keys == {} && Start.clients.Keys == {};
    }
  }

  /** However broadcasts, subscriptions and cancellations interleave: nothing is sent on a closed
      channel, no channel is closed twice, and a broadcast that has ended has reached exactly the
      clients that were there when it began and do not exclude it, once each. */
  lemma NothingSentOnClosed(states: seq<State>, actions: seq<Action>, i: nat)
    requires IsRun(states, actions) && states[0] == Start && i < |states|
    ensures states[i].sendsOnClosed == 0
    ensures forall id :: Count(states[i].closings, id) <= 1
    ensures forall k :: 0 <= k < |states[i].finished| ==>
              var c := states[i].finished[k];
              Distinct(c.reached) && forall id :: id in c.reached <==> id in c.clients && c.kind !in c.clients[id]
  {
    RunsKeepInvariant(states, actions, i);
  }

  /** Nobody waits for ever: a broadcast under way always has a step to take, which leaves it less
      to do, and once none is under way the write lock is free. */
  lemma NeverStuck(s: State) returns (a: Action)
    requires Invariant(s)
    ensures Enabled(s, a)
    ensures s.casts != map[] ==> a.Visit? || a.End?
    ensures a.Visit? ==> a.sender in Apply(s, a).casts && |Apply(s, a).casts[a.sender].todo| < |s.casts[a.sender].todo|
  {
    if t :| t in s.casts {
      if id :| id in s.casts[t].todo {
        a := Visit(t, id);
      } else {
        a := End(t);
      }
    } else {
      a := Subscribe({});
    }
  }
}
