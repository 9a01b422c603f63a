/** Delivering events to one consumer through a bounded channel, while the consumer takes from it
    between any two steps of a delivery. The client's send mutex keeps deliveries apart. */
module SseClient {

  datatype Event = Event(kind: string, data: string)

  const OUTPUT := "output"
  const CAPACITY := 16

  /** Whether an event may push an older one out. */
  predicate Evictable(kind: string) { kind != OUTPUT }

  /** What has become of every event delivered so far, by its place in the order of delivery. */
  datatype Trace = Trace(offered: seq<Event>, taken: seq<nat>, queued: seq<nat>, dropped: set<nat>, evicted: set<nat>)

  ghost predicate Increasing(s: seq<nat>) { forall i, j :: 0 <= i < j < |s| ==> s[i] < s[j] }

  ghost predicate Accounted(t: Trace, i: nat) {
    i in t.taken || i in t.queued || i in t.dropped || i in t.evicted
  }

  /** The consumer has received, and will receive from the queue, a subsequence of what was
      delivered, in order; every event is accounted for; only output is ever dropped. */
  ghost predicate Sound(queue: seq<Event>, t: Trace) {
    && |queue| == |t.queued| <= CAPACITY
    && Increasing(t.taken + t.queued)
    && (forall k :: 0 <= k < |t.taken| ==> t.taken[k] < |t.offered|)
    && (forall k :: 0 <= k < |queue| ==> t.queued[k] < |t.offered| && queue[k] == t.offered[t.queued[k]])
    && (forall i: nat :: i < |t.offered| ==> Accounted(t, i))
    && (forall i :: i in t.dropped ==> i < |t.offered| && !Evictable(t.offered[i].kind))
    && (forall i :: i in t.dropped || i in t.evicted ==> i < |t.offered| && i !in t.taken && i !in t.queued)
    && t.dropped !! t.evicted
  }

  lemma TakeFirst(queue: seq<Event>, t: Trace)
    requires Sound(queue, t) && queue != []
    ensures Sound(queue[1..], t.(taken := t.taken + [t.queued[0]], queued := t.queued[1..]))
  {
    var u := t.(taken := t.taken + [t.queued[0]], queued := t.queued[1..]);
    assert u.taken + u.queued == t.taken + t.queued;
    assert t.queued == [t.queued[0]] + t.queued[1..];
    forall i: nat | i < |t.offered| ensures Accounted(u, i) {
      assert Accounted(t, i);
    }
    forall i | i in u.taken || i in u.queued ensures i in t.taken || i in t.queued {
    }
  }

  lemma EvictFirst(queue: seq<Event>, t: Trace)
    requires Sound(queue, t) && queue != []
    ensures Sound(queue[1..], t.(queued := t.queued[1..], evicted := t.evicted + {t.queued[0]}))
  {
    var u := t.(queued := t.queued[1..], evicted := t.evicted + {t.queued[0]});
    var all, fewer := t.taken + t.queued, t.taken + t.queued[1..];
    assert t.queued == [t.queued[0]] + t.queued[1..];
    assert fewer == all[..|t.taken|] + all[|t.taken| + 1..];
    assert all[|t.taken|] == t.queued[0];
    forall k | 0 <= k < |t.taken| ensures t.taken[k] < t.queued[0] {
      assert all[k] == t.taken[k];
    }
    forall k | 1 <= k < |t.queued| ensures t.queued[0] < t.queued[k] {
      assert all[|t.taken| + k] == t.queued[k];
    }
    forall i: nat | i < |t.offered| ensures Accounted(u, i) {
      assert Accounted(t, i);
    }
    forall i | i in u.taken || i in u.queued ensures (i in t.taken || i in t.queued) && i != t.queued[0] {
    }
  }

  lemma MoreThanAll(queue: seq<Event>, t: Trace)
    requires Sound(queue, t)
    ensures forall i :: i in t.taken || i in t.queued || i in t.dropped || i in t.evicted ==> i < |t.offered|
  {
  }

  /** A new event that goes onto the queue. */
  lemma OfferQueued(queue: seq<Event>, t: Trace, evt: Event)
    requires Sound(queue, t) && |queue| < CAPACITY
    ensures Sound(queue + [evt], t.(offered := t.offered + [evt], queued := t.queued + [|t.offered|]))
  {
    var n := |t.offered|;
    var u := t.(offered := t.offered + [evt], queued := t.queued + [n]);
    MoreThanAll(queue, t);
    assert u.taken + u.queued == (t.taken + t.queued) + [n];
    forall k | 0 <= k < |t.taken + t.queued| ensures (t.taken + t.queued)[k] < n {
    }
    forall i: nat | i < n + 1 ensures Accounted(u, i) {
      if i < n {
        assert Accounted(t, i);
      } else {
        assert u.queued[|t.queued|] == n;
      }
    }
    forall i | i in u.taken || i in u.queued ensures i in t.taken || i in t.queued || i == n {
    }
  }

  /** A new event that is dropped. */
  lemma OfferDropped(queue: seq<Event>, t: Trace, evt: Event)
    requires Sound(queue, t) && !Evictable(evt.kind)
    ensures Sound(queue, t.(offered := t.offered + [evt], dropped := t.dropped + {|t.offered|}))
  {
    var u := t.(offered := t.offered + [evt], dropped := t.dropped + {|t.offered|});
    MoreThanAll(queue, t);
    forall i: nat | i < |u.offered| ensures Accounted(u, i) {
      if i < |t.offered| {
        assert Accounted(t, i);
      }
    }
  }

  /** What the consumer's receive does. */
  predicate TookFirst(queue: seq<Event>, t: Trace, queue': seq<Event>, t': Trace) {
    && 0 < |queue| == |t.queued| && queue' == queue[1..]
    && t' == t.(taken := t.taken + [t.queued[0]], queued := t.queued[1..])
  }

  /** What a consumer running for a while leaves: nothing is new and nothing is lost. */
  ghost predicate Drained(t: Trace, t': Trace) {
    && t'.offered == t.offered && t'.dropped == t.dropped && t'.evicted == t.evicted && t.taken <= t'.taken
    && forall i :: i in t'.queued ==> i in t.queued
  }

  /** What a delivery leaves, given how full the buffer was when it began. A state change is
      enqueued by its own delivery; output is dropped only on a full buffer; a queued event is lost
      only to a state change whose delivery began on a full buffer. */
  ghost predicate Delivered(t: Trace, t': Trace, evt: Event, began: nat) {
    && t'.offered == t.offered + [evt] && t.taken <= t'.taken
    && (Evictable(evt.kind) || began < CAPACITY ==> |t.offered| in t'.queued && t'.dropped == t.dropped)
    && (!Evictable(evt.kind) && began >= CAPACITY ==> t'.dropped == t.dropped + {|t.offered|})
    && (t'.evicted == t.evicted || LostOne(t, t', evt, began))
  }

  ghost predicate LostOne(t: Trace, t': Trace, evt: Event, began: nat) {
    Evictable(evt.kind) && began == CAPACITY && EvictedOldest(t, t')
  }

  /** The oldest queued event has been pushed out. */
  ghost predicate EvictedOldest(t: Trace, t': Trace) {
    exists i :: i in t.queued && t'.evicted == t.evicted + {i} && forall j :: j in t'.queued ==> i < j
  }

  lemma OldestFirst(queue: seq<Event>, t: Trace)
    requires Sound(queue, t) && queue != []
    ensures forall j :: j in t.queued[1..] ==> t.queued[0] < j
  {
    forall k | 1 <= k < |t.queued| ensures t.queued[0] < t.queued[k] {
      assert (t.taken + t.queued)[|t.taken|] == t.queued[0];
      assert (t.taken + t.queued)[|t.taken| + k] == t.queued[k];
    }
  }

  class Client {
    var queue: seq<Event>
    var exclude: set<string>
    ghost var trace: Trace

    ghost predicate Valid()
      reads this
    {
      Sound(queue, trace)
    }

    constructor (exclude0: set<string>)
      ensures Valid() && queue == [] && exclude == exclude0 && trace.offered == []
    {
      queue, exclude, trace := [], exclude0, Trace([], [], [], {}, {});
    }

    /** The consumer's receive, when something is queued. */
    method Take() returns (evt: Event)
      requires Valid() && queue != []
      modifies this`queue, this`trace
      ensures Valid() && TookFirst(old(queue), old(trace), queue, trace)
      ensures evt == old(queue)[0] == trace.offered[trace.taken[|trace.taken| - 1]]
    {
      TakeFirst(queue, trace);
      evt := queue[0];
      queue := queue[1..];
      trace := trace.(taken := trace.taken + [trace.queued[0]], queued := trace.queued[1..]);
    }

    /** The consumer runs for a while and takes up to n events. */
    method Race(n: nat)
      requires Valid()
      modifies this`queue, this`trace
      ensures Valid() && Drained(old(trace), trace) && |queue| <= |old(queue)|
    {
      for i := 0 to n
        invariant Valid() && Drained(old(trace), trace) && |queue| <= |old(queue)|
      {
        if queue == [] {
          break;
        }
        var _ := Take();
      }
    }

    /** trySend: the event goes onto the queue if it fits. The event counts as delivered now. */
    method TrySend(evt: Event) returns (sent: bool)
      requires Valid()
      modifies this`queue, this`trace
      ensures Valid()
      ensures sent <==> |old(queue)| < CAPACITY
      ensures sent ==> queue == old(queue) + [evt] &&
                       trace == old(trace).(offered := old(trace).offered + [evt],
                                            queued := old(trace).queued + [|old(trace).offered|])
      ensures !sent ==> queue == old(queue) && trace == old(trace)
    {
      if |queue| < CAPACITY {
        OfferQueued(queue, trace, evt);
        queue := queue + [evt];
        trace := trace.(offered := trace.offered + [evt], queued := trace.queued + [|trace.offered|]);
        return true;
      }
      return false;
    }

    /** Takes the oldest event off the queue, unless the consumer has emptied it. */
    method MakeRoom()
      requires Valid()
      modifies this`queue, this`trace
      ensures Valid() && |queue| < CAPACITY
      ensures trace.offered == old(trace).offered && trace.dropped == old(trace).dropped &&
              trace.taken == old(trace).taken
      ensures trace.evicted == old(trace).evicted || EvictedOldest(old(trace), trace)
    {
      if queue != [] {
        EvictFirst(queue, trace);
        OldestFirst(queue, trace);
        assert trace.queued[0] in trace.queued;
        queue := queue[1..];
        trace := trace.(queued := trace.queued[1..], evicted := trace.evicted + {trace.queued[0]});
      }
    }

    /** The event is left out. */
    method Drop(evt: Event)
      requires Valid() && !Evictable(evt.kind)
      modifies this`trace
      ensures Valid() && trace == old(trace).(offered := old(trace).offered + [evt],
                                              dropped := old(trace).dropped + {|old(trace).offered|})
    {
      OfferDropped(queue, trace, evt);
      trace := trace.(offered := trace.offered + [evt], dropped := trace.dropped + {|trace.offered|});
    }

    /** The second half of a delivery that found the buffer full: make room, then post. The consumer
        can only make more room; no other sender can take it. */
    method Push(evt: Event, second: nat, third: nat)
      requires Valid() && Evictable(evt.kind)
      modifies this`queue, this`trace
      ensures Valid() && Delivered(old(trace), trace, evt, CAPACITY)
    {
      Race(second);
      MakeRoom();
      ghost var before := trace;
      Race(third);
      var sent := TrySend(evt);
      assert trace.queued[|trace.queued| - 1] == |old(trace).offered|;
      assert trace.evicted == before.evicted;
    }

    /** deliver, the consumer running before each of its steps. A state change always goes onto the
        queue; output displaces nothing and is left out only of a buffer of sixteen that was full. */
    method Deliver(evt: Event, first: nat, second: nat, third: nat) returns (ghost began: nat)
      requires Valid()
      modifies this`queue, this`trace
      ensures Valid() && began <= 16 && |queue| <= 16 && Delivered(old(trace), trace, evt, began)
      ensures evt.kind != "output" || began < 16 ==>
                |old(trace).offered| in trace.queued && trace.dropped == old(trace).dropped
      ensures evt.kind == "output" || began < 16 ==> trace.evicted == old(trace).evicted
      ensures trace.evicted != old(trace).evicted ==> EvictedOldest(old(trace), trace)
      ensures forall i :: i in trace.dropped ==> i < |trace.offered| && trace.offered[i].kind == "output"
    {
      Race(first);
      began := |queue|;
      ghost var t := trace;
      var sent := TrySend(evt);
      if sent {
        assert trace.queued[|trace.queued| - 1] == |old(trace).offered|;
        return;
      }
      if !Evictable(evt.kind) {
        Drop(evt);
        return;
      }
      Push(evt, second, third);
      DeliveredLater(old(trace), t, trace, evt);
    }
  }

  lemma DeliveredLater(t: Trace, u: Trace, v: Trace, evt: Event)
    requires Drained(t, u) && Delivered(u, v, evt, CAPACITY) && Evictable(evt.kind)
    ensures Delivered(t, v, evt, CAPACITY)
  {
  }
}
