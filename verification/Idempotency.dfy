/** Replaying a request that repeats an idempotency key, one atomic step at a time: a request
    looks its key up under a lock, the first one runs the handler, later ones wait for its entry. */
module Idempotency {

  type Key = string
  type Response = int  // a recorded response, status, header and body in one

  const SERVER_ERROR: Response := 500
  const LIMIT := 1000

  /** Where the request that made an entry stands: running the handler, having recorded its
      response, having panicked and dropped the entry, or having closed `done`. */
  datatype Stage = Running | Recorded | Dropped | Closed

  /** An entry: its key, the period between resets it was made in, its request's stage, whether
      the handler completed, how often `done` was closed and what a waiter will replay. */
  datatype Entry = Entry(key: Key, epoch: nat, stage: Stage, completed: bool, closings: nat, response: Response)

  datatype Waiter = Waiter(entry: nat, replayed: bool, response: Response)

  datatype State = State(idem: map<Key, nat>, epoch: nat, entries: seq<Entry>, waiters: seq<Waiter>)

  datatype Action =
    | Arrive(key: Key)
    | Complete(entry: nat, response: Response)
    | Panic(entry: nat)
    | Close(entry: nat)
    | Replay(waiter: nat)

  const Start := State(map[], 0, [], [])

  ghost predicate Enabled(s: State, a: Action) {
    match a
    case Arrive(_) => true
    case Complete(e, _) => e < |s.entries| && s.entries[e].stage.Running?
    case Panic(e) => e < |s.entries| && s.entries[e].stage.Running?
    case Close(e) => e < |s.entries| && (s.entries[e].stage.Recorded? || s.entries[e].stage.Dropped?)
    case Replay(w) => w < |s.waiters| && !s.waiters[w].replayed &&
                      s.waiters[w].entry < |s.entries| && s.entries[s.waiters[w].entry].closings > 0
  }

  ghost function Apply(s: State, a: Action): State
    requires Enabled(s, a)
  {
    match a
    case Arrive(key) =>
      if key in s.idem then s.(waiters := s.waiters + [Waiter(s.idem[key], false, 0)])
      else
        var full := |s.idem| >= LIMIT;
        var epoch := if full then s.epoch + 1 else s.epoch;
        State((if full then map[] else s.idem)[key := |s.entries|], epoch,
              s.entries + [Entry(key, epoch, Running, false, 0, 0)], s.waiters)
    case Complete(e, r) =>
      s.(entries := s.entries[e := s.entries[e].(stage := Recorded, completed := true, response := r)])
    case Panic(e) =>
      var key := s.entries[e].key;
      s.(idem := if key in s.idem && s.idem[key] == e then s.idem - {key} else s.idem,
         entries := s.entries[e := s.entries[e].(stage := Dropped, response := SERVER_ERROR)])
    case Close(e) =>
      s.(entries := s.entries[e := s.entries[e].(stage := Closed, closings := s.entries[e].closings + 1)])
    case Replay(w) =>
      s.(waiters := s.waiters[w := s.waiters[w].(replayed := true, response := s.entries[s.waiters[w].entry].response)])
  }

  ghost predicate IsRun(states: seq<State>, actions: seq<Action>) {
    && |states| == |actions| + 1
    && (forall i :: 0 <= i < |actions| ==> Enabled(states[i], actions[i]))
    && (forall i :: 0 <= i < |actions| ==> states[i + 1] == Apply(states[i], actions[i]))
  }

  // ---------- the invariant ----------

  /** `done` is closed once, when its request has ended; a completed handler has recorded a
      response, one that panicked leaves an error. */
  ghost predicate EntryOk(e: Entry) {
    && (e.closings == if e.stage.Closed? then 1 else 0)
    && (e.completed ==> !e.stage.Running? && !e.stage.Dropped?)
    && (e.stage.Recorded? ==> e.completed)
    && (!e.completed && !e.stage.Running? ==> e.response == SERVER_ERROR)
  }

  /** An entry that is running or has completed in the current period is the one on record. */
  ghost predicate OnRecord(s: State, e: nat)
    requires e < |s.entries|
  {
    (s.entries[e].stage.Running? || s.entries[e].completed) && s.entries[e].epoch == s.epoch ==>
      s.entries[e].key in s.idem && s.idem[s.entries[e].key] == e
  }

  /** Two entries for one key, made in the same period: at most one of them runs or has completed. */
  ghost predicate Apart(s: State, d: nat, e: nat)
    requires d < |s.entries| && e < |s.entries|
  {
    d != e && s.entries[d].key == s.entries[e].key && s.entries[d].epoch == s.entries[e].epoch ==>
      !((s.entries[d].stage.Running? || s.entries[d].completed) &&
        (s.entries[e].stage.Running? || s.entries[e].completed))
  }

  ghost predicate WaiterOk(s: State, w: Waiter) {
    && w.entry < |s.entries|
    && (w.replayed ==> s.entries[w.entry].stage.Closed? && w.response == s.entries[w.entry].response)
  }

  ghost predicate Invariant(s: State) {
    && (forall k :: k in s.idem ==>
        s.idem[k] < |s.entries| && s.entries[s.idem[k]].key == k && s.entries[s.idem[k]].epoch == s.epoch)
    && (forall e: nat :: e < |s.entries| ==> EntryOk(s.entries[e]) && s.entries[e].epoch <= s.epoch && OnRecord(s, e))
    && (forall d: nat, e: nat :: d < |s.entries| && e < |s.entries| ==> Apart(s, d, e))
    && (forall w :: 0 <= w < |s.waiters| ==> WaiterOk(s, s.waiters[w]))
  }

  lemma ArriveKeeps(s: State, key: Key)
    requires Invariant(s)
    ensures Invariant(Apply(s, Arrive(key)))
  {
    var t := Apply(s, Arrive(key));
    forall e: nat | e < |t.entries| ensures EntryOk(t.entries[e]) && t.entries[e].epoch <= t.epoch && OnRecord(t, e) {
      if e < |s.entries| {
        assert OnRecord(s, e);
      }
    }
    forall d: nat, e: nat | d < |t.entries| && e < |t.entries| ensures Apart(t, d, e) {
      if d < |s.entries| && e < |s.entries| {
        assert Apart(s, d, e);
      } else {
        assert d < |s.entries| ==> OnRecord(s, d);
        assert e < |s.entries| ==> OnRecord(s, e);
      }
    }
    forall w | 0 <= w < |t.waiters| ensures WaiterOk(t, t.waiters[w]) {
      assert w < |s.waiters| ==> WaiterOk(s, s.waiters[w]);
    }
  }

  /** One entry moves on: it does not come to run or complete unless it was running. */
  lemma EntryMoves(s: State, t: State, e: nat, now: Entry)
    requires Invariant(s) && e < |s.entries| && EntryOk(now)
    requires t.entries == s.entries[e := now] && t.waiters == s.waiters && t.epoch == s.epoch
    requires now.key == s.entries[e].key && now.epoch == s.entries[e].epoch
    requires now.stage.Running? || now.completed ==> s.entries[e].stage.Running? || s.entries[e].completed
    requires s.entries[e].stage.Closed? ==> now.stage.Closed? && now.response == s.entries[e].response
    requires t.idem == s.idem ||
             (t.idem == s.idem - {now.key} && !now.stage.Running? && !now.completed && s.idem[now.key] == e)
    requires t.idem != s.idem ==> now.key in s.idem
    ensures Invariant(t)
  {
    forall d: nat | d < |t.entries| ensures EntryOk(t.entries[d]) && t.entries[d].epoch <= t.epoch && OnRecord(t, d) {
      assert OnRecord(s, d);
    }
    forall c: nat, d: nat | c < |t.entries| && d < |t.entries| ensures Apart(t, c, d) {
      assert Apart(s, c, d);
    }
    forall w | 0 <= w < |t.waiters| ensures WaiterOk(t, t.waiters[w]) {
      assert WaiterOk(s, s.waiters[w]);
    }
  }

  lemma ReplayKeeps(s: State, w: nat)
    requires Invariant(s) && Enabled(s, Replay(w))
    ensures Invariant(Apply(s, Replay(w)))
  {
    var t := Apply(s, Replay(w));
    assert WaiterOk(s, s.waiters[w]);
    forall e: nat | e < |t.entries| ensures OnRecord(t, e) {
      assert OnRecord(s, e);
    }
    forall d: nat, e: nat | d < |t.entries| && e < |t.entries| ensures Apart(t, d, e) {
      assert Apart(s, d, e);
    }
    forall v | 0 <= v < |t.waiters| ensures WaiterOk(t, t.waiters[v]) {
      assert WaiterOk(s, s.waiters[v]);
    }
  }

  lemma StepKeepsInvariant(s: State, a: Action)
    requires Invariant(s) && Enabled(s, a)
    ensures Invariant(Apply(s, a))
  {
    match a {
      case Arrive(key) => ArriveKeeps(s, key);
      case Complete(e, r) => EntryMoves(s, Apply(s, a), e, Apply(s, a).entries[e]);
      case Panic(e) => EntryMoves(s, Apply(s, a), e, Apply(s, a).entries[e]);
      case Close(e) => EntryMoves(s, Apply(s, a), e, Apply(s, a).entries[e]);
      case Replay(w) => ReplayKeeps(s, w);
    }
  }

  lemma {:induction false} RunKeepsInvariant(states: seq<State>, actions: seq<Action>, i: nat)
    requires IsRun(states, actions) && Invariant(states[0]) && i < |states|
    ensures Invariant(states[i])
  {
    if i > 0 {
      RunKeepsInvariant(states, actions, i - 1);
      StepKeepsInvariant(states[i - 1], actions[i - 1]);
    }
  }

  lemma RunsKeepInvariant(states: seq<State>, actions: seq<Action>, i: nat)
    requires IsRun(states, actions) && states[0] == Start && i < |states|
    ensures Invariant(states[i])
  {
    RunKeepsInvariant(states, actions, i);
  }

  /** Between two resets the handler of a key never runs twice at once and completes at most once.
      `done` is closed once a request has ended and never again, and everyone who replays an entry
      gets the same response. */
  lemma RunsOnce(states: seq<State>, actions: seq<Action>, i: nat, d: nat, e: nat, v: nat, w: nat)
    requires IsRun(states, actions) && states[0] == Start && i < |states|
    ensures var es := states[i].entries;
            d < |es| && e < |es| && d != e && es[d].key == es[e].key && es[d].epoch == es[e].epoch ==>
              !(es[d].stage.Running? && es[e].stage.Running?) && !(es[d].completed && es[e].completed)
    ensures var es := states[i].entries;
            e < |es| ==> es[e].closings == if es[e].stage.Closed? then 1 else 0
    ensures var ws := states[i].waiters;
            v < |ws| && w < |ws| && ws[v].entry == ws[w].entry && ws[v].replayed && ws[w].replayed ==>
              ws[v].response == ws[w].response
  {
    var s := states[i];
    RunsKeepInvariant(states, actions, i);
    assert d < |s.entries| && e < |s.entries| ==> Apart(s, d, e);
    assert v < |s.waiters| ==> WaiterOk(s, s.waiters[v]);
    assert w < |s.waiters| ==> WaiterOk(s, s.waiters[w]);
  }

  // ---------- everybody is released ----------

  function StageRank(e: Entry): nat {
    match e.stage
    case Running => 2
    case Recorded => 1
    case Dropped => 1
    case Closed => 0
  }

  function EntriesRank(es: seq<Entry>): nat {
    if es == [] then 0 else EntriesRank(es[..|es| - 1]) + StageRank(es[|es| - 1])
  }

  function WaitersRank(ws: seq<Waiter>): nat {
    if ws == [] then 0 else WaitersRank(ws[..|ws| - 1]) + if ws[|ws| - 1].replayed then 0 else 1
  }

  /** The steps left if no further request arrives. */
  function Rank(s: State): nat { EntriesRank(s.entries) + WaitersRank(s.waiters) }

  lemma {:induction false} EntryRankMoves(es: seq<Entry>, e: nat, now: Entry)
    requires e < |es|
    ensures EntriesRank(es[e := now]) == EntriesRank(es) - StageRank(es[e]) + StageRank(now)
  {
    var n := |es| - 1;
    if e == n {
      assert es[e := now][..n] == es[..n];
    } else {
      EntryRankMoves(es[..n], e, now);
      assert es[e := now][..n] == es[..n][e := now];
    }
  }

  lemma {:induction false} WaiterRankMoves(ws: seq<Waiter>, w: nat, now: Waiter)
    requires w < |ws| && !ws[w].replayed && now.replayed
    ensures WaitersRank(ws[w := now]) == WaitersRank(ws) - 1
  {
    var n := |ws| - 1;
    if w == n {
      assert ws[w := now][..n] == ws[..n];
    } else {
      WaiterRankMoves(ws[..n], w, now);
      assert ws[w := now][..n] == ws[..n][w := now];
    }
  }

  lemma StepLowersRank(s: State, a: Action)
    requires Enabled(s, a) && !a.Arrive?
    ensures Rank(Apply(s, a)) < Rank(s)
  {
    var t := Apply(s, a);
    match a {
      case Complete(e, _) => EntryRankMoves(s.entries, e, t.entries[e]);
      case Panic(e) => EntryRankMoves(s.entries, e, t.entries[e]);
      case Close(e) => EntryRankMoves(s.entries, e, t.entries[e]);
      case Replay(w) => WaiterRankMoves(s.waiters, w, t.waiters[w]);
    }
  }

  /** Without new requests everything is over within Rank steps, whether handlers return or panic. */
  lemma {:induction false} SettlesInTime(states: seq<State>, actions: seq<Action>)
    requires IsRun(states, actions) && forall i :: 0 <= i < |actions| ==> !actions[i].Arrive?
    ensures |actions| + Rank(states[|states| - 1]) <= Rank(states[0])
    decreases |actions|
  {
    if |actions| > 0 {
      var n := |actions| - 1;
      assert states[..n + 1][n] == states[n];
      SettlesInTime(states[..n + 1], actions[..n]);
      StepLowersRank(states[n], actions[n]);
    }
  }

  /** Nothing but a new request can happen. */
  ghost predicate Quiet(s: State) { forall a :: Enabled(s, a) ==> a.Arrive? }

  /** Every waiter has replayed its entry, and every entry's `done` has been closed exactly once. */
  ghost predicate AllReleased(s: State) {
    && (forall w: nat :: w < |s.waiters| ==> s.waiters[w].replayed)
    && (forall e: nat :: e < |s.entries| ==> s.entries[e].stage.Closed? && s.entries[e].closings == 1)
  }

  lemma QuietMeansReleased(s: State)
    requires Invariant(s)
    ensures Quiet(s) <==> AllReleased(s)
  {
    if Quiet(s) {
      forall e: nat | e < |s.entries| ensures s.entries[e].stage.Closed? && s.entries[e].closings == 1 {
        assert EntryOk(s.entries[e]);
        assert !Enabled(s, Panic(e)) && !Enabled(s, Close(e));
      }
      forall w: nat | w < |s.waiters| ensures s.waiters[w].replayed {
        assert WaiterOk(s, s.waiters[w]);
        assert !Enabled(s, Replay(w));
      }
    }
  }

  /** Without new requests every schedule ends within Rank steps, whether handlers return or panic,
      and it cannot end before every waiter is released and every `done` closed exactly once. */
  lemma EveryoneIsReleased(states: seq<State>, actions: seq<Action>)
    requires IsRun(states, actions) && Invariant(states[0])
    requires forall i :: 0 <= i < |actions| ==> !actions[i].Arrive?
    ensures |actions| <= Rank(states[0])
    ensures Quiet(states[|states| - 1]) <==> AllReleased(states[|states| - 1])
  {
    SettlesInTime(states, actions);
    RunKeepsInvariant(states, actions, |actions|);
    QuietMeansReleased(states[|actions|]);
  }

  /** The steps that close the entry's `done`, its handler returning `r` or panicking. */
  function Finish(e: nat, stage: Stage, panics: bool, r: Response): seq<Action> {
    match stage
    case Running => [if panics then Panic(e) else Complete(e, r), Close(e)]
    case Recorded => [Close(e)]
    case Dropped => [Close(e)]
    case Closed => []
  }

  lemma CloseStep(s: State, e: nat)
    requires e < |s.entries| && EntryOk(s.entries[e]) && (s.entries[e].stage.Recorded? || s.entries[e].stage.Dropped?)
    ensures var t := Apply(s, Close(e));
            && t.waiters == s.waiters && |t.entries| == |s.entries| && t.entries[e].closings == 1
            && t.entries[e].response == s.entries[e].response
  {
  }

  lemma StopStep(s: State, e: nat, panics: bool, r: Response)
    requires Invariant(s) && e < |s.entries| && s.entries[e].stage.Running?
    ensures var a := if panics then Panic(e) else Complete(e, r);
            && Enabled(s, a) && Apply(s, a).waiters == s.waiters && |Apply(s, a).entries| == |s.entries|
            && EntryOk(Apply(s, a).entries[e]) && Apply(s, a).entries[e].response == Outcome(s.entries[e], panics, r)
            && (Apply(s, a).entries[e].stage.Recorded? || Apply(s, a).entries[e].stage.Dropped?)
  {
    assert EntryOk(s.entries[e]);
  }

  lemma EndHandler(s: State, e: nat, panics: bool, r: Response) returns (states: seq<State>, actions: seq<Action>)
    requires Invariant(s) && e < |s.entries|
    ensures IsRun(states, actions) && states[0] == s && actions == Finish(e, s.entries[e].stage, panics, r)
    ensures var t := states[|actions|];
            && t.waiters == s.waiters && |t.entries| == |s.entries| && t.entries[e].closings == 1
            && t.entries[e].response == Outcome(s.entries[e], panics, r)
  {
    assert EntryOk(s.entries[e]);
    states, actions := [s], [];
    if s.entries[e].stage.Closed? {
      return;
    }
    if s.entries[e].stage.Running? {
      StopStep(s, e, panics, r);
      states, actions := OneMore(states, actions, if panics then Panic(e) else Complete(e, r));
    }
    CloseStep(states[|actions|], e);
    states, actions := OneMore(states, actions, Close(e));
  }

  /** What an entry's waiters replay in the end. */
  function Outcome(e: Entry, panics: bool, r: Response): Response {
    if !e.stage.Running? then e.response else if panics then SERVER_ERROR else r
  }

  /** A waiter is released by its entry alone: once the handler has returned or panicked, closing
      `done` lets the waiter replay what was recorded, or an error. */
  lemma NeverStuck(s: State, w: nat, panics: bool, r: Response) returns (states: seq<State>, actions: seq<Action>)
    requires Invariant(s) && w < |s.waiters| && !s.waiters[w].replayed
    ensures var e := s.waiters[w].entry;
            && e < |s.entries| && IsRun(states, actions) && states[0] == s
            && actions == Finish(e, s.entries[e].stage, panics, r) + [Replay(w)]
            && var replayed := if !s.entries[e].stage.Running? then s.entries[e].response
               else if panics then 500 else r;
               states[|actions|].waiters == s.waiters[w := Waiter(e, true, replayed)]
  {
    assert WaiterOk(s, s.waiters[w]);
    states, actions := EndHandler(s, s.waiters[w].entry, panics, r);
    states, actions := OneMore(states, actions, Replay(w));
  }

  /** A request whose handler has panicked is not on record any more: the next one with its key runs
      the handler again, while one whose handler has completed is on record, and the next one waits. */
  lemma RetryAfterPanic(s: State, e: nat, r: Response)
    requires Invariant(s) && e < |s.entries| && s.entries[e].stage.Running? && s.entries[e].epoch == s.epoch
    ensures var t := Apply(Apply(s, Panic(e)), Arrive(s.entries[e].key));
            && |t.entries| == |s.entries| + 1 && t.waiters == s.waiters
            && t.entries[|s.entries|].key == s.entries[e].key && t.entries[|s.entries|].stage.Running?
    ensures var t := Apply(Apply(s, Complete(e, r)), Arrive(s.entries[e].key));
            |t.entries| == |s.entries| && t.waiters == s.waiters + [Waiter(e, false, 0)]
  {
    assert OnRecord(s, e);
  }

  // ---------- across a reset ----------

  /** The distinct keys that arrive. */
  function KeysOf(actions: seq<Action>): set<Key> {
    if actions == [] then {}
    else
      var last := actions[|actions| - 1];
      KeysOf(actions[..|actions| - 1]) + if last.Arrive? then {last.key} else {}
  }

  /** Two entries for one key, both running. */
  ghost predicate TwoRun(s: State, d: nat, e: nat) {
    d < e < |s.entries| && s.entries[d].key == s.entries[e].key && s.entries[d].stage.Running? &&
        s.entries[e].stage.Running?
  }

  /** Two entries for one key, both of whose handlers have completed. */
  ghost predicate TwoComplete(s: State, d: nat, e: nat) {
    d < e < |s.entries| && s.entries[d].key == s.entries[e].key && s.entries[d].completed && s.entries[e].completed
  }

  lemma SmallerSet(a: set<Key>, b: set<Key>)
    requires a <= b
    ensures |a| <= |b|
  {
    if k :| k in b && k !in a {
      SmallerSet(a, b - {k});
    } else {
      assert a == b;
    }
  }

  lemma {:induction false} NoReset(states: seq<State>, actions: seq<Action>)
    requires IsRun(states, actions) && states[0] == Start && |KeysOf(actions)| <= LIMIT
    ensures var s := states[|actions|]; s.epoch == 0 && s.idem.Keys <= KeysOf(actions)
    decreases |actions|
  {
    if actions != [] {
      var n := |actions| - 1;
      var before, last := actions[..n], actions[n];
      SmallerSet(KeysOf(before), KeysOf(actions));
      assert states[..n + 1][n] == states[n];
      NoReset(states[..n + 1], before);
      var s := states[n];
      if last.Arrive? && last.key !in s.idem {
        SmallerSet(s.idem.Keys + {last.key}, KeysOf(actions));
        assert |s.idem.Keys + {last.key}| == |s.idem| + 1;
      }
    }
  }

  /** With at most a thousand keys the record is never reset, and then no key's handler ever runs
      twice at once or completes a second time. */
  lemma FewKeysRunOnce(states: seq<State>, actions: seq<Action>, d: nat, e: nat)
    requires IsRun(states, actions) && states[0] == Start && |KeysOf(actions)| <= 1000
    ensures !TwoRun(states[|actions|], d, e) && !TwoComplete(states[|actions|], d, e)
  {
    NoReset(states, actions);
    RunsKeepInvariant(states, actions, |actions|);
    var s := states[|actions|];
    if d < e < |s.entries| {
      assert EntryOk(s.entries[d]) && EntryOk(s.entries[e]) && Apart(s, d, e);
    }
  }

  function NthKey(n: nat): (k: Key)
    ensures |k| == n
  {
    seq(n, _ => 'k')
  }

  /** n keys, none as long as n. */
  ghost predicate Short(ks: set<Key>, n: nat) {
    |ks| == n && forall k :: k in ks ==> |k| < n
  }

  /** n entries on record, the first of them running for the empty key. */
  ghost predicate Filled(s: State, n: nat) {
    && s.epoch == 0 && |s.entries| == n && Short(s.idem.Keys, n)
    && (n > 0 ==> "" in s.idem && s.entries[0].key == "" && s.entries[0].stage.Running?)
  }

  lemma FillStep(s: State, n: nat, key: Key)
    requires n < LIMIT && Filled(s, n) && |key| == n
    ensures Filled(Apply(s, Arrive(key)), n + 1) && Apply(s, Arrive(key)).idem.Keys == s.idem.Keys + {key}
  {
    assert |s.idem| == |s.idem.Keys| && key !in s.idem.Keys;
    assert (s.idem[key := n]).Keys == s.idem.Keys + {key};
  }

  lemma {:induction false} FillUp(n: nat) returns (states: seq<State>, actions: seq<Action>)
    requires n <= LIMIT
    ensures IsRun(states, actions) && states[0] == Start
    ensures Filled(states[|actions|], n) && KeysOf(actions) == states[|actions|].idem.Keys
  {
    if n == 0 {
      states, actions := [Start], [];
    } else {
      states, actions := FillUp(n - 1);
      FillStep(states[|actions|], n - 1, NthKey(n - 1));
      states, actions := OneMore(states, actions, Arrive(NthKey(n - 1)));
    }
  }

  lemma OneMore(states: seq<State>, actions: seq<Action>, a: Action) returns (ss: seq<State>, as_: seq<Action>)
    requires IsRun(states, actions) && Enabled(states[|states| - 1], a)
    ensures IsRun(ss, as_) && ss[0] == states[0] && ss[|ss| - 1] == Apply(states[|states| - 1], a)
    ensures as_ == actions + [a] && KeysOf(as_) == KeysOf(actions) + if a.Arrive? then {a.key} else {}
  {
    ss, as_ := states + [Apply(states[|states| - 1], a)], actions + [a];
    assert as_[..|actions|] == actions;
  }

  lemma WipeStep(s: State, first: Key, last: Key)
    requires |s.idem| == |s.entries| == LIMIT && last !in s.idem && first != last
    requires s.entries[0].key == first && s.entries[0].stage.Running?
    ensures TwoRun(Apply(Apply(s, Arrive(last)), Arrive(first)), 0, |s.entries| + 1)
  {
  }

  /** The thousand-and-first key wipes the record while a request is under way, and its retry is
      taken for a first one. */
  lemma ResetLetsTwoRun() returns (states: seq<State>, actions: seq<Action>)
    ensures IsRun(states, actions) && states[0] == Start && Short(KeysOf(actions), LIMIT + 1)
    ensures TwoRun(states[|actions|], 0, LIMIT + 1)
  {
    states, actions := FillUp(LIMIT);
    var s, last := states[|actions|], NthKey(LIMIT);
    assert |s.idem| == |s.idem.Keys|;
    WipeStep(s, "", last);
    states, actions := OneMore(states, actions, Arrive(last));
    states, actions := OneMore(states, actions, Arrive(""));
    assert s.idem.Keys + {last} + {""} == s.idem.Keys + {last};
  }

  lemma TwoRunStay(s: State, key: Key, d: nat, e: nat)
    requires TwoRun(s, d, e)
    ensures TwoRun(Apply(s, Arrive(key)), d, e)
  {
  }

  lemma {:induction false} ManyKeysRunTwo(n: nat) returns (states: seq<State>, actions: seq<Action>)
    requires n > LIMIT
    ensures IsRun(states, actions) && states[0] == Start && Short(KeysOf(actions), n)
    ensures TwoRun(states[|actions|], 0, LIMIT + 1)
  {
    if n == LIMIT + 1 {
      states, actions := ResetLetsTwoRun();
    } else {
      states, actions := ManyKeysRunTwo(n - 1);
      TwoRunStay(states[|actions|], NthKey(n - 1), 0, LIMIT + 1);
      states, actions := OneMore(states, actions, Arrive(NthKey(n - 1)));
    }
  }

  /** A run in which n distinct keys arrive and which ends with one key's handler running twice. */
  ghost predicate RunsTwo(n: nat, states: seq<State>, actions: seq<Action>, d: nat, e: nat) {
    IsRun(states, actions) && states[0] == Start && |KeysOf(actions)| == n && TwoRun(states[|actions|], d, e)
  }

  /** Runs with n distinct keys can have one key's handler run twice at once if and only if n
      exceeds the thousand entries after which the record is reset. */
  lemma TwoRunIffOverLimit(n: nat)
    ensures (exists states, actions, d, e :: RunsTwo(n, states, actions, d, e)) <==> n > 1000
  {
    if n > LIMIT {
      var states, actions := ManyKeysRunTwo(n);
      assert RunsTwo(n, states, actions, 0, LIMIT + 1);
    } else {
      forall states, actions, d, e ensures !RunsTwo(n, states, actions, d, e) {
        if RunsTwo(n, states, actions, d, e) {
          FewKeysRunOnce(states, actions, d, e);
        }
      }
    }
  }

  lemma BothComplete(s: State, d: nat, e: nat, r: Response)
    requires TwoRun(s, d, e)
    ensures Enabled(s, Complete(d, r)) && Enabled(Apply(s, Complete(d, r)), Complete(e, r))
    ensures TwoComplete(Apply(Apply(s, Complete(d, r)), Complete(e, r)), d, e)
  {
  }

  lemma ManyKeysCompleteTwo(n: nat) returns (states: seq<State>, actions: seq<Action>)
    requires n > LIMIT
    ensures IsRun(states, actions) && states[0] == Start && |KeysOf(actions)| == n
    ensures TwoComplete(states[|actions|], 0, LIMIT + 1)
  {
    states, actions := ManyKeysRunTwo(n);
    BothComplete(states[|actions|], 0, LIMIT + 1, SERVER_ERROR);
    states, actions := OneMore(states, actions, Complete(0, SERVER_ERROR));
    states, actions := OneMore(states, actions, Complete(LIMIT + 1, SERVER_ERROR));
  }

  /** A run in which n distinct keys arrive and in which one key's handler has completed twice. */
  ghost predicate CompletesTwo(n: nat, states: seq<State>, actions: seq<Action>, d: nat, e: nat) {
    IsRun(states, actions) && states[0] == Start && |KeysOf(actions)| == n && TwoComplete(states[|actions|], d, e)
  }

  /** And the same holds of completing twice. */
  lemma TwoCompleteIffOverLimit(n: nat)
    ensures (exists states, actions, d, e :: CompletesTwo(n, states, actions, d, e)) <==> n > 1000
  {
    if n > LIMIT {
      var states, actions := ManyKeysCompleteTwo(n);
      assert CompletesTwo(n, states, actions, 0, LIMIT + 1);
    } else {
      forall states, actions, d, e ensures !CompletesTwo(n, states, actions, d, e) {
        if CompletesTwo(n, states, actions, d, e) {
          FewKeysRunOnce(states, actions, d, e);
        }
      }
    }
  }
}
