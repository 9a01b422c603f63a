/** The scheduler goroutine and its producers, one atomic step at a time: the file watcher and
    manual runs put a rule into the shared dirty set and then offer a token to a channel that
    holds one; the scheduler takes the token, lets a batch settle, and drains the set. */
module SchedulerProtocol {
  import opened WatchRules
  import opened Builds

  datatype Config = Config(deps: Deps, order: seq<string>)

  ghost predicate ValidConfig(c: Config) {
    Closed(c.deps) && IsTopological(c.deps, c.order)
  }

  datatype Phase = Waiting | Batching | Draining | Running(rule: string) | Stopped

  /** `sending` holds the producers that have inserted and not yet offered their token. The
      stamps tell events apart: `latest` is the newest one inserted per rule, `served` the
      newest one taken out to be run. */
  datatype State = State(
    dirty: map<string, nat>,
    sending: set<nat>,
    token: bool,
    phase: Phase,
    latest: map<string, nat>,
    served: map<string, nat>,
    clock: nat)

  datatype Action =
    | Insert(producer: nat, rule: string)
    | Send(producer: nat)
    | Wake
    | Coalesce
    | Timeout
    | Pick(at: nat)
    | FoundNothing
    | Finish
    | Cancel

  const Start := State(map[], {}, false, Waiting, map[], map[], 0)

  ghost predicate Enabled(c: Config, s: State, a: Action) {
    match a
    case Insert(p, n) => p !in s.sending && n in c.deps
    case Send(p) => p in s.sending
    case Wake => s.phase.Waiting? && s.token
    case Coalesce => s.phase.Batching? && s.token
    case Timeout => s.phase.Batching?
    case Pick(at) => s.phase.Draining? && FirstUnblocked(c.deps, c.order, s.dirty.Keys, at)
    case FoundNothing => s.phase.Draining? && AllBlockedBefore(c.deps, c.order, s.dirty.Keys, |c.order|)
    case Finish => s.phase.Running?
    case Cancel => s.phase.Waiting? || s.phase.Batching? || s.phase.Draining?
  }

  ghost function Apply(c: Config, s: State, a: Action): State
    requires Enabled(c, s, a)
  {
    match a
    case Insert(p, n) =>
      s.(dirty := s.dirty[n := s.clock], latest := s.latest[n := s.clock], clock := s.clock + 1,
         sending := s.sending + {p})
    case Send(p) => s.(sending := s.sending - {p}, token := true)
    case Wake => s.(token := false, phase := Batching)
    case Coalesce => s.(token := false)
    case Timeout => s.(phase := Draining)
    case Pick(at) =>
      var n := c.order[at];
      s.(dirty := s.dirty - {n}, served := s.served[n := s.dirty[n]], phase := Running(n))
    case FoundNothing => s.(phase := Waiting)
    case Finish => s.(phase := Draining)
    case Cancel => s.(phase := Stopped)
  }

  ghost predicate IsRun(c: Config, states: seq<State>, actions: seq<Action>) {
    && |states| == |actions| + 1
    && (forall i :: 0 <= i < |actions| ==> Enabled(c, states[i], actions[i]))
    && (forall i :: 0 <= i < |actions| ==> states[i + 1] == Apply(c, states[i], actions[i]))
  }

  // ---------- the invariant ----------

  /** Somebody will still look at the dirty set. */
  predicate Attended(s: State) {
    s.token || s.sending != {} || !s.phase.Waiting?
  }

  ghost predicate NoLostWakeup(s: State) {
    s.dirty != map[] ==> Attended(s)
  }

  /** A dirty rule carries its newest event; a clean one has had its newest event served. */
  ghost predicate NoLostEvent(s: State) {
    && s.dirty.Keys <= s.latest.Keys
    && (forall n :: n in s.dirty ==> s.dirty[n] == s.latest[n])
    && (forall n :: n in s.latest && n !in s.dirty ==> n in s.served && s.served[n] == s.latest[n])
  }

  ghost predicate Invariant(c: Config, s: State) {
    s.dirty.Keys <= c.deps.Keys && NoLostWakeup(s) && NoLostEvent(s)
  }

  lemma StepKeepsInvariant(c: Config, s: State, a: Action)
    requires ValidConfig(c) && Invariant(c, s) && Enabled(c, s, a)
    ensures Invariant(c, Apply(c, s, a))
  {
    if a.FoundNothing? {
      EmptyScanMeansClean(c.deps, c.order, s.dirty.Keys);
      assert s.dirty == map[];
    }
  }

  /** In every state of every run, whatever the interleaving. */
  lemma {:induction false} RunsKeepInvariant(c: Config, states: seq<State>, actions: seq<Action>, i: nat)
    requires ValidConfig(c) && IsRun(c, states, actions) && states[0] == Start && i < |states|
    ensures Invariant(c, states[i])
  {
    if i > 0 {
      RunsKeepInvariant(c, states, actions, i - 1);
      StepKeepsInvariant(c, states[i - 1], actions[i - 1]);
    }
  }

  /** All idle and no token: every rule's newest event has been taken out and run. */
  lemma QuietMeansServed(c: Config, states: seq<State>, actions: seq<Action>, i: nat)
    requires ValidConfig(c) && IsRun(c, states, actions) && states[0] == Start && i < |states|
    requires !Attended(states[i])
    ensures states[i].dirty == map[]
    ensures forall n :: n in states[i].latest ==> n in states[i].served && states[i].served[n] == states[i].latest[n]
  {
    RunsKeepInvariant(c, states, actions, i);
  }

  /** From the k-th step on the rule has been started. */
  ghost predicate StartedFrom(c: Config, actions: seq<Action>, k: nat, n: string) {
    exists j :: k <= j < |actions| && actions[j].Pick? && 0 <= actions[j].at < |c.order| && c.order[actions[j].at] == n
  }

  lemma {:induction false} DirtyUntilStarted(c: Config, states: seq<State>, actions: seq<Action>, i: nat, n: string)
    requires IsRun(c, states, actions) && i < |actions| && actions[i].Insert? && actions[i].rule == n
    ensures n in states[|actions|].dirty || StartedFrom(c, actions, i + 1, n)
    decreases |actions|
  {
    var k := |actions| - 1;
    RunWithoutLast(c, states, actions);
    if i < k {
      DirtyUntilStarted(c, states[..k + 1], actions[..k], i, n);
      if StartedFrom(c, actions[..k], i + 1, n) {
        var j :| i + 1 <= j < k && actions[..k][j].Pick? && 0 <= actions[..k][j].at < |c.order| &&
          c.order[actions[..k][j].at] == n;
        assert actions[j] == actions[..k][j];
      } else if actions[k].Pick? && c.order[actions[k].at] == n {
        assert actions[k].Pick?;
      }
    }
  }

  /** No change is lost: in every run in which a change has come in and all are idle in the end without
      a token, the rule has been started after it. */
  lemma NoChangeIsLost(c: Config, states: seq<State>, actions: seq<Action>, i: nat)
    requires ValidConfig(c) && IsRun(c, states, actions) && states[0] == Start
    requires i < |actions| && actions[i].Insert?
    requires states[|actions|].phase.Waiting? && !states[|actions|].token && states[|actions|].sending == {}
    ensures StartedFrom(c, actions, i + 1, actions[i].rule)
  {
    QuietMeansServed(c, states, actions, |actions|);
    DirtyUntilStarted(c, states, actions, i, actions[i].rule);
  }

  /** Producers wait for nobody: whoever is not about to send can always insert any rule, and send next. */
  lemma ProducersAreFree(c: Config, s: State, p: nat, n: string)
    requires p !in s.sending && n in c.deps
    ensures Enabled(c, s, Insert(p, n)) && Enabled(c, Apply(c, s, Insert(p, n)), Send(p))
    ensures Apply(c, Apply(c, s, Insert(p, n)), Send(p)).token && n in Apply(c, s, Insert(p, n)).dirty
  {
  }

  /** Whenever the scheduler starts a rule, no transitive dependency of it is dirty. */
  lemma PicksAreClean(c: Config, states: seq<State>, actions: seq<Action>, i: nat, n: string)
    requires ValidConfig(c) && IsRun(c, states, actions)
    requires i < |actions| && actions[i].Pick? && Reaches(c.deps, c.order[actions[i].at], n)
    ensures n !in states[i].dirty
  {
    assert Enabled(c, states[i], actions[i]);
    PickedHasCleanDeps(c.deps, c.order, states[i].dirty.Keys, actions[i].at, n);
  }

  // ---------- progress ----------

  function PhaseRank(p: Phase): nat {
    match p
    case Waiting => 0
    case Stopped => 0
    case Draining => 1
    case Running(_) => 2
    case Batching => 2
  }

  /** An upper bound on the steps left until all is quiet, if nothing new is inserted. */
  function Rank(s: State): nat {
    4 * |s.sending| + (if s.token then 3 else 0) + 2 * |s.dirty| + PhaseRank(s.phase)
  }

  lemma StepLowersRank(c: Config, s: State, a: Action)
    requires Enabled(c, s, a) && !a.Insert? && !a.Cancel?
    ensures Rank(Apply(c, s, a)) < Rank(s)
  {
    if a.Pick? {
      var n := c.order[a.at];
      assert (s.dirty - {n}).Keys == s.dirty.Keys - {n};
    }
  }

  ghost predicate NothingNew(actions: seq<Action>) {
    forall i :: 0 <= i < |actions| ==> !actions[i].Insert? && !actions[i].Cancel?
  }

  /** Without new events the protocol settles within Rank steps, however it is scheduled. */
  lemma {:induction false} SettlesInTime(c: Config, states: seq<State>, actions: seq<Action>)
    requires IsRun(c, states, actions) && NothingNew(actions)
    ensures |actions| + Rank(states[|states| - 1]) <= Rank(states[0])
    decreases |actions|
  {
    if |actions| > 0 {
      var n := |actions| - 1;
      RunWithoutLast(c, states, actions);
      var ss, as_ := states[..n + 1], actions[..n];
      assert NothingNew(as_) && ss[0] == states[0];
      SettlesInTime(c, ss, as_);
      StepLowersRank(c, states[n], actions[n]);
    }
  }

  lemma RunWithoutLast(c: Config, states: seq<State>, actions: seq<Action>)
    requires IsRun(c, states, actions) && actions != []
    ensures var n := |actions| - 1;
            IsRun(c, states[..n + 1], actions[..n]) && states[..n + 1][n] == states[n] &&
            Enabled(c, states[n], actions[n]) && states[n + 1] == Apply(c, states[n], actions[n])
  {
    var n := |actions| - 1;
    var ss, as_ := states[..n + 1], actions[..n];
    forall i | 0 <= i < n ensures Enabled(c, ss[i], as_[i]) && ss[i + 1] == Apply(c, ss[i], as_[i]) {
      assert Enabled(c, states[i], actions[i]);
    }
  }

  /** As long as somebody is to look at the dirty set, some step other than an insert or a
      shutdown can be taken: nobody waits for anybody else. */
  lemma NeverStuck(c: Config, s: State) returns (a: Action)
    requires ValidConfig(c) && Invariant(c, s) && Attended(s) && !s.phase.Stopped?
    ensures Enabled(c, s, a) && !a.Insert? && !a.Cancel?
  {
    if s.sending != {} {
      var p :| p in s.sending;
      a := Send(p);
    } else {
      match s.phase
      case Waiting => a := Wake;
      case Batching => a := Timeout;
      case Running(_) => a := Finish;
      case Draining =>
        if AllBlockedBefore(c.deps, c.order, s.dirty.Keys, |c.order|) {
          a := FoundNothing;
        } else {
          var k := FirstFree(c.deps, c.order, s.dirty.Keys, 0);
          a := Pick(k);
        }
    }
  }

  lemma FirstFree(deps: Deps, order: seq<string>, dirty: set<string>, from: nat) returns (k: nat)
    requires from <= |order| && AllBlockedBefore(deps, order, dirty, from)
    requires !AllBlockedBefore(deps, order, dirty, |order|)
    ensures FirstUnblocked(deps, order, dirty, k)
    decreases |order| - from
  {
    if order[from] in dirty && !Blocked(deps, dirty, order[from]) {
      k := from;
    } else {
      k := FirstFree(deps, order, dirty, from + 1);
    }
  }
}
