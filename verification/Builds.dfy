/** The initial build and the scheduler's drain of the dirty set. */
module Builds {
  import opened Seqs
  import opened WatchRules
  import opened DependencyGraph

  function FindRule(rules: seq<WatchRule>, name: string): (r: WatchRule)
    requires name in Names(rules)
    ensures r in rules && r.name == name
  {
    if rules[0].name == name then rules[0]
    else
      assert rules == [rules[0]] + rules[1..];
      assert name in Names(rules[1..]) by {
        var i :| 0 <= i < |rules| && rules[i].name == name;
        assert rules[1..][i - 1].name == name;
      }
      FindRule(rules[1..], name)
  }

  lemma FindRuleDepends(rules: seq<WatchRule>, name: string)
    requires UniqueNames(rules) && name in Names(rules)
    ensures name in DepsOf(rules) && FindRule(rules, name).depends == DepsOf(rules)[name]
  {
  }

  /** The elements of `order` that lie in s, in their order. */
  function Keep(order: seq<string>, s: set<string>): seq<string> {
    if order == [] then []
    else Keep(order[..|order| - 1], s) + if order[|order| - 1] in s then [order[|order| - 1]] else []
  }

  lemma {:induction false} KeepElems(order: seq<string>, s: set<string>)
    ensures Elems(Keep(order, s)) == Elems(order) * s
    ensures Distinct(order) ==> Distinct(Keep(order, s))
  {
    if order != [] {
      var init, last := order[..|order| - 1], order[|order| - 1];
      KeepElems(init, s);
      assert order == init + [last];
      assert Elems(order) == Elems(init) + {last};
      var k := Keep(init, s);
      assert Keep(order, s) == k + if last in s then [last] else [];
      assert Elems(Keep(order, s)) == Elems(k) + if last in s then {last} else {};
      if Distinct(order) && last in s {
        assert last !in init;
        assert last !in Elems(k);
      }
    }
  }

  lemma {:induction false} KeepFilters(order: seq<string>, s: set<string>)
    ensures Keep(order, s) == Filter(order, x => x in s)
  {
    if order != [] {
      KeepFilters(order[..|order| - 1], s);
    }
  }

  lemma {:induction false} KeepExtra(order: seq<string>, s: set<string>, x: string)
    requires x !in order
    ensures Keep(order, s) == Keep(order, s + {x})
  {
    if order != [] {
      assert order[|order| - 1] in order;
      KeepExtra(order[..|order| - 1], s, x);
    }
  }

  // ---------- the initial build ----------

  /** n's own command fails, or that of one of its transitive dependencies. */
  ghost predicate Broken(deps: Deps, bad: set<string>, n: string) {
    n in bad || Skipped(deps, bad, n)
  }

  ghost predicate Skipped(deps: Deps, bad: set<string>, n: string) {
    exists m :: m in bad && Reaches(deps, n, m)
  }

  lemma SkippedIffBrokenDep(deps: Deps, bad: set<string>, n: string)
    ensures Skipped(deps, bad, n) <==> exists d :: Edge(deps, n, d) && Broken(deps, bad, d)
  {
    if m :| m in bad && Reaches(deps, n, m) {
      ReachesUnfold(deps, n, m);
      if !Edge(deps, n, m) {
        var d :| Edge(deps, n, d) && Reaches(deps, d, m);
        assert Broken(deps, bad, d);
      }
    }
    if d :| Edge(deps, n, d) && Broken(deps, bad, d) {
      if d in bad {
        ReachesUnfold(deps, n, d);
      } else {
        var m :| m in bad && Reaches(deps, d, m);
        ReachesUnfold(deps, n, m);
      }
    }
  }

  /** The rules whose command would fail when run; `exits` is the outcome of running it. */
  ghost function Bad(rules: seq<WatchRule>, exits: set<string>): set<string> {
    set r | r in rules && r.cmd != "" && r.name in exits :: r.name
  }

  ghost function BrokenRules(deps: Deps, bad: set<string>): set<string> {
    set n | n in deps && Broken(deps, bad, n)
  }

  /** The rules whose command is run: they have one and nothing they depend on fails. */
  ghost function RunnableRules(rules: seq<WatchRule>, bad: set<string>): set<string>
    requires UniqueNames(rules)
  {
    set r | r in rules && r.cmd != "" && !Skipped(DepsOf(rules), bad, r.name) :: r.name
  }

  /** One visit: the rule is skipped iff a dependency has failed, and that is iff it is not to
      run; it then counts as broken, and otherwise it does iff its own command fails. */
  lemma BuildStep(rules: seq<WatchRule>, order: seq<string>, i: nat, exits: set<string>, failed: set<string>)
    requires UniqueNames(rules) && KnownDeps(rules) && IsTopological(DepsOf(rules), order) && i < |order|
    requires failed == BrokenRules(DepsOf(rules), Bad(rules, exits)) * Elems(order[..i])
    ensures order[i] in Names(rules)
    ensures var rule, bad := FindRule(rules, order[i]), Bad(rules, exits);
            var skip := exists d :: d in rule.depends && d in failed;
            && (order[i] in BrokenRules(DepsOf(rules), bad) <==> skip || (rule.cmd != "" && order[i] in exits))
            && (order[i] in RunnableRules(rules, bad) <==> !skip && rule.cmd != "")
  {
    var deps, bad, name := DepsOf(rules), Bad(rules, exits), order[i];
    DepsOfClosed(rules);
    assert name in Elems(order);
    FindRuleDepends(rules, name);
    SkippedIffBrokenDep(deps, bad, name);
    forall d | d in deps[name] ensures d in failed <==> Broken(deps, bad, d) {
      assert d in order[..i];
      assert d in Elems(order[..i]);
    }
    assert Skipped(deps, bad, name) <==> exists d :: d in deps[name] && d in failed by {
      if d :| Edge(deps, name, d) && Broken(deps, bad, d) {
        assert d in failed;
      }
      if d :| d in deps[name] && d in failed {
        assert Edge(deps, name, d);
      }
    }
  }

  /** What one visit adds to the failed rules and to the commands run. */
  lemma BuildTurn(rules: seq<WatchRule>, order: seq<string>, i: nat, exits: set<string>, failed: set<string>)
    requires UniqueNames(rules) && KnownDeps(rules) && IsTopological(DepsOf(rules), order) && i < |order|
    requires failed == BrokenRules(DepsOf(rules), Bad(rules, exits)) * Elems(order[..i])
    ensures order[i] in Names(rules)
    ensures var rule, bad := FindRule(rules, order[i]), Bad(rules, exits);
            var skip := exists d :: d in rule.depends && d in failed;
            && BrokenRules(DepsOf(rules), bad) * Elems(order[..i + 1]) ==
                 failed + (if skip || (rule.cmd != "" && order[i] in exits) then {order[i]} else {})
            && Keep(order[..i + 1], RunnableRules(rules, bad)) ==
                 Keep(order[..i], RunnableRules(rules, bad)) + if !skip && rule.cmd != "" then [order[i]] else []
  {
    BuildStep(rules, order, i, exits, failed);
    ElemsStep(order, i, BrokenRules(DepsOf(rules), Bad(rules, exits)));
    KeepStep(order, i, RunnableRules(rules, Bad(rules, exits)));
  }

  /** Runs every rule once, dependencies first. `exits` holds the rules whose command, when
      run, reports an error. */
  method InitialBuild(rules: seq<WatchRule>, order: seq<string>, exits: set<string>)
    returns (failed: set<string>, ran: seq<string>)
    requires UniqueNames(rules) && KnownDeps(rules) && IsTopological(DepsOf(rules), order)
    ensures failed == BrokenRules(DepsOf(rules), Bad(rules, exits))
    ensures ran == Keep(order, RunnableRules(rules, Bad(rules, exits)))
  {
    failed, ran := {}, [];
    ghost var broken := BrokenRules(DepsOf(rules), Bad(rules, exits));
    ghost var runnable := RunnableRules(rules, Bad(rules, exits));
    for i := 0 to |order|
      invariant failed == broken * Elems(order[..i])
      invariant ran == Keep(order[..i], runnable)
    {
      BuildTurn(rules, order, i, exits, failed);
      var name := order[i];
      var rule := FindRule(rules, name);
      var depFailed := exists d | d in rule.depends :: d in failed;
      if depFailed {
        failed := failed + {name};
      } else if rule.cmd != "" {
        ran := ran + [name];
        if name in exits {
          failed := failed + {name};
        }
      }
    }
    assert order[..|order|] == order;
    assert Elems(order) == DepsOf(rules).Keys;
  }

  /** Rule n fails: it has a command that reports an error. */
  ghost predicate Fails(rules: seq<WatchRule>, exits: set<string>, n: string) {
    n in exits && exists i :: 0 <= i < |rules| && rules[i].name == n && rules[i].cmd != ""
  }

  /** A rule counts as failed if it fails or depends, directly or not, on one that does; and the commands
      are run, in the order, of the rules that have one and depend on none that fails. */
  lemma FailedAndRan(rules: seq<WatchRule>, order: seq<string>, exits: set<string>, n: string)
    requires UniqueNames(rules) && KnownDeps(rules)
    ensures n in BrokenRules(DepsOf(rules), Bad(rules, exits)) <==>
            n in Names(rules) &&
            (Fails(rules, exits, n) || exists m :: Fails(rules, exits, m) && Reaches(DepsOf(rules), n, m))
    ensures n in RunnableRules(rules, Bad(rules, exits)) <==>
            (exists i :: 0 <= i < |rules| && rules[i].name == n && rules[i].cmd != "") &&
            !exists m :: Fails(rules, exits, m) && Reaches(DepsOf(rules), n, m)
    ensures Keep(order, RunnableRules(rules, Bad(rules, exits))) ==
            Filter(order, x => x in RunnableRules(rules, Bad(rules, exits)))
  {
    DepsOfClosed(rules);
    forall m ensures m in Bad(rules, exits) <==> Fails(rules, exits, m) {
      if i :| 0 <= i < |rules| && rules[i].name == m && rules[i].cmd != "" {
        assert rules[i] in rules;
      }
    }
    KeepFilters(order, RunnableRules(rules, Bad(rules, exits)));
    RunnableHas(rules, Bad(rules, exits), n);
  }

  lemma RunnableHas(rules: seq<WatchRule>, bad: set<string>, n: string)
    requires UniqueNames(rules)
    ensures n in RunnableRules(rules, bad) <==>
            (exists i :: 0 <= i < |rules| && rules[i].name == n && rules[i].cmd != "") &&
                !Skipped(DepsOf(rules), bad, n)
  {
    if i :| 0 <= i < |rules| && rules[i].name == n && rules[i].cmd != "" {
      assert rules[i] in rules;
    }
  }

  lemma ElemsStep(order: seq<string>, i: nat, s: set<string>)
    requires i < |order|
    ensures s * Elems(order[..i + 1]) == s * Elems(order[..i]) + if order[i] in s then {order[i]} else {}
  {
    assert order[..i + 1] == order[..i] + [order[i]];
    assert Elems(order[..i + 1]) == Elems(order[..i]) + {order[i]};
  }

  lemma KeepStep(order: seq<string>, i: nat, s: set<string>)
    requires i < |order|
    ensures Keep(order[..i + 1], s) == Keep(order[..i], s) + if order[i] in s then [order[i]] else []
  {
    assert order[..i + 1][..i] == order[..i];
  }

  // ---------- draining the dirty set ----------

  datatype Event = Event(rule: string, stamp: nat)

  ghost predicate Blocked(deps: Deps, dirty: set<string>, n: string) {
    exists d :: Edge(deps, n, d) && d in dirty
  }

  /** order[i] is the first dirty rule that no dirty direct dependency blocks. */
  ghost predicate FirstUnblocked(deps: Deps, order: seq<string>, dirty: set<string>, i: int) {
    0 <= i < |order| && order[i] in dirty && !Blocked(deps, dirty, order[i]) && AllBlockedBefore(deps, order, dirty, i)
  }

  ghost predicate AllBlockedBefore(deps: Deps, order: seq<string>, dirty: set<string>, i: int)
    requires 0 <= i <= |order|
  {
    forall k :: 0 <= k < i && order[k] in dirty ==> Blocked(deps, dirty, order[k])
  }

  /** One locked scan of the dirty set, taking out what it finds. */
  method PickNext(rules: seq<WatchRule>, order: seq<string>, dirty: map<string, Event>)
    returns (found: bool, at: nat, rest: map<string, Event>)
    requires UniqueNames(rules) && Elems(order) <= Names(rules)
    ensures found ==> FirstUnblocked(DepsOf(rules), order, dirty.Keys, at) && rest == dirty - {order[at]}
    ensures !found ==> AllBlockedBefore(DepsOf(rules), order, dirty.Keys, |order|) && rest == dirty
    ensures found ==> order[at] in dirty && forall d :: Edge(DepsOf(rules), order[at], d) ==> d !in dirty
    ensures forall k :: 0 <= k < (if found then at else |order|) && order[k] in dirty ==>
              exists d :: Edge(DepsOf(rules), order[k], d) && d in dirty
  {
    found, at, rest := false, 0, dirty;
    ghost var deps := DepsOf(rules);
    for i := 0 to |order|
      invariant AllBlockedBefore(deps, order, dirty.Keys, i)
    {
      var name := order[i];
      if name in dirty {
        assert name in Elems(order);
        var rule := FindRule(rules, name);
        FindRuleDepends(rules, name);
        var blocked := exists d | d in rule.depends :: d in dirty;
        assert blocked <==> Blocked(deps, dirty.Keys, name) by {
          if d :| d in rule.depends && d in dirty {
            assert Edge(deps, name, d);
          }
        }
        if !blocked {
          return true, i, dirty - {name};
        }
      }
    }
  }

  /** In a topological order the first dirty rule is never blocked, so nothing before the
      picked rule is dirty. */
  lemma {:induction false} BlockedBeforeMeansClean(deps: Deps, order: seq<string>, dirty: set<string>, i: nat, k: nat)
    requires Closed(deps) && IsTopological(deps, order)
    requires k < i <= |order| && AllBlockedBefore(deps, order, dirty, i)
    ensures order[k] !in dirty
    decreases k
  {
    if order[k] in dirty {
      assert Blocked(deps, dirty, order[k]);
      var d :| Edge(deps, order[k], d) && d in dirty;
      var j :| 0 <= j < k && order[j] == d;
      BlockedBeforeMeansClean(deps, order, dirty, i, j);
    }
  }

  /** The picked rule has no dirty dependency, direct or transitive. */
  lemma PickedHasCleanDeps(deps: Deps, order: seq<string>, dirty: set<string>, i: nat, n: string)
    requires Closed(deps) && IsTopological(deps, order) && FirstUnblocked(deps, order, dirty, i)
    requires Reaches(deps, order[i], n)
    ensures n !in dirty
  {
    ReachesBefore(deps, order, i, n);
    var k :| 0 <= k < i && order[k] == n;
    BlockedBeforeMeansClean(deps, order, dirty, i, k);
  }

  /** The rule picked is the first dirty one of all, and without new events the next scan picks one that
      stands behind it: a drain runs the dirty rules in the order. */
  lemma PicksGoForward(deps: Deps, order: seq<string>, dirty: set<string>, at: nat, next: nat)
    requires Closed(deps) && IsTopological(deps, order) && FirstUnblocked(deps, order, dirty, at)
    requires next < |order| && order[next] in dirty - {order[at]}
    ensures at < next
  {
    if next < at {
      BlockedBeforeMeansClean(deps, order, dirty, at, next);
    }
  }

  /** A scan that finds nothing has seen an empty dirty set. */
  lemma EmptyScanMeansClean(deps: Deps, order: seq<string>, dirty: set<string>)
    requires Closed(deps) && IsTopological(deps, order) && dirty <= deps.Keys
    requires AllBlockedBefore(deps, order, dirty, |order|)
    ensures dirty == {}
  {
    forall n | n in dirty ensures false {
      assert n in Elems(order);
      var i :| 0 <= i < |order| && order[i] == n;
      BlockedBeforeMeansClean(deps, order, dirty, |order|, i);
    }
  }

  ghost predicate DepsRunFirst(deps: Deps, ran: seq<string>) {
    forall i, j :: 0 <= i < j < |ran| ==> !Reaches(deps, ran[i], ran[j])
  }

  ghost predicate NothingLeftBelow(deps: Deps, ran: seq<string>, left: set<string>) {
    forall i, n :: 0 <= i < |ran| && n in left ==> !Reaches(deps, ran[i], n)
  }

  /** `ran` lists, dependencies first, what was dirty and no longer is. */
  ghost predicate Drained(deps: Deps, ran: seq<string>, dirty: set<string>, left: set<string>) {
    left <= dirty && Distinct(ran) && Elems(ran) == dirty - left &&
    DepsRunFirst(deps, ran) && NothingLeftBelow(deps, ran, left)
  }

  /** Running the picked rule next keeps dependencies ahead of their dependees. */
  lemma RunPicked(deps: Deps, order: seq<string>, ran: seq<string>, dirty: set<string>, left: set<string>, at: nat)
    requires Closed(deps) && IsTopological(deps, order) && FirstUnblocked(deps, order, left, at)
    requires Drained(deps, ran, dirty, left)
    ensures Drained(deps, ran + [order[at]], dirty, left - {order[at]})
  {
    DistinctSnoc(ran, order[at]);
    forall n | n in left ensures !Reaches(deps, order[at], n) {
      if Reaches(deps, order[at], n) {
        PickedHasCleanDeps(deps, order, left, at, n);
      }
    }
  }

  /** Runs the drain with no new events arriving: every dirty rule once, dependencies first. */
  method DrainDirty(rules: seq<WatchRule>, order: seq<string>, dirty: map<string, Event>) returns (ran: seq<string>)
    requires UniqueNames(rules) && KnownDeps(rules) && IsTopological(DepsOf(rules), order)
    requires dirty.Keys <= Names(rules)
    ensures Distinct(ran) && Elems(ran) == dirty.Keys
    ensures DepsRunFirst(DepsOf(rules), ran)
  {
    ran := [];
    var left := dirty;
    DepsOfClosed(rules);
    ghost var deps := DepsOf(rules);
    while true
      invariant Drained(deps, ran, dirty.Keys, left.Keys)
      decreases left.Keys
    {
      var found, at, rest := PickNext(rules, order, left);
      if !found {
        EmptyScanMeansClean(deps, order, left.Keys);
        break;
      }
      RunPicked(deps, order, ran, dirty.Keys, left.Keys, at);
      ran := ran + [order[at]];
      left := rest;
    }
  }

  // ---------- waiting for dependencies ----------

  /** The bookkeeping the scheduler does around one event. No other rule runs at that time,
      and a rule is never its own dependency, so every channel in the snapshot is closed. */
  method HandleEvent(g: Graph, name: string) returns (waitOn: seq<nat>, closed: set<nat>)
    requires g.Valid() && g.Running() == {} && Acyclic(g.DepMap()) && name in g.nodes
    modifies g
    ensures g.Valid() && g.DepMap() == old(g.DepMap()) && g.Running() == {}
    ensures forall i :: 0 <= i < |waitOn| ==> waitOn[i] in closed
    ensures |waitOn| == |g.DepMap()[name]|
  {
    assert name in g.DepMap();
    g.MarkRunning(name);
    assert name in g.DepMap();
    var known;
    known, waitOn := g.SnapshotDeps(name);
    closed := g.closed;
    forall i | 0 <= i < |waitOn| ensures g.nodes[name].deps[i] !in g.Running() {
      ReachesUnfold(g.DepMap(), name, g.nodes[name].deps[i]);
    }
    g.MarkDone(name);
  }
}
