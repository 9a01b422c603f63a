/** Kahn's algorithm as the config check and the dependency graph run it, and the
    graph's completion channels. */
module DependencyGraph {
  import opened Seqs
  import opened WatchRules

  // ---------- what the in-degree counters stand for ----------

  /** How many entries of `deps` have not been visited yet. */
  ghost function Pending(deps: seq<string>, visited: set<string>): nat {
    if deps == [] then 0
    else (if deps[0] in visited then 0 else 1) + Pending(deps[1..], visited)
  }

  lemma {:induction false} PendingVisit(deps: seq<string>, visited: set<string>, n: string)
    requires n !in visited
    ensures Pending(deps, visited) == Pending(deps, visited + {n}) + multiset(deps)[n]
  {
    if deps != [] {
      PendingVisit(deps[1..], visited, n);
      assert deps == [deps[0]] + deps[1..];
    }
  }

  lemma {:induction false} PendingZero(deps: seq<string>, visited: set<string>)
    ensures Pending(deps, visited) == 0 <==> forall d :: d in deps ==> d in visited
  {
    if deps != [] {
      PendingZero(deps[1..], visited);
      assert deps == [deps[0]] + deps[1..];
    }
  }

  lemma {:induction false} PendingNothingVisited(deps: seq<string>)
    ensures Pending(deps, {}) == |deps|
  {
    if deps != [] {
      PendingNothingVisited(deps[1..]);
    }
  }

  /** The counters count unvisited dependencies, with the entries `late` still to be taken off. */
  ghost predicate Counts(deps: Deps, inDegree: map<string, int>, visited: set<string>, late: seq<string>) {
    inDegree.Keys == deps.Keys &&
    forall n :: n in deps ==> inDegree[n] == Pending(deps[n], visited) + multiset(late)[n]
  }

  /** The queue holds, once each, exactly the unvisited rules whose counter is zero. */
  ghost predicate Ready(inDegree: map<string, int>, visited: set<string>, queue: seq<string>) {
    Distinct(queue) &&
    forall n :: n in queue <==> n in inDegree && n !in visited && inDegree[n] == 0
  }

  /** What a Go map of slices answers: the empty slice for a missing key. */
  function At(m: map<string, seq<string>>, k: string): seq<string> {
    if k in m then m[k] else []
  }

  /** For every rule, the rules that list it, as often as they list it. */
  ghost predicate Inverts(deps: Deps, dependees: map<string, seq<string>>) {
    forall n, d :: n in deps ==>
      multiset(deps[n])[d] == multiset(At(dependees, d))[n]
  }

  ghost predicate KnownDependees(deps: Deps, dependees: map<string, seq<string>>) {
    forall d, n :: d in dependees && n in dependees[d] ==> n in deps
  }

  // ---------- the two loops ----------

  lemma ReleaseCounts(deps: Deps, inDegree: map<string, int>, visited: set<string>, late: seq<string>)
    requires late != [] && late[0] in deps && Counts(deps, inDegree, visited, late)
    ensures inDegree[late[0]] > 0
    ensures Counts(deps, inDegree[late[0] := inDegree[late[0]] - 1], visited, late[1..])
  {
    assert late == [late[0]] + late[1..];
  }

  lemma ReleaseReady(inDegree: map<string, int>, visited: set<string>, n: string, queue: seq<string>)
    requires n in inDegree && n !in visited && inDegree[n] > 0 && Ready(inDegree, visited, queue)
    ensures var lower := inDegree[n := inDegree[n] - 1];
            Ready(lower, visited, if lower[n] == 0 then queue + [n] else queue)
  {
    assert n !in queue;
  }

  /** One step of the inner loop: take the front of `late` off its counter, and queue the
      rule if that was the last dependency it waited for. */
  lemma ReleaseStep(deps: Deps, inDegree: map<string, int>, visited: set<string>, late: seq<string>, queue: seq<string>)
    requires late != [] && late[0] in deps && late[0] !in visited
    requires Counts(deps, inDegree, visited, late) && Ready(inDegree, visited, queue)
    ensures inDegree[late[0]] > 0
    ensures var lower := inDegree[late[0] := inDegree[late[0]] - 1];
            && Counts(deps, lower, visited, late[1..])
            && Ready(lower, visited, if lower[late[0]] == 0 then queue + [late[0]] else queue)
  {
    ReleaseCounts(deps, inDegree, visited, late);
    ReleaseReady(inDegree, visited, late[0], queue);
  }

  lemma ReleaseStart(node: string, waiting: seq<string>, inDegree: map<string, int>, deps: Deps, visited: set<string>)
    requires node !in visited
    requires Counts(deps, inDegree, visited, [])
    requires forall n :: n in deps ==> multiset(waiting)[n] == multiset(deps[n])[node]
    ensures Counts(deps, inDegree, visited + {node}, waiting)
  {
    forall n | n in deps ensures inDegree[n] == Pending(deps[n], visited + {node}) + multiset(waiting)[n] {
      PendingVisit(deps[n], visited, node);
    }
  }

  /** The loop both copies of the algorithm run over dependees[node]. */
  method Release(node: string, waiting: seq<string>, inDegree0: map<string, int>, queue0: seq<string>,
                 ghost deps: Deps, ghost visited: set<string>)
    returns (inDegree: map<string, int>, queue: seq<string>)
    requires node !in visited
    requires Counts(deps, inDegree0, visited, [])
    requires Ready(inDegree0, visited + {node}, queue0)
    requires forall n :: n in waiting ==> n in deps && n !in visited + {node}
    requires forall n :: n in deps ==> multiset(waiting)[n] == multiset(deps[n])[node]
    ensures Counts(deps, inDegree, visited + {node}, [])
    ensures Ready(inDegree, visited + {node}, queue)
  {
    inDegree, queue := inDegree0, queue0;
    ReleaseStart(node, waiting, inDegree, deps, visited);
    assert waiting[0..] == waiting;
    for i := 0 to |waiting|
      invariant Counts(deps, inDegree, visited + {node}, waiting[i..])
      invariant Ready(inDegree, visited + {node}, queue)
    {
      var dep := waiting[i];
      ReleaseStep(deps, inDegree, visited + {node}, waiting[i..], queue);
      assert waiting[i..][1..] == waiting[i + 1..];
      inDegree := inDegree[dep := inDegree[dep] - 1];
      if inDegree[dep] == 0 {
        queue := queue + [dep];
      }
    }
    assert waiting[|waiting|..] == [];
  }

  /** What stands before the queue's front has been visited, so the front can follow. */
  lemma VisitFront(deps: Deps, inDegree: map<string, int>, order: seq<string>, queue: seq<string>)
    requires Distinct(order) && Elems(order) <= deps.Keys && DepsFirst(deps, order) && Closed(deps)
    requires Counts(deps, inDegree, Elems(order), []) && Ready(inDegree, Elems(order), queue) && queue != []
    ensures queue[0] in deps && queue[0] !in Elems(order)
    ensures Ready(inDegree, Elems(order) + {queue[0]}, queue[1..])
    ensures Distinct(order + [queue[0]]) && DepsFirst(deps, order + [queue[0]])
    ensures Elems(order + [queue[0]]) == Elems(order) + {queue[0]} <= deps.Keys
  {
    var name, longer := queue[0], order + [queue[0]];
    assert name in queue && queue == [name] + queue[1..];
    PendingZero(deps[name], Elems(order));
    DepsFirstSnoc(deps, order, name);
  }

  lemma DepsFirstSnoc(deps: Deps, order: seq<string>, name: string)
    requires DepsFirst(deps, order) && name in deps && forall d :: d in deps[name] ==> d in Elems(order)
    ensures DepsFirst(deps, order + [name])
  {
    var longer := order + [name];
    forall i, d | 0 <= i < |longer| && longer[i] in deps && d in deps[longer[i]]
      ensures d in longer[..i]
    {
      assert longer[..i] == order[..i];
      if i == |order| {
        assert d in Elems(order) && order[..i] == order;
      } else {
        assert longer[i] == order[i];
      }
    }
  }

  /** A rule that waits for the one being visited has not been visited. */
  lemma DependeesAhead(deps: Deps, order: seq<string>, node: string, n: string)
    requires DepsFirst(deps, order) && node !in order && Elems(order) <= deps.Keys
    requires n in deps && node in deps && node in deps[n] && (forall d :: d in deps[node] ==> d in order)
    ensures n !in Elems(order) + {node}
  {
    assert n !in order;
  }

  /** The outer loop: visit the front of the queue until the queue is empty. */
  method Drain(inDegree0: map<string, int>, dependees: map<string, seq<string>>, queue0: seq<string>, ghost deps: Deps)
    returns (order: seq<string>)
    requires Closed(deps) && Inverts(deps, dependees) && KnownDependees(deps, dependees)
    requires Counts(deps, inDegree0, {}, []) && Ready(inDegree0, {}, queue0)
    ensures Distinct(order) && Elems(order) <= deps.Keys && DepsFirst(deps, order)
    ensures Elems(order) == deps.Keys <==> Acyclic(deps)
  {
    var inDegree, queue := inDegree0, queue0;
    order := [];
    assert Elems<string>([]) == {};
    while |queue| > 0
      invariant Distinct(order) && Elems(order) <= deps.Keys && DepsFirst(deps, order)
      invariant Counts(deps, inDegree, Elems(order), [])
      invariant Ready(inDegree, Elems(order), queue)
      decreases deps.Keys - Elems(order)
    {
      VisitFront(deps, inDegree, order, queue);
      var name := queue[0];
      queue := queue[1..];
      ghost var visited := Elems(order);
      order := order + [name];
      var waiting := At(dependees, name);
      WaitingAhead(deps, dependees, order[..|order| - 1], name);
      assert order[..|order| - 1] + [name] == order;
      inDegree, queue := Release(name, waiting, inDegree, queue, deps, visited);
    }
    if Elems(order) == deps.Keys {
      TopologicalIsAcyclic(deps, order);
    } else {
      AllBlocked(deps, inDegree, Elems(order));
      BlockedMeansCycle(deps, Elems(order));
    }
  }

  lemma WaitingAhead(deps: Deps, dependees: map<string, seq<string>>, order: seq<string>, node: string)
    requires Inverts(deps, dependees) && KnownDependees(deps, dependees)
    requires node in deps && node !in order && Elems(order) <= deps.Keys && DepsFirst(deps, order + [node])
    ensures forall n :: n in At(dependees, node) ==> n in deps && n !in Elems(order) + {node}
    ensures forall n :: n in deps ==> multiset(At(dependees, node))[n] == multiset(deps[n])[node]
  {
    var longer := order + [node];
    assert longer[..|order|] == order && longer[|order|] == node;
    assert DepsFirst(deps, order) by {
      forall i, d | 0 <= i < |order| && order[i] in deps && d in deps[order[i]] ensures d in order[..i] {
        assert longer[i] == order[i] && longer[..i] == order[..i];
      }
    }
    forall n | n in At(dependees, node) ensures n in deps && n !in Elems(order) + {node} {
      assert node in dependees && n in dependees[node];
      assert multiset(deps[n])[node] == multiset(dependees[node])[n] > 0;
      DependeesAhead(deps, order, node, n);
    }
  }

  lemma BlockedWaits(deps: Deps, inDegree: map<string, int>, visited: set<string>, n: string)
    requires Closed(deps) && Counts(deps, inDegree, visited, []) && Ready(inDegree, visited, [])
    requires n in deps && n !in visited
    ensures Waits(deps, deps.Keys - visited, n)
  {
    assert n !in [];
    PendingZero(deps[n], visited);
    var d :| d in deps[n] && d !in visited;
    assert Edge(deps, n, d);
  }

  lemma AllBlocked(deps: Deps, inDegree: map<string, int>, visited: set<string>)
    requires Closed(deps) && Counts(deps, inDegree, visited, []) && Ready(inDegree, visited, [])
    ensures forall n :: n in deps.Keys - visited ==> Waits(deps, deps.Keys - visited, n)
  {
    forall n | n in deps && n !in visited ensures Waits(deps, deps.Keys - visited, n) {
      BlockedWaits(deps, inDegree, visited, n);
    }
  }

  lemma BlockedMeansCycle(deps: Deps, visited: set<string>)
    requires visited <= deps.Keys && visited != deps.Keys
    requires forall n :: n in deps.Keys - visited ==> Waits(deps, deps.Keys - visited, n)
    ensures !Acyclic(deps)
  {
    var n :| n in deps && n !in visited;
    assert n in deps.Keys - visited;
    StuckMeansCycle(deps, deps.Keys - visited);
  }

  /** Collects the rules whose counter starts at zero, in whatever order the map yields them. */
  method InitialQueue(inDegree: map<string, int>) returns (queue: seq<string>)
    ensures Ready(inDegree, {}, queue)
  {
    queue := [];
    var rest := inDegree.Keys;
    while rest != {}
      invariant rest <= inDegree.Keys
      invariant Ready(inDegree, rest, queue)
    {
      var name :| name in rest;
      rest := rest - {name};
      if inDegree[name] == 0 {
        queue := queue + [name];
      }
    }
  }

  // ---------- counting in-degrees and inverting the relation ----------

  /** The rules in `done` are listed with all their dependencies, `name` with its first j. */
  ghost predicate InvertsUpTo(deps: Deps, dependees: map<string, seq<string>>, done: set<string>, name: string, j: nat)
    requires name in deps && j <= |deps[name]|
  {
    forall n, d :: n in deps ==> multiset(At(dependees, d))[n] ==
                                 if n == name then multiset(deps[n][..j])[d]
                                 else if n in done then multiset(deps[n])[d] else 0
  }

  ghost predicate InvertsRules(deps: Deps, dependees: map<string, seq<string>>, done: set<string>) {
    forall n, d :: n in deps ==> multiset(At(dependees, d))[n] == if n in done then multiset(deps[n])[d] else 0
  }

  lemma InvertsBegin(deps: Deps, dependees: map<string, seq<string>>, done: set<string>, name: string)
    requires name in deps && name !in done && InvertsRules(deps, dependees, done)
    ensures InvertsUpTo(deps, dependees, done, name, 0)
  {
    assert deps[name][..0] == [];
  }

  lemma InvertsStep(deps: Deps, dependees: map<string, seq<string>>, done: set<string>, name: string, j: nat)
    requires name in deps && j < |deps[name]|
    requires InvertsUpTo(deps, dependees, done, name, j) && KnownDependees(deps, dependees)
    ensures var dep := deps[name][j];
            var longer := dependees[dep := At(dependees, dep) + [name]];
            InvertsUpTo(deps, longer, done, name, j + 1) && KnownDependees(deps, longer)
  {
    var dep := deps[name][j];
    var longer := dependees[dep := At(dependees, dep) + [name]];
    assert deps[name][..j + 1] == deps[name][..j] + [dep];
    forall n, d | n in deps
      ensures multiset(At(longer, d))[n] == if n == name then multiset(deps[n][..j + 1])[d]
                                            else if n in done then multiset(deps[n])[d] else 0
    {
      InvertsAt(deps, dependees, done, name, j, n, d);
    }
  }

  lemma InvertsAt(deps: Deps, dependees: map<string, seq<string>>, done: set<string>, name: string, j: nat,
                  n: string, d: string)
    requires name in deps && j < |deps[name]| && n in deps && InvertsUpTo(deps, dependees, done, name, j)
    ensures var dep := deps[name][j];
            multiset(At(dependees[dep := At(dependees, dep) + [name]], d))[n] ==
              if n == name then multiset(deps[n][..j + 1])[d] else if n in done then multiset(deps[n])[d] else 0
  {
    var dep := deps[name][j];
    var longer := dependees[dep := At(dependees, dep) + [name]];
    CountOneMore(deps[name], j, d);
    assert multiset(At(dependees, d))[n] == if n == name then multiset(deps[n][..j])[d]
                                            else if n in done then multiset(deps[n])[d] else 0;
    if d == dep {
      assert At(longer, d) == At(dependees, d) + [name];
      assert multiset([name])[n] == if n == name then 1 else 0;
    } else {
      assert At(longer, d) == At(dependees, d);
    }
  }

  lemma CountOneMore(s: seq<string>, j: nat, x: string)
    requires j < |s|
    ensures multiset(s[..j + 1])[x] == multiset(s[..j])[x] + if s[j] == x then 1 else 0
  {
    assert s[..j + 1] == s[..j] + [s[j]];
  }

  lemma InvertsEnd(deps: Deps, dependees: map<string, seq<string>>, done: set<string>, name: string)
    requires name in deps && InvertsUpTo(deps, dependees, done, name, |deps[name]|)
    ensures InvertsRules(deps, dependees, done + {name})
  {
    assert deps[name][..|deps[name]|] == deps[name];
  }

  lemma FreshCounts(deps: Deps, inDegree: map<string, int>)
    requires inDegree.Keys == deps.Keys && forall n :: n in deps ==> inDegree[n] == |deps[n]|
    ensures Counts(deps, inDegree, {}, [])
  {
    forall n | n in deps ensures inDegree[n] == Pending(deps[n], {}) {
      PendingNothingVisited(deps[n]);
    }
  }

  // ---------- the config check ----------

  /** The inner loop of the count: raise the rule's counter and list it once per dependency. */
  method CountRule(r: WatchRule, inDegree0: map<string, int>, dependees0: map<string, seq<string>>,
                   ghost deps: Deps, ghost done: set<string>)
    returns (inDegree: map<string, int>, dependees: map<string, seq<string>>)
    requires r.name in deps && deps[r.name] == r.depends && r.name !in done
    requires r.name in inDegree0 && inDegree0[r.name] == 0
    requires InvertsRules(deps, dependees0, done) && KnownDependees(deps, dependees0)
    ensures inDegree == inDegree0[r.name := |r.depends|]
    ensures InvertsRules(deps, dependees, done + {r.name}) && KnownDependees(deps, dependees)
  {
    inDegree, dependees := inDegree0, dependees0;
    InvertsBegin(deps, dependees, done, r.name);
    for j := 0 to |r.depends|
      invariant inDegree == inDegree0[r.name := j]
      invariant InvertsUpTo(deps, dependees, done, r.name, j) && KnownDependees(deps, dependees)
    {
      var dep := r.depends[j];
      InvertsStep(deps, dependees, done, r.name, j);
      inDegree := inDegree[r.name := inDegree[r.name] + 1];
      dependees := dependees[dep := At(dependees, dep) + [r.name]];
    }
    InvertsEnd(deps, dependees, done, r.name);
  }

  /** The first half of the check: one counter per rule, raised once per listed dependency. */
  method CountRules(rules: seq<WatchRule>) returns (inDegree: map<string, int>, dependees: map<string, seq<string>>)
    requires UniqueNames(rules) && KnownDeps(rules)
    ensures Counts(DepsOf(rules), inDegree, {}, [])
    ensures Inverts(DepsOf(rules), dependees) && KnownDependees(DepsOf(rules), dependees)
  {
    ghost var deps := DepsOf(rules);
    DepsOfClosed(rules);
    inDegree, dependees := map[], map[];
    for i := 0 to |rules|
      invariant inDegree.Keys == Names(rules[..i])
      invariant forall n :: n in inDegree ==> n in deps && inDegree[n] == |deps[n]|
      invariant InvertsRules(deps, dependees, Names(rules[..i])) && KnownDependees(deps, dependees)
    {
      var r := rules[i];
      NamesStep(rules, i);
      if r.name !in inDegree {
        inDegree := inDegree[r.name := 0];
      }
      inDegree, dependees := CountRule(r, inDegree, dependees, deps, Names(rules[..i]));
    }
    assert rules[..|rules|] == rules;
    FreshCounts(deps, inDegree);
  }

  /** Accepts a list of watch rules iff no rule depends on itself, directly or not. */
  method DetectCycles(rules: seq<WatchRule>) returns (ok: bool)
    requires UniqueNames(rules) && KnownDeps(rules)
    ensures ok <==> Acyclic(DepsOf(rules))
  {
    ghost var deps := DepsOf(rules);
    DepsOfClosed(rules);
    var inDegree, dependees := CountRules(rules);
    var queue := InitialQueue(inDegree);
    var order := Drain(inDegree, dependees, queue, deps);
    var visited := |order|;
    CountDistinct(order);
    if visited == |rules| {
      SubsetSameSize(Elems(order), deps.Keys);
    }
    ok := visited == |rules|;
  }

  datatype Verdict =
    | Accepted
    | NoName(index: nat)
    | Duplicate(name: string)
    | NoPattern(rule: string)
    | NoCommand(rule: string)
    | UnknownDep(rule: string, dep: string)
    | Cycle

  ghost predicate NamesFree(rules: seq<WatchRule>, taken: set<string>) {
    Names(rules) !! taken && UniqueNames(rules)
  }

  /** A rule has a name, something to watch and something to do. */
  predicate Complete(rule: WatchRule) {
    rule.name != "" && rule.watch != [] && (rule.cmd != "" || rule.run != "")
  }

  /** Every rule is in order taken by itself and next to the ones before it. */
  ghost predicate Sound(rules: seq<WatchRule>, taken: set<string>) {
    NamesFree(rules, taken) && forall i :: 0 <= i < |rules| ==> Complete(rules[i])
  }

  /** What is wrong with the i-th rule if the ones before it are in order. */
  ghost function Fault(rules: seq<WatchRule>, taken: set<string>, i: nat): Verdict
    requires i < |rules|
  {
    if rules[i].name == "" then NoName(i)
    else if rules[i].name in taken + Names(rules[..i]) then Duplicate(rules[i].name)
    else if rules[i].watch == [] then NoPattern(rules[i].name)
    else if rules[i].cmd == "" && rules[i].run == "" then NoCommand(rules[i].name)
    else Accepted
  }

  /** The i-th rule is the first that is not in order. */
  ghost predicate FirstFault(rules: seq<WatchRule>, taken: set<string>, i: nat) {
    i < |rules| && Sound(rules[..i], taken) && !Fault(rules, taken, i).Accepted?
  }

  /** The j-th dependency of the i-th rule is the first, in reading order, that no rule has for a name. */
  ghost predicate FirstUnknown(rules: seq<WatchRule>, i: nat, j: nat) {
    && i < |rules| && j < |rules[i].depends| && rules[i].depends[j] !in Names(rules)
    && (forall k, d :: 0 <= k < i && d in rules[k].depends ==> d in Names(rules))
    && (forall k :: 0 <= k < j ==> rules[i].depends[k] in Names(rules))
  }

  /** A rule that can stand next to the rules before it, said of its fields. */
  ghost predicate RuleFits(rules: seq<WatchRule>, taken: set<string>, i: int)
    requires 0 <= i < |rules|
  {
    && rules[i].name != "" && rules[i].name !in taken && (forall k :: 0 <= k < i ==> rules[k].name != rules[i].name)
    && rules[i].watch != [] && (rules[i].cmd != "" || rules[i].run != "")
  }

  /** The rules are in order if every one fits, and the error for the first that does not says which of
      its fields is at fault, in the order in which they are checked. */
  lemma FaultsAre(rules: seq<WatchRule>, taken: set<string>, i: nat)
    ensures Sound(rules, taken) <==> forall k :: 0 <= k < |rules| ==> RuleFits(rules, taken, k)
    ensures FirstFault(rules, taken, i) <==>
            i < |rules| && !RuleFits(rules, taken, i) && forall k :: 0 <= k < i ==> RuleFits(rules, taken, k)
    ensures FirstFault(rules, taken, i) ==>
              var v, rule := Fault(rules, taken, i), rules[i];
              var double := rule.name in taken || exists k :: 0 <= k < i && rules[k].name == rule.name;
              && (rule.name == "" ==> v == NoName(i))
              && (rule.name != "" && double ==> v == Duplicate(rule.name))
              && (rule.name != "" && !double && rule.watch == [] ==> v == NoPattern(rule.name))
              && (rule.name != "" && !double && rule.watch != [] ==>
                    v == NoCommand(rule.name) && rule.cmd == "" == rule.run)
  {
    SoundFits(rules, taken);
    if i < |rules| {
      SoundFits(rules[..i], taken);
      forall k | 0 <= k < i ensures RuleFits(rules[..i], taken, k) <==> RuleFits(rules, taken, k) {
        assert forall j :: 0 <= j < k ==> rules[..i][j] == rules[j];
      }
      NamesBefore(rules, i, rules[i].name);
    }
  }

  lemma NamesBefore(rules: seq<WatchRule>, i: nat, name: string)
    requires i <= |rules|
    ensures name in Names(rules[..i]) <==> exists k :: 0 <= k < i && rules[k].name == name
  {
    if k :| 0 <= k < i && rules[k].name == name {
      assert rules[..i][k].name == name;
    }
  }

  lemma SoundFits(rules: seq<WatchRule>, taken: set<string>)
    ensures Sound(rules, taken) <==> forall k :: 0 <= k < |rules| ==> RuleFits(rules, taken, k)
  {
    if Sound(rules, taken) {
      forall k | 0 <= k < |rules| ensures RuleFits(rules, taken, k) {
        assert rules[k].name in Names(rules) && Complete(rules[k]);
      }
    }
    if forall k :: 0 <= k < |rules| ==> RuleFits(rules, taken, k) {
      forall i, j | 0 <= i < j < |rules| ensures rules[i].name != rules[j].name {
        assert RuleFits(rules, taken, j);
      }
      forall i | 0 <= i < |rules| ensures Complete(rules[i]) && rules[i].name !in taken {
        assert RuleFits(rules, taken, i);
      }
    }
  }

  lemma SoundNext(rules: seq<WatchRule>, taken: set<string>, i: nat)
    requires i < |rules| && Sound(rules[..i], taken)
    ensures Fault(rules, taken, i).Accepted? ==> Sound(rules[..i + 1], taken)
    ensures !Fault(rules, taken, i).Accepted? ==> !Sound(rules, taken)
  {
    NamesSnoc(rules, i);
    if rules[i].name in taken + Names(rules[..i]) {
      NameClash(rules, i, taken);
    }
    assert rules[..i + 1] == rules[..i] + [rules[i]];
  }

  predicate Faulty(v: Verdict) { v.NoName? || v.Duplicate? || v.NoPattern? || v.NoCommand? }

  /** The watch-rule part of the config check. `taken` holds the names that daemons and
      compose entries already use. The rules are checked one by one, then dependencies, then cycles, and
      the error names the first offender. */
  method ValidateWatch(rules: seq<WatchRule>, taken: set<string>) returns (v: Verdict)
    ensures v.Accepted? <==> Sound(rules, taken) && KnownDeps(rules) && Acyclic(DepsOf(rules))
    ensures Faulty(v) <==> !Sound(rules, taken)
    ensures v.UnknownDep? <==> Sound(rules, taken) && !KnownDeps(rules)
    ensures v.Cycle? <==> Sound(rules, taken) && KnownDeps(rules) && !Acyclic(DepsOf(rules))
    ensures Faulty(v) ==> exists i: nat :: FirstFault(rules, taken, i) && v == Fault(rules, taken, i)
    ensures v.UnknownDep? ==>
      exists i: nat, j: nat :: FirstUnknown(rules, i, j) && v.rule == rules[i].name && v.dep == rules[i].depends[j]
  {
    var names := taken;
    for i := 0 to |rules|
      invariant names == taken + Names(rules[..i])
      invariant Sound(rules[..i], taken)
    {
      NamesSnoc(rules, i);
      SoundNext(rules, taken, i);
      assert !Fault(rules, taken, i).Accepted? ==> FirstFault(rules, taken, i);
      if rules[i].name == "" {
        return NoName(i);
      }
      if rules[i].name in names {
        return Duplicate(rules[i].name);
      }
      names := names + {rules[i].name};
      if rules[i].watch == [] {
        return NoPattern(rules[i].name);
      }
      if rules[i].cmd == "" && rules[i].run == "" {
        return NoCommand(rules[i].name);
      }
    }
    assert rules[..|rules|] == rules;
    v := CheckDeps(rules);
  }

  /** The rest of the check, on rules that are in order one by one. */
  method CheckDeps(rules: seq<WatchRule>) returns (v: Verdict)
    requires UniqueNames(rules)
    ensures v.Accepted? || v.UnknownDep? || v.Cycle?
    ensures v.Accepted? <==> KnownDeps(rules) && Acyclic(DepsOf(rules))
    ensures v.UnknownDep? <==> !KnownDeps(rules)
    ensures v.UnknownDep? ==>
      exists i: nat, j: nat :: FirstUnknown(rules, i, j) && v.rule == rules[i].name && v.dep == rules[i].depends[j]
  {
    for i := 0 to |rules|
      invariant forall k, d :: 0 <= k < i && d in rules[k].depends ==> d in Names(rules)
    {
      for j := 0 to |rules[i].depends|
        invariant forall k :: 0 <= k < j ==> rules[i].depends[k] in Names(rules)
      {
        if rules[i].depends[j] !in Names(rules) {
          assert FirstUnknown(rules, i, j);
          return UnknownDep(rules[i].name, rules[i].depends[j]);
        }
      }
    }
    var ok := DetectCycles(rules);
    v := if ok then Accepted else Cycle;
  }

  lemma NamesSnoc(rules: seq<WatchRule>, i: nat)
    requires i < |rules|
    ensures Names(rules[..i + 1]) == Names(rules[..i]) + {rules[i].name}
  {
    var shorter, longer := rules[..i], rules[..i + 1];
    forall x | x in Names(shorter) ensures x in Names(longer) {
      var k :| 0 <= k < i && shorter[k].name == x;
      assert longer[k].name == x;
    }
    assert longer[i].name == rules[i].name;
  }

  lemma NameClash(rules: seq<WatchRule>, i: nat, taken: set<string>)
    requires i < |rules| && rules[i].name in taken + Names(rules[..i])
    ensures !NamesFree(rules, taken)
  {
    assert rules[i].name in Names(rules);
    if rules[i].name in Names(rules[..i]) {
      var k :| 0 <= k < i && rules[..i][k].name == rules[i].name;
      assert rules[k].name == rules[i].name;
    }
  }

  lemma NamesStep(rules: seq<WatchRule>, i: nat)
    requires UniqueNames(rules) && i < |rules|
    ensures Names(rules[..i + 1]) == Names(rules[..i]) + {rules[i].name}
    ensures rules[i].name !in Names(rules[..i])
    ensures rules[i].name in DepsOf(rules) && DepsOf(rules)[rules[i].name] == rules[i].depends
  {
    NamesSnoc(rules, i);
  }

  // ---------- the graph object ----------

  /** One rule of the graph: the completion channel it currently hands out, and whether
      that channel is still open. */
  datatype GraphNode = GraphNode(deps: seq<string>, done: nat, running: bool)

  ghost predicate Channels(nodes: map<string, GraphNode>, closed: set<nat>, next: nat) {
    && (forall n :: n in nodes ==> nodes[n].done < next && (nodes[n].done in closed <==> !nodes[n].running))
    && (forall a, b :: a in nodes && b in nodes && a != b ==> nodes[a].done != nodes[b].done)
    && (forall c :: c in closed ==> c < next)
  }

  /** One idle node for each of the first i rules, on a closed channel of its own. */
  ghost predicate Built(rules: seq<WatchRule>, i: nat, built: map<string, GraphNode>, shut: set<nat>)
    requires UniqueNames(rules) && i <= |rules|
  {
    && built.Keys == Names(rules[..i]) && Channels(built, shut, i)
    && forall n :: n in built ==>
         n in DepsOf(rules) && built[n].deps == DepsOf(rules)[n] && !built[n].running
  }

  lemma BuiltStep(rules: seq<WatchRule>, i: nat, built: map<string, GraphNode>, shut: set<nat>)
    requires UniqueNames(rules) && i < |rules| && Built(rules, i, built, shut)
    ensures Built(rules, i + 1, built[rules[i].name := GraphNode(rules[i].depends, i, false)], shut + {i})
  {
    NamesStep(rules, i);
    var node := GraphNode(rules[i].depends, i, false);
    ChannelAdded(built, shut, i, rules[i].name, node);
  }

  lemma ChannelAdded(built: map<string, GraphNode>, shut: set<nat>, i: nat, name: string, node: GraphNode)
    requires Channels(built, shut, i) && name !in built && node.done == i && !node.running
    ensures Channels(built[name := node], shut + {i}, i + 1)
  {
  }

  /** One node per rule, each with a channel of its own that starts out closed. */
  method BuildNodes(rules: seq<WatchRule>) returns (built: map<string, GraphNode>, shut: set<nat>)
    requires UniqueNames(rules) && KnownDeps(rules)
    ensures Channels(built, shut, |rules|)
    ensures built.Keys == DepsOf(rules).Keys && Closed(DepsOf(rules))
    ensures forall n :: n in built ==> built[n].deps == DepsOf(rules)[n] && !built[n].running
  {
    built, shut := map[], {};
    assert Built(rules, 0, built, shut) by {
      assert rules[..0] == [];
    }
    for i := 0 to |rules|
      invariant Built(rules, i, built, shut)
    {
      BuiltStep(rules, i, built, shut);
      built := built[rules[i].name := GraphNode(rules[i].depends, i, false)];
      shut := shut + {i};
    }
    assert rules[..|rules|] == rules;
    DepsOfClosed(rules);
  }

  ghost function DepsIn(nodes: map<string, GraphNode>): Deps { map n | n in nodes :: nodes[n].deps }

  /** The rules whose channel is open. */
  ghost function RunningIn(nodes: map<string, GraphNode>): set<string> {
    set n | n in nodes && nodes[n].running
  }

  lemma NodeMoves(nodes: map<string, GraphNode>, name: string, node: GraphNode)
    requires name in nodes && node.deps == nodes[name].deps
    ensures DepsIn(nodes[name := node]) == DepsIn(nodes)
    ensures RunningIn(nodes[name := node]) ==
            if node.running then RunningIn(nodes) + {name} else RunningIn(nodes) - {name}
  {
  }

  lemma ChannelOpens(nodes: map<string, GraphNode>, closed: set<nat>, next: nat, name: string)
    requires Channels(nodes, closed, next) && name in nodes
    ensures Channels(nodes[name := nodes[name].(done := next, running := true)], closed, next + 1)
  {
  }

  lemma ChannelCloses(nodes: map<string, GraphNode>, closed: set<nat>, next: nat, name: string)
    requires Channels(nodes, closed, next) && name in nodes
    ensures Channels(nodes[name := nodes[name].(running := false)], closed + {nodes[name].done}, next)
  {
  }

  class Graph {
    var nodes: map<string, GraphNode>
    var closed: set<nat>  // the completion channels closed so far
    var next: nat         // the next channel to be made

    /** A rule's channel is open exactly while the rule runs, and no two rules share one. */
    ghost predicate Valid()
      reads this
    {
      Channels(nodes, closed, next) && Closed(DepMap())
    }

    ghost function DepMap(): Deps
      reads this
    {
      DepsIn(nodes)
    }

    ghost function Running(): set<string>
      reads this
    {
      RunningIn(nodes)
    }

    constructor (rules: seq<WatchRule>)
      requires UniqueNames(rules) && KnownDeps(rules)
      ensures Valid() && DepMap() == DepsOf(rules) && Running() == {}
    {
      var built, shut := BuildNodes(rules);
      nodes := built;
      closed := shut;
      next := |rules|;
      new;
      assert DepMap() == DepsOf(rules);
    }

    /** Dependencies come before their dependees. All rules appear iff there is no cycle. */
    method TopologicalOrder() returns (order: seq<string>)
      requires Valid()
      ensures Distinct(order) && Elems(order) <= DepMap().Keys && DepsFirst(DepMap(), order)
      ensures IsTopological(DepMap(), order) <==> Acyclic(DepMap())
    {
      ghost var deps := DepMap();
      var inDegree: map<string, int> := map[];
      var dependees: map<string, seq<string>> := map[];
      var rest := nodes.Keys;
      while rest != {}
        invariant rest <= nodes.Keys && inDegree.Keys == nodes.Keys - rest
        invariant forall n :: n in inDegree ==> inDegree[n] == |deps[n]|
        invariant InvertsRules(deps, dependees, nodes.Keys - rest) && KnownDependees(deps, dependees)
      {
        var name :| name in rest;
        var node := nodes[name];
        ghost var done := nodes.Keys - rest;
        rest := rest - {name};
        inDegree := inDegree[name := |node.deps|];
        InvertsBegin(deps, dependees, done, name);
        for j := 0 to |node.deps|
          invariant InvertsUpTo(deps, dependees, done, name, j) && KnownDependees(deps, dependees)
        {
          InvertsStep(deps, dependees, done, name, j);
          dependees := dependees[node.deps[j] := At(dependees, node.deps[j]) + [name]];
        }
        InvertsEnd(deps, dependees, done, name);
        assert nodes.Keys - rest == done + {name};
      }
      FreshCounts(deps, inDegree);
      var queue := InitialQueue(inDegree);
      order := Drain(inDegree, dependees, queue, deps);
    }

    method MarkRunning(name: string)
      requires Valid()
      modifies this
      ensures Valid() && DepMap() == old(DepMap()) && closed == old(closed)
      ensures Running() == old(Running()) + if name in nodes then {name} else {}
      ensures forall n :: n in nodes && n in old(nodes) && (n != name || old(nodes)[n].running) ==>
        nodes[n] == old(nodes)[n]
    {
      if name in nodes {
        if nodes[name].running {
          return;
        }
        NodeMoves(nodes, name, nodes[name].(done := next, running := true));
        ChannelOpens(nodes, closed, next, name);
        nodes := nodes[name := nodes[name].(done := next, running := true)];
        next := next + 1;
      }
    }

    /** Closes the rule's channel, once: a channel that is closed already is left alone. */
    method MarkDone(name: string)
      requires Valid()
      modifies this
      ensures Valid() && DepMap() == old(DepMap())
      ensures Running() == old(Running()) - {name}
      ensures closed == old(closed) + if name in old(nodes) then {old(nodes)[name].done} else {}
      ensures forall n :: n in nodes && n in old(nodes) ==> nodes[n].done == old(nodes)[n].done
    {
      if name in nodes {
        NodeMoves(nodes, name, nodes[name].(running := false));
        ChannelCloses(nodes, closed, next, name);
        if nodes[name].done !in closed {
          closed := closed + {nodes[name].done};
        }
        nodes := nodes[name := nodes[name].(running := false)];
      }
    }

    /** The channels WaitForDeps snapshots under the lock: one for each listed dependency.
        The wait is over as soon as all of them are closed. */
    method SnapshotDeps(name: string) returns (known: bool, waitOn: seq<nat>)
      requires Valid()
      ensures known <==> name in nodes
      ensures known ==> |waitOn| == |nodes[name].deps|
      ensures known ==> forall i :: 0 <= i < |waitOn| ==>
        nodes[name].deps[i] in nodes && waitOn[i] == nodes[nodes[name].deps[i]].done
      ensures known ==>
        ((forall i :: 0 <= i < |waitOn| ==> waitOn[i] in closed) <==>
         forall i :: 0 <= i < |waitOn| ==> nodes[name].deps[i] !in Running())
    {
      known, waitOn := name in nodes, [];
      if !known {
        return;
      }
      var deps := nodes[name].deps;
      assert DepMap()[name] == deps;
      for i := 0 to |deps|
        invariant |waitOn| == i
        invariant forall k :: 0 <= k < i ==> deps[k] in nodes && waitOn[k] == nodes[deps[k]].done
      {
        assert deps[i] in DepMap();
        if deps[i] in nodes {
          waitOn := waitOn + [nodes[deps[i]].done];
        }
      }
    }
  }
}
