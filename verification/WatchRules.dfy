/** Watch rules, the dependency relation they declare, and what it means for that
    relation to be acyclic and for an order of rules to respect it. */
module WatchRules {
  import opened Seqs

  /** `cmd` is run to build the rule, `run` starts what it has built; either may be empty. */
  datatype WatchRule = WatchRule(name: string, depends: seq<string>, watch: seq<string>, cmd: string, run: string)

  /** For every rule name, the names the rule lists under `depends` (repeats allowed). */
  type Deps = map<string, seq<string>>

  function Names(rules: seq<WatchRule>): set<string> {
    set i | 0 <= i < |rules| :: rules[i].name
  }

  ghost predicate UniqueNames(rules: seq<WatchRule>) {
    forall i, j :: 0 <= i < j < |rules| ==> rules[i].name != rules[j].name
  }

  ghost predicate KnownDeps(rules: seq<WatchRule>) {
    forall i, d :: 0 <= i < |rules| && d in rules[i].depends ==> d in Names(rules)
  }

  ghost function DepsOf(rules: seq<WatchRule>): Deps
    requires UniqueNames(rules)
  {
    map i | 0 <= i < |rules| :: rules[i].name := rules[i].depends
  }

  ghost predicate Closed(deps: Deps) {
    forall n, d :: n in deps && d in deps[n] ==> d in deps
  }

  lemma DepsOfClosed(rules: seq<WatchRule>)
    requires UniqueNames(rules) && KnownDeps(rules)
    ensures Closed(DepsOf(rules)) && DepsOf(rules).Keys == Names(rules)
    ensures |DepsOf(rules)| == |rules|
  {
    forall n, d | n in DepsOf(rules) && d in DepsOf(rules)[n]
      ensures d in DepsOf(rules)
    {
      var i :| 0 <= i < |rules| && rules[i].name == n;
      assert d in Names(rules);
    }
    var names := seq(|rules|, i requires 0 <= i < |rules| => rules[i].name);
    CountDistinct(names);
    assert (set x | x in names) == DepsOf(rules).Keys by {
      forall x | x in DepsOf(rules).Keys ensures x in names {
        var i :| 0 <= i < |rules| && rules[i].name == x;
        assert names[i] == x;
      }
    }
  }

  // ---------- paths ----------

  ghost predicate Edge(deps: Deps, a: string, b: string) {
    a in deps && b in deps[a]
  }

  /** p[i] depends directly on p[i + 1]. */
  ghost predicate IsPath(deps: Deps, p: seq<string>) {
    |p| > 0 && forall i :: 0 <= i < |p| - 1 ==> Edge(deps, p[i], p[i + 1])
  }

  ghost predicate Connects(deps: Deps, p: seq<string>, a: string, b: string) {
    IsPath(deps, p) && |p| >= 2 && p[0] == a && p[|p| - 1] == b
  }

  /** b is a transitive dependency of a. */
  ghost predicate Reaches(deps: Deps, a: string, b: string) {
    exists p :: Connects(deps, p, a, b)
  }

  ghost predicate Acyclic(deps: Deps) {
    forall n :: !Reaches(deps, n, n)
  }

  lemma {:induction false} ReachesUnfold(deps: Deps, a: string, b: string)
    ensures Reaches(deps, a, b) <==> Edge(deps, a, b) || exists m :: Edge(deps, a, m) && Reaches(deps, m, b)
  {
    if Reaches(deps, a, b) {
      var p :| Connects(deps, p, a, b);
      assert Edge(deps, p[0], p[1]);
      if |p| > 2 {
        assert Connects(deps, p[1..], p[1], b);
      }
    }
    if Edge(deps, a, b) {
      assert Connects(deps, [a, b], a, b);
    }
    if m :| Edge(deps, a, m) && Reaches(deps, m, b) {
      var p :| Connects(deps, p, m, b);
      var q := [a] + p;
      forall i | 0 <= i < |q| - 1 ensures Edge(deps, q[i], q[i + 1]) {
        assert i > 0 ==> q[i] == p[i - 1] && Edge(deps, p[i - 1], p[i]);
      }
      assert Connects(deps, q, a, b);
    }
  }

  // ---------- orders ----------

  /** Whatever stands in the order stands after all its dependencies. */
  ghost predicate DepsFirst(deps: Deps, order: seq<string>) {
    forall i, d :: 0 <= i < |order| && order[i] in deps && d in deps[order[i]] ==> d in order[..i]
  }

  ghost predicate IsTopological(deps: Deps, order: seq<string>) {
    Distinct(order) && Elems(order) == deps.Keys && DepsFirst(deps, order)
  }

  lemma SubsetSameSize<T>(a: set<T>, b: set<T>)
    requires a <= b && |a| == |b|
    ensures a == b
  {
    if a != b {
      var x :| x in b && x !in a;
      SubsetSize(a, b - {x});
    }
  }

  lemma {:induction false} SubsetSize<T>(a: set<T>, b: set<T>)
    requires a <= b
    ensures |a| <= |b|
  {
    if x :| x in a {
      SubsetSize(a - {x}, b - {x});
    }
  }

  /** Following dependencies moves strictly towards the front of such an order. */
  lemma {:induction false} PathsDescend(deps: Deps, order: seq<string>, p: seq<string>, i: int, j: int)
    requires Distinct(order) && DepsFirst(deps, order)
    requires IsPath(deps, p) && |p| >= 2
    requires 0 <= i < |order| && 0 <= j < |order| && order[i] == p[0] && order[j] == p[|p| - 1]
    ensures j < i
    decreases |p|
  {
    assert Edge(deps, p[0], p[1]);
    var k :| 0 <= k < i && order[k] == p[1];
    if |p| > 2 {
      PathsDescend(deps, order, p[1..], k, j);
    }
  }

  /** The transitive dependencies of an element of the order all stand before it. */
  lemma {:induction false} ReachesBefore(deps: Deps, order: seq<string>, i: int, b: string)
    requires Distinct(order) && DepsFirst(deps, order)
    requires 0 <= i < |order| && Reaches(deps, order[i], b)
    ensures b in order[..i]
    decreases i
  {
    ReachesUnfold(deps, order[i], b);
    if !Edge(deps, order[i], b) {
      var m :| Edge(deps, order[i], m) && Reaches(deps, m, b);
      var k :| 0 <= k < i && order[k] == m;
      ReachesBefore(deps, order, k, b);
    }
  }

  lemma TopologicalIsAcyclic(deps: Deps, order: seq<string>)
    requires IsTopological(deps, order)
    ensures Acyclic(deps)
  {
    forall n ensures !Reaches(deps, n, n) {
      if Reaches(deps, n, n) {
        var p :| Connects(deps, p, n, n);
        assert Edge(deps, p[0], p[1]);
        assert n in Elems(order);
        var i :| 0 <= i < |order| && order[i] == n;
        PathsDescend(deps, order, p, i, i);
      }
    }
  }

  // ---------- cycles ----------

  lemma {:induction false} Pigeonhole<T>(p: seq<T>, r: set<T>) returns (i: int, j: int)
    requires Elems(p) <= r && |p| > |r|
    ensures 0 <= i < j < |p| && p[i] == p[j]
    decreases |p|
  {
    var init, last := p[..|p| - 1], p[|p| - 1];
    assert forall x :: x in init ==> x in Elems(p);
    if last in init {
      i :| 0 <= i < |init| && init[i] == last;
      j := |p| - 1;
    } else {
      assert last in Elems(p);
      i, j := Pigeonhole(init, r - {last});
    }
  }

  ghost predicate Waits(deps: Deps, r: set<string>, x: string) {
    exists d :: d in r && Edge(deps, x, d)
  }

  lemma {:induction false} Wander(deps: Deps, r: set<string>, n: nat) returns (p: seq<string>)
    requires r != {} && n > 0
    requires forall x :: x in r ==> Waits(deps, r, x)
    ensures |p| == n && IsPath(deps, p) && Elems(p) <= r
  {
    if n == 1 {
      var x :| x in r;
      p := [x];
    } else {
      var q := Wander(deps, r, n - 1);
      var last := q[|q| - 1];
      assert last in Elems(q);
      assert Waits(deps, r, last);
      var d :| d in r && Edge(deps, last, d);
      p := q + [d];
      forall i | 0 <= i < |p| - 1 ensures Edge(deps, p[i], p[i + 1]) {
        assert i < |q| - 1 ==> Edge(deps, q[i], q[i + 1]);
      }
      forall x | x in Elems(p) ensures x in r {
        assert x in Elems(q) || x == d;
      }
    }
  }

  /** A set of rules each of which waits for another one of the set holds a cycle. */
  lemma StuckMeansCycle(deps: Deps, r: set<string>)
    requires r != {}
    requires forall x :: x in r ==> Waits(deps, r, x)
    ensures !Acyclic(deps)
  {
    var p := Wander(deps, r, |r| + 1);
    var i, j := Pigeonhole(p, r);
    var c := p[i..j + 1];
    forall k | 0 <= k < |c| - 1 ensures Edge(deps, c[k], c[k + 1]) {
      assert Edge(deps, p[i + k], p[i + k + 1]);
    }
    assert Connects(deps, c, p[i], p[i]);
    assert Reaches(deps, p[i], p[i]);
  }
}
