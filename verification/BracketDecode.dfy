/** Decoding a whole form, and what it yields. */
module BracketDecode {
  import opened Seqs
  import opened Wrappers
  import opened BracketTree
  import opened BracketForm

  /** url.Values: every key with the values it was given, in order. */
  type Values = map<string, seq<string>>

  ghost predicate KeysSplit(values: Values) {
    forall k :: k in values ==> SplitKey(k).Ok?
  }

  ghost function PathsOf(values: Values): set<Path>
    requires KeysSplit(values)
  {
    set k | k in values && values[k] != [] :: SplitKey(k).value
  }

  lemma PathsOfAt(values: Values, p: Path)
    requires KeysSplit(values)
    ensures p in PathsOf(values) ==> p != [] && JoinKey(p) in values && values[JoinKey(p)] != []
    ensures p in PathsOf(values) ==> SplitKey(JoinKey(p)) == Ok(p)
  {
    if p in PathsOf(values) {
      var k :| k in values && values[k] != [] && SplitKey(k).value == p;
      JoinSplit(k);
    }
  }

  /** The last value of every key, at the key's path. */
  ghost function Expected(values: Values): Paths
    requires KeysSplit(values)
  {
    map p | p in PathsOf(values) :: LastAt(values, p)
  }

  function LastAt(values: Values, p: Path): string {
    if p != [] && JoinKey(p) in values && values[JoinKey(p)] != [] then
      values[JoinKey(p)][|values[JoinKey(p)]| - 1]
    else ""
  }

  lemma PathsOfStep(values: Values, key: string, vals: seq<string>)
    requires KeysSplit(values) && SplitKey(key).Ok? && key !in values
    ensures KeysSplit(values[key := vals])
    ensures PathsOf(values[key := vals]) == PathsOf(values) + if vals == [] then {} else {SplitKey(key).value}
    ensures SplitKey(key).value !in PathsOf(values)
  {
    var more, path := values[key := vals], SplitKey(key).value;
    JoinSplit(key);
    PathsOfAt(values, path);
    forall k | k in values && values[k] != [] ensures SplitKey(k).value in PathsOf(more) {
      assert k in more && more[k] == values[k];
    }
    assert vals != [] ==> key in more && more[key] != [];
  }

  lemma LastAtStep(values: Values, key: string, vals: seq<string>, p: Path)
    requires KeysSplit(values) && SplitKey(key).Ok? && key !in values && p in PathsOf(values)
    ensures LastAt(values[key := vals], p) == LastAt(values, p)
  {
    PathsOfAt(values, p);
  }

  lemma LastAtKey(values: Values, key: string, vals: seq<string>)
    requires SplitKey(key).Ok? && vals != []
    ensures LastAt(values[key := vals], SplitKey(key).value) == vals[|vals| - 1]
  {
    JoinSplit(key);
  }

  /** One more key adds its last value at its path; a key without values adds nothing. */
  lemma ExpectedStep(values: Values, key: string, vals: seq<string>)
    requires KeysSplit(values) && SplitKey(key).Ok? && key !in values
    ensures KeysSplit(values[key := vals])
    ensures Expected(values[key := vals]) == After(Expected(values), SplitKey(key).value, vals)
  {
    PathsOfStep(values, key, vals);
    var path := SplitKey(key).value;
    var e, f := Expected(values[key := vals]), After(Expected(values), path, vals);
    assert e.Keys == f.Keys;
    forall p | p in e ensures e[p] == f[p] {
      if p in PathsOf(values) {
        LastAtStep(values, key, vals, p);
      } else {
        LastAtKey(values, key, vals);
      }
    }
  }

  ghost function After(s: Paths, p: Path, vals: seq<string>): Paths {
    if vals == [] then s else s[p := vals[|vals| - 1]]
  }

  /** All keys split, and their paths use every container one way and none as a leaf. */
  ghost predicate Decodable(values: Values) {
    KeysSplit(values) && Consistent(PathsOf(values))
  }

  // ---------- visiting the keys in some order ----------

  /** One key's values in turn. */
  function SetAll(t: Tree, segs: Path, vals: seq<string>): Result<Tree>
    requires segs != []
  {
    if vals == [] then Ok(t)
    else
      match SetAll(t, segs, vals[..|vals| - 1])
      case Ok(u) => SetPath(u, segs, vals[|vals| - 1])
      case e => e
  }

  lemma {:induction false} SetAllKeepsTop(t: Tree, segs: Path, vals: seq<string>)
    requires segs != [] && t.Obj?
    ensures SetAll(t, segs, vals).Ok? ==> SetAll(t, segs, vals).value.Obj?
  {
    if vals != [] {
      SetAllKeepsTop(t, segs, vals[..|vals| - 1]);
      var u := SetAll(t, segs, vals[..|vals| - 1]);
      if u.Ok? {
        SetPathKeepsTop(u.value, segs, vals[|vals| - 1]);
      }
    }
  }

  function Visit(t: Tree, values: Values, key: string): Result<Tree>
    requires key in values
  {
    match SplitKey(key)
    case Ok(p) => if p == [] then Err else SetAll(t, p, values[key])
    case _ => Err
  }

  /** The form decoded with its keys visited in this order. */
  function DecodeIn(values: Values, order: seq<string>): Result<Tree>
    requires forall k :: k in order ==> k in values
  {
    if order == [] then Ok(Obj(map[]))
    else
      match DecodeIn(values, order[..|order| - 1])
      case Ok(t) => Visit(t, values, order[|order| - 1])
      case e => e
  }

  /** An order in which a map can yield its keys. */
  ghost predicate IsOrder(values: Values, order: seq<string>) {
    Distinct(order) && Elems(order) == values.Keys
  }

  lemma DecodeSnoc(values: Values, order: seq<string>, key: string)
    requires key in values && forall k :: k in order ==> k in values
    ensures var before := DecodeIn(values, order);
            DecodeIn(values, order + [key]) == if before.Ok? then Visit(before.value, values, key) else before
  {
    assert (order + [key])[..|order|] == order;
  }

  lemma {:induction false} DecodeStops(values: Values, order: seq<string>, more: seq<string>)
    requires forall k :: k in order + more ==> k in values
    requires forall k :: k in order ==> k in order + more
    requires !DecodeIn(values, order).Ok?
    ensures DecodeIn(values, order + more) == DecodeIn(values, order)
    decreases |more|
  {
    if more == [] {
      assert order + more == order;
    } else {
      var n := |more| - 1;
      assert order + more == order + more[..n] + [more[n]];
      forall k | k in order + more[..n] ensures k in order + more {
      }
      DecodeStops(values, order, more[..n]);
      DecodeSnoc(values, order + more[..n], more[n]);
    }
  }

  /** Some order of what is left. */
  lemma {:induction false} Enumerate(rest: set<string>) returns (order: seq<string>)
    ensures Distinct(order) && Elems(order) == rest
    decreases |rest|
  {
    order := [];
    if key :| key in rest {
      var fewer := Enumerate(rest - {key});
      DistinctSnoc(fewer, key);
      order := fewer + [key];
      assert rest == rest - {key} + {key};
    }
  }

  /** Any order of some keys goes on to an order of all. */
  lemma Complete(values: Values, order: seq<string>) returns (all: seq<string>)
    requires Distinct(order) && Elems(order) <= values.Keys
    ensures IsOrder(values, all) && order <= all
  {
    var more := Enumerate(values.Keys - Elems(order));
    all := order + more;
    forall i, j | 0 <= i < j < |all| ensures all[i] != all[j] {
      if i < |order| <= j {
        assert all[i] in Elems(order) && all[j] in Elems(more);
      }
    }
    assert Elems(all) == Elems(order) + Elems(more);
  }

  /** The inner loop: one key's values in turn, so that the last one stays. */
  method SetEach(root0: Tree, segs: Path, vals: seq<string>) returns (r: Result<Tree>)
    requires root0.Obj? && segs != []
    ensures r == SetAll(root0, segs, vals)
  {
    var root := root0;
    for i := 0 to |vals|
      invariant root.Obj? && SetAll(root0, segs, vals[..i]) == Ok(root)
    {
      assert vals[..i + 1][..i] == vals[..i];
      SetPathKeepsTop(root, segs, vals[i]);
      var changed := SetBracketPath(root, segs, vals[i]);
      if !changed.Ok? {
        StopsEarly(root0, segs, vals, i + 1);
        return changed;
      }
      root := changed.value;
    }
    assert vals[..|vals|] == vals;
    r := Ok(root);
  }

  lemma {:induction false} StopsEarly(t: Tree, segs: Path, vals: seq<string>, n: nat)
    requires segs != [] && n <= |vals| && !SetAll(t, segs, vals[..n]).Ok?
    ensures SetAll(t, segs, vals) == SetAll(t, segs, vals[..n])
    decreases |vals|
  {
    if n == |vals| {
      assert vals[..n] == vals;
    } else {
      assert vals[..|vals| - 1][..n] == vals[..n];
      StopsEarly(t, segs, vals[..|vals| - 1], n);
    }
  }

  /** decodeBracketForm, visiting the keys in whatever order the map yields them. */
  method DecodeBracketForm(values: Values) returns (r: Result<Tree>, ghost order: seq<string>)
    ensures IsOrder(values, order) && r == DecodeIn(values, order)
    ensures r.Ok? ==> KeysSplit(values)
    ensures Decodable(values) ==> r.Ok? && r.value.Obj? && Holds(r.value, true, Expected(values))
  {
    var root: Tree := Obj(map[]);
    var rest := values.Keys;
    order := [];
    while rest != {}
      invariant rest <= values.Keys && Distinct(order) && Elems(order) == values.Keys - rest
      invariant forall k :: k in order ==> k in values
      invariant root.Obj? && DecodeIn(values, order) == Ok(root)
    {
      var key :| key in rest;
      DecodeSnoc(values, order, key);
      DistinctSnoc(order, key);
      order := order + [key];
      var segs := SplitBracketKey(key);
      if !segs.Ok? {
        order := Halt(values, order);
        return Err, order;
      }
      JoinSplit(key);
      SetAllKeepsTop(root, segs.value, values[key]);
      var changed := SetEach(root, segs.value, values[key]);
      if !changed.Ok? {
        order := Halt(values, order);
        return changed, order;
      }
      root := changed.value;
      rest := rest - {key};
    }
    r := Ok(root);
    DecodedForm(values, order);
  }

  /** Where decoding has stopped, the keys not visited do not matter. */
  lemma Halt(values: Values, order: seq<string>) returns (all: seq<string>)
    requires Distinct(order) && Elems(order) <= values.Keys
    requires !DecodeIn(values, order).Ok?
    ensures IsOrder(values, all) && DecodeIn(values, all) == DecodeIn(values, order)
    ensures !Decodable(values)
  {
    all := Complete(values, order);
    assert all == order + all[|order|..];
    DecodeStops(values, order, all[|order|..]);
    if Decodable(values) {
      DecodeHolds(values, all);
    }
  }

  // ---------- forms that decode alike in every order ----------

  lemma SetPathHolds(t: Tree, s: Paths, p: Path, v: string)
    requires t.Obj? && Holds(t, true, s) && CanJoin(1, s, p)
    ensures var r := SetPath(t, p, v); r.Ok? && r.value.Obj? && Holds(r.value, true, s[p := v])
  {
    SetHolds(t, true, s, p, v);
    NoAppendNoCrash(t, p);
  }

  lemma JoinAgain(s: Paths, p: Path, vals: seq<string>)
    requires CanJoin(1, s, p)
    ensures CanJoin(1, After(s, p, vals), p)
  {
  }

  lemma AfterSnoc(s: Paths, p: Path, vals: seq<string>)
    requires vals != []
    ensures After(s, p, vals[..|vals| - 1])[p := vals[|vals| - 1]] == After(s, p, vals)
  {
  }

  lemma {:induction false} SetAllHolds(t: Tree, s: Paths, p: Path, vals: seq<string>)
    requires t.Obj? && Holds(t, true, s) && CanJoin(1, s, p)
    ensures var r := SetAll(t, p, vals); r.Ok? && r.value.Obj? && Holds(r.value, true, After(s, p, vals))
  {
    if vals != [] {
      var n := |vals| - 1;
      SetAllHolds(t, s, p, vals[..n]);
      var now := After(s, p, vals[..n]);
      JoinAgain(s, p, vals[..n]);
      SetPathHolds(SetAll(t, p, vals[..n]).value, now, p, vals[n]);
      AfterSnoc(s, p, vals);
    }
  }

  /** The keys visited so far, in a form. */
  ghost function Visited(values: Values, order: seq<string>): Values {
    map k | k in values && k in order :: values[k]
  }

  lemma VisitedSnoc(values: Values, order: seq<string>, key: string)
    requires Decodable(values) && key in values && key !in order
    ensures Decodable(Visited(values, order)) && key !in Visited(values, order)
    ensures Visited(values, order + [key]) == Visited(values, order)[key := values[key]]
    ensures values[key] != [] ==> CanJoin(1, Expected(Visited(values, order)), SplitKey(key).value)
  {
    VisitedDecodable(values, order);
    if values[key] != [] {
      var p := SplitKey(key).value;
      assert p in PathsOf(values);
    }
  }

  /** A decodable form decodes in every order, to a tree that holds just its values. */
  lemma {:induction false} DecodeHolds(values: Values, order: seq<string>)
    requires Decodable(values) && Distinct(order) && forall k :: k in order ==> k in values
    ensures Decodable(Visited(values, order))
    ensures var r := DecodeIn(values, order);
            r.Ok? && r.value.Obj? && Holds(r.value, true, Expected(Visited(values, order)))
  {
    if order == [] {
      assert Visited(values, order) == map[];
      assert Expected(map[]) == map[];
    } else {
      var before, key := order[..|order| - 1], order[|order| - 1];
      assert order == before + [key];
      DecodeHolds(values, before);
      VisitHolds(values, before, key, DecodeIn(values, before).value);
    }
  }

  lemma VisitHolds(values: Values, before: seq<string>, key: string, t: Tree)
    requires Decodable(values) && key in values && key !in before && Decodable(Visited(values, before))
    requires t.Obj? && Holds(t, true, Expected(Visited(values, before)))
    ensures Decodable(Visited(values, before + [key]))
    ensures var r := Visit(t, values, key);
            r.Ok? && r.value.Obj? && Holds(r.value, true, Expected(Visited(values, before + [key])))
  {
    VisitedSnoc(values, before, key);
    VisitedDecodable(values, before + [key]);
    ExpectedStep(Visited(values, before), key, values[key]);
    JoinSplit(key);
    if values[key] != [] {
      SetAllHolds(t, Expected(Visited(values, before)), SplitKey(key).value, values[key]);
    }
  }

  lemma VisitedDecodable(values: Values, order: seq<string>)
    requires Decodable(values)
    ensures Decodable(Visited(values, order)) && PathsOf(Visited(values, order)) <= PathsOf(values)
  {
    var some := Visited(values, order);
    forall k | k in some ensures k in values && some[k] == values[k] {
    }
  }

  lemma DecodedForm(values: Values, order: seq<string>)
    requires IsOrder(values, order) && DecodeIn(values, order).Ok?
    ensures KeysSplit(values)
    ensures Decodable(values) ==>
      DecodeIn(values, order).value.Obj? && Holds(DecodeIn(values, order).value, true, Expected(values))
  {
    forall k | k in values ensures SplitKey(k).Ok? {
      assert k in Elems(order);
      VisitedSplits(values, order, k);
    }
    if Decodable(values) {
      forall k | k in order ensures k in values {
        assert k in Elems(order);
      }
      DecodeHolds(values, order);
      assert Visited(values, order) == values by {
        forall k | k in values ensures k in order {
          assert k in Elems(order);
        }
      }
    }
  }

  lemma {:induction false} VisitedSplits(values: Values, order: seq<string>, key: string)
    requires key in order && (forall k :: k in order ==> k in values) && DecodeIn(values, order).Ok?
    ensures SplitKey(key).Ok?
  {
    if key != order[|order| - 1] {
      VisitedSplits(values, order[..|order| - 1], key);
    }
  }

  // ---------- what a decoded form means ----------

  /** Whatever tree holds the form's values is the decoded one: no visiting order yields
      another, and every value is found at its path. */
  lemma DecodedIsUnique(values: Values, t: Tree, u: Tree, key: string)
    requires Decodable(values) && t.Obj? && u.Obj?
    requires Holds(t, true, Expected(values)) && Holds(u, true, Expected(values))
    ensures t == u
    ensures key in values && values[key] != [] ==>
      Get(t, SplitKey(key).value) == Some(values[key][|values[key]| - 1])
  {
    HoldsUnique(t, u, true, Expected(values));
    if key in values && values[key] != [] {
      ExpectedAt(values, key);
      HoldsGet(t, true, Expected(values), SplitKey(key).value);
    }
  }

  /** A key's last value is what is expected at its path. */
  lemma ExpectedAt(values: Values, key: string)
    requires KeysSplit(values) && key in values && values[key] != []
    ensures var p := SplitKey(key).value;
            p in Expected(values) && Expected(values)[p] == values[key][|values[key]| - 1]
  {
    assert SplitKey(key).value in PathsOf(values);
    JoinSplit(key);
  }

  lemma DecodedInOrder(values: Values, order: seq<string>)
    requires Decodable(values) && IsOrder(values, order)
    ensures forall k :: k in order ==> k in values
    ensures var r := DecodeIn(values, order); r.Ok? && r.value.Obj? && Holds(r.value, true, Expected(values))
  {
    assert forall k :: k in order ==> k in Elems(order);
    DecodeHolds(values, order);
    DecodedForm(values, order);
  }
}
