/** When a form decodes alike in every order in which its keys can be visited. */
module BracketOrders {
  import opened Seqs
  import opened Wrappers
  import opened BracketTree
  import opened BracketForm
  import opened BracketDecode

  /** Every key splits, into segments that are not empty and, where they are numbers, written the
      canonical way, and has a value. */
  ghost predicate WellWritten(values: Values) {
    KeysSplit(values) && forall k :: k in values ==> values[k] != [] && GoodPath(1, SplitKey(k).value)
  }

  /** In whatever order the map yields the keys, decoding succeeds with this tree. */
  ghost predicate AlwaysDecodes(values: Values, t: Tree) {
    forall order :: IsOrder(values, order) ==> DecodeIn(values, order) == Ok(t)
  }

  /** A well written form decodes without error and alike in every order if and only if its paths
      use every container one way and none as a leaf. */
  lemma DecodesAlikeIff(values: Values)
    requires WellWritten(values)
    ensures (exists t :: AlwaysDecodes(values, t)) <==> Consistent(PathsOf(values))
  {
    if Consistent(PathsOf(values)) {
      var order := Enumerate(values.Keys);
      DecodedInOrder(values, order);
      var t := DecodeIn(values, order).value;
      forall other | IsOrder(values, other) ensures DecodeIn(values, other) == Ok(t) {
        DecodesLike(values, order, other);
      }
      assert AlwaysDecodes(values, t);
    }
    if t :| AlwaysDecodes(values, t) {
      forall p | p in PathsOf(values) ensures GoodPath(1, p) {
      }
      forall p, q | p in PathsOf(values) && q in PathsOf(values) && p != q ensures Agree(1, p, q) {
        NoPrefix(values, t, p, q);
        NoPrefix(values, t, q, p);
        forall k | 1 <= k < |p| && k < |q| && p[..k] == q[..k] ensures IsNumeric(p[k]) <==> IsNumeric(q[k]) {
          OneKindAt(values, t, p, q, k);
        }
      }
    }
  }

  lemma DecodesLike(values: Values, order: seq<string>, other: seq<string>)
    requires Decodable(values) && IsOrder(values, order) && IsOrder(values, other)
    ensures DecodeIn(values, order).Ok? && DecodeIn(values, other) == DecodeIn(values, order)
  {
    DecodedInOrder(values, order);
    DecodedInOrder(values, other);
    HoldsUnique(DecodeIn(values, order).value, DecodeIn(values, other).value, true, Expected(values));
  }

  // A path that is the beginning of another: visit it first, and the other one runs into its leaf.

  lemma {:induction false} LeafBlocks(t: Tree, p: Path, q: Path, v: string)
    requires Get(t, p).Some? && p < q
    ensures SetAt(t, q, v).None?
    decreases |p|
  {
    if p != [] {
      assert p[0] == q[0] && p[1..] < q[1..];
      match t {
        case Obj(fields) => LeafBlocks(fields[p[0]], p[1..], q[1..], v);
        case Arr(items) => LeafBlocks(items[Value(p[0])], p[1..], q[1..], v);
        case _ =>
      }
    }
  }

  lemma FirstVisit(values: Values, p: Path)
    requires WellWritten(values) && p in PathsOf(values)
    ensures JoinKey(p) in values && values[JoinKey(p)] != [] && SplitKey(JoinKey(p)) == Ok(p) && GoodPath(1, p)
    ensures var r := DecodeIn(values, [JoinKey(p)]);
            r.Ok? && r.value.Obj? && exists v :: Holds(r.value, true, map[p := v])
  {
    PathsOfAt(values, p);
    var key := JoinKey(p);
    var vals := values[key];
    SetAllHolds(Obj(map[]), map[], p, vals);
    assert [key][..0] == [];
    assert After(map[], p, vals) == map[p := vals[|vals| - 1]];
  }

  lemma BlockedVisit(t: Tree, values: Values, p: Path, q: Path)
    requires Get(t, p).Some? && p < q && JoinKey(q) in values && values[JoinKey(q)] != []
    requires SplitKey(JoinKey(q)) == Ok(q)
    ensures !Visit(t, values, JoinKey(q)).Ok?
  {
    var vals := values[JoinKey(q)];
    LeafBlocks(t, p, q, vals[0]);
    assert vals[..1][..0] == [];
    StopsEarly(t, q, vals, 1);
  }

  /** Where every order decodes, so does every beginning of one. */
  lemma EveryBeginning(values: Values, t: Tree, order: seq<string>) returns (all: seq<string>)
    requires AlwaysDecodes(values, t) && Distinct(order) && Elems(order) <= values.Keys
    ensures order <= all && IsOrder(values, all) && forall k :: k in all ==> k in values
    ensures DecodeIn(values, all) == Ok(t) && DecodeIn(values, order).Ok?
  {
    all := Complete(values, order);
    assert forall k :: k in all ==> k in Elems(all);
    assert all == order + all[|order|..];
    if !DecodeIn(values, order).Ok? {
      DecodeStops(values, order, all[|order|..]);
    }
  }

  lemma TwoVisits(values: Values, p: Path, q: Path)
    requires WellWritten(values) && p in PathsOf(values) && q in PathsOf(values) && p < q
    ensures JoinKey(p) in values && JoinKey(q) in values && JoinKey(p) != JoinKey(q)
    ensures !DecodeIn(values, [JoinKey(p)] + [JoinKey(q)]).Ok?
  {
    FirstVisit(values, p);
    FirstVisit(values, q);
    var first := DecodeIn(values, [JoinKey(p)]).value;
    var v :| Holds(first, true, map[p := v]);
    HoldsGet(first, true, map[p := v], p);
    BlockedVisit(first, values, p, q);
    DecodeSnoc(values, [JoinKey(p)], JoinKey(q));
  }

  lemma NoPrefix(values: Values, t: Tree, p: Path, q: Path)
    requires WellWritten(values) && AlwaysDecodes(values, t) && p in PathsOf(values) && q in PathsOf(values) && p != q
    ensures !(p <= q)
  {
    if p <= q {
      TwoVisits(values, p, q);
      var all := EveryBeginning(values, t, [JoinKey(p)] + [JoinKey(q)]);
    }
  }

  // A container used both ways: the key visited first settles its kind for good.

  /** What a path leads to, Nil if nothing. */
  function At(t: Tree, p: Path): Tree
    decreases |p|
  {
    if p == [] then t
    else
      match t
      case Obj(fields) => if p[0] in fields then At(fields[p[0]], p[1..]) else Nil
      case Arr(items) => if IsNumeric(p[0]) && Value(p[0]) < |items| then At(items[Value(p[0])], p[1..]) else Nil
      case _ => Nil
  }

  ghost predicate SameKind(t: Tree, u: Tree) { (t.Obj? && u.Obj?) || (t.Arr? && u.Arr?) }

  /** What hangs below the first segment of a held path holds the rest of it. */
  lemma HoldsBelow(t: Tree, top: bool, s: Paths, p: Path, k: nat) returns (child: Tree)
    requires Holds(t, top, s) && p in s && 0 < k < |p|
    ensures Holds(child, false, Tails(s, p[0])) && p[1..] in Tails(s, p[0])
    ensures At(t, p[..k]) == At(child, p[1..][..k - 1])
  {
    assert p == [p[0]] + p[1..] && p[0] in Firsts(s);
    TailsAt(s, p[0], p[1..]);
    assert p[..k][0] == p[0] && p[..k][1..] == p[1..][..k - 1];
    child := if t.Obj? then t.fields[p[0]] else t.items[Value(p[0])];
  }

  lemma FirstIsKind(t: Tree, s: Paths, p: Path)
    requires Holds(t, false, s) && p in s && p != []
    ensures (t.Obj? || t.Arr?) && (t.Arr? <==> IsNumeric(p[0]))
  {
    assert p[0] in Firsts(s);
  }

  lemma {:induction false} HoldsKind(t: Tree, top: bool, s: Paths, p: Path, k: nat)
    requires Holds(t, top, s) && p in s && k < |p| && (top ==> k > 0)
    ensures var c := At(t, p[..k]); (c.Obj? || c.Arr?) && (c.Arr? <==> IsNumeric(p[k]))
    decreases |p|
  {
    if k == 0 {
      FirstIsKind(t, s, p);
      assert p[..k] == [];
    } else {
      var child := HoldsBelow(t, top, s, p, k);
      HoldsKind(child, false, Tails(s, p[0]), p[1..], k - 1);
    }
  }

  /** Path r does not end on the way to the container at c, and on the way uses every container as
      c does. */
  ghost predicate Along(lo: nat, r: Path, c: Path) {
    && !(r <= c)
    && forall k :: lo <= k < |c| && k < |r| && r[..k] == c[..k] ==> (IsNumeric(r[k]) <==> IsNumeric(c[k]))
  }

  lemma AlongTail(lo: nat, r: Path, c: Path)
    requires lo <= 1 && Along(lo, r, c) && c != [] && r != [] && r[0] == c[0]
    ensures |r| > 1 && Along(0, r[1..], c[1..])
  {
    assert r == [r[0]] + r[1..] && c == [c[0]] + c[1..];
    assert r[1..] <= c[1..] ==> r <= c;
    forall k | 0 <= k < |c| - 1 && k < |r| - 1 && r[1..][..k] == c[1..][..k]
      ensures IsNumeric(r[1..][k]) <==> IsNumeric(c[1..][k])
    {
      assert r[..k + 1] == [r[0]] + r[1..][..k] && c[..k + 1] == [c[0]] + c[1..][..k];
    }
  }

  ghost predicate Canonical(lo: nat, c: Path) {
    forall k :: lo <= k < |c| && IsNumeric(c[k]) ==> IsIndex(c[k])
  }

  lemma {:induction false} ContainerStays(t: Tree, lo: nat, r: Path, c: Path, v: string)
    requires lo <= 1 && (lo == 1 ==> t.Obj?) && GoodPath(lo, r) && Along(lo, r, c) && Canonical(lo, c)
    requires (At(t, c).Obj? || At(t, c).Arr?) && SetAt(t, r, v).Some?
    ensures SameKind(At(SetAt(t, r, v).value, c), At(t, c))
    decreases |c|
  {
    if c != [] {
      var u := SetAt(t, r, v).value;
      if r[0] == c[0] {
        AlongTail(lo, r, c);
        GoodTail(lo, r);
        assert Canonical(0, c[1..]) by {
          assert forall k :: 0 <= k < |c| - 1 ==> c[1..][k] == c[k + 1];
        }
        match t {
          case Obj(fields) =>
            ContainerStays(fields[r[0]], 0, r[1..], c[1..], v);
          case Arr(items) =>
            ContainerStays(items[Value(r[0])], 0, r[1..], c[1..], v);
        }
      } else if t.Arr? {
        assert r[..0] == c[..0];
        assert Value(r[0]) != Value(c[0]);
      }
    }
  }

  lemma {:induction false} SetAllStays(t: Tree, r: Path, c: Path, vals: seq<string>)
    requires t.Obj? && GoodPath(1, r) && Along(1, r, c) && Canonical(1, c)
    requires (At(t, c).Obj? || At(t, c).Arr?) && SetAll(t, r, vals).Ok?
    ensures SameKind(At(SetAll(t, r, vals).value, c), At(t, c))
  {
    if vals != [] {
      var n := |vals| - 1;
      SetAllStays(t, r, c, vals[..n]);
      SetAllKeepsTop(t, r, vals[..n]);
      ContainerStays(SetAll(t, r, vals[..n]).value, 1, r, c, vals[n]);
    }
  }

  lemma {:induction false} DecodeStays(values: Values, order: seq<string>, c: Path)
    requires WellWritten(values) && (forall k :: k in order ==> k in values) && order != []
    requires forall r :: r in PathsOf(values) ==> Along(1, r, c)
    requires Canonical(1, c) && DecodeIn(values, order).Ok?
    requires var first := DecodeIn(values, order[..1]);
             first.Ok? && (At(first.value, c).Obj? || At(first.value, c).Arr?)
    ensures DecodeIn(values, order).value.Obj?
    ensures SameKind(At(DecodeIn(values, order).value, c), At(DecodeIn(values, order[..1]).value, c))
    decreases |order|
  {
    var key := order[|order| - 1];
    var p := SplitKey(key).value;
    assert p in PathsOf(values);
    if |order| == 1 {
      assert order[..1] == order && order[..0] == [];
      SetAllKeepsTop(Obj(map[]), p, values[key]);
    } else {
      var before := order[..|order| - 1];
      assert before[..1] == order[..1];
      DecodeStays(values, before, c);
      var t := DecodeIn(values, before).value;
      SetAllKeepsTop(t, p, values[key]);
      SetAllStays(t, p, c, values[key]);
    }
  }

  lemma FirstKind(values: Values, p: Path, k: nat)
    requires WellWritten(values) && p in PathsOf(values) && 1 <= k < |p|
    ensures JoinKey(p) in values && Canonical(1, p[..k])
    ensures var first := DecodeIn(values, [JoinKey(p)]);
            first.Ok? && var c := At(first.value, p[..k]); (c.Obj? || c.Arr?) && (c.Arr? <==> IsNumeric(p[k]))
  {
    FirstVisit(values, p);
    var first := DecodeIn(values, [JoinKey(p)]).value;
    var v :| Holds(first, true, map[p := v]);
    HoldsKind(first, true, map[p := v], p, k);
  }

  /** In a tree that every order yields, the container at p[..k] is a list exactly if p, visited
      first, makes it one. */
  lemma KindFrom(values: Values, t: Tree, p: Path, k: nat)
    requires WellWritten(values) && AlwaysDecodes(values, t) && p in PathsOf(values) && 1 <= k < |p|
    requires forall r :: r in PathsOf(values) ==> Along(1, r, p[..k])
    ensures At(t, p[..k]).Arr? <==> IsNumeric(p[k])
  {
    FirstVisit(values, p);
    var key := JoinKey(p);
    FirstKind(values, p, k);
    var all := EveryBeginning(values, t, [key]);
    assert all[..1] == [key];
    DecodeStays(values, all, p[..k]);
  }

  lemma {:induction false} OneKindAt(values: Values, t: Tree, p: Path, q: Path, k: nat)
    requires WellWritten(values) && AlwaysDecodes(values, t) && p in PathsOf(values) && q in PathsOf(values)
    requires 1 <= k < |p| && k < |q| && p[..k] == q[..k]
    ensures IsNumeric(p[k]) <==> IsNumeric(q[k])
    decreases k
  {
    var c := p[..k];
    forall r | r in PathsOf(values) ensures Along(1, r, c) {
      NotInside(values, t, r, p, k);
      forall j | 1 <= j < |c| && j < |r| && r[..j] == c[..j] ensures IsNumeric(r[j]) <==> IsNumeric(c[j]) {
        assert c[..j] == p[..j];
        OneKindAt(values, t, r, p, j);
      }
    }
    KindFrom(values, t, p, k);
    KindFrom(values, t, q, k);
  }

  lemma NotInside(values: Values, t: Tree, r: Path, p: Path, k: nat)
    requires WellWritten(values) && AlwaysDecodes(values, t) && r in PathsOf(values) && p in PathsOf(values) && k < |p|
    ensures !(r <= p[..k])
  {
    if r <= p[..k] {
      assert r <= p;
      NoPrefix(values, t, r, p);
    }
  }

  // ---------- forms that do not decode alike ----------

  lemma VisitOnce(t: Tree, values: Values, key: string, p: Path, v: string)
    requires Writable(p) && key == JoinKey(p) && key in values && values[key] == [v]
    ensures Visit(t, values, key) == SetPath(t, p, v)
  {
    SplitJoin(p);
    var vals := values[key];
    assert vals[..|vals| - 1] == [];
    assert SetAll(t, p, vals) == SetPath(t, p, v);
  }

  lemma IntoList(t: Tree, items: seq<Tree>, x: string, v: string)
    requires t == Obj(map["a" := Arr(items)]) || (t == Obj(map[]) && items == [] && NewContainer(x) == Arr([]))
    ensures SetPath(t, ["a", x], v) ==
            match IndexFromSegment(x, |items|)
            case None => Err
            case Some(idx) => Ok(Obj(map["a" := Arr(Grow(items, idx)[idx := Leaf(v)])]))
  {
    var p: Path := ["a", x];
    assert p[1..] == [x] && p[0] == "a" && Child(t, p) == Arr(items);
    assert !Crashes(Arr(items), [x], false) && !Crashes(t, p, false);
    var deep := SetAt(Arr(items), [x], v);
    if deep.Some? {
      assert t.fields["a" := deep.value] == map["a" := deep.value];
    }
  }

  lemma IntoMap(t: Tree, fields: map<string, Tree>, x: string, v: string)
    requires t == Obj(map["a" := Obj(fields)]) || (t == Obj(map[]) && fields == map[] && NewContainer(x) == Obj(map[]))
    ensures SetPath(t, ["a", x], v) == Ok(Obj(map["a" := Obj(fields[x := Leaf(v)])]))
  {
    var p: Path := ["a", x];
    assert p[1..] == [x] && p[0] == "a" && Child(t, p) == Obj(fields);
    assert !Crashes(Obj(fields), [x], false) && !Crashes(t, p, false);
    assert SetAt(Obj(fields), [x], v) == Some(Obj(fields[x := Leaf(v)]));
    assert t.fields["a" := Obj(fields[x := Leaf(v)])] == map["a" := Obj(fields[x := Leaf(v)])];
  }

  lemma DecodeTwo(values: Values, p: Path, v: string, q: Path, w: string)
    requires Writable(p) && Writable(q) && values == map[JoinKey(p) := [v], JoinKey(q) := [w]] &&
             JoinKey(p) != JoinKey(q)
    ensures IsOrder(values, [JoinKey(p), JoinKey(q)])
    ensures var first := SetPath(Obj(map[]), p, v);
            DecodeIn(values, [JoinKey(p), JoinKey(q)]) == if first.Ok? then SetPath(first.value, q, w) else first
  {
    var order := [JoinKey(p), JoinKey(q)];
    assert order == [JoinKey(p)] + [JoinKey(q)] && [JoinKey(p)] == [] + [JoinKey(p)];
    DecodeSnoc(values, [], JoinKey(p));
    DecodeSnoc(values, [JoinKey(p)], JoinKey(q));
    VisitOnce(Obj(map[]), values, JoinKey(p), p, v);
    if SetPath(Obj(map[]), p, v).Ok? {
      VisitOnce(SetPath(Obj(map[]), p, v).value, values, JoinKey(q), q, w);
    }
  }

  lemma Spellings()
    ensures JoinKey(["a", "0"]) == "a[0]" && JoinKey(["a", "b"]) == "a[b]" && JoinKey(["a", "+1"]) == "a[+1]"
    ensures Atoi("0") == Some(0) && Atoi("b") == None && Atoi("+1") == Some(1)
    ensures IsNumeric("0") && !IsNumeric("b") && !IsNumeric("+1")
  {
    assert JoinRest([]) == "";
    assert ["0"][1..] == [] && ["b"][1..] == [] && ["+1"][1..] == [];
    assert ["a", "0"][1..] == ["0"] && ["a", "b"][1..] == ["b"] && ["a", "+1"][1..] == ["+1"];
    assert "a" + ("[" + "0" + "]" + "") == "a[0]";
    assert "a" + ("[" + "b" + "]" + "") == "a[b]";
    assert "a" + ("[" + "+1" + "]" + "") == "a[+1]";
    assert !IsDigit("b"[0]) && !IsDigit("+1"[0]);
    assert "0"[..0] == "" && Value("") == 0 && Value("0") == 0;
    assert "+1"[1..] == "1" && "1"[..0] == "" && Value("1") == 1;
  }

  lemma ListFirst(v: string)
    ensures SetPath(Obj(map[]), ["a", "0"], v) == Ok(Obj(map["a" := Arr([Leaf(v)])]))
  {
    Spellings();
    IntoList(Obj(map[]), [], "0", v);
    assert Grow([], 0)[0 := Leaf(v)] == [Leaf(v)];
  }

  /** a[0]=v&a[b]=w fails when the list comes first and decodes when the map does. */
  lemma MixedKeysDependOnOrder(v: string, w: string)
    ensures var values := map["a[0]" := [v], "a[b]" := [w]];
            && IsOrder(values, ["a[0]", "a[b]"]) && DecodeIn(values, ["a[0]", "a[b]"]) == Err
            && IsOrder(values, ["a[b]", "a[0]"]) && DecodeIn(values, ["a[b]", "a[0]"]).Ok?
  {
    Spellings();
    var values := map["a[0]" := [v], "a[b]" := [w]];
    assert values == map["a[b]" := [w], "a[0]" := [v]];
    DecodeTwo(values, ["a", "0"], v, ["a", "b"], w);
    DecodeTwo(values, ["a", "b"], w, ["a", "0"], v);
    ListFirst(v);
    IntoList(Obj(map["a" := Arr([Leaf(v)])]), [Leaf(v)], "b", w);
    IntoMap(Obj(map[]), map[], "b", w);
    IntoMap(Obj(map["a" := Obj(map["b" := Leaf(w)])]), map["b" := Leaf(w)], "0", v);
  }

  lemma SignedIndexAppends(v: string, w: string)
    ensures SetPath(Obj(map["a" := Arr([Leaf(v)])]), ["a", "+1"], w) == Ok(Obj(map["a" := Arr([Leaf(v), Leaf(w)])]))
  {
    Spellings();
    IntoList(Obj(map["a" := Arr([Leaf(v)])]), [Leaf(v)], "+1", w);
    assert Grow([Leaf(v)], 1)[1 := Leaf(w)] == [Leaf(v), Leaf(w)];
  }

  /** a[0]=v&a[+1]=w decodes either way, once to a list and once to a map. */
  lemma SignedIndexDependsOnOrder(v: string, w: string)
    ensures var values := map["a[0]" := [v], "a[+1]" := [w]];
            && IsOrder(values, ["a[0]", "a[+1]"]) && IsOrder(values, ["a[+1]", "a[0]"])
            && DecodeIn(values, ["a[0]", "a[+1]"]) == Ok(Obj(map["a" := Arr([Leaf(v), Leaf(w)])]))
            && DecodeIn(values, ["a[+1]", "a[0]"]) == Ok(Obj(map["a" := Obj(map["+1" := Leaf(w), "0" := Leaf(v)])]))
  {
    Spellings();
    var values := map["a[0]" := [v], "a[+1]" := [w]];
    assert values == map["a[+1]" := [w], "a[0]" := [v]];
    DecodeTwo(values, ["a", "0"], v, ["a", "+1"], w);
    DecodeTwo(values, ["a", "+1"], w, ["a", "0"], v);
    ListFirst(v);
    SignedIndexAppends(v, w);
    IntoMap(Obj(map[]), map[], "+1", w);
    IntoMap(Obj(map["a" := Obj(map["+1" := Leaf(w)])]), map["+1" := Leaf(w)], "0", v);
  }

  lemma NestedAppend(v: string)
    ensures SetPath(Obj(map[]), ["a", "", ""], v) == Crash
  {
    var p: Path := ["a", "", ""];
    assert p[1..] == ["", ""] && ["", ""][1..] == [""];
    assert Crashes(Arr([]), [""], true);
    assert Child(Arr([]), ["", ""]) == Arr([]);
    assert Crashes(Arr([]), ["", ""], false);
  }

  lemma AppendSpelling()
    ensures JoinKey(["a", "", ""]) == "a[][]"
  {
    var p: Path := ["a", "", ""];
    assert JoinRest([]) == "" && [""][1..] == [] && ["", ""][1..] == [""] && p[1..] == ["", ""];
    assert JoinRest([""]) == "[]" && JoinRest(["", ""]) == "[][]";
  }

  /** a[][]=v panics: the list appended to `a` is written back through an index it is not at. */
  lemma NestedAppendCrashes(v: string)
    ensures IsOrder(map["a[][]" := [v]], ["a[][]"]) && DecodeIn(map["a[][]" := [v]], ["a[][]"]) == Crash
  {
    var p: Path := ["a", "", ""];
    AppendSpelling();
    var values := map["a[][]" := [v]];
    assert ["a[][]"] == [] + ["a[][]"];
    DecodeSnoc(values, [], "a[][]");
    VisitOnce(Obj(map[]), values, "a[][]", p, v);
    NestedAppend(v);
  }

  // ---------- paths that do not go together ----------

  lemma ConflictBelow(t: Tree, p: Path, k: nat) returns (child: Tree)
    requires 0 < k < |p| && (At(t, p[..k]).Leaf? || At(t, p[..k]).Arr?)
    requires IsNumeric(p[0]) ==> Value(p[0]) <= MAX_INT
    ensures At(child, p[1..][..k - 1]) == At(t, p[..k]) && !child.Nil?
    ensures forall v :: SetAt(child, p[1..], v).None? ==> SetAt(t, p, v).None?
  {
    assert p[..k][0] == p[0] && p[..k][1..] == p[1..][..k - 1];
    child := if t.Obj? then t.fields[p[0]] else t.items[Value(p[0])];
  }

  /** A path that runs into a string, or into a list with a segment that is no index, is an error. */
  lemma {:induction false} ConflictIsNone(t: Tree, p: Path, k: nat, v: string)
    requires k < |p| && forall j :: 0 <= j < k && IsNumeric(p[j]) ==> Value(p[j]) <= MAX_INT
    requires var c := At(t, p[..k]); c.Leaf? || (c.Arr? && IndexFromSegment(p[k], |c.items|).None?)
    ensures SetAt(t, p, v).None?
    decreases k
  {
    if k == 0 {
      assert p[..0] == [];
    } else {
      var child := ConflictBelow(t, p, k);
      ConflictIsNone(child, p[1..], k - 1, v);
    }
  }

  /** The same of a write. A path of one segment, in contrast, replaces whatever is there. */
  lemma ConflictErrs(t: Tree, p: Path, k: nat, v: string)
    requires k < |p| && forall j :: 0 <= j < |p| ==> p[j] != ""
    requires forall j :: 0 <= j < k && IsNumeric(p[j]) ==> Value(p[j]) <= MAX_INT
    requires var c := At(t, p[..k]); c.Leaf? || (c.Arr? && IndexFromSegment(p[k], |c.items|).None?)
    ensures SetPath(t, p, v) == Err
    ensures t.Obj? ==> SetPath(t, [p[0]], v) == Ok(Obj(t.fields[p[0] := Leaf(v)]))
  {
    ConflictIsNone(t, p, k, v);
    NoAppendNoCrash(t, p);
    NoAppendNoCrash(t, [p[0]]);
  }

  // ---------- appending ----------

  lemma AppendOne(t: Tree, x: string, items: seq<Tree>, v: string)
    requires t == Obj(map[x := Arr(items)]) || (t == Obj(map[]) && items == [])
    ensures SetPath(t, [x, ""], v) == Ok(Obj(map[x := Arr(items + [Leaf(v)])]))
  {
    var p: Path := [x, ""];
    var after := Arr(items + [Leaf(v)]);
    assert p[1..] == [""] && p[0] == x && Child(t, p) == Arr(items);
    assert !Crashes(Arr(items), [""], false) && !Crashes(t, p, false);
    assert Grow(items, |items|)[|items| := Leaf(v)] == items + [Leaf(v)];
    assert SetAt(Arr(items), [""], v) == Some(after);
    assert t.fields[x := after] == map[x := after];
  }

  /** The values of a key that appends come to stand in a list in their order. */
  lemma {:induction false} AppendsInOrder(x: string, vals: seq<string>)
    requires vals != []
    ensures SetAll(Obj(map[]), [x, ""], vals) == Ok(Obj(map[x := Arr(Map(v => Leaf(v), vals))]))
  {
    var n := |vals| - 1;
    var items := Map(v => Leaf(v), vals[..n]);
    assert Map(v => Leaf(v), vals) == items + [Leaf(vals[n])];
    if n == 0 {
      assert SetAll(Obj(map[]), [x, ""], vals[..0]) == Ok(Obj(map[]));
      AppendOne(Obj(map[]), x, items, vals[0]);
    } else {
      AppendsInOrder(x, vals[..n]);
      AppendOne(Obj(map[x := Arr(items)]), x, items, vals[n]);
    }
  }
}
