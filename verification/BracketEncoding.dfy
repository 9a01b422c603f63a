/** Decoding inverts the bracket encoding of a tree. */
module BracketEncoding {
  import opened BracketTree
  import opened BracketForm
  import opened BracketDecode

  // ---------- encoding a tree ----------

  /** A tree of non-empty maps and lists whose field names can stand in a key and, below the
      top, do not look like list indices. */
  ghost predicate Proper(t: Tree, top: bool) {
    match t
    case Nil => false
    case Leaf(_) => !top
    case Obj(fields) =>
      (top || fields != map[]) &&
      forall x :: x in fields ==>
        x != "" && (if top then '[' !in x else ']' !in x && !IsNumeric(x)) && Proper(fields[x], false)
    case Arr(items) =>
      !top && items != [] && |items| <= MAX_INT + 1 && forall i :: 0 <= i < |items| ==> Proper(items[i], false)
  }

  ghost function LeafPaths(t: Tree): set<Path> {
    match t
    case Nil => {}
    case Leaf(_) => {[]}
    case Obj(fields) => set x, q | x in fields && q in LeafPaths(fields[x]) :: [x] + q
    case Arr(items) => set i, q | 0 <= i < |items| && q in LeafPaths(items[i]) :: [Digits(i)] + q
  }

  /** The tree as a set of paths and values: what an encoder writes out. */
  ghost function Leaves(t: Tree): Paths {
    map p | p in LeafPaths(t) :: match Get(t, p) { case Some(v) => v case None => "" }
  }

  lemma LeafPathsObj(fields: map<string, Tree>, x: string, q: Path)
    ensures [x] + q in LeafPaths(Obj(fields)) <==> x in fields && q in LeafPaths(fields[x])
  {
    var p := [x] + q;
    if p in LeafPaths(Obj(fields)) {
      var y, r :| y in fields && r in LeafPaths(fields[y]) && p == [y] + r;
      assert ([y] + r)[0] == y && ([y] + r)[1..] == r;
      assert p[0] == x && p[1..] == q;
    }
  }

  lemma LeafPathsArr(items: seq<Tree>, i: nat, q: Path)
    ensures [Digits(i)] + q in LeafPaths(Arr(items)) <==> i < |items| && q in LeafPaths(items[i])
  {
    var p := [Digits(i)] + q;
    if p in LeafPaths(Arr(items)) {
      var j, r :| 0 <= j < |items| && r in LeafPaths(items[j]) && p == [Digits(j)] + r;
      assert ([Digits(j)] + r)[0] == Digits(j) && ([Digits(j)] + r)[1..] == r;
      assert p[0] == Digits(i) && p[1..] == q;
      assert Value(Digits(i)) == Value(Digits(j));
    }
  }

  lemma LeavesObj(fields: map<string, Tree>, x: string)
    requires x in fields
    ensures Tails(Leaves(Obj(fields)), x) == Leaves(fields[x])
  {
    var s := Leaves(Obj(fields));
    forall q: Path ensures q in Tails(s, x) <==> q in Leaves(fields[x])
      ensures q in Tails(s, x) ==> Tails(s, x)[q] == Leaves(fields[x])[q]
    {
      TailsAt(s, x, q);
      LeafPathsObj(fields, x, q);
      assert ([x] + q)[1..] == q;
    }
  }

  lemma LeavesArr(items: seq<Tree>, i: nat)
    requires i < |items|
    ensures Tails(Leaves(Arr(items)), Digits(i)) == Leaves(items[i])
  {
    var s, x := Leaves(Arr(items)), Digits(i);
    forall q: Path ensures q in Tails(s, x) <==> q in Leaves(items[i])
      ensures q in Tails(s, x) ==> Tails(s, x)[q] == Leaves(items[i])[q]
    {
      TailsAt(s, x, q);
      LeafPathsArr(items, i, q);
      assert ([x] + q)[1..] == q;
    }
  }

  lemma {:induction false} SomeLeaf(t: Tree) returns (p: Path)
    requires Proper(t, false)
    ensures p in LeafPaths(t)
  {
    match t {
      case Leaf(_) =>
        p := [];
      case Obj(fields) =>
        var x :| x in fields;
        p := SomeLeaf(fields[x]);
        p := [x] + p;
      case Arr(items) =>
        p := SomeLeaf(items[0]);
        p := [Digits(0)] + p;
    }
  }

  lemma FieldLeaf(fields: map<string, Tree>, x: string)
    requires x in fields && Proper(fields[x], false)
    ensures x in Firsts(Leaves(Obj(fields)))
  {
    var q := SomeLeaf(fields[x]);
    LeafPathsObj(fields, x, q);
    assert [x] + q in Leaves(Obj(fields)) && ([x] + q)[0] == x;
  }

  lemma HoldsLeavesObj(fields: map<string, Tree>, top: bool)
    requires Proper(Obj(fields), top)
    requires forall x :: x in fields ==> Holds(fields[x], false, Leaves(fields[x]))
    ensures Holds(Obj(fields), top, Leaves(Obj(fields)))
  {
    var s := Leaves(Obj(fields));
    forall x | x in fields ensures x in Firsts(s) && Holds(fields[x], false, Tails(s, x)) {
      LeavesObj(fields, x);
      FieldLeaf(fields, x);
    }
    forall p | p in s ensures p != [] && p[0] in fields {
      var child := Descend(Obj(fields), p);
    }
    ObjHolds(fields, top, s);
  }

  lemma ItemLeaf(items: seq<Tree>, i: nat)
    requires i < |items| && Proper(items[i], false)
    ensures Digits(i) in Firsts(Leaves(Arr(items)))
  {
    var q := SomeLeaf(items[i]);
    LeafPathsArr(items, i, q);
    assert [Digits(i)] + q in Leaves(Arr(items)) && ([Digits(i)] + q)[0] == Digits(i);
  }

  lemma HoldsLeavesArr(items: seq<Tree>)
    requires Proper(Arr(items), false)
    requires forall i :: 0 <= i < |items| ==> Holds(items[i], false, Leaves(items[i]))
    ensures Holds(Arr(items), false, Leaves(Arr(items)))
  {
    var s := Leaves(Arr(items));
    forall i | 0 <= i < |items| ensures Digits(i) in Firsts(s) && Holds(items[i], false, Tails(s, Digits(i))) {
      LeavesArr(items, i);
      ItemLeaf(items, i);
    }
    forall p | p in s ensures p != [] && IsIndex(p[0]) && Value(p[0]) < |items| {
      var child := Descend(Arr(items), p);
      var i :| 0 <= i < |items| && p[0] == Digits(i);
    }
  }

  /** A proper tree holds exactly its leaves. */
  lemma {:induction false} HoldsLeaves(t: Tree, top: bool)
    requires Proper(t, top)
    ensures Holds(t, top, Leaves(t))
    decreases t
  {
    match t {
      case Leaf(v) =>
      case Obj(fields) =>
        forall x | x in fields ensures Holds(fields[x], false, Leaves(fields[x])) {
          HoldsLeaves(fields[x], false);
        }
        HoldsLeavesObj(fields, top);
      case Arr(items) =>
        forall i | 0 <= i < |items| ensures Holds(items[i], false, Leaves(items[i])) {
          HoldsLeaves(items[i], false);
        }
        HoldsLeavesArr(items);
    }
  }

  // ---------- the encoded paths go together ----------

  lemma AgreeCons(lo: nat, x: string, p: Path, q: Path)
    requires Agree(0, p, q)
    ensures Agree(lo, [x] + p, [x] + q)
  {
    var pl, ql := [x] + p, [x] + q;
    assert pl[1..] == p && ql[1..] == q;
    assert pl <= ql ==> p <= q;
    assert ql <= pl ==> q <= p;
    forall k | lo <= k < |pl| && k < |ql| && pl[..k] == ql[..k] ensures IsNumeric(pl[k]) <==> IsNumeric(ql[k]) {
      if k > 0 {
        assert p[..k - 1] == pl[..k][1..] && q[..k - 1] == ql[..k][1..];
        assert pl[k] == p[k - 1] && ql[k] == q[k - 1];
      }
    }
  }

  lemma AgreeHeads(lo: nat, p: Path, q: Path)
    requires p != [] && q != [] && p[0] != q[0]
    requires lo > 0 || (IsNumeric(p[0]) <==> IsNumeric(q[0]))
    ensures Agree(lo, p, q)
  {
    forall k | 1 <= k < |p| && k < |q| ensures p[..k] != q[..k] {
      assert p[..k][0] == p[0] && q[..k][0] == q[0];
    }
  }

  /** The segment below which a leaf path continues in one child of t. */
  ghost predicate Below(t: Tree, p: Path, child: Tree) {
    p != [] && child < t && p[1..] in LeafPaths(child) &&
    match t
    case Obj(fields) => p[0] in fields && child == fields[p[0]]
    case Arr(items) => exists i :: 0 <= i < |items| && p[0] == Digits(i) && child == items[i]
    case _ => false
  }

  lemma Descend(t: Tree, p: Path) returns (child: Tree)
    requires p in LeafPaths(t) && (t.Obj? || t.Arr?)
    ensures Below(t, p, child)
  {
    match t {
      case Obj(fields) =>
        var x, q :| x in fields && q in LeafPaths(fields[x]) && p == [x] + q;
        assert p[0] == x && p[1..] == q;
        child := fields[x];
      case Arr(items) =>
        var i, q :| 0 <= i < |items| && q in LeafPaths(items[i]) && p == [Digits(i)] + q;
        assert p[0] == Digits(i) && p[1..] == q;
        child := items[i];
    }
  }

  lemma {:induction false} LeafPathsAgree(t: Tree, top: bool, p: Path, q: Path)
    requires Proper(t, top) && p in LeafPaths(t) && q in LeafPaths(t) && p != q
    ensures Agree(if top then 1 else 0, p, q)
    decreases t
  {
    if t.Obj? || t.Arr? {
      var lo := if top then 1 else 0;
      var a := Descend(t, p);
      var b := Descend(t, q);
      if p[0] == q[0] {
        assert p == [p[0]] + p[1..] && q == [q[0]] + q[1..];
        SameChild(t, p, q, a, b);
        LeafPathsAgree(a, false, p[1..], q[1..]);
        AgreeCons(lo, p[0], p[1..], q[1..]);
      } else {
        AgreeHeads(lo, p, q);
      }
    }
  }

  lemma SameChild(t: Tree, p: Path, q: Path, a: Tree, b: Tree)
    requires Below(t, p, a) && Below(t, q, b) && p[0] == q[0]
    ensures a == b
  {
    if t.Arr? {
      var i :| 0 <= i < |t.items| && p[0] == Digits(i) && a == t.items[i];
      var j :| 0 <= j < |t.items| && q[0] == Digits(j) && b == t.items[j];
      assert Value(Digits(i)) == i && Value(Digits(j)) == j;
    }
  }

  lemma DigitsNoBracket(n: nat)
    ensures ']' !in Digits(n) && '[' !in Digits(n) && Digits(n) != ""
  {
    forall i | 0 <= i < |Digits(n)| ensures Digits(n)[i] != ']' && Digits(n)[i] != '[' {
      assert IsDigit(Digits(n)[i]);
    }
  }

  ghost predicate Fine(top: bool, p: Path) {
    forall k :: 0 <= k < |p| ==>
      p[k] != "" && (if top && k == 0 then '[' !in p[k] else ']' !in p[k] && (IsNumeric(p[k]) ==> IsIndex(p[k])))
  }

  lemma {:induction false} LeafPathsFine(t: Tree, top: bool, p: Path)
    requires Proper(t, top) && p in LeafPaths(t)
    ensures Fine(top, p) && (top ==> p != [])
    decreases t
  {
    if t.Obj? || t.Arr? {
      var child := Descend(t, p);
      LeafPathsFine(child, false, p[1..]);
      if t.Arr? {
        var i :| 0 <= i < |t.items| && p[0] == Digits(i);
        DigitsNoBracket(i);
      }
      forall k | 1 <= k < |p| ensures p[k] == p[1..][k - 1] {
      }
    }
  }

  /** The form an encoder sends for a tree: one key per leaf. */
  ghost predicate Encodes(values: Values, t: Tree) {
    && (forall k :: k in values ==> exists p :: p in LeafPaths(t) && p != [] && k == JoinKey(p))
    && (forall p :: p in LeafPaths(t) && p != [] ==> JoinKey(p) in values && values[JoinKey(p)] == [Leaves(t)[p]])
  }

  lemma LeafPathSplits(t: Tree, p: Path)
    requires Proper(t, true) && p in LeafPaths(t)
    ensures p != [] && GoodPath(1, p) && SplitKey(JoinKey(p)) == Ok(p)
  {
    LeafPathsFine(t, true, p);
    SplitJoin(p);
  }

  lemma EncodedKey(values: Values, t: Tree, k: string)
    requires Proper(t, true) && Encodes(values, t) && k in values
    ensures SplitKey(k).Ok? && SplitKey(k).value in LeafPaths(t)
  {
    var p :| p in LeafPaths(t) && p != [] && k == JoinKey(p);
    LeafPathSplits(t, p);
  }

  lemma EncodedLeaf(values: Values, t: Tree, p: Path)
    requires Proper(t, true) && Encodes(values, t) && KeysSplit(values) && p in LeafPaths(t)
    ensures p in PathsOf(values) && LastAt(values, p) == Leaves(t)[p]
  {
    LeafPathSplits(t, p);
    var k := JoinKey(p);
    assert k in values && values[k] == [Leaves(t)[p]] && SplitKey(k).value == p;
  }

  lemma EncodedPaths(values: Values, t: Tree)
    requires Proper(t, true) && Encodes(values, t) && KeysSplit(values)
    requires forall k :: k in values ==> SplitKey(k).value in LeafPaths(t)
    ensures PathsOf(values) == LeafPaths(t)
  {
    forall p | p in LeafPaths(t) ensures p in PathsOf(values) {
      EncodedLeaf(values, t, p);
    }
  }

  lemma EncodedValues(values: Values, t: Tree)
    requires KeysSplit(values) && PathsOf(values) == LeafPaths(t)
    requires forall p :: p in LeafPaths(t) ==> LastAt(values, p) == Leaves(t)[p]
    ensures Expected(values) == Leaves(t)
  {
  }

  lemma LeafPathsConsistent(t: Tree)
    requires Proper(t, true)
    ensures Consistent(LeafPaths(t))
  {
    forall p | p in LeafPaths(t) ensures GoodPath(1, p) {
      LeafPathSplits(t, p);
    }
    forall p, q | p in LeafPaths(t) && q in LeafPaths(t) && p != q ensures Agree(1, p, q) {
      LeafPathsAgree(t, true, p, q);
    }
  }

  lemma EncodedKeys(values: Values, t: Tree)
    requires Proper(t, true) && Encodes(values, t)
    ensures forall k :: k in values ==> SplitKey(k).Ok?
    ensures forall k :: k in values ==> SplitKey(k).value in LeafPaths(t)
  {
    forall k | k in values
      ensures SplitKey(k).Ok? && SplitKey(k).value in LeafPaths(t)
    {
      EncodedKey(values, t, k);
    }
  }

  lemma EncodedLeaves(values: Values, t: Tree)
    requires Proper(t, true) && Encodes(values, t) && KeysSplit(values)
    ensures forall p :: p in LeafPaths(t) ==> LastAt(values, p) == Leaves(t)[p]
  {
    forall p | p in LeafPaths(t) ensures LastAt(values, p) == Leaves(t)[p] {
      EncodedLeaf(values, t, p);
    }
  }

  lemma OnlyTree(t: Tree, r: Tree)
    requires Proper(t, true) && r.Obj? && Holds(r, true, Leaves(t))
    ensures r == t
  {
    HoldsLeaves(t, true);
    HoldsUnique(r, t, true, Leaves(t));
  }

  lemma EncodedForm(values: Values, t: Tree)
    requires Proper(t, true) && Encodes(values, t)
    ensures Decodable(values) && Expected(values) == Leaves(t)
  {
    EncodedKeys(values, t);
    EncodedPaths(values, t);
    EncodedLeaves(values, t);
    EncodedValues(values, t);
    LeafPathsConsistent(t);
  }

  /** Decoding inverts encoding: in whatever order the map yields its keys, the form of a proper
      tree decodes to the tree. */
  lemma DecodeInvertsEncode(values: Values, t: Tree, order: seq<string>)
    requires Proper(t, true) && Encodes(values, t) && IsOrder(values, order)
    ensures Decodable(values) && (forall k :: k in order ==> k in values) && DecodeIn(values, order) == Ok(t)
  {
    EncodedForm(values, t);
    DecodedInOrder(values, order);
    OnlyTree(t, DecodeIn(values, order).value);
  }
}
