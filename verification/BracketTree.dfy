/** Trees of strings, the paths of their leaves, and writing one leaf into a tree. */
module BracketTree {
  import opened Wrappers

  /** Nil is a slot a list has grown past without filling. */
  datatype Tree = Nil | Leaf(val: string) | Obj(fields: map<string, Tree>) | Arr(items: seq<Tree>)

  type Path = seq<string>
  type Paths = map<Path, string>

  // ---------- segments ----------

  const MAX_INT: int := 0x7fff_ffff_ffff_ffff

  predicate IsDigit(c: char) { '0' <= c <= '9' }

  predicate IsNumeric(s: string) {
    s != "" && forall i :: 0 <= i < |s| ==> IsDigit(s[i])
  }

  function Value(s: string): (n: nat)
    requires forall i :: 0 <= i < |s| ==> IsDigit(s[i])
  {
    if s == "" then 0
    else
      assert IsDigit(s[|s| - 1]);
      Value(s[..|s| - 1]) * 10 + (s[|s| - 1] as int - '0' as int)
  }

  /** strconv.Atoi: an optional sign, then digits that fit a 64-bit integer. */
  function Atoi(s: string): Option<int> {
    if IsNumeric(s) then
      if Value(s) <= MAX_INT then Some(Value(s)) else None
    else if s != "" && (s[0] == '+' || s[0] == '-') && IsNumeric(s[1..]) then
      var n: int := if s[0] == '-' then 0 - (Value(s[1..]) as int) else Value(s[1..]) as int;
      if -MAX_INT - 1 <= n <= MAX_INT then Some(n) else None
    else None
  }

  function Digits(n: nat): (s: string)
    ensures IsNumeric(s) && Value(s) == n
  {
    var last := [('0' as int + n % 10) as char];
    if n < 10 then
      assert last[..0] == "";
      last
    else
      var s := Digits(n / 10) + last;
      assert s[..|s| - 1] == Digits(n / 10);
      s
  }

  /** A list index written the one way Digits writes it. */
  predicate IsIndex(s: string) {
    IsNumeric(s) && Value(s) <= MAX_INT && s == Digits(Value(s))
  }

  /** The empty segment appends. */
  function IndexFromSegment(seg: string, len: nat): Option<nat> {
    if seg == "" then Some(len)
    else
      match Atoi(seg)
      case None => None
      case Some(n) => if n < 0 then None else Some(n)
  }

  /** What a segment of digits, with or without a sign, is as an index; there is no negative one, and
      none beyond 64 bits. */
  lemma IndexIs(digits: string, len: nat)
    requires IsNumeric(digits)
    ensures IndexFromSegment("", len) == Some(len)
    ensures IndexFromSegment(digits, len) == if Value(digits) <= 0x7fff_ffff_ffff_ffff then
            Some(Value(digits)) else None
    ensures IndexFromSegment("+" + digits, len) == IndexFromSegment(digits, len)
    ensures IndexFromSegment("-" + digits, len) == if Value(digits) == 0 then Some(0) else None
  {
    var plus, minus := "+" + digits, "-" + digits;
    assert plus[1..] == digits && minus[1..] == digits;
    assert !IsDigit(plus[0]) && !IsDigit(minus[0]);
  }

  /** Digits are read in base ten. */
  lemma DigitsAreDecimal(s: string, c: char)
    requires IsNumeric(s) && '0' <= c <= '9'
    ensures IsNumeric(s + [c]) && Value(s + [c]) == 10 * Value(s) + (c as int - '0' as int)
    ensures IsNumeric([c]) && Value([c]) == c as int - '0' as int
  {
    assert (s + [c])[..|s|] == s && [c][..0] == "";
  }

  // ---------- writing a leaf ----------

  function NewContainer(next: string): Tree {
    if IsNumeric(next) || next == "" then Arr([]) else Obj(map[])
  }

  function Grow(items: seq<Tree>, idx: nat): (r: seq<Tree>)
    ensures |r| > idx && |r| == if idx < |items| then |items| else idx + 1
    ensures forall i :: 0 <= i < |r| ==> r[i] == if i < |items| then items[i] else Nil
  {
    if idx < |items| then items else items + seq(idx + 1 - |items|, _ => Nil)
  }

  /** The tree after `val` is written at `segs`, creating containers on the way. None when a
      segment cannot index the list it meets or the path runs into a string. */
  function SetAt(t: Tree, segs: Path, val: string): Option<Tree>
    requires segs != []
    decreases |segs|
  {
    match t
    case Obj(fields) =>
      if |segs| == 1 then Some(Obj(fields[segs[0] := Leaf(val)]))
      else
        var child := if segs[0] in fields then fields[segs[0]] else NewContainer(segs[1]);
        (match SetAt(child, segs[1..], val)
         case None => None
         case Some(c) => Some(Obj(fields[segs[0] := c])))
    case Arr(items) =>
      (match IndexFromSegment(segs[0], |items|)
       case None => None
       case Some(idx) =>
         var grown := Grow(items, idx);
         if |segs| == 1 then Some(Arr(grown[idx := Leaf(val)]))
         else
           var child := if grown[idx].Nil? then NewContainer(segs[1]) else grown[idx];
           match SetAt(child, segs[1..], val)
           case None => None
           case Some(c) => Some(Arr(grown[idx := c])))
    case _ => None
  }

  // ---------- what a tree holds ----------

  ghost function Firsts(s: Paths): set<string> {
    set p | p in s && p != [] :: p[0]
  }

  /** What lies below segment x, with x taken off. */
  ghost function Tails(s: Paths, x: string): Paths {
    var keys := set p | p in s && p != [] && p[0] == x :: p[1..];
    assert forall q :: q in keys ==> [x] + q in s by {
      forall q | q in keys ensures [x] + q in s {
        var p :| p in s && p != [] && p[0] == x && p[1..] == q;
        assert p == [x] + q;
      }
    }
    map q | q in keys :: s[[x] + q]
  }

  lemma TailsAt(s: Paths, x: string, q: Path)
    ensures q in Tails(s, x) <==> [x] + q in s
    ensures q in Tails(s, x) ==> Tails(s, x)[q] == s[[x] + q]
  {
    if q in Tails(s, x) {
      var p :| p in s && p != [] && p[0] == x && p[1..] == q;
      assert p == [x] + q;
    }
    if [x] + q in s {
      var p := [x] + q;
      assert p != [] && p[0] == x && p[1..] == q;
    }
  }

  lemma SplitFirst(p: Path, x: string, q: Path)
    requires p != []
    ensures [x] + q == p <==> x == p[0] && q == p[1..]
  {
    assert p == [p[0]] + p[1..];
    assert ([x] + q)[0] == x && ([x] + q)[1..] == q;
  }

  lemma TailsUpdate(s: Paths, p: Path, v: string, x: string)
    requires p != []
    ensures Tails(s[p := v], x) == if x == p[0] then Tails(s, x)[p[1..] := v] else Tails(s, x)
  {
    var after, want := Tails(s[p := v], x), if x == p[0] then Tails(s, x)[p[1..] := v] else Tails(s, x);
    forall q: Path ensures (q in after <==> q in want) && (q in after ==> after[q] == want[q]) {
      TailsUpdateAt(s, p, v, x, q);
    }
  }

  lemma TailsUpdateAt(s: Paths, p: Path, v: string, x: string, q: Path)
    requires p != []
    ensures var after, want := Tails(s[p := v], x), if x == p[0] then Tails(s, x)[p[1..] := v] else Tails(s, x);
            (q in after <==> q in want) && (q in after ==> after[q] == want[q])
  {
    TailsAt(s[p := v], x, q);
    TailsAt(s, x, q);
    SplitFirst(p, x, q);
  }

  lemma FirstsUpdate(s: Paths, p: Path, v: string)
    requires p != []
    ensures Firsts(s[p := v]) == Firsts(s) + {p[0]}
  {
    forall x | x in Firsts(s) ensures x in Firsts(s[p := v]) {
      var q :| q in s && q != [] && q[0] == x;
      assert q in s[p := v];
    }
    assert p in s[p := v];
  }

  /** The filled slots of a list are those of these indices, and the last slot is filled. */
  ghost predicate Slots(items: seq<Tree>, firsts: set<string>) {
    && (forall x :: x in firsts ==> IsIndex(x) && Value(x) < |items|)
    && (items != [] ==> !items[|items| - 1].Nil?)
    && (forall i :: 0 <= i < |items| ==> (items[i].Nil? <==> Digits(i) !in firsts))
  }

  /** The tree holds exactly these values at these paths: no other leaf, no empty container
      below the top, no list longer than its last filled slot, and below the top a container
      is a list iff its segments are indices. */
  ghost predicate Holds(t: Tree, top: bool, s: Paths) {
    match t
    case Nil => false
    case Leaf(v) => s == map[[] := v]
    case Obj(fields) =>
      && [] !in s
      && fields.Keys == Firsts(s)
      && (forall x :: x in fields ==> (top || !IsNumeric(x)) && Holds(fields[x], false, Tails(s, x)))
    case Arr(items) =>
      && [] !in s
      && Slots(items, Firsts(s))
      && (forall i :: 0 <= i < |items| && !items[i].Nil? ==> Holds(items[i], false, Tails(s, Digits(i))))
  }

  lemma NonEmptyTails(s: Paths, x: string)
    requires x in Firsts(s)
    ensures Tails(s, x) != map[]
  {
    var p :| p in s && p != [] && p[0] == x;
    assert p[1..] in Tails(s, x);
  }

  /** The paths alone determine the tree. */
  lemma {:induction false} HoldsUnique(t: Tree, u: Tree, top: bool, s: Paths)
    requires Holds(t, top, s) && Holds(u, top, s)
    requires s != map[] || (t.Obj? && u.Obj?)
    requires top ==> t.Obj? && u.Obj?
    ensures t == u
    decreases t
  {
    match (t, u) {
      case (Leaf(_), Leaf(_)) =>
        assert [] in s;
      case (Obj(f), Obj(g)) =>
        forall x | x in f ensures f[x] == g[x] {
          NonEmptyTails(s, x);
          HoldsUnique(f[x], g[x], false, Tails(s, x));
        }
      case (Arr(a), Arr(b)) =>
        SameLength(a, b, s);
        forall i | 0 <= i < |a| ensures a[i] == b[i] {
          if !a[i].Nil? {
            NonEmptyTails(s, Digits(i));
            HoldsUnique(a[i], b[i], false, Tails(s, Digits(i)));
          }
        }
      case _ =>
        OneKind(t, u, s);
    }
  }

  lemma SameLength(a: seq<Tree>, b: seq<Tree>, s: Paths)
    requires Holds(Arr(a), false, s) && Holds(Arr(b), false, s)
    ensures |a| == |b|
  {
    if a != [] {
      assert Digits(|a| - 1) in Firsts(s);
    }
    if b != [] {
      assert Digits(|b| - 1) in Firsts(s);
    }
  }

  lemma OneKind(t: Tree, u: Tree, s: Paths)
    requires Holds(t, false, s) && Holds(u, false, s) && s != map[]
    ensures (t.Leaf? <==> u.Leaf?) && (t.Obj? <==> u.Obj?)
  {
    var p :| p in s;
    if p != [] {
      assert p[0] in Firsts(s);
    }
  }

  // ---------- reading a leaf ----------

  function Get(t: Tree, p: Path): Option<string>
    decreases |p|
  {
    match t
    case Nil => None
    case Leaf(v) => if p == [] then Some(v) else None
    case Obj(fields) => if p != [] && p[0] in fields then Get(fields[p[0]], p[1..]) else None
    case Arr(items) =>
      if p != [] && IsNumeric(p[0]) && Value(p[0]) < |items| then Get(items[Value(p[0])], p[1..]) else None
  }

  lemma {:induction false} HoldsGet(t: Tree, top: bool, s: Paths, p: Path)
    requires Holds(t, top, s) && p in s
    ensures Get(t, p) == Some(s[p])
    decreases |p|
  {
    if p != [] {
      assert p == [p[0]] + p[1..];
      assert p[0] in Firsts(s);
      TailsAt(s, p[0], p[1..]);
      match t {
        case Obj(fields) => HoldsGet(fields[p[0]], false, Tails(s, p[0]), p[1..]);
        case Arr(items) => HoldsGet(items[Value(p[0])], false, Tails(s, p[0]), p[1..]);
        case _ =>
      }
    }
  }

  // ---------- which sets of paths go together ----------

  /** No segment is empty, and from segment `lo` on a numeric one is a canonical index. */
  ghost predicate GoodPath(lo: nat, p: Path) {
    p != [] && forall k :: 0 <= k < |p| ==> p[k] != "" && (k >= lo && IsNumeric(p[k]) ==> IsIndex(p[k]))
  }

  /** Neither path is a prefix of the other, and where they share a container (from segment
      `lo` on) both use it as a list or both as a map. */
  ghost predicate Agree(lo: nat, p: Path, q: Path) {
    && !(p <= q) && !(q <= p)
    && forall k :: lo <= k < |p| && k < |q| && p[..k] == q[..k] ==> (IsNumeric(p[k]) <==> IsNumeric(q[k]))
  }

  ghost predicate Consistent(ps: set<Path>) {
    && (forall p :: p in ps ==> GoodPath(1, p))
    && (forall p, q :: p in ps && q in ps && p != q ==> Agree(1, p, q))
  }

  /** p can join the paths s of a container. */
  ghost predicate CanJoin(lo: nat, s: Paths, p: Path) {
    GoodPath(lo, p) && forall q :: q in s && q != p ==> Agree(lo, p, q)
  }

  lemma AgreeTail(lo: nat, x: string, p: Path, q: Path)
    requires lo <= 1 && Agree(lo, [x] + p, [x] + q)
    ensures Agree(0, p, q)
  {
    var pl, ql := [x] + p, [x] + q;
    assert p <= q ==> pl <= ql;
    assert q <= p ==> ql <= pl;
    forall k | 0 <= k < |p| && k < |q| && p[..k] == q[..k] ensures IsNumeric(p[k]) <==> IsNumeric(q[k]) {
      assert pl[..k + 1] == [x] + p[..k];
      assert ql[..k + 1] == [x] + q[..k];
      assert pl[k + 1] == p[k] && ql[k + 1] == q[k];
    }
  }

  lemma GoodTail(lo: nat, p: Path)
    requires lo <= 1 && GoodPath(lo, p) && |p| > 1
    ensures GoodPath(0, p[1..])
  {
    forall k | 0 <= k < |p| - 1 ensures p[1..][k] == p[k + 1] {
    }
  }

  lemma JoinTail(lo: nat, s: Paths, p: Path)
    requires lo <= 1 && CanJoin(lo, s, p) && |p| > 1
    ensures CanJoin(0, Tails(s, p[0]), p[1..])
    ensures [] !in Tails(s, p[0])
  {
    assert p == [p[0]] + p[1..];
    GoodTail(lo, p);
    forall q | q in Tails(s, p[0]) && q != p[1..] ensures Agree(0, p[1..], q) && q != [] {
      TailsAt(s, p[0], q);
      assert ([p[0]] + q)[1..] == q;
      AgreeTail(lo, p[0], p[1..], q);
    }
  }

  // ---------- writing one leaf keeps what the tree holds ----------

  lemma FieldPut(field: Tree, s: Paths, p: Path, v: string, x: string, c: Tree)
    requires p != [] && (x != p[0] ==> Holds(field, false, Tails(s, x)))
    requires Holds(c, false, Tails(s, p[0])[p[1..] := v])
    ensures Holds(if x == p[0] then c else field, false, Tails(s[p := v], x))
  {
    TailsUpdate(s, p, v, x);
  }

  lemma FieldsPut(fields: map<string, Tree>, top: bool, s: Paths, p: Path, v: string, c: Tree)
    requires p != [] && Holds(Obj(fields), top, s) && (top || !IsNumeric(p[0]))
    requires Holds(c, false, Tails(s, p[0])[p[1..] := v])
    ensures var after := fields[p[0] := c];
            forall x | x in after :: (top || !IsNumeric(x)) && Holds(after[x], false, Tails(s[p := v], x))
  {
    var after := fields[p[0] := c];
    forall x | x in after ensures (top || !IsNumeric(x)) && Holds(after[x], false, Tails(s[p := v], x)) {
      FieldPut(after[x], s, p, v, x, c);
    }
  }

  lemma ObjHolds(fields: map<string, Tree>, top: bool, s: Paths)
    requires [] !in s && fields.Keys == Firsts(s)
    requires forall x :: x in fields ==> (top || !IsNumeric(x)) && Holds(fields[x], false, Tails(s, x))
    ensures Holds(Obj(fields), top, s)
  {
  }

  lemma ArrHolds(items: seq<Tree>, s: Paths)
    requires [] !in s && Slots(items, Firsts(s))
    requires forall i :: 0 <= i < |items| && !items[i].Nil? ==> Holds(items[i], false, Tails(s, Digits(i)))
    ensures Holds(Arr(items), false, s)
  {
  }

  lemma ObjPut(fields: map<string, Tree>, top: bool, s: Paths, p: Path, v: string, c: Tree)
    requires p != [] && Holds(Obj(fields), top, s) && (top || !IsNumeric(p[0]))
    requires Holds(c, false, Tails(s, p[0])[p[1..] := v])
    ensures Holds(Obj(fields[p[0] := c]), top, s[p := v])
  {
    FirstsUpdate(s, p, v);
    FieldsPut(fields, top, s, p, v, c);
    ObjHolds(fields[p[0] := c], top, s[p := v]);
  }

  lemma DigitsIndex(i: nat, x: string)
    requires IsIndex(x)
    ensures Digits(i) == x <==> i == Value(x)
  {
  }

  lemma SlotsPut(items: seq<Tree>, firsts: set<string>, x: string, c: Tree)
    requires Slots(items, firsts) && IsIndex(x) && !c.Nil?
    ensures Slots(Grow(items, Value(x))[Value(x) := c], firsts + {x})
  {
    var after := Grow(items, Value(x))[Value(x) := c];
    forall i | 0 <= i < |after| ensures after[i].Nil? <==> Digits(i) !in firsts + {x} {
      DigitsIndex(i, x);
    }
  }

  lemma ItemsPut(items: seq<Tree>, s: Paths, p: Path, v: string, c: Tree)
    requires p != [] && Holds(Arr(items), false, s) && IsIndex(p[0])
    requires Holds(c, false, Tails(s, p[0])[p[1..] := v])
    ensures var after := Grow(items, Value(p[0]))[Value(p[0]) := c];
            forall i | 0 <= i < |after| && !after[i].Nil? :: Holds(after[i], false, Tails(s[p := v], Digits(i)))
  {
    var after := Grow(items, Value(p[0]))[Value(p[0]) := c];
    forall i | 0 <= i < |after| && !after[i].Nil? ensures Holds(after[i], false, Tails(s[p := v], Digits(i))) {
      DigitsIndex(i, p[0]);
      FieldPut(if i < |items| then items[i] else Nil, s, p, v, Digits(i), c);
    }
  }

  lemma ArrPut(items: seq<Tree>, s: Paths, p: Path, v: string, c: Tree)
    requires p != [] && Holds(Arr(items), false, s) && IsIndex(p[0])
    requires Holds(c, false, Tails(s, p[0])[p[1..] := v])
    ensures Holds(Arr(Grow(items, Value(p[0]))[Value(p[0]) := c]), false, s[p := v])
  {
    FirstsUpdate(s, p, v);
    SlotsPut(items, Firsts(s), p[0], c);
    ItemsPut(items, s, p, v, c);
    ArrHolds(Grow(items, Value(p[0]))[Value(p[0]) := c], s[p := v]);
  }

  /** A path that can join ends in a fresh slot or in the leaf it already has. */
  lemma LeafSlot(lo: nat, s: Paths, p: Path, v: string)
    requires CanJoin(lo, s, p) && |p| == 1
    ensures Tails(s, p[0])[p[1..] := v] == map[[] := v]
  {
    assert p[1..] == [];
    forall q | q in Tails(s, p[0]) ensures q == [] {
      TailsAt(s, p[0], q);
      var long := [p[0]] + q;
      assert p <= long && q == long[1..];
    }
  }

  /** The container a longer path meets is of the kind the path needs. */
  lemma ChildKind(lo: nat, s: Paths, p: Path, child: Tree)
    requires lo <= 1 && CanJoin(lo, s, p) && |p| > 1
    requires Tails(s, p[0]) != map[] && Holds(child, false, Tails(s, p[0]))
    ensures (child.Arr? || child.Obj?) && (child.Arr? <==> IsNumeric(p[1]))
  {
    JoinTail(lo, s, p);
    var q :| q in Tails(s, p[0]);
    TailsAt(s, p[0], q);
    assert q[0] in Firsts(Tails(s, p[0]));
    var long := [p[0]] + q;
    assert long[1] == q[0];
    if long != p {
      assert Agree(lo, p, long);
      assert p[..1] == long[..1];
    }
  }

  /** Writing a leaf whose path can join succeeds, and adds exactly that leaf. */
  lemma {:induction false} SetHolds(t: Tree, top: bool, s: Paths, p: Path, v: string)
    requires Holds(t, top, s) && CanJoin(if top then 1 else 0, s, p)
    requires t.Obj? || t.Arr?
    requires if top then t.Obj? else (t.Arr? <==> IsNumeric(p[0]))
    ensures SetAt(t, p, v).Some? && Holds(SetAt(t, p, v).value, top, s[p := v])
    ensures top ==> SetAt(t, p, v).value.Obj?
    decreases |p|
  {
    var x, lo := p[0], if top then 1 else 0;
    if |p| == 1 {
      LeafSlot(lo, s, p, v);
      match t {
        case Obj(fields) => ObjPut(fields, top, s, p, v, Leaf(v));
        case Arr(items) => ArrPut(items, s, p, v, Leaf(v));
      }
    } else {
      JoinTail(lo, s, p);
      assert p[1] != "";
      var child := ChildOf(t, x, p[1]);
      ChildHolds(t, top, s, p);
      if Tails(s, x) != map[] {
        ChildKind(lo, s, p, child);
      }
      SetHolds(child, false, Tails(s, x), p[1..], v);
      var c := SetAt(child, p[1..], v).value;
      match t {
        case Obj(fields) => ObjPut(fields, top, s, p, v, c);
        case Arr(items) => ArrPut(items, s, p, v, c);
      }
    }
  }

  /** The container SetAt goes on into below segment x. */
  function ChildOf(t: Tree, x: string, next: string): Tree {
    match t
    case Obj(fields) => if x in fields then fields[x] else NewContainer(next)
    case Arr(items) =>
      if IsNumeric(x) && Value(x) < |items| && !items[Value(x)].Nil? then items[Value(x)] else NewContainer(next)
    case _ => NewContainer(next)
  }

  lemma NoTails(s: Paths, x: string)
    requires x !in Firsts(s)
    ensures Tails(s, x) == map[]
  {
    forall q: Path ensures q !in Tails(s, x) {
      TailsAt(s, x, q);
      var long := [x] + q;
      assert long[0] == x;
      assert long in s ==> x in Firsts(s);
    }
  }

  lemma ChildHolds(t: Tree, top: bool, s: Paths, p: Path)
    requires Holds(t, top, s) && |p| > 1 && (t.Obj? || t.Arr?)
    requires t.Arr? ==> IsIndex(p[0])
    ensures Holds(ChildOf(t, p[0], p[1]), false, Tails(s, p[0]))
    ensures Tails(s, p[0]) == map[] ==> ChildOf(t, p[0], p[1]) == NewContainer(p[1])
  {
    if p[0] in Firsts(s) {
      NonEmptyTails(s, p[0]);
    } else {
      NoTails(s, p[0]);
    }
  }
}
