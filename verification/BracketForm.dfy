/** The bracket-notation form decoder: keys such as a[b][0] and the tree they build. */
module BracketForm {
  import opened Wrappers
  import opened BracketTree

  datatype Result<+T> = Ok(value: T) | Err | Crash

  // ---------- keys ----------

  /** The index of the first occurrence of c, or the length of s. */
  function IndexByte(s: string, c: char): (i: nat)
    ensures i <= |s| && (i < |s| ==> s[i] == c)
    ensures c !in s[..i]
  {
    if s == "" || s[0] == c then 0
    else
      var i := 1 + IndexByte(s[1..], c);
      assert s[..i] == [s[0]] + s[1..][..i - 1];
      i
  }

  lemma {:induction false} IndexByteAt(a: string, c: char, b: string)
    requires c !in a
    ensures IndexByte(a + [c] + b, c) == |a|
  {
    var s := a + [c] + b;
    if a != "" {
      assert s[1..] == a[1..] + [c] + b;
      IndexByteAt(a[1..], c, b);
    }
  }

  lemma {:induction false} IndexByteNone(s: string, c: char)
    requires c !in s
    ensures IndexByte(s, c) == |s|
  {
    if s != "" {
      IndexByteNone(s[1..], c);
    }
  }

  /** The bracketed tail of a key: [b][0]... */
  function SplitRest(rest: string): Result<Path>
    decreases |rest|
  {
    if rest == "" then Ok([])
    else if rest[0] != '[' then Err
    else
      var close := IndexByte(rest, ']');
      if close == |rest| then Err
      else
        match SplitRest(rest[close + 1..])
        case Ok(p) => Ok([rest[1..close]] + p)
        case e => e
  }

  function SplitKey(key: string): Result<Path> {
    if key == "" then Err
    else
      var open := IndexByte(key, '[');
      match SplitRest(key[open..])
      case Ok(p) => Ok([key[..open]] + p)
      case e => e
  }

  /** splitBracketKey, the way it runs: cut one bracketed segment off at a time. */
  method SplitBracketKey(key: string) returns (r: Result<Path>)
    ensures r == SplitKey(key)
  {
    if key == "" {
      return Err;
    }
    var open := IndexByte(key, '[');
    if open == |key| {
      assert key[open..] == "" && key[..open] == key && [key] + [] == [key];
      return Ok([key]);
    }
    var out := [key[..open]];
    var rest := key[open..];
    while |rest| > 0
      invariant out != []
      invariant SplitKey(key) == match SplitRest(rest) { case Ok(p) => Ok(out + p) case e => e }
      decreases |rest|
    {
      if rest[0] != '[' {
        return Err;
      }
      var close := IndexByte(rest, ']');
      if close == |rest| {
        return Err;
      }
      ghost var was, before := out, rest;
      out := out + [rest[1..close]];
      rest := rest[close + 1..];
      assert forall p: Path :: was + ([before[1..close]] + p) == out + p;
    }
    assert out + [] == out;
    r := Ok(out);
  }

  function JoinRest(p: Path): string {
    if p == [] then "" else "[" + p[0] + "]" + JoinRest(p[1..])
  }

  /** The key that names a path. */
  function JoinKey(p: Path): string
    requires p != []
  {
    p[0] + JoinRest(p[1..])
  }

  /** Segments that can stand in a key. */
  predicate Writable(p: Path) {
    p != [] && p[0] != "" && '[' !in p[0] && forall k :: 1 <= k < |p| ==> ']' !in p[k]
  }

  /** The first bracketed segment of a tail. */
  lemma SplitOne(seg: string, tail: string)
    requires ']' !in seg && SplitRest(tail).Ok?
    ensures SplitRest("[" + seg + "]" + tail) == Ok([seg] + SplitRest(tail).value)
  {
    var rest := "[" + seg + "]" + tail;
    assert rest == ("[" + seg) + [']'] + tail;
    IndexByteAt("[" + seg, ']', tail);
    assert rest[1..|seg| + 1] == seg && rest[|seg| + 2..] == tail;
  }

  lemma {:induction false} SplitJoinRest(p: Path)
    requires forall k :: 0 <= k < |p| ==> ']' !in p[k]
    ensures SplitRest(JoinRest(p)) == Ok(p)
    decreases |p|
  {
    if p != [] {
      SplitJoinRest(p[1..]);
      SplitOne(p[0], JoinRest(p[1..]));
      assert [p[0]] + p[1..] == p;
    }
  }

  lemma OpenBracketAt(a: string, rest: string)
    requires '[' !in a && (rest == "" || rest[0] == '[')
    ensures IndexByte(a + rest, '[') == |a|
  {
    if rest == "" {
      assert a + rest == a;
      IndexByteNone(a, '[');
    } else {
      assert a + rest == a + ['['] + rest[1..];
      IndexByteAt(a, '[', rest[1..]);
    }
  }

  /** Splitting a written key gives back its path. */
  lemma SplitJoin(p: Path)
    requires Writable(p)
    ensures SplitKey(JoinKey(p)) == Ok(p)
  {
    var first, rest := p[0], JoinRest(p[1..]);
    SplitJoinRest(p[1..]);
    OpenBracketAt(first, rest);
    assert (first + rest)[..|first|] == first && (first + rest)[|first|..] == rest;
    assert [first] + p[1..] == p;
  }

  lemma {:induction false} JoinSplitRest(rest: string)
    requires SplitRest(rest).Ok?
    ensures JoinRest(SplitRest(rest).value) == rest
    decreases |rest|
  {
    if rest != "" {
      var close := IndexByte(rest, ']');
      JoinSplitRest(rest[close + 1..]);
      assert rest == "[" + rest[1..close] + "]" + rest[close + 1..];
    }
  }

  /** A key that splits is the key of its path, so different keys have different paths. */
  lemma JoinSplit(key: string)
    requires SplitKey(key).Ok?
    ensures SplitKey(key).value != [] && JoinKey(SplitKey(key).value) == key
  {
    var open := IndexByte(key, '[');
    JoinSplitRest(key[open..]);
    assert key == key[..open] + key[open..];
  }

  // ---------- writing through a path ----------

  /** Puts `sub` where the path leads. An index beyond the list it meets crashes, as indexing
      the slice does. */
  function WriteBack(t: Tree, path: Path, sub: Tree): Result<Tree>
    decreases |path|
  {
    if path == [] then Ok(sub)
    else
      match t
      case Obj(fields) =>
        if path[0] in fields || |path| == 1 then
          (match WriteBack(if path[0] in fields then fields[path[0]] else Nil, path[1..], sub)
           case Ok(c) => Ok(Obj(fields[path[0] := c]))
           case e => e)
        else Err
      case Arr(items) =>
        (match IndexFromSegment(path[0], |items|)
         case None => Err
         case Some(idx) =>
           if idx < |items| then
             match WriteBack(items[idx], path[1..], sub)
             case Ok(c) => Ok(Arr(items[idx := c]))
             case e => e
           else Crash)
      case _ => Err
  }

  /** One step down a tree: into a field or into a slot. */
  datatype Step = Field(name: string) | Slot(index: nat)

  /** What hangs at a place, Nil if nothing does. */
  function Find(t: Tree, at: seq<Step>): Tree
    decreases |at|
  {
    if at == [] then t
    else
      match (t, at[0])
      case (Obj(fields), Field(x)) => if x in fields then Find(fields[x], at[1..]) else Nil
      case (Arr(items), Slot(i)) => if i < |items| then Find(items[i], at[1..]) else Nil
      case _ => Nil
  }

  /** The tree with `sub` hung at a place that is there. */
  function Hang(t: Tree, at: seq<Step>, sub: Tree): Tree
    decreases |at|
  {
    if at == [] then sub
    else
      match (t, at[0])
      case (Obj(fields), Field(x)) =>
        if x in fields then Obj(fields[x := Hang(fields[x], at[1..], sub)]) else t
      case (Arr(items), Slot(i)) =>
        if i < |items| then Arr(items[i := Hang(items[i], at[1..], sub)]) else t
      case _ => t
  }

  /** The segments have led to this place: an empty one into the slot that was last at the time. */
  ghost predicate Leads(t: Tree, path: Path, at: seq<Step>)
    decreases |at|
  {
    |path| == |at| &&
    (at == [] ||
     match (t, at[0])
     case (Obj(fields), Field(x)) => x == path[0] && x in fields && Leads(fields[x], path[1..], at[1..])
     case (Arr(items), Slot(i)) =>
       && i < |items| && (if path[0] == "" then i == |items| - 1 else IndexFromSegment(path[0], |items|) == Some(i))
       && Leads(items[i], path[1..], at[1..])
     case _ => false)
  }

  /** Some segment on the way has appended to a list. */
  ghost predicate Appended(path: Path, at: seq<Step>) {
    exists k :: 0 <= k < |path| && k < |at| && path[k] == "" && at[k].Slot?
  }

  lemma AppendedTail(path: Path, at: seq<Step>)
    requires |path| == |at| > 0
    ensures Appended(path, at) <==> (path[0] == "" && at[0].Slot?) || Appended(path[1..], at[1..])
  {
    if Appended(path, at) {
      var k :| 0 <= k < |path| && path[k] == "" && at[k].Slot?;
      assert k > 0 ==> path[1..][k - 1] == "" && at[1..][k - 1].Slot?;
    }
    if Appended(path[1..], at[1..]) {
      var k :| 0 <= k < |path| - 1 && path[1..][k] == "" && at[1..][k].Slot?;
      assert path[k + 1] == "" && at[k + 1].Slot?;
    }
  }

  lemma AppendedLast(path: Path, at: seq<Step>, x: string, step: Step)
    requires |path| == |at|
    ensures Appended(path + [x], at + [step]) <==> Appended(path, at) || (x == "" && step.Slot?)
  {
    var p, a := path + [x], at + [step];
    if Appended(p, a) {
      var k :| 0 <= k < |p| && p[k] == "" && a[k].Slot?;
      assert k < |path| ==> path[k] == "" && at[k].Slot?;
    }
    if Appended(path, at) {
      var k :| 0 <= k < |path| && path[k] == "" && at[k].Slot?;
      assert p[k] == "" && a[k].Slot?;
    }
    assert p[|path|] == x && a[|at|] == step;
  }

  /** An appending segment means one slot further each time it is resolved, so writing back by a
      path that has appended indexes past the end; by any other it puts `sub` where it leads. */
  lemma {:induction false} WriteBackLeads(t: Tree, path: Path, at: seq<Step>, sub: Tree)
    requires Leads(t, path, at)
    ensures WriteBack(t, path, sub) == if Appended(path, at) then Crash else Ok(Hang(t, at, sub))
    decreases |at|
  {
    if at != [] {
      AppendedTail(path, at);
      match (t, at[0]) {
        case (Obj(fields), Field(x)) => WriteBackLeads(fields[x], path[1..], at[1..], sub);
        case (Arr(items), Slot(i)) => WriteBackLeads(items[i], path[1..], at[1..], sub);
      }
    }
  }

  /** What is hung at a place is found there, the place stays, and hanging again overwrites. */
  lemma {:induction false} HangFinds(t: Tree, path: Path, at: seq<Step>, sub: Tree, again: Tree)
    requires Leads(t, path, at)
    ensures var u := Hang(t, at, sub);
            && Leads(u, path, at) && Find(u, at) == sub && Hang(u, at, again) == Hang(t, at, again)
            && (at != [] && t.Obj? ==> u.Obj?)
    decreases |at|
  {
    if at != [] {
      match (t, at[0]) {
        case (Obj(fields), Field(x)) =>
          HangFinds(fields[x], path[1..], at[1..], sub, again);
          OverwriteField(fields, x, Hang(fields[x], at[1..], sub), Hang(fields[x], at[1..], again));
        case (Arr(items), Slot(i)) =>
          HangFinds(items[i], path[1..], at[1..], sub, again);
          OverwriteSlot(items, i, Hang(items[i], at[1..], sub), Hang(items[i], at[1..], again));
      }
    }
  }

  lemma OverwriteField(fields: map<string, Tree>, x: string, a: Tree, b: Tree)
    ensures fields[x := a][x := b] == fields[x := b]
  {
  }

  lemma OverwriteSlot(items: seq<Tree>, i: nat, a: Tree, b: Tree)
    requires i < |items|
    ensures items[i := a][i := b] == items[i := b]
  {
  }

  /** One step further. */
  lemma {:induction false} LeadsOn(t: Tree, path: Path, at: seq<Step>, x: string, step: Step, sub: Tree)
    requires Leads(t, path, at) && Leads(Find(t, at), [x], [step])
    ensures Leads(t, path + [x], at + [step]) && Find(t, at + [step]) == Find(Find(t, at), [step])
    ensures Hang(t, at + [step], sub) == Hang(t, at, Hang(Find(t, at), [step], sub))
    decreases |at|
  {
    if at == [] {
      assert path + [x] == [x] && at + [step] == [step];
    } else {
      assert (path + [x])[1..] == path[1..] + [x] && (at + [step])[1..] == at[1..] + [step];
      match (t, at[0]) {
        case (Obj(fields), Field(_)) => LeadsOn(fields[path[0]], path[1..], at[1..], x, step, sub);
        case (Arr(items), Slot(i)) => LeadsOn(items[i], path[1..], at[1..], x, step, sub);
      }
    }
  }

  // ---------- what a write comes to ----------

  /** The container that the segment after segs[0] goes on in. */
  function Child(t: Tree, segs: Path): Tree
    requires |segs| > 1
  {
    match t
    case Obj(fields) => if segs[0] in fields then fields[segs[0]] else NewContainer(segs[1])
    case Arr(items) =>
      (match IndexFromSegment(segs[0], |items|)
       case None => Nil
       case Some(idx) => if Grow(items, idx)[idx].Nil? then NewContainer(segs[1]) else items[idx])
    case _ => Nil
  }

  /** Segment 0 indexes the list t. */
  predicate Indexes(t: Tree, segs: Path)
    requires segs != []
  {
    t.Arr? && IndexFromSegment(segs[0], |t.items|).Some?
  }

  /** The write panics: below a segment that appends, another one indexes a list, which then has to
      be written back through the slot that was appended. */
  predicate Crashes(t: Tree, segs: Path, appended: bool)
    requires segs != []
    decreases |segs|
  {
    || (Indexes(t, segs) && appended)
    || (|segs| > 1 && !Child(t, segs).Nil? &&
        Crashes(Child(t, segs), segs[1..], appended || (segs[0] == "" && t.Arr?)))
  }

  function SetPath(t: Tree, segs: Path, val: string): Result<Tree>
    requires segs != []
  {
    if Crashes(t, segs, false) then Crash
    else match SetAt(t, segs, val) { case Some(u) => Ok(u) case None => Err }
  }

  /** The container the write meets at segment k, Nil if it ends before. */
  function Meets(t: Tree, segs: Path, k: nat): Tree
    requires k < |segs|
    decreases k
  {
    if k == 0 then t else if Child(t, segs).Nil? then Nil else Meets(Child(t, segs), segs[1..], k - 1)
  }

  /** At segment k the write indexes a list. */
  predicate IndexesAt(t: Tree, segs: Path, k: nat) {
    k < |segs| && Indexes(Meets(t, segs, k), segs[k..])
  }

  lemma IndexesBelow(t: Tree, segs: Path, k: nat)
    requires |segs| > 1 && !Child(t, segs).Nil?
    ensures IndexesAt(Child(t, segs), segs[1..], k) <==> IndexesAt(t, segs, k + 1)
  {
    if k + 1 < |segs| {
      assert segs[1..][k..] == segs[k + 1..];
    }
  }

  ghost predicate AppendsBefore(t: Tree, segs: Path, appended: bool, j: nat) {
    appended || exists i: nat :: i < j && IndexesAt(t, segs, i) && segs[i] == ""
  }

  lemma AppendsBelow(t: Tree, segs: Path, appended: bool, j: nat)
    requires |segs| > 1 && !Child(t, segs).Nil? && j + 1 < |segs|
    ensures AppendsBefore(Child(t, segs), segs[1..], appended || (segs[0] == "" && t.Arr?), j) <==>
            AppendsBefore(t, segs, appended, j + 1)
  {
    var child, rest := Child(t, segs), segs[1..];
    assert IndexesAt(t, segs, 0) <==> t.Arr? by {
      assert segs[0..] == segs;
    }
    if i: nat :| i < j && IndexesAt(child, rest, i) && rest[i] == "" {
      IndexesBelow(t, segs, i);
      assert IndexesAt(t, segs, i + 1) && segs[i + 1] == "";
    }
    if i: nat :| i < j + 1 && IndexesAt(t, segs, i) && segs[i] == "" {
      if i > 0 {
        IndexesBelow(t, segs, i - 1);
        assert IndexesAt(child, rest, i - 1) && rest[i - 1] == "";
      }
    }
  }

  lemma {:induction false} CrashesAt(t: Tree, segs: Path, appended: bool)
    requires segs != []
    ensures Crashes(t, segs, appended) <==>
      exists j: nat :: IndexesAt(t, segs, j) && AppendsBefore(t, segs, appended, j)
    decreases |segs|
  {
    assert segs[0..] == segs;
    assert Indexes(t, segs) <==> IndexesAt(t, segs, 0);
    if Indexes(t, segs) && appended {
      assert AppendsBefore(t, segs, appended, 0);
    }
    if |segs| > 1 && !Child(t, segs).Nil? {
      var child, rest, now := Child(t, segs), segs[1..], appended || (segs[0] == "" && t.Arr?);
      CrashesAt(child, rest, now);
      if j: nat :| IndexesAt(child, rest, j) && AppendsBefore(child, rest, now, j) {
        IndexesBelow(t, segs, j);
        AppendsBelow(t, segs, appended, j);
        assert IndexesAt(t, segs, j + 1) && AppendsBefore(t, segs, appended, j + 1);
      }
      if j: nat :| IndexesAt(t, segs, j) && AppendsBefore(t, segs, appended, j) {
        if j > 0 {
          IndexesBelow(t, segs, j - 1);
          AppendsBelow(t, segs, appended, j - 1);
          assert IndexesAt(child, rest, j - 1) && AppendsBefore(child, rest, now, j - 1);
        }
      }
    }
  }

  /** A write panics exactly when a segment that appends to a list is followed by another one that
      indexes a list. */
  lemma CrashesIff(t: Tree, segs: Path, val: string)
    requires segs != []
    ensures SetPath(t, segs, val).Crash? <==>
      exists i: nat, j: nat :: i < j && IndexesAt(t, segs, i) && segs[i] == "" && IndexesAt(t, segs, j)
  {
    CrashesAt(t, segs, false);
    if j: nat :| IndexesAt(t, segs, j) && AppendsBefore(t, segs, false, j) {
      var i: nat :| i < j && IndexesAt(t, segs, i) && segs[i] == "";
    }
    if i: nat, j: nat :| i < j && IndexesAt(t, segs, i) && segs[i] == "" && IndexesAt(t, segs, j) {
      assert AppendsBefore(t, segs, false, j);
    }
  }

  lemma {:induction false} NoAppendNoCrash(t: Tree, segs: Path)
    requires segs != [] && forall k :: 0 <= k < |segs| ==> segs[k] != ""
    ensures !Crashes(t, segs, false)
    decreases |segs|
  {
    if |segs| > 1 {
      NoAppendNoCrash(Child(t, segs), segs[1..]);
    }
  }

  lemma SetPathKeepsTop(t: Tree, segs: Path, val: string)
    requires segs != [] && t.Obj?
    ensures SetPath(t, segs, val).Ok? ==> SetPath(t, segs, val).value.Obj?
  {
  }

  /** What is still to come of a write that has got to `cur`, which hangs at `at`. */
  ghost function ToCome(tree: Tree, at: seq<Step>, cur: Tree, rest: Path, val: string, appended: bool): Result<Tree>
    requires rest != []
  {
    if Crashes(cur, rest, appended) then Crash
    else match SetAt(cur, rest, val) { case Some(u) => Ok(Hang(tree, at, u)) case None => Err }
  }

  /** Creating the field or slot that the path needs next changes nothing about what is to come. */
  lemma StepIntoField(tree: Tree, path: Path, at: seq<Step>, fields: map<string, Tree>, rest: Path, val: string)
    requires Leads(tree, path, at) && Find(tree, at) == Obj(fields) && |rest| > 1
    requires !Child(Obj(fields), rest).Nil?
    ensures var child := Child(Obj(fields), rest);
            var t := Hang(tree, at, Obj(fields[rest[0] := child]));
            var place := at + [Field(rest[0])];
            && Leads(t, path + [rest[0]], place) && Find(t, place) == child && (tree.Obj? ==> t.Obj?)
            && ToCome(t, place, child, rest[1..], val, Appended(path + [rest[0]], place)) ==
               ToCome(tree, at, Obj(fields), rest, val, Appended(path, at))
  {
    var x, child := rest[0], Child(Obj(fields), rest);
    var grown := Obj(fields[x := child]);
    var deep := SetAt(child, rest[1..], val);
    var sub := if deep.Some? then deep.value else Nil;
    HangFinds(tree, path, at, grown, Obj(fields[x := sub]));
    OverwriteField(fields, x, child, sub);
    LeadsOn(Hang(tree, at, grown), path, at, x, Field(x), sub);
    AppendedLast(path, at, x, Field(x));
  }

  lemma StepIntoSlot(tree: Tree, path: Path, at: seq<Step>, items: seq<Tree>, idx: nat, rest: Path, val: string)
    requires Leads(tree, path, at) && Find(tree, at) == Arr(items) && |rest| > 1 && !Appended(path, at)
    requires IndexFromSegment(rest[0], |items|) == Some(idx)
    ensures var child := Child(Arr(items), rest);
            var t := Hang(tree, at, Arr(Grow(items, idx)[idx := child]));
            var place := at + [Slot(idx)];
            && Leads(t, path + [rest[0]], place) && Find(t, place) == child
            && (at != [] && tree.Obj? ==> t.Obj?)
            && ToCome(t, place, child, rest[1..], val, Appended(path + [rest[0]], place)) ==
               ToCome(tree, at, Arr(items), rest, val, false)
  {
    var x, child := rest[0], Child(Arr(items), rest);
    var grown := Grow(items, idx);
    var deep := SetAt(child, rest[1..], val);
    var sub := if deep.Some? then deep.value else Nil;
    HangFinds(tree, path, at, Arr(grown[idx := child]), Arr(grown[idx := sub]));
    OverwriteSlot(grown, idx, child, sub);
    LeadsOn(Hang(tree, at, Arr(grown[idx := child])), path, at, x, Slot(idx), sub);
    AppendedLast(path, at, x, Slot(idx));
  }

  /** setBracketPath: walks down creating containers, and writes every grown list back by its path.
      Maps are changed where they hang. */
  method SetBracketPath(root: Tree, segs: Path, val: string) returns (r: Result<Tree>)
    requires root.Obj?
    ensures r == if segs == [] then Err else SetPath(root, segs, val)
  {
    if |segs| == 0 {
      return Err;
    }
    if |segs| == 1 {
      return Ok(Obj(root.fields[segs[0] := Leaf(val)]));
    }
    var tree, cur, at := root, root, [];
    for i := 0 to |segs| - 1
      invariant tree.Obj? && !cur.Nil? && (i == 0 ==> cur.Obj?)
      invariant Leads(tree, segs[..i], at) && Find(tree, at) == cur
      invariant ToCome(tree, at, cur, segs[i..], val, Appended(segs[..i], at)) == SetPath(root, segs, val)
    {
      var path, rest := segs[..i], segs[i..];
      assert path + [rest[0]] == segs[..i + 1] && rest[1..] == segs[i + 1..];
      var child: Tree;
      match cur {
        case Obj(fields) =>
          child := if segs[i] in fields then fields[segs[i]] else NewContainer(segs[i + 1]);
          if child.Nil? {
            assert SetAt(child, rest[1..], val).None?;
            return Err;
          }
          StepIntoField(tree, path, at, fields, rest, val);
          tree := Hang(tree, at, Obj(fields[segs[i] := child]));
          at := at + [Field(segs[i])];
        case Arr(items) =>
          var idx := IndexFromSegment(segs[i], |items|);
          if idx.None? {
            return Err;
          }
          var parent := Grow(items, idx.value);
          child := if parent[idx.value].Nil? then NewContainer(segs[i + 1]) else parent[idx.value];
          WriteBackLeads(tree, path, at, Arr(parent[idx.value := child]));
          var written := WriteBack(tree, path, Arr(parent[idx.value := child]));
          if !written.Ok? {
            return written;
          }
          StepIntoSlot(tree, path, at, items, idx.value, rest, val);
          tree := written.value;
          at := at + [Slot(idx.value)];
        case _ =>
          return Err;
      }
      cur := child;
    }
    var last := |segs| - 1;
    match cur {
      case Obj(fields) =>
        r := Ok(Hang(tree, at, Obj(fields[segs[last] := Leaf(val)])));
      case Arr(items) =>
        var idx := IndexFromSegment(segs[last], |items|);
        if idx.None? {
          return Err;
        }
        var leaf := Arr(Grow(items, idx.value)[idx.value := Leaf(val)]);
        WriteBackLeads(tree, segs[..last], at, leaf);
        r := WriteBack(tree, segs[..last], leaf);
      case _ =>
        r := Err;
    }
  }
}
