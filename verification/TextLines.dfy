/** Text as lines: how Go's scanner, strings.Split and strings.Join see it. */
module TextLines {
  import opened Seqs

  predicate OneLine(l: string) { '\n' !in l }

  predicate OneLiners(ls: seq<string>) { forall i :: 0 <= i < |ls| ==> OneLine(ls[i]) }

  /** Each line with its newline. */
  function Unlines(ls: seq<string>): string {
    if ls == [] then "" else ls[0] + "\n" + Unlines(ls[1..])
  }

  /** A character put in front of the first line. */
  function Prefixed(c: char, ls: seq<string>): seq<string>
    requires ls != []
  {
    [[c] + ls[0]] + ls[1..]
  }

  /** The lines of a text, a last one without newline included unless it is empty. */
  function RawLines(s: string): (ls: seq<string>)
    ensures OneLiners(ls)
  {
    if s == "" then []
    else if s[0] == '\n' then [""] + RawLines(s[1..])
    else
      var r := RawLines(s[1..]);
      if r == [] then [[s[0]]] else Prefixed(s[0], r)
  }

  function DropCR(l: string): string {
    if l != "" && l[|l| - 1] == '\r' then l[..|l| - 1] else l
  }

  /** bufio.ScanLines: the lines, each without one trailing carriage return. */
  function Scan(s: string): (ls: seq<string>)
    ensures OneLiners(ls)
  {
    Map(DropCR, RawLines(s))
  }

  /** strings.Split(s, "\n"). */
  function Pieces(s: string): (ls: seq<string>)
    ensures |ls| >= 1 && OneLiners(ls)
  {
    if s == "" then [""]
    else if s[0] == '\n' then [""] + Pieces(s[1..])
    else
      Prefixed(s[0], Pieces(s[1..]))
  }

  /** strings.Join(ls, "\n"). */
  function Join(ls: seq<string>): string
    requires ls != []
  {
    if |ls| == 1 then ls[0] else ls[0] + "\n" + Join(ls[1..])
  }

  /** strings.ReplaceAll(s, "\r\n", "\n"). */
  function Normalise(s: string): string {
    if |s| >= 2 && s[0] == '\r' && s[1] == '\n' then "\n" + Normalise(s[2..])
    else if s == "" then "" else [s[0]] + Normalise(s[1..])
  }

  predicate Ended(s: string) { s == "" || s[|s| - 1] == '\n' }

  // ---------- how they fit together ----------

  lemma {:induction false} LineThenRest(l: string, t: string)
    requires OneLine(l)
    ensures RawLines(l + "\n" + t) == [l] + RawLines(t)
  {
    var s := l + "\n" + t;
    if l == "" {
      assert s[1..] == t;
    } else {
      assert s[1..] == l[1..] + "\n" + t;
      LineThenRest(l[1..], t);
      assert s[0] == l[0] != '\n';
      assert [l[0]] + l[1..] == l;
    }
  }

  lemma {:induction false} LinesOfUnlines(ls: seq<string>, t: string)
    requires OneLiners(ls)
    ensures RawLines(Unlines(ls) + t) == ls + RawLines(t)
  {
    if ls == [] {
      assert Unlines(ls) + t == t;
    } else {
      assert Unlines(ls) + t == ls[0] + "\n" + (Unlines(ls[1..]) + t);
      LineThenRest(ls[0], Unlines(ls[1..]) + t);
      LinesOfUnlines(ls[1..], t);
    }
  }

  lemma LinesOf(ls: seq<string>)
    requires OneLiners(ls)
    ensures RawLines(Unlines(ls)) == ls && Scan(Unlines(ls)) == Map(DropCR, ls)
  {
    LinesOfUnlines(ls, "");
    assert Unlines(ls) + "" == Unlines(ls);
  }

  lemma {:induction false} UnlinesPlus(a: seq<string>, b: seq<string>)
    ensures Unlines(a + b) == Unlines(a) + Unlines(b)
  {
    if a == [] {
      assert a + b == b;
    } else {
      assert (a + b)[1..] == a[1..] + b;
      UnlinesPlus(a[1..], b);
    }
  }

  lemma UnlinesSnoc(a: seq<string>, l: string)
    ensures Unlines(a + [l]) == Unlines(a) + l + "\n"
  {
    UnlinesPlus(a, [l]);
    assert Unlines([l]) == l + "\n";
  }

  lemma {:induction false} UnlinesEnded(ls: seq<string>)
    ensures Ended(Unlines(ls)) && (Unlines(ls) == "" <==> ls == [])
  {
    if ls != [] {
      UnlinesEnded(ls[1..]);
    }
  }

  function LinesOfPieces(ps: seq<string>): seq<string>
    requires ps != []
  {
    if ps[|ps| - 1] == "" then ps[..|ps| - 1] else ps
  }

  lemma PiecesPrefixed(c: char, ps: seq<string>)
    requires ps != []
    ensures LinesOfPieces(Prefixed(c, ps)) == if LinesOfPieces(ps) == [] then [[c]] else Prefixed(c, LinesOfPieces(ps))
  {
    var qs := Prefixed(c, ps);
    if |ps| == 1 {
      assert qs == [[c] + ps[0]];
      assert ps[0] == "" ==> [c] + ps[0] == [c];
    } else {
      assert qs[|qs| - 1] == ps[|ps| - 1];
      assert qs[..|qs| - 1] == Prefixed(c, ps[..|ps| - 1]);
    }
  }

  lemma PiecesBroken(ps: seq<string>)
    requires ps != []
    ensures LinesOfPieces([""] + ps) == [""] + LinesOfPieces(ps)
  {
    assert ([""] + ps)[..|ps|] == [""] + ps[..|ps| - 1];
  }

  /** Split and the scanner differ only in a last empty piece. */
  lemma {:induction false} PiecesAreLines(s: string)
    ensures RawLines(s) == LinesOfPieces(Pieces(s))
  {
    if s != "" {
      PiecesAreLines(s[1..]);
      if s[0] == '\n' {
        PiecesBroken(Pieces(s[1..]));
      } else {
        PiecesPrefixed(s[0], Pieces(s[1..]));
      }
    }
  }

  lemma {:induction false} JoinUnlines(ls: seq<string>)
    requires ls != []
    ensures Join(ls) + "\n" == Unlines(ls)
  {
    if |ls| == 1 {
      assert ls == [ls[0]] && Unlines(ls[1..]) == "";
      assert Unlines(ls) == ls[0] + "\n" + "";
    } else {
      JoinUnlines(ls[1..]);
    }
  }

  /** Joining pieces and closing the last line gives the text of the lines. */
  lemma JoinClosed(init: seq<string>, last: string)
    requires OneLine(last)
    ensures (if last == "" then Unlines(init) else Unlines(init + [last])) ==
            Join(init + [last]) + if Ended(Join(init + [last])) then "" else "\n"
  {
    JoinIs(init, last);
    CloseLast(init, last);
  }

  lemma JoinIs(init: seq<string>, last: string)
    ensures Join(init + [last]) == Unlines(init) + last
  {
    JoinUnlines(init + [last]);
    UnlinesSnoc(init, last);
    SameBeforeNewline(Join(init + [last]), Unlines(init) + last);
  }

  lemma CloseLast(init: seq<string>, last: string)
    requires OneLine(last)
    ensures (Unlines(init) + last) + (if Ended(Unlines(init) + last) then "" else "\n") ==
            if last == "" then Unlines(init) else Unlines(init + [last])
  {
    UnlinesEnded(init);
    UnlinesSnoc(init, last);
    if last == "" {
      assert Unlines(init) + last == Unlines(init);
    } else {
      assert (Unlines(init) + last)[|Unlines(init) + last| - 1] == last[|last| - 1] && last[|last| - 1] in last;
    }
  }

  lemma SameBeforeNewline(a: string, b: string)
    requires a + "\n" == b + "\n"
    ensures a == b
  {
    assert |a| == |b|;
    assert a == (a + "\n")[..|a|] && b == (b + "\n")[..|b|];
  }

  lemma DropCRCons(l: string)
    requires l != "" && l != "\r"
    ensures DropCR(l) == [l[0]] + DropCR(l[1..])
  {
    assert l == [l[0]] + l[1..];
  }

  lemma NormaliseCons(l: string, t: string)
    requires OneLine(l) && l != "" && l != "\r"
    ensures Normalise(l + "\n" + t) == [l[0]] + Normalise(l[1..] + "\n" + t)
  {
    var s := l + "\n" + t;
    assert s[1..] == l[1..] + "\n" + t;
    assert |l| == 1 || (s[1] == l[1] && l[1] in l);
  }

  lemma {:induction false} NormaliseLine(l: string, t: string)
    requires OneLine(l)
    ensures Normalise(l + "\n" + t) == DropCR(l) + "\n" + Normalise(t)
  {
    var s := l + "\n" + t;
    if l == "" {
      assert s[1..] == t;
    } else if l == "\r" {
      assert s[2..] == t;
    } else {
      DropCRCons(l);
      NormaliseCons(l, t);
      NormaliseLine(l[1..], t);
    }
  }

  lemma {:induction false} NormaliseUnlines(ls: seq<string>)
    requires OneLiners(ls)
    ensures Normalise(Unlines(ls)) == Unlines(Map(DropCR, ls))
  {
    if ls != [] {
      NormaliseLine(ls[0], Unlines(ls[1..]));
      NormaliseUnlines(ls[1..]);
      assert Map(DropCR, ls)[1..] == Map(DropCR, ls[1..]);
    }
  }

  lemma JoinPrefixed(c: char, ps: seq<string>)
    requires ps != []
    ensures Join(Prefixed(c, ps)) == [c] + Join(ps)
  {
    assert Prefixed(c, ps)[1..] == ps[1..];
  }

  lemma JoinBroken(ps: seq<string>)
    requires ps != []
    ensures Join([""] + ps) == "\n" + Join(ps)
  {
    assert ([""] + ps)[1..] == ps;
  }

  /** Split and Join are inverses. */
  lemma {:induction false} JoinPieces(s: string)
    ensures Join(Pieces(s)) == s
  {
    if s != "" {
      JoinPieces(s[1..]);
      assert s == [s[0]] + s[1..];
      if s[0] == '\n' {
        JoinBroken(Pieces(s[1..]));
      } else {
        JoinPrefixed(s[0], Pieces(s[1..]));
      }
    }
  }

  lemma UnlinesOfLines(s: string)
    ensures Unlines(RawLines(s)) == s + if Ended(s) then "" else "\n"
  {
    var ps := Pieces(s);
    var init, last := ps[..|ps| - 1], ps[|ps| - 1];
    assert Unlines(RawLines(s)) == if last == "" then Unlines(init) else Unlines(init + [last]) by {
      PiecesAreLines(s);
      assert ps == init + [last];
    }
    assert Join(init + [last]) == s by {
      JoinPieces(s);
      assert ps == init + [last];
    }
    JoinClosed(init, last);
  }
}
