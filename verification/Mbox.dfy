/** The mbox file of the mail mock: writing a message, cutting a file into entries, reading one
    back (the format of Appendix A of RFC 4155, lines starting `From ` quoted with `>`). */
module Mbox {
  import opened Seqs
  import opened TextLines

  /** A mail: the line that opens its entry, its header lines as they are written, its body. */
  datatype Mail = Mail(stamp: string, head: seq<string>, body: string)

  // ---------- quoting ----------

  predicate FromLine(l: string) { |l| >= 5 && l[..5] == "From " }

  /** strings.TrimLeft(l, ">"). */
  function TrimArrows(l: string): string {
    if l != "" && l[0] == '>' then TrimArrows(l[1..]) else l
  }

  predicate Quotable(l: string) { FromLine(TrimArrows(l)) }

  function EscapeLine(l: string): string {
    if Quotable(l) then ">" + l else l
  }

  function UnescapeLine(l: string): string {
    if l != "" && l[0] == '>' && Quotable(l[1..]) then l[1..] else l
  }

  /** A line is quoted, by one more arrow, if it is some arrows, or none, and then `From `. */
  lemma {:induction false} QuotableIs(l: string)
    ensures Quotable(l) <==> exists n :: 0 <= n <= |l| && (forall i :: 0 <= i < n ==> l[i] == '>') && "From " <= l[n..]
  {
    if l != "" && l[0] == '>' {
      QuotableIs(l[1..]);
      if n :| 0 <= n <= |l| - 1 && (forall i :: 0 <= i < n ==> l[1..][i] == '>') && "From " <= l[1..][n..] {
        assert l[1..][n..] == l[n + 1..];
        assert forall i :: 0 <= i < n + 1 ==> l[i] == if i == 0 then '>' else l[1..][i - 1];
      }
      if n :| 0 <= n <= |l| && (forall i :: 0 <= i < n ==> l[i] == '>') && "From " <= l[n..] {
        assert n > 0;
        assert l[1..][n - 1..] == l[n..];
      }
    } else {
      if Quotable(l) {
        assert l[0..] == l;
      }
      if n :| 0 <= n <= |l| && (forall i :: 0 <= i < n ==> l[i] == '>') && "From " <= l[n..] {
        assert n == 0 && l[0..] == l;
      }
    }
  }

  /** Quoting is undone line by line, and no quoted line can open an entry. */
  lemma EscapeRoundTrip(l: string)
    ensures UnescapeLine(EscapeLine(l)) == l && !FromLine(EscapeLine(l))
  {
    assert (">" + l)[1..] == l;
  }

  lemma {:induction false} TrimDropCR(l: string)
    ensures TrimArrows(DropCR(l)) == DropCR(TrimArrows(l))
  {
    if l != "" && l[0] == '>' {
      TrimDropCR(l[1..]);
      if |l| > 1 {
        assert DropCR(l)[1..] == DropCR(l[1..]);
      }
    }
  }

  lemma FromDropCR(l: string)
    ensures FromLine(DropCR(l)) == FromLine(l)
  {
    if |l| >= 5 && l[|l| - 1] == '\r' {
      if |l| == 5 {
        assert l[..5][4] == '\r';
      } else {
        assert DropCR(l)[..5] == l[..5];
      }
    }
  }

  /** A stray carriage return neither makes nor breaks a quotable line. */
  lemma EscapeDropCR(l: string)
    ensures DropCR(EscapeLine(l)) == EscapeLine(DropCR(l))
  {
    TrimDropCR(l);
    FromDropCR(TrimArrows(l));
    if l != "" {
      assert DropCR(">" + l) == ">" + DropCR(l);
    }
  }

  // ---------- writing ----------

  method EscapeBody(body: string) returns (escaped: string)
    ensures escaped == if body == "" then "" else Join(Map(EscapeLine, Pieces(Normalise(body))))
  {
    if body == "" {
      return body;
    }
    var lines := Pieces(Normalise(body));
    ghost var was := lines;
    for i := 0 to |lines|
      invariant |lines| == |was|
      invariant forall k :: 0 <= k < i ==> lines[k] == EscapeLine(was[k])
      invariant forall k :: i <= k < |was| ==> lines[k] == was[k]
    {
      if Quotable(lines[i]) {
        lines := lines[i := ">" + lines[i]];
      }
    }
    assert lines == Map(EscapeLine, was);
    return Join(lines);
  }

  /** The lines a body is written as, before quoting. */
  function BodyLines(body: string): (ls: seq<string>)
    ensures OneLiners(ls)
  {
    RawLines(Normalise(body))
  }

  function WithCR(ls: seq<string>): seq<string> { Map((l: string) => l + "\r", ls) }

  /** A message in the file: header lines end in CRLF, body lines in LF, and a blank line closes it. */
  function MessageLines(m: Mail): seq<string> {
    [m.stamp + "\r"] + WithCR(m.head) + ["\r"] + Map(EscapeLine, BodyLines(m.body)) + [""]
  }

  function FileLines(ms: seq<Mail>): seq<string> {
    if ms == [] then [] else FileLines(ms[..|ms| - 1]) + MessageLines(ms[|ms| - 1])
  }

  /** The file that holds these messages. */
  function FileText(ms: seq<Mail>): string { Unlines(FileLines(ms)) }

  lemma EscapedOneLine(l: string)
    requires OneLine(l)
    ensures OneLine(EscapeLine(l)) && (EscapeLine(l) == "" <==> l == "")
  {
  }

  lemma EscapedPieces(init: seq<string>, last: string)
    requires OneLine(last)
    ensures var escaped := Join(Map(EscapeLine, init + [last]));
            Unlines(Map(EscapeLine, if last == "" then init else init + [last])) == escaped +
                if Ended(escaped) then "" else "\n"
  {
    EscapedOneLine(last);
    JoinClosed(Map(EscapeLine, init), EscapeLine(last));
    assert Map(EscapeLine, init + [last]) == Map(EscapeLine, init) + [EscapeLine(last)];
  }

  lemma EscapedBody(body: string)
    ensures var escaped := Join(Map(EscapeLine, Pieces(Normalise(body))));
            Unlines(Map(EscapeLine, BodyLines(body))) == escaped + if Ended(escaped) then "" else "\n"
  {
    var ps := Pieces(Normalise(body));
    PiecesAreLines(Normalise(body));
    assert ps == ps[..|ps| - 1] + [ps[|ps| - 1]];
    EscapedPieces(ps[..|ps| - 1], ps[|ps| - 1]);
  }

  function HeadLines(m: Mail): seq<string> { [m.stamp + "\r"] + WithCR(m.head) + ["\r"] }

  method WriteHead(m: Mail) returns (out: string)
    ensures out == Unlines(HeadLines(m))
  {
    out := m.stamp + "\r\n";
    FirstLine(m.stamp, m.head);
    for i := 0 to |m.head|
      invariant out == Unlines([m.stamp + "\r"] + WithCR(m.head[..i]))
    {
      WrittenHead(m.stamp, m.head, i);
      out := out + m.head[i] + "\r\n";
    }
    assert m.head[..|m.head|] == m.head;
    UnlinesSnoc([m.stamp + "\r"] + WithCR(m.head), "\r");
    assert out + "\r" + "\n" == out + "\r\n";
    out := out + "\r\n";
  }

  method WriteBody(body: string) returns (out: string)
    ensures out == Unlines(Map(EscapeLine, BodyLines(body)))
  {
    out := EscapeBody(body);
    if body != "" {
      EscapedBody(body);
    }
    if out != "" && out[|out| - 1] != '\n' {
      out := out + "\n";
    }
  }

  /** Writes one message to the stream, as writeMboxMessage does once the header is rendered. */
  method WriteMessage(m: Mail) returns (out: string)
    ensures out == Unlines(MessageLines(m))
  {
    var head := WriteHead(m);
    var body := WriteBody(m.body);
    out := head + body + "\n";
    UnlinesPlus(HeadLines(m), Map(EscapeLine, BodyLines(m.body)));
    UnlinesSnoc(HeadLines(m) + Map(EscapeLine, BodyLines(m.body)), "");
    assert head + body + "" + "\n" == out;
  }

  lemma FirstLine(stamp: string, head: seq<string>)
    ensures Unlines([stamp + "\r"] + WithCR(head[..0])) == stamp + "\r\n"
  {
    assert [stamp + "\r"] + WithCR(head[..0]) == [] + [stamp + "\r"];
    UnlinesSnoc([], stamp + "\r");
  }

  lemma WrittenHead(stamp: string, head: seq<string>, i: nat)
    requires i < |head|
    ensures Unlines([stamp + "\r"] + WithCR(head[..i + 1])) == Unlines([stamp + "\r"] + WithCR(head[..i])) +
            head[i] + "\r\n"
  {
    assert [stamp + "\r"] + WithCR(head[..i + 1]) == [stamp + "\r"] + WithCR(head[..i]) + [head[i] + "\r"];
    UnlinesSnoc([stamp + "\r"] + WithCR(head[..i]), head[i] + "\r");
    assert head[i] + "\r" + "\n" == head[i] + "\r\n";
  }

  /** Header lines as they stand in the file. */
  function CrlfLines(head: seq<string>): string {
    if head == [] then "" else CrlfLines(head[..|head| - 1]) + head[|head| - 1] + "\r\n"
  }

  lemma CrlfLine(lines: seq<string>, h: string)
    ensures Unlines(lines + [h + "\r"]) == Unlines(lines) + h + "\r\n"
  {
    UnlinesSnoc(lines, h + "\r");
    assert h + "\r" + "\n" == h + "\r\n";
  }

  lemma NextHeadLine(stamp: string, head: seq<string>, h: string)
    ensures Unlines([stamp + "\r"] + WithCR(head + [h])) == Unlines([stamp + "\r"] + WithCR(head)) + h + "\r\n"
  {
    var before := [stamp + "\r"] + WithCR(head);
    assert [stamp + "\r"] + WithCR(head + [h]) == before + [h + "\r"];
    CrlfLine(before, h);
  }

  lemma Regroup(a: string, b: string, c: string, d: string)
    ensures (a + b) + c + d == a + (b + c + d)
  {
  }

  lemma {:induction false} HeadText(stamp: string, head: seq<string>)
    ensures Unlines([stamp + "\r"] + WithCR(head)) == (stamp + "\r\n") + CrlfLines(head)
  {
    if head == [] {
      assert [stamp + "\r"] + WithCR(head) == [] + [stamp + "\r"];
      CrlfLine([], stamp);
    } else {
      var init, last := head[..|head| - 1], head[|head| - 1];
      assert head == init + [last];
      HeadText(stamp, init);
      NextHeadLine(stamp, init, last);
      Regroup(stamp + "\r\n", CrlfLines(init), last, "\r\n");
    }
  }

  /** A message in the file, byte by byte: the line that opens it, the header and a blank line, all ended
      by CRLF, then the quoted lines of the body and another blank line, ended by LF. */
  lemma MessageText(m: Mail)
    ensures Unlines(MessageLines(m)) ==
            m.stamp + "\r\n" + CrlfLines(m.head) + "\r\n" + Unlines(Map(EscapeLine, BodyLines(m.body))) + "\n"
  {
    var a, b := [m.stamp + "\r"] + WithCR(m.head), Map(EscapeLine, BodyLines(m.body));
    HeadText(m.stamp, m.head);
    UnlinesSnoc(a, "\r");
    UnlinesPlus(a + ["\r"], b);
    UnlinesSnoc(a + ["\r"] + b, "");
    assert Unlines(a) + "\r" + "\n" == Unlines(a) + "\r\n";
  }

  /** writeMboxInbox: the whole file anew. */
  method WriteInbox(ms: seq<Mail>) returns (out: string)
    ensures out == FileText(ms)
  {
    out := "";
    for i := 0 to |ms|
      invariant out == FileText(ms[..i])
    {
      var more := WriteMessage(ms[i]);
      FileTextTurn(ms, i);
      out := out + more;
    }
    assert ms[..|ms|] == ms;
  }

  lemma FileTextTurn(ms: seq<Mail>, i: nat)
    requires i < |ms|
    ensures FileText(ms[..i + 1]) == FileText(ms[..i]) + Unlines(MessageLines(ms[i]))
  {
    assert ms[..i + 1] == ms[..i] + [ms[i]];
    FileTextSnoc(ms[..i], ms[i]);
  }

  lemma FileTextSnoc(ms: seq<Mail>, m: Mail)
    ensures FileText(ms + [m]) == FileText(ms) + Unlines(MessageLines(m))
  {
    assert (ms + [m])[..|ms|] == ms;
    UnlinesPlus(FileLines(ms), MessageLines(m));
  }

  // ---------- cutting a file into entries ----------

  /** Line i opens an entry: it starts `From ` and stands first or behind a blank line. */
  predicate Opens(lines: seq<string>, i: nat)
    requires i < |lines|
  {
    FromLine(lines[i]) && (i == 0 || lines[i - 1] == "")
  }

  /** The last line that opens an entry, or the first line of all. */
  function LastOpening(lines: seq<string>): (k: nat)
    requires lines != []
    ensures k < |lines|
  {
    if |lines| == 1 || Opens(lines, |lines| - 1) then |lines| - 1 else LastOpening(lines[..|lines| - 1])
  }

  lemma {:induction false} LastOpeningIs(lines: seq<string>, k: nat)
    requires k < |lines| && (k == 0 || Opens(lines, k)) && forall i :: k < i < |lines| ==> !Opens(lines, i)
    ensures LastOpening(lines) == k
  {
    if k < |lines| - 1 {
      var shorter := lines[..|lines| - 1];
      forall i | k < i < |shorter| ensures !Opens(shorter, i) {
        assert !Opens(lines, i);
      }
      assert k > 0 ==> Opens(lines, k) && Opens(shorter, k);
      LastOpeningIs(shorter, k);
    }
  }

  /** The entries of a file: it is cut before every line that opens one. */
  function EntryLines(lines: seq<string>): seq<seq<string>> {
    if lines == [] then []
    else
      var k := LastOpening(lines);
      EntryLines(lines[..k]) + [lines[k..]]
  }

  /** Line j of an entry opens one: it starts `From ` behind a blank line, be it of the entry before. */
  predicate OpensBehind(line: string, previous: string) { "From " <= line && previous == "" }

  lemma OpensIs(lines: seq<string>, i: nat)
    requires 0 < i < |lines|
    ensures Opens(lines, i) <==> OpensBehind(lines[i], lines[i - 1])
  {
    assert FromLine(lines[i]) <==> "From " <= lines[i];
  }

  lemma {:induction false} LastOpeningOpens(lines: seq<string>, i: nat)
    requires lines != [] && LastOpening(lines) < i < |lines|
    ensures !Opens(lines, i)
  {
    var n := |lines| - 1;
    if i < n {
      LastOpeningOpens(lines[..n], i);
      assert Opens(lines[..n], i) <==> Opens(lines, i);
    }
  }

  lemma {:induction false} LastOpeningFirst(lines: seq<string>)
    requires lines != []
    ensures LastOpening(lines) > 0 ==> Opens(lines, LastOpening(lines))
  {
    var n := |lines| - 1;
    if n > 0 && !Opens(lines, n) {
      LastOpeningFirst(lines[..n]);
      assert Opens(lines[..n], LastOpening(lines)) <==> Opens(lines, LastOpening(lines));
    }
  }

  lemma LastEntry(lines: seq<string>)
    requires lines != []
    ensures var k := LastOpening(lines);
            && (k > 0 ==> OpensBehind(lines[k], lines[k - 1]))
            && forall j :: 0 < j < |lines| - k ==> !OpensBehind(lines[k..][j], lines[k..][j - 1])
  {
    var k := LastOpening(lines);
    LastOpeningFirst(lines);
    if k > 0 {
      OpensIs(lines, k);
    }
    forall j | 0 < j < |lines| - k ensures !OpensBehind(lines[k..][j], lines[k..][j - 1]) {
      LastOpeningOpens(lines, k + j);
      OpensIs(lines, k + j);
    }
  }

  /** The entries of a file are its lines, cut before exactly those that start `From ` behind a blank
      line. */
  ghost predicate CutRight(lines: seq<string>, entries: seq<seq<string>>) {
    && Flatten(entries) == lines
    && (forall i :: 0 <= i < |entries| ==> entries[i] != [])
    && (forall i :: 0 < i < |entries| ==> OpensBehind(entries[i][0], entries[i - 1][|entries[i - 1]| - 1]))
    && (forall i, j :: 0 <= i < |entries| && 0 < j < |entries[i]| ==> !OpensBehind(entries[i][j], entries[i][j - 1]))
  }

  lemma CutRightSnoc(lines: seq<string>, entries: seq<seq<string>>, more: seq<string>)
    requires CutRight(lines, entries) && more != []
    requires lines != [] ==> OpensBehind(more[0], lines[|lines| - 1])
    requires forall j :: 0 < j < |more| ==> !OpensBehind(more[j], more[j - 1])
    ensures CutRight(lines + more, entries + [more])
  {
    var longer := entries + [more];
    assert longer[..|entries|] == entries;
    if entries != [] {
      assert entries == entries[..|entries| - 1] + [entries[|entries| - 1]];
      assert lines == Flatten(entries[..|entries| - 1]) + entries[|entries| - 1];
    }
  }

  lemma {:induction false} EntriesAre(lines: seq<string>)
    ensures CutRight(lines, EntryLines(lines))
  {
    if lines != [] {
      var k := LastOpening(lines);
      EntriesAre(lines[..k]);
      LastEntry(lines);
      CutRightSnoc(lines[..k], EntryLines(lines[..k]), lines[k..]);
      assert lines == lines[..k] + lines[k..];
    }
  }

  /** What the cutting loop has at hand: the entries complete, the one under way, and whether the
      line before was blank. */
  datatype Cut = Cut(entries: seq<string>, current: string, prevBlank: bool)

  function Close(c: Cut): seq<string> {
    if c.current != "" then c.entries + [c.current] else c.entries
  }

  /** One turn of the loop. */
  function CutLine(c: Cut, l: string): Cut {
    if FromLine(l) && c.prevBlank then Cut(Close(c), l + "\n", l == "")
    else Cut(c.entries, c.current + l + "\n", l == "")
  }

  function CutUpTo(lines: seq<string>): Cut {
    if lines == [] then Cut([], "", true) else CutLine(CutUpTo(lines[..|lines| - 1]), lines[|lines| - 1])
  }

  lemma CutNext(lines: seq<string>, i: nat)
    requires i < |lines|
    ensures CutUpTo(lines[..i + 1]) == CutLine(CutUpTo(lines[..i]), lines[i])
  {
    assert lines[..i + 1][..i] == lines[..i];
  }

  predicate Cutting(lines: seq<string>, entries: seq<string>, current: string, prevBlank: bool) {
    if lines == [] then entries == [] && current == "" && prevBlank
    else
      prevBlank == (lines[|lines| - 1] == "") &&
      current == Unlines(lines[LastOpening(lines)..]) &&
      entries == Map(Unlines, EntryLines(lines[..LastOpening(lines)]))
  }

  lemma OpeningStep(lines: seq<string>, l: string)
    ensures LastOpening(lines + [l]) ==
            if lines == [] || (FromLine(l) && lines[|lines| - 1] == "") then |lines| else LastOpening(lines)
  {
    var longer := lines + [l];
    assert longer[..|longer| - 1] == lines && longer[|lines|] == l;
  }

  lemma SplitAt(lines: seq<string>, l: string, k: nat)
    requires k <= |lines|
    ensures (lines + [l])[..k] == lines[..k] && (lines + [l])[k..] == lines[k..] + [l]
  {
  }

  lemma CutHere(lines: seq<string>, l: string, entries: seq<string>, current: string)
    requires Cutting(lines, entries, current, true) && FromLine(l)
    ensures Cutting(lines + [l], if current != "" then entries + [current] else entries, "" + l + "\n", l == "")
  {
    OpeningStep(lines, l);
    SplitAt(lines, l, |lines|);
    assert lines[..|lines|] == lines && lines[|lines|..] == [];
    UnlinesSnoc([], l);
    CutEnd(lines, entries, current, true);
  }

  lemma GoOn(lines: seq<string>, l: string, entries: seq<string>, current: string, prevBlank: bool)
    requires Cutting(lines, entries, current, prevBlank) && !(FromLine(l) && prevBlank)
    ensures Cutting(lines + [l], entries, current + l + "\n", l == "")
  {
    OpeningStep(lines, l);
    if lines == [] {
      UnlinesSnoc([], l);
    } else {
      SplitAt(lines, l, LastOpening(lines));
      UnlinesSnoc(lines[LastOpening(lines)..], l);
    }
  }

  lemma CutEnd(lines: seq<string>, entries: seq<string>, current: string, prevBlank: bool)
    requires Cutting(lines, entries, current, prevBlank)
    ensures Map(Unlines, EntryLines(lines)) == if current != "" then entries + [current] else entries
  {
    if lines != [] {
      UnlinesEnded(lines[LastOpening(lines)..]);
      MapConcat(Unlines, EntryLines(lines[..LastOpening(lines)]), [lines[LastOpening(lines)..]]);
    }
  }

  lemma {:induction false} CutsAtOpenings(lines: seq<string>)
    ensures var c := CutUpTo(lines); Cutting(lines, c.entries, c.current, c.prevBlank)
  {
    if lines != [] {
      var before, l := lines[..|lines| - 1], lines[|lines| - 1];
      var c := CutUpTo(before);
      CutsAtOpenings(before);
      assert lines == before + [l];
      if FromLine(l) && c.prevBlank {
        CutHere(before, l, c.entries, c.current);
        assert "" + l + "\n" == l + "\n";
      } else {
        GoOn(before, l, c.entries, c.current, c.prevBlank);
      }
    }
  }

  /** splitMboxEntries: cuts a file into the texts of its entries. */
  method SplitEntries(data: string) returns (entries: seq<string>)
    ensures entries == Map(Unlines, EntryLines(Scan(data)))
  {
    var lines := Scan(data);
    var current, prevBlank := "", true;
    entries := [];
    for i := 0 to |lines|
      invariant Cut(entries, current, prevBlank) == CutUpTo(lines[..i])
    {
      var line := lines[i];
      CutNext(lines, i);
      if FromLine(line) && prevBlank {
        if current != "" {
          entries := entries + [current];
        }
        current := "";
      }
      current := current + line + "\n";
      prevBlank := line == "";
    }
    assert lines[..|lines|] == lines;
    CutsAtOpenings(lines);
    CutEnd(lines, entries, current, prevBlank);
    if current != "" {
      entries := entries + [current];
    }
  }

  /** Lines that make up one entry and leave the next one free to open. */
  predicate IsEntry(lines: seq<string>) {
    && lines != [] && FromLine(lines[0]) && lines[|lines| - 1] == ""
    && forall i :: 0 < i < |lines| ==> !Opens(lines, i)
  }

  function Flatten(blocks: seq<seq<string>>): seq<string> {
    if blocks == [] then [] else Flatten(blocks[..|blocks| - 1]) + blocks[|blocks| - 1]
  }

  lemma {:induction false} FlattenEnds(blocks: seq<seq<string>>)
    requires forall i :: 0 <= i < |blocks| ==> IsEntry(blocks[i])
    ensures blocks != [] ==> Flatten(blocks) != [] && Flatten(blocks)[|Flatten(blocks)| - 1] == ""
  {
  }

  /** Cutting entries that were put one behind the other gives exactly those entries. */
  lemma {:induction false} SplitConcatenation(blocks: seq<seq<string>>)
    requires forall i :: 0 <= i < |blocks| ==> IsEntry(blocks[i])
    ensures EntryLines(Flatten(blocks)) == blocks
  {
    if blocks != [] {
      var init, last := blocks[..|blocks| - 1], blocks[|blocks| - 1];
      var front := Flatten(init);
      var lines := front + last;
      FlattenEnds(init);
      assert front == [] ==> init == [];
      forall i | |front| < i < |lines| ensures !Opens(lines, i) {
        assert !Opens(last, i - |front|);
        assert lines[i - 1] == last[i - |front| - 1];
      }
      assert Opens(lines, |front|);
      LastOpeningIs(lines, |front|);
      assert lines[..|front|] == front && lines[|front|..] == last;
      SplitConcatenation(init);
      assert blocks == init + [last];
    }
  }
}
