/** Reading an mbox file back, and what comes back of what was written. */
module MboxReading {
  import opened Wrappers
  import opened Seqs
  import opened TextLines
  import opened Mbox

  // ---------- reading ----------

  lemma UnescapedStep(lines: seq<string>, i: nat)
    requires i < |lines|
    ensures Unlines(Map(UnescapeLine, lines[..i + 1])) == Unlines(Map(UnescapeLine, lines[..i])) +
            UnescapeLine(lines[i]) + "\n"
  {
    assert Map(UnescapeLine, lines[..i + 1]) == Map(UnescapeLine, lines[..i]) + [UnescapeLine(lines[i])];
    UnlinesSnoc(Map(UnescapeLine, lines[..i]), UnescapeLine(lines[i]));
  }

  /** unescapeMBox: the scanner drops a carriage return at the end of every line once more. */
  method Unescape(body: string) returns (out: string)
    ensures out == Unlines(Map(UnescapeLine, Scan(body)))
  {
    var lines := Scan(body);
    var first := true;
    out := "";
    for i := 0 to |lines|
      invariant first == (i == 0)
      invariant if first then out == "" else out + "\n" == Unlines(Map(UnescapeLine, lines[..i]))
    {
      var line := lines[i];
      if line != "" && line[0] == '>' {
        var rest := line[1..];
        if Quotable(rest) {
          line := rest;
        }
      }
      UnescapedStep(lines, i);
      if !first {
        out := out + "\n";
      }
      first := false;
      out := out + line;
    }
    assert lines[..|lines|] == lines;
    if !first {
      out := out + "\n";
    }
  }

  /** trimMboxSeparator. */
  function TrimSeparator(s: string): string {
    var lf := Normalise(s);
    if lf != "" && lf[|lf| - 1] == '\n' then lf[..|lf| - 1] else lf
  }

  function FirstBlank(lines: seq<string>): (i: nat)
    ensures i <= |lines| && (i < |lines| ==> lines[i] == "") && forall k :: 0 <= k < i ==> lines[k] != ""
  {
    if lines == [] || lines[0] == "" then 0 else 1 + FirstBlank(lines[1..])
  }

  /** What the lines of an entry say: the opening line, the header up to a blank line, the body.
      An entry without anything behind its opening line is skipped. */
  function ParseLines(lines: seq<string>): Option<Mail> {
    if |lines| <= 1 then None
    else
      var rest := Map(UnescapeLine, Map(DropCR, lines[1..]));
      var i := FirstBlank(rest);
      Some(Mail(lines[0], rest[..i], TrimSeparator(Unlines(if i < |rest| then rest[i + 1..] else []))))
  }

  /** Whatever has a line behind its opening one is an entry: the opening line as it stands, the lines up
      to the first blank one unquoted, and the rest. */
  lemma ParsesTo(lines: seq<string>)
    ensures ParseLines(lines).None? <==> |lines| <= 1
    ensures |lines| > 1 ==>
              var m := ParseLines(lines).value;
              && m.stamp == lines[0] && |m.head| < |lines|
              && (forall i :: 0 <= i < |m.head| ==> m.head[i] == UnescapeLine(DropCR(lines[i + 1])) != "")
              && (|m.head| < |lines| - 1 ==> UnescapeLine(DropCR(lines[|m.head| + 1])) == "")
  {
  }

  /** bytes.Cut at the first newline. */
  function CutLine(s: string): Option<(string, string)> {
    if s == "" then None
    else if s[0] == '\n' then Some(("", s[1..]))
    else
      match CutLine(s[1..])
      case None => None
      case Some((before, after)) => Some(([s[0]] + before, after))
  }

  lemma {:induction false} CutLineOf(l: string, t: string)
    requires OneLine(l)
    ensures CutLine(l + "\n" + t) == Some((l, t))
  {
    var s := l + "\n" + t;
    if l == "" {
      assert s[1..] == t;
    } else {
      assert s[1..] == l[1..] + "\n" + t;
      CutLineOf(l[1..], t);
      assert l == [l[0]] + l[1..] && s[0] == l[0];
    }
  }

  /** parseMboxEntry, as far as framing goes. */
  method ParseEntry(raw: string, ghost lines: seq<string>) returns (r: Option<Mail>)
    requires lines != [] && OneLiners(lines) && raw == Unlines(lines)
    ensures r == ParseLines(lines)
  {
    CutLineOf(lines[0], Unlines(lines[1..]));
    var cut := CutLine(raw);
    LinesOf(lines[1..]);
    var body := Unescape(cut.value.1);
    var rest := RawLines(body);
    LinesOf(Map(UnescapeLine, Map(DropCR, lines[1..])));
    if rest == [] {
      return None;
    }
    var i := FirstBlank(rest);
    return Some(Mail(cut.value.0, rest[..i], TrimSeparator(Unlines(if i < |rest| then rest[i + 1..] else []))));
  }

  function Parsed(entries: seq<seq<string>>): seq<Mail> {
    if entries == [] then []
    else
      Parsed(entries[..|entries| - 1]) +
      match ParseLines(entries[|entries| - 1])
      case None => []
      case Some(m) => [m]
  }

  /** What a file says. */
  function ReadBack(data: string): seq<Mail> { Parsed(EntryLines(Scan(data))) }

  lemma {:induction false} EntriesAreLines(lines: seq<string>)
    requires OneLiners(lines)
    ensures forall i :: 0 <= i < |EntryLines(lines)| ==> EntryLines(lines)[i] != [] && OneLiners(EntryLines(lines)[i])
  {
    if lines != [] {
      EntriesAreLines(lines[..LastOpening(lines)]);
    }
  }

  lemma EntryIsLines(lines: seq<string>, i: nat)
    requires OneLiners(lines) && i < |EntryLines(lines)|
    ensures EntryLines(lines)[i] != [] && OneLiners(EntryLines(lines)[i])
  {
    EntriesAreLines(lines);
  }

  lemma ParsedStep(entries: seq<seq<string>>, i: nat)
    requires i < |entries|
    ensures Parsed(entries[..i + 1]) ==
            Parsed(entries[..i]) + match ParseLines(entries[i]) case None => [] case Some(m) => [m]
  {
    assert entries[..i + 1][..i] == entries[..i];
  }

  /** readMboxInbox. */
  method ReadInbox(data: string) returns (ms: seq<Mail>)
    ensures ms == ReadBack(data)
  {
    ms := [];
    var raws := SplitEntries(data);
    ghost var entries := EntryLines(Scan(data));
    for i := 0 to |raws|
      invariant ms == Parsed(entries[..i])
    {
      EntryIsLines(Scan(data), i);
      var m := ParseEntry(raws[i], entries[i]);
      ParsedStep(entries, i);
      if m.Some? {
        ms := ms + [m.value];
      }
    }
    assert entries[..|raws|] == entries;
  }

  // ---------- what comes back ----------

  /** A line that can stand in a header: not blank, no newline, no carriage return at its end and
      nothing quoting would touch. Field names hold no blanks, so no field starts `From `. */
  predicate HeaderLine(l: string) {
    l != "" && OneLine(l) && DropCR(l) == l && !Quotable(l)
  }

  predicate Writable(m: Mail) {
    && FromLine(m.stamp) && OneLine(m.stamp)
    && m.head != [] && forall i :: 0 <= i < |m.head| ==> HeaderLine(m.head[i])
  }

  /** Reading drops up to three carriage returns before each newline: cutting, unquoting and
      trimming take one each. */
  function DropThree(l: string): string { DropCR(DropCR(DropCR(l))) }

  function Settled(body: string): string { Unlines(Map(DropThree, BodyLines(body))) }

  /** A mail as it comes back. */
  function Loaded(m: Mail): Mail { m.(body := Settled(m.body)) }

  /** A quoted line as the scanner sees it. */
  function Quoted(l: string): string { DropCR(EscapeLine(l)) }

  /** A written message as the scanner sees it. */
  function Block(m: Mail): seq<string> { [m.stamp] + m.head + [""] + (Map(Quoted, BodyLines(m.body)) + [""]) }

  lemma StampKept(l: string)
    requires FromLine(l)
    ensures DropCR(l + "\r") == l
  {
  }

  lemma ScannedMessage(m: Mail)
    requires Writable(m)
    ensures Map(DropCR, MessageLines(m)) == Block(m) && OneLiners(MessageLines(m))
  {
    var a, b := [m.stamp + "\r"] + WithCR(m.head) + ["\r"], Map(EscapeLine, BodyLines(m.body)) + [""];
    assert MessageLines(m) == a + b;
    ScannedHead(m);
    ScannedBody(BodyLines(m.body));
    MapConcat(DropCR, a, b);
  }

  lemma ScannedHead(m: Mail)
    requires Writable(m)
    ensures var a := [m.stamp + "\r"] + WithCR(m.head) + ["\r"];
            Map(DropCR, a) == [m.stamp] + m.head + [""] && OneLiners(a)
  {
    var a := [m.stamp + "\r"] + WithCR(m.head) + ["\r"];
    forall i | 0 <= i < |a| ensures DropCR(a[i]) == ([m.stamp] + m.head + [""])[i] && OneLine(a[i]) {
      if i == 0 {
        StampKept(m.stamp);
      } else if i < |a| - 1 {
        assert HeaderLine(m.head[i - 1]);
        assert a[i] == m.head[i - 1] + "\r";
      }
    }
  }

  lemma ScannedBody(ls: seq<string>)
    requires OneLiners(ls)
    ensures Map(DropCR, Map(EscapeLine, ls) + [""]) == Map(Quoted, ls) + [""] && OneLiners(Map(EscapeLine, ls) + [""])
  {
    MapConcat(DropCR, Map(EscapeLine, ls), [""]);
    MapTwice(EscapeLine, DropCR, Quoted, ls);
    assert Map(DropCR, [""]) == [""];
    forall i | 0 <= i < |ls| ensures OneLine(Map(EscapeLine, ls)[i]) {
      EscapedOneLine(ls[i]);
    }
  }

  /** No line of a message but the first starts `From `. */
  lemma BlockIsEntry(m: Mail)
    requires Writable(m)
    ensures IsEntry(Block(m))
  {
    var lines, n, body := Block(m), |m.head|, Map(Quoted, BodyLines(m.body));
    assert lines[0] == m.stamp && lines[|lines| - 1] == "";
    forall i | 0 < i < |lines| ensures !FromLine(lines[i]) {
      if i <= n {
        assert lines[i] == m.head[i - 1] && HeaderLine(m.head[i - 1]);
        FromIsQuotable(m.head[i - 1]);
      } else if n + 1 < i < |lines| - 1 {
        assert lines[i] == body[i - n - 2] == Quoted(BodyLines(m.body)[i - n - 2]);
        QuotedNotFrom(BodyLines(m.body)[i - n - 2]);
      }
    }
  }

  lemma QuotedNotFrom(l: string)
    ensures !FromLine(Quoted(l))
  {
    EscapeRoundTrip(l);
    FromDropCR(EscapeLine(l));
  }

  lemma FromIsQuotable(l: string)
    ensures FromLine(l) ==> Quotable(l)
  {
    assert FromLine(l) ==> l[..5][0] == 'F' == l[0];
  }

  function Blocks(ms: seq<Mail>): seq<seq<string>> { Map(Block, ms) }

  lemma LastOfMap<A, B>(f: A -> B, s: seq<A>)
    requires s != []
    ensures Map(f, s) == Map(f, s[..|s| - 1]) + [f(s[|s| - 1])]
    ensures Map(f, s)[..|s| - 1] == Map(f, s[..|s| - 1])
  {
  }

  lemma {:induction false} ScannedFile(ms: seq<Mail>)
    requires forall i :: 0 <= i < |ms| ==> Writable(ms[i])
    ensures OneLiners(FileLines(ms)) && Map(DropCR, FileLines(ms)) == Flatten(Blocks(ms))
  {
    if ms != [] {
      var init, last := ms[..|ms| - 1], ms[|ms| - 1];
      ScannedFile(init);
      ScannedMessage(last);
      MapConcat(DropCR, FileLines(init), MessageLines(last));
      LastOfMap(Block, ms);
    }
  }

  /** The entries of a written file are its messages, whatever their bodies hold. */
  lemma WrittenEntries(ms: seq<Mail>)
    requires forall i :: 0 <= i < |ms| ==> Writable(ms[i])
    ensures EntryLines(Scan(FileText(ms))) == Blocks(ms)
  {
    ScannedFile(ms);
    LinesOf(FileLines(ms));
    forall i | 0 <= i < |ms| ensures IsEntry(Blocks(ms)[i]) {
      BlockIsEntry(ms[i]);
    }
    SplitConcatenation(Blocks(ms));
  }

  /** A quoted line as it comes back once the quoting is undone. */
  function Unquoted(l: string): string { UnescapeLine(DropCR(l)) }

  function TwiceDropped(l: string): string { DropCR(DropCR(l)) }

  lemma LineBack(l: string)
    ensures Unquoted(Quoted(l)) == TwiceDropped(l)
  {
    EscapeDropCR(l);
    EscapeDropCR(DropCR(l));
    EscapeRoundTrip(DropCR(DropCR(l)));
  }

  lemma HeadUntouched(l: string)
    requires HeaderLine(l)
    ensures Unquoted(l) == l
  {
  }

  lemma LinesBack(m: Mail)
    requires Writable(m)
    ensures Map(UnescapeLine, Map(DropCR, Block(m)[1..])) == m.head + [""] +
            (Map(TwiceDropped, BodyLines(m.body)) + [""])
  {
    var ls := Map(Quoted, BodyLines(m.body));
    assert Block(m)[1..] == m.head + [""] + (ls + [""]);
    MapTwice(DropCR, UnescapeLine, Unquoted, Block(m)[1..]);
    MapConcat(Unquoted, m.head + [""], ls + [""]);
    MapConcat(Unquoted, m.head, [""]);
    MapConcat(Unquoted, ls, [""]);
    assert Map(Unquoted, [""]) == [""];
    forall i | 0 <= i < |m.head| ensures Unquoted(m.head[i]) == m.head[i] {
      assert HeaderLine(m.head[i]);
      HeadUntouched(m.head[i]);
    }
    MapSame(Unquoted, m.head);
    forall i | 0 <= i < |BodyLines(m.body)|
      ensures Unquoted(Quoted(BodyLines(m.body)[i])) == TwiceDropped(BodyLines(m.body)[i])
    {
      LineBack(BodyLines(m.body)[i]);
    }
    MapTwice(Quoted, Unquoted, TwiceDropped, BodyLines(m.body));
  }

  lemma {:induction false} FirstBlankAfter(head: seq<string>, rest: seq<string>)
    requires forall i :: 0 <= i < |head| ==> head[i] != ""
    ensures var lines := head + [""] + rest;
            FirstBlank(lines) == |head| && lines[..|head|] == head && lines[|head| + 1..] == rest
  {
    var lines := head + [""] + rest;
    assert lines[|head|] == "";
    forall i | 0 <= i < |head| ensures lines[i] != "" {
      assert lines[i] == head[i];
    }
  }

  /** One entry parses to its mail, the body settled. */
  lemma BlockParses(m: Mail)
    requires Writable(m)
    ensures ParseLines(Block(m)) == Some(Loaded(m))
  {
    LinesBack(m);
    forall i | 0 <= i < |m.head| ensures m.head[i] != "" {
      assert HeaderLine(m.head[i]);
    }
    FirstBlankAfter(m.head, Map(TwiceDropped, BodyLines(m.body)) + [""]);
    BodyBack(BodyLines(m.body));
  }

  lemma DroppedOneLine(l: string)
    requires OneLine(l)
    ensures OneLine(DropCR(l)) && OneLine(TwiceDropped(l)) && OneLine(DropThree(l))
  {
  }

  lemma BodyBack(ls: seq<string>)
    requires OneLiners(ls)
    ensures TrimSeparator(Unlines(Map(TwiceDropped, ls) + [""])) == Unlines(Map(DropThree, ls))
  {
    forall i | 0 <= i < |ls| ensures OneLine(Map(TwiceDropped, ls)[i]) {
      DroppedOneLine(ls[i]);
    }
    NormaliseUnlines(Map(TwiceDropped, ls) + [""]);
    MapConcat(DropCR, Map(TwiceDropped, ls), [""]);
    assert Map(DropCR, [""]) == [""];
    MapTwice(TwiceDropped, DropCR, DropThree, ls);
    UnlinesSnoc(Map(DropThree, ls), "");
    var text := Unlines(Map(DropThree, ls));
    assert text + "" + "\n" == text + "\n" && (text + "\n")[..|text|] == text;
  }

  /** Reading a written inbox gives its mails back in order, each with its body settled. */
  lemma {:induction false} ReadBackWritten(ms: seq<Mail>)
    requires forall i :: 0 <= i < |ms| ==> Writable(ms[i])
    ensures ReadBack(FileText(ms)) == Map(Loaded, ms)
  {
    WrittenEntries(ms);
    ParsedBlocks(ms);
  }

  lemma {:induction false} ParsedBlocks(ms: seq<Mail>)
    requires forall i :: 0 <= i < |ms| ==> Writable(ms[i])
    ensures Parsed(Blocks(ms)) == Map(Loaded, ms)
  {
    if ms != [] {
      LastOfMap(Block, ms);
      LastOfMap(Loaded, ms);
      ParsedBlocks(ms[..|ms| - 1]);
      BlockParses(ms[|ms| - 1]);
    }
  }

  // ---------- bodies ----------

  /** No line of the body, CRLF counting as one line end, ends in a carriage return. */
  predicate NoStrayCR(body: string) {
    forall i :: 0 <= i < |BodyLines(body)| ==> DropCR(BodyLines(body)[i]) == BodyLines(body)[i]
  }

  /** The body LF-normalised, with a final newline added only if it is not empty and lacks one. */
  function Closed(body: string): string {
    Normalise(body) + if Ended(Normalise(body)) then "" else "\n"
  }

  lemma {:induction false} UnlinesInjective(a: seq<string>, b: seq<string>)
    requires OneLiners(a) && OneLiners(b) && Unlines(a) == Unlines(b)
    ensures a == b
  {
    LinesOf(a);
    LinesOf(b);
  }

  lemma DropThreeLines(ls: seq<string>)
    requires OneLiners(ls)
    ensures OneLiners(Map(DropThree, ls))
  {
    forall i | 0 <= i < |ls| ensures OneLine(Map(DropThree, ls)[i]) {
      DroppedOneLine(ls[i]);
    }
  }

  lemma DropThreeSame(l: string)
    ensures DropThree(l) == l <==> DropCR(l) == l
  {
  }

  /** A body comes back LF-normalised and closed if and only if it has no stray carriage return. */
  lemma SettledIsClosed(body: string)
    ensures Settled(body) == Closed(body) <==> NoStrayCR(body)
  {
    var ls := BodyLines(body);
    UnlinesOfLines(Normalise(body));
    DropThreeLines(ls);
    if Settled(body) == Closed(body) {
      UnlinesInjective(Map(DropThree, ls), ls);
      forall i | 0 <= i < |ls| ensures DropCR(ls[i]) == ls[i] {
        assert Map(DropThree, ls)[i] == ls[i];
        DropThreeSame(ls[i]);
      }
    }
    if NoStrayCR(body) {
      forall i | 0 <= i < |ls| ensures DropThree(ls[i]) == ls[i] {
        DropThreeSame(ls[i]);
      }
      assert Map(DropThree, ls) == ls;
    }
  }

  lemma SettledLines(body: string)
    ensures BodyLines(Settled(body)) == Map(DropCR, Map(DropThree, BodyLines(body)))
  {
    var ls := Map(DropThree, BodyLines(body));
    DropThreeLines(BodyLines(body));
    NormaliseUnlines(ls);
    forall i | 0 <= i < |ls| ensures OneLine(Map(DropCR, ls)[i]) {
      DroppedOneLine(ls[i]);
    }
    LinesOf(Map(DropCR, ls));
  }

  /** The line ends in four carriage returns. */
  predicate FourCRs(l: string) { |l| >= 4 && l[|l| - 4..] == "\r\r\r\r" }

  lemma FourthDrop(l: string)
    ensures DropCR(DropThree(l)) == DropThree(l) <==> !FourCRs(l)
  {
    if |l| >= 4 {
      assert l[|l| - 4..] == [l[|l| - 4], l[|l| - 3], l[|l| - 2], l[|l| - 1]];
    }
  }

  /** Saving what was loaded and loading it again changes nothing if and only if no line of the body,
      CRLF counting as one line end, ends in four carriage returns; a body without any such stray one
      is written as before. */
  lemma SecondSaveIsIdentity(body: string)
    ensures Settled(Settled(body)) == Settled(body) <==>
            forall i :: 0 <= i < |BodyLines(body)| ==> !FourCRs(BodyLines(body)[i])
    ensures NoStrayCR(body) ==> BodyLines(Settled(body)) == BodyLines(body) && NoStrayCR(Settled(body))
  {
    var ls := BodyLines(body);
    var once := Map(DropThree, ls);
    var twice := Map(DropThree, BodyLines(Settled(body)));
    SettledLines(body);
    DropThreeLines(ls);
    DropThreeLines(BodyLines(Settled(body)));
    forall i | 0 <= i < |ls| ensures twice[i] == once[i] <==> !FourCRs(ls[i]) {
      DropFour(DropThree(ls[i]));
      FourthDrop(ls[i]);
    }
    if Settled(Settled(body)) == Settled(body) {
      UnlinesInjective(twice, once);
    }
    assert twice == once ==> Settled(Settled(body)) == Settled(body);
    if NoStrayCR(body) {
      forall i | 0 <= i < |ls| {
        DropThreeSame(ls[i]);
      }
    }
  }

  lemma DropFour(l: string)
    ensures DropThree(DropCR(l)) == l <==> DropCR(l) == l
  {
  }

  lemma {:induction false} CRsAreOneLine(l: string)
    requires l != "" && forall i :: 0 <= i < |l| ==> l[i] == '\r'
    ensures RawLines(l) == [l]
  {
    if |l| > 1 {
      CRsAreOneLine(l[1..]);
      var whole := [l[0]] + l[1..];
      assert whole == l && [l[1..]][1..] == [];
      assert Prefixed(l[0], [l[1..]]) == [whole] + [];
    } else {
      assert l[1..] == "" && [l[0]] == l;
    }
  }

  lemma {:induction false} CRsStay(l: string)
    requires forall i :: 0 <= i < |l| ==> l[i] == '\r'
    ensures Normalise(l) == l
  {
    if l != "" {
      CRsStay(l[1..]);
    }
  }

  lemma OneRawLine(l: string)
    requires l != "" && forall i :: 0 <= i < |l| ==> l[i] == '\r'
    ensures BodyLines(l) == [l] && Normalise(l) == l
  {
    CRsStay(l);
    CRsAreOneLine(l);
  }

  /** A body that is a single carriage return comes back as an empty line. */
  lemma StrayCRIsLost()
    ensures Settled("\r") == "\n" && Closed("\r") == "\r\n"
  {
    OneRawLine("\r");
    assert Map(DropThree, ["\r"]) == [""];
  }

  /** One of four carriage returns comes back as one, and at the second save as none. */
  lemma SecondSaveLosesMore()
    ensures Settled("\r\r\r\r") == "\r\n" && Settled(Settled("\r\r\r\r")) == "\n"
  {
    OneRawLine("\r\r\r\r");
    assert DropThree("\r\r\r\r") == "\r" by {
      assert DropCR("\r\r\r\r") == "\r\r\r" && DropCR("\r\r\r") == "\r\r" && DropCR("\r\r") == "\r";
    }
    assert Map(DropThree, ["\r\r\r\r"]) == ["\r"];
    SettledLines("\r\r\r\r");
    assert BodyLines("\r\n") == [""];
    assert Map(DropThree, [""]) == [""];
  }
}
