/** The mail mock's inbox: a bounded list of messages, oldest first, mirrored in an mbox file.
    Disk writes succeed; what is written is kept as the text of the file. */
module Inbox {
  import opened Seqs
  import opened TextLines
  import opened Mbox
  import opened MboxReading

  // ---------- message fields, as the header carries them ----------

  predicate StartsWith(l: string, prefix: string) { |prefix| <= |l| && l[..|prefix|] == prefix }

  const ID_FIELD := "X-Hamr-Id: "
  const STATUS_FIELD := "X-Hamr-Status: "
  const NOTE_FIELD := "X-Hamr-Status-Note: "

  /** The value of the first header line with this field name, "" for none. */
  function Field(head: seq<string>, name: string): string {
    if head == [] then ""
    else if StartsWith(head[0], name) then head[0][|name|..]
    else Field(head[1..], name)
  }

  /** Where a header line has the field, the first one that does has its value. */
  lemma {:induction false} FieldIs(head: seq<string>, name: string) returns (i: nat)
    requires exists k :: 0 <= k < |head| && StartsWith(head[k], name)
    ensures i < |head| && head[i] == name + Field(head, name)
    ensures forall k :: 0 <= k < i ==> !(name <= head[k])
  {
    if StartsWith(head[0], name) {
      i := 0;
    } else {
      var k :| 0 <= k < |head| && StartsWith(head[k], name);
      assert head[1..][k - 1] == head[k];
      i := FieldIs(head[1..], name);
      i := i + 1;
    }
  }

  function IdOf(m: Mail): string { Field(m.head, ID_FIELD) }

  function StatusOf(m: Mail): string { Field(m.head, STATUS_FIELD) }

  /** The header as it is written once the status has changed: the status line and, for a note that
      is not empty, the note follow the id. */
  function Restamped(head: seq<string>, status: string, note: string): seq<string> {
    if head == [] then []
    else if StartsWith(head[0], ID_FIELD) then
      [head[0], STATUS_FIELD + status] + (if note != "" then [NOTE_FIELD + note] else []) + Cleared(head[1..])
    else
      (if StartsWith(head[0], STATUS_FIELD) || StartsWith(head[0], NOTE_FIELD) then [] else [head[0]]) +
      Restamped(head[1..], status, note)
  }

  /** Without the status lines. */
  function Cleared(head: seq<string>): seq<string> {
    if head == [] then []
    else
      (if StartsWith(head[0], STATUS_FIELD) || StartsWith(head[0], NOTE_FIELD) then [] else [head[0]]) +
          Cleared(head[1..])
  }

  function WithStatus(m: Mail, status: string, note: string): Mail {
    m.(head := Restamped(m.head, status, note))
  }

  /** What every stored message satisfies: it can be written, and its header says which it is. */
  predicate Stored(m: Mail) {
    Writable(m) && exists i :: 0 <= i < |m.head| && StartsWith(m.head[i], ID_FIELD)
  }

  predicate AllStored(ms: seq<Mail>) { forall i :: 0 <= i < |ms| ==> Stored(ms[i]) }

  /** A note as it is encoded into a header line. */
  predicate HeaderText(s: string) { OneLine(s) && DropCR(s) == s }

  lemma StatusLineOk(field: string, text: string)
    requires HeaderText(text) && (field == STATUS_FIELD || field == NOTE_FIELD)
    ensures HeaderLine(field + text)
  {
    var l := field + text;
    assert l[0] == 'X';
    assert DropCR(l) == l;
  }

  lemma {:induction false} ClearedLines(head: seq<string>)
    requires forall i :: 0 <= i < |head| ==> HeaderLine(head[i])
    ensures forall i :: 0 <= i < |Cleared(head)| ==> HeaderLine(Cleared(head)[i])
  {
    if head != [] {
      ClearedLines(head[1..]);
    }
  }

  lemma {:induction false} RestampedLines(head: seq<string>, status: string, note: string)
    requires forall i :: 0 <= i < |head| ==> HeaderLine(head[i])
    requires HeaderText(status) && HeaderText(note)
    ensures forall i :: 0 <= i < |Restamped(head, status, note)| ==> HeaderLine(Restamped(head, status, note)[i])
  {
    if head != [] {
      if StartsWith(head[0], ID_FIELD) {
        StatusLineOk(STATUS_FIELD, status);
        StatusLineOk(NOTE_FIELD, note);
        ClearedLines(head[1..]);
      } else {
        RestampedLines(head[1..], status, note);
      }
    }
  }

  lemma FieldsDistinct(l: string)
    ensures !(StartsWith(l, ID_FIELD) && StartsWith(l, STATUS_FIELD))
    ensures !(StartsWith(l, ID_FIELD) && StartsWith(l, NOTE_FIELD))
  {
    assert ID_FIELD[7] != STATUS_FIELD[7] && ID_FIELD[7] != NOTE_FIELD[7];
  }

  lemma {:induction false} RestampedId(head: seq<string>, status: string, note: string)
    requires exists i :: 0 <= i < |head| && StartsWith(head[i], ID_FIELD)
    ensures var after := Restamped(head, status, note);
            && after != [] && Field(after, ID_FIELD) == Field(head, ID_FIELD)
            && Field(after, STATUS_FIELD) == status
            && exists i :: 0 <= i < |after| && StartsWith(after[i], ID_FIELD)
  {
    var after := Restamped(head, status, note);
    FieldsDistinct(head[0]);
    if StartsWith(head[0], ID_FIELD) {
      assert after[0] == head[0] && after[1] == STATUS_FIELD + status;
      assert after[1..][0] == STATUS_FIELD + status;
      assert (STATUS_FIELD + status)[|STATUS_FIELD|..] == status;
    } else {
      var i :| 0 <= i < |head| && StartsWith(head[i], ID_FIELD);
      assert head[1..][i - 1] == head[i];
      RestampedId(head[1..], status, note);
      var rest := Restamped(head[1..], status, note);
      var j :| 0 <= j < |rest| && StartsWith(rest[j], ID_FIELD);
      if StartsWith(head[0], STATUS_FIELD) || StartsWith(head[0], NOTE_FIELD) {
        assert after == rest;
      } else {
        assert after == [head[0]] + rest && after[1..] == rest && after[j + 1] == rest[j];
      }
    }
  }

  /** A line that says neither status nor note. */
  predicate OtherLine(l: string) { !("X-Hamr-Status: " <= l) && !("X-Hamr-Status-Note: " <= l) }

  lemma {:induction false} ClearedAre(head: seq<string>, other: string -> bool)
    requires forall l :: other(l) <==> !StartsWith(l, STATUS_FIELD) && !StartsWith(l, NOTE_FIELD)
    ensures Cleared(head) == Filter(head, other)
  {
    if head != [] {
      ClearedAre(head[1..], other);
      FilterFirst(head, other);
    }
  }

  /** A restamped header: behind the id its status and, if it is not empty, the note; before and behind
      them what else was there, in order. */
  ghost predicate Stamped(head: seq<string>, after: seq<string>, stamp: seq<string>, other: string -> bool, i: nat) {
    && i < |head| && StartsWith(head[i], ID_FIELD) && (forall k :: 0 <= k < i ==> !StartsWith(head[k], ID_FIELD))
    && after == Filter(head[..i], other) + [head[i]] + stamp + Filter(head[i + 1..], other)
  }

  function Stamp(status: string, note: string): seq<string> {
    [STATUS_FIELD + status] + if note != "" then [NOTE_FIELD + note] else []
  }

  lemma StampedLater(head: seq<string>, after: seq<string>, stamp: seq<string>, other: string -> bool, i: nat)
    requires head != [] && !StartsWith(head[0], ID_FIELD) && Stamped(head[1..], after, stamp, other, i)
    ensures Stamped(head, (if other(head[0]) then [head[0]] else []) + after, stamp, other, i + 1)
  {
    FilterFirst(head[..i + 1], other);
    assert head[..i + 1][1..] == head[1..][..i] && head[1..][i + 1..] == head[i + 2..];
    forall k | 0 <= k < i + 1 ensures !StartsWith(head[k], ID_FIELD) {
      assert k > 0 ==> head[k] == head[1..][k - 1];
    }
  }

  lemma {:induction false} RestampedParts(head: seq<string>, status: string, note: string, other: string -> bool)
    returns (i: nat)
    requires exists i :: 0 <= i < |head| && StartsWith(head[i], ID_FIELD)
    requires forall l :: other(l) <==> !StartsWith(l, STATUS_FIELD) && !StartsWith(l, NOTE_FIELD)
    ensures Stamped(head, Restamped(head, status, note), Stamp(status, note), other, i)
  {
    if StartsWith(head[0], ID_FIELD) {
      i := 0;
      ClearedAre(head[1..], other);
    } else {
      var k :| 0 <= k < |head| && StartsWith(head[k], ID_FIELD);
      assert head[1..][k - 1] == head[k];
      i := RestampedParts(head[1..], status, note, other);
      StampedLater(head, Restamped(head[1..], status, note), Stamp(status, note), other, i);
      i := i + 1;
    }
  }

  lemma PrefixIs(l: string, prefix: string)
    ensures StartsWith(l, prefix) <==> prefix <= l
  {
  }

  lemma OtherLineIs(l: string)
    ensures OtherLine(l) <==> !StartsWith(l, STATUS_FIELD) && !StartsWith(l, NOTE_FIELD)
  {
    PrefixIs(l, STATUS_FIELD);
    PrefixIs(l, NOTE_FIELD);
  }

  /** The header after a status change: the id line, the new status and, if it is not empty, the new
      note, and before and behind them all other lines that said neither, in order. */
  lemma StatusReplaced(head: seq<string>, status: string, note: string) returns (i: nat)
    requires exists i :: 0 <= i < |head| && StartsWith(head[i], ID_FIELD)
    ensures i < |head| && "X-Hamr-Id: " <= head[i] && forall k :: 0 <= k < i ==> !("X-Hamr-Id: " <= head[k])
    ensures Restamped(head, status, note) ==
            Filter(head[..i], OtherLine) + [head[i]] + ["X-Hamr-Status: " + status] +
            (if note != "" then ["X-Hamr-Status-Note: " + note] else []) + Filter(head[i + 1..], OtherLine)
  {
    forall l {
      OtherLineIs(l);
    }
    i := RestampedParts(head, status, note, OtherLine);
    forall k | 0 <= k <= i ensures StartsWith(head[k], ID_FIELD) <==> "X-Hamr-Id: " <= head[k] {
      PrefixIs(head[k], ID_FIELD);
    }
  }

  /** A status change leaves the message storable, keeps its id and puts the new status in place. */
  lemma StatusChanges(m: Mail, status: string, note: string)
    requires Stored(m) && HeaderText(status) && HeaderText(note)
    ensures var n := WithStatus(m, status, note);
            Stored(n) && IdOf(n) == IdOf(m) && StatusOf(n) == status && n.body == m.body && n.stamp == m.stamp
  {
    RestampedLines(m.head, status, note);
    RestampedId(m.head, status, note);
  }

  // ---------- the mirror ----------

  /** In memory a message is as it was saved or as it came back from the file. */
  predicate Mirrors(messages: seq<Mail>, saved: seq<Mail>) {
    |messages| == |saved| &&
    forall i :: 0 <= i < |saved| ==> messages[i] == saved[i] || messages[i] == Loaded(saved[i])
  }

  lemma LoadedStored(m: Mail)
    requires Stored(m)
    ensures Stored(Loaded(m))
  {
  }

  /** Reading the file gives back the messages in memory in order, up to what reading does to a
      body; a message without stray carriage returns comes back LF-normalised and closed. */
  lemma FileHoldsMessages(messages: seq<Mail>, saved: seq<Mail>)
    requires AllStored(saved) && Mirrors(messages, saved)
    ensures var back := ReadBack(FileText(saved));
            && |back| == |messages|
            && forall i :: 0 <= i < |back| ==>
                 && (back[i] == messages[i] || back[i] == Loaded(messages[i]))
                 && (NoStrayCR(saved[i].body) ==> back[i] == messages[i].(body := Closed(messages[i].body)))
  {
    ReadBackWritten(saved);
    forall i | 0 <= i < |saved| && NoStrayCR(saved[i].body)
      ensures Loaded(saved[i]) == messages[i].(body := Closed(messages[i].body))
    {
      SettledIsClosed(saved[i].body);
      SecondSaveIsIdentity(saved[i].body);
      SettledIsClosed(Settled(saved[i].body));
      BodySettles(saved[i].body);
    }
  }

  lemma BodySettles(body: string)
    requires NoStrayCR(body)
    ensures Settled(Settled(body)) == Settled(body)
  {
    SecondSaveIsIdentity(body);
    forall i | 0 <= i < |BodyLines(body)| ensures !FourCRs(BodyLines(body)[i]) {
      DropThreeSame(BodyLines(body)[i]);
      FourthDrop(BodyLines(body)[i]);
    }
  }

  /** The last n of a list. */
  function Newest(ms: seq<Mail>, n: nat): (r: seq<Mail>)
    ensures |r| <= n
  {
    if |ms| > n then ms[|ms| - n..] else ms
  }

  lemma NewestAre(ms: seq<Mail>, n: nat, i: nat)
    ensures |Newest(ms, n)| == if |ms| < n then |ms| else n
    ensures i < |Newest(ms, n)| ==> Newest(ms, n)[i] == ms[|ms| - |Newest(ms, n)| + i]
  {
  }

  /** The place of the first message with this id, or the length when there is none. */
  function FirstWith(ms: seq<Mail>, id: string): (i: nat)
    ensures i <= |ms| && (i < |ms| ==> IdOf(ms[i]) == id) && forall k :: 0 <= k < i ==> IdOf(ms[k]) != id
  {
    if ms == [] || IdOf(ms[0]) == id then 0 else 1 + FirstWith(ms[1..], id)
  }

  lemma FirstWithIs(ms: seq<Mail>, id: string, i: nat)
    requires i <= |ms| && (i < |ms| ==> IdOf(ms[i]) == id) && forall k :: 0 <= k < i ==> IdOf(ms[k]) != id
    ensures FirstWith(ms, id) == i
  {
  }

  function Without(ms: seq<Mail>, i: nat): seq<Mail>
    requires i < |ms|
  {
    ms[..i] + ms[i + 1..]
  }

  /** What is in memory, in the file and behind the file agree. */
  ghost predicate Agree(messages: seq<Mail>, saved: seq<Mail>, file: string, max: nat) {
    && max > 0 && |messages| <= max
    && AllStored(saved) && AllStored(messages) && Mirrors(messages, saved)
    && file == FileText(saved)
  }

  lemma FreshlyWritten(ms: seq<Mail>, max: nat)
    requires AllStored(ms) && |ms| <= max && max > 0
    ensures Agree(ms, ms, FileText(ms), max)
  {
  }

  lemma WithoutStored(ms: seq<Mail>, i: nat)
    requires AllStored(ms) && i < |ms|
    ensures AllStored(Without(ms, i))
  {
  }

  function Marked(ms: seq<Mail>, i: nat, status: string, note: string): seq<Mail>
    requires i < |ms|
  {
    ms[i := WithStatus(ms[i], status, note)]
  }

  lemma MarkedStored(ms: seq<Mail>, i: nat, status: string, note: string)
    requires AllStored(ms) && i < |ms| && (status == "failed" || status == "delayed") && HeaderText(note)
    ensures AllStored(Marked(ms, i, status, note)) && IdOf(Marked(ms, i, status, note)[i]) == IdOf(ms[i])
  {
    StatusChanges(ms[i], status, note);
  }

  lemma NewestStored(ms: seq<Mail>, n: nat)
    requires AllStored(ms)
    ensures AllStored(Newest(ms, n))
  {
  }

  lemma OneMore(messages: seq<Mail>, saved: seq<Mail>, file: string, max: nat, m: Mail)
    requires Agree(messages, saved, file, max) && |messages| < max && Stored(m)
    ensures Newest(messages + [m], max) == messages + [m]
    ensures Agree(messages + [m], saved + [m], file + Unlines(MessageLines(m)), max)
  {
    FileTextSnoc(saved, m);
  }

  lemma OneInOneOut(messages: seq<Mail>, m: Mail)
    requires AllStored(messages) && messages != [] && Stored(m)
    ensures Newest(messages + [m], |messages|) == messages[1..] + [m] && AllStored(messages[1..] + [m])
  {
    var ms := messages[1..] + [m];
    forall i | 0 <= i < |ms| ensures Stored(ms[i]) {
      assert ms[i] == if i < |messages| - 1 then messages[i + 1] else m;
    }
  }

  /** The file was written from these messages. */
  predicate OnDisk(saved: seq<Mail>, file: string) { AllStored(saved) && file == FileText(saved) }

  lemma LoadedAgree(saved: seq<Mail>, file: string, max: nat)
    requires max > 0 && OnDisk(saved, file)
    ensures var ms := Map(Loaded, saved);
            && ReadBack(file) == ms
            && (|ms| <= max ==> Agree(ms, saved, file, max))
            && (|ms| > max ==> Agree(Newest(ms, max), Newest(ms, max), FileText(Newest(ms, max)), max))
  {
    ReadBackWritten(saved);
    forall i | 0 <= i < |saved| ensures Stored(Map(Loaded, saved)[i]) {
      LoadedStored(saved[i]);
    }
    NewestStored(Map(Loaded, saved), max);
  }

  class MailMock {
    var messages: seq<Mail>
    var file: string
    const max: nat
    ghost var saved: seq<Mail>  // what the file was last written from

    /** The file holds what is in memory, and neither holds more than the cap. */
    ghost predicate Valid()
      reads this
    {
      Agree(messages, saved, file, max)
    }

    /** A new inbox over a file an earlier one has left: its messages are loaded, the oldest ones
        over the cap dropped and the file cut down to match. */
    constructor (cap: nat, onDisk: string, ghost before: seq<Mail>)
      requires OnDisk(before, onDisk)
      ensures Valid() && max == if cap == 0 then 500 else cap
      ensures messages == Newest(Map(Loaded, before), max)
    {
      max := if cap == 0 then 500 else cap;
      messages := [];
      file := onDisk;
      saved := before;
      new;
      LoadFromDisk();
    }

    method LoadFromDisk()
      requires max > 0 && OnDisk(saved, file) && messages == []
      modifies this
      ensures Valid() && messages == Newest(Map(Loaded, old(saved)), max)
    {
      var ms := ReadInbox(file);
      LoadedAgree(saved, file, max);
      if ms == [] {
        return;
      }
      var trimmed := false;
      if |ms| > max {
        ms := Newest(ms, max);
        trimmed := true;
      }
      messages := ms;
      if trimmed {
        file := WriteInbox(messages);
        saved := messages;
      }
    }

    /** Adds a message, dropping the oldest one when the inbox is full. */
    method Append(m: Mail)
      requires Valid() && Stored(m)
      modifies this
      ensures Valid() && messages == (if |old(messages)| < max then old(messages) else old(messages)[1..]) + [m]
    {
      var evicted := false;
      if |messages| >= max {
        OneInOneOut(messages, m);
        messages := messages[1..];
        evicted := true;
      }
      messages := messages + [m];
      if evicted {
        file := WriteInbox(messages);
        saved := messages;
        FreshlyWritten(messages, max);
        return;
      }
      OneMore(old(messages), saved, file, max, m);
      var text := WriteMessage(m);
      file := file + text;
      saved := saved + [m];
    }

    /** Looks for a message by its id, oldest first. */
    method Locate(id: string) returns (i: nat)
      ensures i == FirstWith(messages, id)
    {
      i := 0;
      while i < |messages|
        invariant i <= |messages| && forall k :: 0 <= k < i ==> IdOf(messages[k]) != id
      {
        if IdOf(messages[i]) == id {
          break;
        }
        i := i + 1;
      }
      FirstWithIs(messages, id, i);
    }

    /** Removes the first message with this id, if there is one. */
    method Delete(id: string) returns (ok: bool)
      requires Valid()
      modifies this
      ensures Valid()
      ensures ok <==> FirstWith(old(messages), id) < |old(messages)|
      ensures !ok ==> messages == old(messages)
      ensures ok ==> var i := FirstWith(old(messages), id); messages == old(messages)[..i] + old(messages)[i + 1..]
    {
      var i := Locate(id);
      if i < |messages| {
        WithoutStored(messages, i);
        messages := Without(messages, i);
        file := WriteInbox(messages);
        saved := messages;
        FreshlyWritten(messages, max);
        return true;
      }
      return false;
    }

    method Clear()
      requires Valid()
      modifies this
      ensures Valid() && messages == [] && file == ""
    {
      messages := [];
      file := WriteInbox([]);
      saved := [];
      FreshlyWritten([], max);
    }

    /** Marks the first message with this id as failed or delayed; any other status is refused. */
    method SetStatus(id: string, status: string, note: string) returns (ok: bool)
      requires Valid() && HeaderText(note)
      modifies this
      ensures Valid()
      ensures ok <==> (status == "failed" || status == "delayed") && FirstWith(old(messages), id) < |old(messages)|
      ensures !ok ==> messages == old(messages)
      ensures ok ==> var i := FirstWith(old(messages), id);
                     messages == old(messages)[i := WithStatus(old(messages)[i], status, note)]
    {
      if status != "failed" && status != "delayed" {
        return false;
      }
      var i := Locate(id);
      if i < |messages| {
        MarkedStored(messages, i, status, note);
        messages := Marked(messages, i, status, note);
        file := WriteInbox(messages);
        saved := messages;
        FreshlyWritten(messages, max);
        return true;
      }
      return false;
    }
  }
}
