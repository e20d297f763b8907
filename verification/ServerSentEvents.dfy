/** The printer of server-sent events, and the event-stream interpreter of section 9.2.6 of the HTML
    Living Standard as the independent reader it is compared with.  Text is a sequence of Unicode
    scalar values, that is, a decoded UTF-8 stream. */
module ServerSentEvents {

  datatype Event = Event(id: string, data: string, name: string, retry: string, comment: string)

  /** The position of the first `c`, or the length of the text. */
  function Find(s: string, c: char): (i: nat)
    ensures i <= |s| && c !in s[..i] && (i < |s| ==> s[i] == c)
  {
    if s == [] || s[0] == c then 0 else 1 + Find(s[1..], c)
  }

  /** The text cut at every line feed: always at least one piece. */
  function Split(s: string): (r: seq<string>)
    ensures r != [] && forall l | l in r :: '\n' !in l
    decreases |s|
  {
    var i := Find(s, '\n');
    if i == |s| then assert s[..i] == s; [s] else [s[..i]] + Split(s[i + 1..])
  }

  /** Each line followed by a line feed. */
  function Unlines(ls: seq<string>): string {
    if ls == [] then "" else ls[0] + "\n" + Unlines(ls[1..])
  }

  function DataLines(pieces: seq<string>): (r: seq<string>)
    ensures |r| == |pieces| && forall i | 0 <= i < |r| :: r[i] == "data: " + pieces[i]
  {
    if pieces == [] then [] else ["data: " + pieces[0]] + DataLines(pieces[1..])
  }

  function OptLine(field: string, value: string): seq<string> {
    if value == "" then [] else [field + value]
  }

  /** The lines that an event is printed as. */
  function EventLines(ev: Event): seq<string> {
    if ev.data == "" && ev.comment == "" then [] else
      (if ev.data == "" then [] else HeadLines(ev)) + OptLine(": ", ev.comment) + [""]
  }

  function HeadLines(ev: Event): seq<string> {
    OptLine("id: ", ev.id) + DataLines(Split(ev.data)) + OptLine("event: ", ev.name) + OptLine("retry: ", ev.retry)
  }

  function Print(ev: Event): string { Unlines(EventLines(ev)) }

  class Writer {
    var out: string

    constructor ()
      ensures out == ""
    {
      out := "";
    }

    method Write(s: string)
      modifies this
      ensures out == old(out) + s
    {
      out := out + s;
    }
  }

  lemma {:induction false} UnlinesAppend(a: seq<string>, b: seq<string>)
    ensures Unlines(a + b) == Unlines(a) + Unlines(b)
  {
    if a == [] {
      assert a + b == b;
    } else {
      assert (a + b)[1..] == a[1..] + b;
      UnlinesAppend(a[1..], b);
    }
  }

  lemma UnlinesOne(l: string)
    ensures Unlines([l]) == l + "\n"
  {
  }

  lemma NoLines()
    ensures Unlines([]) == ""
  {
  }

  /** Writes `field` and `value` as one line after the lines written so far. */
  method WriteLine(w: Writer, ghost before: string, ghost lines: seq<string>, field: string, value: string)
    requires w.out == before + Unlines(lines)
    modifies w
    ensures w.out == before + Unlines(lines + [field + value])
  {
    w.Write(field + value + "\n");
    UnlinesAppend(lines, [field + value]);
    UnlinesOne(field + value);
  }

  /** The same, unless the value is empty. */
  method WriteField(w: Writer, ghost before: string, ghost lines: seq<string>, field: string, value: string)
    requires w.out == before + Unlines(lines)
    modifies w
    ensures w.out == before + Unlines(lines + OptLine(field, value))
  {
    if |value| > 0 {
      WriteLine(w, before, lines, field, value);
    } else {
      assert lines + [] == lines;
    }
  }

  /** One data line for each line of the data. */
  method WriteData(w: Writer, ghost before: string, ghost lines: seq<string>, data: string)
    requires w.out == before + Unlines(lines)
    modifies w
    ensures w.out == before + Unlines(lines + DataLines(Split(data)))
  {
    hide Unlines, Split;
    var sd := Split(data);
    ghost var all := DataLines(sd);
    assert lines + all[..0] == lines;
    for i := 0 to |sd|
      invariant w.out == before + Unlines(lines + all[..i])
    {
      WriteLine(w, before, lines + all[..i], "data: ", sd[i]);
      assert lines + all[..i] + ["data: " + sd[i]] == lines + all[..i + 1];
    }
    assert all[..|sd|] == all;
  }

  method MarshalTo(ev: Event, w: Writer)
    modifies w
    ensures w.out == old(w.out) + Print(ev)
  {
    if |ev.data| == 0 && |ev.comment| == 0 {
      assert Print(ev) == "";
      return;
    }
    hide Unlines, DataLines, Split, OptLine;
    ghost var lines: seq<string>, before := [], w.out;
    NoLines();
    if |ev.data| > 0 {
      WriteField(w, before, lines, "id: ", ev.id);
      lines := lines + OptLine("id: ", ev.id);
      WriteData(w, before, lines, ev.data);
      lines := lines + DataLines(Split(ev.data));
      WriteField(w, before, lines, "event: ", ev.name);
      lines := lines + OptLine("event: ", ev.name);
      WriteField(w, before, lines, "retry: ", ev.retry);
      lines := lines + OptLine("retry: ", ev.retry);
      assert lines == HeadLines(ev);
    }
    WriteField(w, before, lines, ": ", ev.comment);
    WriteLine(w, before, lines + OptLine(": ", ev.comment), "", "");
    assert "" + "" == "" && lines == if ev.data == "" then [] else HeadLines(ev);
  }

  function PrintAll(evs: seq<Event>): string {
    if evs == [] then "" else Print(evs[0]) + PrintAll(evs[1..])
  }

  // ----- The reader of the standard

  const BOM: char := '\U{feff}'

  predicate IsBreak(c: char) { c == '\n' || c == '\r' }

  function FindBreak(s: string): (i: nat)
    ensures i <= |s| && (forall j | 0 <= j < i :: !IsBreak(s[j])) && (i < |s| ==> IsBreak(s[i]))
  {
    if s == [] || IsBreak(s[0]) then 0 else 1 + FindBreak(s[1..])
  }

  /** The terminated lines of a stream; CRLF, LF and CR each end a line. */
  function Lines(s: string): (r: seq<string>)
    ensures forall l | l in r :: '\n' !in l && '\r' !in l
    decreases |s|
  {
    var i := FindBreak(s);
    if i == |s| then []
    else [s[..i]] + Lines(if s[i] == '\r' && i + 1 < |s| && s[i + 1] == '\n' then s[i + 2..] else s[i + 1..])
  }

  datatype Message = Message(event: string, data: string, lastEventId: string)

  /** The buffers of the interpreter and what it has dispatched. */
  datatype Reader = Reader(data: string, event: string, lastEventId: string, retry: string, sent: seq<Message>)

  const START := Reader("", "", "", "", [])

  function Dispatch(r: Reader): Reader {
    if r.data == "" then r.(event := "")
    else r.(data := "", event := "",
            sent := r.sent + [Message(if r.event == "" then "message" else r.event, r.data[..|r.data| - 1], r.lastEventId)])
  }

  function Field(r: Reader, field: string, value: string): Reader {
    if field == "event" then r.(event := value)
    else if field == "data" then r.(data := r.data + value + "\n")
    else if field == "id" then if '\0' in value then r else r.(lastEventId := value)
    else if field == "retry" then if (forall c | c in value :: '0' <= c <= '9') then r.(retry := value) else r
    else r
  }

  function Interpret(r: Reader, line: string): Reader {
    if line == "" then Dispatch(r)
    else
      var i := Find(line, ':');
      if i == 0 then r
      else if i == |line| then Field(r, line, "")
      else
        var value := line[i + 1..];
        Field(r, line[..i], if value != "" && value[0] == ' ' then value[1..] else value)
  }

  function InterpretAll(r: Reader, lines: seq<string>): Reader
    decreases |lines|
  {
    if lines == [] then r else InterpretAll(Interpret(r, lines[0]), lines[1..])
  }

  /** What a reader of the stream dispatches. */
  function Receive(s: string): seq<Message> {
    InterpretAll(START, Lines(if s != "" && s[0] == BOM then s[1..] else s)).sent
  }

  // ----- The round trip

  predicate OneLine(s: string) { '\n' !in s && '\r' !in s }

  /** Every field but the data fits on its line. */
  predicate Framed(ev: Event) {
    OneLine(ev.id) && OneLine(ev.name) && OneLine(ev.retry) && OneLine(ev.comment)
  }

  /** What the events mean: each one with data is a message under the last identifier that counts. */
  function Meaning(evs: seq<Event>, lastEventId: string): seq<Message> {
    if evs == [] then []
    else
      var id := NewId(evs[0], lastEventId);
      OneMeaning(evs[0], id) + Meaning(evs[1..], id)
  }

  function OneMeaning(ev: Event, id: string): seq<Message> {
    if ev.data == "" then [] else [Message(if ev.name == "" then "message" else ev.name, ev.data, id)]
  }

  lemma LinesOne(l: string, rest: string)
    requires OneLine(l)
    ensures Lines(l + "\n" + rest) == [l] + Lines(rest)
  {
    var s := l + "\n" + rest;
    assert forall j | 0 <= j < |l| :: s[j] == l[j] && l[j] in l;
    assert s[|l|] == '\n';
    assert FindBreak(s) == |l|;
    assert s[..|l|] == l && s[|l| + 1..] == rest;
  }

  /** Lines without breaks come back as they were, and what follows them is read on its own. */
  lemma {:induction false} LinesUnlines(ls: seq<string>, rest: string)
    requires AllOneLine(ls)
    ensures Lines(Unlines(ls) + rest) == ls + Lines(rest)
  {
    hide Lines, OneLine;
    if ls == [] {
      assert Unlines(ls) + rest == rest;
    } else {
      LinesOne(ls[0], Unlines(ls[1..]) + rest);
      assert Unlines(ls) + rest == ls[0] + "\n" + (Unlines(ls[1..]) + rest);
      LinesUnlines(ls[1..], rest);
      assert ls == [ls[0]] + ls[1..];
    }
  }

  lemma {:induction false} InterpretAppend(r: Reader, a: seq<string>, b: seq<string>)
    ensures InterpretAll(r, a + b) == InterpretAll(InterpretAll(r, a), b)
    decreases |a|
  {
    hide Interpret;
    if a == [] {
      assert a + b == b;
    } else {
      assert (a + b)[1..] == a[1..] + b;
      InterpretAppend(Interpret(r, a[0]), a[1..], b);
    }
  }

  lemma InterpretOne(r: Reader, line: string)
    ensures InterpretAll(r, [line]) == Interpret(r, line)
  {
  }

  /** A printed field reads back as that field with exactly its value. */
  lemma FieldReads(r: Reader, field: string, value: string)
    requires field != "" && ':' !in field
    ensures Interpret(r, field + ": " + value) == Field(r, field, value)
  {
    var line := field + ": " + value;
    var i := Find(line, ':');
    assert line[|field|] == ':';
    assert forall j | 0 <= j < |field| :: line[j] == field[j] && field[j] in field;
    assert i == |field|;
    assert line[..i] == field && line[i + 1..] == " " + value;
    assert line[i + 1..][1..] == value;
  }

  lemma DataReadsOne(r: Reader, piece: string)
    ensures Interpret(r, "data: " + piece) == r.(data := r.data + piece + "\n")
  {
    FieldReads(r, "data", piece);
    assert "data" + ": " + piece == "data: " + piece;
  }

  /** The data lines of an event put its data back together, line feeds included. */
  lemma {:induction false} DataReads(r: Reader, d: string)
    ensures InterpretAll(r, DataLines(Split(d))) == r.(data := r.data + d + "\n")
    decreases |d|
  {
    hide Interpret, InterpretAll, Find, Split, DataLines;
    var i := Find(d, '\n');
    DataReadsOne(r, d[..i]);
    InterpretOne(r, "data: " + d[..i]);
    DataLinesCut(d);
    if i == |d| {
      assert d[..i] == d;
      assert ["data: " + d] + [] == ["data: " + d];
    } else {
      var r1 := r.(data := r.data + d[..i] + "\n");
      InterpretAppend(r, ["data: " + d[..i]], DataLines(Split(d[i + 1..])));
      DataReads(r1, d[i + 1..]);
      assert r1.data + d[i + 1..] + "\n" == r.data + d + "\n" by { assert d == d[..i] + "\n" + d[i + 1..]; }
    }
  }

  lemma DataLinesCut(d: string)
    ensures var i := Find(d, '\n');
            DataLines(Split(d)) == ["data: " + d[..i]] + if i == |d| then [] else DataLines(Split(d[i + 1..]))
  {
    hide Find;
    var i := Find(d, '\n');
    var rest := if i == |d| then [] else Split(d[i + 1..]);
    assert i == |d| ==> d[..i] == d;
    assert Split(d) == [d[..i]] + rest;
    assert ([d[..i]] + rest)[1..] == rest;
  }

  /** The reader between two events. */
  predicate Between(r: Reader) { r.data == "" && r.event == "" }

  lemma OptReads(r: Reader, field: string, value: string)
    requires field != "" && ':' !in field
    ensures InterpretAll(r, OptLine(field + ": ", value)) == if value == "" then r else Field(r, field, value)
  {
    if value != "" {
      InterpretOne(r, field + ": " + value);
      FieldReads(r, field, value);
    }
  }

  function NewId(ev: Event, lastEventId: string): string {
    if ev.data == "" || ev.id == "" || '\0' in ev.id then lastEventId else ev.id
  }

  predicate Digits(s: string) { forall c | c in s :: '0' <= c <= '9' }

  function NewRetry(ev: Event, retry: string): string {
    if ev.data == "" || ev.retry == "" || !Digits(ev.retry) then retry else ev.retry
  }

  /** The lines of an event with data, before its comment, fill the reader's buffers. */
  lemma HeadReads(r: Reader, ev: Event)
    requires Between(r) && ev.data != ""
    ensures var r' := InterpretAll(r, HeadLines(ev));
            r'.data == ev.data + "\n" && r'.event == ev.name && r'.lastEventId == NewId(ev, r.lastEventId) && r'.sent == r.sent
            && r'.retry == NewRetry(ev, r.retry)
  {
    hide InterpretAll, Split, DataLines;
    assert "id" + ": " == "id: " && "event" + ": " == "event: " && "retry" + ": " == "retry: ";
    var a, b, c, d := OptLine("id: ", ev.id), DataLines(Split(ev.data)), OptLine("event: ", ev.name), OptLine("retry: ", ev.retry);
    OptReads(r, "id", ev.id);
    var r1 := InterpretAll(r, a);
    DataReads(r1, ev.data);
    var r2 := InterpretAll(r1, b);
    OptReads(r2, "event", ev.name);
    var r3 := InterpretAll(r2, c);
    OptReads(r3, "retry", ev.retry);
    InterpretAppend(r, a, b);
    InterpretAppend(r, a + b, c);
    InterpretAppend(r, a + b + c, d);
  }

  /** One printed event moves a reader between events by exactly the event's meaning. */
  lemma EventReads(r: Reader, ev: Event)
    requires Between(r)
    ensures var r' := InterpretAll(r, EventLines(ev));
            && Between(r')
            && r'.lastEventId == NewId(ev, r.lastEventId) && r'.retry == NewRetry(ev, r.retry)
            && r'.sent == r.sent + OneMeaning(ev, r'.lastEventId)
  {
    if ev.data != "" || ev.comment != "" {
      hide InterpretAll, HeadLines;
      var head := if ev.data == "" then [] else HeadLines(ev);
      if ev.data != "" { HeadReads(r, ev); } else { NothingReads(r); }
      var r4 := InterpretAll(r, head);
      CommentReads(r4, ev.comment);
      InterpretOne(r4, "");
      InterpretAppend(r, head, OptLine(": ", ev.comment));
      InterpretAppend(r, head + OptLine(": ", ev.comment), [""]);
      assert ev.data != "" ==> r4.data[..|r4.data| - 1] == ev.data;
    }
  }

  lemma NothingReads(r: Reader)
    ensures InterpretAll(r, []) == r
  {
  }

  lemma CommentReads(r: Reader, comment: string)
    ensures InterpretAll(r, OptLine(": ", comment)) == r
  {
  }

  /** An event that prints without stray line breaks. */
  predicate Clean(ev: Event) { Framed(ev) && '\r' !in ev.data }

  predicate AllOneLine(ls: seq<string>) { forall l | l in ls :: OneLine(l) }

  lemma OptLineOneLine(field: string, value: string)
    requires OneLine(field) && OneLine(value)
    ensures AllOneLine(OptLine(field, value))
  {
  }

  lemma DataLinesOneLine(pieces: seq<string>)
    requires AllOneLine(pieces)
    ensures AllOneLine(DataLines(pieces))
  {
    forall l | l in DataLines(pieces) ensures OneLine(l) {
      var i :| 0 <= i < |pieces| && DataLines(pieces)[i] == l;
      assert pieces[i] in pieces;
      assert forall c | c in l :: c in "data: " || c in pieces[i];
    }
  }

  lemma EventLinesOneLine(ev: Event)
    requires Clean(ev)
    ensures AllOneLine(EventLines(ev))
  {
    SplitKeeps(ev.data, '\r');
    DataLinesOneLine(Split(ev.data));
    OptLineOneLine("id: ", ev.id);
    OptLineOneLine("event: ", ev.name);
    OptLineOneLine("retry: ", ev.retry);
    OptLineOneLine(": ", ev.comment);
    assert OneLine("");
    hide OptLine, DataLines, Split, OneLine;
    assert AllOneLine(HeadLines(ev));
  }

  lemma {:induction false} SplitKeeps(d: string, c: char)
    requires c !in d
    ensures forall l | l in Split(d) :: c !in l
    decreases |d|
  {
    var i := Find(d, '\n');
    if i < |d| { SplitKeeps(d[i + 1..], c); }
  }

  /** One printed event at the front of a stream. */
  lemma FrontRead(r: Reader, ev: Event, rest: string) returns (r1: Reader)
    requires Between(r) && Clean(ev)
    ensures InterpretAll(r, Lines(Print(ev) + rest)) == InterpretAll(r1, Lines(rest))
    ensures Between(r1) && r1.lastEventId == NewId(ev, r.lastEventId) && r1.sent == r.sent + OneMeaning(ev, r1.lastEventId)
    ensures r1.retry == NewRetry(ev, r.retry)
  {
    EventLinesOneLine(ev);
    LinesUnlines(EventLines(ev), rest);
    EventReads(r, ev);
    InterpretAppend(r, EventLines(ev), Lines(rest));
    r1 := InterpretAll(r, EventLines(ev));
  }

  lemma EmptyRead(r: Reader)
    ensures InterpretAll(r, Lines("")) == r
  {
  }

  /** The reconnection time that the last event with a usable one sets. */
  function LastRetry(evs: seq<Event>, retry: string): string {
    if evs == [] then retry else LastRetry(evs[1..], NewRetry(evs[0], retry))
  }

  lemma {:induction false} AllRead(r: Reader, evs: seq<Event>)
    requires Between(r) && forall ev | ev in evs :: Clean(ev)
    ensures InterpretAll(r, Lines(PrintAll(evs))).sent == r.sent + Meaning(evs, r.lastEventId)
    ensures InterpretAll(r, Lines(PrintAll(evs))).retry == LastRetry(evs, r.retry)
    decreases |evs|
  {
    hide InterpretAll, Lines, Clean, NewId, NewRetry, OneMeaning, Print, Between;
    if evs == [] {
      EmptyRead(r);
    } else {
      var r1 := FrontRead(r, evs[0], PrintAll(evs[1..]));
      AllRead(r1, evs[1..]);
    }
  }

  lemma {:induction false} NoBom(evs: seq<Event>)
    ensures PrintAll(evs) == "" || PrintAll(evs)[0] != BOM
  {
    if evs != [] {
      NoBom(evs[1..]);
      var ls := EventLines(evs[0]);
      if ls != [] {
        FirstLine(evs[0]);
        assert Print(evs[0])[0] == (ls[0] + "\n")[0];
      } else {
        assert Print(evs[0]) == "";
      }
    }
  }

  lemma FirstLine(ev: Event)
    requires EventLines(ev) != []
    ensures (EventLines(ev)[0] + "\n")[0] in {'i', 'd', ':'}
  {
  }

  /** No reader ever dispatches a carriage return. */
  lemma {:induction false} NeverSendsCR(r: Reader, lines: seq<string>)
    requires '\r' !in r.data && forall m | m in r.sent :: '\r' !in m.data
    requires forall l | l in lines :: '\r' !in l
    ensures forall m | m in InterpretAll(r, lines).sent :: '\r' !in m.data
    decreases |lines|
  {
    if lines != [] {
      assert lines[0] in lines && forall l | l in lines[1..] :: l in lines;
      NeverSendsCR(Interpret(r, lines[0]), lines[1..]);
    }
  }

  lemma {:induction false} MeaningHas(evs: seq<Event>, ev: Event, id: string)
    requires ev in evs && ev.data != ""
    ensures exists m :: m in Meaning(evs, id) && m.data == ev.data
  {
    var id1 := NewId(evs[0], id);
    if ev == evs[0] {
      var m := Message(if ev.name == "" then "message" else ev.name, ev.data, id1);
      assert Meaning(evs, id)[0] == m;
      assert m in Meaning(evs, id);
    } else {
      MeaningHas(evs[1..], ev, id1);
      var m :| m in Meaning(evs[1..], id1) && m.data == ev.data;
      assert m in Meaning(evs, id);
    }
  }

  /** Printing is invertible, exactly: when names, identifiers, retry values and comments have no line
      breaks, a reader of the printed stream dispatches the same data under the same names, in order,
      if and only if no data holds a carriage return.  Data may span lines. */
  lemma PrintingInvertible(evs: seq<Event>)
    requires forall ev | ev in evs :: Framed(ev)
    ensures Receive(PrintAll(evs)) == Meaning(evs, "") <==> forall ev | ev in evs :: '\r' !in ev.data
  {
    NoBom(evs);
    if forall ev | ev in evs :: '\r' !in ev.data {
      assert forall ev | ev in evs :: Clean(ev);
      AllRead(START, evs);
    } else {
      var ev :| ev in evs && '\r' in ev.data;
      NeverSendsCR(START, Lines(PrintAll(evs)));
      MeaningHas(evs, ev, "");
    }
  }

  // ----- What the reader of the standard does not dispatch

  /** The comments of a stream: what follows a colon at the beginning of a line, less one space. */
  function Comments(lines: seq<string>): seq<string> {
    if lines == [] then []
    else
      (if lines[0] != "" && lines[0][0] == ':' then
         [if |lines[0]| > 1 && lines[0][1] == ' ' then lines[0][2..] else lines[0][1..]]
       else [])
      + Comments(lines[1..])
  }

  function Remark(ev: Event): seq<string> { if ev.comment == "" then [] else [ev.comment] }

  function Remarks(evs: seq<Event>): seq<string> { if evs == [] then [] else Remark(evs[0]) + Remarks(evs[1..]) }

  lemma {:induction false} CommentsAppend(a: seq<string>, b: seq<string>)
    ensures Comments(a + b) == Comments(a) + Comments(b)
  {
    if a == [] {
      assert a + b == b;
    } else {
      assert (a + b)[0] == a[0] && (a + b)[1..] == a[1..] + b;
      CommentsAppend(a[1..], b);
    }
  }

  lemma {:induction false} NoComments(lines: seq<string>)
    requires forall l | l in lines :: l == "" || l[0] != ':'
    ensures Comments(lines) == []
  {
    if lines != [] {
      assert lines[0] in lines && forall l | l in lines[1..] :: l in lines;
      NoComments(lines[1..]);
    }
  }

  lemma HeadHasNone(ev: Event)
    ensures Comments(HeadLines(ev)) == []
  {
    var pieces := Split(ev.data);
    forall l | l in HeadLines(ev) ensures l != "" && l[0] != ':' {
      if l in DataLines(pieces) {
        var i :| 0 <= i < |pieces| && DataLines(pieces)[i] == l;
        assert l == "data: " + pieces[i];
      }
    }
    NoComments(HeadLines(ev));
  }

  lemma EventHasRemark(ev: Event)
    ensures Comments(EventLines(ev)) == Remark(ev)
  {
    NoComments([]);
    if ev.data != "" || ev.comment != "" {
      hide HeadLines, OptLine, Comments;
      var head := if ev.data == "" then [] else HeadLines(ev);
      HeadHasNone(ev);
      RemarkLine(ev.comment);
      assert [] + Remark(ev) == Remark(ev);
      CommentsAppend(head, OptLine(": ", ev.comment) + [""]);
      assert head + OptLine(": ", ev.comment) + [""] == head + (OptLine(": ", ev.comment) + [""]);
    }
  }

  lemma RemarkLine(comment: string)
    ensures Comments(OptLine(": ", comment) + [""]) == if comment == "" then [] else [comment]
  {
    var lines := OptLine(": ", comment) + [""];
    if comment == "" {
      assert lines == [""];
    } else {
      assert lines[0] == ": " + comment && lines[1..] == [""];
      assert lines[0][2..] == comment;
      assert Comments(lines[1..]) == [] by { NoComments([""]); }
      assert [comment] + [] == [comment];
    }
  }

  /** Comments and reconnection times are printed as well: a reader of the stream finds the comments of
      the events in their order, and the reconnection time that the last usable one sets. */
  lemma {:induction false} RestReads(evs: seq<Event>)
    requires forall ev | ev in evs :: Clean(ev)
    ensures Comments(Lines(PrintAll(evs))) == Remarks(evs)
    ensures InterpretAll(START, Lines(PrintAll(evs))).retry == LastRetry(evs, "")
  {
    AllRead(START, evs);
    hide Clean, EventLines, Remark, InterpretAll;
    if evs == [] {
      NoLinesAtAll();
    } else {
      assert evs[0] in evs;
      EventLinesOneLine(evs[0]);
      LinesUnlines(EventLines(evs[0]), PrintAll(evs[1..]));
      CommentsAppend(EventLines(evs[0]), Lines(PrintAll(evs[1..])));
      EventHasRemark(evs[0]);
      RestReads(evs[1..]);
    }
  }

  lemma NoLinesAtAll()
    ensures Lines("") == []
  {
  }
}
