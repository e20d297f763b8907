/** The pump that forwards an upstream stream, and what it writes and records for every input. */
module StreamPump {
  import opened Options
  import opened ServerSentEvents
  import opened ChatStream

  // ----- What the pump writes

  /** The data of the events written for the remaining lines; `err` says an error line was seen. */
  function Output(lines: seq<string>, err: bool, j: Json, end: End): seq<string>
    decreases |lines|
  {
    if lines == [] then if end.EndOfFile? then [NULL] else []
    else if err then Output(lines[1..], true, j, end)
    else match Classify(lines[0], j)
      case ErrorLine => Output(lines[1..], true, j, end)
      case Ignored => Output(lines[1..], false, j, end)
      case DoneLine => [DONE]
      case BadLine => []
      case DataLine(body) => [j.render(body)] + Output(lines[1..], false, j, end)
      case UsageLine(body, _) => [j.render(body)] + Output(lines[1..], false, j, end)
  }

  /** The token usage that the request metadata ends up with. */
  function LastUsage(lines: seq<string>, err: bool, j: Json, prev: Option<Usage>): Option<Usage>
    decreases |lines|
  {
    if lines == [] || err then prev
    else match Classify(lines[0], j)
      case Ignored => LastUsage(lines[1..], false, j, prev)
      case DataLine(_) => LastUsage(lines[1..], false, j, prev)
      case UsageLine(_, u) => LastUsage(lines[1..], false, j, if u.Some? then u else prev)
      case _ => prev
  }

  /** The response model that the request metadata ends up with; `n` data lines were seen before. */
  function FirstModel(lines: seq<string>, err: bool, n: nat, j: Json, prev: string): string
    decreases |lines|
  {
    if lines == [] || err then prev
    else match Classify(lines[0], j)
      case Ignored => FirstModel(lines[1..], false, n, j, prev)
      case DataLine(b) => FirstModel(lines[1..], false, n + 1, j, if n == 0 then j.model(b) else prev)
      case UsageLine(b, _) => FirstModel(lines[1..], false, n + 1, j, if n == 0 then j.model(b) else prev)
      case _ => prev
  }

  /** The usage that the stream itself ends up with: that of the last chunk that has one to tell, even
      if it is none. */
  function StreamUsage(lines: seq<string>, err: bool, j: Json, prev: Option<Usage>): Option<Usage>
    decreases |lines|
  {
    if lines == [] || err then prev
    else match Classify(lines[0], j)
      case Ignored => StreamUsage(lines[1..], false, j, prev)
      case DataLine(_) => StreamUsage(lines[1..], false, j, prev)
      case UsageLine(_, u) => StreamUsage(lines[1..], false, j, u)
      case _ => prev
  }

  /** The model that the stream itself ends up with. */
  function StreamModel(lines: seq<string>, err: bool, j: Json, prev: string): string
    decreases |lines|
  {
    if lines == [] || err then prev
    else match Classify(lines[0], j)
      case Ignored => StreamModel(lines[1..], false, j, prev)
      case DataLine(b) => StreamModel(lines[1..], false, j, if prev == "" then j.model(b) else prev)
      case UsageLine(b, _) => StreamModel(lines[1..], false, j, if prev == "" then j.model(b) else prev)
      case _ => prev
  }

  /** What a stream keeps of lines it does not forward: the text of those that carry no data, up to and
      including an error line, and whether it saw [DONE] or an error line. */
  datatype Remains = Remains(text: string, done: bool, error: bool)

  function Leaves(lines: seq<string>, err: bool, j: Json): Remains
    decreases |lines|
  {
    if lines == [] || err then Remains("", false, err)
    else match Classify(lines[0], j)
      case ErrorLine => Remains(ErrorText(lines[0]), false, true)
      case Ignored => var r := Leaves(lines[1..], false, j); r.(text := TrimSpace(lines[0]) + r.text)
      case DoneLine => Remains("", true, false)
      case BadLine => Remains("", false, false)
      case _ => Leaves(lines[1..], false, j)
  }

  /** An error line without its header. */
  function ErrorText(line: string): string {
    var t := TrimSpace(line);
    if HEADER_DATA <= t then t[|HEADER_DATA|..] else t
  }

  function DataEvent(data: string): Event { Event("", data, "", "", "") }

  function Text(ds: seq<string>): string {
    if ds == [] then "" else Print(DataEvent(ds[0])) + Text(ds[1..])
  }

  lemma {:induction false} TextAppend(a: seq<string>, b: seq<string>)
    ensures Text(a + b) == Text(a) + Text(b)
  {
    if a == [] {
      assert a + b == b;
    } else {
      assert (a + b)[1..] == a[1..] + b;
      TextAppend(a[1..], b);
    }
  }

  lemma TextOne(d: string)
    ensures Text([d]) == Print(DataEvent(d))
  {
  }

  /** The lines still to be read, before and after one of them is. */
  lemma CompleteCut(input: string)
    ensures var i := Find(input, '\n');
            if i == |input| then Complete(input) == []
            else Complete(input) == [input[..i]] + Complete(input[i + 1..]) && Complete(input)[1..] == Complete(input[i + 1..])
  {
    hide Find;
    var i := Find(input, '\n');
    if i < |input| {
      var rest := Split(input[i + 1..]);
      assert Split(input) == [input[..i]] + rest;
      CutLast(input[..i], rest);
    }
  }

  lemma CutLast(first: string, rest: seq<string>)
    requires rest != []
    ensures ([first] + rest)[..|[first] + rest| - 1] == [first] + rest[..|rest| - 1]
    ensures ([first] + rest)[..|[first] + rest| - 1][1..] == rest[..|rest| - 1]
  {
  }

  /** What the request metadata records about the response. */
  class Metadata {
    var usage: Option<Usage>
    var responseModel: string

    constructor ()
      ensures usage == None && responseModel == ""
    {
      usage, responseModel := None, "";
    }
  }

  /** The JSON text of a chunk, as it is written. */
  function Marshal(c: Chunk, j: Json): string {
    match c.kind
    case DoneKind => DONE
    case EmptyKind => NULL
    case DataKind => j.render(c.body)
    case UsageKind => j.render(c.body)
  }

  method HandleChunk(c: Chunk, j: Json, w: Writer, ghost before: string, ghost written: seq<string>)
    requires w.out == before + Text(written)
    modifies w
    ensures w.out == before + Text(written + [Marshal(c, j)])
  {
    hide Print, Text, Marshal;
    MarshalTo(DataEvent(Marshal(c, j)), w);
    TextAppend(written, [Marshal(c, j)]);
    TextOne(Marshal(c, j));
  }

  /** What a terminated line does, by its class. */
  lemma LineOutcome(s: Stream, line: string, j: Json)
    requires !s.hasErrorPrefix
    ensures var (s1, chunk, err) := OnLine(s, TrimSpace(line), j);
            && s1.input == s.input
            && match Classify(line, j)
               case ErrorLine =>
                 err == NoError && chunk.Some? && chunk.value.kind == EmptyKind && s1.hasErrorPrefix && s1.chunkNum == s.chunkNum
                 && s1.usage == s.usage && s1.model == s.model
               case Ignored =>
                 err == NoError && chunk.Some? && chunk.value.kind == EmptyKind && !s1.hasErrorPrefix && s1.chunkNum == s.chunkNum
                 && s1.usage == s.usage && s1.model == s.model
               case DoneLine =>
                 err == EOF && chunk.Some? && chunk.value.kind == DoneKind && s1.usage == s.usage && s1.model == s.model
               case BadLine => err == Failure && s1.usage == s.usage && s1.model == s.model
               case DataLine(b) =>
                 err == NoError && !s1.hasErrorPrefix && s1.chunkNum == s.chunkNum + 1 &&
                 s1.usage == s.usage && s1.model == (if s.model == "" then j.model(b) else s.model) &&
                 chunk == Some(Chunk(DataKind, b, j.model(b), None, s.chunkNum == 0))
               case UsageLine(b, u) =>
                 err == NoError && !s1.hasErrorPrefix && s1.chunkNum == s.chunkNum + 1 &&
                 s1.usage == u && s1.model == (if s.model == "" then j.model(b) else s.model) &&
                 chunk == Some(Chunk(UsageKind, b, j.model(b), u, s.chunkNum == 0))
  {
    hide TrimSpace, Contains;
  }

  /** One call of `NextChunk` in terms of the lines: what is left to write shrinks by what the chunk
      writes, or is decided when the pump stops. */
  lemma NextWrites(s: Stream, j: Json, end: End)
    ensures var (s1, chunk, err) := Next(s, j, end);
            var out, lines := Output(Complete(s.input), s.hasErrorPrefix, j, end), Complete(s1.input);
            match err
            case Failure => out == []
            case EOF => chunk.Some? && out == [Marshal(chunk.value, j)]
            case NoError =>
              && chunk.Some? && |s1.input| < |s.input|
              && (chunk.value.kind.EmptyKind? ==> out == Output(lines, s1.hasErrorPrefix, j, end))
              && (!chunk.value.kind.EmptyKind? ==> out == [Marshal(chunk.value, j)] + Output(lines, s1.hasErrorPrefix, j, end))
              && !chunk.value.kind.DoneKind?
  {
    CompleteCut(s.input);
    hide TrimSpace, Find, Complete, OnLine, Classify;
    var i := Find(s.input, '\n');
    if i < |s.input| {
      assert Complete(s.input)[0] == s.input[..i];
      if !s.hasErrorPrefix { LineOutcome(s.(input := s.input[i + 1..]), s.input[..i], j); }
    }
  }

  /** The same for what the metadata ends up with. */
  lemma NextRecords(s: Stream, j: Json, end: End, u: Option<Usage>, m: string)
    ensures var (s1, chunk, err) := Next(s, j, end);
            var last, first := LastUsage(Complete(s.input), s.hasErrorPrefix, j, u), FirstModel(Complete(s.input), s.hasErrorPrefix, s.chunkNum, j, m);
            if err != NoError then last == u && first == m
            else
              var c := chunk.value;
              var u1 := if c.kind.UsageKind? && c.usage.Some? then c.usage else u;
              var m1 := if !c.kind.EmptyKind? && c.isFirst then c.model else m;
              && last == LastUsage(Complete(s1.input), s1.hasErrorPrefix, j, u1)
              && first == FirstModel(Complete(s1.input), s1.hasErrorPrefix, s1.chunkNum, j, m1)
  {
    CompleteCut(s.input);
    hide TrimSpace, Find, Complete, OnLine, Classify;
    var i := Find(s.input, '\n');
    if i < |s.input| {
      assert Complete(s.input)[0] == s.input[..i];
      if !s.hasErrorPrefix { LineOutcome(s.(input := s.input[i + 1..]), s.input[..i], j); }
    }
  }

  /** The same for what the stream itself stores; when a call stops the pump, the end of the stream has
      been signalled. */
  lemma NextStores(s: Stream, j: Json, end: End)
    ensures var (s1, chunk, err) := Next(s, j, end);
            var last, first := StreamUsage(Complete(s.input), s.hasErrorPrefix, j, s.usage),
                               StreamModel(Complete(s.input), s.hasErrorPrefix, j, s.model);
            if err != NoError then last == s1.usage && first == s1.model && s1.eofSignalled
            else last == StreamUsage(Complete(s1.input), s1.hasErrorPrefix, j, s1.usage)
                 && first == StreamModel(Complete(s1.input), s1.hasErrorPrefix, j, s1.model)
  {
    CompleteCut(s.input);
    NextStops(s, j, end);
    hide TrimSpace, Find, Complete, OnLine, Classify;
    var i := Find(s.input, '\n');
    if i < |s.input| {
      assert Complete(s.input)[0] == s.input[..i];
      if !s.hasErrorPrefix { LineOutcome(s.(input := s.input[i + 1..]), s.input[..i], j); }
    }
  }

  /** The same for what it keeps of the lines that are not forwarded. */
  lemma NextKeeps(s: Stream, j: Json, end: End)
    ensures var (s1, chunk, err) := Next(s, j, end);
            var all, rest := Leaves(Complete(s.input), s.hasErrorPrefix, j), Leaves(Complete(s1.input), s1.hasErrorPrefix, j);
            if err != NoError then
              s1.errorBuffer == s.errorBuffer + all.text && s1.isDone == (s.isDone || all.done) && s1.hasErrorPrefix == all.error
            else
              && s1.errorBuffer + rest.text == s.errorBuffer + all.text
              && (s1.isDone || rest.done) == (s.isDone || all.done) && rest.error == all.error
  {
    CompleteCut(s.input);
    hide TrimSpace, Find, Complete, OnLine, Classify;
    var i := Find(s.input, '\n');
    if i < |s.input| {
      assert Complete(s.input)[0] == s.input[..i];
      if !s.hasErrorPrefix { LineKeeps(s.(input := s.input[i + 1..]), s.input[..i], j); }
    }
  }

  lemma LineKeeps(s: Stream, line: string, j: Json)
    requires !s.hasErrorPrefix
    ensures var (s1, _, err) := OnLine(s, TrimSpace(line), j);
            && s1.input == s.input
            && s1.errorBuffer == s.errorBuffer + (match Classify(line, j)
                                                 case ErrorLine => ErrorText(line)
                                                 case Ignored => TrimSpace(line)
                                                 case _ => "")
            && (s1.isDone <==> s.isDone || Classify(line, j).DoneLine?)
            && (s1.hasErrorPrefix <==> Classify(line, j).ErrorLine?)
            && (err == NoError <==> !Classify(line, j).DoneLine? && !Classify(line, j).BadLine?)
  {
    hide TrimSpace, Contains;
  }

  /** Two states of a stream, with input still to be read, that will end up with the same. */
  ghost predicate SameEnd(a: Stream, b: Stream, j: Json) {
    var x, y := Leaves(Complete(a.input), a.hasErrorPrefix, j), Leaves(Complete(b.input), b.hasErrorPrefix, j);
    && StreamUsage(Complete(a.input), a.hasErrorPrefix, j, a.usage) == StreamUsage(Complete(b.input), b.hasErrorPrefix, j, b.usage)
    && StreamModel(Complete(a.input), a.hasErrorPrefix, j, a.model) == StreamModel(Complete(b.input), b.hasErrorPrefix, j, b.model)
    && a.errorBuffer + x.text == b.errorBuffer + y.text
    && (a.isDone || x.done) == (b.isDone || y.done) && x.error == y.error
  }

  /** What a stream ends up with once the pump has stopped. */
  ghost predicate EndsAs(a: Stream, b: Stream, j: Json) {
    var lines := Complete(a.input);
    var kept := Leaves(lines, a.hasErrorPrefix, j);
    && b.usage == StreamUsage(lines, a.hasErrorPrefix, j, a.usage)
    && b.model == StreamModel(lines, a.hasErrorPrefix, j, a.model)
    && b.eofSignalled
    && b.errorBuffer == a.errorBuffer + kept.text
    && b.isDone == (a.isDone || kept.done) && b.hasErrorPrefix == kept.error
  }

  lemma SameEndSelf(s: Stream, j: Json)
    ensures SameEnd(s, s, j)
  {
  }

  lemma NextEnds(a: Stream, s: Stream, j: Json, end: End)
    requires SameEnd(a, s, j)
    ensures var (s1, _, err) := Next(s, j, end);
            if err == NoError then SameEnd(a, s1, j) else EndsAs(a, s1, j)
  {
    NextStores(s, j, end);
    NextKeeps(s, j, end);
    hide Next, Leaves, StreamUsage, StreamModel, Complete;
  }

  lemma NextStops(s: Stream, j: Json, end: End)
    ensures var (s1, _, err) := Next(s, j, end); err != NoError ==> s1.eofSignalled
  {
    hide TrimSpace, Find, Contains;
  }

  /** For every upstream input the pump terminates, and what it writes and records is what the
      complete lines of the input determine. */
  method PipeCompletionsStream(stream: ChatCompletionStreamResponse, w: Writer, meta: Metadata)
    modifies stream, w, meta
    ensures w.out == old(w.out) + Text(Output(Complete(old(stream.input)), old(stream.hasErrorPrefix), stream.json, stream.end))
    ensures meta.usage == LastUsage(Complete(old(stream.input)), old(stream.hasErrorPrefix), stream.json, old(meta.usage))
    ensures meta.responseModel ==
            FirstModel(Complete(old(stream.input)), old(stream.hasErrorPrefix), old(stream.chunkNum), stream.json, old(meta.responseModel))
    ensures EndsAs(old(stream.View()), stream.View(), stream.json)
  {
    hide SameEnd, EndsAs, Output, LastUsage, FirstModel, Complete, Text, Marshal, Next;
    var j := stream.json;
    ghost var written: seq<string> := [];
    NoText();
    SameEndSelf(stream.View(), j);
    while true
      invariant w.out == old(w.out) + Text(written)
      invariant written + Output(Complete(stream.input), stream.hasErrorPrefix, j, stream.end)
                == Output(Complete(old(stream.input)), old(stream.hasErrorPrefix), j, stream.end)
      invariant LastUsage(Complete(stream.input), stream.hasErrorPrefix, j, meta.usage)
                == LastUsage(Complete(old(stream.input)), old(stream.hasErrorPrefix), j, old(meta.usage))
      invariant FirstModel(Complete(stream.input), stream.hasErrorPrefix, stream.chunkNum, j, meta.responseModel)
                == FirstModel(Complete(old(stream.input)), old(stream.hasErrorPrefix), old(stream.chunkNum), j, old(meta.responseModel))
      invariant SameEnd(old(stream.View()), stream.View(), j)
      decreases |stream.input|
    {
      NextWrites(stream.View(), j, stream.end);
      NextRecords(stream.View(), j, stream.end, meta.usage, meta.responseModel);
      NextEnds(old(stream.View()), stream.View(), j, stream.end);
      var chunk, err := stream.NextChunk();
      if err == Failure {
        assert written + [] == written;
        return;
      }
      if err == EOF {
        HandleChunk(chunk.value, j, w, old(w.out), written);
        return;
      }
      if chunk.value.kind.EmptyKind? {
        continue;
      }
      if chunk.value.kind.UsageKind? && chunk.value.usage.Some? {
        meta.usage := chunk.value.usage;
      }
      if chunk.value.isFirst {
        meta.responseModel := chunk.value.model;
      }
      HandleChunk(chunk.value, j, w, old(w.out), written);
      written := written + [Marshal(chunk.value, j)];
    }
  }

  lemma NoText()
    ensures Text([]) == ""
  {
  }

  // ----- What that means

  predicate Stops(l: Line) { l.ErrorLine? || l.DoneLine? || l.BadLine? }

  /** The first line that ends the forwarding: an error line, [DONE] or a line that does not parse. */
  function StopAt(lines: seq<string>, j: Json): (n: nat)
    ensures n <= |lines|
    ensures forall i | 0 <= i < n :: !Stops(Classify(lines[i], j))
    ensures n < |lines| ==> Stops(Classify(lines[n], j))
  {
    if lines == [] || Stops(Classify(lines[0], j)) then 0 else 1 + StopAt(lines[1..], j)
  }

  /** The bodies of the data lines, in order. */
  function Payloads(lines: seq<string>, j: Json): seq<string> {
    if lines == [] then []
    else (if Carries(Classify(lines[0], j)) then [Classify(lines[0], j).body] else []) + Payloads(lines[1..], j)
  }

  function RenderAll(bodies: seq<string>, j: Json): (r: seq<string>)
    ensures |r| == |bodies| && forall i | 0 <= i < |r| :: r[i] == j.render(bodies[i])
  {
    if bodies == [] then [] else [j.render(bodies[0])] + RenderAll(bodies[1..], j)
  }

  /** What is written after the forwarded data. */
  function Terminal(lines: seq<string>, n: nat, j: Json, end: End): seq<string>
    requires n <= |lines|
  {
    if n < |lines| && Classify(lines[n], j).DoneLine? then [DONE]
    else if n < |lines| && Classify(lines[n], j).BadLine? then []
    else if end.EndOfFile? then [NULL] else []
  }

  lemma {:induction false} AfterError(lines: seq<string>, j: Json, end: End)
    ensures Output(lines, true, j, end) == if end.EndOfFile? then [NULL] else []
  {
    if lines != [] { AfterError(lines[1..], j, end); }
  }

  /** The pump is a simple fold: one event for each data line before the first line that stops it, in
      order, and then [DONE], nothing, or the final null event. */
  lemma {:induction false} OutputIs(lines: seq<string>, j: Json, end: End)
    ensures var n := StopAt(lines, j);
            Output(lines, false, j, end) == RenderAll(Payloads(lines[..n], j), j) + Terminal(lines, n, j, end)
  {
    hide Classify, RenderAll, Carries;
    NoneRendered(j);
    if lines != [] {
      var n := StopAt(lines, j);
      if n == 0 {
        AfterError(lines[1..], j, end);
      } else {
        OutputIs(lines[1..], j, end);
        TerminalRest(lines, n, j, end);
        PayloadsRest(lines, n, j);
        hide Payloads, Terminal;
      }
    }
  }

  lemma TerminalRest(lines: seq<string>, n: nat, j: Json, end: End)
    requires 0 < n <= |lines|
    ensures Terminal(lines, n, j, end) == Terminal(lines[1..], n - 1, j, end)
  {
    hide Classify;
  }

  /** The rendered payloads of lines that begin with one that does not stop the pump. */
  lemma PayloadsRest(lines: seq<string>, n: nat, j: Json)
    requires 0 < n <= |lines|
    ensures var l, rest := Classify(lines[0], j), RenderAll(Payloads(lines[1..][..n - 1], j), j);
            RenderAll(Payloads(lines[..n], j), j) == if l.DataLine? || l.UsageLine? then [j.render(l.body)] + rest else rest
  {
    hide Classify, RenderAll;
    assert lines[..n][1..] == lines[1..][..n - 1] && lines[..n][0] == lines[0];
    var l, ps := Classify(lines[0], j), Payloads(lines[1..][..n - 1], j);
    if Carries(l) { RenderCons(l.body, ps, j); } else { assert [] + ps == ps; }
  }

  lemma NoneRendered(j: Json)
    ensures RenderAll([], j) == []
  {
  }

  lemma RenderCons(b: string, bodies: seq<string>, j: Json)
    ensures RenderAll([b] + bodies, j) == [j.render(b)] + RenderAll(bodies, j)
  {
  }

  /** Whether a payload tells a usage, and which. */
  function Told(b: string, j: Json): Option<Usage> {
    if Contains(b, COMPLETION_TOKENS) && j.usage(b).Found? then j.usage(b).usage else None
  }

  /** The usage that the last payload with one tells. */
  function LastTold(ps: seq<string>, j: Json, prev: Option<Usage>): Option<Usage> {
    if ps == [] then prev
    else if Told(ps[|ps| - 1], j).Some? then Told(ps[|ps| - 1], j)
    else LastTold(ps[..|ps| - 1], j, prev)
  }

  /** What the JSON library reads in the last payload that mentions completion tokens. */
  function LastRead(ps: seq<string>, j: Json, prev: Option<Usage>): Option<Usage> {
    if ps == [] then prev
    else
      var b := ps[|ps| - 1];
      if Contains(b, COMPLETION_TOKENS) && j.usage(b).Found? then j.usage(b).usage
      else LastRead(ps[..|ps| - 1], j, prev)
  }

  /** The first model that is not empty. */
  function FirstNamed(ps: seq<string>, j: Json): string {
    if ps == [] then "" else if j.model(ps[0]) != "" then j.model(ps[0]) else FirstNamed(ps[1..], j)
  }

  lemma {:induction false} TellsCons(b: string, ps: seq<string>, j: Json, prev: Option<Usage>)
    ensures LastTold([b] + ps, j, prev) == LastTold(ps, j, if Told(b, j).Some? then Told(b, j) else prev)
    ensures LastRead([b] + ps, j, prev) ==
            LastRead(ps, j, if Contains(b, COMPLETION_TOKENS) && j.usage(b).Found? then j.usage(b).usage else prev)
    decreases |ps|
  {
    hide Contains;
    var all := [b] + ps;
    if ps == [] {
      assert all == [b] && all[..0] == [];
    } else {
      assert all[..|all| - 1] == [b] + ps[..|ps| - 1] && all[|all| - 1] == ps[|ps| - 1];
      TellsCons(b, ps[..|ps| - 1], j, prev);
    }
  }

  /** A line that carries a payload tells what the JSON library reads in it. */
  lemma CarriedTells(line: string, j: Json)
    ensures match Classify(line, j)
            case DataLine(b) => !Contains(b, COMPLETION_TOKENS)
            case UsageLine(b, u) => Contains(b, COMPLETION_TOKENS) && j.usage(b) == Found(u)
            case _ => true
  {
    hide TrimSpace, Contains;
  }

  lemma PayloadsCut(lines: seq<string>, n: nat, j: Json)
    requires 0 < n <= |lines|
    ensures var l, rest := Classify(lines[0], j), Payloads(lines[1..][..n - 1], j);
            Payloads(lines[..n], j) == if l.DataLine? || l.UsageLine? then [l.body] + rest else rest
  {
    hide Classify;
    assert lines[..n][1..] == lines[1..][..n - 1] && lines[..n][0] == lines[0];
    var rest := Payloads(lines[1..][..n - 1], j);
    assert [] + rest == rest;
  }

  /** What is recorded of the usage, in terms of the payloads: what the last of them that has a usage
      tells; and the stream itself keeps what was read in the last that mentions completion tokens. */
  lemma {:induction false} UsageIs(lines: seq<string>, j: Json, prev: Option<Usage>)
    ensures var ps := Payloads(lines[..StopAt(lines, j)], j);
            && LastUsage(lines, false, j, prev) == LastTold(ps, j, prev)
            && StreamUsage(lines, false, j, prev) == LastRead(ps, j, prev)
  {
    var n := StopAt(lines, j);
    if n == 0 {
      assert lines[..n] == [];
      hide Classify;
      assert LastUsage(lines, false, j, prev) == prev && StreamUsage(lines, false, j, prev) == prev;
    } else {
      PayloadsCut(lines, n, j);
      CarriedTells(lines[0], j);
      var rest := Payloads(lines[1..][..n - 1], j);
      hide Classify, Payloads, Contains;
      match Classify(lines[0], j)
      case DataLine(b) =>
        UsageIs(lines[1..], j, prev);
        TellsCons(b, rest, j, prev);
      case UsageLine(b, u) =>
        UsageIs(lines[1..], j, if u.Some? then u else prev);
        UsageIs(lines[1..], j, u);
        TellsCons(b, rest, j, prev);
      case Ignored =>
        UsageIs(lines[1..], j, prev);
      case _ =>
    }
  }

  /** The recorded response model is that of the first payload, if the stream was fresh. */
  lemma {:induction false} ModelIs(lines: seq<string>, n: nat, j: Json, prev: string)
    ensures var ps := Payloads(lines[..StopAt(lines, j)], j);
            FirstModel(lines, false, n, j, prev) == if n == 0 && ps != [] then j.model(ps[0]) else prev
  {
    if lines == [] || Stops(Classify(lines[0], j)) {
      FirstModelStops(lines, n, j, prev);
    } else {
      var stop, l, rest := StopAt(lines, j), Classify(lines[0], j), lines[1..];
      assert stop == 1 + StopAt(rest, j);
      PayloadsCut(lines, stop, j);
      FirstModelNext(lines, n, j, prev);
      assert l.DataLine? || l.UsageLine? || l.Ignored?;
      hide *;
      var ps := Payloads(rest[..stop - 1], j);
      if l.Ignored? {
        ModelIs(rest, n, j, prev);
        assert Payloads(lines[..stop], j) == ps;
      } else {
        ModelIs(rest, n + 1, j, if n == 0 then j.model(l.body) else prev);
        assert Payloads(lines[..stop], j) == [l.body] + ps;
      }
    }
  }

  lemma FirstModelStops(lines: seq<string>, n: nat, j: Json, prev: string)
    requires lines == [] || Stops(Classify(lines[0], j))
    ensures FirstModel(lines, false, n, j, prev) == prev && Payloads(lines[..StopAt(lines, j)], j) == []
  {
    assert lines[..StopAt(lines, j)] == [];
    hide Classify;
  }

  lemma FirstModelNext(lines: seq<string>, n: nat, j: Json, prev: string)
    requires lines != [] && !Stops(Classify(lines[0], j))
    ensures var l, rest := Classify(lines[0], j), lines[1..];
            FirstModel(lines, false, n, j, prev) ==
            if l.Ignored? then FirstModel(rest, false, n, j, prev)
            else FirstModel(rest, false, n + 1, j, if n == 0 then j.model(l.body) else prev)
  {
    hide Classify;
  }

  /** The stream itself keeps the first model that is not empty. */
  lemma {:induction false} StreamModelIs(lines: seq<string>, j: Json, prev: string)
    ensures var ps := Payloads(lines[..StopAt(lines, j)], j);
            StreamModel(lines, false, j, prev) == if prev == "" then FirstNamed(ps, j) else prev
  {
    var stop := StopAt(lines, j);
    if stop == 0 {
      assert lines[..stop] == [];
      hide Classify;
    } else {
      PayloadsCut(lines, stop, j);
      hide Payloads, Classify;
      var l := Classify(lines[0], j);
      StreamModelIs(lines[1..], j, if (l.DataLine? || l.UsageLine?) && prev == "" then j.model(l.body) else prev);
    }
  }

  /** The texts of the lines that carry no data. */
  function Asides(lines: seq<string>, j: Json): string {
    if lines == [] then ""
    else (if Carries(Classify(lines[0], j)) then "" else TrimSpace(lines[0])) + Asides(lines[1..], j)
  }

  /** What a stream keeps of the lines it does not forward, in closed form. */
  lemma {:induction false} LeavesIs(lines: seq<string>, j: Json)
    ensures var n, kept := StopAt(lines, j), Leaves(lines, false, j);
            && (kept.error <==> n < |lines| && Classify(lines[n], j).ErrorLine?)
            && (kept.done <==> n < |lines| && Classify(lines[n], j).DoneLine?)
            && kept.text == Asides(lines[..n], j) + if kept.error then ErrorText(lines[n]) else ""
  {
    var n := StopAt(lines, j);
    hide Classify, TrimSpace, ErrorText;
    if n == 0 {
      assert lines[..0] == [];
    } else {
      assert lines[..n][1..] == lines[1..][..n - 1] && lines[..n][0] == lines[0];
      LeavesIs(lines[1..], j);
    }
  }

  /** Laws of the JSON library used from here on: an accepted body marshals to one line without outer
      space that is accepted, marshals to itself and is not the [DONE] marker; null is accepted. */
  ghost predicate Lawful(j: Json) {
    && (forall b {:trigger j.render(b)} | j.accepts(b) ::
          var r := j.render(b);
          OneLine(r) && Trimmed(r) && j.accepts(r) && j.render(r) == r && r != DONE)
    && j.accepts(NULL) && j.render(NULL) == NULL
  }

  predicate Trimmed(s: string) { s != "" && !IsSpace(s[0]) && !IsSpace(s[|s| - 1]) }

  lemma {:induction false} PayloadsAccepted(lines: seq<string>, j: Json)
    ensures forall b | b in Payloads(lines, j) :: j.accepts(b)
  {
    hide TrimSpace;
    if lines != [] { PayloadsAccepted(lines[1..], j); }
  }

  /** At most one [DONE] is written, and it is the last event. */
  lemma DoneIsLast(lines: seq<string>, j: Json, end: End, i: nat)
    requires Lawful(j)
    requires i < |Output(lines, false, j, end)| && Output(lines, false, j, end)[i] == DONE
    ensures i == |Output(lines, false, j, end)| - 1
    ensures StopAt(lines, j) < |lines| && Classify(lines[StopAt(lines, j)], j).DoneLine?
  {
    OutputIs(lines, j, end);
    var n := StopAt(lines, j);
    var ps := Payloads(lines[..n], j);
    PayloadsAccepted(lines[..n], j);
    assert forall k | 0 <= k < |ps| :: ps[k] in ps;
  }

  /** Nothing after the line that stops the pump matters, but for the way the upstream ends. */
  lemma NothingAfterStop(lines: seq<string>, more: seq<string>, j: Json, end: End)
    requires StopAt(lines, j) < |lines|
    ensures Output(lines + more, false, j, end) == Output(lines, false, j, end)
  {
    var n := StopAt(lines, j);
    OutputIs(lines, j, end);
    OutputIs(lines + more, j, end);
    StopAtPrefix(lines, more, j);
    assert (lines + more)[..n] == lines[..n] && (lines + more)[n] == lines[n];
  }

  lemma StopAtPrefix(lines: seq<string>, more: seq<string>, j: Json)
    requires StopAt(lines, j) < |lines|
    ensures StopAt(lines + more, j) == StopAt(lines, j)
  {
    hide Classify;
    var n, m := StopAt(lines, j), StopAt(lines + more, j);
    assert forall i | 0 <= i < |lines| :: (lines + more)[i] == lines[i];
  }

  // ----- The usage after the end of the stream was signalled

  /** The stream after `k` iterations of the pump; it stays as it is once the pump has stopped. */
  function Pumped(s: Stream, j: Json, end: End, k: nat): (Stream, bool) {
    if k == 0 then (s, false)
    else
      var (s1, stopped) := Pumped(s, j, end, k - 1);
      if stopped then (s1, true) else
        var (s2, _, err) := Next(s1, j, end);
        (s2, err != NoError)
  }

  lemma NextSignals(s: Stream, j: Json, end: End)
    requires s.eofSignalled ==> s.hasErrorPrefix
    ensures var (s1, _, err) := Next(s, j, end);
            && (err == NoError && s1.eofSignalled ==> s1.hasErrorPrefix)
            && (s.eofSignalled ==> s1.eofSignalled && s1.usage == s.usage)
  {
    hide TrimSpace, Find, Contains;
  }

  lemma {:induction false} SignalledMeansError(s: Stream, j: Json, end: End, k: nat)
    requires s.eofSignalled ==> s.hasErrorPrefix
    ensures var (s1, stopped) := Pumped(s, j, end, k);
            !stopped && s1.eofSignalled ==> s1.hasErrorPrefix
  {
    hide Next;
    if k > 0 {
      SignalledMeansError(s, j, end, k - 1);
      if !Pumped(s, j, end, k - 1).1 { NextSignals(Pumped(s, j, end, k - 1).0, j, end); }
    }
  }

  /** Once the end of the stream is signalled, the usage that waiting observers read never changes. */
  lemma {:induction false} UsageSettles(s: Stream, j: Json, end: End, i: nat, k: nat)
    requires (s.eofSignalled ==> s.hasErrorPrefix) && i <= k && Pumped(s, j, end, i).0.eofSignalled
    ensures Pumped(s, j, end, k).0.eofSignalled && Pumped(s, j, end, k).0.usage == Pumped(s, j, end, i).0.usage
  {
    hide Next;
    if i < k {
      UsageSettles(s, j, end, i, k - 1);
      SignalledMeansError(s, j, end, k - 1);
      if !Pumped(s, j, end, k - 1).1 { NextSignals(Pumped(s, j, end, k - 1).0, j, end); }
    }
  }
}
