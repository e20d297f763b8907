/** The reader of an upstream completion stream: how it reads one line, and the calls of `NextChunk`.
    JSON is whatever the library does, given as a parameter. */
module ChatStream {
  import opened Options
  import opened ServerSentEvents

  datatype Usage = Usage(promptTokens: nat, completionTokens: nat, totalTokens: nat)

  /** Reading the usage of a parsed body: a conversion error, or the usage if there is one. */
  datatype UsageResult = Malformed | Found(usage: Option<Usage>)

  /** The JSON library: which texts unmarshal into a map, what marshalling the map gives back, and
      the two paths the gateway reads. */
  datatype Json = Json(
    accepts: string -> bool,
    render: string -> string,
    model: string -> string,
    usage: string -> UsageResult)

  // ----- Lines

  const HEADER_DATA := "data: "
  const ERROR_PREFIX := "data: {\"error\":"
  const COMPLETION_TOKENS := "\"completion_tokens\":"
  const DONE := "[DONE]"
  const NULL := "null"

  predicate IsSpace(c: char) {
    c in "\t\n\r " || c == '\U{b}' || c == '\U{c}' || c == '\U{85}' || c == '\U{a0}' || c == '\U{1680}' ||
    '\U{2000}' <= c <= '\U{200a}' || c == '\U{2028}' || c == '\U{2029}' || c == '\U{202f}' || c == '\U{205f}' || c == '\U{3000}'
  }

  function TrimRight(s: string): string {
    if s != "" && IsSpace(s[|s| - 1]) then TrimRight(s[..|s| - 1]) else s
  }

  function TrimLeft(s: string): string {
    if s != "" && IsSpace(s[0]) then TrimLeft(s[1..]) else s
  }

  function TrimSpace(s: string): string { TrimLeft(TrimRight(s)) }

  predicate Contains(s: string, part: string) {
    part <= s || (s != "" && Contains(s[1..], part))
  }

  /** What one line of the upstream means. */
  datatype Line = ErrorLine | Ignored | DoneLine | BadLine | DataLine(body: string) | UsageLine(body: string, usage: Option<Usage>)

  function Classify(line: string, j: Json): Line {
    var t := TrimSpace(line);
    if ERROR_PREFIX <= t then ErrorLine
    else if !(HEADER_DATA <= t) then Ignored
    else ClassifyBody(t[|HEADER_DATA|..], j)
  }

  function ClassifyBody(body: string, j: Json): Line {
    if body == DONE then DoneLine
    else if !j.accepts(body) then BadLine
    else if !Contains(body, COMPLETION_TOKENS) then DataLine(body)
    else match j.usage(body)
      case Malformed => BadLine
      case Found(u) => UsageLine(body, u)
  }

  predicate Carries(l: Line) { l.DataLine? || l.UsageLine? }

  /** The lines of an input that end in a line feed; what follows the last one is never delivered. */
  function Complete(input: string): seq<string> {
    var pieces := Split(input);
    pieces[..|pieces| - 1]
  }

  // ----- NextChunk

  /** How the upstream ends: with the end of the file or with a read error. */
  datatype End = EndOfFile | Broken

  datatype Err = NoError | EOF | Failure

  datatype Kind = EmptyKind | DoneKind | DataKind | UsageKind

  datatype Chunk = Chunk(kind: Kind, body: string, model: string, usage: Option<Usage>, isFirst: bool)

  datatype Stream = Stream(
    input: string,
    hasErrorPrefix: bool,
    errorBuffer: string,
    isDone: bool,
    chunkNum: nat,
    eofSignalled: bool,
    model: string,
    usage: Option<Usage>)

  function Empty(s: Stream): Chunk { Chunk(EmptyKind, "", "", None, s.chunkNum == 1) }

  function AdoptModel(s: Stream, model: string): Stream { if s.model == "" then s.(model := model) else s }

  /** One call of `NextChunk`: the new state, the chunk (none stands for nil) and the error. */
  function Next(s: Stream, j: Json, end: End): (Stream, Option<Chunk>, Err) {
    var i := Find(s.input, '\n');
    if i == |s.input| then
      var s1 := s.(input := "", eofSignalled := true);
      (s1, Some(Empty(s1)), if end.EndOfFile? then EOF else Failure)
    else
      var s1 := s.(input := s.input[i + 1..]);
      if s.hasErrorPrefix then (s1.(eofSignalled := true), Some(Empty(s1)), NoError)
      else OnLine(s1, TrimSpace(s.input[..i]), j)
  }

  /** A line, trimmed, of a stream that has not seen an error line. */
  function OnLine(s: Stream, t: string, j: Json): (Stream, Option<Chunk>, Err) {
    if ERROR_PREFIX <= t then
      (s.(hasErrorPrefix := true, errorBuffer := s.errorBuffer + t[|HEADER_DATA|..]), Some(Empty(s)), NoError)
    else if !(HEADER_DATA <= t) then
      (s.(errorBuffer := s.errorBuffer + t), Some(Empty(s)), NoError)
    else OnBody(s.(chunkNum := s.chunkNum + 1), t[|HEADER_DATA|..], j)
  }

  function OnBody(s: Stream, body: string, j: Json): (Stream, Option<Chunk>, Err) {
    match ClassifyBody(body, j)
    case DoneLine =>
      (s.(isDone := true, eofSignalled := true), Some(Chunk(DoneKind, "", "", None, false)), EOF)
    case DataLine(_) =>
      (AdoptModel(s, j.model(body)), Some(Chunk(DataKind, body, j.model(body), None, s.chunkNum == 1)), NoError)
    case UsageLine(_, u) =>
      (AdoptModel(s, j.model(body)).(usage := u), Some(Chunk(UsageKind, body, j.model(body), u, s.chunkNum == 1)), NoError)
    case _ =>
      (s.(eofSignalled := true), if Contains(body, COMPLETION_TOKENS) then None else Some(Empty(s)), Failure)
  }

  /** A terminated line reads the same with or without its line feed. */
  lemma TrimLineFeed(line: string)
    ensures TrimSpace(line + "\n") == TrimSpace(line)
  {
  }

  class ChatCompletionStreamResponse {
    var input: string
    const end: End
    const json: Json
    var hasErrorPrefix: bool
    var errorBuffer: string
    var isDone: bool
    var chunkNum: nat
    var eofSignalled: bool
    var model: string
    var usage: Option<Usage>

    ghost function View(): Stream
      reads this
    {
      Stream(input, hasErrorPrefix, errorBuffer, isDone, chunkNum, eofSignalled, model, usage)
    }

    constructor (input: string, end: End, json: Json)
      ensures View() == Stream(input, false, "", false, 0, false, "", None) && this.end == end && this.json == json
    {
      this.input, this.end, this.json := input, end, json;
      hasErrorPrefix, errorBuffer, isDone, chunkNum, eofSignalled := false, "", false, 0, false;
      model, usage := "", None;
    }

    /** Reads up to and including the next line feed; without one, the rest and the reader's error. */
    method ReadBytes() returns (line: string, err: Err)
      modifies this`input
      ensures var i := Find(old(input), '\n');
              if i == |old(input)| then line == old(input) && input == "" && err == (if end.EndOfFile? then EOF else Failure)
              else line == old(input)[..i] + "\n" && input == old(input)[i + 1..] && err == NoError
    {
      var i := Find(input, '\n');
      if i == |input| {
        line, input := input, "";
        err := if end.EndOfFile? then EOF else Failure;
      } else {
        line, input, err := input[..i + 1], input[i + 1..], NoError;
        assert line == old(input)[..i] + "\n";
      }
    }

    method NextChunk() returns (chunk: Option<Chunk>, err: Err)
      modifies this
      ensures (View(), chunk, err) == Next(old(View()), json, end)
    {
      hide TrimSpace, Find, OnBody;
      var line;
      line, err := ReadBytes();
      if err != NoError || hasErrorPrefix {
        eofSignalled := true;
        chunk := Some(Chunk(EmptyKind, "", "", None, chunkNum == 1));
        return;
      }
      TrimLineFeed(old(input)[..Find(old(input), '\n')]);
      var noSpaceLine := TrimSpace(line);
      if ERROR_PREFIX <= noSpaceLine {
        hasErrorPrefix := true;
      }
      if !(HEADER_DATA <= noSpaceLine) || hasErrorPrefix {
        if hasErrorPrefix {
          noSpaceLine := noSpaceLine[|HEADER_DATA|..];
        }
        errorBuffer := errorBuffer + noSpaceLine;
        chunk := Some(Chunk(EmptyKind, "", "", None, chunkNum == 1));
        return;
      }
      chunkNum := chunkNum + 1;
      chunk, err := BodyChunk(noSpaceLine[|HEADER_DATA|..]);
    }

    /** The part of `NextChunk` that looks into a data line. */
    method BodyChunk(noPrefixLine: string) returns (chunk: Option<Chunk>, err: Err)
      modifies this
      ensures (View(), chunk, err) == OnBody(old(View()), noPrefixLine, json)
    {
      hide Contains;
      if noPrefixLine == DONE {
        isDone := true;
        eofSignalled := true;
        return Some(Chunk(DoneKind, "", "", None, false)), EOF;
      }
      if Contains(noPrefixLine, COMPLETION_TOKENS) {
        var found := if json.accepts(noPrefixLine) then json.usage(noPrefixLine) else Malformed;
        if found.Malformed? {
          eofSignalled := true;
          return None, Failure;
        }
        SetModelOnce(json.model(noPrefixLine));
        usage := found.usage;
        return Some(Chunk(UsageKind, noPrefixLine, json.model(noPrefixLine), usage, chunkNum == 1)), NoError;
      }
      if !json.accepts(noPrefixLine) {
        eofSignalled := true;
        return Some(Chunk(EmptyKind, "", "", None, chunkNum == 1)), Failure;
      }
      SetModelOnce(json.model(noPrefixLine));
      return Some(Chunk(DataKind, noPrefixLine, json.model(noPrefixLine), None, chunkNum == 1)), NoError;
    }

    method SetModelOnce(m: string)
      modifies this`model
      ensures model == if old(model) == "" then m else old(model)
    {
      if model == "" {
        model := m;
      }
    }
  }
}
