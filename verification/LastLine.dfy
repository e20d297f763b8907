/** What becomes of the last line of a stream when it has no line feed. */
module LastLine {
  import opened ServerSentEvents
  import opened ChatStream
  import opened StreamPump
  import GatewayChain

  lemma {:induction false} FindNone(s: string, c: char)
    requires c !in s
    ensures Find(s, c) == |s|
  {
    if s != "" { FindNone(s[1..], c); }
  }

  lemma {:induction false} FindInFront(s: string, t: string, c: char)
    requires Find(s, c) < |s|
    ensures Find(s + t, c) == Find(s, c)
  {
    if s[0] != c {
      assert (s + t)[1..] == s[1..] + t;
      FindInFront(s[1..], t, c);
    }
  }

  lemma {:induction false} FindAtEnd(s: string, c: char)
    requires Find(s, c) == |s|
    ensures Find(s + [c], c) == |s|
  {
    if s == "" {
      assert (s + [c])[0] == c;
    } else {
      assert (s + [c])[1..] == s[1..] + [c];
      FindAtEnd(s[1..], c);
    }
  }

  lemma FirstLine(input: string, i: nat)
    requires i == Find(input, '\n') < |input|
    ensures Complete(input) == [input[..i]] + Complete(input[i + 1..])
  {
    hide Find, Complete;
    CompleteCut(input);
  }

  lemma Slices(input: string, more: string, i: nat)
    requires i < |input|
    ensures (input + more)[..i] == input[..i] && (input + more)[i + 1..] == input[i + 1..] + more
  {
  }

  /** More text behind an input leaves its first line and follows the rest. */
  lemma FrontLine(input: string, more: string, i: nat)
    requires i == Find(input, '\n') < |input|
    ensures Complete(input + more) == [input[..i]] + Complete(input[i + 1..] + more)
  {
    FindInFront(input, more, '\n');
    Slices(input, more, i);
    hide Find, Complete;
    FirstLine(input + more, i);
  }

  lemma NoLine(input: string)
    requires Find(input, '\n') == |input|
    ensures Complete(input) == [] && LastPiece(input) == input
  {
    CompleteCut(input);
    hide Find;
    assert Split(input) == [input];
  }

  lemma TerminatedLine(input: string)
    requires Find(input, '\n') == |input|
    ensures Complete(input + "\n") == [input]
  {
    FindAtEnd(input, '\n');
    FindNone("", '\n');
    NoLine("");
    CompleteCut(input + "\n");
    hide Find, Complete;
    assert (input + "\n")[..|input|] == input && (input + "\n")[|input| + 1..] == "";
    assert [input] + [] == [input];
  }

  /** What follows the last line feed. */
  function LastPiece(input: string): string {
    var pieces := Split(input);
    pieces[|pieces| - 1]
  }

  lemma SplitRest(input: string, i: nat)
    requires i == Find(input, '\n') < |input|
    ensures Split(input) == [input[..i]] + Split(input[i + 1..])
  {
  }

  lemma LastOfRest(input: string, i: nat)
    requires i == Find(input, '\n') < |input|
    ensures LastPiece(input) == LastPiece(input[i + 1..])
  {
    SplitRest(input, i);
    hide Find, Split;
    var rest := Split(input[i + 1..]);
    assert ([input[..i]] + rest)[|rest|] == rest[|rest| - 1];
  }

  /** What follows the last line feed is no line, whatever it says: it changes nothing. */
  lemma {:induction false} TailIsDropped(input: string, tail: string)
    requires (input == "" || input[|input| - 1] == '\n') && '\n' !in tail
    ensures Complete(input + tail) == Complete(input)
    decreases |input|
  {
    if input == "" {
      FindNone(tail, '\n');
      NoLine(tail);
      NoLine("");
      assert input + tail == tail;
    } else {
      var i := Find(input, '\n');
      if i == |input| { EndsInside(input); }
      hide Find, Complete;
      FirstLine(input, i);
      FrontLine(input, tail, i);
      TailIsDropped(input[i + 1..], tail);
    }
  }

  lemma EndsInside(input: string)
    requires input != "" && input[|input| - 1] == '\n'
    ensures Find(input, '\n') < |input|
  {
    var i := Find(input, '\n');
    assert input[..|input|][|input| - 1] == '\n';
  }

  /** The line that would be there if the input ended in a line feed. */
  lemma {:induction false} LineFeedCompletes(input: string)
    ensures Complete(input + "\n") == Complete(input) + [LastPiece(input)]
    decreases |input|
  {
    var i := Find(input, '\n');
    if i == |input| {
      NoLine(input);
      TerminatedLine(input);
    } else {
      hide Find, Complete, LastPiece;
      FirstLine(input, i);
      FrontLine(input, "\n", i);
      LastOfRest(input, i);
      LineFeedCompletes(input[i + 1..]);
    }
  }

  /** Whether a last line without a line feed could have changed the output: it carries data or says
      [DONE], or it does not parse and would have held back the final null event. */
  predicate Matters(l: Line, end: End) { l.DataLine? || l.UsageLine? || l.DoneLine? || (l.BadLine? && end.EndOfFile?) }

  /** When the missing line feed costs something: the pump writes other events than it would with the
      last line terminated, if and only if it gets as far as that line and the line matters. */
  lemma LostLastLine(input: string, j: Json, end: End)
    ensures var lines := Complete(input);
            Output(Complete(input + "\n"), false, j, end) != Output(lines, false, j, end)
            <==> StopAt(lines, j) == |lines| && Matters(Classify(LastPiece(input), j), end)
  {
    var lines, last := Complete(input), LastPiece(input);
    LineFeedCompletes(input);
    hide Complete, LastPiece, Classify;
    if StopAt(lines, j) < |lines| {
      NothingAfterStop(lines, [last], j, end);
    } else {
      OutputThrough(lines, last, j, end);
    }
  }

  /** The output of lines that do not stop the pump, with and without one more line. */
  lemma {:induction false} OutputThrough(lines: seq<string>, last: string, j: Json, end: End)
    requires StopAt(lines, j) == |lines|
    ensures Output(lines + [last], false, j, end) != Output(lines, false, j, end) <==> Matters(Classify(last, j), end)
  {
    hide Classify;
    if lines == [] {
      assert ([] + [last])[0] == last && ([] + [last])[1..] == [];
      assert Output([], true, j, end) == Output([], false, j, end);
    } else {
      assert (lines + [last])[1..] == lines[1..] + [last] && (lines + [last])[0] == lines[0];
      OutputThrough(lines[1..], last, j, end);
      var a, b := Output(lines[1..] + [last], false, j, end), Output(lines[1..], false, j, end);
      forall r: string ensures [r] + a == [r] + b <==> a == b { ConsSame(r, a, b); }
    }
  }

  lemma ConsSame(r: string, a: seq<string>, b: seq<string>)
    ensures [r] + a == [r] + b <==> a == b
  {
    assert ([r] + a)[1..] == a && ([r] + b)[1..] == b;
  }

  lemma UnterminatedLine(line: string, j: Json)
    requires '\n' !in line && Classify(line, j) == DoneLine
    ensures Output(Complete(line), false, j, EndOfFile) == [NULL]
    ensures Output(Complete(line + "\n"), false, j, EndOfFile) == [DONE]
  {
    FindNone(line, '\n');
    NoLine(line);
    TerminatedLine(line);
    hide Classify, Complete, Find;
    assert [line][0] == line;
  }

  /** An upstream that ends with [DONE] but no line feed is forwarded with a final null event. */
  lemma UnterminatedDone(j: Json)
    ensures Output(Complete("data: [DONE]"), false, j, EndOfFile) == ["null"]
    ensures Output(Complete("data: [DONE]" + "\n"), false, j, EndOfFile) == ["[DONE]"]
  {
    DoneIsDone(j);
    hide Classify, Complete, Output;
    UnterminatedLine("data: [DONE]", j);
  }

  lemma DoneIsDone(j: Json)
    ensures Classify("data: [DONE]", j) == DoneLine
  {
    hide Classify;
    GatewayChain.BodyReads("", DONE, "", j);
    assert "" + ("data: " + DONE) + "" == "data: [DONE]";
  }
}
