/** A gateway whose upstream is another gateway: printing and reading back, chunk by chunk. */
module GatewayChain {
  import opened Options
  import opened ServerSentEvents
  import opened ChatStream
  import opened StreamPump

  const ERROR_BODY := "{\"error\":"

  /** The lines of a printed stream of one-line data. */
  function TextLines(ds: seq<string>): seq<string> {
    if ds == [] then [] else ["data: " + ds[0], ""] + TextLines(ds[1..])
  }

  /** A body as it can stand on its line. */
  predicate Fits(d: string) { '\n' !in d && Trimmed(d) }

  lemma PrintOne(d: string)
    requires Fits(d)
    ensures Print(DataEvent(d)) == Unlines(["data: " + d, ""])
  {
  }

  lemma {:induction false} TextIs(ds: seq<string>)
    requires forall d | d in ds :: Fits(d)
    ensures Text(ds) == Unlines(TextLines(ds))
    ensures forall l | l in TextLines(ds) :: '\n' !in l
  {
    if ds != [] {
      assert ds[0] in ds;
      TextIs(ds[1..]);
      PrintOne(ds[0]);
      UnlinesAppend(["data: " + ds[0], ""], TextLines(ds[1..]));
    }
  }

  lemma FindLineFeed(l: string, rest: string)
    requires '\n' !in l
    ensures Find(l + "\n" + rest, '\n') == |l|
  {
    var s := l + "\n" + rest;
    assert forall k | 0 <= k < |l| :: s[k] == l[k] && l[k] in l;
    assert s[|l|] == '\n';
  }

  lemma {:induction false} CompleteUnlines(ls: seq<string>)
    requires forall l | l in ls :: '\n' !in l
    ensures Complete(Unlines(ls)) == ls
  {
    if ls != [] {
      assert ls[0] in ls;
      CompleteUnlines(ls[1..]);
      FindLineFeed(ls[0], Unlines(ls[1..]));
      CompleteCut(Unlines(ls));
      assert Unlines(ls)[..|ls[0]|] == ls[0] && Unlines(ls)[|ls[0]| + 1..] == Unlines(ls[1..]);
    } else {
      assert Find("", '\n') == 0;
    }
  }

  lemma TrimTrimmed(d: string)
    requires d != "" && !IsSpace(d[|d| - 1])
    ensures TrimSpace("data: " + d) == "data: " + d
  {
  }

  /** How a printed body is read: an error if it looks like one, and otherwise by what it is. */
  function Reread(d: string, j: Json): Line {
    if ERROR_BODY <= d then ErrorLine else ClassifyBody(d, j)
  }

  lemma PrintedReads(d: string, j: Json)
    requires d != "" && !IsSpace(d[|d| - 1])
    ensures Classify("data: " + d, j) == Reread(d, j)
    ensures Classify("", j) == Ignored
  {
    TrimTrimmed(d);
    var t := "data: " + d;
    assert t[6..] == d;
    assert ERROR_PREFIX == "data: " + ERROR_BODY;
    assert ERROR_PREFIX <= t <==> ERROR_BODY <= d by {
      if ERROR_BODY <= d { assert t[..|ERROR_PREFIX|] == ERROR_PREFIX; }
      if ERROR_PREFIX <= t { assert d[..|ERROR_BODY|] == t[6..|ERROR_PREFIX|] == ERROR_PREFIX[6..] == ERROR_BODY; }
    }
  }

  ghost predicate Blank(s: string) { forall i | 0 <= i < |s| :: IsSpace(s[i]) }

  lemma {:induction false} TrimRightPadded(s: string, right: string)
    requires Blank(right) && (s == "" || !IsSpace(s[|s| - 1]))
    ensures TrimRight(s + right) == s
    decreases |right|
  {
    if right == "" {
      assert s + right == s;
    } else {
      var shorter := right[..|right| - 1];
      assert (s + right)[..|s + right| - 1] == s + shorter && (s + right)[|s + right| - 1] == right[|right| - 1];
      TrimRightPadded(s, shorter);
    }
  }

  lemma {:induction false} TrimLeftPadded(left: string, s: string)
    requires Blank(left) && (s == "" || !IsSpace(s[0]))
    ensures TrimLeft(left + s) == s
    decreases |left|
  {
    if left == "" {
      assert left + s == s;
    } else {
      assert (left + s)[1..] == left[1..] + s && (left + s)[0] == left[0];
      TrimLeftPadded(left[1..], s);
    }
  }

  /** Blanks around a line do not matter. */
  lemma TrimPadded(left: string, d: string, right: string)
    requires Blank(left) && Blank(right) && (d == "" || Trimmed(d))
    ensures TrimSpace(left + d + right) == d
  {
    var s := left + d;
    if d == "" {
      TrimRightPadded("", left + right);
      assert left + d + right == "" + (left + right);
    } else {
      assert s[|s| - 1] == d[|d| - 1];
      TrimRightPadded(s, right);
      TrimLeftPadded(left, d);
    }
  }

  lemma {:induction false} ContainsIs(s: string, part: string)
    ensures Contains(s, part) <==> exists i :: 0 <= i <= |s| && part <= s[i..]
  {
    assert s[0..] == s;
    if s != "" {
      ContainsIs(s[1..], part);
      forall i | 0 < i <= |s| ensures s[1..][i - 1..] == s[i..] {}
      if j :| 0 <= j <= |s[1..]| && part <= s[1..][j..] { assert s[1..][j..] == s[j + 1..]; }
    }
  }

  /** The body holds the text that announces a usage. */
  ghost predicate MentionsTokens(d: string) { exists i :: 0 <= i <= |d| && "\"completion_tokens\":" <= d[i..] }

  /** What a line with a body means, blanks around it aside, in terms of the text and of what the JSON
      library makes of it. */
  lemma BodyReads(left: string, d: string, right: string, j: Json)
    requires Blank(left) && Blank(right) && d != "" && !IsSpace(d[|d| - 1])
    ensures var l := Classify(left + ("data: " + d) + right, j);
            && (l.ErrorLine? <==> "{\"error\":" <= d)
            && (l.DoneLine? <==> d == "[DONE]")
            && (Carries(l) <==> !("{\"error\":" <= d) && d != "[DONE]" && j.accepts(d) && (MentionsTokens(d) ==> j.usage(d).Found?))
            && (Carries(l) ==> l.body == d && (l.UsageLine? <==> MentionsTokens(d)))
            && (l.UsageLine? ==> l.usage == j.usage(d).usage)
            && !l.Ignored?
  {
    PaddedReads(left, d, right, j);
    ContainsIs(d, COMPLETION_TOKENS);
    hide Blank, TrimSpace, Contains, Classify;
  }

  lemma PaddedReads(left: string, d: string, right: string, j: Json)
    requires Blank(left) && Blank(right) && d != "" && !IsSpace(d[|d| - 1])
    ensures Classify(left + ("data: " + d) + right, j) == Reread(d, j)
  {
    var line := "data: " + d;
    assert line[|line| - 1] == d[|d| - 1];
    TrimPadded(left, line, right);
    TrimTrimmed(d);
    PrintedReads(d, j);
    hide TrimSpace, Reread;
  }

  /** Any other line, an empty one too, is passed over. */
  lemma OtherReads(left: string, t: string, right: string, j: Json)
    requires Blank(left) && Blank(right) && (t == "" || Trimmed(t)) && !("data: " <= t)
    ensures Classify(left + t + right, j).Ignored?
  {
    TrimPadded(left, t, right);
    hide TrimSpace;
    assert HEADER_DATA <= ERROR_PREFIX;
  }

  /** A payload that passes from gateway to gateway. */
  predicate Passes(d: string, j: Json) { Fits(d) && Carries(Reread(d, j)) }

  lemma {:induction false} PayloadsBack(ds: seq<string>, j: Json)
    requires forall d | d in ds :: Passes(d, j)
    ensures var lines := TextLines(ds + [DONE]);
            && StopAt(lines, j) == 2 * |ds| < |lines|
            && Classify(lines[2 * |ds|], j) == DoneLine
            && Payloads(lines[..2 * |ds|], j) == ds
  {
    hide Classify, StopAt;
    var lines := TextLines(ds + [DONE]);
    if ds == [] {
      assert lines[0] == "data: " + DONE;
      PrintedReads(DONE, j);
      StopsFirst(lines, j);
    } else {
      assert ds[0] in ds;
      assert (ds + [DONE])[1..] == ds[1..] + [DONE] && (ds + [DONE])[0] == ds[0];
      var rest := TextLines(ds[1..] + [DONE]);
      assert lines == ["data: " + ds[0], ""] + rest;
      PayloadsBack(ds[1..], j);
      PrintedReads(ds[0], j);
      StopsLater(ds[0], rest, j);
      PayloadsCons(ds[0], rest[..2 * |ds| - 2], j);
      assert lines[..2 * |ds|] == ["data: " + ds[0], ""] + rest[..2 * |ds| - 2];
    }
  }

  lemma StopsFirst(lines: seq<string>, j: Json)
    requires lines != [] && Stops(Classify(lines[0], j))
    ensures StopAt(lines, j) == 0
  {
  }

  lemma StopsLater(d: string, rest: seq<string>, j: Json)
    requires Carries(Classify("data: " + d, j)) && Classify("", j) == Ignored
    ensures StopAt(["data: " + d, ""] + rest, j) == 2 + StopAt(rest, j)
  {
  }

  lemma PayloadsCons(d: string, rest: seq<string>, j: Json)
    requires Classify("data: " + d, j) == Reread(d, j) && Carries(Reread(d, j)) && Classify("", j) == Ignored
    ensures Payloads(["data: " + d, ""] + rest, j) == [d] + Payloads(rest, j)
  {
    hide Classify;
    var lines := ["data: " + d, ""] + rest;
    assert lines[1..] == [""] + rest && lines[1..][1..] == rest && lines[1..][0] == "";
  }

  // ----- Chunks

  /** The bodies of the non-empty chunks that repeated calls of `NextChunk` deliver until one returns
      an error, and that last chunk and error. */
  function Delivered(s: Stream, j: Json, end: End): (seq<string>, Option<Chunk>, Err)
    decreases |s.input|
  {
    NextWrites(s, j, end);
    var (s1, chunk, err) := Next(s, j, end);
    if err != NoError then ([], chunk, err)
    else
      var (bodies, last, e) := Delivered(s1, j, end);
      ((if chunk.value.kind.EmptyKind? then [] else [chunk.value.body]) + bodies, last, e)
  }

  /** Calls of `NextChunk` deliver the payloads of the lines up to the one that stops the pump. */
  lemma {:induction false} DeliveredIs(s: Stream, j: Json, end: End)
    requires !s.hasErrorPrefix
    ensures var lines := Complete(s.input);
            var n, (bodies, last, err) := StopAt(lines, j), Delivered(s, j, end);
            && bodies == Payloads(lines[..n], j)
            && (n < |lines| && Classify(lines[n], j).DoneLine? ==> err == EOF && last.Some? && last.value.kind == DoneKind)
    decreases |s.input|
  {
    hide Classify, OnLine, Find, TrimSpace, Complete;
    CompleteCut(s.input);
    var lines, i := Complete(s.input), Find(s.input, '\n');
    if i < |s.input| {
      var s0 := s.(input := s.input[i + 1..]);
      LineOutcome(s0, lines[0], j);
      var s1 := Next(s, j, end).0;
      var rest, n := lines[1..], StopAt(lines, j);
      if n > 0 {
        DeliveredIs(s1, j, end);
        assert lines[..n][1..] == rest[..n - 1] && lines[..n][0] == lines[0];
        if n < |lines| { assert lines[n] == rest[n - 1]; }
      } else if Classify(lines[0], j).ErrorLine? {
        SilentAfterError(s1, j, end);
      }
    }
  }

  lemma {:induction false} SilentAfterError(s: Stream, j: Json, end: End)
    requires s.hasErrorPrefix
    ensures Delivered(s, j, end).0 == []
    decreases |s.input|
  {
    hide TrimSpace, Find, OnLine;
    NextWrites(s, j, end);
    if Next(s, j, end).2 == NoError { SilentAfterError(Next(s, j, end).0, j, end); }
  }

  lemma DoneFits()
    ensures Fits(DONE) && Fits(NULL)
  {
  }

  /** Gateway to gateway: payloads that pass, printed one event each and followed by [DONE], are
      delivered by the next gateway's `NextChunk` as exactly those chunks, in order, and then the
      done chunk with the end of the file. */
  lemma RoundTrip(ds: seq<string>, s: Stream, j: Json, end: End)
    requires forall d | d in ds :: Passes(d, j)
    requires s.input == Text(ds + [DONE]) && !s.hasErrorPrefix
    ensures var (bodies, last, err) := Delivered(s, j, end);
            bodies == ds && err == EOF && last.Some? && last.value.kind == DoneKind
  {
    DoneFits();
    assert forall d | d in ds :: Fits(d);
    hide Fits, TextLines, Text, Payloads, StopAt, Classify, Delivered, Complete, Carries, Reread;
    assert forall d | d in ds + [DONE] :: Fits(d);
    TextIs(ds + [DONE]);
    CompleteUnlines(TextLines(ds + [DONE]));
    PayloadsBack(ds, j);
    DeliveredIs(s, j, end);
  }

  // ----- The pump behind a pump

  /** What the second pump writes for the printed data `ds`. */
  function Again(ds: seq<string>, j: Json): seq<string> {
    if ds == [] then [NULL]
    else match Reread(ds[0], j)
      case DoneLine => [DONE]
      case BadLine => []
      case DataLine(_) => [j.render(ds[0])] + Again(ds[1..], j)
      case UsageLine(_, _) => [j.render(ds[0])] + Again(ds[1..], j)
      case _ => [NULL]
  }

  lemma {:induction false} SecondPump(ds: seq<string>, j: Json)
    requires forall d | d in ds :: Trimmed(d)
    ensures Output(TextLines(ds), false, j, EndOfFile) == Again(ds, j)
  {
    hide Classify;
    if ds != [] {
      assert ds[0] in ds;
      SecondPump(ds[1..], j);
      PrintedReads(ds[0], j);
      var lines, rest := TextLines(ds), TextLines(ds[1..]);
      assert lines[0] == "data: " + ds[0] && lines[1..] == [""] + rest;
      assert lines[1..][0] == "" && lines[1..][1..] == rest;
      AfterError(lines[1..], j, EndOfFile);
    }
  }

  /** What the first pump can write: accepted, rendered bodies, with [DONE] at most at the end. */
  ghost predicate PumpShaped(ds: seq<string>, j: Json) {
    forall i | 0 <= i < |ds| :: Rendered(ds[i], j) || (ds[i] == DONE && i == |ds| - 1)
  }

  /** A body that marshalling leaves as it is. */
  predicate Rendered(d: string, j: Json) { Fits(d) && j.accepts(d) && j.render(d) == d && d != DONE }

  lemma RenderIsRendered(b: string, j: Json)
    requires Lawful(j) && j.accepts(b)
    ensures Rendered(j.render(b), j)
  {
  }

  lemma NullIsRendered(j: Json)
    requires Lawful(j)
    ensures Rendered(NULL, j)
  {
  }

  predicate EndsWithDone(ds: seq<string>) { ds != [] && ds[|ds| - 1] == DONE }

  lemma {:induction false} AgainSame(ds: seq<string>, j: Json)
    requires PumpShaped(ds, j)
    ensures Again(ds, j) == ds <==> EndsWithDone(ds) && forall i | 0 <= i < |ds| - 1 :: Carries(Reread(ds[i], j))
  {
    if ds != [] {
      var rest := ds[1..];
      assert ds == [ds[0]] + rest;
      assert forall i | 0 <= i < |rest| :: rest[i] == ds[i + 1];
      AgainSame(rest, j);
      NotNull(ds[0]);
    }
  }

  lemma NotNull(d: string)
    ensures ERROR_BODY <= d ==> d != NULL && d != DONE
  {
  }

  lemma OutputShaped(lines: seq<string>, j: Json, end: End)
    requires Lawful(j)
    ensures PumpShaped(Output(lines, false, j, end), j)
  {
    OutputIs(lines, j, end);
    var n := StopAt(lines, j);
    var ps := Payloads(lines[..n], j);
    PayloadsAccepted(lines[..n], j);
    var out := Output(lines, false, j, end);
    assert out == RenderAll(ps, j) + Terminal(lines, n, j, end);
    NullIsRendered(j);
    hide Classify, Output, Payloads, StopAt, RenderAll, Rendered, Lawful;
    forall i | 0 <= i < |out|
      ensures Rendered(out[i], j) || (out[i] == DONE && i == |out| - 1)
    {
      if i < |ps| {
        assert ps[i] in ps && out[i] == j.render(ps[i]);
        RenderIsRendered(ps[i], j);
      }
    }
  }

  /** The first gateway's upstream reads through: its lines run up to [DONE], and every payload before
      it, as it is rendered, reads back as data: none begins like an error, and none carries usage in
      a form the reader rejects. */
  ghost predicate ReadsThrough(lines: seq<string>, j: Json) {
    var n := StopAt(lines, j);
    && n < |lines| && Classify(lines[n], j).DoneLine?
    && forall b | b in Payloads(lines[..n], j) :: Carries(Reread(j.render(b), j))
  }

  lemma OutputEnds(lines: seq<string>, j: Json, end: End)
    requires Lawful(j)
    ensures var out, n := Output(lines, false, j, end), StopAt(lines, j);
            && (EndsWithDone(out) <==> n < |lines| && Classify(lines[n], j).DoneLine?)
            && (EndsWithDone(out) ==> out == RenderAll(Payloads(lines[..n], j), j) + [DONE])
  {
    OutputIs(lines, j, end);
    var out, n := Output(lines, false, j, end), StopAt(lines, j);
    if EndsWithDone(out) { DoneIsLast(lines, j, end, |out| - 1); }
  }

  /** A second gateway forwards what the first one wrote unchanged, exactly when the first one's
      upstream reads through. */
  lemma ChainTransparent(lines: seq<string>, j: Json, end: End)
    requires Lawful(j)
    ensures var out := Output(lines, false, j, end);
            Output(Complete(Text(out)), false, j, EndOfFile) == out <==> ReadsThrough(lines, j)
  {
    var out, n := Output(lines, false, j, end), StopAt(lines, j);
    OutputEnds(lines, j, end);
    OutputShaped(lines, j, end);
    SecondWrites(out, j);
    hide Classify, Output, Payloads, StopAt, Lawful, Reread, Carries, Again, Complete, Text, PumpShaped;
    AgainSame(out, j);
    if EndsWithDone(out) { RenderedCarry(Payloads(lines[..n], j), j); }
  }

  lemma RenderedCarry(ps: seq<string>, j: Json)
    ensures var out := RenderAll(ps, j) + [DONE];
            (forall i | 0 <= i < |out| - 1 :: Carries(Reread(out[i], j)))
            <==> forall b | b in ps :: Carries(Reread(j.render(b), j))
  {
    hide Reread, Carries, RenderAll;
    var out := RenderAll(ps, j) + [DONE];
    assert forall i | 0 <= i < |ps| :: out[i] == j.render(ps[i]);
    if forall b | b in ps :: Carries(Reread(j.render(b), j)) {
      forall i | 0 <= i < |out| - 1 ensures Carries(Reread(out[i], j)) { assert ps[i] in ps; }
    }
    if forall i | 0 <= i < |out| - 1 :: Carries(Reread(out[i], j)) {
      forall b | b in ps ensures Carries(Reread(j.render(b), j)) {
        var i :| 0 <= i < |ps| && ps[i] == b;
        assert Carries(Reread(out[i], j));
      }
    }
  }

  lemma SecondWrites(out: seq<string>, j: Json)
    requires PumpShaped(out, j)
    ensures Output(Complete(Text(out)), false, j, EndOfFile) == Again(out, j)
  {
    DoneFits();
    assert forall d | d in out :: Fits(d);
    TextIs(out);
    CompleteUnlines(TextLines(out));
    SecondPump(out, j);
  }
}
