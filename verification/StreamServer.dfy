/**
 * What the daemon's HTTP layer writes for a streamed answer, and that the clients read back
 * exactly the tokens it was given. JSON serialisation is a parameter.
 */
module StreamServer {
  import opened Collections
  import opened Options
  import opened Stream

  // ----- Newline-delimited JSON -----

  function EncodedLine<R>(c: Chunk<R>, encode: Chunk<R> -> Option<string>): seq<string> {
    var line := encode(c);
    if line.Some? then [line.value] else []
  }

  function TokenLines<R>(tokens: seq<string>, encode: Chunk<R> -> Option<string>): seq<string>
    decreases |tokens|
  {
    if tokens == [] then []
    else
      TokenLines(tokens[..|tokens| - 1], encode)
      + EncodedLine(Chunk(tokens[|tokens| - 1], None, false), encode)
  }

  function NdjsonLines<R>(tokens: seq<string>, receipt: Option<R>, encode: Chunk<R> -> Option<string>): seq<string> {
    TokenLines(tokens, encode) + EncodedLine(Chunk("", receipt, true), encode)
  }

  lemma PushLine(lines: seq<string>, spec: seq<string>, line: string)
    requires Flatten(lines) == Terminated(spec)
    ensures Flatten(lines + [line + "\n"]) == Terminated(spec + [line])
  {
    TerminatedAppend(spec, line);
    FlattenAppend(lines, line + "\n");
    assert Terminated(spec) + (line + "\n") == Terminated(spec) + line + "\n";
  }

  method PushEncoded<R>(lines: seq<string>, ghost spec: seq<string>, c: Chunk<R>, encode: Chunk<R> -> Option<string>)
    returns (longer: seq<string>)
    requires Flatten(lines) == Terminated(spec)
    ensures Flatten(longer) == Terminated(spec + EncodedLine(c, encode))
  {
    var line := encode(c);
    if line.Some? {
      PushLine(lines, spec, line.value);
      longer := lines + [line.value + "\n"];
    } else {
      longer := lines;
      assert spec + EncodedLine(c, encode) == spec;
    }
  }

  /** A line a chunk: the tokens in order, none of them final, and the final one with the receipt. */
  ghost predicate IsAnswer<R>(chunks: seq<Chunk<R>>, tokens: seq<string>, receipt: Option<R>) {
    && |chunks| == |tokens| + 1
    && (forall i :: 0 <= i < |tokens| ==> chunks[i] == Chunk(tokens[i], None, false))
    && chunks[|tokens|] == Chunk("", receipt, true)
  }

  function TokenChunks<R>(tokens: seq<string>): (chunks: seq<Chunk<R>>)
    ensures |chunks| == |tokens|
    ensures forall i :: 0 <= i < |tokens| ==> chunks[i] == Chunk(tokens[i], None, false)
  {
    if tokens == [] then [] else TokenChunks(tokens[..|tokens| - 1]) + [Chunk(tokens[|tokens| - 1], None, false)]
  }

  function AnswerChunks<R>(tokens: seq<string>, receipt: Option<R>): (chunks: seq<Chunk<R>>)
    ensures IsAnswer(chunks, tokens, receipt)
  {
    TokenChunks(tokens) + [Chunk("", receipt, true)]
  }

  /** What each chunk adds to the text: its JSON and a newline, nothing if it cannot be encoded. */
  function LineTexts<R>(chunks: seq<Chunk<R>>, encode: Chunk<R> -> Option<string>): (texts: seq<string>)
    ensures |texts| == |chunks|
    ensures forall i :: 0 <= i < |chunks| ==>
      texts[i] == if encode(chunks[i]).Some? then encode(chunks[i]).value + "\n" else ""
  {
    if chunks == [] then []
    else
      var json := encode(chunks[|chunks| - 1]);
      LineTexts(chunks[..|chunks| - 1], encode) + [if json.Some? then json.value + "\n" else ""]
  }

  lemma LineTextsStep<R>(chunks: seq<Chunk<R>>, c: Chunk<R>, lines: seq<string>, encode: Chunk<R> -> Option<string>)
    requires Flatten(LineTexts(chunks, encode)) == Terminated(lines)
    ensures Flatten(LineTexts(chunks + [c], encode)) == Terminated(lines + EncodedLine(c, encode))
  {
    assert (chunks + [c])[..|chunks|] == chunks;
    var json := encode(c);
    FlattenAppend(LineTexts(chunks, encode), if json.Some? then json.value + "\n" else "");
    if json.Some? {
      TerminatedAppend(lines, json.value);
      ConcatAssociates(Terminated(lines), json.value, "\n");
    } else {
      assert lines + EncodedLine(c, encode) == lines;
    }
  }

  lemma {:induction false} TokenTexts<R>(tokens: seq<string>, encode: Chunk<R> -> Option<string>)
    ensures Flatten(LineTexts(TokenChunks(tokens), encode)) == Terminated(TokenLines(tokens, encode))
    decreases |tokens|
  {
    if tokens != [] {
      var front, c: Chunk<R> := tokens[..|tokens| - 1], Chunk(tokens[|tokens| - 1], None, false);
      TokenTexts(front, encode);
      LineTextsStep(TokenChunks(front), c, TokenLines(front, encode), encode);
    }
  }

  /** The text of an answer, chunk by chunk. */
  lemma NdjsonText<R>(tokens: seq<string>, receipt: Option<R>, encode: Chunk<R> -> Option<string>)
    ensures Terminated(NdjsonLines(tokens, receipt, encode)) == Flatten(LineTexts(AnswerChunks(tokens, receipt), encode))
  {
    TokenTexts(tokens, encode);
    LineTextsStep(TokenChunks(tokens), Chunk("", receipt, true), TokenLines(tokens, encode), encode);
  }

  /** `ndjson_body`: every line is given its newline, and the lines are joined at the end. */
  method NdjsonBody<R>(tokens: seq<string>, receipt: Option<R>, encode: Chunk<R> -> Option<string>)
    returns (body: string)
    ensures body == Terminated(NdjsonLines(tokens, receipt, encode))
    ensures body == Flatten(LineTexts(AnswerChunks(tokens, receipt), encode))
  {
    var lines: seq<string> := [];
    for i := 0 to |tokens|
      invariant Flatten(lines) == Terminated(TokenLines(tokens[..i], encode))
    {
      assert tokens[..i + 1][..i] == tokens[..i];
      lines := PushEncoded(lines, TokenLines(tokens[..i], encode), Chunk(tokens[i], None, false), encode);
    }
    assert tokens[..|tokens|] == tokens;
    lines := PushEncoded(lines, TokenLines(tokens, encode), Chunk("", receipt, true), encode);
    body := Flatten(lines);
    NdjsonText(tokens, receipt, encode);
  }

  ghost predicate EncodesAs<R>(c: Chunk<R>, line: Option<string>, p: Protocol<R>)
    requires p.Ndjson?
  {
    line.Some? && IsLine(line.value) && p.React(line.value) == Reaction(Yields(c, p.receipts), c.isFinal)
  }

  /** The codec writes one visible line for every chunk, and parsing gives the chunk back. */
  ghost predicate FaithfulNdjson<R(!new)>(encode: Chunk<R> -> Option<string>, p: Protocol<R>) {
    p.Ndjson? && forall c :: EncodesAs(c, encode(c), p)
  }

  /** A line that is not blank and parses back is encoded faithfully, whatever the client. */
  lemma ParsesBack<R>(c: Chunk<R>, line: string, p: Protocol<R>)
    requires p.Ndjson? && IsLine(line) && !IsBlank(line, p.space) && p.parseChunk(line) == Some(c)
    ensures EncodesAs(c, Some(line), p)
  {
  }

  /** The tokens a client is to see, in order; an empty token is no event. */
  function TokenEvents<R>(tokens: seq<string>): seq<Event<R>>
    decreases |tokens|
  {
    if tokens == [] then []
    else
      TokenEvents(tokens[..|tokens| - 1])
      + if tokens[|tokens| - 1] != "" then [Token(tokens[|tokens| - 1])] else []
  }

  lemma ChunkYields<R>(lines: seq<string>, c: Chunk<R>, line: string, p: Protocol<R>)
    requires p.Ndjson? && EncodesAs(c, Some(line), p) && AreLines(lines) && !Stops(lines, p)
    ensures AreLines(lines + [line]) && (Stops(lines + [line], p) <==> c.isFinal)
    ensures Events(lines + [line], p) == Events(lines, p) + Yields(c, p.receipts)
  {
    EventsStep(lines, line, p);
  }

  lemma {:induction false} TokenLinesYield<R(!new)>(tokens: seq<string>, encode: Chunk<R> -> Option<string>, p: Protocol<R>)
    requires FaithfulNdjson(encode, p)
    ensures var lines := TokenLines(tokens, encode);
      AreLines(lines) && !Stops(lines, p) && Events(lines, p) == TokenEvents(tokens)
    decreases |tokens|
  {
    if tokens != [] {
      var front := tokens[..|tokens| - 1];
      var c: Chunk<R> := Chunk(tokens[|tokens| - 1], None, false);
      TokenLinesYield(front, encode, p);
      assert EncodesAs(c, encode(c), p);
      ChunkYields(TokenLines(front, encode), c, encode(c).value, p);
    }
  }

  lemma NdjsonLinesYield<R(!new)>(tokens: seq<string>, receipt: Option<R>, encode: Chunk<R> -> Option<string>, p: Protocol<R>)
    requires FaithfulNdjson(encode, p)
    ensures var lines := NdjsonLines(tokens, receipt, encode);
      && AreLines(lines) && Stops(lines, p)
      && Events(lines, p) == TokenEvents(tokens) + Yields(Chunk("", receipt, true), p.receipts)
  {
    var c := Chunk("", receipt, true);
    TokenLinesYield(tokens, encode, p);
    assert EncodesAs(c, encode(c), p);
    ChunkYields(TokenLines(tokens, encode), c, encode(c).value, p);
  }

  lemma LinesFollowedBy<R>(lines: seq<string>, rest: string, p: Protocol<R>)
    requires AreLines(lines) && Stops(lines, p)
    ensures Events(Lines(Terminated(lines) + rest), p) == Events(lines, p)
  {
    LinesTerminated(lines);
    SplitResumes(Terminated(lines), rest);
    EventsIgnoreRest(lines, Lines("" + rest), p);
  }

  /**
   * From the daemon's tokens to the client's: whatever the network cuts the answer into,
   * whatever lines that are blank or do not parse stand among those of the answer, and whatever
   * follows it, the client yields the non-empty tokens in order and then the receipt.
   */
  lemma NdjsonDelivers<R(!new)>(tokens: seq<string>, receipt: Option<R>, encode: Chunk<R> -> Option<string>,
                                lines: seq<string>, pieces: seq<string>, rest: string, p: Protocol<R>)
    requires FaithfulNdjson(encode, p)
    requires AreLines(lines) && WithJunk(lines, NdjsonLines(tokens, receipt, encode), p)
    requires Flatten(pieces) == Terminated(lines) + rest
    ensures Events(Lines(Flatten(pieces)), p)
         == TokenEvents(tokens) + (if p.receipts && receipt.Some? then [Receipt(receipt.value)] else [])
  {
    NdjsonLinesYield(tokens, receipt, encode, p);
    JunkChangesNothing(lines, NdjsonLines(tokens, receipt, encode), p);
    LinesFollowedBy(lines, rest, p);
  }

  /** In particular the daemon's own text, with nothing among its lines. */
  lemma NdjsonAnswerDelivers<R(!new)>(tokens: seq<string>, receipt: Option<R>, encode: Chunk<R> -> Option<string>,
                                      pieces: seq<string>, p: Protocol<R>)
    requires FaithfulNdjson(encode, p)
    requires Flatten(pieces) == Terminated(NdjsonLines(tokens, receipt, encode))
    ensures Events(Lines(Flatten(pieces)), p)
         == TokenEvents(tokens) + (if p.receipts && receipt.Some? then [Receipt(receipt.value)] else [])
  {
    var lines := NdjsonLines(tokens, receipt, encode);
    NdjsonLinesYield(tokens, receipt, encode, p);
    WithoutJunk(lines, p);
    assert Terminated(lines) + "" == Terminated(lines);
    NdjsonDelivers(tokens, receipt, encode, lines, pieces, "", p);
  }

  /** A connection that breaks off loses events at the end only. */
  lemma BrokenConnection<R(!new)>(tokens: seq<string>, receipt: Option<R>, encode: Chunk<R> -> Option<string>,
                                  lines: seq<string>, pieces: seq<string>, lost: string, p: Protocol<R>)
    requires FaithfulNdjson(encode, p)
    requires AreLines(lines) && WithJunk(lines, NdjsonLines(tokens, receipt, encode), p)
    requires Flatten(pieces) + lost == Terminated(lines)
    ensures Events(Lines(Flatten(pieces)), p)
         <= TokenEvents(tokens) + (if p.receipts && receipt.Some? then [Receipt(receipt.value)] else [])
  {
    var text := Flatten(pieces) + lost;
    assert Flatten([text]) == text + "" == text;
    NdjsonDelivers(tokens, receipt, encode, lines, [text], "", p);
    YieldedSoFar(Flatten(pieces), lost, p);
  }

  // ----- Server-sent events -----

  /** One chunk: the role in the first, the text of a token, or the finish reason in the last. */
  datatype Delta = Role | Text(text: string) | Stop

  /** An event is its `data:` line and a blank line. */
  function SseEvent(data: string): string {
    "data: " + data + "\n\n"
  }

  function SseLines(data: string): seq<string> {
    ["data: " + data, ""]
  }

  function DeltaLines(deltas: seq<Delta>, encode: Delta -> Option<string>): seq<string>
    decreases |deltas|
  {
    if deltas == [] then []
    else
      var line := encode(deltas[|deltas| - 1]);
      DeltaLines(deltas[..|deltas| - 1], encode) + if line.Some? then SseLines(line.value) else []
  }

  function Texts(tokens: seq<string>): seq<Delta>
    decreases |tokens|
  {
    if tokens == [] then [] else Texts(tokens[..|tokens| - 1]) + [Text(tokens[|tokens| - 1])]
  }

  function Deltas(tokens: seq<string>): seq<Delta> {
    [Role] + Texts(tokens) + [Stop]
  }

  lemma SseEventIsTwoLines(lines: seq<string>, data: string)
    ensures Terminated(lines + SseLines(data)) == Terminated(lines) + SseEvent(data)
  {
    var line := "data: " + data;
    TerminatedAppend(lines, line);
    TerminatedAppend(lines + [line], "");
    assert lines + SseLines(data) == lines + [line] + [""];
    assert Terminated(lines) + line + "\n" + "" + "\n" == Terminated(lines) + (line + "\n\n");
  }

  /** Which chunks an answer consists of: the role, the tokens in order, the finish reason. */
  predicate IsChat(deltas: seq<Delta>, tokens: seq<string>) {
    && |deltas| == |tokens| + 2
    && deltas[0] == Role
    && (forall i :: 0 <= i < |tokens| ==> deltas[i + 1] == Text(tokens[i]))
    && deltas[|tokens| + 1] == Stop
  }

  lemma {:induction false} DeltasAreChat(tokens: seq<string>)
    ensures IsChat(Deltas(tokens), tokens)
    decreases |tokens|
  {
    if tokens != [] {
      var front := tokens[..|tokens| - 1];
      DeltasAreChat(front);
      var d, e := Deltas(tokens), Deltas(front);
      assert d == e[..|front| + 1] + [Text(tokens[|front|]), Stop];
      assert forall i :: 0 <= i < |front| ==> d[i + 1] == e[i + 1] == Text(front[i]);
    }
  }

  /** What each chunk adds to the text: one event, nothing if it cannot be encoded. */
  function EventTexts(deltas: seq<Delta>, encode: Delta -> Option<string>): (texts: seq<string>)
    ensures |texts| == |deltas|
    ensures forall i :: 0 <= i < |deltas| ==>
      texts[i] == if encode(deltas[i]).Some? then "data: " + encode(deltas[i]).value + "\n\n" else ""
  {
    if deltas == [] then []
    else
      var json := encode(deltas[|deltas| - 1]);
      EventTexts(deltas[..|deltas| - 1], encode) + [if json.Some? then "data: " + json.value + "\n\n" else ""]
  }

  lemma {:induction false} DeltaTexts(deltas: seq<Delta>, encode: Delta -> Option<string>)
    ensures Flatten(EventTexts(deltas, encode)) == Terminated(DeltaLines(deltas, encode))
    decreases |deltas|
  {
    if deltas != [] {
      var front, json := deltas[..|deltas| - 1], encode(deltas[|deltas| - 1]);
      DeltaTexts(front, encode);
      FlattenAppend(EventTexts(front, encode), if json.Some? then "data: " + json.value + "\n\n" else "");
      if json.Some? {
        SseEventIsTwoLines(DeltaLines(front, encode), json.value);
      } else {
        assert DeltaLines(deltas, encode) == DeltaLines(front, encode);
      }
    }
  }

  lemma EndMarker()
    ensures SseEvent("[DONE]") == "data: [DONE]\n\n"
  {
  }

  lemma TextWithEnd(deltas: seq<Delta>, encode: Delta -> Option<string>)
    ensures Terminated(DeltaLines(deltas, encode) + SseLines("[DONE]"))
         == Flatten(EventTexts(deltas, encode) + ["data: [DONE]\n\n"])
  {
    DeltaTexts(deltas, encode);
    SseEventIsTwoLines(DeltaLines(deltas, encode), "[DONE]");
    EndMarker();
    FlattenAppend(EventTexts(deltas, encode), "data: [DONE]\n\n");
  }

  /** The text of an answer: the events of its chunks, then the end marker's. */
  lemma SseText(tokens: seq<string>, encode: Delta -> Option<string>)
    ensures IsChat(Deltas(tokens), tokens)
    ensures Terminated(DeltaLines(Deltas(tokens), encode) + SseLines("[DONE]"))
         == Flatten(EventTexts(Deltas(tokens), encode) + ["data: [DONE]\n\n"])
  {
    DeltasAreChat(tokens);
    TextWithEnd(Deltas(tokens), encode);
  }

  lemma TextsStep(tokens: seq<string>, i: nat)
    requires i < |tokens|
    ensures [Role] + Texts(tokens[..i + 1]) == ([Role] + Texts(tokens[..i])) + [Text(tokens[i])]
  {
    assert tokens[..i + 1][..i] == tokens[..i];
  }

  method Append(sse: string, ghost before: seq<Delta>, delta: Delta, encode: Delta -> Option<string>)
    returns (longer: string)
    requires sse == Terminated(DeltaLines(before, encode))
    ensures longer == Terminated(DeltaLines(before + [delta], encode))
  {
    assert (before + [delta])[..|before|] == before;
    longer := sse;
    var line := encode(delta);
    if line.Some? {
      SseEventIsTwoLines(DeltaLines(before, encode), line.value);
      longer := longer + SseEvent(line.value);
    } else {
      assert DeltaLines(before, encode) + [] == DeltaLines(before, encode);
    }
  }

  /** The streaming branch of the chat handler. */
  method SseBody(tokens: seq<string>, encode: Delta -> Option<string>) returns (sse: string)
    ensures sse == Terminated(DeltaLines(Deltas(tokens), encode) + SseLines("[DONE]"))
    ensures IsChat(Deltas(tokens), tokens)
    ensures sse == Flatten(EventTexts(Deltas(tokens), encode) + ["data: [DONE]\n\n"])
  {
    ghost var before: seq<Delta> := [];
    sse := "";
    sse := Append(sse, before, Role, encode);
    for i := 0 to |tokens|
      invariant sse == Terminated(DeltaLines([Role] + Texts(tokens[..i]), encode))
    {
      TextsStep(tokens, i);
      sse := Append(sse, [Role] + Texts(tokens[..i]), Text(tokens[i]), encode);
    }
    assert tokens[..|tokens|] == tokens;
    sse := Append(sse, [Role] + Texts(tokens), Stop, encode);
    SseEventIsTwoLines(DeltaLines(Deltas(tokens), encode), "[DONE]");
    sse := sse + SseEvent("[DONE]");
    SseText(tokens, encode);
  }

  function Content(d: Delta): string {
    if d.Text? then d.text else ""
  }

  /** JSON text is one line without white space at its ends, and is not the end marker. */
  predicate EncodesDelta(d: Delta, text: Option<string>, space: char -> bool, parse: string -> Option<string>) {
    && text.Some?
    && IsLine(text.value)
    && text.value != "" && !space(text.value[0]) && !space(text.value[|text.value| - 1])
    && text.value != "[DONE]"
    && parse(text.value) == Some(Content(d))
  }

  ghost predicate FaithfulSse<R>(encode: Delta -> Option<string>, p: Protocol<R>) {
    && p.Sse?
    && p.space(' ') && !p.space('d') && !p.space('[') && !p.space(']')
    && forall d :: EncodesDelta(d, encode(d), p.space, p.parseDelta)
  }

  lemma TrimVisible(s: string, space: char -> bool)
    requires s != "" && !space(s[0]) && !space(s[|s| - 1])
    ensures Trim(s, space) == s
    ensures space(' ') ==> Trim(" " + s, space) == s
  {
    assert (" " + s)[1..] == s;
  }

  lemma DataLine<R>(data: string, p: Protocol<R>)
    requires p.Sse? && p.space(' ') && !p.space('d')
    requires data != "" && !p.space(data[0]) && !p.space(data[|data| - 1])
    ensures p.React("") == Reaction([], false)
    ensures var r := p.React("data: " + data);
      if data == "[DONE]" then r == Reaction([], true)
      else match p.parseDelta(data)
        case None => r == Reaction([], false)
        case Some(content) => r == Reaction(if content != "" then [Token(content)] else [], false)
  {
    var line := "data: " + data;
    assert line[0] == 'd' && line[|line| - 1] == data[|data| - 1];
    TrimVisible(line, p.space);
    assert line[..5] == "data:";
    assert line[5..] == " " + data;
    TrimVisible(data, p.space);
  }

  lemma SsePairYields<R>(lines: seq<string>, data: string, p: Protocol<R>)
    requires p.Sse? && p.space(' ') && !p.space('d')
    requires data != "" && !p.space(data[0]) && !p.space(data[|data| - 1])
    requires !Stops(lines, p)
    ensures Stops(lines + SseLines(data), p) <==> data == "[DONE]"
    ensures Events(lines + SseLines(data), p) == Events(lines, p) + p.React("data: " + data).events
  {
    var line := "data: " + data;
    DataLine(data, p);
    EventsStep(lines, line, p);
    assert lines + SseLines(data) == (lines + [line]) + [""];
    if data == "[DONE]" {
      EventsIgnoreRest(lines + [line], [""], p);
    } else {
      EventsStep(lines + [line], "", p);
    }
  }

  /** The texts of the deltas, where there is one that is not empty. */
  function DeltaEvents<R>(deltas: seq<Delta>): seq<Event<R>>
    decreases |deltas|
  {
    if deltas == [] then []
    else
      var content := Content(deltas[|deltas| - 1]);
      DeltaEvents(deltas[..|deltas| - 1]) + if content != "" then [Token(content)] else []
  }

  lemma DeltaYields<R>(lines: seq<string>, d: Delta, data: string, p: Protocol<R>)
    requires p.Sse? && p.space(' ') && !p.space('d') && EncodesDelta(d, Some(data), p.space, p.parseDelta)
    requires AreLines(lines) && !Stops(lines, p)
    ensures var more := lines + SseLines(data);
      && AreLines(more) && !Stops(more, p)
      && Events(more, p) == Events(lines, p) + if Content(d) != "" then [Token(Content(d))] else []
  {
    SsePairYields(lines, data, p);
    DataLine(data, p);
  }

  lemma {:induction false} DeltaLinesYield<R>(deltas: seq<Delta>, encode: Delta -> Option<string>, p: Protocol<R>)
    requires FaithfulSse(encode, p)
    ensures var lines := DeltaLines(deltas, encode);
      AreLines(lines) && !Stops(lines, p) && Events(lines, p) == DeltaEvents(deltas)
    decreases |deltas|
  {
    if deltas != [] {
      var front, d := deltas[..|deltas| - 1], deltas[|deltas| - 1];
      DeltaLinesYield(front, encode, p);
      assert EncodesDelta(d, encode(d), p.space, p.parseDelta);
      DeltaYields(DeltaLines(front, encode), d, encode(d).value, p);
    }
  }

  lemma DeltaEventsStep<R>(deltas: seq<Delta>, d: Delta)
    ensures DeltaEvents<R>(deltas + [d])
         == DeltaEvents<R>(deltas) + if Content(d) != "" then [Token(Content(d))] else []
  {
    assert (deltas + [d])[..|deltas|] == deltas;
  }

  lemma {:induction false} TextEventsAreTokens<R>(tokens: seq<string>)
    ensures DeltaEvents<R>([Role] + Texts(tokens)) == TokenEvents<R>(tokens)
    decreases |tokens|
  {
    if tokens == [] {
      DeltaEventsStep<R>([], Role);
      assert [Role] + Texts(tokens) == [] + [Role];
    } else {
      var front, last := tokens[..|tokens| - 1], tokens[|tokens| - 1];
      TextEventsAreTokens<R>(front);
      DeltaEventsStep<R>([Role] + Texts(front), Text(last));
      ConcatAssociates([Role], Texts(front), [Text(last)]);
    }
  }

  lemma DeltaEventsAreTokens<R>(tokens: seq<string>)
    ensures DeltaEvents<R>(Deltas(tokens)) == TokenEvents<R>(tokens)
  {
    TextEventsAreTokens<R>(tokens);
    DeltaEventsStep<R>([Role] + Texts(tokens), Stop);
  }

  lemma DoneYieldsNothing<R>(p: Protocol<R>)
    requires p.Sse? && p.space(' ') && !p.space('d') && !p.space('[') && !p.space(']')
    ensures p.React("data: " + "[DONE]").events == []
  {
    var done := "[DONE]";
    assert done[0] == '[' && done[|done| - 1] == ']';
    DataLine(done, p);
  }

  lemma LinesAppendPair(lines: seq<string>, data: string)
    requires AreLines(lines) && IsLine(data)
    ensures AreLines(lines + SseLines(data))
  {
  }

  lemma DoneEndsStream<R>(lines: seq<string>, p: Protocol<R>)
    requires p.Sse? && p.space(' ') && !p.space('d') && !p.space('[') && !p.space(']')
    requires AreLines(lines) && !Stops(lines, p)
    ensures var all := lines + SseLines("[DONE]");
      AreLines(all) && Stops(all, p) && Events(all, p) == Events(lines, p)
  {
    var done := "[DONE]";
    assert done[0] == '[' && done[|done| - 1] == ']';
    SsePairYields(lines, done, p);
    DoneYieldsNothing(p);
    LinesAppendPair(lines, done);
    assert Events(lines, p) + [] == Events(lines, p);
  }

  /** The same delivery for server-sent events, ended by the `[DONE]` line, whatever junk stands among them. */
  lemma SseDelivers<R>(tokens: seq<string>, encode: Delta -> Option<string>,
                       lines: seq<string>, pieces: seq<string>, rest: string, p: Protocol<R>)
    requires FaithfulSse(encode, p)
    requires AreLines(lines) && WithJunk(lines, DeltaLines(Deltas(tokens), encode) + SseLines("[DONE]"), p)
    requires Flatten(pieces) == Terminated(lines) + rest
    ensures Events(Lines(Flatten(pieces)), p) == TokenEvents(tokens)
  {
    var own := DeltaLines(Deltas(tokens), encode);
    DeltaLinesYield(Deltas(tokens), encode, p);
    DeltaEventsAreTokens<R>(tokens);
    DoneEndsStream(own, p);
    JunkChangesNothing(lines, own + SseLines("[DONE]"), p);
    LinesFollowedBy(lines, rest, p);
  }

  /** In particular the daemon's own text, with nothing among its lines. */
  lemma SseAnswerDelivers<R>(tokens: seq<string>, encode: Delta -> Option<string>,
                             pieces: seq<string>, p: Protocol<R>)
    requires FaithfulSse(encode, p)
    requires Flatten(pieces) == Terminated(DeltaLines(Deltas(tokens), encode) + SseLines("[DONE]"))
    ensures Events(Lines(Flatten(pieces)), p) == TokenEvents(tokens)
  {
    var lines := DeltaLines(Deltas(tokens), encode) + SseLines("[DONE]");
    DeltaLinesYield(Deltas(tokens), encode, p);
    DoneEndsStream(DeltaLines(Deltas(tokens), encode), p);
    WithoutJunk(lines, p);
    assert Terminated(lines) + "" == Terminated(lines);
    SseDelivers(tokens, encode, lines, pieces, "", p);
  }
}
