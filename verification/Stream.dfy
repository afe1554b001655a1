/**
 * The streaming clients. Text arrives cut into arbitrary pieces; a buffer puts the lines back
 * together, and each complete line is handled as soon as its newline has arrived. JSON parsing
 * and the white space of `trim` are parameters.
 */
module Stream {
  import opened Collections
  import opened Options

  datatype Chunk<R> = Chunk(token: string, receipt: Option<R>, isFinal: bool)

  datatype Event<R> = Token(text: string) | Receipt(receipt: R)

  datatype Reaction<R> = Reaction(events: seq<Event<R>>, stop: bool)

  // ----- One line -----

  predicate IsBlank(s: string, space: char -> bool) {
    forall i :: 0 <= i < |s| ==> space(s[i])
  }

  function TrimStart(s: string, space: char -> bool): string
    decreases |s|
  {
    if s != "" && space(s[0]) then TrimStart(s[1..], space) else s
  }

  function TrimEnd(s: string, space: char -> bool): string
    decreases |s|
  {
    if s != "" && space(s[|s| - 1]) then TrimEnd(s[..|s| - 1], space) else s
  }

  function Trim(s: string, space: char -> bool): string {
    TrimEnd(TrimStart(s, space), space)
  }

  lemma {:induction false} TrimStartCuts(s: string, space: char -> bool)
    ensures var t := TrimStart(s, space);
      && |t| <= |s| && t == s[|s| - |t|..] && IsBlank(s[..|s| - |t|], space)
      && (t != "" ==> !space(t[0]))
    decreases |s|
  {
    if s != "" && space(s[0]) {
      var rest := s[1..];
      var before := |rest| - |TrimStart(rest, space)|;
      TrimStartCuts(rest, space);
      assert s[..before + 1] == [s[0]] + rest[..before];
    }
  }

  lemma {:induction false} TrimEndCuts(s: string, space: char -> bool)
    ensures var t := TrimEnd(s, space);
      && |t| <= |s| && t == s[..|t|] && IsBlank(s[|t|..], space)
      && (t != "" ==> !space(t[|t| - 1]))
    decreases |s|
  {
    if s != "" && space(s[|s| - 1]) {
      var front := s[..|s| - 1];
      var t := TrimEnd(front, space);
      TrimEndCuts(front, space);
      assert s[|t|..] == front[|t|..] + [s[|s| - 1]];
      assert s[..|t|] == front[..|t|];
    }
  }

  /** `t` is what is left of `s` when it loses `before` characters of white space in front and all behind it. */
  predicate IsTrimmed(s: string, t: string, before: nat, space: char -> bool) {
    && before + |t| <= |s| && t == s[before..before + |t|]
    && IsBlank(s[..before], space) && IsBlank(s[before + |t|..], space)
    && (t != "" ==> !space(t[0]) && !space(t[|t| - 1]))
  }

  /** `trim` takes off the white space at both ends, all of it and nothing else. */
  lemma TrimCuts(s: string, space: char -> bool)
    ensures exists before :: IsTrimmed(s, Trim(s, space), before, space)
    ensures IsBlank(s, space) <==> Trim(s, space) == ""
  {
    var u, t := TrimStart(s, space), Trim(s, space);
    var before := |s| - |u|;
    TrimStartCuts(s, space);
    TrimEndCuts(u, space);
    assert u[|t|..] == s[before + |t|..];
    assert IsTrimmed(s, t, before, space);
    if t == "" {
      assert s == s[..before] + s[before..];
    } else {
      assert t[0] == s[before];
    }
  }

  /** What a parsed chunk yields; the SDK does not look at receipts. */
  function Yields<R>(c: Chunk<R>, receipts: bool): seq<Event<R>> {
    (if c.token != "" then [Token(c.token)] else [])
    + (if receipts && c.receipt.Some? then [Receipt(c.receipt.value)] else [])
  }

  /**
   * How a client treats one line. `Ndjson`: blank lines and lines that do not parse are
   * skipped. `Sse`: only `data:` lines count, and `[DONE]` ends the stream; `parse` gives the
   * content of the first choice, empty when there is none.
   */
  datatype Protocol<!R> =
    | Ndjson(space: char -> bool, parseChunk: string -> Option<Chunk<R>>, receipts: bool)
    | Sse(space: char -> bool, parseDelta: string -> Option<string>)
  {
    function React(line: string): Reaction<R> {
      match this
      case Ndjson(space, parse, receipts) =>
        if IsBlank(line, space) then Reaction([], false)
        else
          (match parse(line)
           case None => Reaction([], false)
           case Some(c) => Reaction(Yields(c, receipts), c.isFinal))
      case Sse(space, parse) =>
        var trimmed := Trim(line, space);
        if !("data:" <= trimmed) then Reaction([], false)
        else
          var data := Trim(trimmed[5..], space);
          if data == "[DONE]" then Reaction([], true)
          else
            (match parse(data)
             case None => Reaction([], false)
             case Some(content) => Reaction(if content != "" then [Token(content)] else [], false))
    }
  }

  /** A line that is not a message: blank, without `data:` in front, or with something that does not parse. */
  predicate IsJunk<R>(line: string, p: Protocol<R>) {
    match p
    case Ndjson(space, parse, _) => (forall i :: 0 <= i < |line| ==> space(line[i])) || parse(line).None?
    case Sse(space, parse) =>
      var trimmed := Trim(line, space);
      |trimmed| < 5 || trimmed[..5] != "data:"
      || (Trim(trimmed[5..], space) != "[DONE]" && parse(Trim(trimmed[5..], space)).None?)
  }

  lemma JunkReaction<R>(line: string, p: Protocol<R>)
    requires IsJunk(line, p)
    ensures p.React(line) == Reaction([], false)
  {
  }

  /** A line that parses: its token, if there is one, then its receipt, and the end if it is final. */
  lemma ChunkReaction<R>(line: string, c: Chunk<R>, p: Protocol<R>)
    requires p.Ndjson? && !IsBlank(line, p.space) && p.parseChunk(line) == Some(c)
    ensures var r, paid := p.React(line), p.receipts && c.receipt.Some?;
      && r.stop == c.isFinal
      && |r.events| == (if c.token != "" then 1 else 0) + (if paid then 1 else 0)
      && (c.token != "" ==> r.events[0] == Token(c.token))
      && (paid ==> r.events[|r.events| - 1] == Receipt(c.receipt.value))
  {
  }

  // ----- Lines of a text -----

  predicate IsLine(s: string) {
    '\n' !in s
  }

  predicate AreLines(lines: seq<string>) {
    forall i :: 0 <= i < |lines| ==> IsLine(lines[i])
  }

  /** What follows the last newline. */
  function Tail(s: string): string
    decreases |s|
  {
    if s == "" || s[|s| - 1] == '\n' then "" else Tail(s[..|s| - 1]) + [s[|s| - 1]]
  }

  /** The complete lines, each of them ended by a newline that is not part of it. */
  function Lines(s: string): seq<string>
    decreases |s|
  {
    if s == "" then []
    else if s[|s| - 1] == '\n' then Lines(s[..|s| - 1]) + [Tail(s[..|s| - 1])]
    else Lines(s[..|s| - 1])
  }

  /** `split('\n')`. */
  function Split(s: string): seq<string> {
    Lines(s) + [Tail(s)]
  }

  /** The complete lines of the buffer, and the unfinished one that `pop` takes off the end. */
  method SplitAndPop(buffer: string) returns (lines: seq<string>, rest: string)
    ensures lines == Lines(buffer) && rest == Tail(buffer)
  {
    var pieces := Split(buffer);
    rest := pieces[|pieces| - 1];
    lines := pieces[..|pieces| - 1];
  }

  lemma LinesAppend(s: string, c: char)
    ensures c == '\n' ==> Lines(s + [c]) == Lines(s) + [Tail(s)] && Tail(s + [c]) == ""
    ensures c != '\n' ==> Lines(s + [c]) == Lines(s) && Tail(s + [c]) == Tail(s) + [c]
  {
    assert (s + [c])[..|s|] == s;
  }

  function Terminated(lines: seq<string>): string
    decreases |lines|
  {
    if lines == [] then "" else Terminated(lines[..|lines| - 1]) + lines[|lines| - 1] + "\n"
  }

  lemma TerminatedAppend(lines: seq<string>, line: string)
    ensures Terminated(lines + [line]) == Terminated(lines) + line + "\n"
  {
    assert (lines + [line])[..|lines|] == lines;
  }

  lemma NewlineCuts(s: string, lines: seq<string>, tail: string)
    requires s == Terminated(lines) + tail
    ensures s + "\n" == Terminated(lines + [tail])
  {
    TerminatedAppend(lines, tail);
  }

  lemma LineAppend(lines: seq<string>, tail: string, c: char)
    requires AreLines(lines) && IsLine(tail)
    ensures AreLines(lines + [tail])
    ensures c != '\n' ==> IsLine(tail + [c])
  {
  }

  lemma CutsAppend(s: string, c: char)
    requires AreLines(Lines(s)) && IsLine(Tail(s)) && s == Terminated(Lines(s)) + Tail(s)
    ensures AreLines(Lines(s + [c])) && IsLine(Tail(s + [c]))
    ensures s + [c] == Terminated(Lines(s + [c])) + Tail(s + [c])
  {
    var lines, tail := Lines(s), Tail(s);
    LinesAppend(s, c);
    LineAppend(lines, tail, c);
    if c == '\n' {
      NewlineCuts(s, lines, tail);
    } else {
      ConcatAssociates(Terminated(lines), tail, [c]);
    }
  }

  lemma NothingCut()
    ensures Lines("") == [] && Tail("") == "" && Terminated([]) == ""
  {
  }

  /** `split` cuts at every newline and nowhere else, and loses nothing. */
  lemma {:induction false} SplitCuts(s: string)
    ensures AreLines(Lines(s)) && IsLine(Tail(s))
    ensures s == Terminated(Lines(s)) + Tail(s)
    decreases |s|
  {
    hide Terminated;
    if s == "" {
      NothingCut();
    } else {
      SplitCuts(s[..|s| - 1]);
      CutsAppend(s[..|s| - 1], s[|s| - 1]);
      assert s == s[..|s| - 1] + [s[|s| - 1]];
    }
  }

  lemma {:induction false} LineHasNoLines(s: string)
    requires IsLine(s)
    ensures Lines(s) == [] && Tail(s) == s
    decreases |s|
  {
    if s != "" {
      LineHasNoLines(s[..|s| - 1]);
      assert s == s[..|s| - 1] + [s[|s| - 1]];
    }
  }

  lemma AppendLast(a: string, b: string)
    requires b != ""
    ensures a + b == (a + b[..|b| - 1]) + [b[|b| - 1]]
  {
  }

  lemma ResumeStep(before: seq<string>, whole: string, rest: string, c: char)
    requires Lines(whole) == before + Lines(rest) && Tail(whole) == Tail(rest)
    ensures Lines(whole + [c]) == before + Lines(rest + [c])
    ensures Tail(whole + [c]) == Tail(rest + [c])
  {
    LinesAppend(whole, c);
    LinesAppend(rest, c);
  }

  /** Splitting can stop at any point and go on from the unfinished piece. */
  lemma {:induction false} SplitResumes(a: string, b: string)
    ensures Lines(a + b) == Lines(a) + Lines(Tail(a) + b)
    ensures Tail(a + b) == Tail(Tail(a) + b)
    decreases |b|
  {
    if b == "" {
      SplitCuts(a);
      LineHasNoLines(Tail(a));
      assert a + b == a && Tail(a) + b == Tail(a);
    } else {
      var front, c := b[..|b| - 1], b[|b| - 1];
      SplitResumes(a, front);
      ResumeStep(Lines(a), a + front, Tail(a) + front, c);
      AppendLast(a, b);
      AppendLast(Tail(a), b);
    }
  }

  lemma OneMoreLine(text: string, lines: seq<string>, line: string)
    requires Lines(text) == lines && Tail(text) == "" && IsLine(line)
    ensures Lines(text + line + "\n") == lines + [line] && Tail(text + line + "\n") == ""
  {
    SplitResumes(text, line);
    assert "" + line == line;
    LineHasNoLines(line);
    LinesAppend(text + line, '\n');
  }

  /** Newline-terminated lines come back, and nothing is left over. */
  lemma {:induction false} LinesTerminated(lines: seq<string>)
    requires AreLines(lines)
    ensures Lines(Terminated(lines)) == lines && Tail(Terminated(lines)) == ""
    decreases |lines|
  {
    if lines != [] {
      var front, last := lines[..|lines| - 1], lines[|lines| - 1];
      LinesTerminated(front);
      OneMoreLine(Terminated(front), front, last);
      assert lines == front + [last];
    }
  }

  // ----- Events of a list of lines -----

  predicate Stops<R>(lines: seq<string>, p: Protocol<R>) {
    exists i :: 0 <= i < |lines| && p.React(lines[i]).stop
  }

  /** One line after the other, up to and with the first that stops. */
  function Events<R>(lines: seq<string>, p: Protocol<R>): seq<Event<R>>
    decreases |lines|
  {
    if lines == [] then []
    else
      var front := lines[..|lines| - 1];
      if Stops(front, p) then Events(front, p)
      else Events(front, p) + p.React(lines[|lines| - 1]).events
  }

  function AllEvents<R>(lines: seq<string>, p: Protocol<R>): seq<Event<R>>
    decreases |lines|
  {
    if lines == [] then [] else AllEvents(lines[..|lines| - 1], p) + p.React(lines[|lines| - 1]).events
  }

  lemma {:induction false} EventsWithoutStop<R>(lines: seq<string>, p: Protocol<R>)
    requires !Stops(lines, p)
    ensures Events(lines, p) == AllEvents(lines, p)
    decreases |lines|
  {
    if lines != [] {
      var front := lines[..|lines| - 1];
      assert forall i :: 0 <= i < |front| ==> front[i] == lines[i];
      EventsWithoutStop(front, p);
    }
  }

  lemma {:induction false} EventsIgnoreRest<R>(lines: seq<string>, rest: seq<string>, p: Protocol<R>)
    requires Stops(lines, p)
    ensures Stops(lines + rest, p) && Events(lines + rest, p) == Events(lines, p)
    decreases |rest|
  {
    var i :| 0 <= i < |lines| && p.React(lines[i]).stop;
    assert (lines + rest)[i] == lines[i];
    if rest == [] {
      assert lines + rest == lines;
    } else {
      assert (lines + rest)[..|lines + rest| - 1] == lines + rest[..|rest| - 1];
      EventsIgnoreRest(lines, rest[..|rest| - 1], p);
    }
  }

  lemma EventsStep<R>(lines: seq<string>, line: string, p: Protocol<R>)
    requires !Stops(lines, p)
    ensures Events(lines + [line], p) == Events(lines, p) + p.React(line).events
    ensures Stops(lines + [line], p) <==> p.React(line).stop
  {
    var more := lines + [line];
    assert more[..|more| - 1] == lines;
    assert more[|lines|] == line;
    assert forall i :: 0 <= i < |lines| ==> more[i] == lines[i];
  }

  lemma EventsAppendStep<R>(whole: seq<string>, rest: seq<string>, line: string, before: seq<Event<R>>, p: Protocol<R>)
    requires Events(whole, p) == before + Events(rest, p) && (Stops(whole, p) <==> Stops(rest, p))
    ensures Events(whole + [line], p) == before + Events(rest + [line], p)
    ensures Stops(whole + [line], p) <==> Stops(rest + [line], p)
  {
    if Stops(rest, p) {
      EventsIgnoreRest(whole, [line], p);
      EventsIgnoreRest(rest, [line], p);
    } else {
      var more := p.React(line).events;
      EventsStep(whole, line, p);
      EventsStep(rest, line, p);
      ConcatAssociates(before, Events(rest, p), more);
    }
  }

  lemma {:induction false} EventsAppend<R>(lines: seq<string>, rest: seq<string>, p: Protocol<R>)
    requires !Stops(lines, p)
    ensures Events(lines + rest, p) == Events(lines, p) + Events(rest, p)
    ensures Stops(lines + rest, p) <==> Stops(rest, p)
    decreases |rest|
  {
    if rest == [] {
      assert lines + rest == lines;
    } else {
      var front, last := rest[..|rest| - 1], rest[|rest| - 1];
      EventsAppend(lines, front, p);
      EventsAppendStep(lines + front, front, last, Events(lines, p), p);
      ConcatAssociates(lines, front, [last]);
      assert rest == front + [last];
    }
  }

  /** What the lines yield is decided by the first that stops, and by nothing after it. */
  lemma EventsUpToFirstStop<R>(lines: seq<string>, k: nat, p: Protocol<R>)
    requires k < |lines| && p.React(lines[k]).stop && !Stops(lines[..k], p)
    ensures Events(lines, p) == AllEvents(lines[..k + 1], p)
  {
    var head := lines[..k + 1];
    assert head[..k] == lines[..k] && head == lines[..k] + [lines[k]];
    EventsStep(lines[..k], lines[k], p);
    EventsIgnoreRest(head, lines[k + 1..], p);
    assert head + lines[k + 1..] == lines;
    EventsWithoutStop(lines[..k], p);
  }

  lemma JunkBehind<R>(lines: seq<string>, junk: string, p: Protocol<R>)
    requires IsJunk(junk, p)
    ensures Events(lines + [junk], p) == Events(lines, p)
    ensures Stops(lines + [junk], p) <==> Stops(lines, p)
  {
    JunkReaction(junk, p);
    if Stops(lines, p) {
      EventsIgnoreRest(lines, [junk], p);
    } else {
      EventsStep(lines, junk, p);
    }
  }

  lemma SameEventsStep<R>(a: seq<string>, b: seq<string>, line: string, p: Protocol<R>)
    requires Events(a, p) == Events(b, p) && (Stops(a, p) <==> Stops(b, p))
    ensures Events(a + [line], p) == Events(b + [line], p)
    ensures Stops(a + [line], p) <==> Stops(b + [line], p)
  {
    EventsAppendStep(a, b, line, [], p);
  }

  /** Anywhere among any lines, junk is invisible. */
  lemma {:induction false} JunkIsInvisible<R>(a: seq<string>, junk: string, b: seq<string>, p: Protocol<R>)
    requires IsJunk(junk, p)
    ensures Events(a + [junk] + b, p) == Events(a + b, p)
    ensures Stops(a + [junk] + b, p) <==> Stops(a + b, p)
    decreases |b|
  {
    if b == [] {
      JunkBehind(a, junk, p);
      assert a + [junk] + b == a + [junk] && a + b == a;
    } else {
      var front, last := b[..|b| - 1], b[|b| - 1];
      JunkIsInvisible(a, junk, front, p);
      SameEventsStep(a + [junk] + front, a + front, last, p);
      assert b == front + [last];
      ConcatAssociates(a + [junk], front, [last]);
      ConcatAssociates(a, front, [last]);
    }
  }

  /** `lines` are `own`, in order, with any junk anywhere among them. */
  predicate WithJunk<R>(lines: seq<string>, own: seq<string>, p: Protocol<R>)
    decreases |lines|
  {
    if lines == [] then own == []
    else
      var front, last := lines[..|lines| - 1], lines[|lines| - 1];
      || (IsJunk(last, p) && WithJunk(front, own, p))
      || (own != [] && own[|own| - 1] == last && WithJunk(front, own[..|own| - 1], p))
  }

  lemma {:induction false} WithoutJunk<R>(lines: seq<string>, p: Protocol<R>)
    ensures WithJunk(lines, lines, p)
    decreases |lines|
  {
    if lines != [] {
      WithoutJunk(lines[..|lines| - 1], p);
    }
  }

  lemma {:induction false} JunkChangesNothing<R>(lines: seq<string>, own: seq<string>, p: Protocol<R>)
    requires WithJunk(lines, own, p)
    ensures Events(lines, p) == Events(own, p) && (Stops(lines, p) <==> Stops(own, p))
    decreases |lines|
  {
    if lines != [] {
      var front, last := lines[..|lines| - 1], lines[|lines| - 1];
      assert lines == front + [last];
      if IsJunk(last, p) && WithJunk(front, own, p) {
        JunkChangesNothing(front, own, p);
        JunkBehind(front, last, p);
      } else {
        JunkChangesNothing(front, own[..|own| - 1], p);
        SameEventsStep(front, own[..|own| - 1], last, p);
        assert own == own[..|own| - 1] + [last];
      }
    }
  }

  // ----- The loop -----

  lemma PieceExtends<R>(text: string, piece: string, p: Protocol<R>)
    requires !Stops(Lines(text), p)
    ensures var lines := Lines(Tail(text) + piece);
      && Tail(text + piece) == Tail(Tail(text) + piece)
      && Events(Lines(text + piece), p) == Events(Lines(text), p) + Events(lines, p)
      && (Stops(Lines(text + piece), p) <==> Stops(lines, p))
  {
    SplitResumes(text, piece);
    EventsAppend(Lines(text), Lines(Tail(text) + piece), p);
  }

  /** The inner loop. */
  method HandleLines<R>(lines: seq<string>, p: Protocol<R>) returns (events: seq<Event<R>>, stopped: bool)
    ensures events == Events(lines, p) && stopped == Stops(lines, p)
  {
    events, stopped := [], false;
    for j := 0 to |lines|
      invariant !Stops(lines[..j], p) && events == Events(lines[..j], p)
    {
      assert lines[..j + 1] == lines[..j] + [lines[j]];
      EventsStep(lines[..j], lines[j], p);
      var reaction := p.React(lines[j]);
      events := events + reaction.events;
      if reaction.stop {
        EventsIgnoreRest(lines[..j + 1], lines[j + 1..], p);
        assert lines[..j + 1] + lines[j + 1..] == lines;
        return events, true;
      }
    }
    assert lines[..|lines|] == lines;
  }

  /** Once a line has stopped the stream, pieces that are still to come do not matter. */
  lemma StopEarly<R>(pieces: seq<string>, i: nat, p: Protocol<R>)
    requires i <= |pieces| && Stops(Lines(Flatten(pieces[..i])), p)
    ensures Events(Lines(Flatten(pieces)), p) == Events(Lines(Flatten(pieces[..i])), p)
  {
    var text, rest := Flatten(pieces[..i]), Flatten(pieces[i..]);
    FlattenConcat(pieces[..i], pieces[i..]);
    assert pieces[..i] + pieces[i..] == pieces;
    SplitResumes(text, rest);
    EventsIgnoreRest(Lines(text), Lines(Tail(text) + rest), p);
  }

  /**
   * However the text is cut: the loop yields what its complete lines yield, up to the first
   * final one, and drops an unterminated tail.
   */
  method Receive<R>(pieces: seq<string>, p: Protocol<R>) returns (events: seq<Event<R>>)
    ensures events == Events(Lines(Flatten(pieces)), p)
  {
    events := [];
    var buffer := "";
    for i := 0 to |pieces|
      invariant buffer == Tail(Flatten(pieces[..i]))
      invariant var seen := Lines(Flatten(pieces[..i])); !Stops(seen, p) && events == Events(seen, p)
    {
      FlattenStep(pieces, i);
      PieceExtends(Flatten(pieces[..i]), pieces[i], p);
      buffer := buffer + pieces[i];
      var lines: seq<string>;
      lines, buffer := SplitAndPop(buffer);
      var more, stopped := HandleLines(lines, p);
      events := events + more;
      if stopped {
        StopEarly(pieces, i + 1, p);
        return;
      }
    }
    assert pieces[..|pieces|] == pieces;
  }

  lemma {:induction false} EventsGrow<R>(lines: seq<string>, rest: seq<string>, p: Protocol<R>)
    ensures Events(lines, p) <= Events(lines + rest, p)
    decreases |rest|
  {
    if rest == [] {
      assert lines + rest == lines;
    } else {
      assert (lines + rest)[..|lines + rest| - 1] == lines + rest[..|rest| - 1];
      EventsGrow(lines, rest[..|rest| - 1], p);
    }
  }

  /** Events are never taken back: those of the text so far begin those of any longer text. */
  lemma YieldedSoFar<R>(a: string, b: string, p: Protocol<R>)
    ensures Events(Lines(a), p) <= Events(Lines(a + b), p)
  {
    SplitResumes(a, b);
    EventsGrow(Lines(a), Lines(Tail(a) + b), p);
  }
}
