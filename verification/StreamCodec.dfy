/**
 * The delivery results suppose a codec that writes a chunk as one visible line and reads it
 * back. This is one: strings are quoted with the escapes that JSON uses for newlines, quotes
 * and backslashes.
 */
module StreamCodec {
  import opened Collections
  import opened Options
  import opened Stream
  import opened StreamServer

  // ----- Quoted strings -----

  function EscapeChar(c: char): string {
    if c == '\n' then "\\n" else if c == '"' then "\\\"" else if c == '\\' then "\\\\" else [c]
  }

  function Escape(s: string): string
    decreases |s|
  {
    if s == "" then "" else EscapeChar(s[0]) + Escape(s[1..])
  }

  /** Reads up to the closing quote: the string, and what is behind the quote. */
  function Unquote(t: string): Option<(string, string)>
    decreases |t|
  {
    if t == "" then None
    else if t[0] == '"' then Some(("", t[1..]))
    else if t[0] != '\\' then
      var (s, rest) :- Unquote(t[1..]);
      Some(([t[0]] + s, rest))
    else if |t| == 1 then None
    else
      var (s, rest) :- Unquote(t[2..]);
      Some(([if t[1] == 'n' then '\n' else t[1]] + s, rest))
  }

  lemma UnquoteChar(c: char, t: string, s: string, rest: string)
    requires Unquote(t) == Some((s, rest))
    ensures Unquote(EscapeChar(c) + t) == Some(([c] + s, rest))
  {
    var e := EscapeChar(c);
    assert (e + t)[|e|..] == t;
  }

  lemma {:induction false} UnquoteEscaped(s: string, rest: string)
    ensures Unquote(Escape(s) + ("\"" + rest)) == Some((s, rest))
    decreases |s|
  {
    var end := "\"" + rest;
    if s == "" {
      assert Escape(s) + end == end && end[1..] == rest;
    } else {
      UnquoteEscaped(s[1..], rest);
      UnquoteChar(s[0], Escape(s[1..]) + end, s[1..], rest);
      ConcatAssociates(EscapeChar(s[0]), Escape(s[1..]), end);
      assert [s[0]] + s[1..] == s;
    }
  }

  lemma {:induction false} EscapedIsLine(s: string)
    ensures IsLine(Escape(s))
    decreases |s|
  {
    if s != "" {
      EscapedIsLine(s[1..]);
      assert IsLine(EscapeChar(s[0]));
    }
  }

  predicate Space(c: char) {
    c == ' ' || c == '\n'
  }

  // ----- Chunks, with a text as receipt -----

  function ReceiptText(receipt: Option<string>): string {
    if receipt.Some? then Escape(receipt.value) + "\"}" else "}"
  }

  function EncodeChunk(c: Chunk<string>): Option<string> {
    Some((if c.isFinal then "{F" else "{P") + (Escape(c.token) + ("\"" + ReceiptText(c.receipt))))
  }

  function DecodeReceipt(t: string): Option<Option<string>> {
    if t == "}" then Some(None)
    else
      var (receipt, rest) :- Unquote(t);
      if rest == "}" then Some(Some(receipt)) else None
  }

  function DecodeChunk(line: string): Option<Chunk<string>> {
    if |line| < 2 || line[0] != '{' then None
    else
      var (token, rest) :- Unquote(line[2..]);
      var receipt :- DecodeReceipt(rest);
      Some(Chunk(token, receipt, line[1] == 'F'))
  }

  lemma ReceiptDecodes(receipt: Option<string>)
    ensures DecodeReceipt(ReceiptText(receipt)) == Some(receipt)
    ensures IsLine(ReceiptText(receipt))
  {
    if receipt.Some? {
      UnquoteEscaped(receipt.value, "}");
      EscapedIsLine(receipt.value);
      assert "\"" + "}" == "\"}";
      assert |ReceiptText(receipt)| >= 2;
    }
  }

  lemma ChunkDecodes(c: Chunk<string>)
    ensures var line := EncodeChunk(c).value;
      IsLine(line) && line[0] == '{' && DecodeChunk(line) == Some(c)
  {
    var body := Escape(c.token) + ("\"" + ReceiptText(c.receipt));
    var line := EncodeChunk(c).value;
    ReceiptDecodes(c.receipt);
    UnquoteEscaped(c.token, ReceiptText(c.receipt));
    EscapedIsLine(c.token);
    assert line[2..] == body && IsLine(body);
    assert IsLine(line[..2]) && line == line[..2] + body;
  }

  function NdjsonClient(receipts: bool): Protocol<string> {
    Ndjson(Space, DecodeChunk, receipts)
  }

  /** The assumption of `NdjsonDelivers` can be met, by a client of either kind. */
  lemma NdjsonCodecExists(receipts: bool)
    ensures FaithfulNdjson(EncodeChunk, NdjsonClient(receipts))
  {
    var p := NdjsonClient(receipts);
    forall c: Chunk<string>
      ensures EncodesAs(c, EncodeChunk(c), p)
    {
      ChunkDecodes(c);
      var line := EncodeChunk(c).value;
      assert !p.space(line[0]);
      ParsesBack(c, line, p);
    }
  }

  // ----- Deltas -----

  function EncodeDelta(d: Delta): Option<string> {
    match d
    case Role => Some("{R}")
    case Text(text) => Some("{T" + (Escape(text) + ("\"" + "}")))
    case Stop => Some("{S}")
  }

  function DecodeDelta(data: string): Option<string> {
    if |data| < 2 || data[0] != '{' then None
    else if data[1] != 'T' then Some("")
    else
      var (text, rest) :- Unquote(data[2..]);
      Some(text)
  }

  lemma DeltaDecodes(d: Delta)
    ensures EncodesDelta(d, EncodeDelta(d), Space, DecodeDelta)
  {
    var data := EncodeDelta(d).value;
    assert data[0] == '{' && data[|data| - 1] == '}';
    assert "[DONE]"[0] == '[';
    if d.Text? {
      var body := Escape(d.text) + ("\"" + "}");
      UnquoteEscaped(d.text, "}");
      EscapedIsLine(d.text);
      assert data[2..] == body && IsLine(body);
      assert IsLine(data[..2]) && data == data[..2] + body;
    }
  }

  function SseClient(): Protocol<string> {
    Sse(Space, DecodeDelta)
  }

  /** The assumption of `SseDelivers` can be met, by a codec that tells all three kinds of chunk apart. */
  lemma SseCodecExists()
    ensures FaithfulSse(EncodeDelta, SseClient())
    ensures EncodeDelta(Role) != EncodeDelta(Stop)
  {
    forall d
      ensures EncodesDelta(d, EncodeDelta(d), Space, DecodeDelta)
    {
      DeltaDecodes(d);
    }
    assert "{R}"[1] == 'R' && "{S}"[1] == 'S';
  }
}
