/** The server-sent events of a chat answer and the client that reads them.
    JSON is a parameter: `JsonCodec(enc, dec, events)` says of the events at hand
    that their printed objects contain no newline, start and end with a visible
    character, and are read back as the event that was printed. */
module SseStream {
  import opened Results
  import opened PythonText

  // ------------------------------------------------------------------ payload

  datatype Emotion = Emotion(mood: string, confidence: real)

  /** A stored message; a missing key is `None`. */
  datatype RawMessage = RawMessage(kind: Option<string>, content: Option<string>)

  datatype Message = Message(kind: string, content: string)

  /** What a generation resolved to. Absent and empty fields read the same. */
  datatype Payload = Payload(
    error: bool, code: Option<int>, message: Option<string>, obsolete: bool,
    messages: seq<RawMessage>, reply: string, emotion: Option<Emotion>)

  datatype Event =
    | Meta(generation: string, count: nat)
    | Delta(content: string, index: nat)
    | Done(messages: seq<Message>, emotion: Emotion)
    | Obsolete
    | Failed(code: int, text: string)

  const LLM_FAILED := 10102
  const TIMEOUT_TEXT := "\U{7B49}\U{5F85}\U{56DE}\U{590D}\U{8D85}\U{65F6}"
  const DEFAULT_FAILURE := "LLM \U{5931}\U{8D25}"
  const CALM := Emotion("\U{5E73}\U{9759}", 1.0)
  const CHUNK_SIZE := 2

  function GetOr<T>(value: Option<T>, default: T): T {
    if value.Some? then value.value else default
  }

  function Normalize(raw: seq<RawMessage>): (messages: seq<Message>)
    ensures |messages| == |raw|
  {
    seq(|raw|, i requires 0 <= i < |raw| => Message(GetOr(raw[i].kind, "text"), GetOr(raw[i].content, "")))
  }

  /** The messages of the `done` event; without any, the reply is the message. */
  function DoneMessages(p: Payload): seq<Message> {
    if p.messages != [] then Normalize(p.messages)
    else if p.reply != "" then [Message("text", p.reply)]
    else []
  }

  // ------------------------------------------------------------------- events

  function Deltas(content: string, index: nat): seq<Event>
    decreases |content|
  {
    if content == "" then []
    else
      var n := if |content| < CHUNK_SIZE then |content| else CHUNK_SIZE;
      [Delta(content[..n], index)] + Deltas(content[n..], index)
  }

  function AllDeltas(messages: seq<Message>, from: nat): seq<Event>
    requires from <= |messages|
    decreases |messages| - from
  {
    if from == |messages| then [] else Deltas(messages[from].content, from) + AllDeltas(messages, from + 1)
  }

  function Answer(generation: string, messages: seq<Message>, emotion: Emotion): seq<Event> {
    [Meta(generation, |messages|)] + AllDeltas(messages, 0) + [Done(messages, emotion)]
  }

  /** The events of one answer. */
  function Events(generation: string, p: Payload): seq<Event> {
    if p.error && p.code == Some(LLM_FAILED) && p.message == Some(TIMEOUT_TEXT)
    then [Meta(generation, 0), Failed(LLM_FAILED, TIMEOUT_TEXT)]
    else if p.obsolete then [Meta(generation, 0), Obsolete]
    else if p.error
    then [Meta(generation, 0), Failed(GetOr(p.code, LLM_FAILED), GetOr(p.message, DEFAULT_FAILURE))]
    else Answer(generation, DoneMessages(p), GetOr(p.emotion, CALM))
  }

  /** The text of the deltas that carry `index`, in order. */
  function Collect(events: seq<Event>, index: nat): string {
    if events == [] then ""
    else (if events[0].Delta? && events[0].index == index then events[0].content else "") + Collect(events[1..], index)
  }

  lemma {:induction false} CollectAppend(a: seq<Event>, b: seq<Event>, index: nat)
    ensures Collect(a + b, index) == Collect(a, index) + Collect(b, index)
  {
    if a == [] {
      assert a + b == b;
    } else {
      assert (a + b)[1..] == a[1..] + b;
      CollectAppend(a[1..], b, index);
    }
  }

  predicate Part(e: Event, low: nat, high: nat) {
    e.Delta? && low <= e.index < high && 1 <= |e.content| <= CHUNK_SIZE
  }

  ghost predicate Parts(events: seq<Event>, low: nat, high: nat) {
    && (forall i | 0 <= i < |events| :: Part(events[i], low, high))
    && (forall i, j | 0 <= i < j < |events| && events[i].Delta? && events[j].Delta? ::
          events[i].index <= events[j].index)
  }

  lemma DeltasUnfold(content: string, at: nat)
    requires content != ""
    ensures var n := if |content| < CHUNK_SIZE then |content| else CHUNK_SIZE;
      Deltas(content, at) == [Delta(content[..n], at)] + Deltas(content[n..], at)
  {
  }

  lemma CollectFirst(e: Event, later: seq<Event>, index: nat)
    ensures Collect([e] + later, index)
      == (if e.Delta? && e.index == index then e.content else "") + Collect(later, index)
  {
    assert ([e] + later)[1..] == later;
  }

  lemma {:induction false} CollectDeltas(content: string, at: nat, index: nat)
    ensures Collect(Deltas(content, at), index) == if at == index then content else ""
    decreases |content|
  {
    if content != "" {
      var n := if |content| < CHUNK_SIZE then |content| else CHUNK_SIZE;
      DeltasUnfold(content, at);
      CollectFirst(Delta(content[..n], at), Deltas(content[n..], at), index);
      CollectDeltas(content[n..], at, index);
      assert content[..n] + content[n..] == content;
    }
  }

  lemma {:induction false} PartsDeltas(content: string, at: nat)
    ensures Parts(Deltas(content, at), at, at + 1)
    decreases |content|
  {
    if content != "" {
      var n := if |content| < CHUNK_SIZE then |content| else CHUNK_SIZE;
      PartsDeltas(content[n..], at);
    }
  }

  lemma PartsAppend(a: seq<Event>, b: seq<Event>, middle: nat, high: nat)
    requires middle < high && Parts(a, middle, middle + 1) && Parts(b, middle + 1, high)
    ensures Parts(a + b, middle, high)
  {
    forall i | 0 <= i < |a + b| ensures Part((a + b)[i], middle, high) {
      assert i < |a| ==> Part(a[i], middle, middle + 1);
      assert i >= |a| ==> Part(b[i - |a|], middle + 1, high);
    }
    forall i, j | 0 <= i < j < |a + b| ensures (a + b)[i].index <= (a + b)[j].index {
      assert i < |a| ==> Part(a[i], middle, middle + 1);
      assert j < |a| ==> Part(a[j], middle, middle + 1);
      assert i >= |a| ==> Part(b[i - |a|], middle + 1, high);
      assert j >= |a| ==> Part(b[j - |a|], middle + 1, high);
    }
  }

  lemma {:induction false} CollectAllDeltas(messages: seq<Message>, from: nat, index: nat)
    requires from <= |messages|
    ensures Collect(AllDeltas(messages, from), index)
         == if from <= index < |messages| then messages[index].content else ""
    decreases |messages| - from
  {
    if from < |messages| {
      var deltas, later := Deltas(messages[from].content, from), AllDeltas(messages, from + 1);
      CollectDeltas(messages[from].content, from, index);
      CollectAllDeltas(messages, from + 1, index);
      CollectBoth(deltas, later, index, Collect(deltas, index), Collect(later, index));
    }
  }

  lemma CollectBoth(a: seq<Event>, b: seq<Event>, index: nat, x: string, y: string)
    requires Collect(a, index) == x && Collect(b, index) == y
    ensures Collect(a + b, index) == x + y && x + "" == x && "" + y == y
  {
    CollectAppend(a, b, index);
  }

  lemma {:induction false} PartsAllDeltas(messages: seq<Message>, from: nat)
    requires from <= |messages|
    ensures Parts(AllDeltas(messages, from), from, |messages|)
    decreases |messages| - from
  {
    if from < |messages| {
      PartsDeltas(messages[from].content, from);
      PartsAllDeltas(messages, from + 1);
      PartsAppend(Deltas(messages[from].content, from), AllDeltas(messages, from + 1), from, |messages|);
    }
  }

  /** An answer opens with the number of its messages and ends with the messages;
      between them are only deltas, in message order and of at most two
      characters, and those of each index spell that message. */
  lemma AnswerSpellsItsMessages(generation: string, messages: seq<Message>, emotion: Emotion)
    ensures var events := Answer(generation, messages, emotion);
      && 2 <= |events| && events[0] == Meta(generation, |messages|)
      && events[|events| - 1] == Done(messages, emotion)
      && Parts(events[1..|events| - 1], 0, |messages|)
      && (forall k | 0 <= k < |messages| :: Collect(events, k) == messages[k].content)
  {
    var middle := AllDeltas(messages, 0);
    PartsAllDeltas(messages, 0);
    var events := Answer(generation, messages, emotion);
    assert events[1..|events| - 1] == middle;
    forall k | 0 <= k < |messages| ensures Collect(Answer(generation, messages, emotion), k) == messages[k].content {
      CollectAllDeltas(messages, 0, k);
      CollectAppend([Meta(generation, |messages|)] + middle, [Done(messages, emotion)], k);
      CollectAppend([Meta(generation, |messages|)], middle, k);
    }
  }

  // ------------------------------------------------------------------ printer

  type Encoder = Event -> string
  type Decoder = string -> Option<Event>

  ghost predicate PrintedObject(s: string) {
    s != "" && !IsSpace(s[0]) && !IsSpace(s[|s| - 1]) && '\n' !in s
  }

  /** The events at hand are printed on one line and read back. */
  ghost predicate JsonCodec(enc: Encoder, dec: Decoder, events: seq<Event>) {
    forall e <- events :: PrintedObject(enc(e)) && dec(enc(e)) == Some(e)
  }

  function IndexOf(events: seq<Event>, e: Event): (k: nat)
    ensures e in events ==> k < |events| && events[k] == e
  {
    if events == [] || events[0] == e then 0 else 1 + IndexOf(events[1..], e)
  }

  /** An event as its position, in strokes between braces. */
  function Strokes(n: nat): string {
    "{" + seq(n, _ => '1') + "}"
  }

  /** Every sequence of events has such a coding. */
  lemma CodecExists(events: seq<Event>)
    ensures exists enc: Encoder, dec: Decoder :: JsonCodec(enc, dec, events)
  {
    var enc: Encoder := e => Strokes(IndexOf(events, e));
    var dec: Decoder := s => if 2 <= |s| && |s| - 2 < |events| then Some(events[|s| - 2]) else None;
    forall e | e in events ensures PrintedObject(enc(e)) && dec(enc(e)) == Some(e) {
      assert |enc(e)| == IndexOf(events, e) + 2;
    }
    assert JsonCodec(enc, dec, events);
  }

  function Frame(enc: Encoder, e: Event): string {
    "data: " + enc(e) + "\n\n"
  }

  function Print(enc: Encoder, events: seq<Event>): string {
    if events == [] then "" else Frame(enc, events[0]) + Print(enc, events[1..])
  }

  lemma {:induction false} PrintAppend(enc: Encoder, a: seq<Event>, b: seq<Event>)
    ensures Print(enc, a + b) == Print(enc, a) + Print(enc, b)
  {
    if a == [] {
      assert a + b == b;
    } else {
      assert (a + b)[1..] == a[1..] + b;
      PrintAppend(enc, a[1..], b);
    }
  }

  lemma PrintOne(enc: Encoder, e: Event)
    ensures Print(enc, [e]) == Frame(enc, e)
  {
    assert [e][1..] == [];
    assert Frame(enc, e) + "" == Frame(enc, e);
  }

  /** The deltas of one message, in steps of two characters. */
  method YieldDeltas(enc: Encoder, content: string, index: nat, sent: string) returns (out: string)
    ensures out == sent + Print(enc, Deltas(content, index))
  {
    out := sent;
    var i := 0;
    while i < |content|
      invariant i <= |content|
      invariant out + Print(enc, Deltas(content[i..], index)) == sent + Print(enc, Deltas(content, index))
    {
      var next := if i + CHUNK_SIZE <= |content| then i + CHUNK_SIZE else |content|;
      var e := Delta(content[i..next], index);
      var rest := Deltas(content[next..], index);
      assert content[i..][..next - i] == content[i..next] && content[i..][next - i..] == content[next..];
      assert Deltas(content[i..], index) == [e] + rest;
      assert ([e] + rest)[1..] == rest;
      assert out + (Frame(enc, e) + Print(enc, rest)) == (out + Frame(enc, e)) + Print(enc, rest);
      out := out + Frame(enc, e);
      i := next;
    }
    assert content[|content|..] == "";
    assert out + "" == out;
  }

  method YieldAnswer(enc: Encoder, generation: string, messages: seq<Message>, emotion: Emotion) returns (out: string)
    ensures out == Print(enc, Answer(generation, messages, emotion))
  {
    var meta := Meta(generation, |messages|);
    out := Frame(enc, meta);
    ghost var sent := [meta];
    assert sent[1..] == [] && Print(enc, sent) == Frame(enc, meta) + "";
    for k := 0 to |messages|
      invariant out == Print(enc, sent)
      invariant sent + AllDeltas(messages, k) == [meta] + AllDeltas(messages, 0)
    {
      var deltas := Deltas(messages[k].content, k);
      out := YieldDeltas(enc, messages[k].content, k, out);
      PrintAppend(enc, sent, deltas);
      assert sent + (deltas + AllDeltas(messages, k + 1)) == (sent + deltas) + AllDeltas(messages, k + 1);
      sent := sent + deltas;
    }
    assert sent + [] == sent;
    var last := Done(messages, emotion);
    PrintAppend(enc, sent, [last]);
    assert [last][1..] == [];
    out := out + Frame(enc, last);
  }

  /** The whole stream of one answer. */
  method StreamAnswer(enc: Encoder, generation: string, p: Payload) returns (out: string)
    ensures out == Print(enc, Events(generation, p))
  {
    if p.error && p.code == Some(LLM_FAILED) && p.message == Some(TIMEOUT_TEXT) {
      out := YieldPair(enc, Meta(generation, 0), Failed(LLM_FAILED, TIMEOUT_TEXT));
    } else if p.obsolete {
      out := YieldPair(enc, Meta(generation, 0), Obsolete);
    } else if p.error {
      out := YieldPair(enc, Meta(generation, 0), Failed(GetOr(p.code, LLM_FAILED), GetOr(p.message, DEFAULT_FAILURE)));
    } else {
      out := YieldAnswer(enc, generation, DoneMessages(p), GetOr(p.emotion, CALM));
    }
  }

  method YieldPair(enc: Encoder, first: Event, second: Event) returns (out: string)
    ensures out == Print(enc, [first, second])
  {
    out := Frame(enc, first);
    out := out + Frame(enc, second);
    PrintOne(enc, first);
    PrintOne(enc, second);
    PrintAppend(enc, [first], [second]);
    assert [first] + [second] == [first, second];
  }

  // ------------------------------------------------------------------- parser

  datatype Cut = Cut(lines: seq<string>, rest: string)

  function Before(c: char, cut: Cut): Cut {
    if c == '\n' then Cut([""] + cut.lines, cut.rest)
    else if cut.lines == [] then Cut([], [c] + cut.rest)
    else Cut([[c] + cut.lines[0]] + cut.lines[1..], cut.rest)
  }

  /** The complete lines of a text, and what follows the last newline. */
  function CompleteLines(text: string): (cut: Cut)
    ensures '\n' !in cut.rest
  {
    if text == "" then Cut([], "") else Before(text[0], CompleteLines(text[1..]))
  }

  function DataEvents(dec: Decoder, s: string): seq<Event> {
    if "data: " <= s then
      var e := dec(s[6..]);
      if e.Some? then [e.value] else []
    else []
  }

  function LineEvents(dec: Decoder, line: string): seq<Event> {
    DataEvents(dec, Strip(line))
  }

  type LineReader = string -> seq<Event>

  function Reader(dec: Decoder): LineReader {
    line => LineEvents(dec, line)
  }

  function EventsOf(read: LineReader, lines: seq<string>): seq<Event> {
    if lines == [] then [] else read(lines[0]) + EventsOf(read, lines[1..])
  }

  /** What the client has yielded and still buffers after the chunks. */
  function Receive(dec: Decoder, chunks: seq<string>, buffer: string): (seq<Event>, string)
    decreases |chunks|
  {
    if chunks == [] then ([], buffer)
    else
      var cut := CompleteLines(buffer + chunks[0]);
      var (later, left) := Receive(dec, chunks[1..], cut.rest);
      (EventsOf(Reader(dec), cut.lines) + later, left)
  }

  class SseClient {
    const dec: Decoder
    var buf: string

    constructor (dec: Decoder)
      ensures this.dec == dec && buf == ""
    {
      this.dec := dec;
      buf := "";
    }

    /** Takes the first complete line off the buffer. */
    method TakeLine() returns (line: string)
      requires '\n' in buf
      modifies this
      ensures |buf| < |old(buf)| && '\n' !in line && old(buf) == line + "\n" + buf
      ensures CompleteLines(old(buf)) == Joined(Cut([line], ""), CompleteLines(buf))
    {
      var k := 0;
      while buf[k] != '\n'
        invariant k < |buf| && '\n' in buf[k..] && '\n' !in buf[..k]
        decreases |buf| - k
      {
        k := k + 1;
      }
      line := buf[..k];
      FirstCompleteLine(buf, k);
      buf := buf[k + 1..];
    }

    /** One received chunk: complete lines are taken off the buffer one by one. */
    method Feed(chunk: string) returns (events: seq<Event>)
      modifies this
      ensures events == EventsOf(Reader(dec), CompleteLines(old(buf) + chunk).lines)
      ensures buf == CompleteLines(old(buf) + chunk).rest
    {
      events := [];
      buf := buf + chunk;
      ghost var lines: seq<string>, all := [], CompleteLines(buf);
      while '\n' in buf
        invariant all == Joined(Cut(lines, ""), CompleteLines(buf)) && events == EventsOf(Reader(dec), lines)
        decreases |buf|
      {
        var line := TakeLine();
        JoinedTwice(lines, line, CompleteLines(buf));
        EventsOfOne(Reader(dec), lines, line);
        events := events + Reader(dec)(line);
        lines := lines + [line];
      }
      NoCompleteLine(buf);
      assert lines + [] == lines;
    }
  }

  lemma JoinedTwice(lines: seq<string>, line: string, cut: Cut)
    ensures Joined(Cut(lines, ""), Joined(Cut([line], ""), cut)) == Joined(Cut(lines + [line], ""), cut)
  {
    assert lines + ([line] + cut.lines) == (lines + [line]) + cut.lines;
  }

  lemma EventsOfOne(read: LineReader, lines: seq<string>, line: string)
    ensures EventsOf(read, lines + [line]) == EventsOf(read, lines) + read(line)
  {
    EventsOfAppend(read, lines, [line]);
    assert [line][1..] == [];
    assert read(line) + [] == read(line);
  }

  lemma {:induction false} NoCompleteLine(text: string)
    requires '\n' !in text
    ensures CompleteLines(text) == Cut([], text)
  {
    if text != "" {
      NoCompleteLine(text[1..]);
      assert [text[0]] + text[1..] == text;
    }
  }

  lemma {:induction false} FirstCompleteLine(text: string, k: nat)
    requires k < |text| && text[k] == '\n' && '\n' !in text[..k]
    ensures CompleteLines(text) == Joined(Cut([text[..k]], ""), CompleteLines(text[k + 1..]))
  {
    if k > 0 {
      assert text[..k][0] == text[0] && text[1..][..k - 1] == text[..k][1..];
      assert text[1..][k..] == text[k + 1..];
      FirstCompleteLine(text[1..], k - 1);
      assert [text[0]] + text[1..][..k - 1] == text[..k];
    }
  }

  // ------------------------------------------------------- chunks do not matter

  lemma {:induction false} CompleteLinesAppend(a: string, b: string)
    ensures CompleteLines(a + b) == Joined(CompleteLines(a), CompleteLines(CompleteLines(a).rest + b))
    decreases |a|
  {
    if a == "" {
      assert a + b == b && "" + b == b;
      assert [] + CompleteLines(b).lines == CompleteLines(b).lines;
    } else {
      assert (a + b)[1..] == a[1..] + b;
      CompleteLinesAppend(a[1..], b);
      var first := CompleteLines(a[1..]);
      BeforeJoined(a[0], first, CompleteLines(first.rest + b));
      var text := [a[0]] + first.rest + b;
      assert text[0] == a[0] && text[1..] == first.rest + b;
    }
  }

  function Joined(first: Cut, later: Cut): Cut {
    Cut(first.lines + later.lines, later.rest)
  }

  lemma BeforeJoined(c: char, first: Cut, later: Cut)
    ensures Before(c, Joined(first, later))
         == if c != '\n' && first.lines == [] then Before(c, later) else Joined(Before(c, first), later)
    ensures forall r :: Joined(Cut([], r), later) == later
  {
    assert [] + later.lines == later.lines;
    if c == '\n' {
      assert [""] + (first.lines + later.lines) == ([""] + first.lines) + later.lines;
    } else if first.lines == [] {
      assert first.lines + later.lines == later.lines;
    } else {
      assert (first.lines + later.lines)[1..] == first.lines[1..] + later.lines;
      var head := [[c] + first.lines[0]];
      assert head + (first.lines[1..] + later.lines) == (head + first.lines[1..]) + later.lines;
    }
  }

  lemma {:induction false} EventsOfAppend(read: LineReader, a: seq<string>, b: seq<string>)
    ensures EventsOf(read, a + b) == EventsOf(read, a) + EventsOf(read, b)
  {
    if a == [] {
      assert a + b == b;
    } else {
      assert (a + b)[1..] == a[1..] + b;
      EventsOfAppend(read, a[1..], b);
    }
  }

  /** However the characters are cut into chunks, the client yields the events of
      the whole text and keeps its unfinished last line. */
  lemma {:induction false} ChunksDoNotMatter(dec: Decoder, chunks: seq<string>, buffer: string)
    requires '\n' !in buffer
    ensures var cut := CompleteLines(buffer + Concat(chunks));
      Receive(dec, chunks, buffer) == (EventsOf(Reader(dec), cut.lines), cut.rest)
    decreases |chunks|
  {
    if chunks == [] {
      assert buffer + "" == buffer;
      NoCompleteLine(buffer);
    } else {
      var cut := CompleteLines(buffer + chunks[0]);
      CompleteLinesAppend(buffer + chunks[0], Concat(chunks[1..]));
      assert (buffer + chunks[0]) + Concat(chunks[1..]) == buffer + Concat(chunks);
      ChunksDoNotMatter(dec, chunks[1..], cut.rest);
      EventsOfAppend(Reader(dec), cut.lines, CompleteLines(cut.rest + Concat(chunks[1..])).lines);
    }
  }

  // ----------------------------------------------------------------- round trip

  lemma FrameReadsBack(enc: Encoder, dec: Decoder, e: Event)
    requires PrintedObject(enc(e)) && dec(enc(e)) == Some(e)
    ensures Reader(dec)("data: " + enc(e)) == [e]
  {
    FrameIsNotStripped(enc(e));
    FrameData(dec, enc(e), e);
  }

  lemma BlankLineIsSkipped(dec: Decoder)
    ensures Reader(dec)("") == []
  {
  }

  lemma FrameIsNotStripped(printed: string)
    requires PrintedObject(printed)
    ensures Strip("data: " + printed) == "data: " + printed
  {
    var line := "data: " + printed;
    assert line[0] == 'd' && line[|line| - 1] == printed[|printed| - 1];
    Unstripped(line);
  }

  lemma FrameData(dec: Decoder, printed: string, e: Event)
    requires dec(printed) == Some(e)
    ensures DataEvents(dec, "data: " + printed) == [e]
  {
    assert ("data: " + printed)[6..] == printed;
  }

  lemma FrameLines(enc: Encoder, e: Event, rest: string)
    requires PrintedObject(enc(e))
    ensures CompleteLines(Frame(enc, e) + rest) == Joined(Cut(["data: " + enc(e), ""], ""), CompleteLines(rest))
  {
    var line := "data: " + enc(e);
    var text := Frame(enc, e) + rest;
    assert text == line + "\n" + "\n" + rest;
    assert text[..|line|] == line && text[|line|] == '\n' && '\n' !in line;
    assert text[|line| + 1..] == "\n" + rest;
    FirstCompleteLine(text, |line|);
    var second := "\n" + rest;
    assert second[..0] == "" && second[0 + 1..] == rest;
    FirstCompleteLine(second, 0);
    assert [line] + ([""] + CompleteLines(rest).lines) == [line, ""] + CompleteLines(rest).lines;
  }

  lemma {:induction false} PrintedEventsReadBack(enc: Encoder, dec: Decoder, events: seq<Event>)
    requires JsonCodec(enc, dec, events)
    ensures var cut := CompleteLines(Print(enc, events)); EventsOf(Reader(dec), cut.lines) == events && cut.rest == ""
  {
    if events != [] {
      var rest := Print(enc, events[1..]);
      PrintedEventsReadBack(enc, dec, events[1..]);
      assert PrintedObject(enc(events[0]));
      FrameLines(enc, events[0], rest);
      FrameReadsBack(enc, dec, events[0]);
      BlankLineIsSkipped(dec);
      FrameEvents(Reader(dec), "data: " + enc(events[0]), events[0], CompleteLines(rest).lines);
      assert [events[0]] + events[1..] == events;
    }
  }

  lemma FrameEvents(read: LineReader, line: string, e: Event, later: seq<string>)
    requires read(line) == [e] && read("") == []
    ensures EventsOf(read, [line, ""] + later) == [e] + EventsOf(read, later)
  {
    EventsOfOne(read, [], line);
    EventsOfOne(read, [line], "");
    assert [] + [line] == [line] && [line] + [""] == [line, ""];
    EventsOfAppend(read, [line, ""], later);
  }

  /** Printing events and reading the characters in any chunks gives exactly the
      events, in order, with nothing left over. */
  lemma RoundTrip(enc: Encoder, dec: Decoder, events: seq<Event>, chunks: seq<string>)
    requires JsonCodec(enc, dec, events) && Concat(chunks) == Print(enc, events)
    ensures Receive(dec, chunks, "") == (events, "")
  {
    ReceiveAll(dec, chunks);
    PrintedEventsReadBack(enc, dec, events);
  }

  lemma LongerTextExtends(read: LineReader, a: string, b: string)
    ensures EventsOf(read, CompleteLines(a).lines) <= EventsOf(read, CompleteLines(a + b).lines)
  {
    CompleteLinesAppend(a, b);
    EventsOfAppend(read, CompleteLines(a).lines, CompleteLines(CompleteLines(a).rest + b).lines);
  }

  lemma PrefixExtends(read: LineReader, got: string, all: string)
    requires got <= all
    ensures EventsOf(read, CompleteLines(got).lines) <= EventsOf(read, CompleteLines(all).lines)
  {
    assert got + all[|got|..] == all;
    LongerTextExtends(read, got, all[|got|..]);
  }

  lemma ReceiveAll(dec: Decoder, chunks: seq<string>)
    ensures var cut := CompleteLines(Concat(chunks));
      Receive(dec, chunks, "") == (EventsOf(Reader(dec), cut.lines), cut.rest)
  {
    ChunksDoNotMatter(dec, chunks, "");
    assert "" + Concat(chunks) == Concat(chunks);
  }

  /** A stream that breaks off has yielded a prefix of the events. */
  lemma BrokenStreamYieldsPrefix(enc: Encoder, dec: Decoder, events: seq<Event>, chunks: seq<string>)
    requires JsonCodec(enc, dec, events) && Concat(chunks) <= Print(enc, events)
    ensures Receive(dec, chunks, "").0 <= events
  {
    ReceiveAll(dec, chunks);
    PrefixExtends(Reader(dec), Concat(chunks), Print(enc, events));
    PrintedEventsReadBack(enc, dec, events);
  }

  /** What a client of a successful answer can rebuild: the deltas it received for
      each index are the message that `done` carries. */
  lemma ClientRebuildsTheAnswer(enc: Encoder, dec: Decoder, generation: string, p: Payload, chunks: seq<string>)
    requires JsonCodec(enc, dec, Events(generation, p)) && Concat(chunks) == Print(enc, Events(generation, p))
    requires !p.error && !p.obsolete
    ensures var got := Receive(dec, chunks, "").0;
      && 2 <= |got| && got[0] == Meta(generation, |DoneMessages(p)|)
      && got[|got| - 1].Done? && got[|got| - 1].messages == DoneMessages(p)
      && forall k | 0 <= k < |DoneMessages(p)| :: Collect(got, k) == DoneMessages(p)[k].content
  {
    RoundTrip(enc, dec, Events(generation, p), chunks);
    AnswerSpellsItsMessages(generation, DoneMessages(p), GetOr(p.emotion, CALM));
  }
}
