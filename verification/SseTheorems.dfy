/** What a client receives from the stream of every payload, in terms of the
    payload's own fields, and what the stream's text looks like. */
module SseTheorems {
  import opened Results
  import opened PythonText
  import opened SseStream

  // ------------------------------------------------------------ one message's deltas

  /** The deltas of a text: its pieces of two characters in order, the last one shorter
      if the text is odd. */
  predicate InPairs(deltas: seq<Event>, content: string, index: nat) {
    && |deltas| == (|content| + 1) / 2
    && forall i | 0 <= i < |deltas| ::
         deltas[i] == Delta(content[2 * i..if 2 * i + 2 <= |content| then 2 * i + 2 else |content|], index)
  }

  lemma {:induction false} DeltasAreInPairs(content: string, index: nat)
    ensures InPairs(Deltas(content, index), content, index)
    decreases |content|
  {
    if content != "" {
      var n := if |content| < 2 then |content| else 2;
      DeltasUnfold(content, index);
      DeltasAreInPairs(content[n..], index);
      OnePairMore(content, n, index, Deltas(content[n..], index));
    }
  }

  lemma OnePairMore(content: string, n: nat, index: nat, later: seq<Event>)
    requires content != "" && n == (if |content| < 2 then |content| else 2) && InPairs(later, content[n..], index)
    ensures InPairs([Delta(content[..n], index)] + later, content, index)
  {
    var deltas := [Delta(content[..n], index)] + later;
    forall i | 0 <= i < |deltas|
      ensures deltas[i] == Delta(content[2 * i..if 2 * i + 2 <= |content| then 2 * i + 2 else |content|], index)
    {
      if i == 0 {
        assert content[0..n] == content[..n];
      } else {
        var rest, low := content[n..], 2 * (i - 1);
        var high := if low + 2 <= |rest| then low + 2 else |rest|;
        assert deltas[i] == later[i - 1] == Delta(rest[low..high], index);
        assert n == 2;
        SliceBehind(content, n, low, high);
      }
    }
  }

  lemma SliceBehind(content: string, n: nat, low: nat, high: nat)
    requires n <= |content| && low <= high <= |content| - n
    ensures content[n..][low..high] == content[n + low..n + high]
  {
  }

  /** The parts between `meta` and `done`, one for each message. */
  ghost predicate InMessageOrder(deltas: seq<Event>, messages: seq<Message>, from: nat)
    requires from <= |messages|
    decreases |messages| - from
  {
    if from == |messages| then deltas == []
    else exists n | 0 <= n <= |deltas| ::
      InPairs(deltas[..n], messages[from].content, from) && InMessageOrder(deltas[n..], messages, from + 1)
  }

  lemma {:induction false} AllDeltasAreInOrder(messages: seq<Message>, from: nat)
    requires from <= |messages|
    ensures InMessageOrder(AllDeltas(messages, from), messages, from)
    decreases |messages| - from
  {
    if from < |messages| {
      var first, later := Deltas(messages[from].content, from), AllDeltas(messages, from + 1);
      DeltasAreInPairs(messages[from].content, from);
      AllDeltasAreInOrder(messages, from + 1);
      assert (first + later)[..|first|] == first && (first + later)[|first|..] == later;
    }
  }

  // ----------------------------------------------------------- what payloads lead to

  /** The wait for the answer timed out. */
  predicate IsTimeout(p: Payload) {
    p.error && p.code == Some(10102) && p.message == Some("\U{7B49}\U{5F85}\U{56DE}\U{590D}\U{8D85}\U{65F6}")
  }

  /** The messages of a successful payload: its own, with the kind "text" and the empty
      content where one is missing; its reply when it has none; or nothing. */
  predicate OwnMessages(p: Payload, messages: seq<Message>) {
    if p.messages == [] then messages == if p.reply == "" then [] else [Message("text", p.reply)]
    else
      && |messages| == |p.messages|
      && forall k | 0 <= k < |messages| ::
           && messages[k].kind == (match p.messages[k].kind case Some(kind) => kind case None => "text")
           && messages[k].content == (match p.messages[k].content case Some(content) => content case None => "")
  }

  predicate OwnEmotion(p: Payload, emotion: Emotion) {
    emotion == match p.emotion case Some(e) => e case None => Emotion("\U{5E73}\U{9759}", 1.0)
  }

  /** A whole answer: its number of messages, their texts in pairs, and `done`. */
  ghost predicate Answers(got: seq<Event>, generation: string, messages: seq<Message>, emotion: Emotion) {
    && 2 <= |got| && got[0] == Meta(generation, |messages|) && got[|got| - 1] == Done(messages, emotion)
    && InMessageOrder(got[1..|got| - 1], messages, 0)
  }

  ghost predicate Expected(got: seq<Event>, generation: string, p: Payload) {
    if IsTimeout(p) then
      got == [Meta(generation, 0), Failed(10102, "\U{7B49}\U{5F85}\U{56DE}\U{590D}\U{8D85}\U{65F6}")]
    else if p.obsolete then got == [Meta(generation, 0), Obsolete]
    else if p.error then
      && |got| == 2 && got[0] == Meta(generation, 0) && got[1].Failed?
      && got[1].code == (match p.code case Some(code) => code case None => 10102)
      && got[1].text == (match p.message case Some(text) => text case None => "LLM \U{5931}\U{8D25}")
    else exists messages, emotion ::
      OwnMessages(p, messages) && OwnEmotion(p, emotion) && Answers(got, generation, messages, emotion)
  }

  lemma EventsAreExpected(generation: string, p: Payload)
    ensures Expected(Events(generation, p), generation, p)
  {
    if !IsTimeout(p) && !p.obsolete && !p.error {
      var messages, emotion := DoneMessages(p), GetOr(p.emotion, CALM);
      AllDeltasAreInOrder(messages, 0);
      var got := Events(generation, p);
      assert got[1..|got| - 1] == AllDeltas(messages, 0);
      assert OwnMessages(p, messages) && OwnEmotion(p, emotion) && Answers(got, generation, messages, emotion);
    }
  }

  /** Whatever the payload and however its stream is cut into chunks, the client
      receives what the fields of the payload say, and nothing is left over. */
  lemma ClientReceivesThePayload(enc: Encoder, dec: Decoder, generation: string, p: Payload, chunks: seq<string>)
    requires JsonCodec(enc, dec, Events(generation, p)) && Concat(chunks) == Print(enc, Events(generation, p))
    ensures Expected(Receive(dec, chunks, "").0, generation, p) && Receive(dec, chunks, "").1 == ""
  {
    RoundTrip(enc, dec, Events(generation, p), chunks);
    EventsAreExpected(generation, p);
  }

  /** The texts that are in order determine the deltas, so the events are the only
      ones that fit the payload. */
  lemma {:induction false} OrderDeterminesDeltas(a: seq<Event>, b: seq<Event>, messages: seq<Message>, from: nat)
    requires from <= |messages| && InMessageOrder(a, messages, from) && InMessageOrder(b, messages, from)
    ensures a == b
    decreases |messages| - from
  {
    if from < |messages| {
      var n :| 0 <= n <= |a|
        && InPairs(a[..n], messages[from].content, from) && InMessageOrder(a[n..], messages, from + 1);
      var m :| 0 <= m <= |b|
        && InPairs(b[..m], messages[from].content, from) && InMessageOrder(b[m..], messages, from + 1);
      SamePairs(a[..n], b[..m], messages[from].content, from);
      OrderDeterminesDeltas(a[n..], b[m..], messages, from + 1);
      SameHalves(a, n, b, m);
    }
  }

  lemma SamePairs(a: seq<Event>, b: seq<Event>, content: string, index: nat)
    requires InPairs(a, content, index) && InPairs(b, content, index)
    ensures a == b
  {
  }

  lemma SameHalves(a: seq<Event>, n: nat, b: seq<Event>, m: nat)
    requires n <= |a| && m <= |b| && a[..n] == b[..m] && a[n..] == b[m..]
    ensures a == b
  {
    assert a == a[..n] + a[n..] && b == b[..m] + b[m..];
  }

  lemma ExpectedIsUnique(got: seq<Event>, generation: string, p: Payload)
    ensures Expected(got, generation, p) <==> got == Events(generation, p)
  {
    var events := Events(generation, p);
    EventsAreExpected(generation, p);
    if Expected(got, generation, p) && !IsTimeout(p) && !p.obsolete && !p.error {
      var messages, emotion :|
        OwnMessages(p, messages) && OwnEmotion(p, emotion) && Answers(got, generation, messages, emotion);
      var own, feeling :| OwnMessages(p, own) && OwnEmotion(p, feeling) && Answers(events, generation, own, feeling);
      assert messages == own;
      OrderDeterminesDeltas(got[1..|got| - 1], events[1..|events| - 1], messages, 0);
      SameInside(got, events);
    }
  }

  lemma SameInside(a: seq<Event>, b: seq<Event>)
    requires 2 <= |a| && 2 <= |b| && a[0] == b[0] && a[|a| - 1] == b[|b| - 1] && a[1..|a| - 1] == b[1..|b| - 1]
    ensures a == b
  {
    assert a == [a[0]] + a[1..|a| - 1] + [a[|a| - 1]];
    assert b == [b[0]] + b[1..|b| - 1] + [b[|b| - 1]];
  }

  // ------------------------------------------------------------------ the printed text

  function Frames(enc: Encoder, events: seq<Event>): (r: seq<string>)
    ensures |r| == |events|
  {
    seq(|events|, i requires 0 <= i < |events| => "data: " + enc(events[i]) + "\n\n")
  }

  /** The stream is one frame an event: the mark, the printed object, a blank line. */
  lemma {:induction false} StreamIsItsFrames(enc: Encoder, events: seq<Event>)
    ensures Print(enc, events) == Concat(Frames(enc, events))
  {
    if events != [] {
      StreamIsItsFrames(enc, events[1..]);
      assert Frames(enc, events)[1..] == Frames(enc, events[1..]);
    }
  }

  // --------------------------------------------------------------------- the client

  function Ended(lines: seq<string>): (r: seq<string>)
    ensures |r| == |lines|
  {
    seq(|lines|, i requires 0 <= i < |lines| => lines[i] + "\n")
  }

  /** The lines the client takes off and what it keeps are the text it was given: no
      line has a newline in it, and none is left over. */
  lemma {:induction false} LinesAreTheText(text: string)
    ensures var cut := CompleteLines(text);
      && text == Concat(Ended(cut.lines)) + cut.rest
      && forall i | 0 <= i < |cut.lines| :: '\n' !in cut.lines[i]
  {
    if text != "" {
      var cut := CompleteLines(text[1..]);
      LinesAreTheText(text[1..]);
      OneCharacterMore(text, cut);
    }
  }

  lemma OneCharacterMore(text: string, cut: Cut)
    requires text != "" && text[1..] == Concat(Ended(cut.lines)) + cut.rest
    requires forall i | 0 <= i < |cut.lines| :: '\n' !in cut.lines[i]
    ensures var all := Before(text[0], cut);
      && text == Concat(Ended(all.lines)) + all.rest
      && forall i | 0 <= i < |all.lines| :: '\n' !in all.lines[i]
  {
    var all, c := Before(text[0], cut), text[0];
    assert text == [c] + text[1..];
    if c == '\n' {
      assert Ended(all.lines)[1..] == Ended(cut.lines);
      assert Ended(all.lines)[0] == "" + "\n" == [c];
    } else if cut.lines != [] {
      assert Ended(all.lines)[1..] == Ended(cut.lines)[1..];
      assert Ended(all.lines)[0] == [c] + Ended(cut.lines)[0];
    }
  }

  /** A line that is no data, or whose data is not read, yields nothing. */
  lemma {:induction false} OtherLinesYieldNothing(dec: Decoder, lines: seq<string>)
    requires forall line <- lines :: !("data: " <= Strip(line)) || dec(Strip(line)[6..]).None?
    ensures EventsOf(Reader(dec), lines) == []
  {
    if lines != [] {
      OtherLinesYieldNothing(dec, lines[1..]);
    }
  }
}
