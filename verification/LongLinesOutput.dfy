/** What the splitter writes, said of the output itself: each line in its place, a
    long one with its text in chunks behind bullet marks or as paragraphs. */
module LongLinesOutput {
  import opened Results
  import opened PythonText
  import opened SentencePacking
  import opened LongLines
  import opened LongLinesTheorems

  // --------------------------------------------------------------- parts of a line

  ghost predicate AllSpace(s: string) {
    forall i | 0 <= i < |s| :: IsSpace(s[i])
  }

  lemma {:induction false} LeadingSpace(s: string, i: nat)
    requires i < |s| - |Lstrip(s)|
    ensures IsSpace(s[i])
  {
    if i > 0 { LeadingSpace(s[1..], i - 1); }
  }

  lemma LstripDropsSpace(s: string) returns (front: string)
    ensures AllSpace(front) && s == front + Lstrip(s)
  {
    front := s[..|s| - |Lstrip(s)|];
    forall i | 0 <= i < |front| ensures IsSpace(front[i]) { LeadingSpace(s, i); }
  }

  lemma {:induction false} RstripDropsSpace(s: string) returns (tail: string)
    ensures AllSpace(tail) && s == Rstrip(s) + tail
  {
    tail := "";
    if s != "" && IsSpace(s[|s| - 1]) {
      var earlier := RstripDropsSpace(s[..|s| - 1]);
      tail := earlier + [s[|s| - 1]];
      assert s == s[..|s| - 1] + [s[|s| - 1]];
    }
  }

  lemma {:induction false} LstripTakesSpace(indent: string, rest: string)
    requires AllSpace(indent) && rest != "" && !IsSpace(rest[0])
    ensures Lstrip(indent + rest) == rest
  {
    if indent == "" {
      assert indent + rest == rest;
    } else {
      assert (indent + rest)[1..] == indent[1..] + rest;
      LstripTakesSpace(indent[1..], rest);
    }
  }

  /** Indentation, a dash, space, and text that begins with no space. */
  ghost predicate BulletLine(line: string, indent: string, content: string) {
    && AllSpace(indent) && (content != "" ==> !IsSpace(content[0]))
    && exists gap :: gap != "" && AllSpace(gap) && line == indent + "-" + gap + content
  }

  /** Indentation and text, with space behind it; of a blank line all is indentation. */
  ghost predicate ProseLine(line: string, indent: string, content: string) {
    && AllSpace(indent)
    && (content != "" ==> !IsSpace(content[0]) && !IsSpace(content[|content| - 1]))
    && (content == "" ==> indent == line)
    && exists tail :: AllSpace(tail) && line == indent + content + tail
  }

  ghost predicate IsBulletLine(line: string) {
    exists indent, content :: BulletLine(line, indent, content)
  }

  lemma PartsOfBullet(line: string)
    requires IsBullet(line)
    ensures BulletLine(line, Indent(line), Content(line))
  {
    var r := Lstrip(line);
    var indent := LstripDropsSpace(line);
    var gap := LstripDropsSpace(r[1..]);
    assert indent == Indent(line) by { FrontIs(line, indent, r); }
    BulletParts(line, indent, r, gap, Content(line));
  }

  lemma FrontIs(s: string, front: string, rest: string)
    requires s == front + rest
    ensures s[..|s| - |rest|] == front
  {
  }

  lemma BulletParts(line: string, indent: string, r: string, gap: string, content: string)
    requires line == indent + r && 2 <= |r| && r[0] == '-' && IsSpace(r[1]) && r[1..] == gap + content
    requires AllSpace(indent) && AllSpace(gap) && (content != "" ==> !IsSpace(content[0]))
    ensures BulletLine(line, indent, content)
  {
    assert r[1..][0] == r[1];
    assert line == indent + "-" + gap + content;
  }

  lemma BulletMarkIsSeen(line: string, indent: string, content: string)
    requires BulletLine(line, indent, content)
    ensures IsBullet(line)
  {
    var gap :| gap != "" && AllSpace(gap) && line == indent + "-" + gap + content;
    var r := "-" + gap + content;
    assert line == indent + r && r[1] == gap[0];
    LstripTakesSpace(indent, r);
  }

  lemma BulletExactlyWhen(line: string)
    ensures IsBullet(line) <==> IsBulletLine(line)
  {
    if IsBullet(line) {
      PartsOfBullet(line);
    } else if indent, content :| BulletLine(line, indent, content) {
      BulletMarkIsSeen(line, indent, content);
    }
  }

  lemma PartsOfProse(line: string)
    ensures !IsBullet(line) ==> ProseLine(line, Indent(line), Content(line))
  {
    if !IsBullet(line) {
      var r := Lstrip(line);
      var indent := LstripDropsSpace(line);
      var tail := RstripDropsSpace(r);
      FrontIs(line, indent, r);
      ProseParts(line, indent, r, Rstrip(r), tail);
    }
  }

  lemma ProseParts(line: string, indent: string, r: string, content: string, tail: string)
    requires line == indent + r && r == content + tail && AllSpace(indent) && AllSpace(tail)
    requires (r != "" ==> !IsSpace(r[0])) && (content != "" ==> !IsSpace(content[|content| - 1]))
    ensures ProseLine(line, indent, content)
  {
    if content == "" {
      assert r == tail;
      assert r == "";
    } else {
      assert content[0] == r[0];
    }
    assert line == indent + content + tail;
  }

  // ----------------------------------------------------------- sentences and chunks

  predicate EndsSentence(c: char) {
    c == '\U{3002}' || c == '\U{FF1B}'
  }

  /** A text cut behind every sentence mark, and nowhere else. */
  ghost predicate IsCut(sentences: seq<string>, content: string) {
    && Concat(sentences) == content
    && (forall k | 0 <= k < |sentences| ::
          sentences[k] != "" && forall i | 0 <= i < |sentences[k]| - 1 :: !EndsSentence(sentences[k][i]))
    && (forall k | 0 <= k < |sentences| - 1 :: EndsSentence(sentences[k][|sentences[k]| - 1]))
  }

  lemma {:induction false} SentencesCut(content: string)
    ensures IsCut(Sentences(content), content)
    decreases |content|
  {
    if content != "" {
      var k := SentenceLength(content);
      SentencesCut(content[k..]);
      OneSentenceMore(content[..k], content[k..], Sentences(content[k..]), content);
    }
  }

  lemma OneSentenceMore(first: string, rest: string, later: seq<string>, content: string)
    requires content == first + rest && first != "" && IsCut(later, rest)
    requires forall i | 0 <= i < |first| - 1 :: !EndsSentence(first[i])
    requires rest != "" ==> EndsSentence(first[|first| - 1])
    ensures IsCut([first] + later, content)
  {
    var all := [first] + later;
    assert all[1..] == later;
    if later == [] { assert Concat(later) == ""; }
    if later != [] { assert rest != "" by { assert Concat(later) == later[0] + Concat(later[1..]); } }
  }

  /** Chunks filled one after the other: each holds whole sentences, at most 360
      characters of them or a single one, and the next sentence would not have fitted. */
  ghost predicate IsFilled(chunks: seq<string>, sentences: seq<string>, groups: seq<seq<string>>) {
    && |groups| == |chunks| && Flatten(groups) == sentences
    && (forall k | 0 <= k < |chunks| ::
          groups[k] != [] && chunks[k] == Concat(groups[k]) && (|groups[k]| == 1 || |chunks[k]| <= 360))
    && (forall k | 0 <= k < |chunks| - 1 :: |chunks[k]| + |groups[k + 1][0]| > 360)
  }

  lemma {:induction false} FillStops(s: seq<string>, n: nat, limit: int)
    requires 1 <= n <= |s|
    ensures var m := Fill(s, n, limit); m < |s| ==> |Concat(s[..m])| + |s[m]| > limit
    decreases |s| - n
  {
    if n < |s| && |Concat(s[..n])| + |s[n]| <= limit {
      FillStops(s, n + 1, limit);
    }
  }

  lemma {:induction false} PackFills(s: seq<string>) returns (groups: seq<seq<string>>)
    requires forall i | 0 <= i < |s| :: s[i] != ""
    ensures IsFilled(Pack(s, "", CHUNK_LIMIT), s, groups)
    decreases |s|
  {
    groups := [];
    if s != [] {
      var m := Fill(s, 1, CHUNK_LIMIT);
      FirstChunk(s, CHUNK_LIMIT);
      FillStops(s, 1, CHUNK_LIMIT);
      var later := PackFills(s[m..]);
      OneChunkMore(s, m, later, Pack(s[m..], "", CHUNK_LIMIT));
      groups := [s[..m]] + later;
    }
  }

  lemma OneChunkMore(s: seq<string>, m: nat, later: seq<seq<string>>, chunks: seq<string>)
    requires 1 <= m <= |s| && Allowed(s[..m], 360) && IsFilled(chunks, s[m..], later)
    requires m < |s| ==> |Concat(s[..m])| + |s[m]| > 360
    ensures IsFilled([Concat(s[..m])] + chunks, s, [s[..m]] + later)
  {
    var groups := [s[..m]] + later;
    assert groups[1..] == later && s == s[..m] + s[m..];
    if later != [] {
      assert Flatten(later) == later[0] + Flatten(later[1..]);
      assert s[m..][0] == s[m];
    }
  }

  // ------------------------------------------------------------------- the entries

  /** A bullet for the first chunk and sub-bullets for the others. */
  predicate AsBullets(entries: seq<string>, indent: string, chunks: seq<string>) {
    && |entries| == |chunks|
    && forall k | 0 <= k < |entries| ::
         entries[k] == if k == 0 then indent + "- " + chunks[0] else indent + "  - " + chunks[k]
  }

  /** One entry: the chunks as paragraphs, all but the first with the indentation. */
  predicate AsParagraphs(entries: seq<string>, indent: string, chunks: seq<string>) {
    && |entries| == 1
    && entries[0] == Concat(seq(|chunks|, k requires 0 <= k < |chunks| =>
         if k == 0 then chunks[0] else "\n\n" + indent + chunks[k]))
  }

  ghost predicate ChunksOf(content: string, sentences: seq<string>, groups: seq<seq<string>>, chunks: seq<string>) {
    IsCut(sentences, content) && IsFilled(chunks, sentences, groups)
  }

  /** A line's indentation and text, and the text in chunks. */
  ghost predicate Parts(line: string, indent: string, content: string, chunks: seq<string>) {
    && (if IsBulletLine(line) then BulletLine(line, indent, content) else ProseLine(line, indent, content))
    && exists sentences, groups :: ChunksOf(content, sentences, groups, chunks)
  }

  ghost predicate Arranged(line: string, bullet: bool, indent: string, chunks: seq<string>, entries: seq<string>) {
    if |chunks| == 1 then entries == [line]
    else if bullet then 2 <= |chunks| && AsBullets(entries, indent, chunks)
    else AsParagraphs(entries, indent, chunks)
  }

  /** What a long line becomes: its text in chunks; the line itself if there is one. */
  ghost predicate Becomes(line: string, entries: seq<string>) {
    exists indent, content, chunks ::
      Parts(line, indent, content, chunks) && Arranged(line, IsBulletLine(line), indent, chunks, entries)
  }

  lemma {:induction false} SubBulletsInOrder(indent: string, chunks: seq<string>)
    ensures forall k | 0 <= k < |chunks| :: SubBullets(indent, chunks)[k] == indent + "  - " + chunks[k]
  {
    if chunks != [] {
      SubBulletsInOrder(indent, chunks[1..]);
      forall k | 0 <= k < |chunks| ensures SubBullets(indent, chunks)[k] == indent + "  - " + chunks[k] {
        if k > 0 { assert chunks[k] == chunks[1..][k - 1]; }
      }
    }
  }

  function Paragraphs(separator: string, chunks: seq<string>): (r: seq<string>)
    ensures |r| == |chunks|
  {
    seq(|chunks|, k requires 0 <= k < |chunks| => if k == 0 then chunks[0] else separator + chunks[k])
  }

  lemma {:induction false} JoinIsParagraphs(separator: string, chunks: seq<string>)
    ensures Join(separator, chunks) == Concat(Paragraphs(separator, chunks))
  {
    var parts := Paragraphs(separator, chunks);
    if chunks != [] {
      assert parts[0] == chunks[0];
      if |chunks| == 1 {
        assert parts[1..] == [] && chunks[0] + "" == chunks[0];
      } else {
        var rest := Paragraphs(separator, chunks[1..]);
        JoinIsParagraphs(separator, chunks[1..]);
        assert parts[1..][0] == separator + rest[0] && parts[1..][1..] == rest[1..];
        assert Concat(parts[1..]) == separator + rest[0] + Concat(rest[1..]);
        assert Concat(rest) == rest[0] + Concat(rest[1..]);
        assert separator + rest[0] + Concat(rest[1..]) == separator + Concat(rest);
        assert chunks[0] + separator + Concat(rest) == chunks[0] + (separator + Concat(rest));
      }
    }
  }

  lemma ArrangedAsSaid(line: string, bullet: bool, indent: string, chunks: seq<string>, entries: seq<string>)
    requires Arrange(line, bullet, indent, chunks) == Some(entries)
    ensures Arranged(line, bullet, indent, chunks, entries)
  {
    if |chunks| != 1 {
      if bullet {
        SubBulletsInOrder(indent, chunks[1..]);
      } else {
        JoinIsParagraphs("\n\n" + indent, chunks);
        assert Paragraphs("\n\n" + indent, chunks) == seq(|chunks|, k requires 0 <= k < |chunks| =>
          if k == 0 then chunks[0] else "\n\n" + indent + chunks[k]);
      }
    }
  }

  lemma LineHasParts(line: string)
    ensures Parts(line, Indent(line), Content(line), Chunks(line))
  {
    var content := Content(line);
    var sentences := Sentences(content);
    SentencesAreTheContent(content);
    SentencesCut(content);
    var groups := PackFills(sentences);
    assert ChunksOf(content, sentences, groups, Chunks(line));
    BulletExactlyWhen(line);
    if IsBullet(line) { PartsOfBullet(line); } else { PartsOfProse(line); }
  }

  /** The entries of a long line hold its text, without a character lost, in the
      chunks, marks and indentation said above. */
  lemma SplitLineBecomes(line: string, entries: seq<string>)
    requires SplitLine(line) == Some(entries)
    ensures Becomes(line, entries)
  {
    LineHasParts(line);
    BulletExactlyWhen(line);
    ArrangedAsSaid(line, IsBullet(line), Indent(line), Chunks(line), entries);
  }

  // ---------------------------------------------------------------- the whole text

  predicate IsFence(line: string) {
    "```" <= Lstrip(line)
  }

  /** How many of the first n lines are marks. */
  function Marks(mark: string -> bool, lines: seq<string>, n: nat): nat
    requires n <= |lines|
  {
    if n == 0 then 0 else Marks(mark, lines, n - 1) + if mark(lines[n - 1]) then 1 else 0
  }

  /** Line n is inside a fenced block, or begins it. */
  predicate InFence(lines: seq<string>, n: nat)
    requires n < |lines|
  {
    Marks(IsFence, lines, n + 1) % 2 == 1
  }

  lemma {:induction false} MarksDecide(
    toggles: string -> bool, mark: string -> bool, emit: (string, bool) -> Option<seq<string>>, lines: seq<string>,
    n: nat)
    requires n <= |lines| && forall line :: toggles(line) <==> mark(line)
    ensures After(toggles, lines[..n], false) <==> Marks(mark, lines, n) % 2 == 1
  {
    if n > 0 {
      MarksDecide(toggles, mark, emit, lines, n - 1);
      AfterOneMore(toggles, emit, lines, n - 1, false);
    }
  }

  lemma AfterOneMore(
    toggles: string -> bool, emit: (string, bool) -> Option<seq<string>>, lines: seq<string>, n: nat, state: bool)
    requires n < |lines|
    ensures var before := After(toggles, lines[..n], state);
      After(toggles, lines[..n + 1], state) == if toggles(lines[n]) then !before else before
  {
    var before, one := After(toggles, lines[..n], state), [lines[n]];
    assert lines[..n + 1] == lines[..n] + one;
    ReadAppend(toggles, emit, lines[..n], one, state);
    assert one[1..] == [];
    assert After(toggles, one[1..], !before) == !before && After(toggles, one[1..], before) == before;
  }

  /** What line i of a text becomes: itself in a fenced block, up to 500 characters or
      as a table row, and otherwise its parts. */
  ghost predicate LineBecomes(lines: seq<string>, i: nat, entries: seq<string>)
    requires i < |lines|
  {
    if InFence(lines, i) || |lines[i]| <= 500 || "|" <= Lstrip(lines[i]) then entries == [lines[i]]
    else Becomes(lines[i], entries)
  }

  /** The entries of each line, for any reader with two states. */
  lemma {:induction false} ReadInParts(
    toggles: string -> bool, emit: (string, bool) -> Option<seq<string>>, lines: seq<string>, state: bool)
    returns (parts: seq<seq<string>>)
    requires Read(toggles, emit, lines, state).Some?
    ensures |parts| == |lines| && Flatten(parts) == Read(toggles, emit, lines, state).value
    ensures forall i | 0 <= i < |lines| :: emit(lines[i], After(toggles, lines[..i + 1], state)) == Some(parts[i])
  {
    parts := [];
    if lines != [] {
      var next := if toggles(lines[0]) then !state else state;
      var later := ReadInParts(toggles, emit, lines[1..], next);
      var first := emit(lines[0], next).value;
      parts := [first] + later;
      assert parts[1..] == later;
      forall i | 0 <= i < |lines| ensures emit(lines[i], After(toggles, lines[..i + 1], state)) == Some(parts[i]) {
        if i > 0 {
          assert lines[..i + 1][1..] == lines[1..][..i] && lines[..i + 1][0] == lines[0];
        } else {
          assert lines[..1][1..] == [] && lines[..1][0] == lines[0];
          assert After(toggles, lines[..1], state) == After(toggles, lines[..1][1..], next) == next;
        }
      }
    }
  }

  /** What the splitter writes for a text: for every line in its order what it becomes,
      with newlines between, and one at the end if the text has it. */
  lemma OptimizeWrites(text: string, written: string) returns (parts: seq<seq<string>>)
    requires Optimize(text) == Some(written)
    ensures |parts| == |SplitLines(text)|
    ensures forall i | 0 <= i < |parts| :: LineBecomes(SplitLines(text), i, parts[i])
    ensures written == Concat(Paragraphs("\n", Flatten(parts)))
      + (if text != "" && text[|text| - 1] == '\n' then "\n" else "")
  {
    var lines := SplitLines(text);
    parts := ReadInParts(TogglesFence, LineOutput, lines, false);
    JoinIsParagraphs("\n", Flatten(parts));
    forall i | 0 <= i < |parts| ensures LineBecomes(lines, i, parts[i]) {
      LineIsWritten(lines, i, parts[i]);
    }
  }

  lemma LineIsWritten(lines: seq<string>, i: nat, entries: seq<string>)
    requires i < |lines| && LineOutput(lines[i], FenceAfter(lines[..i + 1], false)) == Some(entries)
    ensures LineBecomes(lines, i, entries)
  {
    MarksDecide(TogglesFence, IsFence, LineOutput, lines, i + 1);
    if !Protected(lines[i], FenceAfter(lines[..i + 1], false)) {
      SplitLineBecomes(lines[i], entries);
    }
  }

  // ---------------------------------------------------------------- lines of a text

  predicate EndsLine(c: char) {
    c in "\n\r\U{B}\U{C}\U{1C}\U{1D}\U{1E}\U{85}\U{2028}\U{2029}"
  }

  /** A line break: one character, or a carriage return with its newline. */
  predicate IsBreak(s: string) {
    s == "\r\n" || (|s| == 1 && EndsLine(s[0]))
  }

  /** The text is its lines, each with the break behind it; only the last may have
      none, and no carriage return is parted from its newline. */
  ghost predicate LinesWithBreaks(text: string, lines: seq<string>, breaks: seq<string>)
    decreases |lines|
  {
    if lines == [] then text == "" && breaks == []
    else
      && breaks != [] && (forall i | 0 <= i < |lines[0]| :: !EndsLine(lines[0][i]))
      && (IsBreak(breaks[0]) || (breaks[0] == "" && |lines| == 1 && lines[0] != ""))
      && lines[0] + breaks[0] <= text
      && var rest := text[|lines[0]| + |breaks[0]|..];
      && (breaks[0] == "\r" && rest != "" ==> rest[0] != '\n')
      && LinesWithBreaks(rest, lines[1..], breaks[1..])
  }

  lemma {:induction false} SplitLinesIsTheText(text: string) returns (breaks: seq<string>)
    ensures LinesWithBreaks(text, SplitLines(text), breaks)
    decreases |text|
  {
    breaks := [];
    if text != "" {
      if IsLineBreak(text[0]) {
        var n := BreakLength(text);
        var later := SplitLinesIsTheText(text[n..]);
        breaks := [text[..n]] + later;
        BreakInFront(text, n, SplitLines(text[n..]), later);
      } else if |text| == 1 {
        breaks := [""];
        assert [text][1..] == [] && breaks[1..] == [] && text[1..] == "" && text + "" == text;
      } else {
        breaks := SplitLinesIsTheText(text[1..]);
        CharacterInFront(text, SplitLines(text[1..]), breaks);
      }
    }
  }

  lemma BreakInFront(text: string, n: nat, later: seq<string>, breaks: seq<string>)
    requires text != "" && IsLineBreak(text[0]) && n == BreakLength(text) && LinesWithBreaks(text[n..], later, breaks)
    ensures LinesWithBreaks(text, [""] + later, [text[..n]] + breaks)
  {
    assert ([""] + later)[1..] == later && ([text[..n]] + breaks)[1..] == breaks;
    assert "" + text[..n] == text[..n] && text[..1] == [text[0]];
    if n == 2 { assert text[..2] == "\r\n"; }
  }

  lemma CharacterInFront(text: string, later: seq<string>, breaks: seq<string>)
    requires text != "" && !IsLineBreak(text[0]) && later != [] && LinesWithBreaks(text[1..], later, breaks)
    ensures LinesWithBreaks(text, [[text[0]] + later[0]] + later[1..], breaks)
  {
    var lines := [[text[0]] + later[0]] + later[1..];
    assert lines[1..] == later[1..];
    assert lines[0] + breaks[0] == [text[0]] + (later[0] + breaks[0]);
    assert text[1..][|later[0]| + |breaks[0]|..] == text[|lines[0]| + |breaks[0]|..];
  }

  // ---------------------------------------------------------------- short text stays

  /** The only line breaks are newlines. */
  ghost predicate OnlyNewlines(text: string) {
    forall i | 0 <= i < |text| && IsLineBreak(text[i]) :: text[i] == '\n'
  }

  lemma {:induction false} LinesJoinAgain(text: string)
    requires OnlyNewlines(text)
    ensures Join("\n", SplitLines(text)) + (if EndsWithNewline(text) then "\n" else "") == text
    decreases |text|
  {
    if text != "" {
      var rest := text[1..];
      LinesJoinAgain(rest);
      if rest == "" {
        assert text == [text[0]];
        if text[0] == '\n' { assert SplitLines(text) == [""] + SplitLines(rest) == [""]; }
      } else if text[0] == '\n' {
        assert Join("\n", [""] + SplitLines(rest)) == "\n" + Join("\n", SplitLines(rest)) by {
          assert ([""] + SplitLines(rest))[1..] == SplitLines(rest);
        }
        assert text == "\n" + rest;
      } else {
        JoinCharacter(text[0], SplitLines(rest));
        assert text == [text[0]] + rest;
      }
    }
  }

  lemma JoinCharacter(c: char, lines: seq<string>)
    requires lines != []
    ensures Join("\n", [[c] + lines[0]] + lines[1..]) == [c] + Join("\n", lines)
  {
    var all := [[c] + lines[0]] + lines[1..];
    assert all[1..] == lines[1..];
  }

  ghost predicate ShortLines(text: string) {
    forall i | 0 <= i < |SplitLines(text)| :: |SplitLines(text)[i]| <= 500
  }

  lemma {:induction false} ReadKeeps(
    toggles: string -> bool, emit: (string, bool) -> Option<seq<string>>, lines: seq<string>, state: bool)
    requires forall i, f | 0 <= i < |lines| :: emit(lines[i], f) == Some([lines[i]])
    ensures Read(toggles, emit, lines, state) == Some(lines)
  {
    if lines != [] {
      var rest := lines[1..];
      assert forall i, f | 0 <= i < |rest| :: emit(rest[i], f) == Some([rest[i]]) by {
        forall i, f | 0 <= i < |rest| ensures emit(rest[i], f) == Some([rest[i]]) {
          assert rest[i] == lines[i + 1];
        }
      }
      ReadKeeps(toggles, emit, rest, if toggles(lines[0]) then !state else state);
      assert [lines[0]] + rest == lines;
    }
  }

  /** A text without long lines is not touched. */
  lemma ShortTextStays(text: string)
    requires OnlyNewlines(text) && ShortLines(text)
    ensures Optimize(text) == Some(text)
  {
    var lines := SplitLines(text);
    forall i, f | 0 <= i < |lines| ensures LineOutput(lines[i], f) == Some([lines[i]]) {
    }
    ReadKeeps(TogglesFence, LineOutput, lines, false);
    LinesJoinAgain(text);
  }
}
