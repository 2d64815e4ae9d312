/** The fence-aware splitter of oversized prose lines. The migration and the
    verifier carry the same code; this is both. `None` stands for the
    `IndexError` of a bullet that is long but has no text. */
module LongLines {
  import opened Results
  import opened PythonText
  import opened SentencePacking

  const LINE_LIMIT := 500
  const CHUNK_LIMIT := 360

  predicate TogglesFence(line: string) { "```" <= Lstrip(line) }

  predicate IsTableRow(line: string) { "|" <= Lstrip(line) }

  /** Spaces, a dash, and at least one more space. */
  predicate IsBullet(line: string) {
    var r := Lstrip(line);
    2 <= |r| && r[0] == '-' && IsSpace(r[1])
  }

  function Indent(line: string): string { line[..|line| - |Lstrip(line)|] }

  function Content(line: string): string {
    if IsBullet(line) then Lstrip(Lstrip(line)[1..]) else Strip(line)
  }

  function Chunks(line: string): seq<string> {
    Pack(Sentences(Content(line)), "", CHUNK_LIMIT)
  }

  function SubBullets(indent: string, chunks: seq<string>): (r: seq<string>)
    ensures |r| == |chunks|
  {
    if chunks == [] then [] else [indent + "  - " + chunks[0]] + SubBullets(indent, chunks[1..])
  }

  /** A line and the chunks of its text become one entry, or a bullet with
      sub-bullets, or paragraphs with the line's indentation. */
  function Arrange(line: string, bullet: bool, indent: string, chunks: seq<string>): (r: Option<seq<string>>)
    ensures r.Some? ==> r.value != []
  {
    if |chunks| == 1 then Some([line])
    else if bullet then
      if chunks == [] then None
      else Some([indent + "- " + chunks[0]] + SubBullets(indent, chunks[1..]))
    else Some([Join("\n\n" + indent, chunks)])
  }

  /** The output entries of a line that is too long and not protected. */
  function SplitLine(line: string): (r: Option<seq<string>>)
    ensures r.Some? ==> r.value != []
  {
    Arrange(line, IsBullet(line), Indent(line), Chunks(line))
  }

  predicate Protected(line: string, fence: bool) {
    fence || |line| <= LINE_LIMIT || IsTableRow(line)
  }

  function LineOutput(line: string, fence: bool): (r: Option<seq<string>>)
    ensures r.Some? ==> r.value != []
  {
    if Protected(line, fence) then Some([line]) else SplitLine(line)
  }

  /** Two optional lists one after the other, when neither is missing. */
  function Append(a: Option<seq<string>>, b: Option<seq<string>>): Option<seq<string>> {
    if a.None? || b.None? then None else Some(a.value + b.value)
  }

  lemma AppendLaws(a: Option<seq<string>>, b: Option<seq<string>>, c: Option<seq<string>>)
    ensures Append(Append(a, b), c) == Append(a, Append(b, c))
    ensures Append(Some([]), a) == a && Append(a, Some([])) == a && Append(Some([]), b) == b
  {
    if a.Some? {
      assert [] + a.value == a.value + [] == a.value;
    }
    if b.Some? {
      assert [] + b.value == b.value;
    }
    if a.Some? && b.Some? && c.Some? {
      assert (a.value + b.value) + c.value == a.value + (b.value + c.value);
    }
  }

  /** The state of a two-state reader after the lines; some lines toggle it. */
  function After(toggles: string -> bool, lines: seq<string>, state: bool): bool {
    if lines == [] then state else After(toggles, lines[1..], if toggles(lines[0]) then !state else state)
  }

  /** The entries such a reader emits for the lines. */
  function Read(
    toggles: string -> bool, emit: (string, bool) -> Option<seq<string>>, lines: seq<string>, state: bool)
    : Option<seq<string>>
  {
    if lines == [] then Some([])
    else
      var next := if toggles(lines[0]) then !state else state;
      Append(emit(lines[0], next), Read(toggles, emit, lines[1..], next))
  }

  function FenceAfter(lines: seq<string>, fence: bool): bool {
    After(TogglesFence, lines, fence)
  }

  /** All entries of the lines, read with `fence` as the state before the first. */
  function Outputs(lines: seq<string>, fence: bool): Option<seq<string>> {
    Read(TogglesFence, LineOutput, lines, fence)
  }

  function Render(text: string, output: seq<string>): string {
    Join("\n", output) + (if EndsWithNewline(text) then "\n" else "")
  }

  /** The split of a text that is read with `fence` as the state before it. */
  function OptimizeFrom(text: string, fence: bool): Option<string> {
    var output := Outputs(SplitLines(text), fence);
    if output.None? then None else Some(Render(text, output.value))
  }

  function Optimize(text: string): Option<string> {
    OptimizeFrom(text, false)
  }

  // -------------------------------------------------------------- the program

  method SubBulletEntries(indent: string, chunks: seq<string>) returns (output: seq<string>)
    requires chunks != []
    ensures output == [indent + "- " + chunks[0]] + SubBullets(indent, chunks[1..])
  {
    output := [indent + "- " + chunks[0]];
    for i := 1 to |chunks|
      invariant output + SubBullets(indent, chunks[i..])
             == [indent + "- " + chunks[0]] + SubBullets(indent, chunks[1..])
    {
      assert chunks[i..][1..] == chunks[i + 1..];
      var entry := indent + "  - " + chunks[i];
      assert output + ([entry] + SubBullets(indent, chunks[i + 1..]))
          == (output + [entry]) + SubBullets(indent, chunks[i + 1..]);
      output := output + [entry];
    }
  }

  method SplitLongLine(line: string) returns (entries: Option<seq<string>>)
    ensures entries == SplitLine(line)
  {
    var chunks := PackSentences(Sentences(Content(line)), CHUNK_LIMIT);
    if |chunks| == 1 {
      entries := Some([line]);
    } else if IsBullet(line) {
      if chunks == [] {
        entries := None;
      } else {
        var output := SubBulletEntries(Indent(line), chunks);
        entries := Some(output);
      }
    } else {
      entries := Some([Join("\n\n" + Indent(line), chunks)]);
    }
  }

  method OptimizeLongLines(text: string) returns (r: Option<string>)
    ensures r == Optimize(text)
  {
    var lines := SplitLines(text);
    var output, fence := [], false;
    AppendLaws(Some([]), Outputs(lines, false), Some([]));
    assert lines[0..] == lines;
    for i := 0 to |lines|
      invariant Outputs(lines, false) == Append(Some(output), Outputs(lines[i..], fence))
    {
      var line := lines[i];
      ReadOneMore(TogglesFence, LineOutput, lines, i, fence, output);
      if TogglesFence(line) {
        fence := !fence;
      }
      if Protected(line, fence) {
        output := output + [line];
      } else {
        var entries := SplitLongLine(line);
        if entries.None? {
          return None;
        }
        output := output + entries.value;
      }
    }
    AppendLaws(Some(output), Some([]), Some([]));
    r := Some(Join("\n", output) + (if EndsWithNewline(text) then "\n" else ""));
  }

  lemma ReadOneMore(
    toggles: string -> bool, emit: (string, bool) -> Option<seq<string>>, lines: seq<string>, i: nat,
    state: bool, output: seq<string>)
    requires i < |lines|
    ensures var next := if toggles(lines[i]) then !state else state;
      Append(Some(output), Read(toggles, emit, lines[i..], state)) ==
      Append(Append(Some(output), emit(lines[i], next)), Read(toggles, emit, lines[i + 1..], next))
  {
    assert lines[i..][0] == lines[i] && lines[i..][1..] == lines[i + 1..];
    var next := if toggles(lines[i]) then !state else state;
    AppendLaws(Some(output), emit(lines[i], next), Read(toggles, emit, lines[i + 1..], next));
  }

  // ----------------------------------------------------------- distributivity

  /** Concatenation of two results, when neither failed. */
  function Both(a: Option<string>, b: Option<string>): Option<string> {
    if a.None? || b.None? then None else Some(a.value + b.value)
  }

  predicate Balanced(text: string) { !FenceAfter(SplitLines(text), false) }

  lemma {:induction false} ReadAppend(
    toggles: string -> bool, emit: (string, bool) -> Option<seq<string>>,
    a: seq<string>, b: seq<string>, state: bool)
    ensures Read(toggles, emit, a + b, state)
         == Append(Read(toggles, emit, a, state), Read(toggles, emit, b, After(toggles, a, state)))
    ensures After(toggles, a + b, state) == After(toggles, b, After(toggles, a, state))
  {
    if a == [] {
      assert a + b == b;
    } else {
      assert (a + b)[1..] == a[1..] + b;
      var next := if toggles(a[0]) then !state else state;
      ReadAppend(toggles, emit, a[1..], b, next);
      AppendLaws(emit(a[0], next), Read(toggles, emit, a[1..], next), Read(toggles, emit, b, After(toggles, a, state)));
    }
    AppendLaws(Some([]), Read(toggles, emit, b, state), Some([]));
  }

  lemma {:induction false} ReadIsEmptyOnlyOnNothing(
    toggles: string -> bool, emit: (string, bool) -> Option<seq<string>>, lines: seq<string>, state: bool)
    requires forall l, f :: emit(l, f).Some? ==> emit(l, f).value != []
    ensures Read(toggles, emit, lines, state).Some? ==> (Read(toggles, emit, lines, state).value == [] <==> lines == [])
  {
  }

  lemma OutputsAppend(a: seq<string>, b: seq<string>, fence: bool)
    ensures Outputs(a + b, fence) == Append(Outputs(a, fence), Outputs(b, FenceAfter(a, fence)))
    ensures FenceAfter(a + b, fence) == FenceAfter(b, FenceAfter(a, fence))
  {
    ReadAppend(TogglesFence, LineOutput, a, b, fence);
  }

  lemma OutputsOfLines(lines: seq<string>, fence: bool)
    ensures Outputs(lines, fence).Some? ==> (Outputs(lines, fence).value == [] <==> lines == [])
  {
    ReadIsEmptyOnlyOnNothing(TogglesFence, LineOutput, lines, fence);
  }

  lemma RenderAppend(a: string, b: string, x: seq<string>, y: seq<string>)
    requires EndsWithNewline(a) && x != [] && (y == [] <==> b == "")
    ensures Render(a + b, x + y) == Render(a, x) + Render(b, y)
  {
    if b == "" {
      assert a + b == a && x + y == x;
    } else {
      JoinAppend("\n", x, y);
      assert EndsWithNewline(a + b) == EndsWithNewline(b);
    }
  }

  /** Behind a text that ends a line, the rest is split as if it stood alone but
      with the fence state that the text leaves. */
  lemma OptimizeAppend(a: string, b: string)
    requires EndsWithNewline(a)
    ensures Optimize(a + b) == Both(Optimize(a), OptimizeFrom(b, !Balanced(a)))
    ensures Balanced(a + b) == (FenceAfter(SplitLines(b), !Balanced(a)) == false)
  {
    SplitLinesAppend(a, b);
    OutputsAppend(SplitLines(a), SplitLines(b), false);
    OutputsOfLines(SplitLines(a), false);
    OutputsOfLines(SplitLines(b), !Balanced(a));
    var x, y := Outputs(SplitLines(a), false), Outputs(SplitLines(b), !Balanced(a));
    if x.Some? && y.Some? {
      RenderAppend(a, b, x.value, y.value);
    }
  }

  /** The split of a concatenation is the concatenation of the splits. */
  lemma BalancedDistributes(a: string, b: string)
    requires EndsWithNewline(a) && Balanced(a)
    ensures Optimize(a + b) == Both(Optimize(a), Optimize(b))
    ensures Balanced(a + b) == Balanced(b)
  {
    OptimizeAppend(a, b);
  }
}
