/** When the splitter distributes, when it fails, and what it does to a line. */
module LongLinesTheorems {
  import opened Results
  import opened PythonText
  import opened SentencePacking
  import opened LongLines

  // ------------------------------------------------------------- one long line

  /** The chunks of a line are its text without a character lost; each is within
      the limit or one sentence; and no allowed grouping of the line's sentences
      has fewer. */
  lemma ChunksKeepTheWording(line: string, groups: seq<seq<string>>)
    requires GroupingOf(groups, Sentences(Content(line)), CHUNK_LIMIT)
    ensures Concat(Chunks(line)) == Content(line)
    ensures |Chunks(line)| <= |groups|
    ensures exists greedy :: GroupingOf(greedy, Sentences(Content(line)), CHUNK_LIMIT) && Chunks(line) == Texts(greedy)
  {
    var s := Sentences(Content(line));
    SentencesAreTheContent(Content(line));
    PackIsLossless(s, "", CHUNK_LIMIT);
    PackIsMinimal(s, groups, CHUNK_LIMIT);
    PackFormsAllowedGroups(s, CHUNK_LIMIT);
  }

  // ------------------------------------------------------------------ failing

  /** A bullet whose dash is followed by nothing but spaces. */
  predicate IsBlankBullet(line: string) {
    IsBullet(line) && Content(line) == ""
  }

  lemma SplitFailsOnBlankBullets(line: string)
    ensures SplitLine(line).None? <==> IsBlankBullet(line)
  {
    SentencesAreTheContent(Content(line));
    PackIsLossless(Sentences(Content(line)), "", CHUNK_LIMIT);
    var chunks := Chunks(line);
    if chunks != [] {
      assert chunks[0] != "" && Concat(chunks) == chunks[0] + Concat(chunks[1..]);
    }
  }

  ghost predicate FailsAt(
    toggles: string -> bool, emit: (string, bool) -> Option<seq<string>>, lines: seq<string>, state: bool, i: int)
  {
    0 <= i < |lines| && emit(lines[i], After(toggles, lines[..i + 1], state)).None?
  }

  lemma FailsLater(
    toggles: string -> bool, emit: (string, bool) -> Option<seq<string>>, lines: seq<string>, state: bool, i: nat)
    requires lines != []
    ensures var next := if toggles(lines[0]) then !state else state;
      FailsAt(toggles, emit, lines, state, i + 1) == FailsAt(toggles, emit, lines[1..], next, i)
    ensures FailsAt(toggles, emit, lines, state, 0) == emit(lines[0], if toggles(lines[0]) then !state else state).None?
  {
    var one := lines[..0 + 1];
    var next := if toggles(lines[0]) then !state else state;
    assert one[1..] == [] && one[0] == lines[0];
    assert After(toggles, one, state) == After(toggles, one[1..], next) == next;
    if i + 1 < |lines| {
      assert lines[..i + 2][1..] == lines[1..][..i + 1] && lines[..i + 2][0] == lines[0];
    }
  }

  lemma {:induction false} ReadFailsWhere(
    toggles: string -> bool, emit: (string, bool) -> Option<seq<string>>, lines: seq<string>, state: bool)
    ensures Read(toggles, emit, lines, state).None? <==> exists i :: FailsAt(toggles, emit, lines, state, i)
  {
    if lines != [] {
      var next := if toggles(lines[0]) then !state else state;
      var rest := lines[1..];
      ReadFailsWhere(toggles, emit, rest, next);
      FailsLater(toggles, emit, lines, state, 0);
      if i :| FailsAt(toggles, emit, rest, next, i) {
        FailsLater(toggles, emit, lines, state, i);
      }
      if i :| FailsAt(toggles, emit, lines, state, i) && i > 0 {
        FailsLater(toggles, emit, lines, state, i - 1);
      }
    }
  }

  /** The splitter raises exactly on an oversized blank bullet outside fences. */
  lemma OptimizeFailsExactlyWhen(text: string)
    ensures var lines := SplitLines(text);
      Optimize(text).None? <==>
      exists i | 0 <= i < |lines| :: !Protected(lines[i], FenceAfter(lines[..i + 1], false)) && IsBlankBullet(lines[i])
  {
    var lines := SplitLines(text);
    ReadFailsWhere(TogglesFence, LineOutput, lines, false);
    forall i | 0 <= i < |lines|
      ensures FailsAt(TogglesFence, LineOutput, lines, false, i) <==>
        !Protected(lines[i], FenceAfter(lines[..i + 1], false)) && IsBlankBullet(lines[i])
    {
      SplitFailsOnBlankBullets(lines[i]);
    }
  }

  // ---------------------------------------------------------- distributing

  lemma {:induction false} LineWithoutBreaks(s: string)
    requires s != "" && forall i | 0 <= i < |s| :: !IsLineBreak(s[i])
    ensures SplitLines(s) == [s]
  {
    if |s| > 1 {
      LineWithoutBreaks(s[1..]);
      assert [s[0]] + s[1..] == s;
    }
  }

  /** Two sentences of n + 1 characters on one line. */
  function Probe(n: nat): (s: string)
    requires n >= 300
    ensures |s| == 2 * n + 2
  {
    seq(2 * n + 2, i => if i == n || i == 2 * n + 1 then '\U{3002}' else 'x')
  }

  lemma ProbeIsPlainProse(n: nat)
    requires n >= 300
    ensures SplitLines(Probe(n)) == [Probe(n)] && Lstrip(Probe(n)) == Probe(n) && Content(Probe(n)) == Probe(n)
    ensures !TogglesFence(Probe(n)) && !IsTableRow(Probe(n)) && !IsBullet(Probe(n)) && !EndsWithNewline(Probe(n))
  {
    assert Probe(n)[0] == 'x' && Probe(n)[2 * n + 1] == '\U{3002}';
    PlainProse(Probe(n));
  }

  lemma PlainProse(s: string)
    requires s != "" && s[0] == 'x' && !IsSpace(s[|s| - 1]) && s[|s| - 1] != '\n'
    requires forall i | 0 <= i < |s| :: !IsLineBreak(s[i])
    ensures SplitLines(s) == [s] && Lstrip(s) == s && Content(s) == s
    ensures !TogglesFence(s) && !IsTableRow(s) && !IsBullet(s) && !EndsWithNewline(s)
  {
    LineWithoutBreaks(s);
    Unstripped(s);
    NoMarks(s);
  }

  lemma NoMarks(s: string)
    requires s != "" && s[0] == 'x' && Lstrip(s) == s
    ensures !TogglesFence(s) && !IsTableRow(s) && !IsBullet(s)
  {
    assert "```"[0] == '`' && "|"[0] == '|';
  }

  lemma ProbeSentences(n: nat)
    requires n >= 300
    ensures Sentences(Probe(n)) == [Probe(n)[..n + 1], Probe(n)[n + 1..]]
  {
    var probe := Probe(n);
    assert IsTerminator(probe[n]) && IsTerminator(probe[2 * n + 1]);
    assert SentenceLength(probe) == n + 1;
    var rest := probe[n + 1..];
    assert IsTerminator(rest[n]);
    assert SentenceLength(rest) == n + 1;
    assert rest[..n + 1] == rest && rest[n + 1..] == "";
    assert Sentences(rest[n + 1..]) == [];
    assert Sentences(rest) == [rest];
    assert Sentences(probe) == [probe[..n + 1]] + Sentences(rest);
  }

  lemma PackTwo(first: string, second: string, limit: int)
    requires first != "" && second != "" && |first| + |second| > limit
    ensures Pack([first, second], "", limit) == [first, second]
  {
    var both, last: seq<string> := [first, second], [second];
    assert both[1..] == last && last[1..] == [] && "" + first == first;
    assert Pack(both, "", limit) == Pack(last, first, limit) == [first] + Pack(last[1..], second, limit);
  }

  lemma ProbeHasTwoChunks(n: nat)
    requires n >= 300
    ensures Chunks(Probe(n)) == [Probe(n)[..n + 1], Probe(n)[n + 1..]]
  {
    ProbeIsPlainProse(n);
    ProbeSentences(n);
    PackTwo(Probe(n)[..n + 1], Probe(n)[n + 1..], CHUNK_LIMIT);
  }

  lemma ReadOne(toggles: string -> bool, emit: (string, bool) -> Option<seq<string>>, line: string, state: bool)
    requires !toggles(line)
    ensures Read(toggles, emit, [line], state) == emit(line, state)
  {
    var lines := [line];
    assert lines[1..] == [];
    AppendLaws(emit(line, state), Some([]), Some([]));
  }

  lemma JoinTwo(separator: string, x: string, y: string)
    ensures Join(separator, [x, y]) == x + separator + y
  {
    var parts := [x, y];
    assert parts[1..] == [y];
  }

  /** Inside a fence the probe stays; outside it becomes two paragraphs. */
  lemma ProbeTellsTheFence(n: nat)
    requires n >= 300
    ensures Outputs([Probe(n)], true) == Some([Probe(n)])
    ensures Outputs([Probe(n)], false) == Some([Probe(n)[..n + 1] + "\n\n" + Probe(n)[n + 1..]])
  {
    ProbeIsPlainProse(n);
    ProbeHasTwoChunks(n);
    ReadOne(TogglesFence, LineOutput, Probe(n), true);
    ReadOne(TogglesFence, LineOutput, Probe(n), false);
    assert "\n\n" + Indent(Probe(n)) == "\n\n";
    JoinTwo("\n\n", Probe(n)[..n + 1], Probe(n)[n + 1..]);
  }

  lemma ProbeAlone(n: nat)
    requires n >= 300
    ensures OptimizeFrom(Probe(n), true) == Some(Probe(n))
    ensures OptimizeFrom(Probe(n), false).Some? && |OptimizeFrom(Probe(n), false).value| > |Probe(n)|
  {
    ProbeIsPlainProse(n);
    ProbeTellsTheFence(n);
    LineAlone(Probe(n), true, Probe(n));
    LineAlone(Probe(n), false, Probe(n)[..n + 1] + "\n\n" + Probe(n)[n + 1..]);
  }

  lemma LineAlone(line: string, fence: bool, output: string)
    requires SplitLines(line) == [line] && !EndsWithNewline(line) && Outputs([line], fence) == Some([output])
    ensures OptimizeFrom(line, fence) == Some(output)
  {
    assert [output][1..] == [] && Join("\n", [output]) == output;
    assert output + "" == output;
  }

  /** The splitter distributes over a text that ends a line, whatever follows it,
      exactly when the text leaves its code fences balanced. */
  lemma DistributesExactlyWhenBalanced(a: string)
    requires EndsWithNewline(a) && Optimize(a).Some?
    ensures Balanced(a) <==> forall b :: Optimize(a + b) == Both(Optimize(a), Optimize(b))
  {
    if Balanced(a) {
      forall b ensures Optimize(a + b) == Both(Optimize(a), Optimize(b)) {
        BalancedDistributes(a, b);
      }
    } else {
      var probe := Probe(300);
      OptimizeAppend(a, probe);
      ProbeAlone(300);
      var x := Optimize(a).value;
      assert |(x + probe)| < |(x + OptimizeFrom(probe, false).value)|;
      assert Optimize(a + probe) != Both(Optimize(a), Optimize(probe));
    }
  }
}
