/** The migration splits and rewrites whole document bodies; the verifier splits
    and rewrites one section and looks for it in the migrated file. */
module DocsMigration {
  import opened Results
  import opened PythonText
  import opened SentencePacking
  import opened LongLines
  import opened LongLinesTheorems

  /** One `replace` that follows the split. */
  datatype Rule = Rule(old_: string, new_: string)

  predicate LinkRule(r: Rule) {
    && r.old_ != "" && NoNewline(r.old_)
    && r.new_ != "" && NoNewline(r.new_) && !IsSpace(r.new_[|r.new_| - 1])
  }

  type Rules = rules: seq<Rule> | forall i | 0 <= i < |rules| :: LinkRule(rules[i])

  /** Contract bodies have their links moved; technical-debt bodies have none. */
  const CONTRACT_RULES: Rules :=
    [Rule("](tech-debt.md)", "](../../../tech-debt.md)"), Rule("](contract.md)", "](../../../contract.md)")]

  const TECH_DEBT_RULES: Rules := []

  function Apply(rules: Rules, s: string): string {
    if rules == [] then s else Apply(rules[1..], Replace(s, rules[0].old_, rules[0].new_))
  }

  /** A baseline section: its text without trailing space, and a newline. */
  predicate IsSection(s: string) {
    2 <= |s| && EndsWithNewline(s) && !IsSpace(s[|s| - 2])
  }

  /** The file the migration writes for a header and its sections. */
  function Migrate(header: string, sections: seq<string>, rules: Rules): Option<string> {
    var body := Optimize(header + Join("\n", sections));
    if body.None? then None else Some(Rstrip(Apply(rules, body.value)) + "\n")
  }

  /** The text the verifier looks for. */
  function Expect(section: string, rules: Rules): Option<string> {
    var split := Optimize(section);
    if split.None? then None else Some(Apply(rules, split.value))
  }

  // -------------------------------------------------------------- end of text

  lemma {:induction false} ApplyAppend(rules: Rules, a: string, b: string)
    requires EndsWithNewline(a)
    ensures Apply(rules, a + b) == Apply(rules, a) + Apply(rules, b)
    decreases |rules|
  {
    if rules != [] {
      ReplaceAppend(a, b, rules[0].old_, rules[0].new_);
      ReplaceKeepsEnd(a, rules[0].old_, rules[0].new_);
      ApplyAppend(rules[1..], Replace(a, rules[0].old_, rules[0].new_), Replace(b, rules[0].old_, rules[0].new_));
    }
  }

  lemma {:induction false} ApplyKeepsEnd(rules: Rules, s: string)
    requires EndsWithNewline(s)
    ensures EndsWithNewline(Apply(rules, s)) && (IsSection(s) ==> IsSection(Apply(rules, s)))
    decreases |rules|
  {
    if rules != [] {
      ReplaceKeepsEnd(s, rules[0].old_, rules[0].new_);
      ApplyKeepsEnd(rules[1..], Replace(s, rules[0].old_, rules[0].new_));
    }
  }

  lemma {:induction false} ConcatIsNotEmpty(parts: seq<string>)
    requires parts != [] && parts[|parts| - 1] != ""
    ensures Concat(parts) != ""
  {
    if |parts| > 1 {
      ConcatIsNotEmpty(parts[1..]);
    }
  }

  lemma {:induction false} ConcatEnds(parts: seq<string>)
    requires parts != [] && parts[|parts| - 1] != ""
    ensures Visible(Concat(parts)) == Visible(parts[|parts| - 1])
  {
    if |parts| > 1 {
      ConcatEnds(parts[1..]);
      ConcatIsNotEmpty(parts[1..]);
    } else {
      assert parts[1..] == [];
      assert Concat(parts) == parts[0] + "" == parts[0];
    }
  }

  lemma {:induction false} JoinEnds(separator: string, parts: seq<string>)
    requires parts != [] && Visible(parts[|parts| - 1])
    ensures Visible(Join(separator, parts))
  {
    if |parts| > 1 {
      JoinEnds(separator, parts[1..]);
    }
  }

  lemma {:induction false} SubBulletsEnd(indent: string, chunks: seq<string>)
    requires chunks != [] && Visible(chunks[|chunks| - 1])
    ensures Visible(SubBullets(indent, chunks)[|chunks| - 1])
  {
    if |chunks| > 1 {
      SubBulletsEnd(indent, chunks[1..]);
    }
  }

  lemma ContentEnds(line: string)
    requires Visible(line)
    ensures Visible(Content(line))
  {
    LstripKeepsVisible(line);
    if IsBullet(line) {
      BehindTheMark(Lstrip(line));
    }
  }

  lemma BehindTheMark(s: string)
    requires 2 <= |s| && Visible(s)
    ensures Visible(Lstrip(s[1..]))
  {
    LstripKeepsVisible(s[1..]);
  }

  lemma LastPartIsVisible(parts: seq<string>)
    requires Visible(Concat(parts)) && forall i | 0 <= i < |parts| :: parts[i] != ""
    ensures parts != [] && Visible(parts[|parts| - 1])
  {
    if parts != [] {
      ConcatEnds(parts);
    }
  }

  lemma PackEnds(sentences: seq<string>, limit: int)
    requires Visible(Concat(sentences)) && forall i | 0 <= i < |sentences| :: sentences[i] != ""
    ensures var chunks := Pack(sentences, "", limit); chunks != [] && Visible(chunks[|chunks| - 1])
  {
    PackIsLossless(sentences, "", limit);
    LastPartIsVisible(Pack(sentences, "", limit));
  }

  lemma ProseEnds(content: string)
    requires Visible(content)
    ensures var chunks := Pack(Sentences(content), "", CHUNK_LIMIT); chunks != [] && Visible(chunks[|chunks| - 1])
  {
    SentencesAreTheContent(content);
    PackEnds(Sentences(content), CHUNK_LIMIT);
  }

  /** Entries whose last one ends with a visible character. */
  predicate EntriesEnd(r: Option<seq<string>>) {
    r.Some? && r.value != [] && Visible(r.value[|r.value| - 1])
  }

  lemma ArrangementEnds(line: string, bullet: bool, indent: string, chunks: seq<string>)
    requires Visible(line) && chunks != [] && Visible(chunks[|chunks| - 1])
    ensures EntriesEnd(Arrange(line, bullet, indent, chunks))
  {
    if |chunks| > 1 {
      if bullet {
        SubBulletsEnd(indent, chunks[1..]);
      } else {
        JoinEnds("\n\n" + indent, chunks);
      }
    }
  }

  lemma ProseArrangementEnds(line: string, bullet: bool, indent: string, content: string, chunks: seq<string>)
    requires Visible(line) && Visible(content) && chunks == Pack(Sentences(content), "", CHUNK_LIMIT)
    ensures EntriesEnd(Arrange(line, bullet, indent, chunks))
  {
    assert chunks != [] && Visible(chunks[|chunks| - 1]) by { ProseEnds(content); }
    assert EntriesEnd(Arrange(line, bullet, indent, chunks)) by { ArrangementEnds(line, bullet, indent, chunks); }
  }

  lemma SplitLineEnds(line: string)
    ensures Visible(line) && Visible(Content(line)) ==> EntriesEnd(SplitLine(line))
  {
    if !Visible(line) || !Visible(Content(line)) { return; }
    ProseArrangementEnds(line, IsBullet(line), Indent(line), Content(line), Chunks(line));
  }

  lemma LineOutputEnds(line: string, fence: bool)
    requires Visible(line)
    ensures EntriesEnd(LineOutput(line, fence))
  {
    ContentEnds(line);
    SplitLineEnds(line);
  }

  lemma LastOutputIsVisible(
    toggles: string -> bool, emit: (string, bool) -> Option<seq<string>>, front: seq<string>, line: string)
    requires forall f :: EntriesEnd(emit(line, f))
    ensures var r := Read(toggles, emit, front + [line], false); r.Some? ==> EntriesEnd(r)
  {
    ReadAppend(toggles, emit, front, [line], false);
    var before := After(toggles, front, false);
    var lines := [line];
    assert lines[1..] == [];
    AppendLaws(emit(line, if toggles(line) then !before else before), Some([]), Some([]));
  }

  /** Splitting keeps the end of a text that ends like a section. */
  lemma OptimizeKeepsEnd(t: string)
    requires EndsWithNewline(t) && Optimize(t).Some?
    ensures EndsWithNewline(Optimize(t).value)
    ensures IsSection(t) ==> IsSection(Optimize(t).value)
  {
    var entries := Outputs(SplitLines(t), false).value;
    EndedByNewline(Join("\n", entries));
    if IsSection(t) {
      var front, line := LastLine(t);
      OutputsEnd(front, line);
      JoinEnds("\n", entries);
    }
  }

  lemma EndedByNewline(s: string)
    ensures EndsWithNewline(s + "\n") && (Visible(s) ==> IsSection(s + "\n"))
  {
  }

  lemma OutputsEnd(front: seq<string>, line: string)
    requires Visible(line) && Outputs(front + [line], false).Some?
    ensures EntriesEnd(Outputs(front + [line], false))
  {
    forall f ensures EntriesEnd(LineOutput(line, f)) {
      LineOutputEnds(line, f);
    }
    LastOutputIsVisible(TogglesFence, LineOutput, front, line);
  }

  // -------------------------------------------------------------- containment

  /** What precedes section `i` in the body. */
  function Before(header: string, sections: seq<string>, i: nat): string
    requires i <= |sections|
    decreases i
  {
    if i == 0 then header else Before(header + (sections[0] + "\n"), sections[1..], i - 1)
  }

  lemma {:induction false} Locate(header: string, sections: seq<string>, i: nat) returns (after: string)
    requires i < |sections| && EndsWithNewline(header)
    ensures header + Join("\n", sections) == Before(header, sections, i) + (sections[i] + after)
    ensures EndsWithNewline(Before(header, sections, i)) && (i + 1 == |sections| ==> after == "")
    decreases i
  {
    var s, rest := sections[0], sections[1..];
    if i == 0 {
      after := if |sections| == 1 then "" else "\n" + Join("\n", rest);
      assert s + "" == s;
      assert Join("\n", sections) == s + after;
    } else {
      var next := header + (s + "\n");
      after := Locate(next, rest, i - 1);
      var tail := Join("\n", rest);
      assert header + (s + "\n" + tail) == next + tail;
    }
  }

  /** A property that a text keeps when a section with it is appended. */
  ghost predicate Joins(ok: string -> bool) {
    forall a, b | EndsWithNewline(a) && ok(a) && EndsWithNewline(b) && ok(b) :: ok(a + (b + "\n"))
  }

  lemma {:induction false} OkBefore(ok: string -> bool, header: string, sections: seq<string>, i: nat)
    requires Joins(ok) && i <= |sections| && EndsWithNewline(header) && ok(header)
    requires forall k | 0 <= k < i :: EndsWithNewline(sections[k]) && ok(sections[k])
    ensures ok(Before(header, sections, i))
    decreases i
  {
    if i > 0 {
      var next := header + (sections[0] + "\n");
      assert ok(next);
      OkBefore(ok, next, sections[1..], i - 1);
    }
  }

  /** Balanced parts leave the fences closed at every section. */
  lemma BalancedBefore(header: string, sections: seq<string>, i: nat)
    requires i <= |sections| && EndsWithNewline(header) && Balanced(header)
    requires forall k | 0 <= k < i :: IsSection(sections[k]) && Balanced(sections[k])
    ensures Balanced(Before(header, sections, i))
  {
    forall a, b | EndsWithNewline(a) && Balanced(a) && EndsWithNewline(b) && Balanced(b)
      ensures Balanced(a + (b + "\n"))
    {
      BalancedTogether(a, b);
    }
    OkBefore(Balanced, header, sections, i);
  }

  lemma BalancedTogether(header: string, section: string)
    requires EndsWithNewline(header) && Balanced(header) && EndsWithNewline(section) && Balanced(section)
    ensures EndsWithNewline(header + (section + "\n")) && Balanced(header + (section + "\n"))
  {
    BlankLineIsBalanced();
    BalancedDistributes(section, "\n");
    BalancedDistributes(header, section + "\n");
  }

  lemma BlankLineIsBalanced()
    ensures Balanced("\n") && FenceAfter(SplitLines("\n"), true)
  {
    assert BreakLength("\n") == 1 && "\n"[1..] == "";
    assert SplitLines("\n") == [""];
    var lines := [""];
    assert lines[1..] == [] && Lstrip("") == "";
  }

  lemma {:induction false} JoinIsSection(sections: seq<string>)
    requires sections != [] && forall k | 0 <= k < |sections| :: IsSection(sections[k])
    ensures IsSection(Join("\n", sections))
  {
    if |sections| > 1 {
      JoinIsSection(sections[1..]);
      SectionBehind(sections[0] + "\n", Join("\n", sections[1..]));
    }
  }

  lemma RstripOfSection(s: string)
    requires IsSection(s)
    ensures Rstrip(s) + "\n" == s
  {
    assert Rstrip(s[..|s| - 1]) == s[..|s| - 1];
  }

  /** The rewritten parts of a body stay in place in the written file. */
  lemma FileKeepsParts(rules: Rules, x: string, y: string, z: string)
    requires EndsWithNewline(x) && EndsWithNewline(y) && IsSection(x + (y + z))
    ensures Rstrip(Apply(rules, x + (y + z))) + "\n" == Apply(rules, x) + Apply(rules, y) + Apply(rules, z)
  {
    ApplyAppend(rules, x, y + z);
    ApplyAppend(rules, y, z);
    ApplyKeepsEnd(rules, x + (y + z));
    RstripOfSection(Apply(rules, x + (y + z)));
  }

  lemma BodyIsSection(header: string, sections: seq<string>)
    requires sections != [] && forall k | 0 <= k < |sections| :: IsSection(sections[k])
    ensures IsSection(header + Join("\n", sections))
  {
    JoinIsSection(sections);
    SectionBehind(header, Join("\n", sections));
  }

  lemma SectionBehind(lead: string, s: string)
    requires IsSection(s)
    ensures IsSection(lead + s)
  {
  }

  lemma SplitInThree(a: string, b: string, c: string)
    requires EndsWithNewline(a) && Balanced(a) && EndsWithNewline(b)
    ensures Optimize(a + (b + c)) == Both(Optimize(a), Both(Optimize(b), OptimizeFrom(c, !Balanced(b))))
  {
    BalancedDistributes(a, b + c);
    OptimizeAppend(b, c);
  }

  /** What the verifier looks for is in the migrated file if the fences are closed
      where the section begins, whatever the section and the later ones contain. */
  lemma SectionIsFound(header: string, sections: seq<string>, rules: Rules, i: nat)
    requires i < |sections| && EndsWithNewline(header) && Balanced(Before(header, sections, i))
    requires forall k | 0 <= k < |sections| :: IsSection(sections[k])
    ensures Migrate(header, sections, rules).Some? ==>
      Expect(sections[i], rules).Some?
        && Contains(Migrate(header, sections, rules).value, Expect(sections[i], rules).value)
  {
    if Migrate(header, sections, rules).Some? {
      var after := Locate(header, sections, i);
      SplitInThree(Before(header, sections, i), sections[i], after);
      FoundWhenDistributed(header, sections, rules, i, Before(header, sections, i), after, !Balanced(sections[i]));
    }
  }

  /** So every section is found when the header and all sections close their fences. */
  lemma EverySectionIsFound(header: string, sections: seq<string>, rules: Rules, i: nat)
    requires i < |sections| && EndsWithNewline(header) && Balanced(header)
    requires forall k | 0 <= k < |sections| :: IsSection(sections[k]) && Balanced(sections[k])
    ensures Migrate(header, sections, rules).Some? ==>
      Expect(sections[i], rules).Some?
        && Contains(Migrate(header, sections, rules).value, Expect(sections[i], rules).value)
  {
    BalancedBefore(header, sections, i);
    SectionIsFound(header, sections, rules, i);
  }

  /** The three parts of a body are split as if each stood alone, the last one with
      the fence state before it. */
  predicate Distributed(before: string, section: string, after: string, fence: bool) {
    Optimize(before + (section + after)) == Both(Optimize(before), Both(Optimize(section), OptimizeFrom(after, fence)))
  }

  lemma FoundWhenDistributed(
    header: string, sections: seq<string>, rules: Rules, i: nat, before: string, after: string, fence: bool)
    requires i < |sections| && EndsWithNewline(before)
    requires forall k | 0 <= k < |sections| :: IsSection(sections[k])
    requires header + Join("\n", sections) == before + (sections[i] + after)
    ensures Migrate(header, sections, rules).Some? && Distributed(before, sections[i], after, fence) ==>
      && Expect(sections[i], rules).Some?
      && Contains(Migrate(header, sections, rules).value, Expect(sections[i], rules).value)
  {
    if Migrate(header, sections, rules).None? || !Distributed(before, sections[i], after, fence) { return; }
    var body := header + Join("\n", sections);
    var x, y, z := Optimize(before).value, Optimize(sections[i]).value, OptimizeFrom(after, fence).value;
    OptimizeKeepsEnd(before);
    OptimizeKeepsEnd(sections[i]);
    BodyIsSection(header, sections);
    OptimizeKeepsEnd(body);
    FileKeepsParts(rules, x, y, z);
  }
}
