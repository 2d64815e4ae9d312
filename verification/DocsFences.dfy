/** When the documentation check finds every section one could write: exactly when
    what precedes the section leaves the code fences closed. */
module DocsFences {
  import opened Results
  import opened PythonText
  import opened LongLines
  import opened LongLinesTheorems
  import opened DocsMigration

  // ----------------------------------------------------------------- sections

  /** The heading line that a section begins with. */
  predicate Heading(h: string) {
    "### " <= h && 5 <= |h| && forall i | 0 <= i < |h| :: !IsLineBreak(h[i])
  }

  /** A section as the documents are cut: it begins with the heading, and no later
      line begins another section or chapter. */
  ghost predicate Written(h: string, s: string) {
    IsSection(s) && h + "\n" <= s && !Contains(s, "\n### ") && !Contains(s, "\n## ")
  }

  /** The verifier finds the last section, if the migration writes the file. */
  ghost predicate LastIsFound(header: string, earlier: seq<string>, s: string, rules: Rules) {
    var file, wanted := Migrate(header, earlier + [s], rules), Expect(s, rules);
    file.Some? ==> wanted.Some? && Contains(file.value, wanted.value)
  }

  lemma {:induction false} BeforeIsPrefix(header: string, earlier: seq<string>, s: string)
    ensures Before(header, earlier + [s], |earlier|) == Before(header, earlier, |earlier|)
    decreases |earlier|
  {
    if earlier != [] {
      assert (earlier + [s])[1..] == earlier[1..] + [s];
      BeforeIsPrefix(header + (earlier[0] + "\n"), earlier[1..], s);
    }
  }

  /** The body that ends with `s`. */
  lemma BodyOfLast(header: string, earlier: seq<string>, s: string)
    requires EndsWithNewline(header)
    ensures header + Join("\n", earlier + [s]) == Before(header, earlier, |earlier|) + s
    ensures EndsWithNewline(Before(header, earlier, |earlier|))
  {
    var sections := earlier + [s];
    var after := Locate(header, sections, |earlier|);
    BeforeIsPrefix(header, earlier, s);
    assert sections[|earlier|] + "" == s;
  }

  lemma ProbeSection(n: nat)
    requires n >= 300
    ensures IsSection(Probe(n) + "\n") && OptimizeFrom(Probe(n) + "\n", true) == Some(Probe(n) + "\n")
    ensures Optimize(Probe(n) + "\n") == Some(Probe(n)[..n + 1] + "\n\n" + Probe(n)[n + 1..] + "\n")
  {
    ProbeTellsTheFence(n);
    LineThenNewline(Probe(n));
    assert Probe(n)[2 * n + 1] == '\U{3002}';
  }

  lemma {:induction false} LineThenNewline(s: string)
    requires s != "" && forall i | 0 <= i < |s| :: !IsLineBreak(s[i])
    ensures SplitLines(s + "\n") == [s]
  {
    assert (s + "\n")[1..] == s[1..] + "\n";
    if |s| > 1 {
      LineThenNewline(s[1..]);
    } else {
      assert s[1..] + "\n" == "\n" && BreakLength("\n") == 1 && "\n"[1..] == "";
      assert SplitLines("\n") == [""];
    }
    assert [s[0]] + s[1..] == s;
  }

  /** The probe below a heading is a section that could be written. */
  lemma ProbeIsWritten(h: string, n: nat)
    requires Heading(h) && n >= 300
    ensures Written(h, h + "\n" + (Probe(n) + "\n"))
  {
    var p := Probe(n);
    assert IsSection(h + "\n" + (p + "\n")) by {
      ProbeSection(n);
      SectionBehind(h + "\n", p + "\n");
    }
    assert NoNewline(h) && NoNewline(p) && p[0] == 'x';
    OnlyTheProbeFollows(h, p, h + "\n" + (p + "\n"));
  }

  lemma OnlyTheProbeFollows(h: string, p: string, s: string)
    requires NoNewline(h) && NoNewline(p) && p != "" && p[0] == 'x' && s == h + "\n" + (p + "\n")
    ensures !Contains(s, "\n### ") && !Contains(s, "\n## ")
  {
    forall k | 0 <= k < |s| - 1 ensures s[k] == '\n' ==> s[k + 1] != '#' {
      assert k < |h| ==> s[k] == h[k];
      assert k > |h| ==> s[k] == p[k - |h| - 1];
    }
    NoMarkedLine(s, "\n### ");
    NoMarkedLine(s, "\n## ");
  }

  /** Inside a fence a heading stays as it is; outside it is split without failing,
      and it never opens or closes a fence. */
  lemma HeadingStays(h: string)
    requires Heading(h)
    ensures SplitLines(h + "\n") == [h] && !FenceAfter([h], false) && FenceAfter([h], true)
    ensures OptimizeFrom(h + "\n", true) == Some(h + "\n")
    ensures Optimize(h + "\n").Some? && EndsWithNewline(Optimize(h + "\n").value)
  {
    LineThenNewline(h);
    NoFenceMark(h);
    ReadOne(TogglesFence, LineOutput, h, true);
    ReadOne(TogglesFence, LineOutput, h, false);
    RenderOne(h);
    HeadingIsSplit(h);
    KeptFence(h, true);
    KeptFence(h, false);
    OptimizeKeepsEnd(h + "\n");
  }

  lemma HeadingIsSplit(h: string)
    requires h != "" && h[0] == '#'
    ensures LineOutput(h, false).Some? && LineOutput(h, true) == Some([h])
  {
    SplitFailsOnBlankBullets(h);
  }

  lemma KeptFence(line: string, fence: bool)
    ensures TogglesFence(line) || FenceAfter([line], fence) == fence
  {
    var lines := [line];
    assert lines[1..] == [] && After(TogglesFence, lines[1..], fence) == fence;
  }

  lemma NoFenceMark(h: string)
    requires h != "" && h[0] == '#'
    ensures !TogglesFence(h)
  {
    assert "```"[0] == '`';
  }

  // -------------------------------------------------------------------- rules

  lemma {:induction false} ApplyNewline(rules: Rules)
    ensures Apply(rules, "\n") == "\n"
    decreases |rules|
  {
    if rules != [] {
      ReplaceInNewline(rules[0].old_, rules[0].new_);
      ApplyNewline(rules[1..]);
    }
  }

  lemma {:induction false} ApplyInLine(rules: Rules, s: string)
    requires OneLine(s)
    ensures OneLine(Apply(rules, s))
    decreases |rules|
  {
    if rules != [] {
      ReplaceInLine(s, rules[0].old_, rules[0].new_);
      ApplyInLine(rules[1..], Replace(s, rules[0].old_, rules[0].new_));
    }
  }

  function Scale(rules: Rules): (k: nat)
    ensures k >= 1
    decreases |rules|
  {
    if rules == [] then 1
    else
      Distribute(|rules[0].old_|, 0, Scale(rules[1..]));
      |rules[0].old_| * Scale(rules[1..])
  }

  /** Rules shorten a text at most by the factor of their patterns. */
  lemma {:induction false} ApplyLength(rules: Rules, s: string)
    ensures |s| <= |Apply(rules, s)| * Scale(rules)
    decreases |rules|
  {
    if rules != [] {
      var t := Replace(s, rules[0].old_, rules[0].new_);
      ReplaceLength(s, rules[0].old_, rules[0].new_);
      ApplyLength(rules[1..], t);
      Scaled(|s|, |t|, |Apply(rules[1..], t)|, |rules[0].old_|, Scale(rules[1..]));
    }
  }

  lemma Scaled(s: nat, t: nat, r: nat, k: nat, m: nat)
    requires s <= t * k && t <= r * m
    ensures s <= r * (k * m)
  {
    assert t * k <= (r * m) * k;
    assert (r * m) * k == r * (k * m);
  }

  /** A probe so long that its first half stays longer than a text of length `a`. */
  function Enough(a: nat, rules: Rules): nat {
    300 + (a + 1) * Scale(rules)
  }

  /** Under the rules the first half of the probe is longer than the whole text. */
  predicate Outlasts(n: nat, x: string, rules: Rules) {
    n >= 300 && |Apply(rules, Probe(n)[..n + 1] + "\n")| > |Apply(rules, x)|
  }

  lemma EnoughOutlasts(x: string, rules: Rules)
    ensures Outlasts(Enough(|Apply(rules, x)|, rules), x, rules)
  {
    var n := Enough(|Apply(rules, x)|, rules);
    FirstHalfOutlasts(Probe(n)[..n + 1] + "\n", n, |Apply(rules, x)|, rules);
  }

  lemma FirstHalfOutlasts(first: string, n: nat, a: nat, rules: Rules)
    requires |first| >= n >= Enough(a, rules)
    ensures |Apply(rules, first)| > a
  {
    LongEnough(a, rules, first);
  }

  lemma LongEnough(a: nat, rules: Rules, s: string)
    requires |s| >= Enough(a, rules)
    ensures |Apply(rules, s)| > a
  {
    ApplyLength(rules, s);
    Monotone(|Apply(rules, s)|, a, Scale(rules));
    Distribute(a, 1, Scale(rules));
  }

  lemma Monotone(r: nat, a: nat, k: nat)
    ensures r <= a ==> r * k <= a * k
  {
    if r <= a { Distribute(r, a - r, k); }
  }

  // ------------------------------------------------------------- an open fence

  /** What the migration writes when the last section ends in an unsplit line. */
  lemma UnsplitFile(lead: string, p: string, header: string, sections: seq<string>, rules: Rules)
    requires EndsWithNewline(lead) && IsSection(p) && header + Join("\n", sections) == lead + p
    ensures !Balanced(lead) && Optimize(lead).Some? && OptimizeFrom(p, true) == Some(p) ==>
      Migrate(header, sections, rules) == Some(Apply(rules, Optimize(lead).value) + Apply(rules, p))
  {
    if Balanced(lead) || Optimize(lead).None? || OptimizeFrom(p, true) != Some(p) { return; }
    OptimizeKeepsEnd(lead);
    OptimizeAppend(lead, p);
    var x := Optimize(lead).value;
    SectionBehind(x, p);
    ApplyKeepsEnd(rules, x + p);
    RstripOfSection(Apply(rules, x + p));
    ApplyAppend(rules, x, p);
  }

  /** The file with the probe unsplit behind the text `x`. */
  function FileText(x: string, n: nat, rules: Rules): string
    requires n >= 300
  {
    Apply(rules, x) + Apply(rules, Probe(n) + "\n")
  }

  /** The section with the probe split, below the split heading `head`. */
  function WantedText(head: string, n: nat, rules: Rules): string
    requires n >= 300
  {
    Apply(rules, head) + (Apply(rules, Probe(n)[..n + 1] + "\n") + ("\n" + Apply(rules, Probe(n)[n + 1..] + "\n")))
  }

  /** What the verifier looks for below a heading when it splits a probe. */
  lemma SplitSection(h: string, n: nat, rules: Rules)
    requires Heading(h) && n >= 300
    ensures Optimize(h + "\n").Some?
    ensures Expect(h + "\n" + (Probe(n) + "\n"), rules) == Some(WantedText(Optimize(h + "\n").value, n, rules))
  {
    var first, second := Probe(n)[..n + 1] + "\n", Probe(n)[n + 1..] + "\n";
    assert Probe(n)[..n + 1] + "\n\n" + Probe(n)[n + 1..] + "\n" == first + ("\n" + second);
    ProbeSection(n);
    HeadingStays(h);
    BelowTheHeading(h, Probe(n) + "\n", first + ("\n" + second));
    AppliedLines(rules, Optimize(h + "\n").value, first, second);
  }

  lemma BelowTheHeading(h: string, p: string, r: string)
    requires Heading(h) && Optimize(p) == Some(r)
    ensures Optimize(h + "\n").Some? && Optimize(h + "\n" + p) == Some(Optimize(h + "\n").value + r)
  {
    HeadingStays(h);
    BalancedDistributes(h + "\n", p);
  }

  lemma AppliedLines(rules: Rules, head: string, first: string, second: string)
    requires EndsWithNewline(head) && EndsWithNewline(first)
    ensures Apply(rules, head + (first + ("\n" + second)))
         == Apply(rules, head) + (Apply(rules, first) + ("\n" + Apply(rules, second)))
  {
    ApplyAppend(rules, head, first + ("\n" + second));
    ApplyAppend(rules, first, "\n" + second);
    ApplyAppend(rules, "\n", second);
    ApplyNewline(rules);
  }

  /** A blank line that far in is not in a text whose last line begins earlier. */
  lemma BlankLineIsMissed(a: string, q: string, h: string, first: string, second: string)
    requires OneLine(q) && EndsWithNewline(first) && |first| > |a|
    ensures !Contains(a + q, h + (first + ("\n" + second)))
  {
    var file, wanted := a + q, h + (first + ("\n" + second));
    forall before, after ensures file != before + wanted + after {
      var t, k := before + wanted + after, |before| + |h| + |first| - 1;
      assert wanted[|h| + |first| - 1] == first[|first| - 1] && wanted[|h| + |first|] == '\n';
      assert t[k] == '\n' && t[k + 1] == '\n';
      if k + 1 < |file| {
        assert file[k] == q[k - |a|];
      }
    }
  }

  lemma ProbeLines(n: nat)
    requires n >= 300
    ensures OneLine(Probe(n) + "\n") && OneLine(Probe(n)[..n + 1] + "\n")
  {
  }

  /** What precedes the next section can be split and leaves a fence open, and the
      probe is long enough. */
  predicate OpenBefore(header: string, earlier: seq<string>, h: string, n: nat, rules: Rules) {
    var lead := Before(header, earlier, |earlier|);
    !Balanced(lead) && Optimize(lead).Some? && Outlasts(n, Optimize(lead).value + (h + "\n"), rules)
  }

  /** Behind an open fence a long enough probe, under any heading, is not split in
      the file, while the verifier looks for it split. */
  lemma OpenFenceHidesTheProbe(header: string, earlier: seq<string>, h: string, n: nat, rules: Rules)
    requires EndsWithNewline(header) && Heading(h)
    ensures OpenBefore(header, earlier, h, n, rules) ==>
      Written(h, h + "\n" + (Probe(n) + "\n")) && !LastIsFound(header, earlier, h + "\n" + (Probe(n) + "\n"), rules)
  {
    if !OpenBefore(header, earlier, h, n, rules) { return; }
    var s, lead := h + "\n" + (Probe(n) + "\n"), Before(header, earlier, |earlier|);
    BodyOfLast(header, earlier, s);
    ProbeIsWritten(h, n);
    HiddenBehind(lead, header, earlier + [s], s, h, n, rules);
    NotFound(header, earlier, s, rules, FileText(Optimize(lead).value + (h + "\n"), n, rules),
      WantedText(Optimize(h + "\n").value, n, rules));
  }

  lemma HiddenBehind(lead: string, header: string, sections: seq<string>, s: string, h: string, n: nat, rules: Rules)
    requires EndsWithNewline(lead) && !Balanced(lead) && Optimize(lead).Some? && Heading(h)
    requires Outlasts(n, Optimize(lead).value + (h + "\n"), rules)
    requires s == h + "\n" + (Probe(n) + "\n") && header + Join("\n", sections) == lead + s
    ensures Migrate(header, sections, rules) == Some(FileText(Optimize(lead).value + (h + "\n"), n, rules))
    ensures Optimize(h + "\n").Some? && Expect(s, rules) == Some(WantedText(Optimize(h + "\n").value, n, rules))
    ensures !Contains(FileText(Optimize(lead).value + (h + "\n"), n, rules),
      WantedText(Optimize(h + "\n").value, n, rules))
  {
    BehindTheHeading(lead, h);
    UnsplitBehind(lead + (h + "\n"), Optimize(lead).value + (h + "\n"), lead, h, s, n, header, sections, rules);
    SplitSection(h, n, rules);
    HiddenProbe(Optimize(lead).value + (h + "\n"), Optimize(h + "\n").value, n, rules);
  }

  lemma UnsplitBehind(
    behind: string, x: string, lead: string, h: string, s: string, n: nat, header: string,
    sections: seq<string>, rules: Rules)
    requires behind == lead + (h + "\n") && !Balanced(behind) && Optimize(behind) == Some(x) && n >= 300
    requires s == h + "\n" + (Probe(n) + "\n") && header + Join("\n", sections) == lead + s
    ensures Migrate(header, sections, rules) == Some(FileText(x, n, rules))
  {
    assert lead + s == behind + (Probe(n) + "\n");
    UnsplitProbe(behind, n, header, sections, rules);
  }

  lemma NotFound(header: string, earlier: seq<string>, s: string, rules: Rules, file: string, wanted: string)
    ensures Migrate(header, earlier + [s], rules) == Some(file) && Expect(s, rules) == Some(wanted)
      && !Contains(file, wanted)
      ==> !LastIsFound(header, earlier, s, rules)
  {
  }

  lemma UnsplitProbe(lead: string, n: nat, header: string, sections: seq<string>, rules: Rules)
    requires n >= 300 && EndsWithNewline(lead) && !Balanced(lead) && Optimize(lead).Some?
    requires header + Join("\n", sections) == lead + (Probe(n) + "\n")
    ensures Migrate(header, sections, rules) == Some(FileText(Optimize(lead).value, n, rules))
  {
    ProbeSection(n);
    UnsplitFile(lead, Probe(n) + "\n", header, sections, rules);
  }

  lemma BehindTheHeading(lead: string, h: string)
    requires EndsWithNewline(lead) && !Balanced(lead) && Optimize(lead).Some? && Heading(h)
    ensures !Balanced(lead + (h + "\n")) && Optimize(lead + (h + "\n")) == Some(Optimize(lead).value + (h + "\n"))
  {
    HeadingStays(h);
    OptimizeAppend(lead, h + "\n");
  }

  lemma HiddenProbe(x: string, head: string, n: nat, rules: Rules)
    requires Outlasts(n, x, rules)
    ensures !Contains(FileText(x, n, rules), WantedText(head, n, rules))
  {
    var first, second := Probe(n)[..n + 1] + "\n", Probe(n)[n + 1..] + "\n";
    ProbeLines(n);
    ApplyInLine(rules, Probe(n) + "\n");
    ApplyInLine(rules, first);
    BlankLineIsMissed(Apply(rules, x), Apply(rules, Probe(n) + "\n"), Apply(rules, head), Apply(rules, first),
      Apply(rules, second));
  }

  lemma LastFoundWhenClosed(header: string, earlier: seq<string>, s: string, rules: Rules)
    requires EndsWithNewline(header) && (forall k | 0 <= k < |earlier| :: IsSection(earlier[k])) && IsSection(s)
    requires Balanced(Before(header, earlier, |earlier|))
    ensures LastIsFound(header, earlier, s, rules)
  {
    var sections := earlier + [s];
    BeforeIsPrefix(header, earlier, s);
    SectionIsFound(header, sections, rules, |earlier|);
    assert sections[|earlier|] == s;
  }

  /** Behind a given header and given sections, under any heading and any rules, the
      check finds every section one could write exactly when these leave the fences
      closed. */
  lemma FoundExactlyWhenClosed(header: string, earlier: seq<string>, h: string, rules: Rules)
    requires EndsWithNewline(header) && (forall k | 0 <= k < |earlier| :: IsSection(earlier[k])) && Heading(h)
    requires Optimize(Before(header, earlier, |earlier|)).Some?
    ensures Balanced(Before(header, earlier, |earlier|))
      <==> forall s | Written(h, s) :: LastIsFound(header, earlier, s, rules)
  {
    var lead := Before(header, earlier, |earlier|);
    if Balanced(lead) {
      forall s | Written(h, s) ensures LastIsFound(header, earlier, s, rules) {
        LastFoundWhenClosed(header, earlier, s, rules);
      }
    } else {
      var x := Optimize(lead).value + (h + "\n");
      EnoughOutlasts(x, rules);
      OpenFenceHidesTheProbe(header, earlier, h, Enough(|Apply(rules, x)|, rules), rules);
    }
  }

  // ------------------------------------------------------ a section that opens one

  /** Under every header that leaves its fences closed, every section that opens one
      makes the check miss what may follow it under any heading, for instance a long
      enough probe. */
  lemma UnbalancedSectionBreaksTheCheck(header: string, opening: string, h: string, n: nat, rules: Rules)
    requires EndsWithNewline(header) && IsSection(opening) && Heading(h)
    ensures OpensAFence(header, opening, h, n, rules) ==>
      Written(h, h + "\n" + (Probe(n) + "\n")) && !LastIsFound(header, [opening], h + "\n" + (Probe(n) + "\n"), rules)
  {
    if OpensAFence(header, opening, h, n, rules) {
      StillOpen(header, opening);
      BeforeOne(header, opening);
      OpenFenceHidesTheProbe(header, [opening], h, n, rules);
    }
  }

  /** The header leaves its fences closed and the section does not, both can be
      split, and the probe is long enough. */
  predicate OpensAFence(header: string, opening: string, h: string, n: nat, rules: Rules) {
    && Balanced(header) && !Balanced(opening) && Optimize(header + (opening + "\n")).Some?
    && Outlasts(n, Optimize(header + (opening + "\n")).value + (h + "\n"), rules)
  }

  lemma StillOpen(header: string, opening: string)
    requires EndsWithNewline(header) && Balanced(header) && EndsWithNewline(opening) && !Balanced(opening)
    ensures !Balanced(header + (opening + "\n"))
  {
    BlankLineIsBalanced();
    OptimizeAppend(opening, "\n");
    BalancedDistributes(header, opening + "\n");
  }

  lemma BeforeOne(header: string, s: string)
    ensures Before(header, [s], 1) == header + (s + "\n")
  {
    assert [s][1..] == [];
    assert Before(header + (s + "\n"), [], 0) == header + (s + "\n");
  }

  /** Under every heading such a section can be written: a line that opens a fence. */
  lemma OpeningCanBeWritten(h: string)
    requires Heading(h)
    ensures var s := h + "\n" + "```\n"; Written(h, s) && !Balanced(s) && Optimize(s).Some?
  {
    HeadingStays(h);
    FenceLineStays("```");
    assert "```" + "\n" == "```\n";
    OptimizeAppend(h + "\n", "```\n");
    OpeningIsWritten(h, "```", h + "\n" + "```\n");
  }

  lemma FenceLineStays(mark: string)
    requires mark == "```"
    ensures SplitLines(mark + "\n") == [mark] && OptimizeFrom(mark + "\n", false) == Some(mark + "\n")
      && FenceAfter([mark], false)
  {
    LineThenNewline(mark);
    MarkToggles(mark);
    ReadToggle(TogglesFence, LineOutput, mark, false);
    RenderOne(mark);
  }

  lemma MarkToggles(mark: string)
    requires mark == "```"
    ensures TogglesFence(mark) && LineOutput(mark, true) == Some([mark])
  {
    assert !IsSpace(mark[0]);
  }

  lemma ReadToggle(toggles: string -> bool, emit: (string, bool) -> Option<seq<string>>, line: string, state: bool)
    requires toggles(line)
    ensures Read(toggles, emit, [line], state) == emit(line, !state) && After(toggles, [line], state) == !state
  {
    var lines := [line];
    assert lines[1..] == [];
    AppendLaws(emit(line, !state), Some([]), Some([]));
    assert After(toggles, lines[1..], !state) == !state;
  }

  lemma RenderOne(line: string)
    ensures Render(line + "\n", [line]) == line + "\n"
  {
    assert [line][1..] == [] && Join("\n", [line]) == line;
  }

  lemma OpeningIsWritten(h: string, mark: string, s: string)
    requires Heading(h) && mark == "```" && s == h + "\n" + (mark + "\n")
    ensures Written(h, s)
  {
    forall k | 0 <= k < |s| - 1 ensures s[k] == '\n' ==> s[k + 1] != '#' {
      assert k < |h| ==> s[k] == h[k];
      assert k > |h| ==> s[k] == mark[k - |h| - 1];
    }
    NoMarkedLine(s, "\n### ");
    NoMarkedLine(s, "\n## ");
  }

  lemma NoMarkedLine(s: string, mark: string)
    requires 2 <= |mark| && mark[0] == '\n' && mark[1] == '#'
    requires forall k | 0 <= k < |s| - 1 :: s[k] == '\n' ==> s[k + 1] != '#'
    ensures !Contains(s, mark)
  {
    forall before, after ensures s != before + mark + after {
      var t := before + mark + after;
      assert t[|before|] == '\n' && t[|before| + 1] == '#';
    }
  }
}
