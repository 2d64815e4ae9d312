/** The links of migrated contract bodies: every old one is moved, none is left, and
    nothing else is touched. */
module DocsLinks {
  import opened Results
  import opened PythonText
  import LongLines
  import opened LongLinesOutput
  import opened DocsMigration

  /** The end of a link: from its closing bracket to its closing parenthesis. */
  predicate IsLinkEnd(w: string) {
    && 2 <= |w| && w[0] == ']' && w[|w| - 1] == ')'
    && (forall i | 0 < i < |w| :: w[i] != ']') && (forall i | 0 <= i < |w| - 1 :: w[i] != ')')
  }

  /** Two link ends at one place are the same. */
  lemma SameEnd(a: string, b: string, text: string)
    requires IsLinkEnd(a) && IsLinkEnd(b) && a <= text && b <= text
    ensures a == b
  {
    var n := if |a| < |b| then |a| else |b|;
    assert a[n - 1] == text[n - 1] == b[n - 1];
    assert a == text[..|a|] && b == text[..|b|];
  }

  ghost predicate OccursAt(text: string, w: string, i: int) {
    0 <= i <= |text| && w <= text[i..]
  }

  lemma OccursSomewhere(text: string, w: string)
    ensures Contains(text, w) <==> exists i :: OccursAt(text, w, i)
  {
    if before, after :| text == before + w + after {
      assert text[|before|..] == w + after;
      assert OccursAt(text, w, |before|);
    }
    if i :| OccursAt(text, w, i) {
      assert text == text[..i] + w + text[i + |w|..];
    }
  }

  // -------------------------------------------------------------- every link is moved

  /** Behind a place where a link ends, replacing starts afresh. */
  lemma ReplaceAroundLink(a: string, w: string, b: string, old_: string, new_: string)
    requires IsLinkEnd(old_) && IsLinkEnd(w)
    ensures Replace(a + w + b, old_, new_)
         == Replace(a, old_, new_) + (if w == old_ then new_ else w) + Replace(b, old_, new_)
  {
    assert a + w + b == a + (w + b);
    ReplaceBefore(a, w, b, old_, new_);
    ReplaceAtLink(w, b, old_, new_);
    ConcatThree(Replace(a, old_, new_), if w == old_ then new_ else w, Replace(b, old_, new_));
  }

  lemma ConcatThree(x: string, y: string, z: string)
    ensures x + (y + z) == x + y + z
  {
  }

  lemma {:induction false} ReplaceBefore(a: string, w: string, b: string, old_: string, new_: string)
    requires IsLinkEnd(old_) && IsLinkEnd(w)
    ensures Replace(a + (w + b), old_, new_) == Replace(a, old_, new_) + Replace(w + b, old_, new_)
    decreases |a|
  {
    if a == "" {
      assert a + (w + b) == w + b;
    } else {
      var n := if old_ <= a then |old_| else 1;
      MatchEndsBefore(a, w, b, old_);
      ReplaceBefore(a[n..], w, b, old_, new_);
      OneStepAround(a, n, w + b, old_, new_);
    }
  }

  lemma OneStepAround(a: string, n: nat, rest: string, old_: string, new_: string)
    requires a != "" && old_ != "" && (old_ <= a + rest <==> old_ <= a) && n == if old_ <= a then |old_| else 1
    ensures var first := if old_ <= a then new_ else [a[0]];
      && Replace(a, old_, new_) == first + Replace(a[n..], old_, new_)
      && Replace(a + rest, old_, new_) == first + Replace(a[n..] + rest, old_, new_)
  {
    assert (a + rest)[n..] == a[n..] + rest;
  }

  lemma MatchEndsBefore(a: string, w: string, b: string, old_: string)
    requires a != "" && IsLinkEnd(w) && IsLinkEnd(old_)
    ensures old_ <= a + (w + b) <==> old_ <= a
  {
    var text := a + (w + b);
    assert text[|a|] == ']' && text[..|a|] == a;
    if old_ <= text && |old_| <= |a| {
      assert old_ == a[..|old_|];
    }
  }

  lemma ReplaceAtLink(w: string, b: string, old_: string, new_: string)
    requires IsLinkEnd(old_) && IsLinkEnd(w)
    ensures Replace(w + b, old_, new_) == (if w == old_ then new_ else w) + Replace(b, old_, new_)
  {
    if w == old_ {
      assert (w + b)[|w|..] == b;
    } else {
      if old_ <= w + b { SameEnd(old_, w, w + b); }
      assert (w + b)[1..] == w[1..] + b;
      PlainIsCopied(w[1..], b, old_, new_);
    }
  }

  /** Text in which no link ends is copied. */
  lemma {:induction false} PlainIsCopied(a: string, b: string, old_: string, new_: string)
    requires IsLinkEnd(old_) && forall i | 0 <= i < |a| :: a[i] != ']'
    ensures Replace(a + b, old_, new_) == a + Replace(b, old_, new_)
    decreases |a|
  {
    if a == "" {
      assert a + b == b;
    } else {
      assert (a + b)[0] == a[0] && (a + b)[1..] == a[1..] + b;
      PlainIsCopied(a[1..], b, old_, new_);
      assert a == [a[0]] + a[1..];
    }
  }

  lemma {:induction false} NothingToReplace(s: string, old_: string, new_: string)
    requires old_ != "" && forall i :: !OccursAt(s, old_, i)
    ensures Replace(s, old_, new_) == s
    decreases |s|
  {
    if s != "" {
      assert s[0..] == s && !OccursAt(s, old_, 0);
      forall i ensures !OccursAt(s[1..], old_, i) {
        if 0 <= i <= |s[1..]| { assert s[1..][i..] == s[i + 1..] && !OccursAt(s, old_, i + 1); }
      }
      NothingToReplace(s[1..], old_, new_);
    }
  }

  // --------------------------------------------------------------- no old link is left

  /** A beginning without a closing bracket is not the replacement's. */
  lemma {:induction false} PlainBeginning(s: string, old_: string, new_: string, u: string)
    requires IsLinkEnd(old_) && IsLinkEnd(new_) && u <= Replace(s, old_, new_)
    requires forall i | 0 <= i < |u| :: u[i] != ']'
    ensures u <= s
    decreases |s|
  {
    if u != "" {
      assert u[0] == Replace(s, old_, new_)[0];
      assert u[1..] <= Replace(s[1..], old_, new_) by {
        assert Replace(s, old_, new_)[1..] == Replace(s[1..], old_, new_);
      }
      PlainBeginning(s[1..], old_, new_, u[1..]);
      assert u == [u[0]] + u[1..] && s == [s[0]] + s[1..];
    }
  }

  /** A link that was not in the text, or has been replaced, is not in the result. */
  lemma {:induction false} ReplaceLeavesNone(s: string, old_: string, new_: string, w: string, i: int)
    requires IsLinkEnd(old_) && IsLinkEnd(new_) && IsLinkEnd(w) && w != new_
    requires w == old_ || forall k :: !OccursAt(s, w, k)
    ensures !OccursAt(Replace(s, old_, new_), w, i)
    decreases |s|
  {
    if s != "" {
      var n := if old_ <= s then |old_| else 1;
      var first := if old_ <= s then new_ else [s[0]];
      var later := Replace(s[n..], old_, new_);
      forall k ensures w == old_ || !OccursAt(s[n..], w, k) {
        if 0 <= k <= |s[n..]| { assert s[n..][k..] == s[k + n..] && (w == old_ || !OccursAt(s, w, k + n)); }
      }
      ReplaceLeavesNone(s[n..], old_, new_, w, i - |first|);
      assert w == old_ || !(w <= s) by { assert s[0..] == s && (w == old_ || !OccursAt(s, w, 0)); }
      NotAtTheFront(s, old_, new_, w, i, first, later);
      NeitherBefore(first, later, w, i);
    }
  }

  lemma NeitherBefore(first: string, later: string, w: string, i: int)
    requires !OccursAt(later, w, i - |first|) && (i < |first| ==> !OccursAt(first + later, w, i))
    ensures !OccursAt(first + later, w, i)
  {
    if |first| <= i <= |first + later| {
      assert (first + later)[i..] == later[i - |first|..];
    }
  }

  lemma StartsWithBracket(text: string, w: string, i: int)
    requires OccursAt(text, w, i) && IsLinkEnd(w)
    ensures i < |text| && text[i] == ']' && (i == 0 ==> w <= text)
  {
    assert text[i] == text[i..][0];
    assert i == 0 ==> text[i..] == text;
  }

  lemma OtherEnd(a: string, b: string, text: string)
    requires IsLinkEnd(a) && IsLinkEnd(b) && a != b && b <= text
    ensures !(a <= text)
  {
    if a <= text { SameEnd(a, b, text); }
  }

  lemma CopiedFront(s: string, old_: string, new_: string, w: string)
    requires IsLinkEnd(old_) && IsLinkEnd(new_) && IsLinkEnd(w) && s != ""
    requires w <= [s[0]] + Replace(s[1..], old_, new_)
    ensures w <= s
  {
    var r := [s[0]] + Replace(s[1..], old_, new_);
    assert w[1..] <= r[1..] == Replace(s[1..], old_, new_);
    PlainBeginning(s[1..], old_, new_, w[1..]);
    assert w[0] == r[0];
    assert w == [w[0]] + w[1..] && s == [s[0]] + s[1..];
  }

  lemma NotAtTheFront(s: string, old_: string, new_: string, w: string, i: int, first: string, later: string)
    requires IsLinkEnd(old_) && IsLinkEnd(new_) && IsLinkEnd(w) && w != new_ && s != ""
    requires w == old_ || !(w <= s)
    requires first == (if old_ <= s then new_ else [s[0]])
    requires later == Replace(s[if old_ <= s then |old_| else 1..], old_, new_)
    ensures i < |first| ==> !OccursAt(first + later, w, i)
  {
    if old_ <= s { OtherEnd(w, new_, first + later); }
    if OccursAt(first + later, w, i) {
      StartsWithBracket(first + later, w, i);
      if i == 0 && !(old_ <= s) { CopiedFront(s, old_, new_, w); }
    }
  }

  // ------------------------------------------------------------------ contract bodies

  lemma DebtEnd()
    ensures IsLinkEnd("](tech-debt.md)")
  {
    var a := "](tech-debt.md)";
    assert |a| == 15;
    assert forall i | 0 < i < |a| :: a[i] in "(tech-debt.md)";
    assert forall i | 0 <= i < |a| - 1 :: a[i] in "](tech-debt.md";
  }

  lemma MovedDebtEnd()
    ensures IsLinkEnd("](../../../tech-debt.md)")
  {
    var b := "](../../../tech-debt.md)";
    assert |b| == 24;
    assert forall i | 0 < i < |b| :: b[i] in "(./tech-debt.md)";
    assert forall i | 0 <= i < |b| - 1 :: b[i] in "](./tech-debt.md";
  }

  lemma ContractLinkEnds()
    ensures IsLinkEnd("](contract.md)") && IsLinkEnd("](../../../contract.md)")
  {
    var a, b := "](contract.md)", "](../../../contract.md)";
    assert |a| == 14 && |b| == 23;
    assert forall i | 0 < i < |a| :: a[i] in "(contract.md)";
    assert forall i | 0 <= i < |a| - 1 :: a[i] in "](contract.md";
    assert forall i | 0 < i < |b| :: b[i] in "(./contract.md)";
    assert forall i | 0 <= i < |b| - 1 :: b[i] in "](./contract.md";
  }

  lemma ContractEnds()
    ensures IsLinkEnd("](tech-debt.md)") && IsLinkEnd("](../../../tech-debt.md)")
    ensures IsLinkEnd("](contract.md)") && IsLinkEnd("](../../../contract.md)")
  {
    DebtEnd();
    MovedDebtEnd();
    ContractLinkEnds();
  }

  lemma ApplyTwo(rules: Rules, s: string)
    requires |rules| == 2
    ensures Apply(rules, s) == Replace(Replace(s, rules[0].old_, rules[0].new_), rules[1].old_, rules[1].new_)
  {
    var rest: Rules := rules[1..];
    var once := Replace(s, rules[0].old_, rules[0].new_);
    assert rest[0] == rules[1] && rest[1..] == [];
    assert Apply(rest, once) == Apply(rest[1..], Replace(once, rest[0].old_, rest[0].new_));
  }

  lemma ContractRulesInTwo(s: string)
    ensures Apply(CONTRACT_RULES, s) ==
      Replace(Replace(s, "](tech-debt.md)", "](../../../tech-debt.md)"), "](contract.md)", "](../../../contract.md)")
  {
    ApplyTwo(CONTRACT_RULES, s);
  }

  /** Every link to the two documents is moved, wherever it stands. */
  lemma LinkIsMoved(a: string, b: string)
    ensures Apply(CONTRACT_RULES, a + "](tech-debt.md)" + b)
         == Apply(CONTRACT_RULES, a) + "](../../../tech-debt.md)" + Apply(CONTRACT_RULES, b)
    ensures Apply(CONTRACT_RULES, a + "](contract.md)" + b)
         == Apply(CONTRACT_RULES, a) + "](../../../contract.md)" + Apply(CONTRACT_RULES, b)
  {
    MovedOnce(a, "](tech-debt.md)", b);
    MovedOnce(a, "](contract.md)", b);
  }

  lemma MovedOnce(a: string, w: string, b: string)
    requires w == "](tech-debt.md)" || w == "](contract.md)"
    ensures Apply(CONTRACT_RULES, a + w + b) == Apply(CONTRACT_RULES, a)
      + (if w == "](tech-debt.md)" then "](../../../tech-debt.md)" else "](../../../contract.md)")
      + Apply(CONTRACT_RULES, b)
  {
    ContractEnds();
    var o1, n1, o2, n2 := "](tech-debt.md)", "](../../../tech-debt.md)", "](contract.md)", "](../../../contract.md)";
    ContractRulesInTwo(a + w + b);
    ContractRulesInTwo(a);
    ContractRulesInTwo(b);
    ReplaceAroundLink(a, w, b, o1, n1);
    ReplaceAroundLink(Replace(a, o1, n1), if w == o1 then n1 else w, Replace(b, o1, n1), o2, n2);
  }

  lemma NoOldLinkIsLeft(s: string, i: int)
    ensures !OccursAt(Apply(CONTRACT_RULES, s), "](tech-debt.md)", i)
    ensures !OccursAt(Apply(CONTRACT_RULES, s), "](contract.md)", i)
  {
    ContractEnds();
    var o1, n1, o2, n2 := "](tech-debt.md)", "](../../../tech-debt.md)", "](contract.md)", "](../../../contract.md)";
    ContractRulesInTwo(s);
    var once := Replace(s, o1, n1);
    forall k ensures !OccursAt(once, o1, k) { ReplaceLeavesNone(s, o1, n1, o1, k); }
    ReplaceLeavesNone(once, o2, n2, o1, i);
    ReplaceLeavesNone(once, o2, n2, o2, i);
  }

  lemma BeginningHasNone(text: string, file: string, w: string)
    requires w != "" && NoNewline(w) && file == Rstrip(text) + "\n" && forall i :: !OccursAt(text, w, i)
    ensures !Contains(file, w)
  {
    OccursSomewhere(file, w);
    forall i ensures !OccursAt(file, w, i) {
      if 0 <= i <= |file| && i + |w| <= |Rstrip(text)| {
        assert !OccursAt(text, w, i);
        assert file[i..][..|w|] == text[i..][..|w|];
      } else if 0 <= i <= |file| && |w| <= |file[i..]| {
        assert file[i..][|w| - 1] == '\n';
      }
    }
  }

  /** The written file of a contract body has no old link in it. */
  lemma WrittenFileHasNoOldLink(header: string, sections: seq<string>, file: string)
    requires Migrate(header, sections, CONTRACT_RULES) == Some(file)
    ensures !Contains(file, "](tech-debt.md)") && !Contains(file, "](contract.md)")
  {
    RewrittenHasNoOldLink(LongLines.Optimize(header + Join("\n", sections)).value, file);
  }

  lemma RewrittenHasNoOldLink(body: string, file: string)
    requires file == Rstrip(Apply(CONTRACT_RULES, body)) + "\n"
    ensures !Contains(file, "](tech-debt.md)") && !Contains(file, "](contract.md)")
  {
    var text := Apply(CONTRACT_RULES, body);
    forall i ensures !OccursAt(text, "](tech-debt.md)", i) && !OccursAt(text, "](contract.md)", i) {
      NoOldLinkIsLeft(body, i);
    }
    BeginningHasNone(text, file, "](tech-debt.md)");
    BeginningHasNone(text, file, "](contract.md)");
  }

  /** A text without such links is written as it is. */
  lemma OtherTextStays(s: string)
    requires !Contains(s, "](tech-debt.md)") && !Contains(s, "](contract.md)")
    ensures Apply(CONTRACT_RULES, s) == s
  {
    OccursSomewhere(s, "](tech-debt.md)");
    OccursSomewhere(s, "](contract.md)");
    ContractRulesInTwo(s);
    NothingToReplace(s, "](tech-debt.md)", "](../../../tech-debt.md)");
    NothingToReplace(s, "](contract.md)", "](../../../contract.md)");
  }

  // -------------------------------------------------------------- bodies that stay

  /** A body without long lines and old links is written as it is. */
  lemma ShortBodyIsWritten(header: string, sections: seq<string>)
    requires sections != [] && forall k | 0 <= k < |sections| :: IsSection(sections[k])
    requires var body := header + Join("\n", sections);
      && OnlyNewlines(body) && ShortLines(body)
      && !Contains(body, "](tech-debt.md)") && !Contains(body, "](contract.md)")
    ensures Migrate(header, sections, CONTRACT_RULES) == Some(header + Join("\n", sections))
  {
    var body := header + Join("\n", sections);
    ShortTextStays(body);
    OtherTextStays(body);
    BodyIsSection(header, sections);
    RstripOfSection(body);
  }
}
