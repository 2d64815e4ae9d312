/** The string operations of Python that the document scripts and the event
    stream rely on. */
module PythonText {
  /** `str.isspace` for one character. */
  predicate IsSpace(c: char) {
    || '\t' <= c <= '\r' || '\U{1C}' <= c <= ' ' || c == '\U{85}' || c == '\U{A0}' || c == '\U{1680}'
    || '\U{2000}' <= c <= '\U{200A}' || '\U{2028}' <= c <= '\U{2029}'
    || c == '\U{202F}' || c == '\U{205F}' || c == '\U{3000}'
  }

  function Lstrip(s: string): (r: string)
    ensures |r| <= |s| && r == s[|s| - |r|..]
    ensures r != "" ==> !IsSpace(r[0])
  {
    if s != "" && IsSpace(s[0]) then Lstrip(s[1..]) else s
  }

  function Rstrip(s: string): (r: string)
    ensures |r| <= |s| && r == s[..|r|]
    ensures r != "" ==> !IsSpace(r[|r| - 1])
  {
    if s != "" && IsSpace(s[|s| - 1]) then Rstrip(s[..|s| - 1]) else s
  }

  function Strip(s: string): string {
    Rstrip(Lstrip(s))
  }

  lemma Unstripped(s: string)
    requires s != "" && !IsSpace(s[0]) && !IsSpace(s[|s| - 1])
    ensures Lstrip(s) == s && Strip(s) == s
  {
  }

  /** Ends with a character that is not a space. */
  predicate Visible(s: string) {
    s != "" && !IsSpace(s[|s| - 1])
  }

  lemma {:induction false} LstripKeepsVisible(s: string)
    requires Visible(s)
    ensures Lstrip(s) != "" && Lstrip(s)[|Lstrip(s)| - 1] == s[|s| - 1]
  {
    if IsSpace(s[0]) {
      LstripKeepsVisible(s[1..]);
    }
  }

  predicate NoNewline(s: string) {
    forall i | 0 <= i < |s| :: s[i] != '\n'
  }

  predicate EndsWithNewline(s: string) {
    s != "" && s[|s| - 1] == '\n'
  }

  /** `needle in text`. */
  ghost predicate Contains(text: string, needle: string) {
    exists before, after :: text == before + needle + after
  }

  function Concat(parts: seq<string>): string {
    if parts == [] then "" else parts[0] + Concat(parts[1..])
  }

  lemma {:induction false} ConcatAppend(a: seq<string>, b: seq<string>)
    ensures Concat(a + b) == Concat(a) + Concat(b)
  {
    if a == [] {
      assert a + b == b;
    } else {
      assert (a + b)[1..] == a[1..] + b;
      ConcatAppend(a[1..], b);
    }
  }

  function Join(separator: string, parts: seq<string>): string {
    if parts == [] then ""
    else if |parts| == 1 then parts[0]
    else parts[0] + separator + Join(separator, parts[1..])
  }

  lemma {:induction false} JoinAppend(separator: string, a: seq<string>, b: seq<string>)
    requires a != [] && b != []
    ensures Join(separator, a + b) == Join(separator, a) + separator + Join(separator, b)
  {
    assert (a + b)[1..] == a[1..] + b;
    if |a| > 1 {
      JoinAppend(separator, a[1..], b);
    }
  }

  // --------------------------------------------------------------- splitlines

  predicate IsLineBreak(c: char) {
    '\n' <= c <= '\r' || '\U{1C}' <= c <= '\U{1E}' || c == '\U{85}' || '\U{2028}' <= c <= '\U{2029}'
  }

  /** The length of the break that starts a text: a carriage return takes its
      newline along. */
  function BreakLength(s: string): (n: nat)
    requires s != ""
    ensures 1 <= n <= |s|
  {
    if s[0] == '\r' && 1 < |s| && s[1] == '\n' then 2 else 1
  }

  function SplitLines(s: string): (lines: seq<string>)
    ensures lines == [] <==> s == ""
    decreases |s|
  {
    if s == "" then []
    else if IsLineBreak(s[0]) then [""] + SplitLines(s[BreakLength(s)..])
    else if |s| == 1 then [s]
    else
      var rest := SplitLines(s[1..]);
      [[s[0]] + rest[0]] + rest[1..]
  }

  lemma BreakFirst(s: string)
    requires s != "" && IsLineBreak(s[0])
    ensures SplitLines(s) == [""] + SplitLines(s[BreakLength(s)..])
  {
  }

  lemma CharacterFirst(s: string)
    requires 2 <= |s| && !IsLineBreak(s[0])
    ensures var rest := SplitLines(s[1..]); rest != [] && SplitLines(s) == [[s[0]] + rest[0]] + rest[1..]
  {
  }

  lemma {:induction false} SplitLinesAppend(a: string, b: string)
    requires EndsWithNewline(a)
    ensures SplitLines(a + b) == SplitLines(a) + SplitLines(b)
    decreases |a|
  {
    if IsLineBreak(a[0]) {
      var n := BreakLength(a);
      if n < |a| { SplitLinesAppend(a[n..], b); }
      AppendBehindBreak(a, b, n);
    } else {
      SplitLinesAppend(a[1..], b);
      AppendBehindCharacter(a, b);
    }
  }

  lemma AppendBehindBreak(a: string, b: string, n: nat)
    requires a != "" && IsLineBreak(a[0]) && n == BreakLength(a) && EndsWithNewline(a)
    requires n < |a| ==> SplitLines(a[n..] + b) == SplitLines(a[n..]) + SplitLines(b)
    ensures SplitLines(a + b) == SplitLines(a) + SplitLines(b)
  {
    assert BreakLength(a + b) == n && (a + b)[n..] == a[n..] + b;
    BreakFirst(a);
    BreakFirst(a + b);
    if n == |a| {
      assert a[n..] == "" && a[n..] + b == b;
    }
    MoreLines(SplitLines(a[n..]), SplitLines(b));
  }

  lemma MoreLines(a: seq<string>, b: seq<string>)
    ensures [""] + (a + b) == [""] + a + b
  {
  }

  lemma AppendBehindCharacter(a: string, b: string)
    requires 2 <= |a| && !IsLineBreak(a[0])
    requires SplitLines(a[1..] + b) == SplitLines(a[1..]) + SplitLines(b)
    ensures SplitLines(a + b) == SplitLines(a) + SplitLines(b)
  {
    CharacterFirst(a);
    CharacterFirst(a + b);
    assert (a + b)[1..] == a[1..] + b;
    LongerFirst(a[0], SplitLines(a[1..]), SplitLines(b));
  }

  lemma LongerFirst(c: char, a: seq<string>, b: seq<string>)
    requires a != []
    ensures [[c] + (a + b)[0]] + (a + b)[1..] == [[c] + a[0]] + a[1..] + b
  {
  }

  /** The last line of a text that ends with a visible character and a newline. */
  lemma {:induction false} LastLine(t: string) returns (front: seq<string>, line: string)
    requires 2 <= |t| && EndsWithNewline(t) && !IsSpace(t[|t| - 2])
    ensures SplitLines(t) == front + [line]
    ensures line != "" && line[|line| - 1] == t[|t| - 2]
    decreases |t|
  {
    if |t| == 2 {
      front, line := [], [t[0]];
      OneCharacterLine(t);
    } else {
      var n := if IsLineBreak(t[0]) then BreakLength(t) else 1;
      EndBehindBreak(t, n);
      front, line := LastLine(t[n..]);
      if IsLineBreak(t[0]) {
        BreakFirst(t);
        front := [""] + front;
      } else {
        CharacterFirst(t);
        PrependToFirst(t[0], front, line);
        if front == [] {
          line := [t[0]] + line;
        } else {
          front := [[t[0]] + front[0]] + front[1..];
        }
      }
    }
  }

  lemma EndBehindBreak(t: string, n: nat)
    requires 3 <= |t| && EndsWithNewline(t) && !IsSpace(t[|t| - 2])
    requires n == if IsLineBreak(t[0]) then BreakLength(t) else 1
    ensures n + 2 <= |t| && EndsWithNewline(t[n..]) && t[n..][|t| - n - 2] == t[|t| - 2]
  {
    assert !IsLineBreak(t[|t| - 2]);
  }

  lemma OneCharacterLine(t: string)
    requires |t| == 2 && t[1] == '\n' && !IsSpace(t[0])
    ensures SplitLines(t) == [[t[0]]]
  {
    assert !IsLineBreak(t[0]);
    CharacterFirst(t);
    assert t[1..] == "\n" && BreakLength("\n") == 1 && "\n"[1..] == "";
    BreakFirst("\n");
    assert SplitLines(t[1..]) == [""];
    assert [t[0]] + "" == [t[0]];
  }

  lemma PrependToFirst(c: char, front: seq<string>, line: string)
    ensures var all := front + [line];
      [[c] + all[0]] + all[1..] ==
      if front == [] then [[c] + line] else [[c] + front[0]] + front[1..] + [line]
  {
  }

  // ------------------------------------------------------------------ replace

  /** `str.replace`: leftmost, non-overlapping. */
  function Replace(s: string, old_: string, new_: string): string
    requires old_ != ""
    decreases |s|
  {
    if s == "" then ""
    else if old_ <= s then new_ + Replace(s[|old_|..], old_, new_)
    else [s[0]] + Replace(s[1..], old_, new_)
  }

  /** A pattern without a newline matches before any newline. */
  lemma MatchStopsBeforeNewline(t: string, old_: string, k: nat)
    requires old_ <= t && NoNewline(old_) && k < |t| && t[k] == '\n'
    ensures |old_| <= k
  {
    assert forall i | 0 <= i < |old_| :: t[i] == old_[i];
  }

  /** A pattern without a newline never matches across the end of a line. */
  lemma {:induction false} ReplaceAppend(a: string, b: string, old_: string, new_: string)
    requires old_ != "" && NoNewline(old_) && (a == "" || EndsWithNewline(a))
    ensures Replace(a + b, old_, new_) == Replace(a, old_, new_) + Replace(b, old_, new_)
    decreases |a|
  {
    if a == "" {
      assert a + b == b;
    } else if old_ <= a + b {
      MatchStopsBeforeNewline(a + b, old_, |a| - 1);
      assert old_ <= a;
      assert (a + b)[|old_|..] == a[|old_|..] + b;
      ReplaceAppend(a[|old_|..], b, old_, new_);
    } else {
      assert !(old_ <= a);
      assert (a + b)[1..] == a[1..] + b;
      ReplaceAppend(a[1..], b, old_, new_);
    }
  }

  lemma ReplaceInNewline(old_: string, new_: string)
    requires old_ != "" && NoNewline(old_)
    ensures Replace("\n", old_, new_) == "\n"
  {
    assert !(old_ <= "\n") by { assert old_[0] != '\n'; }
    assert Replace("\n"[1..], old_, new_) == "";
  }

  /** Replacing keeps a final newline and a visible character before it. */
  lemma ReplaceKeepsEnd(s: string, old_: string, new_: string)
    requires old_ != "" && NoNewline(old_) && new_ != "" && !IsSpace(new_[|new_| - 1])
    requires EndsWithNewline(s)
    ensures EndsWithNewline(Replace(s, old_, new_))
    ensures |s| >= 2 && !IsSpace(s[|s| - 2]) ==>
      var r := Replace(s, old_, new_); |r| >= 2 && !IsSpace(r[|r| - 2])
  {
    ReplaceKeepsKind(s, old_, new_, c => !IsSpace(c));
  }

  /** A text ends with a newline, and before it with a character of a kind. */
  predicate EndsInKind(s: string, kind: char -> bool) {
    2 <= |s| && s[|s| - 1] == '\n' && kind(s[|s| - 2])
  }

  lemma {:induction false} ReplaceKeepsKind(s: string, old_: string, new_: string, kind: char -> bool)
    requires old_ != "" && NoNewline(old_) && new_ != "" && kind(new_[|new_| - 1]) && EndsWithNewline(s)
    ensures EndsWithNewline(Replace(s, old_, new_))
    ensures EndsInKind(s, kind) ==> EndsInKind(Replace(s, old_, new_), kind)
    decreases |s|
  {
    ReplaceInNewline(old_, new_);
    if |s| == 1 {
      assert s == "\n";
    } else {
      var n, first := 1, [s[0]];
      if old_ <= s {
        MatchStopsBeforeNewline(s, old_, |s| - 1);
        n, first := |old_|, new_;
      }
      ReplaceKeepsKind(s[n..], old_, new_, kind);
      if n + 1 == |s| {
        assert s[n..] == "\n";
        assert old_ <= s ==> s[|s| - 2] == old_[n - 1];
      }
      EndBehind(first, Replace(s[n..], old_, new_), s, n, kind);
    }
  }

  lemma EndBehind(first: string, later: string, s: string, n: nat, kind: char -> bool)
    requires first != "" && EndsWithNewline(later) && EndsWithNewline(s) && 1 <= n < |s|
    requires EndsInKind(s[n..], kind) ==> EndsInKind(later, kind)
    requires n + 1 == |s| && EndsInKind(s, kind) ==> later == "\n" && kind(first[|first| - 1])
    ensures EndsWithNewline(first + later)
    ensures EndsInKind(s, kind) ==> EndsInKind(first + later, kind)
  {
  }

  /** Ends with its only newline. */
  ghost predicate OneLine(s: string) {
    EndsWithNewline(s) && forall i | 0 <= i < |s| - 1 :: s[i] != '\n'
  }

  /** A replacement without a newline keeps a line a line. */
  lemma {:induction false} ReplaceInLine(s: string, old_: string, new_: string)
    requires old_ != "" && NoNewline(old_) && NoNewline(new_) && OneLine(s)
    ensures OneLine(Replace(s, old_, new_))
    decreases |s|
  {
    if s == "\n" {
      ReplaceInNewline(old_, new_);
    } else if old_ <= s {
      MatchStopsBeforeNewline(s, old_, |s| - 1);
      ReplaceInLine(s[|old_|..], old_, new_);
      LongerLine(new_, Replace(s[|old_|..], old_, new_));
    } else {
      ReplaceInLine(s[1..], old_, new_);
      LongerLine([s[0]], Replace(s[1..], old_, new_));
    }
  }

  lemma LongerLine(a: string, s: string)
    requires NoNewline(a) && OneLine(s)
    ensures OneLine(a + s)
  {
  }

  /** A replacement that is not empty shortens a text at most by the length of the
      pattern for each character. */
  lemma {:induction false} ReplaceLength(s: string, old_: string, new_: string)
    requires old_ != "" && new_ != ""
    ensures |s| <= |Replace(s, old_, new_)| * |old_|
    decreases |s|
  {
    if s != "" {
      if old_ <= s {
        ReplaceLength(s[|old_|..], old_, new_);
        OneMoreMatch(|s[|old_|..]|, |new_|, |Replace(s[|old_|..], old_, new_)|, |old_|);
      } else {
        ReplaceLength(s[1..], old_, new_);
        OneMoreMatch(|s[1..]|, 1, |Replace(s[1..], old_, new_)|, |old_|);
      }
    }
  }

  lemma OneMoreMatch(rest: nat, first: nat, replaced: nat, k: nat)
    requires rest <= replaced * k && first >= 1
    ensures rest + k <= (first + replaced) * k
  {
    Distribute(first, replaced, k);
  }

  lemma Distribute(a: nat, b: nat, c: nat)
    ensures (a + b) * c == a * c + b * c && (a >= 1 ==> a * c >= c)
  {
  }
}
