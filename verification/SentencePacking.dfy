/** Cutting prose into sentences and packing the sentences greedily into chunks. */
module SentencePacking {
  import opened PythonText

  predicate IsTerminator(c: char) {
    c == '\U{3002}' || c == '\U{FF1B}'
  }

  /** The pieces of `content` cut after every terminator, without empty ones. */
  function Sentences(content: string): seq<string>
    decreases |content|
  {
    if content == "" then []
    else
      var k := SentenceLength(content);
      [content[..k]] + Sentences(content[k..])
  }

  lemma {:induction false} SentencesAreTheContent(content: string)
    ensures Concat(Sentences(content)) == content
    ensures forall i | 0 <= i < |Sentences(content)| :: Sentences(content)[i] != ""
    decreases |content|
  {
    if content != "" {
      var k := SentenceLength(content);
      SentencesAreTheContent(content[k..]);
      OnePieceMore(content, content[..k], content[k..], Sentences(content[k..]));
    }
  }

  lemma OnePieceMore(content: string, first: string, rest: string, pieces: seq<string>)
    requires content == first + rest && first != "" && Concat(pieces) == rest
    requires forall i | 0 <= i < |pieces| :: pieces[i] != ""
    ensures Concat([first] + pieces) == content
    ensures forall i | 0 <= i < |[first] + pieces| :: ([first] + pieces)[i] != ""
  {
    assert ([first] + pieces)[1..] == pieces;
  }

  /** Up to and including the first terminator, or everything. */
  function SentenceLength(content: string): (k: nat)
    requires content != ""
    ensures 1 <= k <= |content|
    ensures forall i | 0 <= i < k - 1 :: !IsTerminator(content[i])
    ensures k < |content| ==> IsTerminator(content[k - 1])
  {
    if IsTerminator(content[0]) || |content| == 1 then 1 else 1 + SentenceLength(content[1..])
  }

  // ------------------------------------------------------------ greedy packing

  /** The chunks made of `current` and the sentences still to come. */
  function Pack(sentences: seq<string>, current: string, limit: int): seq<string> {
    if sentences == [] then (if current == "" then [] else [current])
    else if current != "" && |current| + |sentences[0]| > limit
    then [current] + Pack(sentences[1..], sentences[0], limit)
    else Pack(sentences[1..], current + sentences[0], limit)
  }

  method PackSentences(sentences: seq<string>, limit: int) returns (chunks: seq<string>)
    ensures chunks == Pack(sentences, "", limit)
  {
    chunks := [];
    var current := "";
    for i := 0 to |sentences|
      invariant chunks + Pack(sentences[i..], current, limit) == Pack(sentences, "", limit)
    {
      var sentence := sentences[i];
      assert sentences[i..][1..] == sentences[i + 1..];
      if current != "" && |current| + |sentence| > limit {
        assert chunks + ([current] + Pack(sentences[i + 1..], sentence, limit))
            == (chunks + [current]) + Pack(sentences[i + 1..], sentence, limit);
        chunks := chunks + [current];
        current := sentence;
      } else {
        current := current + sentence;
      }
    }
    if current != "" {
      chunks := chunks + [current];
    }
  }

  /** No text is lost, and no chunk is empty. */
  lemma {:induction false} PackIsLossless(sentences: seq<string>, current: string, limit: int)
    requires forall i | 0 <= i < |sentences| :: sentences[i] != ""
    ensures Concat(Pack(sentences, current, limit)) == current + Concat(sentences)
    ensures forall i | 0 <= i < |Pack(sentences, current, limit)| :: Pack(sentences, current, limit)[i] != ""
  {
    if sentences == [] {
    } else if current != "" && |current| + |sentences[0]| > limit {
      PackIsLossless(sentences[1..], sentences[0], limit);
    } else {
      PackIsLossless(sentences[1..], current + sentences[0], limit);
    }
  }

  // --------------------------------------------------------------- optimality

  /** A grouping puts consecutive sentences together; a group is allowed when it
      is one sentence or fits the limit. */
  ghost predicate Allowed(group: seq<string>, limit: int) {
    group != [] && (|group| == 1 || |Concat(group)| <= limit)
  }

  function Flatten(groups: seq<seq<string>>): seq<string> {
    if groups == [] then [] else groups[0] + Flatten(groups[1..])
  }

  ghost predicate GroupingOf(groups: seq<seq<string>>, sentences: seq<string>, limit: int) {
    Flatten(groups) == sentences && forall i | 0 <= i < |groups| :: Allowed(groups[i], limit)
  }

  /** How many sentences the greedy rule puts into a chunk that holds `n`. */
  function Fill(s: seq<string>, n: nat, limit: int): (m: nat)
    requires 1 <= n <= |s|
    ensures n <= m <= |s|
    decreases |s| - n
  {
    if n < |s| && |Concat(s[..n])| + |s[n]| <= limit then Fill(s, n + 1, limit) else n
  }

  lemma ConcatOneMore(s: seq<string>, n: nat)
    requires n < |s|
    ensures Concat(s[..n + 1]) == Concat(s[..n]) + s[n]
  {
    assert s[..n + 1] == s[..n] + [s[n]];
    ConcatAppend(s[..n], [s[n]]);
  }

  lemma {:induction false} ConcatIsMonotone(s: seq<string>, k: nat, n: nat)
    requires k <= n <= |s|
    ensures |Concat(s[..k])| <= |Concat(s[..n])|
  {
    if k < n {
      ConcatIsMonotone(s, k, n - 1);
      ConcatOneMore(s, n - 1);
    }
  }

  /** Greedy stops only where one more sentence would not be allowed. */
  lemma {:induction false} FillIsAllowedAndMaximal(s: seq<string>, n: nat, limit: int, k: nat)
    requires 1 <= n <= |s| && Allowed(s[..n], limit) && k <= |s|
    ensures Allowed(s[..Fill(s, n, limit)], limit)
    ensures Allowed(s[..k], limit) && n <= k ==> k <= Fill(s, n, limit)
    decreases |s| - n
  {
    if n < |s| {
      ConcatOneMore(s, n);
      if |Concat(s[..n])| + |s[n]| <= limit {
        FillIsAllowedAndMaximal(s, n + 1, limit, k);
      } else if n < k {
        ConcatIsMonotone(s, n + 1, k);
      }
    }
  }

  /** A greedy chunk takes exactly what `Fill` counts. */
  lemma {:induction false} PackTakesFill(s: seq<string>, n: nat, limit: int)
    requires 1 <= n <= |s| && forall i | 0 <= i < |s| :: s[i] != ""
    ensures var m := Fill(s, n, limit);
      Pack(s[n..], Concat(s[..n]), limit) == [Concat(s[..m])] + Pack(s[m..], "", limit)
    decreases |s| - n
  {
    assert Concat(s[..n]) != "" by {
      assert s[..n][0] == s[0] != "";
    }
    if n < |s| {
      ConcatOneMore(s, n);
      assert s[n..][1..] == s[n + 1..];
      assert s[n..][0] == s[n];
      assert "" + s[n] == s[n];
      if |Concat(s[..n])| + |s[n]| <= limit {
        PackTakesFill(s, n + 1, limit);
      }
    }
  }

  /** The groups the greedy rule forms. */
  function Greedy(s: seq<string>, limit: int): seq<seq<string>>
    decreases |s|
  {
    if s == [] then []
    else
      var m := Fill(s, 1, limit);
      [s[..m]] + Greedy(s[m..], limit)
  }

  function Texts(groups: seq<seq<string>>): (texts: seq<string>)
    ensures |texts| == |groups|
  {
    if groups == [] then [] else [Concat(groups[0])] + Texts(groups[1..])
  }

  /** The chunks are the texts of allowed groups of consecutive sentences: each is
      within the limit or a single sentence. */
  lemma {:induction false} PackFormsAllowedGroups(s: seq<string>, limit: int)
    requires forall i | 0 <= i < |s| :: s[i] != ""
    ensures GroupingOf(Greedy(s, limit), s, limit)
    ensures Pack(s, "", limit) == Texts(Greedy(s, limit))
    decreases |s|
  {
    if s != [] {
      var m := Fill(s, 1, limit);
      FirstChunk(s, limit);
      PackFormsAllowedGroups(s[m..], limit);
      OneGroupMore(s, s[..m], s[m..], Greedy(s[m..], limit), limit);
    }
  }

  lemma FirstChunk(s: seq<string>, limit: int)
    requires s != [] && forall i | 0 <= i < |s| :: s[i] != ""
    ensures var m := Fill(s, 1, limit);
      Allowed(s[..m], limit) && Pack(s, "", limit) == [Concat(s[..m])] + Pack(s[m..], "", limit)
  {
    FillIsAllowedAndMaximal(s, 1, limit, 1);
    PackTakesFill(s, 1, limit);
    ConcatOneMore(s, 0);
    assert s[..0] == [] && "" + s[0] == s[0];
    assert Pack(s, "", limit) == Pack(s[1..], Concat(s[..1]), limit);
  }

  lemma OneGroupMore(s: seq<string>, g: seq<string>, rest: seq<string>, groups: seq<seq<string>>, limit: int)
    requires s == g + rest && Allowed(g, limit) && GroupingOf(groups, rest, limit)
    ensures GroupingOf([g] + groups, s, limit) && Texts([g] + groups) == [Concat(g)] + Texts(groups)
  {
    assert ([g] + groups)[1..] == groups;
  }

  lemma SuffixIsAllowed(extra: seq<string>, part: seq<string>, limit: int)
    requires Allowed(extra + part, limit) && part != []
    ensures Allowed(part, limit)
  {
    ConcatAppend(extra, part);
  }

  lemma CutBehind(extra: seq<string>, s: seq<string>, g: seq<string>, rest: seq<string>, k: nat)
    requires extra + s == g + rest && |g| == |extra| + k
    ensures k <= |s| && g == extra + s[..k] && s[k..] == rest
  {
    assert g == (extra + s)[..|g|] && rest == (extra + s)[|g|..];
  }

  /** A first group that reaches past the extra sentences takes no more of `s` than
      the first greedy chunk. */
  lemma FirstGroupIsBehind(extra: seq<string>, s: seq<string>, g: seq<string>, rest: seq<string>, limit: int)
    requires extra + s == g + rest && |g| > |extra| && s != [] && Allowed(g, limit)
    ensures var k, m := |g| - |extra|, Fill(s, 1, limit); k <= m && s[k..m] + s[m..] == rest
  {
    var k, m := |g| - |extra|, Fill(s, 1, limit);
    CutBehind(extra, s, g, rest, k);
    assert k <= m by {
      SuffixIsAllowed(extra, s[..k], limit);
      FillIsAllowedAndMaximal(s, 1, limit, k);
    }
    assert s[k..m] + s[m..] == s[k..];
  }

  lemma LaterGroups(groups: seq<seq<string>>, sentences: seq<string>, limit: int)
    requires GroupingOf(groups, sentences, limit) && groups != []
    ensures sentences == groups[0] + Flatten(groups[1..]) && Allowed(groups[0], limit)
    ensures GroupingOf(groups[1..], Flatten(groups[1..]), limit)
  {
    forall i | 0 <= i < |groups[1..]| ensures Allowed(groups[1..][i], limit) { assert groups[1..][i] == groups[i + 1]; }
  }

  lemma NoGroupsNoSentences(groups: seq<seq<string>>, sentences: seq<string>, limit: int)
    requires GroupingOf(groups, sentences, limit) && sentences != []
    ensures groups != []
  {
  }

  /** Greedy stays ahead: any allowed grouping of the same sentences with some
      extra ones in front has at least as many groups. */
  lemma {:induction false} GreedyStaysAhead(
    extra: seq<string>, s: seq<string>, groups: seq<seq<string>>, limit: int)
    requires GroupingOf(groups, extra + s, limit)
    ensures |Greedy(s, limit)| <= |groups|
    decreases |groups|
  {
    if s != [] {
      NoGroupsNoSentences(groups, extra + s, limit);
      LaterGroups(groups, extra + s, limit);
      var g, later := groups[0], groups[1..];
      if |g| <= |extra| {
        assert extra[|g|..] + s == Flatten(later) by { assert (extra + s)[|g|..] == extra[|g|..] + s; }
        GreedyStaysAhead(extra[|g|..], s, later, limit);
      } else {
        FirstGroupIsBehind(extra, s, g, Flatten(later), limit);
        var k, m := |g| - |extra|, Fill(s, 1, limit);
        GreedyStaysAhead(s[k..m], s[m..], later, limit);
      }
    }
  }

  /** No grouping of the sentences within the limit uses fewer chunks. */
  lemma PackIsMinimal(s: seq<string>, groups: seq<seq<string>>, limit: int)
    requires forall i | 0 <= i < |s| :: s[i] != ""
    requires GroupingOf(groups, s, limit)
    ensures |Pack(s, "", limit)| <= |groups|
  {
    PackFormsAllowedGroups(s, limit);
    assert [] + s == s;
    GreedyStaysAhead([], s, groups, limit);
  }
}
