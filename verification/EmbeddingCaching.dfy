/** What a lookup leaves in the cache, and that the next one need not call. */
module EmbeddingCaching {
  import opened Results
  import opened EmbeddingBatch
  import opened EmbeddingTheorems

  // -------------------------------------------------------------- what is written

  /** The entry of a key is the last vector written for it, or what was there. */
  ghost predicate Written(
    keyOf: KeyOf, asked: seq<string>, vectors: seq<Vector>, m: nat, fault: Option<set<nat>>, key: string, v: Vector)
    requires m <= |asked| && m <= |vectors|
  {
    exists j | 0 <= j < m :: keyOf(asked[j]) == key && vectors[j] == v && (fault.None? || j in fault.value)
  }

  lemma {:induction false} StoredEntries(
    keyOf: KeyOf, cache: Cache, asked: seq<string>, vectors: seq<Vector>, m: nat, fault: Option<set<nat>>, key: string)
    requires m <= |asked| && m <= |vectors|
    ensures var after := Stored(keyOf, cache, asked, vectors, m, fault);
      && (key in cache ==> key in after)
      && (key in after ==>
            (key in cache && after[key] == cache[key]) || Written(keyOf, asked, vectors, m, fault, key, after[key]))
  {
    if m > 0 {
      StoredEntries(keyOf, cache, asked, vectors, m - 1, fault, key);
    }
  }

  lemma {:induction false} StoredIsThere(
    keyOf: KeyOf, cache: Cache, asked: seq<string>, vectors: seq<Vector>, m: nat, fault: Option<set<nat>>, j: nat)
    requires m <= |asked| && m <= |vectors| && j < m && (fault.None? || j in fault.value)
    ensures keyOf(asked[j]) in Stored(keyOf, cache, asked, vectors, m, fault)
  {
    if j < m - 1 {
      StoredIsThere(keyOf, cache, asked, vectors, m - 1, fault, j);
    }
  }

  // ---------------------------------------------------------------------- one text

  /** A lookup that returns and whose write succeeds leaves the text's vector under its
      key and every other entry as it was; the next lookup of the text returns it and
      changes nothing, whatever the API would answer. */
  lemma LookupCaches(keyOf: KeyOf, cache: Cache, text: string, readFails: bool, api: Api, vec: Embed, used: set<string>)
    requires CacheCorrect(keyOf, cache, vec, used) && text in used && HonestApi(api, vec)
    requires NoneShort(api, [text], 0)
    ensures var after := OutcomeOfOne(keyOf, cache, text, readFails, api, false).1;
      && after == cache[keyOf(text) := vec(text)]
      && forall other, writeFails ::
           OutcomeOfOne(keyOf, after, text, false, other, writeFails) == (Some(vec(text)), after)
  {
    assert Batch([text], 0) == [text];
    AnswerIsTheMap(api(0, [text]), [text], vec);
    assert Mapped(vec, [text]) == [vec(text)];
    if !readFails && keyOf(text) in cache {
      assert cache == cache[keyOf(text) := vec(text)];
    }
  }

  /** A lookup whose write fails, or whose call does, leaves the cache as it was. */
  lemma FailedWriteKeepsCache(keyOf: KeyOf, cache: Cache, text: string, readFails: bool, api: Api, writeFails: bool)
    requires writeFails || api(0, [text]).Failed?
    ensures OutcomeOfOne(keyOf, cache, text, readFails, api, writeFails).1 == cache
  {
  }

  // --------------------------------------------------------------------- many texts

  lemma AskedKey(keyOf: KeyOf, cache: Cache, texts: seq<string>, readFault: Option<nat>, i: nat)
    requires i < |texts|
    ensures var todo := Todo(keyOf, cache, texts, readFault);
      keyOf(texts[i]) in cache || exists j | 0 <= j < |todo| :: todo[j] == i
  {
    var todo := Todo(keyOf, cache, texts, readFault);
    if readFault.Some? {
      assert todo[i] == i;
    } else if keyOf(texts[i]) !in cache {
      assert i in Misses(keyOf, cache, texts, |texts|);
    }
  }

  /** A batch call that returns and whose writes succeed leaves every text's vector
      under its key, unless two texts in use share one; and touches no entry but
      those of its texts. */
  lemma BatchCaches(
    keyOf: KeyOf, cache: Cache, texts: seq<string>, readFault: Option<nat>, api: Api, vec: Embed, used: set<string>)
    requires CacheCorrect(keyOf, cache, vec, used) && AllIn(texts, used) && HonestApi(api, vec)
    requires readFault.None? || readFault.value < |texts|
    requires NoneShort(api, At(texts, Todo(keyOf, cache, texts, readFault)), 0)
    ensures var after := Outcome(keyOf, cache, texts, readFault, api, None).1;
      && (forall i | 0 <= i < |texts| :: keyOf(texts[i]) in after)
      && (SharedKey(keyOf, used) || forall i | 0 <= i < |texts| :: after[keyOf(texts[i])] == vec(texts[i]))
      && (forall key | key in cache :: key in after)
      && (forall key | key in after && (forall i | 0 <= i < |texts| :: keyOf(texts[i]) != key) ::
            key in cache && after[key] == cache[key])
  {
    NoneShortNoneFails(api, At(texts, Todo(keyOf, cache, texts, readFault)), 0);
    BatchIsTheMap(keyOf, cache, texts, readFault, api, None, vec, used);
    var vectors := BatchStores(keyOf, cache, texts, readFault, api, vec);
    StoredForBatch(keyOf, cache, texts, readFault, vectors);
  }

  lemma BatchStores(keyOf: KeyOf, cache: Cache, texts: seq<string>, readFault: Option<nat>, api: Api, vec: Embed)
    returns (vectors: seq<Vector>)
    requires HonestApi(api, vec) && NoneShort(api, At(texts, Todo(keyOf, cache, texts, readFault)), 0)
    ensures var asked := At(texts, Todo(keyOf, cache, texts, readFault));
      && |vectors| == |asked|
      && Outcome(keyOf, cache, texts, readFault, api, None).1
           == Stored(keyOf, cache, asked, vectors, |asked|, None)
  {
    var asked := At(texts, Todo(keyOf, cache, texts, readFault));
    NoneShortNoneFails(api, asked, 0);
    CallsFail(api, asked, 0);
    CalledIsTheMap(api, asked, 0, vec);
    FromStart(asked);
    vectors := Called(api, asked, 0).value;
  }

  lemma StoredForBatch(
    keyOf: KeyOf, cache: Cache, texts: seq<string>, readFault: Option<nat>, vectors: seq<Vector>)
    requires |vectors| == |Todo(keyOf, cache, texts, readFault)|
    ensures var asked := At(texts, Todo(keyOf, cache, texts, readFault));
      var after := Stored(keyOf, cache, asked, vectors, |asked|, None);
      && (forall i | 0 <= i < |texts| :: keyOf(texts[i]) in after)
      && (forall key | key in cache :: key in after)
      && (forall key | key in after && (forall i | 0 <= i < |texts| :: keyOf(texts[i]) != key) ::
            key in cache && after[key] == cache[key])
  {
    var asked := At(texts, Todo(keyOf, cache, texts, readFault));
    var after := Stored(keyOf, cache, asked, vectors, |asked|, None);
    forall key ensures key in cache ==> key in after
      ensures key in after && (forall i | 0 <= i < |texts| :: keyOf(texts[i]) != key) ==>
        key in cache && after[key] == cache[key]
    {
      StoredEntries(keyOf, cache, asked, vectors, |asked|, None, key);
    }
    forall i | 0 <= i < |texts| ensures keyOf(texts[i]) in after {
      BatchEntry(keyOf, cache, texts, readFault, vectors, i);
    }
  }

  lemma BatchEntry(
    keyOf: KeyOf, cache: Cache, texts: seq<string>, readFault: Option<nat>, vectors: seq<Vector>, i: nat)
    requires i < |texts| && |vectors| == |Todo(keyOf, cache, texts, readFault)|
    ensures var asked := At(texts, Todo(keyOf, cache, texts, readFault));
      keyOf(texts[i]) in Stored(keyOf, cache, asked, vectors, |asked|, None)
  {
    var todo := Todo(keyOf, cache, texts, readFault);
    var asked := At(texts, todo);
    AskedKey(keyOf, cache, texts, readFault, i);
    if keyOf(texts[i]) in cache {
      StoredEntries(keyOf, cache, asked, vectors, |asked|, None, keyOf(texts[i]));
    } else {
      var j :| 0 <= j < |todo| && todo[j] == i;
      StoredIsThere(keyOf, cache, asked, vectors, |asked|, None, j);
    }
  }

  /** When every text has its entry, a batch asks the API for nothing: whatever it
      would answer, the call returns the entries and leaves the cache as it is. */
  lemma CachedBatchAsksNothing(keyOf: KeyOf, cache: Cache, texts: seq<string>, api: Api, writeFault: Option<set<nat>>)
    requires forall i | 0 <= i < |texts| :: keyOf(texts[i]) in cache
    ensures var (out, after) := Outcome(keyOf, cache, texts, None, api, writeFault);
      && after == cache && out.Some? && |out.value| == |texts|
      && forall i | 0 <= i < |texts| :: out.value[i] == cache[keyOf(texts[i])]
  {
    var todo := Todo(keyOf, cache, texts, None);
    assert forall i: nat :: i !in todo;
    if todo != [] { FirstIsMember(todo); }
    assert At(texts, todo) == [] && Called(api, [], 0) == Some([]);
  }
}
