/** The batched lookup is the plain map, for every pattern of hits and failures. */
module EmbeddingTheorems {
  import opened Results
  import opened EmbeddingBatch

  type Embed = string -> Vector

  function Mapped(vec: Embed, texts: seq<string>): (r: seq<Vector>)
    ensures |r| == |texts|
  {
    seq(|texts|, i requires 0 <= i < |texts| => vec(texts[i]))
  }

  // ----------------------------------------------------------------- one answer

  ghost predicate Ascending(items: seq<Item>) {
    forall i, j | 0 <= i < j < |items| :: items[i].index < items[j].index
  }

  /** Every entry is the vector of the text its index names, in whatever order; an
      honest answer may leave texts out. */
  ghost predicate Honest(items: seq<Item>, batch: seq<string>, vec: Embed) {
    && (forall x <- items :: x.index < |batch| && x.vector == vec(batch[x.index]))
    && (forall i, j | 0 <= i < j < |items| :: items[i].index != items[j].index)
  }

  lemma {:induction false} InsertedAscends(item: Item, sorted: seq<Item>)
    requires Ascending(sorted) && forall x <- sorted :: x.index != item.index
    ensures Ascending(Inserted(item, sorted))
  {
    if sorted != [] && item.index > sorted[0].index {
      var later := Inserted(item, sorted[1..]);
      InsertedAscends(item, sorted[1..]);
      forall j | 0 <= j < |later| ensures sorted[0].index < later[j].index {
        assert later[j] in multiset(later);
        assert later[j] == item || later[j] in sorted[1..];
      }
    }
  }

  lemma SameItems(items: seq<Item>)
    ensures |Sorted(items)| == |items| && forall x :: x in Sorted(items) <==> x in items
  {
    assert |multiset(Sorted(items))| == |multiset(items)|;
    forall x ensures x in Sorted(items) <==> x in items {
      assert x in multiset(Sorted(items)) <==> x in multiset(items);
    }
  }

  lemma {:induction false} SortedAscends(items: seq<Item>)
    requires forall i, j | 0 <= i < j < |items| :: items[i].index != items[j].index
    ensures Ascending(Sorted(items))
  {
    if items != [] {
      SortedAscends(items[1..]);
      SameItems(items[1..]);
      InsertedAscends(items[0], Sorted(items[1..]));
    }
  }

  /** n increasing numbers below n are 0 to n-1. */
  lemma {:induction false} AscendingIsCounting(items: seq<Item>, n: nat, k: nat)
    requires Ascending(items) && |items| == n && k < n && forall x <- items :: x.index < n
    ensures items[k].index == k
  {
    AtLeast(items, k);
    AtMost(items, n, k);
  }

  lemma {:induction false} AtLeast(items: seq<Item>, k: nat)
    requires Ascending(items) && k < |items|
    ensures items[k].index >= k
  {
    if k > 0 { AtLeast(items, k - 1); }
  }

  lemma {:induction false} AtMost(items: seq<Item>, n: nat, k: nat)
    requires Ascending(items) && |items| == n && k < n && forall x <- items :: x.index < n
    ensures items[k].index <= k
    decreases n - k
  {
    assert items[k] in items;
    if k + 1 < n { AtMost(items, n, k + 1); }
  }

  /** Sorting an honest answer with one entry a text puts every vector in place. */
  lemma CompleteAnswer(items: seq<Item>, batch: seq<string>, vec: Embed)
    requires Honest(items, batch, vec)
    ensures |items| <= |batch|
    ensures |items| == |batch| ==> Vectors(Sorted(items)) == Mapped(vec, batch)
  {
    var sorted := Sorted(items);
    SortedAscends(items);
    SameItems(items);
    if items != [] {
      AtLeast(sorted, |sorted| - 1);
      assert sorted[|sorted| - 1] in sorted;
    }
    if |items| == |batch| {
      forall k | 0 <= k < |batch| ensures sorted[k].vector == vec(batch[k]) {
        AscendingIsCounting(sorted, |batch|, k);
        assert sorted[k] in sorted;
      }
    }
  }

  // ---------------------------------------------------------------- all batches

  ghost predicate HonestApi(api: Api, vec: Embed) {
    forall n, b | |b| <= BATCH :: api(n, b).Failed? || Honest(api(n, b).items, b, vec)
  }

  /** Every call from the n-th on answers one vector a text. */
  ghost predicate NoneShort(api: Api, texts: seq<string>, n: nat)
    decreases |texts| - n * BATCH
  {
    n * BATCH < |texts| ==>
      var b := Batch(texts, n * BATCH);
      api(n, b).Items? && |api(n, b).items| == |b| && NoneShort(api, texts, n + 1)
  }

  /** Some call from the n-th on fails. */
  ghost predicate SomeFails(api: Api, texts: seq<string>, n: nat)
    decreases |texts| - n * BATCH
  {
    n * BATCH < |texts| && (api(n, Batch(texts, n * BATCH)).Failed? || SomeFails(api, texts, n + 1))
  }

  lemma {:induction false} CallsFail(api: Api, texts: seq<string>, n: nat)
    ensures Called(api, texts, n).None? <==> SomeFails(api, texts, n)
    decreases |texts| - n * BATCH
  {
    if n * BATCH < |texts| {
      CallsFail(api, texts, n + 1);
      FirstFails(api(n, Batch(texts, n * BATCH)), Called(api, texts, n + 1), Called(api, texts, n));
    }
  }

  lemma FirstFails(r: Reply, later: Option<seq<Vector>>, all: Option<seq<Vector>>)
    requires all == match Answer(r) case None => None case Some(vectors) => Prefixed(vectors, later)
    ensures all.None? <==> r.Failed? || later.None?
  {
  }

  function From(texts: seq<string>, n: nat): seq<string> {
    if n * BATCH >= |texts| then [] else texts[n * BATCH..]
  }

  lemma FromBatch(texts: seq<string>, n: nat, vec: Embed)
    requires n * BATCH < |texts|
    ensures |From(texts, n)| == |Batch(texts, n * BATCH)| + |From(texts, n + 1)|
    ensures Mapped(vec, From(texts, n)) == Mapped(vec, Batch(texts, n * BATCH)) + Mapped(vec, From(texts, n + 1))
  {
    assert From(texts, n) == Batch(texts, n * BATCH) + From(texts, n + 1);
  }

  /** Never more vectors than texts; just as many exactly when no answer is short,
      and then they are the vectors of the texts in order. */
  lemma {:induction false} CalledIsTheMap(api: Api, texts: seq<string>, n: nat, vec: Embed)
    requires HonestApi(api, vec) && Called(api, texts, n).Some?
    ensures MapsUnlessShort(Called(api, texts, n).value, From(texts, n), vec, NoneShort(api, texts, n))
    decreases |texts| - n * BATCH
  {
    if n * BATCH < |texts| {
      var b := Batch(texts, n * BATCH);
      var first, later := Answer(api(n, b)).value, Called(api, texts, n + 1).value;
      AnswerIsTheMap(api(n, b), b, vec);
      CalledIsTheMap(api, texts, n + 1, vec);
      FromBatch(texts, n, vec);
      Together(first, b, later, From(texts, n + 1), From(texts, n), vec, NoneShort(api, texts, n + 1));
      assert NoneShort(api, texts, n) == (|first| == |b| && NoneShort(api, texts, n + 1));
    }
  }

  ghost predicate MapsUnlessShort(vectors: seq<Vector>, texts: seq<string>, vec: Embed, complete: bool) {
    && |vectors| <= |texts|
    && (|vectors| == |texts| <==> complete)
    && (complete ==> vectors == Mapped(vec, texts))
  }

  lemma Together(
    first: seq<Vector>, b: seq<string>, later: seq<Vector>, rest: seq<string>, all: seq<string>,
    vec: Embed, complete: bool)
    requires MapsUnlessShort(first, b, vec, |first| == |b|) && MapsUnlessShort(later, rest, vec, complete)
    requires |all| == |b| + |rest| && Mapped(vec, all) == Mapped(vec, b) + Mapped(vec, rest)
    ensures MapsUnlessShort(first + later, all, vec, |first| == |b| && complete)
  {
  }

  lemma AnswerIsTheMap(r: Reply, batch: seq<string>, vec: Embed)
    requires r.Items? && Honest(r.items, batch, vec)
    ensures Answer(r).Some? && |Answer(r).value| == |r.items| <= |batch|
    ensures |r.items| == |batch| ==> Answer(r).value == Mapped(vec, batch)
  {
    CompleteAnswer(r.items, batch, vec);
    SameItems(r.items);
  }

  // ------------------------------------------------------------- filling results

  lemma {:induction false} FilledAt(results: seq<Option<Vector>>, todo: seq<nat>, vectors: seq<Vector>, m: nat, i: nat)
    requires m <= |todo| && m <= |vectors| && i < |results|
    requires forall j | 0 <= j < |todo| :: todo[j] < |results|
    requires forall a, b | 0 <= a < b < |todo| :: todo[a] < todo[b]
    ensures forall j | 0 <= j < m && todo[j] == i :: Filled(results, todo, vectors, m)[i] == Some(vectors[j])
    ensures (forall j | 0 <= j < m :: todo[j] != i) ==> Filled(results, todo, vectors, m)[i] == results[i]
  {
    if m > 0 { FilledAt(results, todo, vectors, m - 1, i); }
  }

  /** Of the texts in use, each that the cache has an entry for has its own vector
      there. */
  ghost predicate CacheCorrect(keyOf: KeyOf, cache: Cache, vec: Embed, used: set<string>) {
    forall t <- used :: keyOf(t) in cache ==> cache[keyOf(t)] == vec(t)
  }

  /** Two of the texts in use have one key. */
  ghost predicate SharedKey(keyOf: KeyOf, used: set<string>) {
    exists s, t | s in used && t in used :: s != t && keyOf(s) == keyOf(t)
  }

  ghost predicate AllIn(texts: seq<string>, used: set<string>) {
    forall i | 0 <= i < |texts| :: texts[i] in used
  }

  /** A position is either answered by the cache or computed. */
  lemma HitOrTodo(keyOf: KeyOf, cache: Cache, texts: seq<string>, readFault: Option<nat>, i: nat)
    requires i < |texts| && (readFault.None? || readFault.value < |texts|)
    ensures var todo := Todo(keyOf, cache, texts, readFault);
      var hits := Hits(keyOf, cache, texts, if readFault.Some? then readFault.value else |texts|);
      && (hits[i].Some? ==> keyOf(texts[i]) in cache && hits[i].value == cache[keyOf(texts[i])])
      && (i !in todo ==> hits[i].Some?)
      && (todo != [] ==> hits[todo[|todo| - 1]].None?)
  {
    var todo := Todo(keyOf, cache, texts, readFault);
    if readFault.Some? {
      assert todo[i] == i;
    } else {
      assert todo == Misses(keyOf, cache, texts, |texts|);
      if todo != [] { assert todo[|todo| - 1] in todo; }
    }
  }

  lemma AllFilled(keyOf: KeyOf, cache: Cache, texts: seq<string>, readFault: Option<nat>, vec: Embed, used: set<string>)
    requires CacheCorrect(keyOf, cache, vec, used) && AllIn(texts, used)
      && (readFault.None? || readFault.value < |texts|)
    ensures var todo := Todo(keyOf, cache, texts, readFault);
      var hits := Hits(keyOf, cache, texts, if readFault.Some? then readFault.value else |texts|);
      OrEmpty(Filled(hits, todo, Mapped(vec, At(texts, todo)), |todo|)) == Mapped(vec, texts)
  {
    var todo := Todo(keyOf, cache, texts, readFault);
    var hits := Hits(keyOf, cache, texts, if readFault.Some? then readFault.value else |texts|);
    var vectors := Mapped(vec, At(texts, todo));
    forall i | 0 <= i < |texts| ensures Filled(hits, todo, vectors, |todo|)[i] == Some(vec(texts[i])) {
      HitOrTodo(keyOf, cache, texts, readFault, i);
      OneFilledIn(hits, todo, vectors, i, vec(texts[i]));
    }
  }

  lemma OneFilledIn(hits: seq<Option<Vector>>, todo: seq<nat>, vectors: seq<Vector>, i: nat, v: Vector)
    requires |vectors| == |todo| && i < |hits| && (forall j | 0 <= j < |todo| :: todo[j] < |hits|)
    requires forall a, b | 0 <= a < b < |todo| :: todo[a] < todo[b]
    requires forall j | 0 <= j < |todo| && todo[j] == i :: vectors[j] == v
    requires i in todo || hits[i] == Some(v)
    ensures Filled(hits, todo, vectors, |todo|)[i] == Some(v)
  {
    FilledAt(hits, todo, vectors, |todo|, i);
    if i in todo {
      var j :| 0 <= j < |todo| && todo[j] == i;
      assert vectors[j] == v;
    }
  }

  /** With too few vectors the last position to compute stays empty. */
  lemma LastStaysEmpty(hits: seq<Option<Vector>>, todo: seq<nat>, vectors: seq<Vector>)
    requires |vectors| < |todo| && (forall j | 0 <= j < |todo| :: todo[j] < |hits|)
    requires forall a, b | 0 <= a < b < |todo| :: todo[a] < todo[b]
    requires hits[todo[|todo| - 1]].None?
    ensures OrEmpty(Filled(hits, todo, vectors, |vectors|))[todo[|todo| - 1]] == []
  {
    FilledAt(hits, todo, vectors, |vectors|, todo[|todo| - 1]);
  }

  // ------------------------------------------------------------------- theorems

  /** With a correct cache, honest answers and no empty embedding, a call that
      returns gives the plain map exactly when no answer was short. */
  lemma BatchIsTheMapExactlyWhen(
    keyOf: KeyOf, cache: Cache, texts: seq<string>, readFault: Option<nat>, api: Api, writeFault: Option<set<nat>>,
    vec: Embed, used: set<string>)
    requires CacheCorrect(keyOf, cache, vec, used) && AllIn(texts, used) && HonestApi(api, vec)
    requires forall i | 0 <= i < |texts| :: vec(texts[i]) != []
    requires readFault.None? || readFault.value < |texts|
    requires Outcome(keyOf, cache, texts, readFault, api, writeFault).0.Some?
    ensures Outcome(keyOf, cache, texts, readFault, api, writeFault).0.value == Mapped(vec, texts)
       <==> NoneShort(api, At(texts, Todo(keyOf, cache, texts, readFault)), 0)
  {
    var todo := Todo(keyOf, cache, texts, readFault);
    var hits := Hits(keyOf, cache, texts, if readFault.Some? then readFault.value else |texts|);
    var asked := At(texts, todo);
    CalledIsTheMap(api, asked, 0, vec);
    FromStart(asked);
    var vectors := Called(api, asked, 0).value;
    if NoneShort(api, asked, 0) {
      AllFilled(keyOf, cache, texts, readFault, vec, used);
    } else {
      HitOrTodo(keyOf, cache, texts, readFault, todo[|todo| - 1]);
      LastStaysEmpty(hits, todo, vectors);
      assert vec(texts[todo[|todo| - 1]]) != [];
    }
  }

  lemma FromStart(texts: seq<string>)
    ensures From(texts, 0) == texts
  {
  }

  lemma OneMoreStored(keyOf: KeyOf, cache: Cache, text: string, vec: Embed, used: set<string>)
    requires CacheCorrect(keyOf, cache, vec, used) && text in used && !SharedKey(keyOf, used)
    ensures CacheCorrect(keyOf, cache[keyOf(text) := vec(text)], vec, used)
  {
  }

  lemma {:induction false} StoredIsCorrect(
    keyOf: KeyOf, cache: Cache, asked: seq<string>, vec: Embed, m: nat, fault: Option<set<nat>>, used: set<string>)
    requires CacheCorrect(keyOf, cache, vec, used) && AllIn(asked, used) && !SharedKey(keyOf, used) && m <= |asked|
    ensures CacheCorrect(keyOf, Stored(keyOf, cache, asked, Mapped(vec, asked), m, fault), vec, used)
  {
    if m > 0 {
      var before := Stored(keyOf, cache, asked, Mapped(vec, asked), m - 1, fault);
      assert CacheCorrect(keyOf, before, vec, used) by {
        StoredIsCorrect(keyOf, cache, asked, vec, m - 1, fault, used);
      }
      OneMoreStored(keyOf, before, asked[m - 1], vec, used);
    }
  }

  /** Whatever reads and writes fail: if no answer is short the call returns the map,
      or nothing exactly when a call failed, and the cache stays correct unless two
      texts in use have one key. */
  lemma BatchIsTheMap(
    keyOf: KeyOf, cache: Cache, texts: seq<string>, readFault: Option<nat>, api: Api, writeFault: Option<set<nat>>,
    vec: Embed, used: set<string>)
    requires CacheCorrect(keyOf, cache, vec, used) && AllIn(texts, used) && HonestApi(api, vec)
    requires readFault.None? || readFault.value < |texts|
    requires var asked := At(texts, Todo(keyOf, cache, texts, readFault));
      SomeFails(api, asked, 0) || NoneShort(api, asked, 0)
    ensures var (out, after) := Outcome(keyOf, cache, texts, readFault, api, writeFault);
      && (CacheCorrect(keyOf, after, vec, used) || SharedKey(keyOf, used))
      && out == if SomeFails(api, At(texts, Todo(keyOf, cache, texts, readFault)), 0) then None
        else Some(Mapped(vec, texts))
  {
    var todo := Todo(keyOf, cache, texts, readFault);
    var asked := At(texts, todo);
    CallsFail(api, asked, 0);
    if !SomeFails(api, asked, 0) {
      CalledIsTheMap(api, asked, 0, vec);
      FromStart(asked);
      AllFilled(keyOf, cache, texts, readFault, vec, used);
      if !SharedKey(keyOf, used) {
        StoredIsCorrect(keyOf, cache, asked, vec, |asked|, writeFault, used);
      }
    }
  }

  /** The single lookup, whatever cache access fails: on an honest answer that is
      not short it returns the text's vector, or nothing exactly when it had to call
      and the call failed, and the cache stays correct unless two texts in use have
      one key. */
  lemma SingleIsTheFunction(
    keyOf: KeyOf, cache: Cache, text: string, readFails: bool, api: Api, writeFails: bool, vec: Embed,
    used: set<string>)
    requires CacheCorrect(keyOf, cache, vec, used) && text in used && HonestApi(api, vec)
    requires SomeFails(api, [text], 0) || NoneShort(api, [text], 0)
    ensures var (out, after) := OutcomeOfOne(keyOf, cache, text, readFails, api, writeFails);
      && (CacheCorrect(keyOf, after, vec, used) || SharedKey(keyOf, used))
      && out == if (readFails || keyOf(text) !in cache) && SomeFails(api, [text], 0) then None else Some(vec(text))
  {
    assert Batch([text], 0) == [text];
    if !SomeFails(api, [text], 0) {
      AnswerIsTheMap(api(0, [text]), [text], vec);
      assert Mapped(vec, [text]) == [vec(text)];
      if !SharedKey(keyOf, used) {
        OneMoreStored(keyOf, cache, text, vec, used);
      }
    }
  }

  /** The single calls for the texts of a batch, each with its own answers and
      failures, from the same cache. */
  ghost predicate SinglesReturn(
    keyOf: KeyOf, cache: Cache, texts: seq<string>, singles: seq<(bool, Api, bool)>, out: seq<Vector>)
    requires |singles| == |texts| == |out|
  {
    forall i | 0 <= i < |texts| ::
      OutcomeOfOne(keyOf, cache, texts[i], singles[i].0, singles[i].1, singles[i].2).0 == Some(out[i])
  }

  /** When neither the batch call nor the single calls get a short or failed answer,
      the batch is the sequence of what the single calls return. */
  lemma BatchIsTheSingles(
    keyOf: KeyOf, cache: Cache, texts: seq<string>, readFault: Option<nat>, api: Api, writeFault: Option<set<nat>>,
    singles: seq<(bool, Api, bool)>, vec: Embed, used: set<string>)
    requires CacheCorrect(keyOf, cache, vec, used) && AllIn(texts, used) && HonestApi(api, vec)
    requires readFault.None? || readFault.value < |texts|
    requires NoneShort(api, At(texts, Todo(keyOf, cache, texts, readFault)), 0)
    requires |singles| == |texts|
    requires forall i | 0 <= i < |texts| :: HonestApi(singles[i].1, vec) && NoneShort(singles[i].1, [texts[i]], 0)
    ensures var out := Outcome(keyOf, cache, texts, readFault, api, writeFault).0;
      out.Some? && |out.value| == |texts| && SinglesReturn(keyOf, cache, texts, singles, out.value)
  {
    NoneShortNoneFails(api, At(texts, Todo(keyOf, cache, texts, readFault)), 0);
    BatchIsTheMap(keyOf, cache, texts, readFault, api, writeFault, vec, used);
    forall i | 0 <= i < |texts|
      ensures OutcomeOfOne(keyOf, cache, texts[i], singles[i].0, singles[i].1, singles[i].2).0 == Some(vec(texts[i]))
    {
      NoneShortNoneFails(singles[i].1, [texts[i]], 0);
      SingleIsTheFunction(keyOf, cache, texts[i], singles[i].0, singles[i].1, singles[i].2, vec, used);
    }
  }

  lemma {:induction false} NoneShortNoneFails(api: Api, texts: seq<string>, n: nat)
    requires NoneShort(api, texts, n)
    ensures !SomeFails(api, texts, n)
    decreases |texts| - n * BATCH
  {
    if n * BATCH < |texts| { NoneShortNoneFails(api, texts, n + 1); }
  }

  // ------------------------------------------------------------------------ runs

  /** What happens to the cache: lookups with their failures, and entries that
      expire. */
  datatype Op =
    | LookUpAll(texts: seq<string>, readFault: Option<nat>, api: Api, writeFault: Option<set<nat>>)
    | LookUp(text: string, readFails: bool, api: Api, writeFails: bool)
    | Expire(key: string)

  /** Every call that does not fail answers one right vector a text. */
  ghost predicate CompleteApi(api: Api, vec: Embed) {
    && HonestApi(api, vec)
    && forall n, b | |b| <= BATCH :: api(n, b).Failed? || |api(n, b).items| == |b|
  }

  ghost predicate Sound(op: Op, vec: Embed, used: set<string>) {
    match op
    case LookUpAll(texts, readFault, api, _) =>
      AllIn(texts, used) && CompleteApi(api, vec) && (readFault.None? || readFault.value < |texts|)
    case LookUp(text, _, api, _) => text in used && CompleteApi(api, vec)
    case Expire(_) => true
  }

  function CacheAfter(keyOf: KeyOf, ops: seq<Op>): Cache {
    if ops == [] then map[]
    else
      var before := CacheAfter(keyOf, ops[..|ops| - 1]);
      match ops[|ops| - 1]
      case LookUpAll(texts, readFault, api, writeFault) => Outcome(keyOf, before, texts, readFault, api, writeFault).1
      case LookUp(text, readFails, api, writeFails) => OutcomeOfOne(keyOf, before, text, readFails, api, writeFails).1
      case Expire(key) => before - {key}
  }

  lemma {:induction false} CompleteIsNeverShort(api: Api, texts: seq<string>, n: nat, vec: Embed)
    requires CompleteApi(api, vec)
    ensures SomeFails(api, texts, n) || NoneShort(api, texts, n)
    decreases |texts| - n * BATCH
  {
    if n * BATCH < |texts| { CompleteIsNeverShort(api, texts, n + 1, vec); }
  }

  /** From the empty cache, after any lookups and expiries of texts in use, the cache
      is correct, unless two of these texts have one key. */
  lemma {:induction false} CacheStaysCorrect(keyOf: KeyOf, ops: seq<Op>, vec: Embed, used: set<string>)
    requires forall i | 0 <= i < |ops| :: Sound(ops[i], vec, used)
    ensures CacheCorrect(keyOf, CacheAfter(keyOf, ops), vec, used) || SharedKey(keyOf, used)
  {
    if ops != [] && !SharedKey(keyOf, used) {
      var earlier, op := ops[..|ops| - 1], ops[|ops| - 1];
      CacheStaysCorrect(keyOf, earlier, vec, used);
      var before := CacheAfter(keyOf, earlier);
      assert Sound(op, vec, used);
      match op {
        case LookUpAll(texts, readFault, api, writeFault) =>
          CompleteIsNeverShort(api, At(texts, Todo(keyOf, before, texts, readFault)), 0, vec);
          BatchIsTheMap(keyOf, before, texts, readFault, api, writeFault, vec, used);
        case LookUp(text, readFails, api, writeFails) =>
          CompleteIsNeverShort(api, [text], 0, vec);
          SingleIsTheFunction(keyOf, before, text, readFails, api, writeFails, vec, used);
        case Expire(_) =>
      }
    }
  }

  /** So every batch lookup of every run returns the map of its texts, or nothing
      exactly when one of its calls failed, or two texts of the run have one key. */
  lemma EveryRunReturnsTheMap(
    keyOf: KeyOf, ops: seq<Op>, texts: seq<string>, readFault: Option<nat>, api: Api, writeFault: Option<set<nat>>,
    vec: Embed, used: set<string>)
    requires forall i | 0 <= i < |ops| :: Sound(ops[i], vec, used)
    requires Sound(LookUpAll(texts, readFault, api, writeFault), vec, used)
    ensures var cache := CacheAfter(keyOf, ops);
      || SharedKey(keyOf, used)
      || Outcome(keyOf, cache, texts, readFault, api, writeFault).0
         == if SomeFails(api, At(texts, Todo(keyOf, cache, texts, readFault)), 0) then None
           else Some(Mapped(vec, texts))
  {
    CacheStaysCorrect(keyOf, ops, vec, used);
    if !SharedKey(keyOf, used) {
      var cache := CacheAfter(keyOf, ops);
      CompleteIsNeverShort(api, At(texts, Todo(keyOf, cache, texts, readFault)), 0, vec);
      BatchIsTheMap(keyOf, cache, texts, readFault, api, writeFault, vec, used);
    }
  }

  /** A short answer moves vectors to other texts: when the first of two texts is
      left out it gets, and keeps in the cache, the vector of the second. */
  lemma ShortAnswerShifts(keyOf: KeyOf, a: string, b: string, v: Vector, api: Api)
    requires keyOf(a) != keyOf(b) && api(0, [a, b]) == Items([Item(1, v)])
    ensures Outcome(keyOf, map[], [a, b], None, api, None) == (Some([v, []]), map[keyOf(a) := v])
  {
    OneVector([a, b], v, api);
    BothMissing(keyOf, a, b);
    OneFilled(v);
    OneStored(keyOf, [a, b], v);
    assert At([a, b], [0, 1]) == [a, b];
    assert Hits(keyOf, map[], [a, b], 2) == [None, None];
  }

  lemma OneVector(texts: seq<string>, v: Vector, api: Api)
    requires |texts| == 2 && api(0, texts) == Items([Item(1, v)])
    ensures Called(api, texts, 0) == Some([v])
  {
    var items := [Item(1, v)];
    assert items[1..] == [] && Sorted(items) == items && Vectors(items) == [v];
    assert Batch(texts, 0) == texts;
    assert Called(api, texts, 1) == Some([]) && [v] + [] == [v];
  }

  lemma BothMissing(keyOf: KeyOf, a: string, b: string)
    ensures Todo(keyOf, map[], [a, b], None) == [0, 1]
  {
    assert Misses(keyOf, map[], [a, b], 0) == [] && Misses(keyOf, map[], [a, b], 1) == [0];
  }

  lemma OneFilled(v: Vector)
    ensures OrEmpty(Filled([None, None], [0, 1], [v], 1)) == [v, []]
  {
    assert Filled([None, None], [0, 1], [v], 0) == [None, None];
  }

  lemma OneStored(keyOf: KeyOf, asked: seq<string>, v: Vector)
    requires |asked| == 2
    ensures Stored(keyOf, map[], asked, [v], 1, None) == map[keyOf(asked[0]) := v]
  {
    assert Stored(keyOf, map[], asked, [v], 0, None) == map[];
  }
}
