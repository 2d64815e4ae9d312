/** Embedding many texts: the cache is read at once, the texts it lacks go to the
    API in batches of at most 25, and the results are put back by position. Reads
    and writes of the cache may fail at any point; hashing, JSON and the network are
    parameters. */
module EmbeddingBatch {
  import opened Results

  type Vector = seq<real>

  /** One entry of an API answer. */
  datatype Item = Item(index: nat, vector: Vector)

  datatype Reply = Failed | Items(items: seq<Item>)

  /** The answer to the n-th call, made for the given texts. */
  type Api = (nat, seq<string>) -> Reply

  type KeyOf = string -> string
  type Cache = map<string, Vector>

  const BATCH := 25

  // ----------------------------------------------------------------- one answer

  /** Stable insertion by text index. */
  function Inserted(item: Item, sorted: seq<Item>): (r: seq<Item>)
    ensures multiset(r) == multiset{item} + multiset(sorted)
  {
    if sorted == [] then [item]
    else if item.index <= sorted[0].index then [item] + sorted
    else
      assert sorted == [sorted[0]] + sorted[1..];
      [sorted[0]] + Inserted(item, sorted[1..])
  }

  function Sorted(items: seq<Item>): (r: seq<Item>)
    ensures multiset(r) == multiset(items)
  {
    if items == [] then []
    else
      assert items == [items[0]] + items[1..];
      Inserted(items[0], Sorted(items[1..]))
  }

  function Vectors(items: seq<Item>): (r: seq<Vector>)
    ensures |r| == |items|
  {
    seq(|items|, k requires 0 <= k < |items| => items[k].vector)
  }

  function Answer(r: Reply): Option<seq<Vector>> {
    if r.Failed? then None else Some(Vectors(Sorted(r.items)))
  }

  // ------------------------------------------------------------------ the stages

  /** What the cache gave before its reading stopped. */
  function Hits(keyOf: KeyOf, cache: Cache, texts: seq<string>, upTo: nat): (r: seq<Option<Vector>>)
    ensures |r| == |texts|
  {
    seq(|texts|, i requires 0 <= i < |texts| =>
      if i < upTo && keyOf(texts[i]) in cache then Some(cache[keyOf(texts[i])]) else None)
  }

  lemma OneMoreHit(keyOf: KeyOf, cache: Cache, texts: seq<string>, i: nat)
    requires i < |texts|
    ensures var key := keyOf(texts[i]);
      Hits(keyOf, cache, texts, i + 1) ==
        if key in cache then Hits(keyOf, cache, texts, i)[i := Some(cache[key])] else Hits(keyOf, cache, texts, i)
  {
  }

  lemma OneMoreMiss(keyOf: KeyOf, cache: Cache, texts: seq<string>, i: nat)
    requires i < |texts|
    ensures Misses(keyOf, cache, texts, i + 1) ==
      if keyOf(texts[i]) in cache then Misses(keyOf, cache, texts, i) else Misses(keyOf, cache, texts, i) + [i]
  {
  }

  /** The positions below n that the cache lacks. */
  function Misses(keyOf: KeyOf, cache: Cache, texts: seq<string>, n: nat): (r: seq<nat>)
    requires n <= |texts|
    ensures forall i: nat :: i in r <==> i < n && keyOf(texts[i]) !in cache
    ensures forall a, b | 0 <= a < b < |r| :: r[a] < r[b]
  {
    if n == 0 then []
    else
      var before := Misses(keyOf, cache, texts, n - 1);
      assert forall a | 0 <= a < |before| :: before[a] in before;
      if keyOf(texts[n - 1]) in cache then before else before + [n - 1]
  }

  function All(n: nat): (r: seq<nat>)
    ensures |r| == n
  {
    seq(n, i requires 0 <= i < n => i)
  }

  /** The positions to compute: the missing ones, or all when reading failed. */
  function Todo(keyOf: KeyOf, cache: Cache, texts: seq<string>, readFault: Option<nat>): (r: seq<nat>)
    ensures forall j | 0 <= j < |r| :: r[j] < |texts|
    ensures forall a, b | 0 <= a < b < |r| :: r[a] < r[b]
  {
    if readFault.Some? then All(|texts|)
    else
      var r := Misses(keyOf, cache, texts, |texts|);
      assert forall j | 0 <= j < |r| :: r[j] in r;
      r
  }

  function At(texts: seq<string>, todo: seq<nat>): (r: seq<string>)
    requires forall j | 0 <= j < |todo| :: todo[j] < |texts|
    ensures |r| == |todo|
  {
    seq(|todo|, j requires 0 <= j < |todo| => texts[todo[j]])
  }

  function Batch(texts: seq<string>, start: nat): (r: seq<string>)
    requires start <= |texts|
    ensures |r| <= 25
  {
    texts[start..if start + BATCH <= |texts| then start + BATCH else |texts|]
  }

  function Prefixed(first: seq<Vector>, later: Option<seq<Vector>>): Option<seq<Vector>> {
    match later case None => None case Some(l) => Some(first + l)
  }

  lemma PrefixedTwice(a: seq<Vector>, b: seq<Vector>, later: Option<seq<Vector>>)
    ensures Prefixed(a, Prefixed(b, later)) == Prefixed(a + b, later)
    ensures Prefixed([], later) == later
  {
    if later.Some? { assert a + (b + later.value) == (a + b) + later.value && [] + later.value == later.value; }
  }

  /** The vectors of all batches, or nothing when a call fails. */
  function Called(api: Api, texts: seq<string>, n: nat): Option<seq<Vector>>
    decreases |texts| - n * BATCH
  {
    if n * BATCH >= |texts| then Some([])
    else match Answer(api(n, Batch(texts, n * BATCH)))
      case None => None
      case Some(vectors) => Prefixed(vectors, Called(api, texts, n + 1))
  }

  function Filled(results: seq<Option<Vector>>, todo: seq<nat>, vectors: seq<Vector>, m: nat): (r: seq<Option<Vector>>)
    requires m <= |todo| && m <= |vectors|
    requires forall j | 0 <= j < |todo| :: todo[j] < |results|
    ensures |r| == |results|
  {
    if m == 0 then results else Filled(results, todo, vectors, m - 1)[todo[m - 1] := Some(vectors[m - 1])]
  }

  /** The cache with the first m new vectors; a failed write keeps any of them. */
  function Stored(
    keyOf: KeyOf, cache: Cache, asked: seq<string>, vectors: seq<Vector>, m: nat, fault: Option<set<nat>>): Cache
    requires m <= |asked| && m <= |vectors|
  {
    if m == 0 then cache
    else
      var before := Stored(keyOf, cache, asked, vectors, m - 1, fault);
      if fault.None? || m - 1 in fault.value then before[keyOf(asked[m - 1]) := vectors[m - 1]] else before
  }

  function OrEmpty(results: seq<Option<Vector>>): (r: seq<Vector>)
    ensures |r| == |results|
  {
    seq(|results|, i requires 0 <= i < |results| => if results[i].Some? then results[i].value else [])
  }

  function Least(a: nat, b: nat): nat { if a <= b then a else b }

  /** The outcome of a batch call and the cache after it. A write
      fault names the new entries that it has left behind. */
  function Outcome(
    keyOf: KeyOf, cache: Cache, texts: seq<string>, readFault: Option<nat>, api: Api, writeFault: Option<set<nat>>)
    : (Option<seq<Vector>>, Cache)
  {
    var todo := Todo(keyOf, cache, texts, readFault);
    var hits := Hits(keyOf, cache, texts, if readFault.Some? then readFault.value else |texts|);
    match Called(api, At(texts, todo), 0)
    case None => (None, cache)
    case Some(vectors) =>
      var m := Least(|todo|, |vectors|);
      (Some(OrEmpty(Filled(hits, todo, vectors, m))),
       Stored(keyOf, cache, At(texts, todo), vectors, m, writeFault))
  }

  /** The outcome of a call for one text and the cache after it. */
  function OutcomeOfOne(
    keyOf: KeyOf, cache: Cache, text: string, readFails: bool, api: Api, writeFails: bool)
    : (Option<Vector>, Cache)
  {
    if !readFails && keyOf(text) in cache then (Some(cache[keyOf(text)]), cache)
    else match Answer(api(0, [text]))
      case None => (None, cache)
      case Some(vectors) =>
        if vectors == [] then (Some([]), cache)
        else (Some(vectors[0]), if writeFails then cache else cache[keyOf(text) := vectors[0]])
  }

  // ------------------------------------------------------------------- the loops

  ghost predicate ReadSoFar(
    keyOf: KeyOf, cache: Cache, texts: seq<string>, i: nat, results: seq<Option<Vector>>, todo: seq<nat>)
    requires i <= |texts|
  {
    results == Hits(keyOf, cache, texts, i) && todo == Misses(keyOf, cache, texts, i)
  }

  lemma NothingRead(keyOf: KeyOf, cache: Cache, texts: seq<string>, results: seq<Option<Vector>>)
    requires |results| == |texts| && forall i | 0 <= i < |texts| :: results[i] == None
    ensures ReadSoFar(keyOf, cache, texts, 0, results, [])
  {
  }

  lemma ReadOneMore(
    keyOf: KeyOf, cache: Cache, texts: seq<string>, i: nat, results: seq<Option<Vector>>, todo: seq<nat>)
    requires i < |texts| && |results| == |texts| && ReadSoFar(keyOf, cache, texts, i, results, todo)
    ensures var key := keyOf(texts[i]);
      if key in cache then ReadSoFar(keyOf, cache, texts, i + 1, results[i := Some(cache[key])], todo)
      else ReadSoFar(keyOf, cache, texts, i + 1, results, todo + [i])
  {
    OneMoreHit(keyOf, cache, texts, i);
    OneMoreMiss(keyOf, cache, texts, i);
  }

  /** What is still to be called completes `all` to the whole. */
  ghost predicate CalledSoFar(api: Api, texts: seq<string>, n: nat, all: seq<Vector>, whole: Option<seq<Vector>>) {
    Prefixed(all, Called(api, texts, n)) == whole
  }

  lemma NothingCalled(api: Api, texts: seq<string>)
    ensures CalledSoFar(api, texts, 0, [], Called(api, texts, 0))
  {
    PrefixedTwice([], [], Called(api, texts, 0));
  }

  lemma CallOneMore(
    api: Api, texts: seq<string>, n: nat, all: seq<Vector>, whole: Option<seq<Vector>>, answer: Option<seq<Vector>>)
    requires n * BATCH < |texts| && CalledSoFar(api, texts, n, all, whole)
    requires answer == Answer(api(n, Batch(texts, n * BATCH)))
    ensures answer.None? ==> whole == None
    ensures answer.Some? ==> CalledSoFar(api, texts, n + 1, all + answer.value, whole)
  {
    if answer.Some? {
      PrefixedTwice(all, answer.value, Called(api, texts, n + 1));
    }
  }

  lemma AllCalled(api: Api, texts: seq<string>, n: nat, all: seq<Vector>, whole: Option<seq<Vector>>)
    requires n * BATCH >= |texts| && CalledSoFar(api, texts, n, all, whole)
    ensures whole == Some(all)
  {
    assert all + [] == all;
  }

  class EmbeddingService {
    const keyOf: KeyOf
    var cache: Cache

    constructor (keyOf: KeyOf)
      ensures this.keyOf == keyOf && cache == map[]
    {
      this.keyOf := keyOf;
      cache := map[];
    }

    /** Reads the cache; a failure at a position forgets what is missing so far. */
    method ReadCache(texts: seq<string>, readFault: Option<nat>) returns (results: seq<Option<Vector>>, todo: seq<nat>)
      ensures todo == Todo(keyOf, cache, texts, readFault)
      ensures results == Hits(keyOf, cache, texts, if readFault.Some? then readFault.value else |texts|)
    {
      var stop := if readFault.Some? && readFault.value < |texts| then readFault.value else |texts|;
      results, todo := ReadUpTo(texts, stop);
      if readFault.Some? {
        todo := All(|texts|);
      }
      assert results == Hits(keyOf, cache, texts, if readFault.Some? then readFault.value else |texts|);
    }

    method ReadUpTo(texts: seq<string>, stop: nat) returns (results: seq<Option<Vector>>, todo: seq<nat>)
      requires stop <= |texts|
      ensures results == Hits(keyOf, cache, texts, stop) && todo == Misses(keyOf, cache, texts, stop)
    {
      results := seq(|texts|, i => None);
      todo := [];
      NothingRead(keyOf, cache, texts, results);
      for i := 0 to stop
        invariant ReadSoFar(keyOf, cache, texts, i, results, todo)
      {
        ReadOneMore(keyOf, cache, texts, i, results, todo);
        var key := keyOf(texts[i]);
        if key in cache {
          results := results[i := Some(cache[key])];
        } else {
          todo := todo + [i];
        }
      }
    }

    method CallInBatches(texts: seq<string>, api: Api) returns (vectors: Option<seq<Vector>>)
      ensures vectors == Called(api, texts, 0)
    {
      var all: seq<Vector>, n := [], 0;
      ghost var whole := Called(api, texts, 0);
      NothingCalled(api, texts);
      while n * BATCH < |texts|
        invariant CalledSoFar(api, texts, n, all, whole)
        decreases |texts| - n * BATCH
      {
        var answer := Answer(api(n, Batch(texts, n * BATCH)));
        CallOneMore(api, texts, n, all, whole, answer);
        if answer.None? {
          return None;
        }
        all := all + answer.value;
        n := n + 1;
      }
      AllCalled(api, texts, n, all, whole);
      return Some(all);
    }

    method GetBatch(texts: seq<string>, readFault: Option<nat>, api: Api, writeFault: Option<set<nat>>)
      returns (out: Option<seq<Vector>>)
      modifies this
      ensures (out, cache) == Outcome(keyOf, old(cache), texts, readFault, api, writeFault)
    {
      var results, todo := ReadCache(texts, readFault);
      var vectors := CallInBatches(At(texts, todo), api);
      if vectors.None? {
        return None;
      }
      out := Fill(texts, results, todo, vectors.value, writeFault);
    }

    /** Fills in the new vectors and caches them. */
    method Fill(
      texts: seq<string>, results: seq<Option<Vector>>, todo: seq<nat>, vectors: seq<Vector>,
      writeFault: Option<set<nat>>)
        returns (out: Option<seq<Vector>>)
      requires |results| == |texts| && forall j | 0 <= j < |todo| :: todo[j] < |texts|
      modifies this
      ensures var m := Least(|todo|, |vectors|);
        && out == Some(OrEmpty(Filled(results, todo, vectors, m)))
        && cache == Stored(keyOf, old(cache), At(texts, todo), vectors, m, writeFault)
    {
      ghost var asked := At(texts, todo);
      var m := Least(|todo|, |vectors|);
      var filled := results;
      for j := 0 to m
        invariant filled == Filled(results, todo, vectors, j)
        invariant cache == Stored(keyOf, old(cache), asked, vectors, j, writeFault)
      {
        filled := filled[todo[j] := Some(vectors[j])];
        if writeFault.None? || j in writeFault.value {
          cache := cache[keyOf(texts[todo[j]]) := vectors[j]];
        }
      }
      return Some(OrEmpty(filled));
    }

    /** One text. An empty answer gives an empty vector and is not cached. */
    method Get(text: string, readFails: bool, api: Api, writeFails: bool) returns (out: Option<Vector>)
      modifies this
      ensures (out, cache) == OutcomeOfOne(keyOf, old(cache), text, readFails, api, writeFails)
    {
      if !readFails && keyOf(text) in cache {
        return Some(cache[keyOf(text)]);
      }
      var answer := Answer(api(0, [text]));
      if answer.None? {
        return None;
      }
      if answer.value == [] {
        return Some([]);
      }
      if !writeFails {
        cache := cache[keyOf(text) := answer.value[0]];
      }
      return Some(answer.value[0]);
    }
  }
}
