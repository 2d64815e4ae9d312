/** The pruned table of versions is an append-only log seen through a window. */
module AdminConfigTheorems {
  import opened Results
  import opened AdminConfig

  /** Everything ever published, oldest first, and the draft. */
  datatype Meaning = Meaning(log: seq<string>, draft: Option<string>)

  function Kept(log: seq<string>): nat {
    if |log| < HISTORY then |log| else HISTORY
  }

  /** The last twenty entries, numbered as they were published, the last one active. */
  function Shown(log: seq<string>): (rows: seq<Row>)
    ensures |rows| == Kept(log)
  {
    var m := Kept(log);
    seq(m, k requires 0 <= k < m => Row(log[|log| - m + k], |log| - m + k + 1, false, k == m - 1))
  }

  function DraftRows(draft: Option<string>): seq<Row> {
    match draft case None => [] case Some(v) => [Row(v, 0, true, false)]
  }

  ghost predicate Reflects(rows: seq<Row>, m: Meaning) {
    Filter(rows, IsPublished) == Shown(m.log) && Filter(rows, IsDraft) == DraftRows(m.draft)
  }

  // ------------------------------------------------------------ tables in general

  lemma {:induction false} FilterAppend(a: seq<Row>, b: seq<Row>, f: Row -> bool)
    ensures Filter(a + b, f) == Filter(a, f) + Filter(b, f)
  {
    if a == [] {
      assert a + b == b;
    } else {
      assert (a + b)[1..] == a[1..] + b;
      FilterAppend(a[1..], b, f);
    }
  }

  lemma FilterOne(r: Row, f: Row -> bool)
    ensures Filter([r], f) == if f(r) then [r] else []
  {
  }

  lemma {:induction false} FilterAll(rows: seq<Row>, f: Row -> bool)
    requires forall r <- rows :: f(r)
    ensures Filter(rows, f) == rows
  {
    if rows != [] {
      FilterAll(rows[1..], f);
    }
  }

  lemma FilterNone(rows: seq<Row>, f: Row -> bool)
    requires forall r <- rows :: !f(r)
    ensures Filter(rows, f) == []
  {
    if Filter(rows, f) != [] { FirstIsMember(Filter(rows, f)); }
  }

  /** Replacing one row replaces it in the filtered table. */
  lemma FilterReplaced(rows: seq<Row>, i: nat, r: Row, f: Row -> bool)
    requires i < |rows|
    ensures Filter(rows, f) == Filter(rows[..i], f) + Filter([rows[i]], f) + Filter(rows[i + 1..], f)
    ensures Filter(rows[i := r], f) == Filter(rows[..i], f) + Filter([r], f) + Filter(rows[i + 1..], f)
  {
    assert rows == rows[..i] + [rows[i]] + rows[i + 1..];
    FilterAppend(rows[..i] + [rows[i]], rows[i + 1..], f);
    FilterAppend(rows[..i], [rows[i]], f);
    assert rows[i := r] == rows[..i] + [r] + rows[i + 1..];
    FilterAppend(rows[..i] + [r], rows[i + 1..], f);
    FilterAppend(rows[..i], [r], f);
  }

  function Found(rows: seq<Row>, f: Row -> bool): Option<Row> {
    match First(rows, f) case None => None case Some(i) => Some(rows[i])
  }

  lemma FoundCons(r: Row, rest: seq<Row>, g: Row -> bool)
    ensures Found([r] + rest, g) == if g(r) then Some(r) else Found(rest, g)
  {
    FirstCons(r, rest, g);
  }

  /** Looking for a row of a kind finds the same row in the filtered table. */
  lemma {:induction false} FirstThroughFilter(rows: seq<Row>, f: Row -> bool, g: Row -> bool)
    requires forall r :: g(r) ==> f(r)
    ensures Found(rows, g) == Found(Filter(rows, f), g)
  {
    if rows != [] {
      var r, rest := rows[0], rows[1..];
      FirstThroughFilter(rest, f, g);
      assert rows == [r] + rest;
      FoundCons(r, rest, g);
      FilterCons(r, rest, f);
      FoundCons(r, Filter(rest, f), g);
    }
  }

  lemma FirstCons(r: Row, rest: seq<Row>, g: Row -> bool)
    ensures First([r] + rest, g) ==
      if g(r) then Some(0) else match First(rest, g) case None => None case Some(i) => Some(i + 1)
  {
    assert ([r] + rest)[1..] == rest;
  }

  lemma FilterCons(r: Row, rest: seq<Row>, f: Row -> bool)
    ensures Filter([r] + rest, f) == if f(r) then [r] + Filter(rest, f) else Filter(rest, f)
  {
    assert ([r] + rest)[1..] == rest;
  }

  lemma DeactivatedCons(r: Row, rest: seq<Row>)
    ensures Deactivated([r] + rest) == if IsActive(r) then [r.(active := false)] + rest else [r] + Deactivated(rest)
    ensures NextVersion([r] + rest) == if IsActive(r) then r.version + 1 else NextVersion(rest)
  {
    FirstCons(r, rest, IsActive);
    if !IsActive(r) && First(rest, IsActive).Some? {
      var i := First(rest, IsActive).value;
      assert ([r] + rest)[i + 1 := rest[i].(active := false)] == [r] + rest[i := rest[i].(active := false)];
    }
  }

  lemma FirstIs(rows: seq<Row>, f: Row -> bool, k: nat)
    requires k < |rows| && f(rows[k]) && forall j | 0 <= j < |rows| && j != k :: !f(rows[j])
    ensures First(rows, f) == Some(k)
  {
    assert rows[k] in rows;
  }

  lemma FirstIsThere(rows: seq<Row>, f: Row -> bool)
    ensures First(rows, f).Some? <==> exists r <- rows :: f(r)
  {
    var at := First(rows, f);
    if at.Some? { assert rows[at.value] in rows; }
  }

  lemma {:induction false} DeactivatedThroughFilter(rows: seq<Row>)
    ensures Filter(Deactivated(rows), IsPublished) == Deactivated(Filter(rows, IsPublished))
    ensures NextVersion(rows) == NextVersion(Filter(rows, IsPublished))
  {
    if rows != [] {
      var r, rest := rows[0], rows[1..];
      DeactivatedThroughFilter(rest);
      assert rows == [r] + rest;
      DeactivatedCons(r, rest);
      FilterCons(r, rest, IsPublished);
      if IsPublished(r) { DeactivatedCons(r, Filter(rest, IsPublished)); }
      FilterCons(r.(active := false), rest, IsPublished);
      FilterCons(r, Deactivated(rest), IsPublished);
    }
  }

  // ------------------------------------------------------------------ publishing

  lemma ShownActive(log: seq<string>)
    ensures log == [] ==> First(Shown(log), IsActive) == None
    ensures log != [] ==> First(Shown(log), IsActive) == Some(Kept(log) - 1)
    ensures NextVersion(Shown(log)) == |log| + 1
  {
    if log != [] { FirstIs(Shown(log), IsActive, Kept(log) - 1); }
  }

  function Retired(log: seq<string>): (rows: seq<Row>)
    ensures |rows| == Kept(log)
  {
    var m := Kept(log);
    seq(m, k requires 0 <= k < m => Row(log[|log| - m + k], |log| - m + k + 1, false, false))
  }

  lemma ShownRetires(log: seq<string>)
    ensures Deactivated(Shown(log)) == Retired(log)
  {
    ShownActive(log);
    LastRetires(log);
    assert Deactivated(Shown(log)) ==
      if log == [] then Shown(log) else Shown(log)[Kept(log) - 1 := Shown(log)[Kept(log) - 1].(active := false)];
  }

  lemma LastRetires(log: seq<string>)
    ensures if log == [] then Shown(log) == Retired(log)
            else Shown(log)[Kept(log) - 1 := Shown(log)[Kept(log) - 1].(active := false)] == Retired(log)
  {
  }

  lemma ShownGrows(log: seq<string>, value: string)
    ensures Pruned(Retired(log) + [Row(value, |log| + 1, false, true)]) == Shown(log + [value])
  {
    var next := Retired(log) + [Row(value, |log| + 1, false, true)];
    WindowMoves(log, value);
    PrunedTo(next, Shown(log + [value]));
  }

  lemma WindowMoves(log: seq<string>, value: string)
    ensures var next := Retired(log) + [Row(value, |log| + 1, false, true)];
      && (if |next| > HISTORY then next[1..] else next) == Shown(log + [value])
      && |next| <= HISTORY + 1 && (|log| > 0 ==> IsRetired(next[0]))
      && (forall r <- next :: IsPublished(r))
      && (forall i | 0 < i < |next| :: next[0].version < next[i].version)
  {
  }

  lemma PrunedTo(rows: seq<Row>, kept: seq<Row>)
    requires |rows| <= HISTORY + 1 && forall r <- rows :: IsPublished(r)
    requires |rows| > HISTORY ==> IsRetired(rows[0]) && forall i | 0 < i < |rows| :: rows[0].version < rows[i].version
    requires kept == if |rows| > HISTORY then rows[1..] else rows
    ensures Pruned(rows) == kept
  {
    if |rows| > HISTORY {
      OldestIsFirst(rows);
      PrunedByOne(rows);
    } else {
      FilterAll(rows, IsPublished);
    }
  }

  lemma PrunedByOne(rows: seq<Row>)
    requires |rows| == HISTORY + 1 && Oldest(rows) == Some(0) && forall r <- rows :: IsPublished(r)
    ensures Pruned(rows) == rows[1..]
  {
    FilterAll(rows, IsPublished);
    OnePruned(rows);
  }

  lemma OnePruned(rows: seq<Row>)
    requires rows != [] && Oldest(rows) == Some(0)
    ensures WithoutOldest(rows, 1) == rows[1..]
  {
    assert rows[..0] + rows[1..] == rows[1..];
    assert WithoutOldest(rows[1..], 0) == rows[1..];
  }

  lemma OldestIsFirst(rows: seq<Row>)
    requires rows != [] && IsRetired(rows[0])
    requires forall i | 0 < i < |rows| :: rows[0].version < rows[i].version
    ensures Oldest(rows) == Some(0)
  {
    assert rows[0] in rows;
  }

  /** Publishing appends to the log and drops the draft. */
  lemma PublishAppends(rows: seq<Row>, m: Meaning, value: string)
    requires Reflects(rows, m)
    ensures Reflects(Published(rows, value), Meaning(m.log + [value], None))
    ensures NextVersion(rows) == |m.log| + 1
  {
    DeactivatedThroughFilter(rows);
    ShownActive(m.log);
    ShownRetires(m.log);
    AddedAndFiltered(Deactivated(rows), Row(value, |m.log| + 1, false, true), Retired(m.log));
    ShownGrows(m.log, value);
    ShownAlone(m.log + [value]);
  }

  lemma AddedAndFiltered(rows: seq<Row>, added: Row, kept: seq<Row>)
    requires Filter(rows, IsPublished) == kept && IsPublished(added)
    ensures Filter(rows + [added], IsPublished) == kept + [added]
  {
    FilterAppend(rows, [added], IsPublished);
    FilterOne(added, IsPublished);
  }

  lemma ShownAlone(log: seq<string>)
    ensures Reflects(Shown(log), Meaning(log, None))
  {
    FilterAll(Shown(log), IsPublished);
    FilterNone(Shown(log), IsDraft);
  }

  lemma DraftIsReplaced(rows: seq<Row>, m: Meaning, value: string)
    requires Reflects(rows, m)
    ensures Reflects(SavedDraft(rows, value), m.(draft := Some(value)))
  {
    var at := First(rows, IsDraft);
    if at.Some? {
      var r := rows[at.value].(value := value);
      FilterReplaced(rows, at.value, r, IsPublished);
      FilterReplaced(rows, at.value, r, IsDraft);
      assert rows[at.value] in rows;
    } else {
      var r := Row(value, 0, true, false);
      FilterAppend(rows, [r], IsPublished);
      FilterAppend(rows, [r], IsDraft);
      FilterOne(r, IsPublished);
      FilterOne(r, IsDraft);
      FilterNone(rows, IsDraft);
    }
  }

  lemma DraftIsDropped(rows: seq<Row>, m: Meaning)
    requires Reflects(rows, m)
    ensures Reflects(Filter(rows, IsPublished), m.(draft := None))
  {
    FilterAll(Filter(rows, IsPublished), IsPublished);
    FilterNone(Filter(rows, IsPublished), IsDraft);
  }

  // ---------------------------------------------------------------- what is read

  predicate Visible(log: seq<string>, version: int) {
    1 <= version <= |log| && |log| - HISTORY < version
  }

  /** A version can be rolled back to exactly when it is among the last twenty. */
  lemma TargetsAreTheWindow(rows: seq<Row>, m: Meaning, version: int)
    requires Reflects(rows, m)
    ensures Target(rows, version).Some? <==> Visible(m.log, version)
    ensures Visible(m.log, version) ==> rows[Target(rows, version).value].value == m.log[version - 1]
  {
    FirstThroughFilter(rows, IsPublished, HasVersion(version));
    ShownTarget(m.log, version);
  }

  lemma ShownTarget(log: seq<string>, version: int)
    ensures First(Shown(log), HasVersion(version)) ==
      if Visible(log, version) then Some(version - 1 - (|log| - Kept(log))) else None
  {
    var shown := Shown(log);
    if Visible(log, version) {
      FirstIs(shown, HasVersion(version), version - 1 - (|log| - Kept(log)));
    } else {
      FirstIsThere(shown, HasVersion(version));
    }
  }

  function Last(log: seq<string>): Option<string> {
    if log == [] then None else Some(log[|log| - 1])
  }

  lemma ActiveIsLast(rows: seq<Row>, m: Meaning)
    requires Reflects(rows, m)
    ensures ActiveValue(rows) == Last(m.log)
  {
    FirstThroughFilter(rows, IsPublished, IsActive);
    ShownActive(m.log);
  }

  // ------------------------------------------------------------------------ runs

  datatype State = State(rows: seq<Row>, cache: Option<string>)

  datatype Op =
    | SaveDraft(value: string) | DiscardDraft | Publish(value: string) | Rollback(version: int)
    | CachedRead | Expire

  function AfterPublish(s: State, value: string): State {
    State(Published(s.rows, value), Some(value))
  }

  function AfterRollback(s: State, target: Option<nat>): State
    requires target.Some? ==> target.value < |s.rows|
  {
    if target.None? then s else AfterPublish(s, s.rows[target.value].value)
  }

  function Do(s: State, op: Op): State {
    match op
    case SaveDraft(v) => s.(rows := SavedDraft(s.rows, v))
    case DiscardDraft => s.(rows := Filter(s.rows, IsPublished))
    case Publish(v) => AfterPublish(s, v)
    case Rollback(version) => AfterRollback(s, Target(s.rows, version))
    case CachedRead => if s.cache.None? then s.(cache := ActiveValue(s.rows)) else s
    case Expire => s.(cache := None)
  }

  function DoMeaning(m: Meaning, op: Op): Meaning {
    match op
    case SaveDraft(v) => m.(draft := Some(v))
    case DiscardDraft => m.(draft := None)
    case Publish(v) => Meaning(m.log + [v], None)
    case Rollback(version) => if Visible(m.log, version) then Meaning(m.log + [m.log[version - 1]], None) else m
    case _ => m
  }

  function DoAll(s: State, ops: seq<Op>): State {
    if ops == [] then s else Do(DoAll(s, ops[..|ops| - 1]), ops[|ops| - 1])
  }

  function MeanAll(m: Meaning, ops: seq<Op>): Meaning {
    if ops == [] then m else DoMeaning(MeanAll(m, ops[..|ops| - 1]), ops[|ops| - 1])
  }

  const EMPTY := State([], None)
  const NOTHING := Meaning([], None)

  ghost predicate Good(s: State, m: Meaning) {
    Reflects(s.rows, m) && (s.cache == None || s.cache == Last(m.log))
  }

  lemma StepRefines(s: State, m: Meaning, op: Op)
    requires Good(s, m)
    ensures Good(Do(s, op), DoMeaning(m, op))
  {
    match op {
      case SaveDraft(v) => DraftIsReplaced(s.rows, m, v);
      case DiscardDraft => DraftIsDropped(s.rows, m);
      case Publish(v) => PublishRefines(s, m, v);
      case Rollback(version) =>
        TargetsAreTheWindow(s.rows, m, version);
        RollbackRefines(s, m, version, Target(s.rows, version));
      case _ => ActiveIsLast(s.rows, m);
    }
  }

  lemma RollbackRefines(s: State, m: Meaning, version: int, target: Option<nat>)
    requires Good(s, m) && (target.Some? ==> target.value < |s.rows|) && (target.Some? <==> Visible(m.log, version))
    requires target.Some? ==> s.rows[target.value].value == m.log[version - 1]
    ensures Good(AfterRollback(s, target), DoMeaning(m, Rollback(version)))
  {
    if target.Some? {
      var value := s.rows[target.value].value;
      RollbackIsPublish(s, m, version, target);
      assert Good(AfterPublish(s, value), Meaning(m.log + [value], None)) by { PublishRefines(s, m, value); }
    }
  }

  lemma RollbackIsPublish(s: State, m: Meaning, version: int, target: Option<nat>)
    requires target.Some? && target.value < |s.rows| && Visible(m.log, version)
    requires s.rows[target.value].value == m.log[version - 1]
    ensures AfterRollback(s, target) == AfterPublish(s, s.rows[target.value].value)
    ensures DoMeaning(m, Rollback(version)) == Meaning(m.log + [s.rows[target.value].value], None)
  {
  }

  lemma PublishRefines(s: State, m: Meaning, value: string)
    requires Good(s, m)
    ensures Good(AfterPublish(s, value), Meaning(m.log + [value], None))
  {
    PublishAppends(s.rows, m, value);
  }

  /** Any sequence of operations, expiry included, on the table and its cache does
      what the log says. */
  lemma {:induction false} RunsRefineTheLog(ops: seq<Op>)
    ensures Good(DoAll(EMPTY, ops), MeanAll(NOTHING, ops))
  {
    if ops != [] {
      RunsRefineTheLog(ops[..|ops| - 1]);
      StepRefines(DoAll(EMPTY, ops[..|ops| - 1]), MeanAll(NOTHING, ops[..|ops| - 1]), ops[|ops| - 1]);
    }
  }

  /** The table is the last twenty publications in order with contiguous versions,
      and the last and only the last is active. */
  predicate IsWindow(table: seq<Row>, log: seq<string>) {
    && |table| == (if |log| < 20 then |log| else 20)
    && forall k | 0 <= k < |table| ::
         && !table[k].draft && table[k].value == log[|log| - |table| + k] && table[k].version == |log| - |table| + k + 1
         && (table[k].active <==> k == |table| - 1)
  }

  /** What every reachable table looks like: the published rows are the window of the
      log, and there is at most one draft. */
  lemma ReachableTables(ops: seq<Op>)
    ensures IsWindow(Filter(DoAll(EMPTY, ops).rows, IsPublished), MeanAll(NOTHING, ops).log)
    ensures |Filter(DoAll(EMPTY, ops).rows, IsDraft)| <= 1
  {
    RunsRefineTheLog(ops);
    WindowIsShown(DoAll(EMPTY, ops).rows, MeanAll(NOTHING, ops));
  }

  lemma WindowIsShown(rows: seq<Row>, m: Meaning)
    requires Reflects(rows, m)
    ensures IsWindow(Filter(rows, IsPublished), m.log) && |Filter(rows, IsDraft)| <= 1
  {
    ShownIsWindow(m.log);
    assert |DraftRows(m.draft)| <= 1;
  }

  lemma ShownIsWindow(log: seq<string>)
    ensures IsWindow(Shown(log), log)
  {
  }

  /** Cached and uncached reads agree after every run, with the last publication;
      and drafts change neither. */
  lemma ReadsAgree(ops: seq<Op>, op: Op)
    ensures var s := DoAll(EMPTY, ops);
      && ActiveValue(s.rows) == Last(MeanAll(NOTHING, ops).log)
      && (s.cache.Some? ==> s.cache == ActiveValue(s.rows))
      && (op.SaveDraft? || op.DiscardDraft? ==>
        Do(s, op).cache == s.cache && ActiveValue(Do(s, op).rows) == ActiveValue(s.rows))
  {
    var s, m := DoAll(EMPTY, ops), MeanAll(NOTHING, ops);
    RunsRefineTheLog(ops);
    ActiveIsLast(s.rows, m);
    if op.SaveDraft? || op.DiscardDraft? {
      StepRefines(s, m, op);
      ActiveIsLast(Do(s, op).rows, DoMeaning(m, op));
    }
  }

  /** Rolling back to a version of the window publishes its value anew; to any other
      version it changes nothing. */
  lemma RollbackRepublishes(ops: seq<Op>, version: int)
    ensures var s, log := DoAll(EMPTY, ops), MeanAll(NOTHING, ops).log;
      var v := Do(s, Rollback(version));
      if 1 <= version <= |log| && |log| - 20 < version
      then
        && Target(s.rows, version).Some? && ActiveValue(v.rows) == Some(log[version - 1])
        && NextVersion(v.rows) == |log| + 2
      else Target(s.rows, version).None? && v == s
  {
    var s, m := DoAll(EMPTY, ops), MeanAll(NOTHING, ops);
    RunsRefineTheLog(ops);
    TargetsAreTheWindow(s.rows, m, version);
    StepRefines(s, m, Rollback(version));
    var v, n := Do(s, Rollback(version)), DoMeaning(m, Rollback(version));
    ActiveIsLast(v.rows, n);
    DeactivatedThroughFilter(v.rows);
    ShownActive(n.log);
  }

  predicate IsReverse(a: seq<Row>, b: seq<Row>) {
    |a| == |b| && forall k | 0 <= k < |a| :: a[k] == b[|b| - 1 - k]
  }

  lemma {:induction false} AscendingNewestFirst(rows: seq<Row>)
    requires forall i, j | 0 <= i < j < |rows| :: rows[i].version < rows[j].version
    ensures IsReverse(NewestFirst(rows), rows)
    decreases |rows|
  {
    if rows != [] {
      var last := |rows| - 1;
      AscendingNewestFirst(rows[..last]);
      LastIsNewest(rows, last);
      Backwards(rows, last, NewestFirst(rows[..last]), NewestFirst(rows));
    }
  }

  lemma LastIsNewest(rows: seq<Row>, last: nat)
    requires last + 1 == |rows| && forall i, j | 0 <= i < j < |rows| :: rows[i].version < rows[j].version
    ensures NewestFirst(rows) == [rows[last]] + NewestFirst(rows[..last])
  {
    assert rows[last] in rows && Newest(rows) == last;
    assert rows[..last] + rows[last + 1..] == rows[..last];
  }

  lemma Backwards(rows: seq<Row>, last: nat, rest: seq<Row>, all: seq<Row>)
    requires last + 1 == |rows| && all == [rows[last]] + rest && IsReverse(rest, rows[..last])
    ensures IsReverse(all, rows)
  {
    forall k | 0 < k < |rows| ensures all[k] == rows[last - k] { assert all[k] == rest[k - 1]; }
  }

  /** The log's window, newest first. */
  predicate IsBackwards(history: seq<Row>, log: seq<string>) {
    && |history| == Kept(log)
    && forall k | 0 <= k < |history| :: history[k] == Row(log[|log| - 1 - k], |log| - k, false, k == 0)
  }

  /** The version history lists the window of the log backwards. */
  lemma HistoryIsTheLogBackwards(ops: seq<Op>)
    ensures IsBackwards(NewestFirst(Filter(DoAll(EMPTY, ops).rows, IsPublished)), MeanAll(NOTHING, ops).log)
  {
    RunsRefineTheLog(ops);
    HistoryIsBackwards(DoAll(EMPTY, ops).rows, MeanAll(NOTHING, ops));
  }

  lemma HistoryIsBackwards(rows: seq<Row>, m: Meaning)
    requires Reflects(rows, m)
    ensures IsBackwards(NewestFirst(Filter(rows, IsPublished)), m.log)
  {
    ShownBackwards(m.log);
  }

  lemma ShownBackwards(log: seq<string>)
    ensures IsBackwards(NewestFirst(Shown(log)), log)
  {
    AscendingNewestFirst(Shown(log));
    ReverseOfShown(NewestFirst(Shown(log)), log);
  }

  lemma ReverseOfShown(history: seq<Row>, log: seq<string>)
    requires IsReverse(history, Shown(log))
    ensures IsBackwards(history, log)
  {
  }
}
