/** One user's chat timeline: the open window of unanswered rows, the admission of
    sends and resends, and the bundles that answer the window. Rows are numbered by
    their position; each method is one committed transaction. */
module OpenWindow {
  import opened Results

  datatype Status = Pending | Delivered | FailedTimeout | FailedError | FailedBlocked

  datatype Row = User(sort: nat, status: Status, skipped: bool) | Assistant(sort: nat)

  datatype Refusal = QueueFull | NothingToResend | ResendLimit

  const QUEUE_LIMIT := 5
  const PACK_LIMIT := 10

  // ------------------------------------------------------------------- window

  /** The greatest sort number of an assistant row, -1 without one. */
  function LastAnswer(rows: seq<Row>): (last: int)
    ensures -1 <= last
    ensures forall i | 0 <= i < |rows| && rows[i].Assistant? :: rows[i].sort <= last
    ensures last >= 0 ==> exists i | 0 <= i < |rows| :: rows[i].Assistant? && rows[i].sort == last
  {
    if rows == [] then -1
    else
      var k := |rows| - 1;
      var before := LastAnswer(rows[..k]);
      assert forall i | 0 <= i < k :: rows[..k][i] == rows[i];
      if rows[k].Assistant? && rows[k].sort > before then rows[k].sort else before
  }

  predicate Open(rows: seq<Row>, i: nat) {
    i < |rows| && rows[i].User? && rows[i].sort > LastAnswer(rows)
  }

  function OpenBelow(rows: seq<Row>, n: nat): (ids: seq<nat>)
    requires n <= |rows|
    ensures forall i: nat :: i in ids <==> i < n && Open(rows, i)
    ensures forall a, b | 0 <= a < b < |ids| :: ids[a] < ids[b]
  {
    if n == 0 then []
    else
      var before := OpenBelow(rows, n - 1);
      assert forall i: nat :: i in before ==> i < n - 1;
      assert forall a | 0 <= a < |before| :: before[a] in before;
      if Open(rows, n - 1) then before + [n - 1] else before
  }

  /** The user rows after the last answer, oldest first. */
  function Window(rows: seq<Row>): (ids: seq<nat>)
    ensures forall i: nat :: i in ids <==> Open(rows, i)
    ensures forall a, b | 0 <= a < b < |ids| :: ids[a] < ids[b]
  {
    OpenBelow(rows, |rows|)
  }

  predicate IsBang(r: Row) {
    r.User? && (r.status == FailedTimeout || r.status == FailedError)
  }

  predicate HasBang(rows: seq<Row>) {
    exists i <- Window(rows) :: IsBang(rows[i])
  }

  function Undelivered(rows: seq<Row>, ids: seq<nat>): (r: seq<nat>)
    requires forall i <- ids :: i < |rows|
    ensures |r| <= |ids|
    ensures forall i: nat :: i in r <==> i in ids && !(rows[i].User? && rows[i].status == Delivered)
    ensures |r| == |ids| <==> r == ids
  {
    if ids == [] then []
    else
      var k := |ids| - 1;
      assert ids == ids[..k] + [ids[k]] && ids[k] in ids;
      assert forall i <- ids[..k] :: i in ids;
      var before := Undelivered(rows, ids[..k]);
      if rows[ids[k]].User? && rows[ids[k]].status == Delivered then before else before + [ids[k]]
  }

  predicate ShouldBlock(rows: seq<Row>) {
    |Undelivered(rows, Window(rows))| >= QUEUE_LIMIT && !HasBang(rows)
  }

  predicate OnlyPending(rows: seq<Row>) {
    var left := Undelivered(rows, Window(rows));
    left != [] && forall i <- left :: rows[i].User? && rows[i].status == Pending
  }

  // ------------------------------------------------------------- transactions

  function Marked(rows: seq<Row>, ids: seq<nat>, status: Status): (r: seq<Row>)
    ensures |r| == |rows|
  {
    seq(|rows|, i requires 0 <= i < |rows| =>
      if i in ids && rows[i].User? then rows[i].(status := status) else rows[i])
  }

  function Answered(rows: seq<Row>, ids: seq<nat>): (r: seq<Row>)
    ensures |r| == |rows|
  {
    seq(|rows|, i requires 0 <= i < |rows| =>
      if i in ids && rows[i].User? then rows[i].(status := Delivered, skipped := false) else rows[i])
  }

  function Skipped(rows: seq<Row>, ids: seq<nat>): (r: seq<Row>)
    ensures |r| == |rows|
  {
    seq(|rows|, i requires 0 <= i < |rows| =>
      if i in ids && rows[i].User? then rows[i].(skipped := true) else rows[i])
  }

  function Replies(from: nat, n: nat): (r: seq<Row>)
    ensures |r| == n
  {
    seq(n, k requires 0 <= k < n => Assistant(from + k))
  }

  /** The rows a bundle puts in its prompt: the last ten of the window. */
  function Pack(rows: seq<Row>): (ids: seq<nat>)
    ensures forall i <- ids :: Open(rows, i)
    ensures |ids| == if |Window(rows)| > PACK_LIMIT then PACK_LIMIT else |Window(rows)|
  {
    var open := Window(rows);
    if |open| > PACK_LIMIT then open[|open| - PACK_LIMIT..] else open
  }

  function Outside(rows: seq<Row>): seq<nat> {
    var open := Window(rows);
    if |open| > PACK_LIMIT then open[..|open| - PACK_LIMIT] else []
  }

  lemma OpenMembers(rows: seq<Row>, open: seq<nat>)
    requires open == Window(rows)
    ensures forall m | 0 <= m < |open| :: open[m] < |rows| && rows[open[m]].User? && Open(rows, open[m])
    ensures forall i: nat | Open(rows, i) :: exists m | 0 <= m < |open| :: open[m] == i
  {
    forall m | 0 <= m < |open| ensures Open(rows, open[m]) { assert open[m] in open; }
    forall i: nat | Open(rows, i) ensures exists m | 0 <= m < |open| :: open[m] == i { assert i in open; }
  }

  lemma OneMoreUndelivered(rows: seq<Row>, ids: seq<nat>, k: nat)
    requires k < |ids| && forall m | 0 <= m < |ids| :: ids[m] < |rows| && rows[ids[m]].User?
    ensures |Undelivered(rows, ids[..k + 1])|
      == |Undelivered(rows, ids[..k])| + (if rows[ids[k]].status == Delivered then 0 else 1)
  {
    assert ids[..k + 1][..k] == ids[..k] && ids[..k + 1][k] == ids[k];
  }

  /** The admission predicates of the protocol are what the methods decide. */
  lemma BangInRows(rows: seq<Row>)
    ensures HasBang(rows) <==> exists i: nat | Open(rows, i) :: IsBang(rows[i])
  {
    if HasBang(rows) {
      var i :| i in Window(rows) && IsBang(rows[i]);
      assert Open(rows, i);
    }
  }

  lemma StuckInRows(rows: seq<Row>)
    ensures ShouldBlock(rows) && OnlyPending(rows) <==>
      && |Undelivered(rows, Window(rows))| >= 5
      && forall i: nat | Open(rows, i) :: rows[i].status == Delivered || rows[i].status == Pending
  {
    BangInRows(rows);
    RestInRows(rows, Undelivered(rows, Window(rows)));
  }

  lemma RestInRows(rows: seq<Row>, left: seq<nat>)
    requires left == Undelivered(rows, Window(rows))
    ensures (forall i <- left :: rows[i].User? && rows[i].status == Pending)
       <==> forall i: nat | Open(rows, i) :: rows[i].status == Delivered || rows[i].status == Pending
  {
    assert forall i: nat :: i in left <==> Open(rows, i) && rows[i].status != Delivered;
  }

  /** The pack is the last ten of the open rows; of the open rows the earlier ones, and
      of all rows only those, are flagged as skipped. */
  ghost predicate Selected(before: seq<Row>, pack: seq<nat>, after: seq<Row>) {
    var open := Window(before);
    && |after| == |before|
    && (forall k | 0 <= k < |open| ::
          open[k] < |before| && before[open[k]].User? && after[open[k]] ==
            User(before[open[k]].sort, before[open[k]].status, before[open[k]].skipped || k + 10 < |open|))
    && (forall i: nat | i < |before| && !Open(before, i) :: after[i] == before[i])
    && |pack| == (if |open| <= 10 then |open| else 10)
    && forall k | 0 <= k < |pack| :: pack[k] == open[|open| - |pack| + k]
  }

  lemma SelectionByPosition(rows: seq<Row>)
    ensures Selected(rows, Pack(rows), Skipped(rows, Outside(rows)))
  {
    var open, after := Window(rows), Skipped(rows, Outside(rows));
    OpenMembers(rows, open);
    forall k | 0 <= k < |open|
      ensures after[open[k]] == User(rows[open[k]].sort, rows[open[k]].status, rows[open[k]].skipped || k + 10 < |open|)
    {
      OutsideIsEarlier(rows, k);
    }
    forall i: nat | i < |rows| && !Open(rows, i) ensures after[i] == rows[i] {
      assert i !in open;
    }
  }

  lemma OutsideIsEarlier(rows: seq<Row>, k: nat)
    requires k < |Window(rows)|
    ensures Window(rows)[k] in Outside(rows) <==> k + 10 < |Window(rows)|
  {
    var open, early := Window(rows), Outside(rows);
    assert forall m | 0 <= m < |early| :: early[m] == open[m];
    if k + 10 < |open| {
      assert early[k] == open[k];
    }
  }

  class Timeline {
    var rows: seq<Row>
    var next: nat

    constructor ()
      ensures rows == [] && next == 1
    {
      rows, next := [], 1;
    }

    method Allocate(count: nat) returns (from: nat)
      requires count >= 1
      modifies this`next
      ensures from == old(next) && next == old(next) + count
    {
      from := next;
      next := from + count;
    }

    /** Whether some open row has failed. */
    method HasOpenBang() returns (bang: bool)
      ensures bang <==> exists i: nat | Open(rows, i) :: IsBang(rows[i])
    {
      var open := Window(rows);
      OpenMembers(rows, open);
      for k := 0 to |open|
        invariant forall m | 0 <= m < k :: !IsBang(rows[open[m]])
      {
        if IsBang(rows[open[k]]) {
          assert Open(rows, open[k]);
          return true;
        }
      }
      return false;
    }

    method CountUndelivered() returns (left: nat)
      ensures left == |Undelivered(rows, Window(rows))|
    {
      var open := Window(rows);
      OpenMembers(rows, open);
      left := 0;
      for k := 0 to |open|
        invariant left == |Undelivered(rows, open[..k])|
      {
        OneMoreUndelivered(rows, open, k);
        if rows[open[k]].status != Delivered {
          left := left + 1;
        }
      }
      assert open[..|open|] == open;
    }

    /** Whether a new send must be refused: five rows are open and undelivered, and
        none has failed. */
    method CheckSendQuota() returns (full: bool)
      ensures full <==> |Undelivered(rows, Window(rows))| >= 5 && forall i: nat | Open(rows, i) :: !IsBang(rows[i])
    {
      var left := CountUndelivered();
      if left < QUEUE_LIMIT {
        return false;
      }
      var bang := HasOpenBang();
      return !bang;
    }

    /** Whether everything undelivered in the window is pending. */
    method RestIsPending() returns (pending: bool)
      ensures pending <==> forall i: nat | Open(rows, i) :: rows[i].status == Delivered || rows[i].status == Pending
    {
      var open := Window(rows);
      OpenMembers(rows, open);
      for k := 0 to |open|
        invariant forall m | 0 <= m < k :: rows[open[m]].status == Delivered || rows[open[m]].status == Pending
      {
        if rows[open[k]].status != Delivered && rows[open[k]].status != Pending {
          assert Open(rows, open[k]);
          return false;
        }
      }
      return true;
    }

    /** Whether a refused send must start a recovery: the queue is still full, and
        everything undelivered in it is pending. */
    method RecoverIfStuck() returns (recover: bool)
      ensures recover <==>
        && |Undelivered(rows, Window(rows))| >= 5
        && forall i: nat | Open(rows, i) :: rows[i].status == Delivered || rows[i].status == Pending
    {
      var full := CheckSendQuota();
      var pending := RestIsPending();
      return full && pending;
    }

    /** The row of an admitted send. */
    method EnqueueSend()
      modifies this
      ensures rows == old(rows) + [User(old(next), Pending, false)] && next == old(next) + 1
    {
      var sort := Allocate(1);
      rows := rows + [User(sort, Pending, false)];
    }

    /** A resend is admitted exactly when some open row has failed and the quota
        allows it; it is refused for want of a failed row before the quota counts. */
    method CheckResend(quota: bool) returns (refused: Option<Refusal>)
      ensures refused.None?
        <==> quota && exists i: nat | Open(rows, i) :: rows[i].status in {FailedTimeout, FailedError}
      ensures refused == Some(NothingToResend)
        <==> forall i: nat | Open(rows, i) :: rows[i].status !in {FailedTimeout, FailedError}
      ensures refused.Some? ==> refused.value != QueueFull
    {
      var bang := HasOpenBang();
      if !bang {
        return Some(NothingToResend);
      }
      if !quota {
        return Some(ResendLimit);
      }
      return None;
    }

    /** The pack of a bundle; older open rows are flagged as skipped. */
    method SelectPack() returns (pack: seq<nat>)
      modifies this`rows
      ensures pack == Pack(old(rows)) && rows == Skipped(old(rows), Outside(old(rows)))
      ensures Selected(old(rows), pack, rows)
    {
      ghost var before := rows;
      var open := Window(rows);
      if |open| > PACK_LIMIT {
        pack := open[|open| - PACK_LIMIT..];
        FlagSkipped(open[..|open| - PACK_LIMIT]);
      } else {
        pack := open;
        assert Skipped(rows, []) == rows;
      }
      assert Selected(before, pack, rows) by { SelectionByPosition(before); }
    }

    method FlagSkipped(ids: seq<nat>)
      modifies this`rows
      ensures rows == Skipped(old(rows), ids)
    {
      ghost var before := rows;
      for k := 0 to |ids|
        invariant |rows| == |before|
        invariant forall i | 0 <= i < |rows| ::
          rows[i] == if i in ids[..k] && before[i].User? then before[i].(skipped := true) else before[i]
      {
        var row := ids[k];
        assert ids[..k + 1] == ids[..k] + [row];
        if row < |rows| && rows[row].User? {
          rows := rows[row := rows[row].(skipped := true)];
        }
      }
      assert ids[..|ids|] == ids;
    }

    /** A successful round: the pack is delivered and one assistant row is written
        for each message, in one transaction. */
    method PersistSuccess(pack: seq<nat>, messages: nat)
      modifies this
      ensures if messages < 1 then rows == old(rows) && next == old(next)
              else rows == Answered(old(rows), pack) + Replies(old(next), messages) && next == old(next) + messages
      ensures messages >= 1 ==>
        && |rows| == |old(rows)| + messages
        && (forall i | 0 <= i < |old(rows)| ::
              rows[i] == if i in pack && old(rows)[i].User? then User(old(rows)[i].sort, Delivered, false)
                         else old(rows)[i])
        && (forall i | |old(rows)| <= i < |rows| :: rows[i] == Assistant(old(next) + i - |old(rows)|))
    {
      if messages < 1 {
        return;
      }
      var from := Allocate(messages);
      ghost var before := rows;
      for k := 0 to |pack|
        invariant |rows| == |before| && next == from + messages
        invariant forall i | 0 <= i < |rows| ::
          rows[i] == if i in pack[..k] && before[i].User? then before[i].(status := Delivered, skipped := false)
                     else before[i]
      {
        var row := pack[k];
        assert pack[..k + 1] == pack[..k] + [row];
        if row < |rows| && rows[row].User? {
          rows := rows[row := rows[row].(status := Delivered, skipped := false)];
        }
      }
      assert pack[..|pack|] == pack;
      ghost var delivered := rows;
      assert delivered == Answered(before, pack) && delivered + Replies(from, 0) == delivered;
      for k := 0 to messages
        invariant rows == delivered + Replies(from, k) && next == from + messages
      {
        rows := rows + [Assistant(from + k)];
        assert Replies(from, k + 1) == Replies(from, k) + [Assistant(from + k)];
      }
    }

    method MarkFailed(pack: seq<nat>, status: Status)
      modifies this`rows
      ensures rows == Marked(old(rows), pack, status)
      ensures |rows| == |old(rows)| && forall i | 0 <= i < |rows| ::
        rows[i] == if i in pack && old(rows)[i].User? then User(old(rows)[i].sort, status, old(rows)[i].skipped)
                   else old(rows)[i]
    {
      ghost var before := rows;
      for k := 0 to |pack|
        invariant |rows| == |before|
        invariant forall i | 0 <= i < |rows| ::
          rows[i] == if i in pack[..k] && before[i].User? then before[i].(status := status) else before[i]
      {
        var row := pack[k];
        assert pack[..k + 1] == pack[..k] + [row];
        if row < |rows| && rows[row].User? {
          rows := rows[row := rows[row].(status := status)];
        }
      }
      assert pack[..|pack|] == pack;
    }
  }

  // ------------------------------------------------------------------ protocol

  type Bundle = nat

  /** `admitted` and `refused` count the sends between their quota check and what
      follows it, `resends` the resends between their check and their run, and
      `peak` is the most sends that were admitted at one time. `scheduled` counts
      the bundle runs that may still begin; `packs` are the packs of the bundles that
      have begun and not ended. */
  datatype World = World(
    rows: seq<Row>, next: nat, admitted: nat, refused: nat, resends: nat, peak: nat,
    scheduled: nat, packs: map<Bundle, seq<nat>>)

  datatype Step =
    | CheckSend
    | Insert
    | Recover
    | CheckResend(quota: bool)
    | StartResend
    | GiveUp
    | Drop
    | Begin(b: Bundle)
    | Persist(b: Bundle, messages: nat)
    | Fail(b: Bundle, status: Status)
    | Abandon(b: Bundle, again: bool)
    | Allocate(count: nat)

  const START := World([], 1, 0, 0, 0, 0, 0, map[])

  predicate Enabled(w: World, s: Step) {
    match s
    case Insert => w.admitted > 0
    case Recover => w.refused > 0
    case StartResend => w.resends > 0
    case GiveUp => w.admitted > 0
    case Drop => w.scheduled > 0
    case Begin(b) => w.scheduled > 0 && b !in w.packs
    case Persist(b, _) => b in w.packs
    case Fail(b, status) => b in w.packs && (status == FailedTimeout || status == FailedBlocked)
    case Abandon(b, _) => b in w.packs
    case Allocate(count) => count >= 1
    case _ => true
  }

  function AfterCheck(w: World): World {
    if ShouldBlock(w.rows) then w.(refused := w.refused + 1)
    else w.(admitted := w.admitted + 1, peak := if w.admitted + 1 > w.peak then w.admitted + 1 else w.peak)
  }

  function Do(w: World, s: Step): World
    requires Enabled(w, s)
  {
    match s
    case CheckSend => AfterCheck(w)
    case Insert =>
      w.(rows := w.rows + [User(w.next, Pending, false)], next := w.next + 1,
         admitted := w.admitted - 1, scheduled := w.scheduled + 1)
    case Recover =>
      w.(refused := w.refused - 1,
         scheduled := w.scheduled + if ShouldBlock(w.rows) && OnlyPending(w.rows) then 1 else 0)
    case CheckResend(quota) => if HasBang(w.rows) && quota then w.(resends := w.resends + 1) else w
    case StartResend => w.(resends := w.resends - 1, scheduled := w.scheduled + 1)
    case GiveUp => w.(admitted := w.admitted - 1)
    case Drop => w.(scheduled := w.scheduled - 1)
    case Begin(b) =>
      if Window(w.rows) == [] then w.(scheduled := w.scheduled - 1)
      else
        w.(rows := Skipped(w.rows, Outside(w.rows)), scheduled := w.scheduled - 1, packs := w.packs[b := Pack(w.rows)])
    case Persist(b, n) =>
      var v := w.(packs := w.packs - {b});
      if n < 1 then v else v.(rows := Answered(w.rows, w.packs[b]) + Replies(w.next, n), next := w.next + n)
    case Fail(b, status) => w.(rows := Marked(w.rows, w.packs[b], status), packs := w.packs - {b})
    case Abandon(b, again) =>
      w.(packs := w.packs - {b}, scheduled := w.scheduled + if again then 1 else 0)
    case Allocate(n) => w.(next := w.next + n)
  }

  ghost predicate Run(w: World, steps: seq<Step>, v: World)
    decreases |steps|
  {
    if steps == [] then v == w else Enabled(w, steps[0]) && Run(Do(w, steps[0]), steps[1..], v)
  }

  // ---------------------------------------------------------------- invariant

  ghost predicate Sorted(w: World) {
    && (forall i, j | 0 <= i < j < |w.rows| :: w.rows[i].sort < w.rows[j].sort)
    && (forall i | 0 <= i < |w.rows| :: w.rows[i].sort < w.next)
  }

  ghost predicate AllPending(rows: seq<Row>) {
    forall i: nat | Open(rows, i) :: rows[i].status == Pending
  }

  ghost predicate Inv(w: World) {
    && Sorted(w)
    && (forall i: nat | Open(w.rows, i) :: w.rows[i].status != Delivered)
    && w.admitted <= w.peak
    && (AllPending(w.rows) ==> |Window(w.rows)| + w.admitted <= QUEUE_LIMIT - 1 + w.peak)
    && (forall b | b in w.packs :: forall i <- w.packs[b] :: i < |w.rows| && w.rows[i].User?)
  }

  /** Roles and numbers, which alone decide the window, are the same. */
  ghost predicate SameShape(a: seq<Row>, b: seq<Row>) {
    |a| == |b| && forall i | 0 <= i < |a| :: a[i].User? == b[i].User? && a[i].sort == b[i].sort
  }

  lemma SameShapeSameWindow(a: seq<Row>, b: seq<Row>)
    requires SameShape(a, b)
    ensures LastAnswer(a) == LastAnswer(b) && Window(a) == Window(b)
    ensures forall i: nat :: Open(a, i) <==> Open(b, i)
  {
    SameIds(Window(a), Window(b));
  }

  ghost predicate Increasing(a: seq<nat>) {
    forall i, j | 0 <= i < j < |a| :: a[i] < a[j]
  }

  lemma EmptyTogether(a: seq<nat>, b: seq<nat>)
    requires forall i: nat :: i in a <==> i in b
    ensures a == [] <==> b == []
  {
    if a != [] { assert a[0] in b; }
    if b != [] { assert b[0] in a; }
  }

  lemma SameLast(a: seq<nat>, b: seq<nat>)
    requires (forall i: nat :: i in a <==> i in b) && Increasing(a) && Increasing(b) && a != []
    ensures b != [] && a[|a| - 1] == b[|b| - 1]
  {
    assert a[|a| - 1] in b;
    assert b[|b| - 1] in a;
  }

  lemma FrontMembers(a: seq<nat>)
    requires Increasing(a) && a != []
    ensures forall i: nat :: i in a[..|a| - 1] <==> i in a && i != a[|a| - 1]
  {
    assert a == a[..|a| - 1] + [a[|a| - 1]];
  }

  /** An increasing sequence is determined by its members. */
  lemma {:induction false} SameIds(a: seq<nat>, b: seq<nat>)
    requires (forall i: nat :: i in a <==> i in b) && Increasing(a) && Increasing(b)
    ensures a == b
  {
    EmptyTogether(a, b);
    if a != [] {
      SameLast(a, b);
      FrontMembers(a);
      FrontMembers(b);
      var a', b' := a[..|a| - 1], b[..|b| - 1];
      assert Increasing(a') && Increasing(b');
      forall i: nat ensures i in a' <==> i in b' {
        assert i in a' <==> i in a && i != a[|a| - 1];
        assert i in b' <==> i in b && i != b[|b| - 1];
      }
      SameIds(a', b');
      assert a == a[..|a| - 1] + [a[|a| - 1]] && b == b[..|b| - 1] + [b[|b| - 1]];
    }
  }

  lemma UndeliveredIsAll(w: World)
    requires Inv(w)
    ensures Undelivered(w.rows, Window(w.rows)) == Window(w.rows)
  {
    NothingDelivered(w.rows, Window(w.rows));
  }

  lemma {:induction false} NothingDelivered(rows: seq<Row>, ids: seq<nat>)
    requires forall i <- ids :: i < |rows| && !(rows[i].User? && rows[i].status == Delivered)
    ensures Undelivered(rows, ids) == ids
  {
    if ids != [] {
      assert ids == ids[..|ids| - 1] + [ids[|ids| - 1]];
      NothingDelivered(rows, ids[..|ids| - 1]);
    }
  }

  lemma AppendedUserOpens(w: World, row: Row)
    requires Sorted(w) && row.User? && row.sort == w.next
    ensures Window(w.rows + [row]) == Window(w.rows) + [|w.rows|]
    ensures forall i: nat :: Open(w.rows + [row], i) <==> Open(w.rows, i) || i == |w.rows|
  {
    AppendedOpens(w, row);
    var ids := Window(w.rows);
    assert forall a | 0 <= a < |ids| :: ids[a] in ids && ids[a] < |w.rows|;
    SameIds(Window(w.rows + [row]), ids + [|w.rows|]);
  }

  lemma AppendedOpens(w: World, row: Row)
    requires Sorted(w) && row.User? && row.sort == w.next
    ensures forall i: nat :: Open(w.rows + [row], i) <==> Open(w.rows, i) || i == |w.rows|
  {
    var rows := w.rows + [row];
    assert rows[..|w.rows|] == w.rows;
    LastAnswerBelow(w);
    assert LastAnswer(rows) == LastAnswer(w.rows);
  }

  lemma LastAnswerBelow(w: World)
    requires Sorted(w)
    ensures LastAnswer(w.rows) < w.next
  {
  }

  lemma RepliesCloseTheWindow(rows: seq<Row>, from: nat, n: nat)
    requires n >= 1 && forall i | 0 <= i < |rows| :: rows[i].sort < from
    ensures Window(rows + Replies(from, n)) == []
  {
    var all := rows + Replies(from, n);
    assert all[|rows|] == Assistant(from);
    assert forall i: nat :: !Open(all, i);
    if Window(all) != [] { FirstIsMember(Window(all)); }
  }
}
