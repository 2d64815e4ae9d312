/** What the open window keeps over every run, and when a user is locked out. */
module OpenWindowTheorems {
  import opened OpenWindow

  // ---------------------------------------------------------------- invariant

  lemma StatusChangeKeepsWindow(w: World, rows: seq<Row>)
    requires Inv(w) && SameShape(w.rows, rows)
    requires forall i: nat | Open(w.rows, i) ::
      rows[i].status == w.rows[i].status || (rows[i].status != Pending && rows[i].status != Delivered)
    ensures Sorted(w.(rows := rows)) && Window(rows) == Window(w.rows)
    ensures forall i: nat | Open(rows, i) :: rows[i].status != Delivered
    ensures AllPending(rows) ==> AllPending(w.rows)
  {
    SameShapeSameWindow(w.rows, rows);
    if AllPending(rows) {
      forall i: nat | Open(w.rows, i) ensures w.rows[i].status == Pending { assert Open(rows, i); }
    }
  }

  /** Admission read off the window. */
  lemma Admission(w: World)
    requires Inv(w)
    ensures ShouldBlock(w.rows) <==> |Window(w.rows)| >= QUEUE_LIMIT && !HasBang(w.rows)
    ensures OnlyPending(w.rows) <==> Window(w.rows) != [] && AllPending(w.rows)
  {
    UndeliveredIsAll(w);
  }

  lemma CheckKeepsInvariant(w: World)
    requires Inv(w)
    ensures Inv(AfterCheck(w))
  {
    Admission(w);
    if AllPending(w.rows) { AllPendingNoBang(w.rows); }
  }

  lemma InsertStep(w: World)
    requires w.admitted > 0
    ensures Do(w, Insert) ==
      w.(rows := w.rows + [User(w.next, Pending, false)], next := w.next + 1,
         admitted := w.admitted - 1, scheduled := w.scheduled + 1)
  {
  }

  lemma InsertKeepsInvariant(w: World)
    requires Inv(w) && w.admitted > 0
    ensures Inv(Do(w, Insert))
  {
    InsertStep(w);
    var v := Do(w, Insert);
    AppendedUserOpens(w, User(w.next, Pending, false));
    AppendedKeepsRows(w.rows, v.rows, User(w.next, Pending, false));
    RestOfInvariant(w, v);
  }

  lemma RestOfInvariant(w: World, v: World)
    requires Inv(w) && v.rows == w.rows + [User(w.next, Pending, false)] && v.next == w.next + 1 && v.packs == w.packs
    ensures Sorted(v) && forall b | b in v.packs :: forall i <- v.packs[b] :: i < |v.rows| && v.rows[i].User?
  {
  }

  lemma AppendedKeepsRows(a: seq<Row>, b: seq<Row>, row: Row)
    requires b == a + [row] && row.User? && row.status == Pending
    requires forall i: nat :: Open(b, i) <==> Open(a, i) || i == |a|
    requires forall i: nat | Open(a, i) :: a[i].status != Delivered
    ensures forall i: nat | Open(b, i) :: b[i].status != Delivered
    ensures AllPending(b) ==> AllPending(a) && !HasBang(a)
  {
    if AllPending(b) {
      forall i: nat | Open(a, i) ensures a[i].status == Pending { assert Open(b, i) && b[i] == a[i]; }
      AllPendingNoBang(a);
    }
  }

  lemma AllPendingNoBang(rows: seq<Row>)
    requires AllPending(rows)
    ensures !HasBang(rows)
  {
  }

  lemma BeginKeepsInvariant(w: World, b: Bundle)
    requires Inv(w) && Enabled(w, Begin(b))
    ensures Inv(Do(w, Begin(b)))
  {
    if Window(w.rows) != [] {
      var rows := Skipped(w.rows, Outside(w.rows));
      StatusChangeKeepsWindow(w, rows);
      forall i | i in Pack(w.rows) ensures i < |rows| && rows[i].User? { assert Open(w.rows, i); }
    }
  }

  lemma FailKeepsInvariant(w: World, b: Bundle, status: Status)
    requires Inv(w) && Enabled(w, Fail(b, status))
    ensures Inv(Do(w, Fail(b, status)))
  {
    StatusChangeKeepsWindow(w, Marked(w.rows, w.packs[b], status));
  }

  lemma PersistKeepsInvariant(w: World, b: Bundle, n: nat)
    requires Inv(w) && Enabled(w, Persist(b, n))
    ensures Inv(Do(w, Persist(b, n)))
    ensures n >= 1 ==> Window(Do(w, Persist(b, n)).rows) == []
  {
    if n >= 1 {
      var v := Do(w, Persist(b, n));
      RepliesCloseTheWindow(Answered(w.rows, w.packs[b]), w.next, n);
      assert forall i: nat :: i !in Window(v.rows) && !Open(v.rows, i);
    }
  }

  /** Every step, in any interleaving of sends and bundles, keeps: no delivered row
      is open, and a window of only pending rows together with the sends already
      admitted to it has at most four more than were ever admitted at one time. */
  lemma StepKeepsInvariant(w: World, s: Step)
    requires Inv(w) && Enabled(w, s)
    ensures Inv(Do(w, s))
  {
    match s {
      case CheckSend => CheckKeepsInvariant(w);
      case Insert => InsertKeepsInvariant(w);
      case Begin(b) => BeginKeepsInvariant(w, b);
      case Persist(b, n) => PersistKeepsInvariant(w, b, n);
      case Fail(b, status) => FailKeepsInvariant(w, b, status);
      case _ =>
    }
  }

  lemma {:induction false} RunKeepsInvariant(w: World, steps: seq<Step>, v: World)
    requires Inv(w) && Run(w, steps, v)
    ensures Inv(v)
    decreases |steps|
  {
    if steps != [] {
      StepKeepsInvariant(w, steps[0]);
      RunKeepsInvariant(Do(w, steps[0]), steps[1..], v);
    }
  }

  /** With at most so many sends between their check and their row at one time, a
      window of only pending rows has at most four more; and recovery fires exactly
      when the rows are all pending and five or more. */
  lemma PendingWindowIsBounded(steps: seq<Step>, v: World)
    requires Run(START, steps, v)
    ensures AllPending(v.rows) ==> |Window(v.rows)| <= 4 + v.peak
    ensures ShouldBlock(v.rows) && OnlyPending(v.rows) <==> |Window(v.rows)| >= 5 && AllPending(v.rows)
  {
    RunKeepsInvariant(START, steps, v);
    Admission(v);
    if AllPending(v.rows) { AllPendingNoBang(v.rows); }
  }

  /** So with sends one after the other recovery fires exactly at five rows, all of
      them pending, whatever bundles commit between a check and its row. */
  lemma RecoveryFiresExactlyAtFive(steps: seq<Step>, v: World)
    requires Run(START, steps, v) && v.peak <= 1
    ensures ShouldBlock(v.rows) && OnlyPending(v.rows) <==> |Window(v.rows)| == 5 && AllPending(v.rows)
  {
    PendingWindowIsBounded(steps, v);
  }

  // ---------------------------------------------------------- leaving the window

  ghost predicate Extends(a: seq<Row>, b: seq<Row>) {
    |a| <= |b| && SameShape(b[..|a|], a)
  }

  lemma LaterAnswer(a: seq<Row>, b: seq<Row>)
    requires Extends(a, b)
    ensures LastAnswer(a) <= LastAnswer(b)
    ensures forall i: nat | i < |a| && !Open(a, i) :: !Open(b, i)
  {
    assert forall i | 0 <= i < |a| :: b[..|a|][i] == b[i];
    if LastAnswer(a) >= 0 {
      var i :| 0 <= i < |a| && a[i].Assistant? && a[i].sort == LastAnswer(a);
      assert b[i].Assistant? && b[i].sort == a[i].sort;
    }
  }

  lemma ChangedRowsExtend(a: seq<Row>, b: seq<Row>, later: seq<Row>)
    requires SameShape(b, a)
    ensures Extends(a, b + later) && Extends(a, b)
  {
    assert (b + later)[..|a|] == b && b[..|a|] == b;
  }

  lemma PersistExtendsRows(w: World, b: Bundle, n: nat)
    requires Enabled(w, Persist(b, n))
    ensures Extends(w.rows, Do(w, Persist(b, n)).rows)
  {
    ChangedRowsExtend(w.rows, w.rows, []);
    ChangedRowsExtend(w.rows, Answered(w.rows, w.packs[b]), Replies(w.next, n));
  }

  lemma BeginExtendsRows(w: World, b: Bundle)
    requires Enabled(w, Begin(b))
    ensures Extends(w.rows, Do(w, Begin(b)).rows)
  {
    ChangedRowsExtend(w.rows, w.rows, []);
    ChangedRowsExtend(w.rows, Skipped(w.rows, Outside(w.rows)), []);
  }

  lemma StepExtendsRows(w: World, s: Step)
    requires Enabled(w, s)
    ensures Extends(w.rows, Do(w, s).rows)
  {
    ChangedRowsExtend(w.rows, w.rows, [User(w.next, Pending, false)]);
    match s {
      case Begin(b) => BeginExtendsRows(w, b);
      case Persist(b, n) => PersistExtendsRows(w, b, n);
      case Fail(b, status) => ChangedRowsExtend(w.rows, Marked(w.rows, w.packs[b], status), []);
      case Insert => InsertStep(w);
      case _ =>
    }
  }

  /** A row that has left the window never returns. */
  lemma {:induction false} LeftRowsStayOut(w: World, steps: seq<Step>, v: World, i: nat)
    requires Inv(w) && Run(w, steps, v) && i < |w.rows| && !Open(w.rows, i)
    ensures i < |v.rows| && !Open(v.rows, i)
    decreases |steps|
  {
    if steps != [] {
      StepKeepsInvariant(w, steps[0]);
      StepExtendsRows(w, steps[0]);
      LaterAnswer(w.rows, Do(w, steps[0]).rows);
      LeftRowsStayOut(Do(w, steps[0]), steps[1..], v, i);
    }
  }

  ghost predicate InSomePack(w: World, i: nat) {
    exists b <- w.packs :: i in w.packs[b]
  }

  lemma BehindStatus(w: World, s: Step, i: nat)
    requires Inv(w) && Enabled(w, s) && i < |w.rows| && w.rows[i].User? && !InSomePack(w, i)
    ensures i < |Do(w, s).rows| && Do(w, s).rows[i].User? && Do(w, s).rows[i].status == w.rows[i].status
  {
    if s == Insert { InsertStep(w); }
    assert s.Persist? || s.Fail? ==> i !in w.packs[s.b];
  }

  lemma BehindPacks(w: World, s: Step, i: nat)
    requires Inv(w) && Enabled(w, s) && !Open(w.rows, i) && !InSomePack(w, i)
    ensures !InSomePack(Do(w, s), i)
  {
    if s == Insert { InsertStep(w); }
    assert i !in Pack(w.rows);
  }

  lemma BehindStep(w: World, s: Step, i: nat)
    requires Inv(w) && Enabled(w, s) && i < |w.rows| && w.rows[i].User? && !Open(w.rows, i) && !InSomePack(w, i)
    ensures var v := Do(w, s);
      i < |v.rows| && v.rows[i].User? && v.rows[i].status == w.rows[i].status && !Open(v.rows, i) && !InSomePack(v, i)
  {
    StepExtendsRows(w, s);
    LaterAnswer(w.rows, Do(w, s).rows);
    BehindStatus(w, s, i);
    BehindPacks(w, s, i);
  }

  /** A row outside the window and outside every running pack keeps its status for
      ever. */
  lemma {:induction false} LeftBehindStays(w: World, steps: seq<Step>, v: World, i: nat)
    requires Inv(w) && Run(w, steps, v)
    requires i < |w.rows| && w.rows[i].User? && !Open(w.rows, i) && !InSomePack(w, i)
    ensures i < |v.rows| && v.rows[i].User? && v.rows[i].status == w.rows[i].status
    decreases |steps|
  {
    if steps != [] {
      StepKeepsInvariant(w, steps[0]);
      BehindStep(w, steps[0], i);
      LeftBehindStays(Do(w, steps[0]), steps[1..], v, i);
    }
  }

  /** What a round makes of the k-th open row: it is delivered when it is one of the
      last ten, and keeps its status otherwise. */
  ghost predicate RoundedUp(rows: seq<Row>, after: seq<Row>, k: nat)
    requires k < |Window(rows)|
  {
    var i := Window(rows)[k];
    && i < |rows| && rows[i].User? && i < |after| && after[i].User?
    && after[i].status == if k >= |Window(rows)| - 10 then Delivered else rows[i].status
  }

  /** What one undisturbed bundle does to the window it found: it closes the window
      and delivers exactly the last ten rows. */
  lemma BundleDeliversItsPack(w: World, b: Bundle, n: nat)
    requires Inv(w) && Enabled(w, Begin(b)) && Window(w.rows) != [] && n >= 1
    ensures var v := Do(Do(w, Begin(b)), Persist(b, n));
      && Inv(v) && Window(v.rows) == [] && v.packs == w.packs
      && forall k | 0 <= k < |Window(w.rows)| :: RoundedUp(w.rows, v.rows, k)
  {
    BeginKeepsInvariant(w, b);
    PersistKeepsInvariant(Do(w, Begin(b)), b, n);
    BundleRows(w, b, n);
    forall k | 0 <= k < |Window(w.rows)|
      ensures RoundedUp(w.rows, Do(Do(w, Begin(b)), Persist(b, n)).rows, k)
    {
      PackDelivers(w.rows, Replies(w.next, n), Do(Do(w, Begin(b)), Persist(b, n)).rows, k);
    }
  }

  /** A bundle that is abandoned for another run leaves the window to it: that run can
      begin at once and, undisturbed, closes the window it finds. */
  lemma AbandonedWindowIsTakenUp(w: World, b: Bundle, c: Bundle, n: nat)
    requires Inv(w) && Enabled(w, Abandon(b, true)) && Window(w.rows) != [] && n >= 1
    requires c !in w.packs || c == b
    ensures var u := Do(w, Abandon(b, true));
      && u.rows == w.rows && Enabled(u, Begin(c))
      && Window(Do(Do(u, Begin(c)), Persist(c, n)).rows) == []
      && forall k | 0 <= k < |Window(w.rows)| :: RoundedUp(w.rows, Do(Do(u, Begin(c)), Persist(c, n)).rows, k)
  {
    StepKeepsInvariant(w, Abandon(b, true));
    BundleDeliversItsPack(Do(w, Abandon(b, true)), c, n);
  }

  lemma BundleRows(w: World, b: Bundle, n: nat)
    requires Enabled(w, Begin(b)) && Window(w.rows) != [] && n >= 1
    ensures var v := Do(Do(w, Begin(b)), Persist(b, n));
      v.rows == Answered(Skipped(w.rows, Outside(w.rows)), Pack(w.rows)) + Replies(w.next, n) && v.packs == w.packs
  {
  }

  lemma PackDelivers(rows: seq<Row>, later: seq<Row>, after: seq<Row>, k: nat)
    requires k < |Window(rows)| && after == Answered(Skipped(rows, Outside(rows)), Pack(rows)) + later
    ensures RoundedUp(rows, after, k)
  {
    PackIsTheEnd(rows, k);
    assert Window(rows)[k] in Window(rows) && Open(rows, Window(rows)[k]);
    AnsweredRow(Skipped(rows, Outside(rows)), Pack(rows), later, Window(rows)[k]);
  }

  lemma AnsweredRow(rows: seq<Row>, ids: seq<nat>, later: seq<Row>, i: nat)
    requires i < |rows| && rows[i].User?
    ensures var r := (Answered(rows, ids) + later)[i];
      r.User? && r.status == if i in ids then Delivered else rows[i].status
  {
  }

  lemma PackIsTheEnd(rows: seq<Row>, k: nat)
    requires k < |Window(rows)|
    ensures Window(rows)[k] in Pack(rows) <==> k >= |Window(rows)| - 10
  {
    var open, pack := Window(rows), Pack(rows);
    var skip := |open| - |pack|;
    assert pack == open[skip..];
    if k >= skip {
      assert pack[k - skip] == open[k];
    } else {
      forall m | 0 <= m < |pack| ensures pack[m] != open[k] { assert pack[m] == open[skip + m]; }
    }
  }

  /** Rows of a window longer than ten that a bundle answers are never delivered:
      everything but the last ten leaves the window as it is, for ever. */
  lemma OverflowIsNeverAnswered(w: World, b: Bundle, n: nat, steps: seq<Step>, v: World, k: nat)
    requires Inv(w) && w.packs == map[] && Enabled(w, Begin(b)) && n >= 1
    requires k < |Window(w.rows)| - 10 && Run(Do(Do(w, Begin(b)), Persist(b, n)), steps, v)
    ensures var i := Window(w.rows)[k];
      && i < |w.rows| && w.rows[i].User? && i < |v.rows| && v.rows[i].User?
      && v.rows[i].status == w.rows[i].status && v.rows[i].status != Delivered && !Open(v.rows, i)
  {
    var u := Do(Do(w, Begin(b)), Persist(b, n));
    var i := Window(w.rows)[k];
    BundleDeliversItsPack(w, b, n);
    assert RoundedUp(w.rows, u.rows, k);
    assert i in Window(w.rows) && Open(w.rows, i) && i !in Window(u.rows);
    LeftBehindStays(u, steps, v, i);
    LeftRowsStayOut(u, steps, v, i);
  }

  // ------------------------------------------------------------------ lock-out

  /** Five or more open rows, no failure to resend, not all pending, and nothing
      admitted, running or about to run. */
  predicate LockedOut(w: World) {
    && w.packs == map[] && w.scheduled == 0 && w.admitted == 0 && w.resends == 0
    && ShouldBlock(w.rows) && !OnlyPending(w.rows)
  }

  /** Whatever the user and the bundles do from here on, the rows stay as they are
      and no bundle ever begins or ends. */
  ghost predicate NothingHelps(w: World) {
    forall steps, v | Run(w, steps, v) :: v.rows == w.rows && v.scheduled == w.scheduled && v.packs == w.packs
  }

  lemma LockedStep(w: World, s: Step)
    requires LockedOut(w) && Enabled(w, s)
    ensures LockedOut(Do(w, s)) && Do(w, s).rows == w.rows
  {
  }

  lemma {:induction false} LockedOutForEver(w: World, steps: seq<Step>, v: World)
    requires LockedOut(w) && Run(w, steps, v)
    ensures LockedOut(v) && v.rows == w.rows
    decreases |steps|
  {
    if steps != [] {
      LockedStep(w, steps[0]);
      LockedOutForEver(Do(w, steps[0]), steps[1..], v);
    }
  }

  lemma OneStep(w: World, s: Step)
    requires Enabled(w, s)
    ensures Run(w, [s], Do(w, s))
  {
    assert [s][1..] == [];
    assert Run(Do(w, s), [], Do(w, s));
  }

  lemma TwoSteps(w: World, s: Step, t: Step)
    requires Enabled(w, s) && Enabled(Do(w, s), t)
    ensures Run(w, [s, t], Do(Do(w, s), t))
  {
    OneStep(Do(w, s), t);
    assert [s, t][1..] == [t];
  }

  lemma RunsHelp(w: World)
    requires w.packs != map[] || w.scheduled > 0 || w.admitted > 0 || w.resends > 0
    ensures !NothingHelps(w)
  {
    if w.packs != map[] {
      var b :| b in w.packs;
      OneStep(w, Abandon(b, false));
      assert b !in Do(w, Abandon(b, false)).packs;
    } else if w.scheduled > 0 {
      OneStep(w, Drop);
    } else if w.admitted > 0 {
      OneStep(w, Insert);
    } else {
      OneStep(w, StartResend);
    }
  }

  lemma SendsHelp(w: World)
    requires !ShouldBlock(w.rows) || OnlyPending(w.rows)
    ensures !NothingHelps(w)
  {
    var u := AfterCheck(w);
    assert Do(w, CheckSend) == u && u.rows == w.rows && u.scheduled == w.scheduled;
    if !ShouldBlock(w.rows) {
      TwoSteps(w, CheckSend, Insert);
      assert |Do(u, Insert).rows| == |w.rows| + 1;
    } else {
      TwoSteps(w, CheckSend, Recover);
      assert Do(u, Recover).scheduled == w.scheduled + 1;
    }
  }

  /** The user is locked out for ever exactly in that state. */
  lemma LockedOutExactlyWhen(w: World)
    ensures NothingHelps(w) <==> LockedOut(w)
  {
    if LockedOut(w) {
      forall steps, v | Run(w, steps, v) ensures v.rows == w.rows && v.scheduled == w.scheduled && v.packs == w.packs {
        LockedOutForEver(w, steps, v);
      }
    } else if !ShouldBlock(w.rows) || OnlyPending(w.rows) {
      SendsHelp(w);
    } else {
      RunsHelp(w);
    }
  }

  /** One blocked reply to a full queue is enough. */
  lemma BlockedReplyLocksOut(w: World, b: Bundle)
    requires Inv(w) && w.scheduled == 0 && w.admitted == 0 && w.resends == 0
    requires |Window(w.rows)| >= 5 && !HasBang(w.rows) && w.packs == map[b := Pack(w.rows)]
    ensures LockedOut(Do(w, Fail(b, FailedBlocked)))
  {
    var v := Do(w, Fail(b, FailedBlocked));
    FailKeepsInvariant(w, b, FailedBlocked);
    Admission(v);
    MarkedAsBlocked(w.rows, Pack(w.rows), v.rows);
  }

  lemma MarkedAsBlocked(a: seq<Row>, ids: seq<nat>, b: seq<Row>)
    requires b == Marked(a, ids, FailedBlocked) && !HasBang(a) && ids != [] && Open(a, ids[0])
    ensures Window(b) == Window(a) && !HasBang(b) && !AllPending(b)
  {
    SameShapeSameWindow(a, b);
    assert Open(b, ids[0]) && ids[0] in ids && b[ids[0]].status == FailedBlocked;
    forall i | i in Window(b) ensures !IsBang(b[i]) { assert i in Window(a) && !IsBang(a[i]); }
  }

  // ------------------------------------------------------- filling the window

  /** A window of n pending rows with k sends admitted and nothing else going on. */
  ghost predicate Filled(w: World, n: nat, k: nat) {
    && Inv(w) && |Window(w.rows)| == n && AllPending(w.rows) && w.admitted == k && w.resends == 0
    && w.scheduled == n && w.packs == map[]
  }

  lemma OneMoreCheck(w: World, n: nat, k: nat)
    requires Filled(w, n, k) && n < 5
    ensures Filled(Do(w, CheckSend), n, k + 1) && Do(w, CheckSend).peak == if k + 1 > w.peak then k + 1 else w.peak
  {
    Admission(w);
    CheckKeepsInvariant(w);
  }

  lemma OneMoreRow(w: World, n: nat, k: nat)
    requires Filled(w, n, k + 1)
    ensures Filled(Do(w, Insert), n + 1, k) && Do(w, Insert).peak == w.peak
  {
    InsertStep(w);
    InsertKeepsInvariant(w);
    var row := User(w.next, Pending, false);
    AppendedUserOpens(w, row);
    var rows := w.rows + [row];
    forall i: nat | Open(rows, i) ensures rows[i].status == Pending { assert i < |w.rows| ==> Open(w.rows, i); }
  }

  /** Sends one after the other, up to five. */
  lemma {:induction false} SerialSends(n: nat) returns (steps: seq<Step>, w: World)
    requires n <= 5
    ensures Run(START, steps, w) && Filled(w, n, 0) && w.peak == if n == 0 then 0 else 1
  {
    if n == 0 {
      return [], START;
    }
    var before, u := SerialSends(n - 1);
    OneMoreCheck(u, n - 1, 0);
    var x := Do(u, CheckSend);
    OneMoreRow(x, n - 1, 0);
    RunThen(START, before, u, CheckSend);
    RunThen(START, before + [CheckSend], x, Insert);
    return before + [CheckSend] + [Insert], Do(x, Insert);
  }

  /** k more checks at four rows. */
  lemma {:induction false} OverlappingChecks(k: nat) returns (steps: seq<Step>, w: World)
    ensures Run(START, steps, w) && Filled(w, 4, k) && w.peak == if k == 0 then 1 else k
  {
    if k == 0 {
      steps, w := SerialSends(4);
      return;
    }
    var before, u := OverlappingChecks(k - 1);
    OneMoreCheck(u, 4, k - 1);
    RunThen(START, before, u, CheckSend);
    return before + [CheckSend], Do(u, CheckSend);
  }

  lemma {:induction false} AdmittedRows(steps: seq<Step>, w: World, n: nat, k: nat) returns (all: seq<Step>, v: World)
    requires Run(START, steps, w) && Filled(w, n, k)
    ensures Run(START, all, v) && Filled(v, n + k, 0) && v.peak == w.peak
    decreases k
  {
    if k == 0 {
      return steps, w;
    }
    OneMoreRow(w, n, k - 1);
    RunThen(START, steps, w, Insert);
    all, v := AdmittedRows(steps + [Insert], Do(w, Insert), n + 1, k - 1);
  }

  /** The bound is met: k sends that are checked before any of them writes its row
      fill the window to four more than k. */
  lemma OverlappingSendsOverfill(k: nat)
    requires k >= 1
    ensures exists steps, v :: Run(START, steps, v) && v.peak == k && AllPending(v.rows) && |Window(v.rows)| == 4 + k
  {
    var steps, w := OverlappingChecks(k);
    var all, v := AdmittedRows(steps, w, 4, k);
  }

  lemma {:induction false} RunThen(w: World, steps: seq<Step>, v: World, s: Step)
    requires Run(w, steps, v) && Enabled(v, s)
    ensures Run(w, steps + [s], Do(v, s))
    decreases |steps|
  {
    if steps == [] {
      assert [s][1..] == [];
      assert Run(Do(v, s), [], Do(v, s));
    } else {
      RunThen(Do(w, steps[0]), steps[1..], v, s);
      assert (steps + [s])[1..] == steps[1..] + [s];
    }
  }

  lemma {:induction false} DropsEmptyTheSchedule(steps: seq<Step>, w: World) returns (all: seq<Step>, v: World)
    requires Run(START, steps, w)
    ensures Run(START, all, v) && v == w.(scheduled := 0)
    decreases w.scheduled
  {
    if w.scheduled == 0 {
      return steps, w;
    }
    RunThen(START, steps, w, Drop);
    all, v := DropsEmptyTheSchedule(steps + [Drop], Do(w, Drop));
  }

  /** Five sends and one blocked reply lock a new user out. */
  lemma LockOutIsReachable()
    ensures exists steps, v :: Run(START, steps, v) && LockedOut(v)
  {
    var steps, w := SerialSends(5);
    FullQueueLocksOut(steps, w);
  }

  lemma FullQueueLocksOut(steps: seq<Step>, w: World)
    requires Run(START, steps, w) && Filled(w, 5, 0)
    ensures exists steps, v :: Run(START, steps, v) && LockedOut(v)
  {
    BeginFive(w);
    var u := Do(w, Begin(0));
    RunThen(START, steps, w, Begin(0));
    var all, idle := DropsEmptyTheSchedule(steps + [Begin(0)], u);
    AllPendingNoBang(w.rows);
    BlockedReplyLocksOut(idle, 0);
    RunThen(START, all, idle, Fail(0, FailedBlocked));
  }

  lemma BeginFive(w: World)
    requires Inv(w) && w.packs == map[] && w.scheduled > 0 && |Window(w.rows)| == 5
    ensures var u := Do(w, Begin(0));
      Inv(u) && u.rows == w.rows && u.packs == map[0 := Pack(w.rows)]
  {
    BeginKeepsInvariant(w, 0);
    assert Skipped(w.rows, []) == w.rows;
  }
}
