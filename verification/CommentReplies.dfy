/** Delayed replies to comments: the same claim-and-commit machine as the notices,
    with the reply kept in the row, and two actions of the administrator that look at
    no status: regenerating the reply, and writing it by hand. The latter reads the
    row, sets reply and status, and commits later the columns that this changed. */
module CommentReplies {
  import opened Results

  type Id = nat
  type Worker = nat

  datatype Status = Pending | Generating | Ready | Failed

  datatype Row = Row(status: Status, reply: Option<string>)

  type Table = map<Id, Row>

  const ATTEMPTS := 3

  // ------------------------------------------------------------- transactions

  predicate CanClaim(t: Table, id: Id) {
    id in t && t[id].status == Pending
  }

  function Claimed(t: Table, id: Id): Table {
    if CanClaim(t, id) then t[id := t[id].(status := Generating)] else t
  }

  function MarkedReady(t: Table, id: Id, reply: string): Table {
    if id in t then t[id := Row(Ready, Some(reply))] else t
  }

  function MarkedFailed(t: Table, id: Id): Table {
    if id in t then t[id := t[id].(status := Failed)] else t
  }

  function Regenerated(t: Table, id: Id): Table {
    if id in t then t[id := Row(Pending, None)] else t
  }

  /** A reply written by hand over a row as it was read. */
  datatype Edit = Edit(id: Id, seen: Row, reply: string)

  /** The commit of an edit writes a column only if it differs from what was read. */
  function Edited(t: Table, e: Edit): Table {
    if e.id !in t then t
    else
      t[e.id := Row(
          if e.seen.status == Ready then t[e.id].status else Ready,
          if e.seen.reply == Some(e.reply) then t[e.id].reply else Some(e.reply))]
  }

  /** The first non-empty answer among the attempts, if it is safe. */
  function Generated(answers: seq<string>, safe: string -> bool, n: nat): Option<string>
    requires n <= |answers|
    decreases |answers| - n
  {
    if n == |answers| then None
    else if answers[n] != "" then (if safe(answers[n]) then Some(answers[n]) else None)
    else Generated(answers, safe, n + 1)
  }

  /** The k-th answer is the reply: the first that is not empty, and safe. */
  predicate IsReply(answers: seq<string>, safe: string -> bool, k: nat) {
    k < |answers| && answers[k] != "" && safe(answers[k]) && forall j | 0 <= j < k :: answers[j] == ""
  }

  lemma {:induction false} GeneratedIsTheReply(answers: seq<string>, safe: string -> bool, n: nat)
    requires n <= |answers| && forall j | 0 <= j < n :: answers[j] == ""
    ensures Generated(answers, safe, n).Some? <==> exists k: nat :: IsReply(answers, safe, k)
    ensures forall k: nat | IsReply(answers, safe, k) :: Generated(answers, safe, n) == Some(answers[k])
    decreases |answers| - n
  {
    if n < |answers| {
      if answers[n] == "" {
        GeneratedIsTheReply(answers, safe, n + 1);
      } else {
        assert safe(answers[n]) ==> IsReply(answers, safe, n);
      }
    }
  }

  class ReplyService {
    var rows: Table

    constructor ()
      ensures rows == map[]
    {
      rows := map[];
    }

    method Claim(id: Id) returns (won: bool)
      modifies this
      ensures won == CanClaim(old(rows), id) && rows == Claimed(old(rows), id)
    {
      won := id in rows && rows[id].status == Pending;
      if won {
        rows := rows[id := rows[id].(status := Generating)];
      }
    }

    method MarkReady(id: Id, reply: string)
      modifies this
      ensures rows == MarkedReady(old(rows), id, reply)
    {
      if id in rows {
        rows := rows[id := Row(Ready, Some(reply))];
      }
    }

    method MarkFailed(id: Id)
      modifies this
      ensures rows == MarkedFailed(old(rows), id)
    {
      if id in rows {
        rows := rows[id := rows[id].(status := Failed)];
      }
    }

    method Regenerate(id: Id)
      modifies this
      ensures rows == Regenerated(old(rows), id)
    {
      if id in rows {
        rows := rows[id := Row(Pending, None)];
      }
    }

    method StartEdit(id: Id, reply: string) returns (e: Option<Edit>)
      ensures e == if id in rows then Some(Edit(id, rows[id], reply)) else None
    {
      return if id in rows then Some(Edit(id, rows[id], reply)) else None;
    }

    method CommitEdit(e: Edit)
      modifies this
      ensures rows == Edited(old(rows), e)
    {
      if e.id in rows {
        var row := rows[e.id];
        if e.seen.status != Ready {
          row := row.(status := Ready);
        }
        if e.seen.reply != Some(e.reply) {
          row := row.(reply := Some(e.reply));
        }
        rows := rows[e.id := row];
      }
    }

    /** An edit that nobody disturbs leaves the row ready with the new reply, if the
        row was consistent. */
    method EditAtOnce(id: Id, reply: string)
      requires id in rows && (rows[id].reply.Some? <==> rows[id].status == Ready)
      modifies this
      ensures rows == MarkedReady(old(rows), id, reply)
    {
      var e := StartEdit(id, reply);
      CommitEdit(e.value);
    }

    /** One comment by a worker nobody disturbs; `answers` are the stripped texts of
        the attempts, empty where one failed. A pending comment gets the reply and is
        ready, or without one fails with what reply it had. */
    method ConsumeOne(id: Id, answers: seq<string>, safe: string -> bool) returns (done: bool)
      requires |answers| == ATTEMPTS
      modifies this
      ensures var reply := Generated(answers, safe, 0);
        && done == (CanClaim(old(rows), id) && reply.Some?)
        && rows == if !CanClaim(old(rows), id) then old(rows)
                   else if reply.Some? then MarkedReady(Claimed(old(rows), id), id, reply.value)
                   else MarkedFailed(Claimed(old(rows), id), id)
      ensures done <==> old(id in rows && rows[id].status == Pending) && exists k: nat :: IsReply(answers, safe, k)
      ensures done ==>
        forall k: nat | IsReply(answers, safe, k) :: rows == old(rows)[id := Row(Ready, Some(answers[k]))]
      ensures !done ==>
        if old(id in rows && rows[id].status == Pending) then rows == old(rows[id := Row(Failed, rows[id].reply)])
        else rows == old(rows)
    {
      GeneratedIsTheReply(answers, safe, 0);
      var won := Claim(id);
      if !won {
        return false;
      }
      var attempt := 0;
      while attempt < |answers| && answers[attempt] == ""
        invariant attempt <= |answers| && Generated(answers, safe, attempt) == Generated(answers, safe, 0)
      {
        attempt := attempt + 1;
      }
      if attempt == |answers| || !safe(answers[attempt]) {
        MarkFailed(id);
        return false;
      }
      MarkReady(id, answers[attempt]);
      return true;
    }
  }

  // ----------------------------------------------------------------- protocol

  datatype Hand = Hand(todo: seq<Id>, holding: Option<Id>)

  type Admin = nat

  datatype World = World(rows: Table, hands: map<Worker, Hand>, edits: map<Admin, Edit>)

  datatype Step =
    | Comment(id: Id)
    | Poll(w: Worker, ids: seq<Id>)
    | Claim(w: Worker)
    | Finish(w: Worker, reply: string)
    | Fail(w: Worker)
    | Abort(w: Worker)
    | Crash(w: Worker)
    | Regenerate(id: Id, w: Worker)
    | StartEdit(a: Admin, id: Id, reply: string)
    | CommitEdit(a: Admin)

  const START := World(map[], map[], map[])

  predicate Holds(w: World, k: Worker) {
    k in w.hands && w.hands[k].holding.Some?
  }

  /** Some worker is generating a reply for the row. */
  ghost predicate Held(w: World, id: Id) {
    exists k :: Holds(w, k) && w.hands[k].holding.value == id
  }

  predicate Enabled(w: World, s: Step) {
    match s
    case Comment(id) => id !in w.rows
    case Poll(k, ids) => k !in w.hands && forall id <- ids :: CanClaim(w.rows, id)
    case Claim(k) => k in w.hands && w.hands[k].holding.None? && w.hands[k].todo != []
    case Finish(k, _) => Holds(w, k)
    case Fail(k) => Holds(w, k)
    case Abort(k) => Holds(w, k)
    case Crash(k) => k in w.hands
    case Regenerate(id, k) => id in w.rows && k !in w.hands
    case StartEdit(a, id, _) => id in w.rows && a !in w.edits
    case CommitEdit(a) => a in w.edits
  }

  function Freed(w: World, k: Worker): map<Worker, Hand>
    requires k in w.hands
  {
    w.hands[k := w.hands[k].(holding := None)]
  }

  /** Regenerating also starts a worker for the row. */
  function Do(w: World, s: Step): World
    requires Enabled(w, s)
  {
    match s
    case Comment(id) => w.(rows := w.rows[id := Row(Pending, None)])
    case Poll(k, ids) => w.(hands := w.hands[k := Hand(ids, None)])
    case Claim(k) =>
      var id := w.hands[k].todo[0];
      w.(rows := Claimed(w.rows, id),
         hands := w.hands[k := Hand(w.hands[k].todo[1..], if CanClaim(w.rows, id) then Some(id) else None)])
    case Finish(k, reply) => w.(rows := MarkedReady(w.rows, w.hands[k].holding.value, reply), hands := Freed(w, k))
    case Fail(k) => w.(rows := MarkedFailed(w.rows, w.hands[k].holding.value), hands := Freed(w, k))
    case Abort(k) => w.(hands := Freed(w, k))
    case Crash(k) => w.(hands := w.hands - {k})
    case Regenerate(id, k) => w.(rows := Regenerated(w.rows, id), hands := w.hands[k := Hand([id], None)])
    case StartEdit(a, id, reply) => w.(edits := w.edits[a := Edit(id, w.rows[id], reply)])
    case CommitEdit(a) => w.(rows := Edited(w.rows, w.edits[a]), edits := w.edits - {a})
  }

  predicate IsAdmin(s: Step) {
    s.Regenerate? || s.CommitEdit?
  }

  /** Committing the edit does no harm: it has nothing to write; or it writes only
      the reply, as the row was read ready, and the row is ready now; or it writes
      both, and no worker holds the row. */
  ghost predicate EditIsHarmless(w: World, e: Edit) {
    || e.seen == Row(Ready, Some(e.reply))
    || (e.seen.status == Ready && e.id in w.rows && w.rows[e.id].status == Ready)
    || (e.seen.status != Ready && !Held(w, e.id))
  }

  /** The administrator regenerates no row in work and commits no harmful edit. */
  ghost predicate Careful(w: World, s: Step)
    requires Enabled(w, s)
  {
    match s
    case Regenerate(id, _) => !Held(w, id)
    case CommitEdit(a) => EditIsHarmless(w, w.edits[a])
    case _ => true
  }

  ghost predicate CarefulRun(w: World, steps: seq<Step>, v: World)
    decreases |steps|
  {
    if steps == [] then v == w
    else Enabled(w, steps[0]) && Careful(w, steps[0]) && CarefulRun(Do(w, steps[0]), steps[1..], v)
  }

  // ---------------------------------------------------------------- invariant

  /** A row has a reply exactly when it is ready. */
  ghost predicate ReplyIffReady(w: World) {
    forall id | id in w.rows :: w.rows[id].reply.Some? <==> w.rows[id].status == Ready
  }

  ghost predicate OneHolder(w: World) {
    && (forall k, l | Holds(w, k) && Holds(w, l) && w.hands[k].holding == w.hands[l].holding :: k == l)
    && (forall k | Holds(w, k) ::
          var id := w.hands[k].holding.value; id in w.rows && w.rows[id] == Row(Generating, None))
  }

  /** What an edit has read was consistent. */
  ghost predicate EditsConsistent(w: World) {
    forall a | a in w.edits ::
      w.edits[a].id in w.rows && (w.edits[a].seen.reply.Some? <==> w.edits[a].seen.status == Ready)
  }

  ghost predicate Inv(w: World) {
    OneHolder(w) && ReplyIffReady(w) && EditsConsistent(w)
  }

  lemma ClaimKeepsInvariant(w: World, k: Worker)
    requires Inv(w) && Enabled(w, Claim(k))
    ensures Inv(Do(w, Claim(k)))
  {
    var v, id := Do(w, Claim(k)), w.hands[k].todo[0];
    assert forall l | l != k :: Holds(v, l) == Holds(w, l);
    assert Holds(v, k) == CanClaim(w.rows, id);
  }

  lemma WorkerKeepsInvariant(w: World, s: Step)
    requires Inv(w) && Enabled(w, s) && (s.Poll? || s.Finish? || s.Fail? || s.Abort? || s.Crash?)
    ensures Inv(Do(w, s))
  {
    var v := Do(w, s);
    assert forall l | Holds(v, l) :: l != s.w && Holds(w, l) && v.hands[l] == w.hands[l];
  }

  lemma RowStepKeepsInvariant(w: World, s: Step)
    requires Inv(w) && Enabled(w, s) && Careful(w, s) && (s.Comment? || s.StartEdit? || IsAdmin(s))
    ensures Inv(Do(w, s))
  {
    var v := Do(w, s);
    assert forall l | Holds(v, l) :: Holds(w, l) && v.hands[l] == w.hands[l];
  }

  lemma StepKeepsInvariant(w: World, s: Step)
    requires Inv(w) && Enabled(w, s) && Careful(w, s)
    ensures Inv(Do(w, s))
  {
    match s {
      case Claim(k) => ClaimKeepsInvariant(w, k);
      case Comment(_) => RowStepKeepsInvariant(w, s);
      case Regenerate(_, _) => RowStepKeepsInvariant(w, s);
      case StartEdit(_, _, _) => RowStepKeepsInvariant(w, s);
      case CommitEdit(_) => RowStepKeepsInvariant(w, s);
      case _ => WorkerKeepsInvariant(w, s);
    }
  }

  /** Any number of workers, crashes and careful administration: at every moment
      exactly the ready rows have a reply, and a row in work has one worker. */
  lemma {:induction false} CarefulRunsKeepInvariant(w: World, steps: seq<Step>, v: World)
    requires Inv(w) && CarefulRun(w, steps, v)
    ensures Inv(v)
    decreases |steps|
  {
    if steps != [] {
      StepKeepsInvariant(w, steps[0]);
      CarefulRunsKeepInvariant(Do(w, steps[0]), steps[1..], v);
    }
  }

  // ------------------------------------------------------- careless administration

  /** After the step every careful run keeps replies with ready rows. */
  ghost predicate SafeAfter(w: World, s: Step)
    requires Enabled(w, s)
  {
    forall steps, v | CarefulRun(Do(w, s), steps, v) :: ReplyIffReady(v)
  }

  /** The worker's failure after a full overwrite leaves the reply of a failed row. */
  lemma OverwriteBreaks(w: World, a: Admin, k: Worker)
    requires Inv(w) && a in w.edits && w.edits[a].seen.status != Ready
    requires Holds(w, k) && w.hands[k].holding.value == w.edits[a].id
    ensures !SafeAfter(w, CommitEdit(a))
  {
    var id, reply := w.edits[a].id, w.edits[a].reply;
    var u := Do(w, CommitEdit(a));
    var v := Do(u, Fail(k));
    assert v.rows[id] == Row(Failed, Some(reply));
    CarefulBack(u, Fail(k), [], v);
  }

  /** A reply written alone over a row that is no longer ready. */
  lemma StaleEditBreaks(w: World, a: Admin)
    requires Inv(w) && a in w.edits && w.edits[a].seen.status == Ready
      && w.edits[a].seen.reply != Some(w.edits[a].reply)
    requires w.rows[w.edits[a].id].status != Ready
    ensures !ReplyIffReady(Do(w, CommitEdit(a))) && !SafeAfter(w, CommitEdit(a))
  {
    var v := Do(w, CommitEdit(a));
    assert v.rows[w.edits[a].id].reply.Some? && v.rows[w.edits[a].id].status != Ready;
    assert CarefulRun(v, [], v);
  }

  /** The old worker's reply survives under the failure of the new one. */
  lemma RegenerateBreaks(w: World, id: Id, newcomer: Worker, k: Worker)
    requires Inv(w) && Enabled(w, Regenerate(id, newcomer)) && Holds(w, k) && w.hands[k].holding.value == id
    ensures !SafeAfter(w, Regenerate(id, newcomer))
  {
    var u := Do(w, Regenerate(id, newcomer));
    var u1 := Do(u, Claim(newcomer));
    var u2 := Do(u1, Finish(k, "late"));
    var v := Do(u2, Fail(newcomer));
    assert v.rows[id] == Row(Failed, Some("late"));
    CarefulBack(u2, Fail(newcomer), [], v);
    CarefulBack(u1, Finish(k, "late"), [Fail(newcomer)] + [], v);
    CarefulBack(u, Claim(newcomer), [Finish(k, "late")] + ([Fail(newcomer)] + []), v);
  }

  lemma CarefulBack(w: World, s: Step, steps: seq<Step>, v: World)
    requires Enabled(w, s) && Careful(w, s) && CarefulRun(Do(w, s), steps, v)
    ensures CarefulRun(w, [s] + steps, v)
  {
    assert ([s] + steps)[1..] == steps;
  }

  /** Regenerating is safe exactly when no worker holds the row; committing an edit
      exactly when it is harmless as said above. The code looks at neither. */
  lemma AdminStepIsSafeExactlyWhen(w: World, s: Step)
    requires Inv(w) && Enabled(w, s) && IsAdmin(s)
    ensures SafeAfter(w, s) <==> Careful(w, s)
  {
    if Careful(w, s) {
      StepKeepsInvariant(w, s);
      forall steps, v | CarefulRun(Do(w, s), steps, v) ensures ReplyIffReady(v) {
        CarefulRunsKeepInvariant(Do(w, s), steps, v);
      }
    } else {
      match s {
        case Regenerate(id, newcomer) =>
          var k :| Holds(w, k) && w.hands[k].holding.value == id;
          RegenerateBreaks(w, id, newcomer, k);
        case CommitEdit(a) =>
          if w.edits[a].seen.status == Ready {
            StaleEditBreaks(w, a);
          } else {
            var k :| Holds(w, k) && w.hands[k].holding.value == w.edits[a].id;
            OverwriteBreaks(w, a, k);
          }
      }
    }
  }

  /** A guard the actions could test on the row itself: it is not generating, and for
      an edit it is still as it was read. */
  predicate GuardPasses(w: World, s: Step) {
    match s
    case Regenerate(id, _) => id in w.rows && w.rows[id].status != Generating
    case CommitEdit(a) =>
      a in w.edits && w.edits[a].id in w.rows && w.rows[w.edits[a].id] == w.edits[a].seen
      && w.edits[a].seen.status != Generating
    case _ => true
  }

  lemma GuardMakesItSafe(w: World, s: Step)
    requires Inv(w) && Enabled(w, s) && IsAdmin(s) && GuardPasses(w, s)
    ensures SafeAfter(w, s)
  {
    AdminStepIsSafeExactlyWhen(w, s);
  }

  /** The worlds that careful runs reach from the start. */
  ghost predicate Reachable(w: World) {
    exists steps :: CarefulRun(START, steps, w)
  }

  lemma ReachableStep(w: World, s: Step)
    requires Reachable(w) && Enabled(w, s) && Careful(w, s)
    ensures Reachable(Do(w, s))
  {
    var steps :| CarefulRun(START, steps, w);
    CarefulThen(START, steps, w, s);
  }

  lemma {:induction false} CarefulThen(w: World, steps: seq<Step>, v: World, s: Step)
    requires CarefulRun(w, steps, v) && Enabled(v, s) && Careful(v, s)
    ensures CarefulRun(w, steps + [s], Do(v, s))
    decreases |steps|
  {
    if steps == [] {
      assert [s][1..] == [];
      assert CarefulRun(Do(v, s), [], Do(v, s));
    } else {
      CarefulThen(Do(w, steps[0]), steps[1..], v, s);
      assert (steps + [s])[1..] == steps[1..] + [s];
    }
  }

  /** A comment, an edit begun while it is pending, and a poll. */
  lemma PolledIsReachable(id: Id, k: Worker, a: Admin, reply: string) returns (w: World)
    ensures w.rows == map[id := Row(Pending, None)] && w.hands == map[k := Hand([id], None)]
    ensures w.edits == map[a := Edit(id, Row(Pending, None), reply)]
    ensures Reachable(w)
  {
    assert CarefulRun(START, [], START);
    ReachableStep(START, Comment(id));
    var w1 := World(map[id := Row(Pending, None)], map[], map[]);
    assert Do(START, Comment(id)) == w1;
    ReachableStep(w1, StartEdit(a, id, reply));
    var w2 := w1.(edits := map[a := Edit(id, Row(Pending, None), reply)]);
    assert Do(w1, StartEdit(a, id, reply)) == w2;
    ReachableStep(w2, Poll(k, [id]));
    w := w2.(hands := map[k := Hand([id], None)]);
    assert Do(w2, Poll(k, [id])) == w;
  }

  /** And the claim. */
  lemma GeneratingIsReachable(id: Id, k: Worker, a: Admin, reply: string) returns (w: World)
    ensures w.rows == map[id := Row(Generating, None)] && w.hands == map[k := Hand([], Some(id))]
    ensures w.edits == map[a := Edit(id, Row(Pending, None), reply)]
    ensures Inv(w) && Reachable(w) && Held(w, id)
  {
    var polled := PolledIsReachable(id, k, a, reply);
    ReachableStep(polled, Claim(k));
    w := World(map[id := Row(Generating, None)], map[k := Hand([], Some(id))], polled.edits);
    assert Do(polled, Claim(k)) == w by { assert [id][1..] == []; }
    assert Holds(w, k) && w.hands[k].holding.value == id;
  }

  lemma CrashLeavesTheRow(id: Id, k: Worker, a: Admin, reply: string) returns (v: World)
    ensures v.rows == map[id := Row(Generating, None)] && v.hands == map[]
    ensures v.edits == map[a := Edit(id, Row(Pending, None), reply)]
    ensures Reachable(v) && Inv(v) && !Held(v, id)
  {
    var w := GeneratingIsReachable(id, k, a, reply);
    ReachableStep(w, Crash(k));
    v := w.(hands := map[]);
    assert Do(w, Crash(k)) == v by { assert w.hands - {k} == map[]; }
    assert forall l :: !Holds(v, l);
  }

  /** Two reachable worlds with one table, a row of it generating, and the same edits,
      in which the step is safe and is not. */
  ghost predicate Undecided(w: World, v: World, s: Step, id: Id) {
    && Reachable(w) && Reachable(v) && w.rows == v.rows && w.edits == v.edits
    && id in w.rows && w.rows[id].status == Generating
    && Enabled(w, s) && Enabled(v, s) && IsAdmin(s) && !SafeAfter(w, s) && SafeAfter(v, s)
  }

  /** On a generating row the table does not tell: regenerating it, or overwriting it
      after having read it as pending, is safe after a crash and unsafe while the
      worker is at work. */
  lemma TheTableDoesNotTell(id: Id, k: Worker, newcomer: Worker, a: Admin, reply: string)
    requires newcomer != k
    ensures exists w, v :: Undecided(w, v, Regenerate(id, newcomer), id) && Undecided(w, v, CommitEdit(a), id)
  {
    var w := GeneratingIsReachable(id, k, a, reply);
    var v := CrashLeavesTheRow(id, k, a, reply);
    AdminStepIsSafeExactlyWhen(w, Regenerate(id, newcomer));
    AdminStepIsSafeExactlyWhen(v, Regenerate(id, newcomer));
    AdminStepIsSafeExactlyWhen(w, CommitEdit(a));
    AdminStepIsSafeExactlyWhen(v, CommitEdit(a));
    assert Undecided(w, v, Regenerate(id, newcomer), id) && Undecided(w, v, CommitEdit(a), id);
  }

  /** A row that is ready with a first reply, an edit of it begun, and the row
      regenerated since; no worker holds it. */
  lemma StaleEditIsReachable(id: Id, k: Worker, newcomer: Worker, a: Admin, first: string, reply: string)
    returns (w: World)
    requires newcomer != k && first != reply
    ensures Inv(w) && Reachable(w) && !Held(w, id) && a in w.edits
    ensures w.rows == map[id := Row(Pending, None)] && w.edits[a] == Edit(id, Row(Ready, Some(first)), reply)
  {
    assert CarefulRun(START, [], START);
    ReachableStep(START, Comment(id));
    var w1 := World(map[id := Row(Pending, None)], map[], map[]);
    assert Do(START, Comment(id)) == w1;
    ReachableStep(w1, Poll(k, [id]));
    var w2 := w1.(hands := map[k := Hand([id], None)]);
    assert Do(w1, Poll(k, [id])) == w2;
    ReachableStep(w2, Claim(k));
    var w3 := World(map[id := Row(Generating, None)], map[k := Hand([], Some(id))], map[]);
    assert Do(w2, Claim(k)) == w3 by { assert [id][1..] == []; }
    w := RegeneratedSinceRead(w3, id, k, newcomer, a, first, reply);
  }

  lemma RegeneratedSinceRead(
    w3: World, id: Id, k: Worker, newcomer: Worker, a: Admin, first: string, reply: string) returns (w: World)
    requires Reachable(w3) && newcomer != k
    requires w3 == World(map[id := Row(Generating, None)], map[k := Hand([], Some(id))], map[])
    ensures Inv(w) && Reachable(w) && !Held(w, id) && a in w.edits
    ensures w.rows == map[id := Row(Pending, None)] && w.edits[a] == Edit(id, Row(Ready, Some(first)), reply)
  {
    ReachableStep(w3, Finish(k, first));
    var w4 := World(map[id := Row(Ready, Some(first))], map[k := Hand([], None)], map[]);
    assert Do(w3, Finish(k, first)) == w4;
    ReachableStep(w4, StartEdit(a, id, reply));
    var w5 := w4.(edits := map[a := Edit(id, Row(Ready, Some(first)), reply)]);
    assert Do(w4, StartEdit(a, id, reply)) == w5;
    assert forall l :: !Holds(w5, l);
    ReachableStep(w5, Regenerate(id, newcomer));
    w := World(map[id := Row(Pending, None)], map[k := Hand([], None)][newcomer := Hand([id], None)], w5.edits);
    assert Do(w5, Regenerate(id, newcomer)) == w;
    assert forall l :: !Holds(w, l);
  }

  /** In this world nobody holds the row, and committing the edit of `a` leaves the row
      pending with a reply. */
  ghost predicate LeavesAReply(w: World, a: Admin, id: Id, reply: string) {
    && Enabled(w, CommitEdit(a)) && !Held(w, id)
    && Do(w, CommitEdit(a)).rows == map[id := Row(Pending, Some(reply))]
  }

  /** Committing that edit leaves a pending row with a reply, although no worker held
      the row at any time since it was read. */
  lemma StaleEditLeavesAReply(id: Id, k: Worker, newcomer: Worker, a: Admin, first: string, reply: string)
    requires newcomer != k && first != reply
    ensures exists w :: Reachable(w) && LeavesAReply(w, a, id, reply)
  {
    var w := StaleEditIsReachable(id, k, newcomer, a, first, reply);
    assert LeavesAReply(w, a, id, reply) by {
      assert Do(w, CommitEdit(a)).rows == map[id := Row(Pending, Some(reply))];
    }
  }
}
