/** The queue of delayed notices. Workers poll for pending rows, claim one at a time
    by a conditional update, generate outside any transaction, and then commit the
    message together with the row, or mark the row failed. Workers interleave and
    may crash anywhere; failed rows can be put back, and any row can be deleted. */
module AwareQueue {
  import opened Results

  type Id = nat
  type Worker = nat

  datatype Status = Pending | Generating | Sent | Failed

  datatype Row = Row(status: Status, message: Option<Id>)

  /** A message and the queue row it was generated for. */
  datatype Tables = Tables(rows: map<Id, Row>, messages: map<Id, Id>)

  // ------------------------------------------------------------- transactions

  predicate CanClaim(t: Tables, id: Id) {
    id in t.rows && t.rows[id].status == Pending
  }

  function Claimed(t: Tables, id: Id): Tables {
    if CanClaim(t, id) then t.(rows := t.rows[id := t.rows[id].(status := Generating)]) else t
  }

  function Delivered(t: Tables, id: Id, message: Id): Tables {
    Tables(if id in t.rows then t.rows[id := Row(Sent, Some(message))] else t.rows, t.messages[message := id])
  }

  function MarkedFailed(t: Tables, id: Id): Tables {
    if id in t.rows then t.(rows := t.rows[id := t.rows[id].(status := Failed)]) else t
  }

  function Retried(t: Tables, id: Id): Tables {
    if id in t.rows && t.rows[id].status == Failed then t.(rows := t.rows[id := t.rows[id].(status := Pending)]) else t
  }

  class QueueService {
    var rows: map<Id, Row>
    var messages: map<Id, Id>

    ghost function State(): Tables reads this { Tables(rows, messages) }

    constructor ()
      ensures State() == Tables(map[], map[])
    {
      rows, messages := map[], map[];
    }

    method Enqueue(id: Id)
      requires id !in rows
      modifies this`rows
      ensures State() == old(State()).(rows := old(rows)[id := Row(Pending, None)])
    {
      rows := rows[id := Row(Pending, None)];
    }

    /** The conditional update; at most one caller wins. */
    method Claim(id: Id) returns (won: bool)
      modifies this`rows
      ensures won == CanClaim(old(State()), id) && State() == Claimed(old(State()), id)
    {
      won := id in rows && rows[id].status == Pending;
      if won {
        rows := rows[id := rows[id].(status := Generating)];
      }
    }

    method Deliver(id: Id, message: Id)
      modifies this
      ensures State() == Delivered(old(State()), id, message)
    {
      messages := messages[message := id];
      if id in rows {
        rows := rows[id := Row(Sent, Some(message))];
      }
    }

    method MarkFailed(id: Id)
      modifies this`rows
      ensures State() == MarkedFailed(old(State()), id)
    {
      if id in rows {
        rows := rows[id := rows[id].(status := Failed)];
      }
    }

    method Retry(id: Id)
      modifies this`rows
      ensures State() == Retried(old(State()), id)
    {
      if id in rows && rows[id].status == Failed {
        rows := rows[id := rows[id].(status := Pending)];
      }
    }

    /** One record by a worker nobody disturbs. Without a text it fails. */
    method ConsumeRecord(id: Id, text: bool, message: Id) returns (sent: bool)
      modifies this
      ensures sent == (CanClaim(old(State()), id) && text)
      ensures State() == ConsumedOne(old(State()), id, text, message)
    {
      var won := Claim(id);
      if !won {
        return false;
      }
      if !text {
        MarkFailed(id);
        return false;
      }
      Deliver(id, message);
      return true;
    }

    /** The polled ids one after the other; message k would be `from + k`. */
    method ConsumePending(ids: seq<Id>, texts: seq<bool>, from: Id) returns (processed: nat)
      requires |texts| == |ids|
      modifies this
      ensures State() == ConsumedAll(old(State()), ids, texts, from, |ids|)
      ensures processed == SentAmong(old(State()), ids, texts, from, |ids|)
    {
      processed := 0;
      for k := 0 to |ids|
        invariant State() == ConsumedAll(old(State()), ids, texts, from, k)
        invariant processed == SentAmong(old(State()), ids, texts, from, k)
      {
        var sent := ConsumeRecord(ids[k], texts[k], from + k);
        if sent {
          processed := processed + 1;
        }
      }
    }
  }

  function ConsumedOne(t: Tables, id: Id, text: bool, message: Id): Tables {
    if !CanClaim(t, id) then t
    else if text then Delivered(Claimed(t, id), id, message)
    else MarkedFailed(Claimed(t, id), id)
  }

  function ConsumedAll(t: Tables, ids: seq<Id>, texts: seq<bool>, from: Id, k: nat): Tables
    requires k <= |ids| == |texts|
  {
    if k == 0 then t else ConsumedOne(ConsumedAll(t, ids, texts, from, k - 1), ids[k - 1], texts[k - 1], from + k - 1)
  }

  function SentAmong(t: Tables, ids: seq<Id>, texts: seq<bool>, from: Id, k: nat): nat
    requires k <= |ids| == |texts|
  {
    if k == 0 then 0
    else SentAmong(t, ids, texts, from, k - 1)
         + (if CanClaim(ConsumedAll(t, ids, texts, from, k - 1), ids[k - 1]) && texts[k - 1] then 1 else 0)
  }

  /** The texts among the first k. */
  function Texts(texts: seq<bool>, k: nat): nat
    requires k <= |texts|
  {
    if k == 0 then 0 else Texts(texts, k - 1) + (if texts[k - 1] then 1 else 0)
  }

  ghost predicate Settled(t: Tables, v: Tables, ids: seq<Id>, texts: seq<bool>, from: Id, k: nat)
    requires k <= |ids| == |texts|
  {
    && v.rows.Keys == t.rows.Keys
    && (forall i | 0 <= i < k :: ids[i] in v.rows && v.rows[ids[i]] == SettledRow(t, ids[i], texts[i], from + i))
    && (forall id | id in t.rows && id !in ids[..k] :: v.rows[id] == t.rows[id])
  }

  function SettledRow(t: Tables, id: Id, text: bool, message: Id): Row {
    if text then Row(Sent, Some(message)) else Row(Failed, if id in t.rows then t.rows[id].message else None)
  }

  /** A poll nobody disturbs settles every row it found: the rows with a text are
      sent with their own message, the others failed, no other row is touched, and
      the count is the number of texts. */
  lemma {:induction false} PollSettlesItsRows(t: Tables, ids: seq<Id>, texts: seq<bool>, from: Id, k: nat)
    requires k <= |ids| == |texts|
    requires forall i | 0 <= i < |ids| :: CanClaim(t, ids[i])
    requires forall i, j | 0 <= i < j < |ids| :: ids[i] != ids[j]
    ensures Settled(t, ConsumedAll(t, ids, texts, from, k), ids, texts, from, k)
    ensures SentAmong(t, ids, texts, from, k) == Texts(texts, k)
  {
    if k == 0 {
      assert ids[..0] == [];
    } else {
      PollSettlesItsRows(t, ids, texts, from, k - 1);
      CountsOneMore(t, ids, texts, from, k);
    }
  }

  lemma CountsOneMore(t: Tables, ids: seq<Id>, texts: seq<bool>, from: Id, k: nat)
    requires 0 < k <= |ids| == |texts| && CanClaim(t, ids[k - 1]) && forall i | 0 <= i < k - 1 :: ids[i] != ids[k - 1]
    requires Settled(t, ConsumedAll(t, ids, texts, from, k - 1), ids, texts, from, k - 1)
    requires SentAmong(t, ids, texts, from, k - 1) == Texts(texts, k - 1)
    ensures Settled(t, ConsumedAll(t, ids, texts, from, k), ids, texts, from, k)
    ensures SentAmong(t, ids, texts, from, k) == Texts(texts, k)
  {
    SettlesOneMore(t, ConsumedAll(t, ids, texts, from, k - 1), ids, texts, from, k - 1);
  }

  lemma SettlesOneMore(t: Tables, u: Tables, ids: seq<Id>, texts: seq<bool>, from: Id, k: nat)
    requires k < |ids| == |texts| && CanClaim(t, ids[k]) && Settled(t, u, ids, texts, from, k)
    requires forall i | 0 <= i < k :: ids[i] != ids[k]
    ensures CanClaim(u, ids[k]) && Settled(t, ConsumedOne(u, ids[k], texts[k], from + k), ids, texts, from, k + 1)
  {
    var id := ids[k];
    assert id !in ids[..k] && ids[..k + 1] == ids[..k] + [id];
    assert u.rows[id] == t.rows[id];
  }

  /** Message `from + i` is row i's if that got a text; any other is as before. */
  predicate MessageIs(
    before: map<Id, Id>, after: map<Id, Id>, ids: seq<Id>, texts: seq<bool>, from: Id, k: nat, m: Id)
    requires k <= |ids| == |texts|
  {
    if from <= m < from + k && texts[m - from] then m in after && after[m] == ids[m - from]
    else (m in after <==> m in before) && (m in after ==> after[m] == before[m])
  }

  /** The poll writes a message for each text, for its row, and no other. */
  lemma {:induction false} PollWritesItsMessages(t: Tables, ids: seq<Id>, texts: seq<bool>, from: Id, k: nat, m: Id)
    requires k <= |ids| == |texts|
    requires forall i | 0 <= i < |ids| :: CanClaim(t, ids[i])
    requires forall i, j | 0 <= i < j < |ids| :: ids[i] != ids[j]
    ensures MessageIs(t.messages, ConsumedAll(t, ids, texts, from, k).messages, ids, texts, from, k, m)
  {
    if k > 0 {
      PollWritesItsMessages(t, ids, texts, from, k - 1, m);
      PollSettlesItsRows(t, ids, texts, from, k - 1);
      WritesOneMore(t, ids, texts, from, k, m);
    }
  }

  lemma WritesOneMore(t: Tables, ids: seq<Id>, texts: seq<bool>, from: Id, k: nat, m: Id)
    requires 0 < k <= |ids| == |texts| && CanClaim(t, ids[k - 1]) && forall i | 0 <= i < k - 1 :: ids[i] != ids[k - 1]
    requires Settled(t, ConsumedAll(t, ids, texts, from, k - 1), ids, texts, from, k - 1)
    requires MessageIs(t.messages, ConsumedAll(t, ids, texts, from, k - 1).messages, ids, texts, from, k - 1, m)
    ensures MessageIs(t.messages, ConsumedAll(t, ids, texts, from, k).messages, ids, texts, from, k, m)
  {
    SettlesOneMore(t, ConsumedAll(t, ids, texts, from, k - 1), ids, texts, from, k - 1);
  }

  // ----------------------------------------------------------------- protocol

  datatype Hand = Hand(todo: seq<Id>, holding: Option<Id>)

  /** `issued` are all ids ever enqueued. */
  datatype World = World(tables: Tables, hands: map<Worker, Hand>, issued: set<Id>)

  datatype Step =
    | Enqueue(id: Id)
    | Poll(w: Worker, ids: seq<Id>)
    | Claim(w: Worker)
    | Deliver(w: Worker, message: Id)
    | Fail(w: Worker)
    | Abort(w: Worker)
    | Crash(w: Worker)
    | Retry(id: Id)
    | Delete(id: Id)

  const START := World(Tables(map[], map[]), map[], {})

  predicate Enabled(w: World, s: Step) {
    match s
    case Enqueue(id) => id !in w.issued
    case Poll(k, ids) => k !in w.hands && forall id <- ids :: CanClaim(w.tables, id)
    case Claim(k) => k in w.hands && w.hands[k].holding.None? && w.hands[k].todo != []
    case Deliver(k, message) => Holds(w, k) && message !in w.tables.messages
    case Fail(k) => Holds(w, k)
    case Abort(k) => Holds(w, k)
    case Crash(k) => k in w.hands
    case _ => true
  }

  predicate Holds(w: World, k: Worker) {
    k in w.hands && w.hands[k].holding.Some?
  }

  function Freed(w: World, k: Worker): map<Worker, Hand>
    requires k in w.hands
  {
    w.hands[k := w.hands[k].(holding := None)]
  }

  function Do(w: World, s: Step): World
    requires Enabled(w, s)
  {
    match s
    case Enqueue(id) => 
      w.(tables := w.tables.(rows := w.tables.rows[id := Row(Pending, None)]), issued := w.issued + {id})
    case Poll(k, ids) => w.(hands := w.hands[k := Hand(ids, None)])
    case Claim(k) =>
      var id := w.hands[k].todo[0];
      w.(tables := Claimed(w.tables, id),
         hands := w.hands[k := Hand(w.hands[k].todo[1..], if CanClaim(w.tables, id) then Some(id) else None)])
    case Deliver(k, message) =>
      w.(tables := Delivered(w.tables, w.hands[k].holding.value, message), hands := Freed(w, k))
    case Fail(k) => w.(tables := MarkedFailed(w.tables, w.hands[k].holding.value), hands := Freed(w, k))
    case Abort(k) => w.(hands := Freed(w, k))
    case Crash(k) => w.(hands := w.hands - {k})
    case Retry(id) => w.(tables := Retried(w.tables, id))
    case Delete(id) => w.(tables := w.tables.(rows := w.tables.rows - {id}))
  }

  ghost predicate Run(w: World, steps: seq<Step>, v: World)
    decreases |steps|
  {
    if steps == [] then v == w else Enabled(w, steps[0]) && Run(Do(w, steps[0]), steps[1..], v)
  }

  // ---------------------------------------------------------------- invariant

  /** A row in work has one worker at most. */
  ghost predicate OneHolder(w: World) {
    && (forall k, l | Holds(w, k) && Holds(w, l) && w.hands[k].holding == w.hands[l].holding :: k == l)
    && (forall k | Holds(w, k) ::
          var id := w.hands[k].holding.value;
          id in w.issued && (id in w.tables.rows ==> w.tables.rows[id] == Row(Generating, None)))
  }

  ghost predicate AtMostOnce(w: World) {
    && (forall m, n | m in w.tables.messages && n in w.tables.messages ::
          w.tables.messages[m] == w.tables.messages[n] ==> m == n)
    && (forall k, m | Holds(w, k) && m in w.tables.messages :: w.tables.messages[m] != w.hands[k].holding.value)
  }

  ghost predicate RowsTellMessages(w: World) {
    && (forall id | id in w.tables.rows :: id in w.issued)
    && (forall m | m in w.tables.messages :: w.tables.messages[m] in w.issued)
    && (forall id | id in w.tables.rows :: w.tables.rows[id].status == Sent <==> w.tables.rows[id].message.Some?)
    && (forall id | id in w.tables.rows && w.tables.rows[id].message.Some? ::
          var m := w.tables.rows[id].message.value; m in w.tables.messages && w.tables.messages[m] == id)
    && (forall m | m in w.tables.messages && w.tables.messages[m] in w.tables.rows ::
          w.tables.rows[w.tables.messages[m]].message == Some(m))
  }

  ghost predicate Inv(w: World) {
    OneHolder(w) && AtMostOnce(w) && RowsTellMessages(w)
  }

  lemma ClaimKeepsInvariant(w: World, k: Worker)
    requires Inv(w) && Enabled(w, Claim(k))
    ensures Inv(Do(w, Claim(k)))
  {
    var v, id := Do(w, Claim(k)), w.hands[k].todo[0];
    assert forall l | l != k :: Holds(v, l) == Holds(w, l);
    assert Holds(v, k) == CanClaim(w.tables, id);
  }

  lemma DeliverKeepsInvariant(w: World, k: Worker, message: Id)
    requires Inv(w) && Enabled(w, Deliver(k, message))
    ensures Inv(Do(w, Deliver(k, message)))
  {
    var v := Do(w, Deliver(k, message));
    assert forall l | Holds(v, l) :: l != k && Holds(w, l) && v.hands[l] == w.hands[l];
  }

  lemma EndKeepsInvariant(w: World, s: Step)
    requires Inv(w) && Enabled(w, s) && (s.Fail? || s.Abort? || s.Crash? || s.Poll?)
    ensures Inv(Do(w, s))
  {
    var v := Do(w, s);
    assert forall l | Holds(v, l) :: l != s.w && Holds(w, l) && v.hands[l] == w.hands[l];
  }

  lemma RowStepKeepsInvariant(w: World, s: Step)
    requires Inv(w) && Enabled(w, s) && (s.Enqueue? || s.Retry? || s.Delete?)
    ensures Inv(Do(w, s))
  {
    assert forall l :: Holds(Do(w, s), l) == Holds(w, l);
  }

  /** Every step of every worker and administrator, crashes included. */
  lemma StepKeepsInvariant(w: World, s: Step)
    requires Inv(w) && Enabled(w, s)
    ensures Inv(Do(w, s))
  {
    match s {
      case Claim(k) => ClaimKeepsInvariant(w, k);
      case Deliver(k, m) => DeliverKeepsInvariant(w, k, m);
      case Enqueue(_) => RowStepKeepsInvariant(w, s);
      case Retry(_) => RowStepKeepsInvariant(w, s);
      case Delete(_) => RowStepKeepsInvariant(w, s);
      case _ => EndKeepsInvariant(w, s);
    }
  }

  lemma {:induction false} RunKeepsInvariant(w: World, steps: seq<Step>, v: World)
    requires Inv(w) && Run(w, steps, v)
    ensures Inv(v)
    decreases |steps|
  {
    if steps != [] {
      StepKeepsInvariant(w, steps[0]);
      RunKeepsInvariant(Do(w, steps[0]), steps[1..], v);
    }
  }

  // ------------------------------------------------------------------ theorems

  ghost predicate HasOne(t: Tables, id: Id, m: Id) {
    m in t.messages && t.messages[m] == id && forall n | n in t.messages && t.messages[n] == id :: n == m
  }

  ghost predicate HasNone(t: Tables, id: Id) {
    forall n | n in t.messages :: t.messages[n] != id
  }

  /** After any interleaving no queue row, deleted ones included, has two messages;
      a row is sent exactly when it has one, which it then names; and failed,
      pending and claimed rows have none. */
  lemma AtMostOneMessage(steps: seq<Step>, v: World, id: Id)
    requires Run(START, steps, v)
    ensures HasNone(v.tables, id) || exists m :: HasOne(v.tables, id, m)
    ensures id in v.tables.rows ==>
      var row := v.tables.rows[id];
      && (row.status == Sent <==> !HasNone(v.tables, id))
      && (if row.status == Sent then row.message.Some? && HasOne(v.tables, id, row.message.value)
          else row.message == None)
  {
    RunKeepsInvariant(START, steps, v);
    if m :| m in v.tables.messages && v.tables.messages[m] == id {
      assert HasOne(v.tables, id, m);
    }
  }

  /** Messages are never withdrawn or repeated, whatever happens to the row. */
  lemma {:induction false} SentIsForEver(w: World, steps: seq<Step>, v: World, id: Id, m: Id)
    requires Inv(w) && Run(w, steps, v) && HasOne(w.tables, id, m)
    ensures HasOne(v.tables, id, m)
    decreases |steps|
  {
    if steps != [] {
      StepKeepsInvariant(w, steps[0]);
      assert m in Do(w, steps[0]).tables.messages;
      SentIsForEver(Do(w, steps[0]), steps[1..], v, id, m);
    }
  }

  /** Claimed by a worker that is gone. */
  ghost predicate Abandoned(w: World, id: Id) {
    && id in w.tables.rows && w.tables.rows[id].status == Generating
    && forall k | Holds(w, k) :: w.hands[k].holding.value != id
  }

  ghost predicate Lost(w: World, id: Id) {
    && id in w.issued && HasNone(w.tables, id)
    && (id in w.tables.rows ==> w.tables.rows[id].status == Generating)
    && forall k | Holds(w, k) :: w.hands[k].holding.value != id
  }

  lemma LostStep(w: World, s: Step, id: Id)
    requires Inv(w) && Enabled(w, s) && Lost(w, id)
    ensures Lost(Do(w, s), id)
  {
    assert forall k | Holds(Do(w, s), k) :: Holds(w, k) || s == Claim(k);
  }

  lemma {:induction false} LostIsForEver(w: World, steps: seq<Step>, v: World, id: Id)
    requires Inv(w) && Run(w, steps, v) && Lost(w, id)
    ensures Inv(v) && Lost(v, id)
    decreases |steps|
  {
    if steps != [] {
      StepKeepsInvariant(w, steps[0]);
      LostStep(w, steps[0], id);
      LostIsForEver(Do(w, steps[0]), steps[1..], v, id);
    }
  }

  ghost predicate CanBeSent(w: World, id: Id) {
    exists steps, v :: Run(w, steps, v) && id in v.tables.rows && v.tables.rows[id].status == Sent
  }

  lemma RunBack(w: World, s: Step, steps: seq<Step>, v: World)
    requires Enabled(w, s) && Run(Do(w, s), steps, v)
    ensures Run(w, [s] + steps, v)
  {
    assert ([s] + steps)[1..] == steps;
  }

  lemma HeldCanBeSent(w: World, id: Id, k: Worker, m: Id)
    requires id in w.tables.rows && Holds(w, k) && w.hands[k].holding.value == id && m !in w.tables.messages
    ensures exists v :: Run(w, [Deliver(k, m)], v) && id in v.tables.rows && v.tables.rows[id].status == Sent
  {
    var v := Do(w, Deliver(k, m));
    assert Run(v, [], v);
    RunBack(w, Deliver(k, m), [], v);
    assert [Deliver(k, m)] + [] == [Deliver(k, m)];
  }

  lemma PendingCanBeSent(w: World, id: Id, k: Worker, m: Id)
    requires CanClaim(w.tables, id) && k !in w.hands && m !in w.tables.messages
    ensures exists steps, v :: Run(w, steps, v) && id in v.tables.rows && v.tables.rows[id].status == Sent
  {
    var u := Do(w, Poll(k, [id]));
    var x := Do(u, Claim(k));
    HeldCanBeSent(x, id, k, m);
    var v :| Run(x, [Deliver(k, m)], v) && id in v.tables.rows && v.tables.rows[id].status == Sent;
    RunBack(u, Claim(k), [Deliver(k, m)], v);
    RunBack(w, Poll(k, [id]), [Claim(k)] + [Deliver(k, m)], v);
  }

  /** Retries are only for failed rows, so a crash between claim and result is never
      made good: a row that is not sent can still be sent exactly when it is not
      abandoned. */
  lemma UnsentCanBeSentExactlyWhen(w: World, id: Id, k: Worker, m: Id)
    requires Inv(w) && id in w.tables.rows && w.tables.rows[id].status != Sent
    requires k !in w.hands && m !in w.tables.messages
    ensures CanBeSent(w, id) <==> !Abandoned(w, id)
  {
    if Abandoned(w, id) {
      assert HasNone(w.tables, id);
      forall steps, v | Run(w, steps, v) ensures !(id in v.tables.rows && v.tables.rows[id].status == Sent) {
        LostIsForEver(w, steps, v, id);
      }
    } else if w.tables.rows[id].status == Generating {
      var l :| Holds(w, l) && w.hands[l].holding.value == id;
      HeldCanBeSent(w, id, l, m);
    } else if w.tables.rows[id].status == Pending {
      PendingCanBeSent(w, id, k, m);
    } else {
      var u := Do(w, Retry(id));
      PendingCanBeSent(u, id, k, m);
      var steps, v :| Run(u, steps, v) && id in v.tables.rows && v.tables.rows[id].status == Sent;
      RunBack(w, Retry(id), steps, v);
    }
  }
}
