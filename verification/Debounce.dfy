/** The trailing-edge debounce of sends. A schedule writes its token, then, after an
    await, cancels the process's previous task for the user and starts its own; the
    task sleeps, reads the token and runs its body only if the token is still its
    own. Each of these is a step of its own, and several processes share the token. */
module Debounce {
  type User = nat
  type Process = nat
  type Id = nat

  datatype Phase =
    | Written
    | Sleeping
    | Seen(mine: bool)
    | Running
    | Finished
    | Passed
    | Cancelled(running: bool)

  datatype Call = Call(user: User, process: Process, phase: Phase)

  // ------------------------------------------------------------- local tasks

  predicate IsLive(p: Phase) {
    p.Sleeping? || p.Seen? || p.Running?
  }

  function CancelPhase(p: Phase): Phase {
    if IsLive(p) then Cancelled(p.Running?) else p
  }

  /** The calls after a process has dropped its task for the user. */
  function CancelledLocal(tasks: map<User, Id>, calls: map<Id, Call>, user: User): (r: map<Id, Call>)
    ensures r.Keys == calls.Keys
  {
    if user in tasks && tasks[user] in calls then
      var t := tasks[user];
      calls[t := calls[t].(phase := CancelPhase(calls[t].phase))]
    else calls
  }

  /** One process: its task for each user, and the calls it shares with the others. */
  class TaskTable {
    var tasks: map<User, Id>
    var calls: map<Id, Call>

    constructor (calls: map<Id, Call>)
      ensures tasks == map[] && this.calls == calls
    {
      this.tasks, this.calls := map[], calls;
    }

    method CancelLocal(user: User)
      modifies this
      ensures tasks == old(tasks) - {user}
      ensures calls == CancelledLocal(old(tasks), old(calls), user)
    {
      if user in tasks {
        var t := tasks[user];
        tasks := tasks - {user};
        if t in calls && IsLive(calls[t].phase) {
          calls := calls[t := calls[t].(phase := Cancelled(calls[t].phase.Running?))];
        }
      }
    }

    method StartTask(user: User, id: Id)
      requires id in calls
      modifies this
      ensures tasks == old(tasks)[user := id]
      ensures var c := CancelledLocal(old(tasks), old(calls), user); calls == c[id := c[id].(phase := Sleeping)]
    {
      CancelLocal(user);
      calls := calls[id := calls[id].(phase := Sleeping)];
      tasks := tasks[user := id];
    }
  }

  // ----------------------------------------------------------------- protocol

  datatype World = World(token: map<User, Id>, tasks: map<Process, map<User, Id>>, calls: map<Id, Call>)

  datatype Step =
    | Write(id: Id, user: User, process: Process)
    | Spawn(id: Id)
    | Look(id: Id)
    | Resume(id: Id)
    | End(id: Id)
    | Expire(user: User)

  const START := World(map[], map[], map[])

  predicate Enabled(w: World, s: Step) {
    match s
    case Write(id, _, _) => id !in w.calls
    case Spawn(id) => id in w.calls && w.calls[id].phase.Written?
    case Look(id) => id in w.calls && w.calls[id].phase.Sleeping?
    case Resume(id) => id in w.calls && w.calls[id].phase.Seen?
    case End(id) => id in w.calls && w.calls[id].phase.Running?
    case Expire(_) => true
  }

  function TasksOf(w: World, p: Process): map<User, Id> {
    if p in w.tasks then w.tasks[p] else map[]
  }

  function Moved(w: World, id: Id, phase: Phase): World
    requires id in w.calls
  {
    w.(calls := w.calls[id := w.calls[id].(phase := phase)])
  }

  function Do(w: World, s: Step): World
    requires Enabled(w, s)
  {
    match s
    case Write(id, user, p) =>
      w.(token := w.token[user := id], calls := w.calls[id := Call(user, p, Written)])
    case Spawn(id) =>
      var p, user := w.calls[id].process, w.calls[id].user;
      var calls := CancelledLocal(TasksOf(w, p), w.calls, user);
      w.(calls := calls[id := calls[id].(phase := Sleeping)], tasks := w.tasks[p := TasksOf(w, p)[user := id]])
    case Look(id) =>
      Moved(w, id, Seen(w.calls[id].user in w.token && w.token[w.calls[id].user] == id))
    case Resume(id) => Moved(w, id, if w.calls[id].phase.mine then Running else Passed)
    case End(id) => Moved(w, id, Finished)
    case Expire(user) => w.(token := w.token - {user})
  }

  ghost predicate Run(w: World, steps: seq<Step>, v: World)
    decreases |steps|
  {
    if steps == [] then v == w else Enabled(w, steps[0]) && Run(Do(w, steps[0]), steps[1..], v)
  }

  /** A live task is the one its process has on record. */
  ghost predicate LiveOnRecord(w: World) {
    forall id | id in w.calls && IsLive(w.calls[id].phase) ::
      var c := w.calls[id]; c.user in TasksOf(w, c.process) && TasksOf(w, c.process)[c.user] == id
  }

  /** What a process has on record is a task of that user and process. */
  ghost predicate RecordsTrue(w: World) {
    forall p, user | user in TasksOf(w, p) :: RecordTrue(w, p, user, TasksOf(w, p)[user])
  }

  predicate RecordTrue(w: World, p: Process, user: User, id: Id) {
    id in w.calls && w.calls[id].user == user && w.calls[id].process == p && !w.calls[id].phase.Written?
  }

  ghost predicate Inv(w: World) {
    LiveOnRecord(w) && RecordsTrue(w)
  }

  lemma SpawnKeepsRecords(w: World, id: Id)
    requires Inv(w) && Enabled(w, Spawn(id))
    ensures RecordsTrue(Do(w, Spawn(id)))
  {
    var p, user, v := w.calls[id].process, w.calls[id].user, Do(w, Spawn(id));
    forall q, u | u in TasksOf(v, q) ensures RecordTrue(v, q, u, TasksOf(v, q)[u]) {
      if q != p || u != user { assert RecordTrue(w, q, u, TasksOf(w, q)[u]); }
    }
  }

  lemma SpawnKeepsLive(w: World, id: Id)
    requires Inv(w) && Enabled(w, Spawn(id))
    ensures LiveOnRecord(Do(w, Spawn(id)))
  {
    var p, user, v := w.calls[id].process, w.calls[id].user, Do(w, Spawn(id));
    forall x | x in v.calls && IsLive(v.calls[x].phase)
      ensures v.calls[x].user in TasksOf(v, v.calls[x].process)
      ensures TasksOf(v, v.calls[x].process)[v.calls[x].user] == x
    {
      if x != id { assert IsLive(w.calls[x].phase); }
    }
  }

  lemma SpawnKeepsInvariant(w: World, id: Id)
    requires Inv(w) && Enabled(w, Spawn(id))
    ensures Inv(Do(w, Spawn(id)))
  {
    SpawnKeepsRecords(w, id);
    SpawnKeepsLive(w, id);
  }

  lemma StepKeepsInvariant(w: World, s: Step)
    requires Inv(w) && Enabled(w, s)
    ensures Inv(Do(w, s))
  {
    if s.Spawn? {
      SpawnKeepsInvariant(w, s.id);
    } else {
      var v := Do(w, s);
      forall p, user | user in TasksOf(v, p) ensures RecordTrue(v, p, user, TasksOf(v, p)[user]) {
        assert RecordTrue(w, p, user, TasksOf(w, p)[user]);
      }
    }
  }

  // -------------------------------------------------------- token and task alone

  /** The step of another schedule, or of the clock, that takes the user's token. */
  predicate TakesToken(s: Step, user: User) {
    (s.Write? && s.user == user) || s == Expire(user)
  }

  /** The step starts a task of the user in the process. */
  predicate TakesSlot(w: World, s: Step, user: User, p: Process) {
    s.Spawn? && s.id in w.calls && w.calls[s.id].user == user && w.calls[s.id].process == p
  }

  ghost predicate AnyTakesToken(steps: seq<Step>, user: User) {
    exists s <- steps :: TakesToken(s, user)
  }

  ghost predicate AnyTakesSlot(w: World, steps: seq<Step>, user: User, p: Process) {
    exists s <- steps :: TakesSlot(w, s, user, p)
  }

  predicate IsOwn(s: Step, id: Id) {
    !s.Expire? && s.id == id
  }

  ghost predicate NoneOwn(steps: seq<Step>, id: Id) {
    forall s <- steps :: !IsOwn(s, id)
  }

  predicate HasToken(w: World, id: Id)
    requires id in w.calls
  {
    w.calls[id].user in w.token && w.token[w.calls[id].user] == id
  }

  predicate SameCall(w: World, v: World, id: Id) {
    id in w.calls && id in v.calls && v.calls[id].user == w.calls[id].user && v.calls[id].process == w.calls[id].process
  }

  lemma {:induction false} CallsStay(w: World, steps: seq<Step>, v: World, id: Id)
    requires Run(w, steps, v) && id in w.calls
    ensures SameCall(w, v, id)
    decreases |steps|
  {
    if steps != [] {
      CallsStay(Do(w, steps[0]), steps[1..], v, id);
    }
  }

  /** A call keeps the token exactly while nobody takes it. */
  lemma {:induction false} TokenKept(w: World, steps: seq<Step>, v: World, id: Id)
    requires Run(w, steps, v) && id in w.calls
    ensures id in v.calls && (HasToken(v, id) <==> HasToken(w, id) && !AnyTakesToken(steps, w.calls[id].user))
    decreases |steps|
  {
    if steps != [] {
      var s := steps[0];
      var u := Do(w, s);
      assert SameCall(w, u, id);
      assert HasToken(u, id) <==> HasToken(w, id) && !TakesToken(s, w.calls[id].user);
      TokenKept(u, steps[1..], v, id);
      AnyFirst(steps, w.calls[id].user);
    }
  }

  lemma AnyFirst(steps: seq<Step>, user: User)
    requires steps != []
    ensures AnyTakesToken(steps, user) <==> TakesToken(steps[0], user) || AnyTakesToken(steps[1..], user)
  {
    assert steps == [steps[0]] + steps[1..];
  }

  lemma SlotFirst(w: World, steps: seq<Step>, user: User, p: Process)
    requires steps != []
    ensures AnyTakesSlot(w, steps, user, p) <==> TakesSlot(w, steps[0], user, p) || AnyTakesSlot(w, steps[1..], user, p)
  {
    assert steps == [steps[0]] + steps[1..];
  }

  lemma OtherStep(w: World, s: Step, id: Id)
    requires Inv(w) && Enabled(w, s) && id in w.calls && !IsOwn(s, id)
    ensures var c := w.calls[id]; var v := Do(w, s);
      && SameCall(w, v, id)
      && (IsLive(c.phase) && TakesSlot(w, s, c.user, c.process) ==> v.calls[id].phase == CancelPhase(c.phase))
      && (!IsLive(c.phase) || !TakesSlot(w, s, c.user, c.process) ==> v.calls[id].phase == c.phase)
  {
  }

  /** While it takes no step of its own, a live task is cancelled exactly when
      another task of its user starts in its process. */
  lemma {:induction false} PhaseKept(w: World, steps: seq<Step>, v: World, id: Id)
    requires Inv(w) && Run(w, steps, v) && id in w.calls && NoneOwn(steps, id)
    ensures Inv(v) && SameCall(w, v, id)
    ensures var c := w.calls[id];
      v.calls[id].phase == if AnyTakesSlot(v, steps, c.user, c.process) then CancelPhase(c.phase) else c.phase
    decreases |steps|
  {
    if steps != [] {
      var s := steps[0];
      assert s in steps && !IsOwn(s, id);
      OtherStep(w, s, id);
      StepKeepsInvariant(w, s);
      PhaseKept(Do(w, s), steps[1..], v, id);
      SlotFirst(v, steps, w.calls[id].user, w.calls[id].process);
      if s.Spawn? { CallsStay(w, steps, v, s.id); }
    }
  }

  // ------------------------------------------------------------------ theorems

  /** When exactly a schedule runs its body. Between its token write and its look at
      the token nobody may take the token (a later write, or expiry); from its own
      start to its body no other task of the user may start in its process. */
  lemma BodyStartsExactlyWhen(w: World, id: Id, user: User, p: Process,
                              a: seq<Step>, w1: World, b: seq<Step>, w2: World, c: seq<Step>, w3: World)
    requires Inv(w) && Enabled(w, Write(id, user, p)) && Run(Do(w, Write(id, user, p)), a, w1) && NoneOwn(a, id)
    requires Enabled(w1, Spawn(id)) && Run(Do(w1, Spawn(id)), b, w2) && NoneOwn(b, id)
    ensures Enabled(w2, Look(id)) <==> !AnyTakesSlot(w2, b, user, p)
    ensures Enabled(w2, Look(id)) && Run(Do(w2, Look(id)), c, w3) && NoneOwn(c, id) ==>
      && (Enabled(w3, Resume(id)) <==> !AnyTakesSlot(w3, c, user, p))
      && (Enabled(w3, Resume(id)) ==>
            Do(w3, Resume(id)).calls[id].phase
            == if AnyTakesToken(a, user) || AnyTakesToken(b, user) then Passed else Running)
  {
    UntilTheLook(w, id, user, p, a, w1, b, w2);
    if Enabled(w2, Look(id)) && Run(Do(w2, Look(id)), c, w3) && NoneOwn(c, id) {
      AfterTheLook(w2, id, c, w3);
    }
  }

  lemma UntilTheLook(w: World, id: Id, user: User, p: Process, a: seq<Step>, w1: World, b: seq<Step>, w2: World)
    requires Inv(w) && Enabled(w, Write(id, user, p)) && Run(Do(w, Write(id, user, p)), a, w1) && NoneOwn(a, id)
    requires Enabled(w1, Spawn(id)) && Run(Do(w1, Spawn(id)), b, w2) && NoneOwn(b, id)
    ensures Inv(w2) && id in w2.calls && w2.calls[id].user == user && w2.calls[id].process == p
    ensures Enabled(w2, Look(id)) <==> !AnyTakesSlot(w2, b, user, p)
    ensures HasToken(w2, id) <==> !AnyTakesToken(a, user) && !AnyTakesToken(b, user)
  {
    var w0 := Do(w, Write(id, user, p));
    StepKeepsInvariant(w, Write(id, user, p));
    PhaseKept(w0, a, w1, id);
    TokenKept(w0, a, w1, id);
    StepKeepsInvariant(w1, Spawn(id));
    SpawnSleeps(w1, id);
    PhaseKept(Do(w1, Spawn(id)), b, w2, id);
    TokenKept(Do(w1, Spawn(id)), b, w2, id);
  }

  lemma SpawnSleeps(w: World, id: Id)
    requires Enabled(w, Spawn(id))
    ensures SameCall(w, Do(w, Spawn(id)), id) && Do(w, Spawn(id)).calls[id].phase.Sleeping?
    ensures HasToken(Do(w, Spawn(id)), id) <==> HasToken(w, id)
  {
  }

  lemma AfterTheLook(w: World, id: Id, c: seq<Step>, v: World)
    requires Inv(w) && Enabled(w, Look(id)) && Run(Do(w, Look(id)), c, v) && NoneOwn(c, id)
    ensures Enabled(v, Resume(id)) <==> !AnyTakesSlot(v, c, w.calls[id].user, w.calls[id].process)
    ensures Enabled(v, Resume(id)) ==> Do(v, Resume(id)).calls[id].phase == if HasToken(w, id) then Running else Passed
  {
    StepKeepsInvariant(w, Look(id));
    PhaseKept(Do(w, Look(id)), c, v, id);
  }

  /** A body that is running when its process starts the user's next task is
      cancelled. */
  lemma NextTaskInterruptsTheBody(w: World, steps: seq<Step>, v: World, id: Id)
    requires Inv(w) && Run(w, steps, v) && id in w.calls && w.calls[id].phase.Running? && NoneOwn(steps, id)
    ensures id in v.calls
    ensures v.calls[id].phase
         == if AnyTakesSlot(v, steps, w.calls[id].user, w.calls[id].process) then Cancelled(true) else Running
  {
    PhaseKept(w, steps, v, id);
  }

  predicate Started(w: World, id: Id) {
    id in w.calls && (w.calls[id].phase.Running? || w.calls[id].phase.Finished? || w.calls[id].phase == Cancelled(true))
  }

  // ---------------------------------------------------------- atomic schedules

  /** Schedules that run without interruption, each in some process. */
  function Schedules(calls: seq<(Id, Process)>, user: User): seq<Step> {
    if calls == [] then []
    else [Write(calls[0].0, user, calls[0].1), Spawn(calls[0].0)] + Schedules(calls[1..], user)
  }

  /** No call of the user has already seen the token as its own. */
  ghost predicate NoneAboutToStart(w: World, user: User) {
    forall x | x in w.calls && w.calls[x].user == user :: w.calls[x].phase != Seen(true)
  }

  ghost predicate SameStarts(w: World, v: World, user: User) {
    && (forall x | Started(v, x) && v.calls[x].user == user :: Started(w, x) && w.calls[x].user == user)
    && NoneAboutToStart(v, user)
  }

  lemma ScheduleStep(w: World, id: Id, user: User, p: Process)
    requires Inv(w) && NoneAboutToStart(w, user) && Enabled(w, Write(id, user, p))
    ensures Enabled(Do(w, Write(id, user, p)), Spawn(id))
    ensures var v := Do(Do(w, Write(id, user, p)), Spawn(id));
      Inv(v) && SameStarts(w, v, user) && id in v.calls && v.calls[id] == Call(user, p, Sleeping) && HasToken(v, id)
  {
    var u := Do(w, Write(id, user, p));
    StepKeepsInvariant(w, Write(id, user, p));
    StepKeepsInvariant(u, Spawn(id));
  }

  lemma {:induction false} BurstSchedules(w: World, calls: seq<(Id, Process)>, user: User, v: World)
    requires Inv(w) && NoneAboutToStart(w, user) && calls != [] && Run(w, Schedules(calls, user), v)
    ensures var last := calls[|calls| - 1];
      Inv(v) && SameStarts(w, v, user) && last.0 in v.calls && v.calls[last.0] == Call(user, last.1, Sleeping)
        && HasToken(v, last.0)
    decreases |calls|
  {
    var steps, later := Schedules(calls, user), Schedules(calls[1..], user);
    assert steps[0] == Write(calls[0].0, user, calls[0].1);
    assert steps[1..][0] == Spawn(calls[0].0) && steps[1..][1..] == later;
    ScheduleStep(w, calls[0].0, user, calls[0].1);
    var u := Do(Do(w, steps[0]), steps[1..][0]);
    assert Run(u, later, v);
    if |calls| > 1 {
      BurstSchedules(u, calls[1..], user, v);
    }
  }

  /** No schedule of the user and no expiry among the steps. */
  ghost predicate Undisturbed(w: World, steps: seq<Step>, user: User) {
    forall s <- steps :: !TakesToken(s, user) && (s.Spawn? && s.id in w.calls ==> w.calls[s.id].user != user)
  }

  /** Every call of the user that has started, but this one, had started before. */
  ghost predicate NoOtherStarts(w: World, v: World, user: User, id: Id) {
    forall x | Started(v, x) && v.calls[x].user == user && x != id :: Started(w, x) && w.calls[x].user == user
  }

  ghost predicate OnlyMayStart(w: World, user: User, id: Id) {
    && id in w.calls && w.calls[id].user == user && HasToken(w, id)
    && (w.calls[id].phase in {Sleeping, Seen(true), Running, Finished})
    && (forall x | x in w.calls && w.calls[x].user == user && x != id :: w.calls[x].phase != Seen(true))
  }

  lemma LonelyStep(w: World, s: Step, user: User, id: Id)
    requires Inv(w) && Enabled(w, s) && OnlyMayStart(w, user, id) && !TakesToken(s, user)
    requires s.Spawn? ==> w.calls[s.id].user != user
    ensures Inv(Do(w, s)) && OnlyMayStart(Do(w, s), user, id)
    ensures NoOtherStarts(w, Do(w, s), user, id)
  {
    StepKeepsInvariant(w, s);
  }

  lemma {:induction false} LonelyRun(w: World, steps: seq<Step>, v: World, user: User, id: Id)
    requires Inv(w) && Run(w, steps, v) && OnlyMayStart(w, user, id) && Undisturbed(v, steps, user)
    ensures Inv(v) && OnlyMayStart(v, user, id)
    ensures NoOtherStarts(w, v, user, id)
    decreases |steps|
  {
    if steps != [] {
      var s := steps[0];
      assert s in steps;
      if s.Spawn? { CallsStay(w, steps, v, s.id); }
      LonelyStep(w, s, user, id);
      LonelyRun(Do(w, s), steps[1..], v, user, id);
    }
  }

  /** A burst of schedules that do not overlap, over any processes, then nothing but
      wake-ups within the token's lifetime: the last call has started as soon as it
      has woken, and no other call starts. */
  lemma BurstStartsExactlyItsLast(w: World, calls: seq<(Id, Process)>, user: User, m: World, steps: seq<Step>, v: World)
    requires Inv(w) && NoneAboutToStart(w, user) && calls != []
    requires Run(w, Schedules(calls, user), m) && Run(m, steps, v) && Undisturbed(v, steps, user)
    ensures var last := calls[|calls| - 1].0;
      && last in v.calls && v.calls[last].phase in {Sleeping, Seen(true), Running, Finished}
      && NoOtherStarts(w, v, user, last)
  {
    var last := calls[|calls| - 1].0;
    BurstSchedules(w, calls, user, m);
    LonelyRun(m, steps, v, user, last);
  }

  /** A body that has ended stays so: no later schedule cancels it. */
  lemma EndedBodyIsNotCancelled(w: World, id: Id, steps: seq<Step>, v: World)
    requires Enabled(w, End(id)) && Run(Do(w, End(id)), steps, v)
    ensures id in v.calls && v.calls[id].phase == Finished
  {
    FinishedStays(Do(w, End(id)), steps, v, id);
  }

  lemma {:induction false} FinishedStays(w: World, steps: seq<Step>, v: World, id: Id)
    requires Run(w, steps, v) && id in w.calls && w.calls[id].phase == Finished
    ensures id in v.calls && v.calls[id].phase == Finished
    decreases |steps|
  {
    if steps != [] {
      FinishedStays(Do(w, steps[0]), steps[1..], v, id);
    }
  }

  // ------------------------------------------------------ overlapping schedules

  ghost predicate CannotStart(w: World, id: Id) {
    && id in w.calls && !HasToken(w, id)
    && (|| w.calls[id].phase == Seen(false) || w.calls[id].phase == Cancelled(false)
        || w.calls[id].phase.Sleeping? || w.calls[id].phase.Passed?)
  }

  lemma {:induction false} CannotStartStays(w: World, steps: seq<Step>, v: World, id: Id)
    requires Run(w, steps, v) && CannotStart(w, id)
    ensures CannotStart(v, id) && !Started(v, id)
    decreases |steps|
  {
    if steps != [] {
      assert CannotStart(Do(w, steps[0]), id);
      CannotStartStays(Do(w, steps[0]), steps[1..], v, id);
    }
  }

  /** Two schedules of a process that start their tasks in the opposite order of
      their tokens: neither body ever starts. */
  lemma CrossedSchedulesStartNothing(
    w: World, a: Id, b: Id, user: User, p: Process, m: World, steps: seq<Step>, v: World)
    requires Inv(w) && Run(w, [Write(a, user, p), Write(b, user, p), Spawn(b), Spawn(a)], m) && Run(m, steps, v)
    requires forall s <- steps :: !(s.Write? && s.user == user)
    ensures !Started(v, a) && !Started(v, b)
  {
    CrossedSchedules(w, a, b, user, p, m);
    CannotStartStays(m, steps, v, a);
    CancelledStays(m, steps, v, b);
  }

  lemma CrossedSchedules(w: World, a: Id, b: Id, user: User, p: Process, m: World)
    requires Inv(w) && Run(w, [Write(a, user, p), Write(b, user, p), Spawn(b), Spawn(a)], m)
    ensures CannotStart(m, a) && m.calls[a].user == user && b in m.calls && m.calls[b].phase == Cancelled(false)
  {
    FirstStep(w, Write(a, user, p), [Write(b, user, p), Spawn(b), Spawn(a)], m);
    var w1 := Do(w, Write(a, user, p));
    FirstStep(w1, Write(b, user, p), [Spawn(b), Spawn(a)], m);
    var w2 := Do(w1, Write(b, user, p));
    FirstStep(w2, Spawn(b), [Spawn(a)], m);
    SpawnSleeps(w2, b);
    var w3 := Do(w2, Spawn(b));
    assert w2.tasks == w.tasks && w2.calls == w.calls[a := Call(user, p, Written)][b := Call(user, p, Written)];
    assert user in TasksOf(w, p) ==> TasksOf(w, p)[user] in w.calls;
    assert w3.calls[a] == w2.calls[a];
    FirstStep(w3, Spawn(a), [], m);
  }

  lemma FirstStep(w: World, s: Step, rest: seq<Step>, v: World)
    requires Run(w, [s] + rest, v)
    ensures Enabled(w, s) && Run(Do(w, s), rest, v)
  {
    assert ([s] + rest)[1..] == rest;
  }

  lemma {:induction false} CancelledStays(w: World, steps: seq<Step>, v: World, id: Id)
    requires Run(w, steps, v) && id in w.calls && w.calls[id].phase == Cancelled(false)
    ensures id in v.calls && v.calls[id].phase == Cancelled(false)
    decreases |steps|
  {
    if steps != [] {
      assert Do(w, steps[0]).calls[id].phase == Cancelled(false);
      CancelledStays(Do(w, steps[0]), steps[1..], v, id);
    }
  }
}
