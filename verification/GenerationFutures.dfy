/** Waiting for a generation of a chat answer.

    A request draws a generation in four interruptible steps (read the user's
    current generation, replace it, retire the generation read, register a
    future), then waits. Bundles resolve generations at any moment. One process
    keeps the futures and the results nobody was waiting for; here a future is
    an index into `cells`. `Outbox` is the meaning of that table: the one answer
    a generation has at hand. */
module GenerationFutures {
  import opened Results

  type Gen = string
  type User = nat
  type Payload = string

  datatype Answer = Reply(payload: Payload) | Obsolete | TimedOut

  /** A future: pending, set, or cancelled by the wait that timed out. */
  datatype Cell = Pending | Done(answer: Answer) | Cancelled

  datatype Table = Table(futures: map<Gen, nat>, results: map<Gen, Payload>, cells: seq<Cell>) {
    ghost predicate Valid() {
      forall g <- futures :: futures[g] < |cells|
    }
  }

  // -------------------------------------------------------------------- table

  function Settle(cells: seq<Cell>, f: nat, c: Cell): (r: seq<Cell>)
    requires f < |cells|
    ensures |r| == |cells| && forall i | 0 <= i < |cells| :: i != f || cells[i] != Pending ==> r[i] == cells[i]
  {
    if cells[f] == Pending then cells[f := c] else cells
  }

  function Retired(t: Table, g: Gen): Table
    requires t.Valid()
  {
    Table(t.futures - {g}, t.results - {g},
          if g in t.futures then Settle(t.cells, t.futures[g], Done(Obsolete)) else t.cells)
  }

  function Future(t: Table, g: Gen): nat {
    if g in t.results || g !in t.futures then |t.cells| else t.futures[g]
  }

  function Fetched(t: Table, g: Gen): Table {
    if g in t.results then t.(results := t.results - {g}, cells := t.cells + [Done(Reply(t.results[g]))])
    else if g in t.futures then t
    else t.(futures := t.futures[g := |t.cells|], cells := t.cells + [Pending])
  }

  function Resolved(t: Table, g: Gen, p: Payload): Table
    requires t.Valid()
  {
    if g in t.futures && t.cells[t.futures[g]] == Pending
    then t.(cells := t.cells[t.futures[g] := Done(Reply(p))])
    else t.(results := t.results[g := p])
  }

  function Left(t: Table, g: Gen): Table {
    t.(futures := t.futures - {g}, results := t.results - {g})
  }

  /** The entries of all other generations are the same. */
  predicate OnlyFor(g: Gen, t: Table, after: Table) {
    t.futures - {g} == after.futures - {g} && t.results - {g} == after.results - {g}
  }

  class FutureRegistry {
    var futures: map<Gen, nat>
    var results: map<Gen, Payload>
    var cells: seq<Cell>

    ghost function State(): Table reads this { Table(futures, results, cells) }

    constructor ()
      ensures State() == Table(map[], map[], [])
    {
      futures, results, cells := map[], map[], [];
    }

    /** Completing a future is only allowed while it is pending. */
    method SetResult(f: nat, answer: Answer)
      requires f < |cells| && cells[f] == Pending
      modifies this`cells
      ensures cells == old(cells)[f := Done(answer)]
    {
      cells := cells[f := Done(answer)];
    }

    method Retire(old_gen: Option<Gen>)
      requires State().Valid()
      modifies this
      ensures State() == (if old_gen.Some? then Retired(old(State()), old_gen.value) else old(State()))
      ensures old_gen.Some? ==>
        var g := old_gen.value;
        && g !in futures && g !in results && OnlyFor(g, old(State()), State())
        && cells == if g in old(futures) && old(cells[futures[g]] == Pending)
                    then old(cells)[old(futures[g]) := Done(Obsolete)] else old(cells)
    {
      if old_gen == None {
        return;
      }
      var g := old_gen.value;
      var fut := if g in futures then Some(futures[g]) else None;
      results := results - {g};
      futures := futures - {g};
      if fut.Some? && cells[fut.value] == Pending {
        SetResult(fut.value, Obsolete);
      }
    }

    method GetOrCreate(g: Gen) returns (f: nat)
      requires State().Valid()
      modifies this
      ensures State() == Fetched(old(State()), g) && f == Future(old(State()), g)
      ensures OnlyFor(g, old(State()), State()) && g !in results && old(cells) <= cells
      ensures g in old(results) ==> f == |old(cells)| && cells == old(cells) + [Done(Reply(old(results[g])))]
      ensures g !in old(results) && g in old(futures) ==> f == old(futures[g]) && State() == old(State())
      ensures g !in old(results) && g !in old(futures) ==>
        f == |old(cells)| && cells == old(cells) + [Pending] && g in futures && futures[g] == f
    {
      if g in results {
        var cached := results[g];
        results := results - {g};
        f := |cells|;
        cells := cells + [Pending];
        SetResult(f, Reply(cached));
      } else if g in futures {
        f := futures[g];
      } else {
        f := |cells|;
        cells := cells + [Pending];
        futures := futures[g := f];
      }
    }

    method Resolve(g: Gen, payload: Payload)
      requires State().Valid()
      modifies this
      ensures State() == Resolved(old(State()), g, payload)
      ensures OnlyFor(g, old(State()), State()) && futures == old(futures)
      ensures if g in old(futures) && old(cells[futures[g]] == Pending)
              then results == old(results) && cells == old(cells)[old(futures[g]) := Done(Reply(payload))]
              else cells == old(cells) && g in results && results[g] == payload
    {
      if g in futures && cells[futures[g]] == Pending {
        SetResult(futures[g], Reply(payload));
        return;
      }
      results := results[g := payload];
    }

    /** The wait on a completed or timed-out future; the generation is cleared. */
    method Finish(g: Gen, f: nat) returns (answer: Answer)
      requires f < |cells| && cells[f] != Pending
      modifies this
      ensures State() == Left(old(State()), g)
      ensures answer == (if old(cells)[f].Done? then old(cells)[f].answer else TimedOut)
      ensures g !in futures && g !in results && OnlyFor(g, old(State()), State()) && cells == old(cells)
    {
      answer := match cells[f] case Done(a) => a case _ => TimedOut;
      futures := futures - {g};
      results := results - {g};
    }
  }

  // ----------------------------------------------------------------- protocol

  datatype Phase =
    | Reading(previous: Option<Gen>)
    | Switched(previous: Option<Gen>)
    | Drawn
    | Registered
    | Waiting(fut: nat)
    | Answered(answer: Answer)

  datatype Call = Call(user: User, phase: Phase)

  /** `log` lists the generations in the order they became current; `home[f]` is
      the generation future `f` was made for; `resolved` is every resolve so far. */
  datatype World = World(
    table: Table, current: map<User, Gen>, calls: map<Gen, Call>,
    log: seq<Gen>, home: seq<Gen>, resolved: set<(Gen, Payload)>)

  datatype Step =
    | Read(g: Gen, user: User)
    | Switch(g: Gen)
    | Retire(g: Gen)
    | Register(g: Gen)
    | Await(g: Gen)
    | Resolve(g: Gen, payload: Payload)
    | TimeOut(g: Gen)
    | Finish(g: Gen)
    | Expire(user: User)

  const START := World(Table(map[], map[], []), map[], map[], [], [], {})

  predicate Enabled(w: World, s: Step) {
    match s
    case Read(g, _) => g !in w.calls
    case Switch(g) => g in w.calls && w.calls[g].phase.Reading?
    case Retire(g) => g in w.calls && w.calls[g].phase.Switched?
    case Register(g) => g in w.calls && w.calls[g].phase.Drawn?
    case Await(g) => g in w.calls && w.calls[g].phase.Registered?
    case Resolve(g, _) => g in w.log
    case TimeOut(g) => IsWaiting(w, g) && w.table.cells[w.calls[g].phase.fut] == Pending
    case Finish(g) => IsWaiting(w, g) && w.table.cells[w.calls[g].phase.fut] != Pending
    case Expire(_) => true
  }

  predicate IsWaiting(w: World, g: Gen) {
    g in w.calls && w.calls[g].phase.Waiting? && w.calls[g].phase.fut < |w.table.cells|
  }

  function Moved(w: World, g: Gen, phase: Phase): World
    requires g in w.calls
  {
    w.(calls := w.calls[g := w.calls[g].(phase := phase)])
  }

  function Homes(w: World, t: Table, g: Gen): seq<Gen> {
    if |t.cells| > |w.table.cells| then w.home + [g] else w.home
  }

  function Do(w: World, s: Step): World
    requires w.table.Valid() && Enabled(w, s)
  {
    match s
    case Read(g, user) =>
      var previous := if user in w.current then Some(w.current[user]) else None;
      w.(calls := w.calls[g := Call(user, Reading(previous))])
    case Switch(g) =>
      var call := w.calls[g];
      Moved(w, g, Switched(call.phase.previous)).(current := w.current[call.user := g], log := w.log + [g])
    case Retire(g) =>
      var previous := w.calls[g].phase.previous;
      Moved(w, g, Drawn).(table := if previous.Some? then Retired(w.table, previous.value) else w.table)
    case Register(g) =>
      var t := Fetched(w.table, g);
      Moved(w, g, Registered).(table := t, home := Homes(w, t, g))
    case Await(g) =>
      var t := Fetched(w.table, g);
      Moved(w, g, Waiting(Future(w.table, g))).(table := t, home := Homes(w, t, g))
    case Resolve(g, p) => w.(table := Resolved(w.table, g, p), resolved := w.resolved + {(g, p)})
    case TimeOut(g) => w.(table := w.table.(cells := Settle(w.table.cells, w.calls[g].phase.fut, Cancelled)))
    case Finish(g) => Moved(w, g, Answered(CellAnswer(w.table.cells[w.calls[g].phase.fut]))).(table := Left(w.table, g))
    case Expire(user) => w.(current := w.current - {user})
  }

  function CellAnswer(c: Cell): Answer {
    if c.Done? then c.answer else TimedOut
  }

  /** A later generation of the same user has become current. */
  predicate Superseded(w: World, g: Gen) {
    exists i, j | 0 <= i < j < |w.log| :: w.log[i] == g && SameUser(w, g, w.log[j])
  }

  predicate SameUser(w: World, g: Gen, h: Gen) {
    g in w.calls && h in w.calls && w.calls[g].user == w.calls[h].user
  }

  // ---------------------------------------------------------------- invariant

  ghost predicate CellsBelong(w: World) {
    && |w.home| == |w.table.cells|
    && w.table.Valid()
    && (forall g <- w.table.futures :: g in w.calls && w.home[w.table.futures[g]] == g)
    && (forall g <- w.calls :: w.calls[g].phase.Waiting? ==>
      w.calls[g].phase.fut < |w.home| && w.home[w.calls[g].phase.fut] == g)
  }

  /** What the table owes a generation in a phase: before it registers it has no
      future, a wait on a pending future is a wait on the registered one, and a
      result is stored only beside a completed future. */
  predicate Owed(t: Table, phase: Phase, g: Gen)
    requires t.Valid()
  {
    && (g in t.futures ==> phase.Registered? || phase.Waiting?)
    && (phase.Waiting? ==> phase.fut < |t.cells|)
    && (phase.Waiting? && t.cells[phase.fut] == Pending ==> g in t.futures && t.futures[g] == phase.fut)
    && (phase.Registered? && g in t.futures ==> PendingOrReply(t.cells[t.futures[g]]))
    && (g in t.futures && g in t.results ==> t.cells[t.futures[g]] != Pending)
  }

  predicate PendingOrReply(c: Cell) {
    c.Pending? || (c.Done? && c.answer.Reply?)
  }

  /** No other generation has the future. */
  ghost predicate Apart(t: Table, phase: Phase, g: Gen) {
    forall h | h in t.futures && h != g ::
      && !(g in t.futures && t.futures[g] == t.futures[h])
      && !(phase.Waiting? && phase.fut == t.futures[h])
  }

  ghost predicate PhasesAgree(w: World)
    requires w.table.Valid()
  {
    forall g | g in w.calls :: Owed(w.table, w.calls[g].phase, g)
  }

  lemma EveryoneIsApart(w: World, g: Gen)
    requires CellsBelong(w) && g in w.calls
    ensures Apart(w.table, w.calls[g].phase, g)
  {
  }

  lemma RetiredOwes(t: Table, phase: Phase, h: Gen, g: Gen)
    requires t.Valid() && Owed(t, phase, g) && Apart(t, phase, g)
    ensures Retired(t, h).Valid() && Owed(Retired(t, h), phase, g)
  {
  }

  lemma FetchedOwes(t: Table, phase: Phase, h: Gen, g: Gen)
    requires t.Valid() && Owed(t, phase, g) && Apart(t, phase, g)
    ensures Fetched(t, h).Valid()
    ensures h != g ==> Owed(Fetched(t, h), phase, g)
    ensures h == g && phase.Drawn? ==> Owed(Fetched(t, h), Registered, g)
    ensures h == g && phase.Registered? ==> Owed(Fetched(t, h), Waiting(Future(t, h)), g)
  {
  }

  lemma ResolvedOwes(t: Table, phase: Phase, h: Gen, p: Payload, g: Gen)
    requires t.Valid() && Owed(t, phase, g) && Apart(t, phase, g)
    ensures Resolved(t, h, p).Valid() && Owed(Resolved(t, h, p), phase, g)
  {
  }

  /** The log and what calls have read of it. */
  ghost predicate LogAgrees(w: World) {
    && (forall g | g in w.log :: g in w.calls && !w.calls[g].phase.Reading?)
    && (forall u <- w.current :: w.current[u] in w.log && w.calls[w.current[u]].user == u)
    && (forall g <- w.calls :: w.calls[g].phase.Reading? && w.calls[g].phase.previous.Some?
         ==> w.calls[g].phase.previous.value in w.log && SameUser(w, w.calls[g].phase.previous.value, g))
    && (forall g <- w.calls :: w.calls[g].phase.Switched? && w.calls[g].phase.previous.Some?
         ==> Superseded(w, w.calls[g].phase.previous.value))
    && (forall g <- w.calls :: w.calls[g].phase.Switched? ==> w.calls[g].phase.previous != Some(g))
  }

  /** An answer at hand is the truth about its generation. */
  ghost predicate Truthful(w: World, g: Gen, a: Answer) {
    match a
    case Reply(p) => (g, p) in w.resolved
    case Obsolete => Superseded(w, g)
    case TimedOut => true
  }

  ghost predicate AnswersTrue(w: World) {
    && (forall f | 0 <= f < |w.home| && f < |w.table.cells| && w.table.cells[f].Done? ::
          w.table.cells[f].answer != TimedOut && Truthful(w, w.home[f], w.table.cells[f].answer))
    && (forall g <- w.table.results :: (g, w.table.results[g]) in w.resolved)
    && (forall g <- w.calls :: w.calls[g].phase.Answered? ==> Truthful(w, g, w.calls[g].phase.answer))
  }

  ghost predicate Inv(w: World) {
    CellsBelong(w) && PhasesAgree(w) && LogAgrees(w) && AnswersTrue(w)
  }

  lemma SupersededStays(w: World, s: Step, g: Gen)
    requires Inv(w) && Enabled(w, s) && Superseded(w, g)
    ensures Superseded(Do(w, s), g)
  {
    var i, j :| 0 <= i < j < |w.log| && w.log[i] == g && SameUser(w, g, w.log[j]);
    var v := Do(w, s);
    assert v.log[i] == g && SameUser(v, g, v.log[j]);
  }

  lemma SwitchSupersedes(w: World, g: Gen, o: Gen)
    requires Inv(w) && Enabled(w, Switch(g)) && w.calls[g].phase.previous == Some(o)
    ensures Superseded(Do(w, Switch(g)), o)
  {
    var v := Do(w, Switch(g));
    var i :| 0 <= i < |w.log| && w.log[i] == o;
    assert v.log[i] == o && v.log[|w.log|] == g && SameUser(v, o, v.log[|w.log|]);
  }

  lemma QuietStepKeepsCells(w: World, s: Step)
    requires Inv(w) && Enabled(w, s) && (s.Read? || s.Switch? || s.Expire?)
    ensures CellsBelong(Do(w, s))
  {
  }

  lemma RetireStepKeepsCells(w: World, g: Gen)
    requires Inv(w) && Enabled(w, Retire(g))
    ensures CellsBelong(Do(w, Retire(g)))
  {
  }

  lemma RegisterStepKeepsCells(w: World, g: Gen)
    requires Inv(w) && Enabled(w, Register(g))
    ensures CellsBelong(Do(w, Register(g)))
  {
  }

  lemma AwaitStepKeepsCells(w: World, g: Gen)
    requires Inv(w) && Enabled(w, Await(g))
    ensures CellsBelong(Do(w, Await(g)))
  {
  }

  lemma ResolveStepKeepsCells(w: World, s: Step)
    requires Inv(w) && Enabled(w, s) && s.Resolve?
    ensures CellsBelong(Do(w, s))
  {
  }

  lemma LastStepKeepsCells(w: World, s: Step)
    requires Inv(w) && Enabled(w, s) && (s.TimeOut? || s.Finish?)
    ensures CellsBelong(Do(w, s))
  {
  }

  lemma QuietStepKeepsPhases(w: World, s: Step)
    requires Inv(w) && Enabled(w, s) && (s.Read? || s.Switch? || s.Expire?) && Do(w, s).table.Valid()
    ensures PhasesAgree(Do(w, s))
  {
    var v := Do(w, s);
    forall g | g in v.calls ensures Owed(v.table, v.calls[g].phase, g) {
      if g in w.calls { assert Owed(w.table, w.calls[g].phase, g); }
    }
  }

  lemma RetireStepKeepsPhases(w: World, h: Gen)
    requires Inv(w) && Enabled(w, Retire(h)) && Do(w, Retire(h)).table.Valid()
    ensures PhasesAgree(Do(w, Retire(h)))
  {
    var v := Do(w, Retire(h));
    forall g | g in v.calls ensures Owed(v.table, v.calls[g].phase, g) {
      EveryoneIsApart(w, g);
      var previous := w.calls[h].phase.previous;
      if previous.Some? { RetiredOwes(w.table, w.calls[g].phase, previous.value, g); }
    }
  }

  lemma RegisterStepKeepsPhases(w: World, h: Gen)
    requires Inv(w) && Enabled(w, Register(h)) && Do(w, Register(h)).table.Valid()
    ensures PhasesAgree(Do(w, Register(h)))
  {
    var v := Do(w, Register(h));
    forall g | g in v.calls ensures Owed(v.table, v.calls[g].phase, g) {
      EveryoneIsApart(w, g);
      FetchedOwes(w.table, w.calls[g].phase, h, g);
    }
  }

  lemma AwaitStepKeepsPhases(w: World, h: Gen)
    requires Inv(w) && Enabled(w, Await(h)) && Do(w, Await(h)).table.Valid()
    ensures PhasesAgree(Do(w, Await(h)))
  {
    var v := Do(w, Await(h));
    forall g | g in v.calls ensures Owed(v.table, v.calls[g].phase, g) {
      EveryoneIsApart(w, g);
      FetchedOwes(w.table, w.calls[g].phase, h, g);
    }
  }

  lemma ResolveStepKeepsPhases(w: World, h: Gen, p: Payload)
    requires Inv(w) && Enabled(w, Resolve(h, p)) && Do(w, Resolve(h, p)).table.Valid()
    ensures PhasesAgree(Do(w, Resolve(h, p)))
  {
    var v := Do(w, Resolve(h, p));
    forall g | g in v.calls ensures Owed(v.table, v.calls[g].phase, g) {
      EveryoneIsApart(w, g);
      ResolvedOwes(w.table, w.calls[g].phase, h, p, g);
    }
  }

  lemma LastStepKeepsPhases(w: World, s: Step)
    requires Inv(w) && Enabled(w, s) && (s.TimeOut? || s.Finish?) && Do(w, s).table.Valid()
    ensures PhasesAgree(Do(w, s))
  {
    var v := Do(w, s);
    forall g | g in v.calls ensures Owed(v.table, v.calls[g].phase, g) {
      EveryoneIsApart(w, g);
      assert Owed(w.table, w.calls[g].phase, g);
      assert w.home[w.calls[s.g].phase.fut] == s.g;
    }
  }

  lemma StepKeepsLog(w: World, s: Step)
    requires Inv(w) && Enabled(w, s)
    ensures LogAgrees(Do(w, s))
  {
    forall g | g in Do(w, s).calls { SwitchedHasSuperseded(w, s, g); }
  }

  lemma SwitchedHasSuperseded(w: World, s: Step, g: Gen)
    requires Inv(w) && Enabled(w, s) && g in Do(w, s).calls
    ensures var v := Do(w, s);
      v.calls[g].phase.Switched? && v.calls[g].phase.previous.Some? ==> Superseded(v, v.calls[g].phase.previous.value)
  {
    var v := Do(w, s);
    if v.calls[g].phase.Switched? && v.calls[g].phase.previous.Some? {
      if s == Switch(g) {
        SwitchSupersedes(w, g, v.calls[g].phase.previous.value);
      } else {
        SupersededStays(w, s, v.calls[g].phase.previous.value);
      }
    }
  }

  lemma QuietStepKeepsTruth(w: World, s: Step)
    requires Inv(w) && Enabled(w, s) && (s.Read? || s.Switch? || s.Expire?)
    ensures AnswersTrue(Do(w, s))
  {
    var v := Do(w, s);
    QuietStepKeepsCells(w, s);
    forall g | Superseded(w, g) ensures Superseded(v, g) { SupersededStays(w, s, g); }
  }

  lemma RetireStepKeepsTruth(w: World, g: Gen)
    requires Inv(w) && Enabled(w, Retire(g))
    ensures AnswersTrue(Do(w, Retire(g)))
  {
    var v := Do(w, Retire(g));
    RetireStepKeepsCells(w, g);
    forall h | Superseded(w, h) ensures Superseded(v, h) { SupersededStays(w, Retire(g), h); }
  }

  lemma TruthStays(w: World, s: Step, g: Gen, a: Answer)
    requires Inv(w) && Enabled(w, s) && Truthful(w, g, a)
    ensures Truthful(Do(w, s), g, a)
  {
    if a.Obsolete? { SupersededStays(w, s, g); }
  }

  /** A step that only fetches a future: at most one cell is new, and it holds a
      stored result. */
  lemma FetchKeepsTruth(w: World, s: Step, g: Gen)
    requires Inv(w) && Enabled(w, s) && (s == Register(g) || s == Await(g)) && CellsBelong(Do(w, s))
    ensures AnswersTrue(Do(w, s))
  {
    var v := Do(w, s);
    forall f | 0 <= f < |v.home| && f < |v.table.cells| && v.table.cells[f].Done?
      ensures v.table.cells[f].answer != TimedOut && Truthful(v, v.home[f], v.table.cells[f].answer)
    {
      if f < |w.table.cells| {
        TruthStays(w, s, w.home[f], w.table.cells[f].answer);
      }
    }
    forall h | h in v.calls && v.calls[h].phase.Answered? ensures Truthful(v, h, v.calls[h].phase.answer) {
      TruthStays(w, s, h, w.calls[h].phase.answer);
    }
  }

  lemma ResolveStepKeepsTruth(w: World, s: Step)
    requires Inv(w) && Enabled(w, s) && s.Resolve?
    ensures AnswersTrue(Do(w, s))
  {
    var v := Do(w, s);
    ResolveStepKeepsCells(w, s);
    forall g | Superseded(w, g) ensures Superseded(v, g) { SupersededStays(w, s, g); }
  }

  lemma LastStepKeepsTruth(w: World, s: Step)
    requires Inv(w) && Enabled(w, s) && (s.TimeOut? || s.Finish?)
    ensures AnswersTrue(Do(w, s))
  {
    var v := Do(w, s);
    LastStepKeepsCells(w, s);
    forall g | Superseded(w, g) ensures Superseded(v, g) { SupersededStays(w, s, g); }
  }

  lemma StepKeepsCells(w: World, s: Step)
    requires Inv(w) && Enabled(w, s)
    ensures CellsBelong(Do(w, s))
  {
    match s {
      case Retire(g) => RetireStepKeepsCells(w, g);
      case Register(g) => RegisterStepKeepsCells(w, g);
      case Await(g) => AwaitStepKeepsCells(w, g);
      case Resolve(_, _) => ResolveStepKeepsCells(w, s);
      case TimeOut(_) => LastStepKeepsCells(w, s);
      case Finish(_) => LastStepKeepsCells(w, s);
      case _ => QuietStepKeepsCells(w, s);
    }
  }

  /** Every step keeps the invariant. */
  lemma StepKeepsInvariant(w: World, s: Step)
    requires Inv(w) && Enabled(w, s)
    ensures Inv(Do(w, s))
  {
    StepKeepsCells(w, s);
    StepKeepsLog(w, s);
    match s {
      case Retire(g) => RetireStepKeepsPhases(w, g); RetireStepKeepsTruth(w, g);
      case Register(g) => RegisterStepKeepsPhases(w, g); FetchKeepsTruth(w, s, g);
      case Await(g) => AwaitStepKeepsPhases(w, g); FetchKeepsTruth(w, s, g);
      case Resolve(g, p) => ResolveStepKeepsPhases(w, g, p); ResolveStepKeepsTruth(w, s);
      case TimeOut(_) => LastStepKeepsPhases(w, s); LastStepKeepsTruth(w, s);
      case Finish(_) => LastStepKeepsPhases(w, s); LastStepKeepsTruth(w, s);
      case _ => QuietStepKeepsPhases(w, s); QuietStepKeepsTruth(w, s);
    }
  }
}
