/** What the table of futures means over whole runs. */
module GenerationTheorems {
  import opened Results
  import opened GenerationFutures

  // ------------------------------------------------------- one generation's desk

  /** What a generation has at hand: nothing, or the answer its wait will give. */
  datatype Box = Empty | Full(answer: Answer)

  /** The simple form of one generation: before its registration, before its wait,
      in its wait, and answered. */
  datatype Desk = Early(box: Box) | Ready(box: Box) | Attended(box: Box) | Gone(answer: Answer)

  /** A resolve fills the box, for a waiter only an empty one; retiring tells a
      waiter and clears the box of anyone else; registering throws away what came
      early; a wait times out only on an empty box and ends with a full one. */
  function NextDesk(d: Desk, s: Step, g: Gen, retires: bool): Desk {
    match d
    case Early(b) =>
      if s == Register(g) then Ready(Empty)
      else if s.Resolve? && s.g == g then Early(Full(Reply(s.payload)))
      else if retires then Early(Empty) else d
    case Ready(b) =>
      if s == Await(g) then Attended(b)
      else if s.Resolve? && s.g == g then Ready(Full(Reply(s.payload)))
      else if retires then Ready(Empty) else d
    case Attended(Empty) =>
      if s == TimeOut(g) then Attended(Full(TimedOut))
      else if s.Resolve? && s.g == g then Attended(Full(Reply(s.payload)))
      else if retires then Attended(Full(Obsolete)) else d
    case Attended(Full(a)) => if s == Finish(g) then Gone(a) else d
    case Gone(_) => d
  }

  function CellBox(c: Cell): Box {
    match c
    case Pending => Empty
    case Done(a) => Full(a)
    case Cancelled => Full(TimedOut)
  }

  function StoredBox(t: Table, g: Gen): Box
    requires t.Valid()
  {
    if g in t.results then Full(Reply(t.results[g]))
    else if g in t.futures then CellBox(t.cells[t.futures[g]])
    else Empty
  }

  ghost predicate Served(t: Table, phase: Phase, g: Gen) {
    t.Valid() && Owed(t, phase, g) && Apart(t, phase, g)
  }

  function DeskAt(t: Table, phase: Phase, g: Gen): Desk
    requires t.Valid() && (phase.Waiting? ==> phase.fut < |t.cells|)
  {
    match phase
    case Registered => Ready(StoredBox(t, g))
    case Waiting(f) => Attended(CellBox(t.cells[f]))
    case Answered(a) => Gone(a)
    case _ => Early(StoredBox(t, g))
  }

  function DeskOf(w: World, g: Gen): Desk
    requires CellsBelong(w) && g in w.calls
  {
    DeskAt(w.table, w.calls[g].phase, g)
  }

  lemma EveryoneIsServed(w: World, g: Gen)
    requires CellsBelong(w) && PhasesAgree(w) && g in w.calls
    ensures Served(w.table, w.calls[g].phase, g)
  {
    EveryoneIsApart(w, g);
  }

  lemma RetiredDesk(t: Table, phase: Phase, h: Gen, g: Gen, s: Step)
    requires Served(t, phase, g) && s.Retire?
    ensures Retired(t, h).Valid()
    ensures DeskAt(Retired(t, h), phase, g) == NextDesk(DeskAt(t, phase, g), s, g, h == g)
  {
  }

  lemma FetchedDesk(t: Table, phase: Phase, h: Gen, g: Gen)
    requires Served(t, phase, g)
    ensures Fetched(t, h).Valid() && Future(t, h) < |Fetched(t, h).cells|
    ensures h != g ==> DeskAt(Fetched(t, h), phase, g) == DeskAt(t, phase, g)
    ensures h == g && !phase.Registered? && !phase.Waiting? && !phase.Answered? ==>
      DeskAt(Fetched(t, h), Registered, g) == Ready(Empty)
    ensures h == g && phase.Registered? ==> DeskAt(Fetched(t, h), Waiting(Future(t, h)), g) == Attended(StoredBox(t, g))
  {
  }

  lemma ResolvedDesk(t: Table, phase: Phase, h: Gen, p: Payload, g: Gen)
    requires Served(t, phase, g)
    ensures Resolved(t, h, p).Valid()
    ensures DeskAt(Resolved(t, h, p), phase, g) == NextDesk(DeskAt(t, phase, g), Resolve(h, p), g, false)
  {
  }

  predicate Retires(w: World, s: Step, g: Gen) {
    s.Retire? && s.g in w.calls && w.calls[s.g].phase == Switched(Some(g))
  }

  lemma RetireMovesDesk(w: World, h: Gen, g: Gen)
    requires CellsBelong(w) && PhasesAgree(w) && Enabled(w, Retire(h)) && g in w.calls && CellsBelong(Do(w, Retire(h)))
    ensures g in Do(w, Retire(h)).calls
      && DeskOf(Do(w, Retire(h)), g) == NextDesk(DeskOf(w, g), Retire(h), g, Retires(w, Retire(h), g))
  {
    EveryoneIsServed(w, g);
    var previous := w.calls[h].phase.previous;
    if previous.Some? { RetiredDesk(w.table, w.calls[g].phase, previous.value, g, Retire(h)); }
  }

  lemma RegisterMovesDesk(w: World, h: Gen, g: Gen)
    requires CellsBelong(w) && PhasesAgree(w) && Enabled(w, Register(h)) && g in w.calls
      && CellsBelong(Do(w, Register(h)))
    ensures g in Do(w, Register(h)).calls
      && DeskOf(Do(w, Register(h)), g) == NextDesk(DeskOf(w, g), Register(h), g, false)
  {
    EveryoneIsServed(w, g);
    FetchedDesk(w.table, w.calls[g].phase, h, g);
  }

  lemma AwaitMovesDesk(w: World, h: Gen, g: Gen)
    requires CellsBelong(w) && PhasesAgree(w) && Enabled(w, Await(h)) && g in w.calls && CellsBelong(Do(w, Await(h)))
    ensures g in Do(w, Await(h)).calls && DeskOf(Do(w, Await(h)), g) == NextDesk(DeskOf(w, g), Await(h), g, false)
  {
    EveryoneIsServed(w, g);
    FetchedDesk(w.table, w.calls[g].phase, h, g);
  }

  lemma ResolveMovesDesk(w: World, h: Gen, p: Payload, g: Gen)
    requires CellsBelong(w) && PhasesAgree(w) && Enabled(w, Resolve(h, p)) && g in w.calls
      && CellsBelong(Do(w, Resolve(h, p)))
    ensures g in Do(w, Resolve(h, p)).calls
      && DeskOf(Do(w, Resolve(h, p)), g) == NextDesk(DeskOf(w, g), Resolve(h, p), g, false)
  {
    EveryoneIsServed(w, g);
    ResolvedDesk(w.table, w.calls[g].phase, h, p, g);
  }

  lemma LeftDesk(t: Table, phase: Phase, h: Gen, g: Gen)
    requires t.Valid() && (phase.Waiting? ==> phase.fut < |t.cells|) && h != g
    ensures Left(t, h).Valid() && DeskAt(Left(t, h), phase, g) == DeskAt(t, phase, g)
  {
  }

  lemma CancelledDesk(t: Table, phase: Phase, f: nat, g: Gen)
    requires Served(t, phase, g) && f < |t.cells| && t.cells[f] == Pending
    requires g in t.futures ==> t.futures[g] != f
    ensures DeskAt(t.(cells := Settle(t.cells, f, Cancelled)), phase, g) == DeskAt(t, phase, g)
  {
  }

  lemma TimeOutMovesDesk(w: World, h: Gen, g: Gen)
    requires CellsBelong(w) && PhasesAgree(w) && Enabled(w, TimeOut(h)) && g in w.calls
      && CellsBelong(Do(w, TimeOut(h)))
    ensures g in Do(w, TimeOut(h)).calls && DeskOf(Do(w, TimeOut(h)), g) == NextDesk(DeskOf(w, g), TimeOut(h), g, false)
  {
    EveryoneIsServed(w, g);
    assert w.home[w.calls[h].phase.fut] == h;
    if h != g { CancelledDesk(w.table, w.calls[g].phase, w.calls[h].phase.fut, g); }
  }

  lemma FinishMovesDesk(w: World, h: Gen, g: Gen)
    requires CellsBelong(w) && PhasesAgree(w) && Enabled(w, Finish(h)) && g in w.calls && CellsBelong(Do(w, Finish(h)))
    ensures g in Do(w, Finish(h)).calls && DeskOf(Do(w, Finish(h)), g) == NextDesk(DeskOf(w, g), Finish(h), g, false)
  {
    if h != g { LeftDesk(w.table, w.calls[g].phase, h, g); }
  }

  lemma QuietMovesDesk(w: World, s: Step, g: Gen)
    requires CellsBelong(w) && Enabled(w, s) && g in w.calls && (s.Read? || s.Switch? || s.Expire?)
    requires CellsBelong(Do(w, s))
    ensures g in Do(w, s).calls && DeskOf(Do(w, s), g) == NextDesk(DeskOf(w, g), s, g, false)
  {
  }

  /** The two dictionaries and the futures serve every generation as its own desk:
      any step of any call moves each desk as the simple form says. */
  lemma EveryGenerationHasItsDesk(w: World, s: Step, g: Gen)
    requires Inv(w) && Enabled(w, s) && g in w.calls
    ensures Inv(Do(w, s)) && g in Do(w, s).calls
    ensures DeskOf(Do(w, s), g) == NextDesk(DeskOf(w, g), s, g, Retires(w, s, g))
    ensures Retires(w, s, g) ==> Superseded(w, g)
  {
    StepKeepsInvariant(w, s);
    match s {
      case TimeOut(h) => TimeOutMovesDesk(w, h, g);
      case Finish(h) => FinishMovesDesk(w, h, g);
      case Read(_, _) => QuietMovesDesk(w, s, g);
      case Switch(_) => QuietMovesDesk(w, s, g);
      case Expire(_) => QuietMovesDesk(w, s, g);
      case Retire(h) => RetireMovesDesk(w, h, g);
      case Register(h) => RegisterMovesDesk(w, h, g);
      case Await(h) => AwaitMovesDesk(w, h, g);
      case Resolve(h, p) => ResolveMovesDesk(w, h, p, g);
    }
  }

  /** A wait can time out exactly while its box is empty and return exactly when it
      is full. */
  lemma WaitEndsWithTheBox(w: World, g: Gen)
    requires Inv(w) && g in w.calls && w.calls[g].phase.Waiting?
    ensures DeskOf(w, g).Attended?
    ensures Enabled(w, TimeOut(g)) <==> DeskOf(w, g).box == Empty
    ensures Enabled(w, Finish(g)) <==> DeskOf(w, g).box.Full?
  {
  }

  // --------------------------------------------------------------------- runs

  ghost predicate Run(w: World, steps: seq<Step>, v: World)
    decreases |steps|
  {
    if steps == [] then v == w
    else w.table.Valid() && Enabled(w, steps[0]) && Run(Do(w, steps[0]), steps[1..], v)
  }

  lemma {:induction false} RunKeepsInvariant(w: World, steps: seq<Step>, v: World)
    requires Inv(w) && Run(w, steps, v)
    ensures Inv(v)
    ensures forall g | Superseded(w, g) :: Superseded(v, g)
    decreases |steps|
  {
    if steps != [] {
      StepKeepsInvariant(w, steps[0]);
      forall g | Superseded(w, g) ensures Superseded(Do(w, steps[0]), g) { SupersededStays(w, steps[0], g); }
      RunKeepsInvariant(Do(w, steps[0]), steps[1..], v);
    }
  }

  /** From the start, whatever is interleaved: a waiter got a payload only if that
      payload was resolved for its generation, and was called obsolete only after a
      later generation of its user. */
  lemma AnswersAreTrue(steps: seq<Step>, v: World, g: Gen)
    requires Run(START, steps, v) && g in v.calls && v.calls[g].phase.Answered?
    ensures match v.calls[g].phase.answer
            case Reply(p) => (g, p) in v.resolved
            case Obsolete => Superseded(v, g)
            case TimedOut => true
  {
    RunKeepsInvariant(START, steps, v);
  }

  lemma SettledCellStays(w: World, s: Step, f: nat)
    requires Inv(w) && Enabled(w, s) && f < |w.table.cells| && w.table.cells[f] != Pending
    ensures f < |Do(w, s).table.cells| && Do(w, s).table.cells[f] == w.table.cells[f]
  {
  }

  /** A future completes at most once: no run changes a completed one. */
  lemma {:induction false} FuturesCompleteOnce(w: World, steps: seq<Step>, v: World, f: nat)
    requires Inv(w) && Run(w, steps, v) && f < |w.table.cells| && w.table.cells[f] != Pending
    ensures f < |v.table.cells| && v.table.cells[f] == w.table.cells[f]
    decreases |steps|
  {
    if steps != [] {
      StepKeepsInvariant(w, steps[0]);
      SettledCellStays(w, steps[0], f);
      FuturesCompleteOnce(Do(w, steps[0]), steps[1..], v, f);
    }
  }

  // ----------------------------------------------------------------- delivery

  predicate Holds(d: Desk, a: Answer) {
    d == Attended(Full(a)) || d == Gone(a)
  }

  /** The first answer a waiter is given is the one it returns. */
  lemma {:induction false} FirstAnswerWins(w: World, steps: seq<Step>, v: World, g: Gen, a: Answer)
    requires Inv(w) && Run(w, steps, v) && g in w.calls && Holds(DeskOf(w, g), a)
    ensures Inv(v) && g in v.calls && Holds(DeskOf(v, g), a)
    decreases |steps|
  {
    if steps != [] {
      AnswerStays(w, steps[0], g, a);
      FirstAnswerWins(Do(w, steps[0]), steps[1..], v, g, a);
    }
  }

  lemma AnswerStays(w: World, s: Step, g: Gen, a: Answer)
    requires Inv(w) && Enabled(w, s) && g in w.calls && Holds(DeskOf(w, g), a)
    ensures Inv(Do(w, s)) && g in Do(w, s).calls && Holds(DeskOf(Do(w, s), g), a)
  {
    EveryGenerationHasItsDesk(w, s, g);
  }

  /** The generation has registered, and what it has at hand or was answered is one
      of the payloads. */
  predicate Delivers(d: Desk, payloads: set<Payload>) {
    match d
    case Early(_) => false
    case Gone(a) => a.Reply? && a.payload in payloads
    case _ => d.box.Full? && d.box.answer.Reply? && d.box.answer.payload in payloads
  }

  function Payloads(steps: seq<Step>, g: Gen): set<Payload> {
    set s <- steps | s.Resolve? && s.g == g :: s.payload
  }

  lemma {:induction false} DeliveryStays(w: World, steps: seq<Step>, v: World, g: Gen, payloads: set<Payload>)
    requires Inv(w) && Run(w, steps, v) && g in w.calls && Delivers(DeskOf(w, g), payloads)
    requires Payloads(steps, g) <= payloads && !Superseded(v, g)
    ensures Inv(v) && g in v.calls && Delivers(DeskOf(v, g), payloads)
    decreases |steps|
  {
    if steps != [] {
      var s := steps[0];
      RunKeepsInvariant(w, steps, v);
      EveryGenerationHasItsDesk(w, s, g);
      assert s.Resolve? && s.g == g ==> s in steps && s.payload in Payloads(steps, g);
      assert Payloads(steps[1..], g) <= Payloads(steps, g);
      DeliveryStays(Do(w, s), steps[1..], v, g, payloads);
    }
  }

  /** A resolve that finds the generation registered, or waiting without an answer,
      is never lost while the generation is not superseded: the wait then cannot
      time out and ends with that payload or one resolved after it. */
  lemma ResolveIsNeverLost(w: World, g: Gen, p: Payload, steps: seq<Step>, v: World)
    requires Inv(w) && Enabled(w, Resolve(g, p)) && Run(Do(w, Resolve(g, p)), steps, v) && !Superseded(v, g)
    requires DeskOf(w, g).Ready? || DeskOf(w, g) == Attended(Empty)
    ensures Inv(v) && g in v.calls && Delivers(DeskOf(v, g), {p} + Payloads(steps, g))
  {
    EveryGenerationHasItsDesk(w, Resolve(g, p), g);
    DeliveryStays(Do(w, Resolve(g, p)), steps, v, g, {p} + Payloads(steps, g));
  }

  /** Nothing is at hand for the generation, now or once it registers. */
  predicate Starved(d: Desk) {
    d.Early? || d == Ready(Empty) || d == Attended(Empty) || Holds(d, TimedOut)
  }

  lemma {:induction false} StarvedStays(w: World, steps: seq<Step>, v: World, g: Gen)
    requires Inv(w) && Run(w, steps, v) && g in w.calls && Starved(DeskOf(w, g))
    requires Payloads(steps, g) == {} && !Superseded(v, g)
    ensures Inv(v) && g in v.calls && Starved(DeskOf(v, g))
    decreases |steps|
  {
    if steps != [] {
      assert forall p :: steps[0] == Resolve(g, p) ==> p in Payloads(steps, g);
      assert Payloads(steps[1..], g) <= Payloads(steps, g);
      RunKeepsInvariant(w, steps, v);
      StarvedStep(w, steps[0], g);
      StarvedStays(Do(w, steps[0]), steps[1..], v, g);
    }
  }

  lemma StarvedStep(w: World, s: Step, g: Gen)
    requires Inv(w) && Enabled(w, s) && g in w.calls && Starved(DeskOf(w, g)) && !Superseded(w, g)
    requires !(s.Resolve? && s.g == g)
    ensures Inv(Do(w, s)) && g in Do(w, s).calls && Starved(DeskOf(Do(w, s), g))
  {
    EveryGenerationHasItsDesk(w, s, g);
    StarvedDesk(DeskOf(w, g), s, g);
  }

  lemma StarvedDesk(d: Desk, s: Step, g: Gen)
    requires Starved(d) && !(s.Resolve? && s.g == g)
    ensures Starved(NextDesk(d, s, g, false))
  {
  }

  /** When exactly the only resolve of a generation that is never superseded
      reaches its waiter: when it does not come before the registration. */
  lemma ResolveCountsExactlyAfterRegistration(w: World, g: Gen, p: Payload, steps: seq<Step>, v: World)
    requires Inv(w) && Enabled(w, Resolve(g, p)) && Run(Do(w, Resolve(g, p)), steps, v)
    requires DeskOf(w, g).Early? || DeskOf(w, g).Ready? || DeskOf(w, g) == Attended(Empty)
    requires Payloads(steps, g) == {} && !Superseded(v, g) && g in v.calls && v.calls[g].phase.Answered?
    ensures v.calls[g].phase.answer == (if DeskOf(w, g).Early? then TimedOut else Reply(p))
  {
    if DeskOf(w, g).Early? {
      EveryGenerationHasItsDesk(w, Resolve(g, p), g);
      StarvedStays(Do(w, Resolve(g, p)), steps, v, g);
    } else {
      ResolveIsNeverLost(w, g, p, steps, v);
    }
  }

  // ------------------------------------------------------------ being obsolete

  /** Sends of one user that do not overlap: the next one wakes the waiter. */
  lemma NextSendWakesTheWaiter(w: World, g: Gen, h: Gen, user: User, v: World)
    requires Inv(w) && g in w.calls && DeskOf(w, g) == Attended(Empty)
    requires user in w.current && w.current[user] == g
    requires Run(w, [Read(h, user), Switch(h), Retire(h)], v)
    ensures Inv(v) && g in v.calls && DeskOf(v, g) == Attended(Full(Obsolete))
  {
    var steps := [Read(h, user), Switch(h), Retire(h)];
    assert steps[1..] == [Switch(h), Retire(h)] && steps[1..][1..] == [Retire(h)] && steps[1..][1..][1..] == [];
    EveryGenerationHasItsDesk(w, Read(h, user), g);
    SwitchAndRetire(Do(w, Read(h, user)), g, h, v);
  }

  lemma SwitchAndRetire(w: World, g: Gen, h: Gen, v: World)
    requires Inv(w) && g in w.calls && DeskOf(w, g) == Attended(Empty)
    requires h in w.calls && w.calls[h].phase == Reading(Some(g)) && Run(w, [Switch(h), Retire(h)], v)
    ensures Inv(v) && g in v.calls && DeskOf(v, g) == Attended(Full(Obsolete))
  {
    assert [Switch(h), Retire(h)][1..] == [Retire(h)] && [Retire(h)][1..] == [];
    EveryGenerationHasItsDesk(w, Switch(h), g);
    OneStep(Do(w, Switch(h)), Retire(h), v);
    EveryGenerationHasItsDesk(Do(w, Switch(h)), Retire(h), g);
  }

  lemma OneStep(w: World, s: Step, v: World)
    requires Run(w, [s], v)
    ensures w.table.Valid() && Enabled(w, s) && v == Do(w, s)
  {
    assert [s][1..] == [];
    assert Run(Do(w, s), [], v);
  }

  /** Nobody holds the generation any more, so nobody will retire it. */
  ghost predicate Forgotten(w: World, g: Gen) {
    && g in w.log
    && (forall u | u in w.current :: w.current[u] != g)
    && (forall h | h in w.calls :: w.calls[h].phase != Reading(Some(g)) && w.calls[h].phase != Switched(Some(g)))
  }

  /** When the user's key expires, its generation is forgotten unless some send has
      read it. */
  lemma ExpiryForgetsExactlyWhen(w: World, user: User, g: Gen)
    requires Inv(w) && user in w.current && w.current[user] == g
    ensures Forgotten(Do(w, Expire(user)), g) <==>
      forall h | h in w.calls :: w.calls[h].phase != Reading(Some(g)) && w.calls[h].phase != Switched(Some(g))
  {
  }

  lemma ForgottenStays(w: World, s: Step, g: Gen)
    requires Inv(w) && Enabled(w, s) && Forgotten(w, g)
    ensures Forgotten(Do(w, s), g) && !Retires(w, s, g)
  {
  }

  /** Two sends that both read before either switches: the first generation is
      superseded and forgotten. */
  lemma OverlappingSendsForgetTheFirst(w: World, g: Gen, h: Gen, user: User, v: World)
    requires Inv(w) && g != h && h !in w.calls
    requires Run(w, [Read(g, user), Read(h, user), Switch(g), Switch(h)], v)
    ensures Superseded(v, g) && Forgotten(v, g)
  {
    var steps := [Read(g, user), Read(h, user), Switch(g), Switch(h)];
    assert steps[1..] == [Read(h, user), Switch(g), Switch(h)];
    var w1 := Do(w, Read(g, user));
    StepKeepsInvariant(w, Read(g, user));
    assert steps[1..][1..] == [Switch(g), Switch(h)];
    var w2 := Do(w1, Read(h, user));
    StepKeepsInvariant(w1, Read(h, user));
    assert g !in w.log && w2.current == w.current && w2.log == w.log;
    assert w2.calls == w.calls[g := w1.calls[g]][h := w2.calls[h]];
    SecondSwitchForgets(w2, g, h, user, v);
  }

  lemma SecondSwitchForgets(w: World, g: Gen, h: Gen, user: User, v: World)
    requires Inv(w) && g != h && g in w.calls && h in w.calls
    requires w.calls[g].user == user == w.calls[h].user
    requires forall k | k in w.calls :: w.calls[k].phase != Reading(Some(g)) && w.calls[k].phase != Switched(Some(g))
    requires g !in w.log && Run(w, [Switch(g), Switch(h)], v)
    ensures Superseded(v, g) && Forgotten(v, g)
  {
    assert [Switch(g), Switch(h)][1..] == [Switch(h)];
    var w1 := Do(w, Switch(g));
    StepKeepsInvariant(w, Switch(g));
    OneStep(w1, Switch(h), v);
    assert v.log == w.log + [g, h];
    assert v.log[|w.log|] == g && v.log[|w.log| + 1] == h && SameUser(v, g, h);
  }

  /** Not called obsolete, and not about to be. */
  predicate Untold(d: Desk) {
    d != Gone(Obsolete) && (!d.Gone? ==> d.box != Full(Obsolete))
  }

  lemma ForgottenStep(w: World, s: Step, g: Gen)
    requires Inv(w) && Enabled(w, s) && Forgotten(w, g) && Untold(DeskOf(w, g))
    ensures Inv(Do(w, s)) && Forgotten(Do(w, s), g) && Untold(DeskOf(Do(w, s), g))
  {
    EveryGenerationHasItsDesk(w, s, g);
    ForgottenStays(w, s, g);
    NextUntold(DeskOf(w, g), s, g);
  }

  lemma NextUntold(d: Desk, s: Step, g: Gen)
    requires Untold(d)
    ensures Untold(NextDesk(d, s, g, false))
  {
  }

  /** A forgotten generation is never called obsolete, superseded or not: unless a
      payload comes its wait can only time out. */
  lemma {:induction false} ForgottenIsNeverObsolete(w: World, steps: seq<Step>, v: World, g: Gen)
    requires Inv(w) && Run(w, steps, v) && Forgotten(w, g) && Untold(DeskOf(w, g))
    ensures Inv(v) && g in v.calls && Untold(DeskOf(v, g))
    decreases |steps|
  {
    if steps != [] {
      ForgottenStep(w, steps[0], g);
      ForgottenIsNeverObsolete(Do(w, steps[0]), steps[1..], v, g);
    }
  }

  // ------------------------------------------- when a generation can be told

  ghost predicate Told(v: World, g: Gen) {
    Inv(v) && g in v.calls && DeskOf(v, g) == Attended(Full(Obsolete))
  }

  /** Some continuation calls the waiting generation obsolete. */
  ghost predicate CanBeTold(w: World, g: Gen) {
    exists steps, v :: Run(w, steps, v) && Told(v, g)
  }

  lemma {:induction false} LongerThanAll(gens: set<Gen>) returns (n: nat)
    ensures forall g <- gens :: |g| < n
  {
    if gens == {} {
      return 0;
    }
    var g :| g in gens;
    var m := LongerThanAll(gens - {g});
    n := if m > |g| then m else |g| + 1;
  }

  lemma SomeGenIsUnused(w: World) returns (h: Gen)
    ensures h !in w.calls
  {
    var n := LongerThanAll(w.calls.Keys);
    h := seq(n, _ => '0');
    assert h in w.calls ==> |h| < n;
  }

  /** A send that has switched away from the generation retires it. */
  lemma SwitchedTells(w: World, g: Gen, h: Gen)
    requires Inv(w) && g in w.calls && DeskOf(w, g) == Attended(Empty)
    requires h in w.calls && w.calls[h].phase == Switched(Some(g))
    ensures CanBeTold(w, g)
  {
    EveryGenerationHasItsDesk(w, Retire(h), g);
    var v := Do(w, Retire(h));
    RunBack(w, Retire(h), [], v);
    assert Told(v, g);
  }

  lemma FirstStepTells(w: World, s: Step, g: Gen)
    requires w.table.Valid() && Enabled(w, s) && CanBeTold(Do(w, s), g)
    ensures CanBeTold(w, g)
  {
    var steps, v :| Run(Do(w, s), steps, v) && Told(v, g);
    RunBack(w, s, steps, v);
  }

  /** So does one that has read it, once it switches. */
  lemma ReadingTells(w: World, g: Gen, h: Gen)
    requires Inv(w) && g in w.calls && DeskOf(w, g) == Attended(Empty)
    requires h in w.calls && w.calls[h].phase == Reading(Some(g))
    ensures CanBeTold(w, g)
  {
    EveryGenerationHasItsDesk(w, Switch(h), g);
    SwitchedTells(Do(w, Switch(h)), g, h);
    FirstStepTells(w, Switch(h), g);
  }

  /** And the next send of a user whose current generation it is. */
  lemma CurrentTells(w: World, g: Gen, user: User)
    requires Inv(w) && g in w.calls && DeskOf(w, g) == Attended(Empty)
    requires user in w.current && w.current[user] == g
    ensures CanBeTold(w, g)
  {
    var h := SomeGenIsUnused(w);
    EveryGenerationHasItsDesk(w, Read(h, user), g);
    ReadingTells(Do(w, Read(h, user)), g, h);
    FirstStepTells(w, Read(h, user), g);
  }

  /** A waiter without an answer can still be told that it is obsolete exactly when
      somebody holds its generation: as the current one of a user, or as the one
      read by a send that has not retired it. */
  lemma WaiterCanBeToldExactlyWhen(w: World, g: Gen)
    requires Inv(w) && g in w.log && DeskOf(w, g) == Attended(Empty)
    ensures CanBeTold(w, g) <==> !Forgotten(w, g)
  {
    if Forgotten(w, g) {
      forall steps, v | Run(w, steps, v) ensures !Told(v, g) {
        ForgottenIsNeverObsolete(w, steps, v, g);
      }
    } else if user :| user in w.current && w.current[user] == g {
      CurrentTells(w, g, user);
    } else {
      var h :| h in w.calls && (w.calls[h].phase == Reading(Some(g)) || w.calls[h].phase == Switched(Some(g)));
      if w.calls[h].phase.Reading? { ReadingTells(w, g, h); } else { SwitchedTells(w, g, h); }
    }
  }

  /** The step a generation's own send takes next on its way to the wait. */
  function NextOwnStep(p: Phase, g: Gen): Option<Step> {
    match p
    case Switched(_) => Some(Retire(g))
    case Drawn => Some(Register(g))
    case Registered => Some(Await(g))
    case _ => None
  }

  lemma HolderStays(w: World, g: Gen)
    requires Inv(w) && g in w.log && g in w.calls && !Forgotten(w, g) && NextOwnStep(w.calls[g].phase, g).Some?
    ensures var s := NextOwnStep(w.calls[g].phase, g).value;
      w.table.Valid() && Enabled(w, s) && g in Do(w, s).log && !Forgotten(Do(w, s), g)
  {
    var v := Do(w, NextOwnStep(w.calls[g].phase, g).value);
    assert v.log == w.log && v.current == w.current;
    if h :| h in w.calls && (w.calls[h].phase == Reading(Some(g)) || w.calls[h].phase == Switched(Some(g))) {
      assert h != g && h in v.calls && v.calls[h] == w.calls[h];
    }
  }

  /** Nothing is at hand for the generation, or will be when it has registered. */
  predicate WithoutAnswer(d: Desk) {
    d.Early? || d == Ready(Empty) || d == Attended(Empty)
  }

  lemma EarlyIsUntold(w: World, g: Gen)
    requires Inv(w) && g in w.calls && WithoutAnswer(DeskOf(w, g))
    ensures Untold(DeskOf(w, g))
  {
  }

  function StepsToWait(p: Phase): nat {
    match p
    case Switched(_) => 3
    case Drawn => 2
    case Registered => 1
    case _ => 0
  }

  lemma {:induction false} HeldCanBeTold(w: World, g: Gen)
    requires Inv(w) && g in w.log && !Forgotten(w, g) && WithoutAnswer(DeskOf(w, g))
    ensures CanBeTold(w, g)
    decreases StepsToWait(w.calls[g].phase)
  {
    if DeskOf(w, g) == Attended(Empty) {
      WaiterCanBeToldExactlyWhen(w, g);
    } else {
      var s := NextOwnStep(w.calls[g].phase, g).value;
      HolderStays(w, g);
      EveryGenerationHasItsDesk(w, s, g);
      HeldCanBeTold(Do(w, s), g);
      FirstStepTells(w, s, g);
    }
  }

  /** The same from the moment the generation is current, before it has registered
      or waits, as long as no answer is at hand. */
  lemma GenerationCanBeToldExactlyWhen(w: World, g: Gen)
    requires Inv(w) && g in w.log && WithoutAnswer(DeskOf(w, g))
    ensures CanBeTold(w, g) <==> !Forgotten(w, g)
  {
    if Forgotten(w, g) {
      EarlyIsUntold(w, g);
      forall steps, v | Run(w, steps, v) ensures !Told(v, g) {
        ForgottenIsNeverObsolete(w, steps, v, g);
      }
    } else {
      HeldCanBeTold(w, g);
    }
  }

  /** A bundle that reads the new generation before the send has registered it:
      its answer is dropped and the wait times out. */
  lemma EarlyResolveIsDropped(g: Gen, user: User, p: Payload)
    ensures exists v ::
      && Run(START,
             [Read(g, user), Switch(g), Resolve(g, p), Retire(g), Register(g)] + [Await(g), TimeOut(g), Finish(g)], v)
      && (g, p) in v.resolved && g in v.calls && v.calls[g].phase == Answered(TimedOut) && v.log == [g]
  {
    var middle := RegisteredLate(g, user, p);
    EarlyResolve(g, user, p);
    var w1 := Do(middle, Await(g));
    var w2 := Do(w1, TimeOut(g));
    var v := Do(w2, Finish(g));
    RunBack(w2, Finish(g), [], v);
    RunBack(w1, TimeOut(g), [Finish(g)], v);
    RunBack(middle, Await(g), [TimeOut(g), Finish(g)], v);
    RunJoin(START, [Read(g, user), Switch(g), Resolve(g, p), Retire(g), Register(g)], middle,
      [Await(g), TimeOut(g), Finish(g)], v);
  }

  function RegisteredLate(g: Gen, user: User, p: Payload): World {
    World(Table(map[], map[], [Done(Reply(p))]), map[user := g], map[g := Call(user, Registered)], [g], [g], {(g, p)})
  }

  function ResolvedEarly(g: Gen, user: User, p: Payload): World {
    World(Table(map[], map[g := p], []), map[user := g], map[g := Call(user, Switched(None))], [g], [], {(g, p)})
  }

  lemma EarlyResolve(g: Gen, user: User, p: Payload)
    ensures Run(START, [Read(g, user), Switch(g), Resolve(g, p), Retire(g), Register(g)], RegisteredLate(g, user, p))
  {
    UntilResolved(g, user, p);
    ThenRegistered(g, user, p);
    RunJoin(START, [Read(g, user), Switch(g), Resolve(g, p)], ResolvedEarly(g, user, p), [Retire(g), Register(g)],
      RegisteredLate(g, user, p));
    assert [Read(g, user), Switch(g), Resolve(g, p)] + [Retire(g), Register(g)]
        == [Read(g, user), Switch(g), Resolve(g, p), Retire(g), Register(g)];
  }

  lemma UntilResolved(g: Gen, user: User, p: Payload)
    ensures Run(START, [Read(g, user), Switch(g), Resolve(g, p)], ResolvedEarly(g, user, p))
  {
    var w1 := World(Table(map[], map[], []), map[], map[g := Call(user, Reading(None))], [], [], {});
    var w2 := World(Table(map[], map[], []), map[user := g], map[g := Call(user, Switched(None))], [g], [], {});
    assert Do(START, Read(g, user)) == w1 && Do(w1, Switch(g)) == w2
      && Do(w2, Resolve(g, p)) == ResolvedEarly(g, user, p);
    RunBack(w2, Resolve(g, p), [], ResolvedEarly(g, user, p));
    RunBack(w1, Switch(g), [Resolve(g, p)], ResolvedEarly(g, user, p));
    RunBack(START, Read(g, user), [Switch(g), Resolve(g, p)], ResolvedEarly(g, user, p));
  }

  lemma ThenRegistered(g: Gen, user: User, p: Payload)
    ensures Run(ResolvedEarly(g, user, p), [Retire(g), Register(g)], RegisteredLate(g, user, p))
  {
    var w := ResolvedEarly(g, user, p);
    var w1 := w.(calls := map[g := Call(user, Drawn)]);
    assert Do(w, Retire(g)) == w1;
    assert map[g := p] - {g} == map[];
    assert Do(w1, Register(g)) == RegisteredLate(g, user, p);
    RunBack(w1, Register(g), [], RegisteredLate(g, user, p));
    RunBack(w, Retire(g), [Register(g)], RegisteredLate(g, user, p));
  }

  lemma RunBack(w: World, s: Step, steps: seq<Step>, v: World)
    requires w.table.Valid() && Enabled(w, s) && Run(Do(w, s), steps, v)
    ensures Run(w, [s] + steps, v)
  {
    assert ([s] + steps)[1..] == steps;
  }

  lemma {:induction false} RunJoin(w: World, first: seq<Step>, middle: World, later: seq<Step>, v: World)
    requires Run(w, first, middle) && Run(middle, later, v)
    ensures Run(w, first + later, v)
    decreases |first|
  {
    if first == [] {
      assert first + later == later;
    } else {
      RunJoin(Do(w, first[0]), first[1..], middle, later, v);
      assert (first + later)[1..] == first[1..] + later;
    }
  }
}
