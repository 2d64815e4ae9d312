/** What every run of reserve and advance calls keeps, under any mix of
    profiles, refused calls, and stops between the two writes. */
module CampaignRuns {
  import opened Results
  import opened CampaignLedger
  import opened CampaignSteps

  datatype Call =
    | Reserving(reserve: ReserveCall, fate: Fate)
    | Advancing(advance: AdvanceCall, fate: Fate)

  function Step(sha: Digest, d: Directory, call: Call): Directory {
    match call
    case Reserving(c, fate) => ReserveStep(sha, c, d, fate).0
    case Advancing(c, fate) => AdvanceStep(sha, c, d, fate).0
  }

  /** The directory after the calls, starting from an empty one. */
  function Run(sha: Digest, calls: seq<Call>): Directory {
    if calls == [] then Directory(Absent, map[])
    else Step(sha, Run(sha, calls[..|calls| - 1]), calls[|calls| - 1])
  }

  // --------------------------------------------------------------- invariant

  /** The profile whose tables cover every profile of the ledger's family. */
  function Family(p: Profile): Profile { if p.IsM1() then CancelRetry else Default }

  function Home(l: Ledger): Profile { if l.maxAttempts <= 6 then CancelRetry else Default }

  ghost predicate Progressing(epochs: seq<Epoch>) {
    forall i | 1 <= i < |epochs| ::
      var before := epochs[i - 1].body;
      !SameBinding(epochs[i], Frozen("", before.matrix, before.runtime), before.baseline)
  }

  ghost predicate TenMinuteRule(l: Ledger) {
    |l.epochs| == 6 ==>
      && 15 <= |l.attempts|
      && (forall i | 0 <= i < 15 :: l.attempts[i].kind != S06Start)
      && l.epochs[5].body.baseline == l.epochs[4].body.baseline
  }

  /** The reservation that attempt `i` should have, from its own epoch's hashes. */
  function ReservationFor(l: Ledger, i: nat): Reservation
    requires i < |l.attempts| && 1 <= l.attempts[i].epoch <= |l.epochs|
  {
    var e := l.epochs[l.attempts[i].epoch - 1].body;
    ReservationOf(Frozen(l.campaign, e.matrix, e.runtime), l.attempts[i])
  }

  /** Attempt `i` is the one reservation `id` was published for. */
  ghost predicate Backs(l: Ledger, id: string, r: Reservation, i: int) {
    && 0 <= i < |l.attempts| && 1 <= l.attempts[i].epoch <= |l.epochs|
    && l.attempts[i].id == id && r == ReservationFor(l, i)
  }

  ghost predicate Backed(l: Ledger, reservations: map<string, Reservation>) {
    forall id | id in reservations :: Backs(l, id, reservations[id], reservations[id].ordinal - 1)
  }

  ghost predicate Inv(sha: Digest, d: Directory) {
    match d.file
    case Absent => d.reservations == map[]
    case Malformed => false
    case Document(l) =>
      && ValidLedger(Home(l), sha, l)
      && Progressing(l.epochs)
      && TenMinuteRule(l)
      && Backed(l, d.reservations)
  }

  // ------------------------------------------------------ families of profiles

  /** A ledger valid under a profile is valid under its family, and no profile of
      the other family accepts it. */
  lemma FamilyCovers(p: Profile, sha: Digest, l: Ledger)
    requires ValidLedger(p, sha, l)
    ensures Home(l) == Family(p) && ValidLedger(Home(l), sha, l)
  {
    assert Batches(p) <= Batches(Family(p));
    forall i | 0 <= i < |l.epochs| ensures EpochOk(Home(l), sha, l.epochs, i) {
      assert EpochOk(p, sha, l.epochs, i);
    }
    forall i | 0 <= i < |l.attempts| ensures AttemptOk(Home(l), l.active, l.attempts, i) {
      assert AttemptOk(p, l.active, l.attempts, i);
    }
  }

  lemma OtherFamilyIsRefused(sha: Digest, d: Directory, call: Call)
    requires Inv(sha, d) && d.file.Document?
    requires Home(d.file.ledger) != Family(if call.Reserving? then call.reserve.profile else call.advance.profile)
    ensures Step(sha, d, call) == d
  {
    var p := if call.Reserving? then call.reserve.profile else call.advance.profile;
    if ValidLedger(p, sha, d.file.ledger) {
      FamilyCovers(p, sha, d.file.ledger);
    }
  }

  // --------------------------------------------------- validation never fails

  /** Once the guards of an advance pass, what it would write is valid. */
  lemma GuardedAdvanceIsValid(sha: Digest, c: AdvanceCall, d: Directory)
    requires HexDigest(sha) && Inv(sha, d) && AdvanceOpen(sha, c, d.file).Ok?
    ensures AdvanceStep(sha, c, d, Completes).1.Ok?
  {
    OpenLeavesABatch(sha, c, d.file);
    var l := d.file.ledger;
    var p := c.profile;
    FamilyCovers(p, sha, l);
    var after := WithEpoch(sha, c, l);
    NewBudget(sha, c, d);
    OldPartsStayOk(p, sha, l, after);
    NewEpochIsOk(sha, c, d);
  }

  lemma NewEpochIsOk(sha: Digest, c: AdvanceCall, d: Directory)
    requires HexDigest(sha) && Inv(sha, d) && AdvanceOpen(sha, c, d.file).Ok?
    ensures d.file.Document? && c.evidence.File? && c.registeredAt.Aware?
    ensures 1 <= |d.file.ledger.epochs| < |Batches(c.profile)|
    ensures EpochOk(c.profile, sha, WithEpoch(sha, c, d.file.ledger).epochs, |d.file.ledger.epochs|)
  {
    OpenLeavesABatch(sha, c, d.file);
    var epochs := d.file.ledger.epochs;
    assert EpochOk(c.profile, sha, epochs, |epochs| - 1);
  }

  lemma OldPartsStayOk(p: Profile, sha: Digest, l: Ledger, after: Ledger)
    requires ValidLedger(p, sha, l) && l.epochs <= after.epochs && |after.epochs| <= |Batches(p)|
      && after.attempts == l.attempts && l.active <= after.active
    ensures forall i | 0 <= i < |l.epochs| :: EpochOk(p, sha, after.epochs, i)
    ensures forall i | 0 <= i < |after.attempts| :: AttemptOk(p, after.active, after.attempts, i)
  {
    forall i | 0 <= i < |l.epochs| ensures EpochOk(p, sha, after.epochs, i) {
      assert EpochOk(p, sha, l.epochs, i);
    }
    forall i | 0 <= i < |after.attempts| ensures AttemptOk(p, after.active, after.attempts, i) {
      assert AttemptOk(p, l.active, l.attempts, i);
    }
  }

  /** The budget after an advance: it is the new epoch's limit and still covers
      the attempts made, also where it drops from 18 to 16. */
  lemma NewBudget(sha: Digest, c: AdvanceCall, d: Directory)
    requires Inv(sha, d) && AdvanceOpen(sha, c, d.file).Ok?
    ensures d.file.Document? && c.evidence.File? && c.registeredAt.Aware?
    ensures 1 <= |d.file.ledger.epochs| < |Batches(c.profile)|
    ensures var after := WithEpoch(sha, c, d.file.ledger);
      after.maxAttempts == LimitForEpoch(c.profile, after.active) && |after.attempts| <= after.maxAttempts
  {
    OpenLeavesABatch(sha, c, d.file);
  }

  ghost predicate Sealed(l: Ledger, epoch: int) {
    exists i | 0 <= i < |l.attempts| :: l.attempts[i].kind == AdminAck && l.attempts[i].epoch == epoch
  }

  ghost predicate UsedId(l: Ledger, id: string) {
    exists i | 0 <= i < |l.attempts| :: l.attempts[i].id == id
  }

  /** The ledger a first reserve creates is itself valid. */
  lemma FirstLedgerIsValid(sha: Digest, c: ReserveCall)
    requires HexDigest(sha) && ReserveRefusal(sha, c).None?
    requires c.registeredAt.Aware? && !c.profile.IsRecovery()
    ensures ValidLedger(c.profile, sha, FirstLedger(sha, c))
  {
  }

  lemma OpenedLedgerIsValid(sha: Digest, c: ReserveCall, d: Directory)
    requires HexDigest(sha) && Inv(sha, d) && ReserveOpen(sha, c, d.file).Ok?
    ensures var l := ReserveOpen(sha, c, d.file).value;
      && ValidLedger(c.profile, sha, l)
      && l == (if d.file.Absent? then FirstLedger(sha, c) else d.file.ledger)
      && Progressing(l.epochs) && TenMinuteRule(l) && Backed(l, d.reservations)
  {
    if d.file.Absent? {
      FirstLedgerIsValid(sha, c);
    }
  }

  /** A guarded reserve with a well-formed id fails validation exactly on a used
      id or a sealed epoch. */
  lemma GuardedReserveFailsExactlyWhen(sha: Digest, c: ReserveCall, d: Directory)
    requires HexDigest(sha) && Inv(sha, d)
    requires ReserveOpen(sha, c, d.file).Ok? && CanonicalUuid(c.attemptId)
    ensures var l := ReserveOpen(sha, c, d.file).value;
      ReserveStep(sha, c, d, Completes).1 == Err(WouldBeInvalid)
      <==> UsedId(l, c.attemptId) || Sealed(l, l.active)
  {
    OpenedLedgerIsValid(sha, c, d);
    var l := ReserveOpen(sha, c, d.file).value;
    var a := NextAttempt(c, l);
    AppendingIsValidWhen(c.profile, sha, l, a);
  }

  lemma AppendingIsValidWhen(p: Profile, sha: Digest, l: Ledger, a: Attempt)
    requires ValidLedger(p, sha, l) && TenMinuteRule(l)
    requires CanonicalUuid(a.id) && a.ordinal == |l.attempts| + 1 && a.epoch == l.active
    requires a.kind in Kinds(p) && a.reservedAt.Utc? && |l.attempts| < l.maxAttempts
    requires l.active == 6 ==> a.kind == S06Start
    ensures ValidLedger(p, sha, WithAttempt(l, a)) <==> !UsedId(l, a.id) && !Sealed(l, l.active)
  {
    var n := |l.attempts|;
    var after := WithAttempt(l, a);
    assert after.attempts[n] == a;
    forall i | 0 <= i < n
      ensures AttemptOk(p, after.active, after.attempts, i) && l.attempts[i].epoch <= a.epoch
      ensures after.attempts[i] == l.attempts[i]
    {
      assert AttemptOk(p, l.active, l.attempts, i);
    }
    assert AttemptOk(p, after.active, after.attempts, n) <==> !UsedId(l, a.id) && !Sealed(l, l.active) by {
      if AttemptOk(p, after.active, after.attempts, n) {
        assert forall i | 0 <= i < n :: after.attempts[i].id != a.id;
      }
    }
  }

  // ------------------------------------------------------------ preservation

  /** What a reserve does to the directory: nothing, or it appends one attempt to
      a ledger that stays valid, and links the attempt's reservation unless it
      stopped before that. */
  lemma ReserveOutcome(sha: Digest, c: ReserveCall, d: Directory, fate: Fate)
    requires HexDigest(sha) && Inv(sha, d)
    ensures ReserveStep(sha, c, d, fate).0 == d || ReserveOpen(sha, c, d.file).Ok?
    ensures ReserveStep(sha, c, d, fate).0 != d ==>
      var l, d' := ReserveOpen(sha, c, d.file).value, ReserveStep(sha, c, d, fate).0;
      var a := NextAttempt(c, l);
      && ValidLedger(c.profile, sha, WithAttempt(l, a))
      && d'.file == Document(WithAttempt(l, a))
      && (d'.reservations == d.reservations || d'.reservations == d.reservations[a.id := ReservationOf(c.frozen, a)])
  {
  }

  /** A valid extension uses an id that no attempt and so no reservation has. */
  lemma NewIdIsFresh(p: Profile, sha: Digest, l: Ledger, a: Attempt, reservations: map<string, Reservation>)
    requires ValidLedger(p, sha, WithAttempt(l, a)) && Backed(l, reservations)
    ensures !UsedId(l, a.id) && a.id !in reservations
  {
    var after := WithAttempt(l, a);
    assert AttemptOk(p, after.active, after.attempts, |l.attempts|);
    forall i | 0 <= i < |l.attempts| ensures l.attempts[i].id != a.id {
      assert after.attempts[i] == l.attempts[i];
    }
  }

  lemma AppendPreserves(
    p: Profile, sha: Digest, l: Ledger, a: Attempt, frozen: Frozen,
    reservations: map<string, Reservation>, linked: map<string, Reservation>)
    requires ValidLedger(p, sha, l) && ValidLedger(p, sha, WithAttempt(l, a))
    requires Progressing(l.epochs) && TenMinuteRule(l) && Backed(l, reservations)
    requires a.epoch == l.active && a.ordinal == |l.attempts| + 1
    requires frozen == Frozen(l.campaign, l.epochs[l.active - 1].body.matrix, l.epochs[l.active - 1].body.runtime)
    requires linked == reservations || linked == reservations[a.id := ReservationOf(frozen, a)]
    ensures Inv(sha, Directory(Document(WithAttempt(l, a)), linked))
  {
    FamilyCovers(p, sha, WithAttempt(l, a));
    assert TenMinuteRule(WithAttempt(l, a));
    NewReservationIsBacked(l, a, frozen, reservations, linked);
  }

  lemma NewReservationIsBacked(
    l: Ledger, a: Attempt, frozen: Frozen, reservations: map<string, Reservation>, linked: map<string, Reservation>)
    requires Backed(l, reservations) && a.epoch == l.active && 1 <= l.active <= |l.epochs|
    requires a.ordinal == |l.attempts| + 1
    requires frozen == Frozen(l.campaign, l.epochs[l.active - 1].body.matrix, l.epochs[l.active - 1].body.runtime)
    requires linked == reservations || linked == reservations[a.id := ReservationOf(frozen, a)]
    ensures Backed(WithAttempt(l, a), linked)
  {
    BackingSurvives(l, WithAttempt(l, a), reservations);
    assert Backs(WithAttempt(l, a), a.id, ReservationOf(frozen, a), |l.attempts|);
  }

  lemma ReservePreserves(sha: Digest, c: ReserveCall, d: Directory, fate: Fate)
    requires HexDigest(sha) && Inv(sha, d)
    ensures Inv(sha, ReserveStep(sha, c, d, fate).0)
  {
    ReserveOutcome(sha, c, d, fate);
    var d' := ReserveStep(sha, c, d, fate).0;
    if d' != d {
      OpenedLedgerIsValid(sha, c, d);
      var l := ReserveOpen(sha, c, d.file).value;
      OpenedLedgerIsBound(sha, c, d);
      AppendPreserves(c.profile, sha, l, NextAttempt(c, l), c.frozen, d.reservations, d'.reservations);
    }
  }

  /** An attempt is appended only to a ledger whose active epoch has exactly the
      caller's campaign, hashes and baseline. */
  lemma OpenedLedgerIsBound(sha: Digest, c: ReserveCall, d: Directory)
    requires HexDigest(sha) && Inv(sha, d) && ReserveOpen(sha, c, d.file).Ok?
    ensures var l := ReserveOpen(sha, c, d.file).value;
      && 1 <= l.active <= |l.epochs| && l.campaign == c.frozen.campaign
      && SameBinding(l.epochs[l.active - 1], c.frozen, c.baseline)
  {
    OpenedLedgerIsValid(sha, c, d);
  }

  /** Linking a reservation never meets an existing file. */
  lemma LinkNeverCollides(sha: Digest, c: ReserveCall, d: Directory, fate: Fate)
    requires HexDigest(sha) && Inv(sha, d)
    ensures ReserveStep(sha, c, d, fate).1 != Err(ReservationExists)
  {
    if ReserveOpen(sha, c, d.file).Ok? {
      OpenedLedgerIsValid(sha, c, d);
      var l := ReserveOpen(sha, c, d.file).value;
      var a := NextAttempt(c, l);
      if ValidLedger(c.profile, sha, WithAttempt(l, a)) {
        NewIdIsFresh(c.profile, sha, l, a, d.reservations);
      }
    }
  }

  /** Growing a ledger at its end leaves every published reservation backed. */
  lemma BackingSurvives(l: Ledger, after: Ledger, reservations: map<string, Reservation>)
    requires Backed(l, reservations) && l.campaign == after.campaign
    requires l.epochs <= after.epochs && l.attempts <= after.attempts
    ensures Backed(after, reservations)
  {
    forall id | id in reservations
      ensures Backs(after, id, reservations[id], reservations[id].ordinal - 1)
    {
      assert Backs(l, id, reservations[id], reservations[id].ordinal - 1);
    }
  }

  lemma AdvancePreserves(sha: Digest, c: AdvanceCall, d: Directory, fate: Fate)
    requires HexDigest(sha) && Inv(sha, d)
    ensures Inv(sha, AdvanceStep(sha, c, d, fate).0)
    ensures AdvanceStep(sha, c, d, fate).1 != Err(WouldBeInvalid)
  {
    if AdvanceOpen(sha, c, d.file).Ok? {
      GuardedAdvanceIsValid(sha, c, d);
      OpenLeavesABatch(sha, c, d.file);
      var l := d.file.ledger;
      var after := WithEpoch(sha, c, l);
      FamilyCovers(c.profile, sha, after);
      BackingSurvives(l, after, d.reservations);
      AdvanceKeepsRules(sha, c, d);
    }
  }

  lemma AdvanceKeepsRules(sha: Digest, c: AdvanceCall, d: Directory)
    requires Inv(sha, d) && AdvanceOpen(sha, c, d.file).Ok?
    ensures d.file.Document? && c.evidence.File? && c.registeredAt.Aware?
    ensures 1 <= |d.file.ledger.epochs| < |Batches(c.profile)|
    ensures var after := WithEpoch(sha, c, d.file.ledger); Progressing(after.epochs) && TenMinuteRule(after)
  {
    AdvanceProgresses(sha, c, d);
    OpenLeavesABatch(sha, c, d.file);
    assert TenMinuteRule(WithEpoch(sha, c, d.file.ledger));
  }

  lemma AdvanceProgresses(sha: Digest, c: AdvanceCall, d: Directory)
    requires Inv(sha, d) && AdvanceOpen(sha, c, d.file).Ok?
    ensures d.file.Document? && c.evidence.File? && c.registeredAt.Aware?
    ensures 1 <= |d.file.ledger.epochs| < |Batches(c.profile)|
    ensures Progressing(WithEpoch(sha, c, d.file.ledger).epochs)
  {
    OpenLeavesABatch(sha, c, d.file);
  }

  lemma StepPreserves(sha: Digest, d: Directory, call: Call)
    requires HexDigest(sha) && Inv(sha, d)
    ensures Inv(sha, Step(sha, d, call))
  {
    match call
    case Reserving(c, fate) => ReservePreserves(sha, c, d, fate);
    case Advancing(c, fate) => AdvancePreserves(sha, c, d, fate);
  }

  /** The invariant holds after every run. */
  lemma {:induction false} RunKeepsInvariant(sha: Digest, calls: seq<Call>)
    requires HexDigest(sha)
    ensures Inv(sha, Run(sha, calls))
  {
    if calls != [] {
      RunKeepsInvariant(sha, calls[..|calls| - 1]);
      StepPreserves(sha, Run(sha, calls[..|calls| - 1]), calls[|calls| - 1]);
    }
  }

  /** In every run no advance and no link ever fails for what the ledger holds. */
  lemma NoRunFailsLate(sha: Digest, calls: seq<Call>, advance: AdvanceCall, reserve: ReserveCall, fate: Fate)
    requires HexDigest(sha)
    ensures AdvanceStep(sha, advance, Run(sha, calls), fate).1 != Err(WouldBeInvalid)
    ensures ReserveStep(sha, reserve, Run(sha, calls), fate).1 != Err(ReservationExists)
  {
    RunKeepsInvariant(sha, calls);
    AdvancePreserves(sha, advance, Run(sha, calls), fate);
    LinkNeverCollides(sha, reserve, Run(sha, calls), fate);
  }

  // ------------------------------------------------------------- history grows

  /** `later` has every epoch, attempt and reservation of `d`, and has not
      published a reservation for an old attempt that had none. */
  ghost predicate Extends(d: Directory, later: Directory) {
    && (d.file.Document? ==>
          && later.file.Document?
          && d.file.ledger.campaign == later.file.ledger.campaign
          && d.file.ledger.epochs <= later.file.ledger.epochs
          && d.file.ledger.attempts <= later.file.ledger.attempts
          && forall i | 0 <= i < |d.file.ledger.attempts| ::
               d.file.ledger.attempts[i].id in later.reservations ==> d.file.ledger.attempts[i].id in d.reservations)
    && forall id | id in d.reservations :: id in later.reservations && later.reservations[id] == d.reservations[id]
  }

  lemma StepExtends(sha: Digest, d: Directory, call: Call)
    requires HexDigest(sha) && Inv(sha, d)
    ensures Extends(d, Step(sha, d, call))
  {
    match call
    case Reserving(c, fate) => ReserveExtends(sha, c, d, fate);
    case Advancing(c, fate) => AdvanceExtends(sha, c, d, fate);
  }

  lemma AdvanceExtends(sha: Digest, c: AdvanceCall, d: Directory, fate: Fate)
    ensures Extends(d, AdvanceStep(sha, c, d, fate).0)
  {
    if AdvanceOpen(sha, c, d.file).Ok? {
      OpenLeavesABatch(sha, c, d.file);
      var after := WithEpoch(sha, c, d.file.ledger);
      assert after.attempts == d.file.ledger.attempts && d.file.ledger.epochs <= after.epochs;
    }
  }

  lemma ReserveExtends(sha: Digest, c: ReserveCall, d: Directory, fate: Fate)
    requires HexDigest(sha) && Inv(sha, d)
    ensures Extends(d, ReserveStep(sha, c, d, fate).0)
  {
    ReserveOutcome(sha, c, d, fate);
    if ReserveStep(sha, c, d, fate).0 != d {
      OpenedLedgerIsValid(sha, c, d);
      var l := ReserveOpen(sha, c, d.file).value;
      NewIdIsFresh(c.profile, sha, l, NextAttempt(c, l), d.reservations);
    }
  }

  lemma ExtendsIsTransitive(a: Directory, b: Directory, c: Directory)
    requires Extends(a, b) && Extends(b, c)
    ensures Extends(a, c)
  {
    if a.file.Document? {
      forall i | 0 <= i < |a.file.ledger.attempts| && a.file.ledger.attempts[i].id in c.reservations
        ensures a.file.ledger.attempts[i].id in a.reservations
      {
        assert b.file.ledger.attempts[i] == a.file.ledger.attempts[i];
      }
    }
  }

  /** Along a run the directory only grows: epochs, attempts and reservations of
      an earlier moment are there, unchanged, at every later one, and an attempt
      that lost its reservation to a crash never gets one. */
  lemma {:induction false} HistoryOnlyGrows(sha: Digest, calls: seq<Call>, n: nat)
    requires HexDigest(sha) && n <= |calls|
    ensures Extends(Run(sha, calls[..n]), Run(sha, calls))
  {
    if n == |calls| {
      assert calls[..n] == calls;
    } else {
      var shorter := calls[..|calls| - 1];
      assert shorter[..n] == calls[..n];
      HistoryOnlyGrows(sha, shorter, n);
      RunKeepsInvariant(sha, shorter);
      StepExtends(sha, Run(sha, shorter), calls[|calls| - 1]);
      ExtendsIsTransitive(Run(sha, calls[..n]), Run(sha, shorter), Run(sha, calls));
    }
  }
}
