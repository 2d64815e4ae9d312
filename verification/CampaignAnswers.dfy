/** When reserving and advancing succeed, what they write, and what they answer: said
    of the call, the ledger and the reservations, with the tables spelled out. */
module CampaignAnswers {
  import opened Results
  import opened CampaignLedger
  import opened CampaignSteps
  import opened CampaignRuns

  // ---------------------------------------------------------------------- reserving

  predicate KindAllowed(p: Profile, kind: Kind) {
    match p
    case Default => !kind.UnknownKind?
    case Protocol => kind == S01Start || kind == S01Reconnect || kind == AdminAck
    case _ => kind == S01Start
  }

  /** The dimensions an M1 profile insists on. */
  predicate VersionsOf(p: Profile, d: Dimensions) {
    && d.provider == "doubao-s2s-strong-character" && d.model == "2.2.0.0"
    && d.protocol == "dialogue-v3-binary-gzip-json-pcm16"
    && match p
       case Protocol => d.adapter == "b937a78-step004-evidence-v7" && d.suite == "step004-o01-v7"
       case Recovery => d.adapter == "b937a78-step004-evidence-v8" && d.suite == "step004-o01-v8"
       case _ => d.adapter == "b937a78-step004-evidence-v9" && d.suite == "step004-o01-v9"
  }

  /** What a reserve asks of its arguments: an M1 profile that its authorization names
      this very campaign, matrix and runtime. */
  predicate ReserveArguments(sha: Digest, c: ReserveCall) {
    && (c.profile != Default ==> c.authorization == Some(c.frozen) && VersionsOf(c.profile, c.baseline.dimensions))
    && KindAllowed(c.profile, c.kind)
    && ValidCampaignId(c.frozen.campaign) && ValidHash(c.frozen.matrix) && ValidHash(c.frozen.runtime)
    && ValidBaseline(sha, c.baseline) && c.pathMatches && c.reservedAt.Aware?
  }

  /** The ledger has room for the attempt in its last epoch, which is the caller's. */
  predicate RoomFor(c: ReserveCall, l: Ledger) {
    && l.campaign == c.frozen.campaign && l.epochs != []
    && var e := l.epochs[|l.epochs| - 1].body;
    && e.matrix == c.frozen.matrix && e.runtime == c.frozen.runtime && e.baseline == c.baseline
    && (|l.epochs| == 6 ==> c.kind == S06Start)
    && |l.attempts| < l.maxAttempts
    && forall i | 0 <= i < |l.attempts| ::
         l.attempts[i].id != c.attemptId && !(l.attempts[i].kind == AdminAck && l.attempts[i].epoch == |l.epochs|)
  }

  /** Without a ledger one is begun, but not by a recovery. */
  ghost predicate ReserveAdmitted(sha: Digest, c: ReserveCall, d: Directory) {
    && ReserveArguments(sha, c) && CanonicalUuid(c.attemptId)
    && match d.file
       case Absent => (c.profile == Default || c.profile == Protocol) && c.registeredAt.Aware?
       case Malformed => false
       case Document(l) => ValidLedger(c.profile, sha, l) && RoomFor(c, l)
  }

  lemma ArgumentsExactlyWhen(sha: Digest, c: ReserveCall)
    ensures ReserveArguments(sha, c) <==> ReserveRefusal(sha, c).None? && c.reservedAt.Aware?
  {
    assert ADAPTER_PREFIX + "v7" == "b937a78-step004-evidence-v7" && SUITE_PREFIX + "v7" == "step004-o01-v7";
    assert ADAPTER_PREFIX + "v8" == "b937a78-step004-evidence-v8" && SUITE_PREFIX + "v8" == "step004-o01-v8";
    assert ADAPTER_PREFIX + "v9" == "b937a78-step004-evidence-v9" && SUITE_PREFIX + "v9" == "step004-o01-v9";
  }

  /** The ledger that the attempt is appended to. */
  ghost predicate StartsFrom(sha: Digest, c: ReserveCall, d: Directory, l: Ledger) {
    match d.file
    case Absent => c.registeredAt.Aware? && IsFirst(sha, c, l)
    case Malformed => false
    case Document(old_) => l == old_
  }

  /** A new ledger: the profile's first budget, and one epoch with the caller's hashes
      and baseline that follows none. */
  predicate IsFirst(sha: Digest, c: ReserveCall, l: Ledger)
    requires c.registeredAt.Aware?
  {
    && l.schema == "m1-campaign-provider-attempt-ledger/v2" && l.campaign == c.frozen.campaign
    && l.maxAttempts == (match c.profile case Default => 15 case CancelRetry => 6 case _ => 5)
    && l.active == 1 && |l.epochs| == 1 && l.attempts == []
    && var e := l.epochs[0];
    && e.body.number == 1 && e.body.batch == (if c.profile == Default then "initial" else "m1_protocol")
    && e.body.matrix == c.frozen.matrix && e.body.runtime == c.frozen.runtime && e.body.baseline == c.baseline
    && e.body.regression == None && e.body.registeredAt == Utc(c.registeredAt.micros) && e.body.previous == None
    && e.digest == sha(OfEpoch(e.body))
  }

  lemma FirstIsSaid(sha: Digest, c: ReserveCall)
    requires c.registeredAt.Aware?
    ensures IsFirst(sha, c, FirstLedger(sha, c))
  {
  }

  /** The ledger has room and is the caller's, and the guards before it pass. */
  lemma OpenExactlyWhen(sha: Digest, c: ReserveCall, d: Directory)
    requires HexDigest(sha) && Inv(sha, d)
    ensures ReserveOpen(sha, c, d.file).Ok? ==>
      var l := ReserveOpen(sha, c, d.file).value;
      && StartsFrom(sha, c, d, l)
      && (CanonicalUuid(c.attemptId) && !UsedId(l, c.attemptId) && !Sealed(l, l.active) <==> ReserveAdmitted(sha, c, d))
    ensures ReserveAdmitted(sha, c, d) ==> ReserveOpen(sha, c, d.file).Ok?
  {
    ArgumentsExactlyWhen(sha, c);
    match d.file {
      case Absent => OpenWithoutLedger(sha, c);
      case Document(l) => OpenOnLedger(sha, c, l);
    }
  }

  lemma OpenWithoutLedger(sha: Digest, c: ReserveCall)
    requires ReserveArguments(sha, c) <==> ReserveRefusal(sha, c).None? && c.reservedAt.Aware?
    ensures ReserveOpen(sha, c, Absent).Ok? <==>
      ReserveArguments(sha, c) && (c.profile == Default || c.profile == Protocol) && c.registeredAt.Aware?
    ensures ReserveOpen(sha, c, Absent).Ok? ==>
      var l := ReserveOpen(sha, c, Absent).value;
      IsFirst(sha, c, l) && !UsedId(l, c.attemptId) && !Sealed(l, l.active)
  {
    if c.registeredAt.Aware? { FirstIsSaid(sha, c); }
  }

  lemma OpenOnLedger(sha: Digest, c: ReserveCall, l: Ledger)
    requires ReserveArguments(sha, c) <==> ReserveRefusal(sha, c).None? && c.reservedAt.Aware?
    ensures ReserveOpen(sha, c, Document(l)).Ok? ==> ReserveOpen(sha, c, Document(l)).value == l
    ensures ReserveOpen(sha, c, Document(l)).Ok? && !UsedId(l, c.attemptId) && !Sealed(l, l.active) <==>
      ReserveArguments(sha, c) && ValidLedger(c.profile, sha, l) && RoomFor(c, l)
  {
  }

  /** In every state a run reaches a reserve succeeds exactly when its arguments are
      right, its id is new, and the ledger has room in an epoch that is the caller's
      and that no acknowledgement has sealed. */
  lemma ReserveSucceedsExactlyWhen(sha: Digest, c: ReserveCall, d: Directory)
    requires HexDigest(sha) && Inv(sha, d)
    ensures ReserveStep(sha, c, d, Completes).1.Ok? <==> ReserveAdmitted(sha, c, d)
  {
    OpenExactlyWhen(sha, c, d);
    LinkNeverCollides(sha, c, d, Completes);
    if ReserveOpen(sha, c, d.file).Ok? {
      if CanonicalUuid(c.attemptId) {
        GuardedReserveFailsExactlyWhen(sha, c, d);
      } else {
        var l := ReserveOpen(sha, c, d.file).value;
        ValidIdsAreCanonical(sha, c.profile, l, NextAttempt(c, l));
      }
    }
  }

  lemma ValidIdsAreCanonical(sha: Digest, p: Profile, l: Ledger, a: Attempt)
    ensures ValidLedger(p, sha, WithAttempt(l, a)) ==> CanonicalUuid(a.id)
  {
    var after := WithAttempt(l, a);
    if ValidLedger(p, sha, after) {
      assert AttemptOk(p, after.active, after.attempts, |l.attempts|);
    }
  }

  /** The attempt of a reserve: the caller's id and kind, the next ordinal, the last
      epoch. */
  predicate IsAttempt(c: ReserveCall, l: Ledger, a: Attempt) {
    && a.id == c.attemptId && a.kind == c.kind && a.ordinal == |l.attempts| + 1 && a.epoch == |l.epochs|
    && c.reservedAt.Aware? && a.reservedAt == Utc(c.reservedAt.micros)
  }

  /** Its reservation: the caller's campaign and hashes, and the attempt. */
  predicate IsReservation(c: ReserveCall, a: Attempt, r: Reservation) {
    && r.campaign == c.frozen.campaign && r.matrix == c.frozen.matrix && r.runtime == c.frozen.runtime
    && r.epoch == a.epoch && r.id == a.id && r.ordinal == a.ordinal && r.kind == a.kind
    && r.reservedAt == a.reservedAt
  }

  predicate Appended(l: Ledger, a: Attempt, after: Ledger) {
    && after.attempts == l.attempts + [a] && after.epochs == l.epochs && after.active == l.active
    && after.maxAttempts == l.maxAttempts && after.campaign == l.campaign && after.schema == l.schema
  }

  /** The receipt names the attempt just made and what is left of the budget. */
  predicate Receipts(after: Ledger, r: Receipt) {
    && after.attempts != []
    && var a := after.attempts[|after.attempts| - 1];
    && r.campaign == after.campaign && r.id == a.id && r.ordinal == a.ordinal && r.kind == a.kind
    && r.epoch == a.epoch && r.remaining + |after.attempts| == after.maxAttempts
  }

  predicate Reserved(c: ReserveCall, l: Ledger, a: Attempt, d: Directory, after: Directory) {
    && IsAttempt(c, l, a) && after.file.Document? && Appended(l, a, after.file.ledger)
    && after.reservations.Keys == d.reservations.Keys + {a.id} && IsReservation(c, a, after.reservations[a.id])
    && forall id | id in d.reservations && id != a.id :: after.reservations[id] == d.reservations[id]
  }

  /** A reserve that succeeds has appended one attempt to the ledger it started from,
      published one reservation for it, and its receipt tells the truth. */
  lemma SuccessfulReserve(sha: Digest, c: ReserveCall, d: Directory, fate: Fate)
    requires HexDigest(sha) && Inv(sha, d) && ReserveStep(sha, c, d, fate).1.Ok?
    ensures var (after, answer) := ReserveStep(sha, c, d, fate);
      && after.file.Document? && Receipts(after.file.ledger, answer.value)
      && exists l, a :: StartsFrom(sha, c, d, l) && Reserved(c, l, a, d, after)
  {
    OpenExactlyWhen(sha, c, d);
    OpenedLedgerIsValid(sha, c, d);
    var l := ReserveOpen(sha, c, d.file).value;
    assert Reserved(c, l, NextAttempt(c, l), d, ReserveStep(sha, c, d, fate).0);
  }

  /** A refused reserve leaves the directory as it was; one that would succeed but
      stops has made its attempt exactly if it got past the ledger, and published
      nothing. */
  lemma UnsuccessfulReserve(sha: Digest, c: ReserveCall, d: Directory, fate: Fate)
    requires HexDigest(sha) && Inv(sha, d)
    ensures ReserveStep(sha, c, d, fate).1.Ok? <==> fate == Completes && ReserveAdmitted(sha, c, d)
    ensures !ReserveAdmitted(sha, c, d) || fate == StopsBeforeReplace ==> ReserveStep(sha, c, d, fate).0 == d
    ensures ReserveAdmitted(sha, c, d) && fate == StopsBeforeLink ==>
      var stopped, done := ReserveStep(sha, c, d, fate).0, ReserveStep(sha, c, d, Completes).0;
      stopped.file == done.file && stopped.reservations == d.reservations
  {
    ReserveSucceedsExactlyWhen(sha, c, d);
    LinkNeverCollides(sha, c, d, Completes);
    Fates(sha, c, d, fate, ReserveAdmitted(sha, c, d));
  }

  lemma Fates(sha: Digest, c: ReserveCall, d: Directory, fate: Fate, ok: bool)
    requires ok <==> ReserveStep(sha, c, d, Completes).1.Ok?
    requires ReserveStep(sha, c, d, Completes).1 != Err(ReservationExists)
    ensures ReserveStep(sha, c, d, fate).1.Ok? <==> fate == Completes && ok
    ensures !ok || fate == StopsBeforeReplace ==> ReserveStep(sha, c, d, fate).0 == d
    ensures ok && fate == StopsBeforeLink ==>
      && ReserveStep(sha, c, d, fate).0.file == ReserveStep(sha, c, d, Completes).0.file
      && ReserveStep(sha, c, d, fate).0.reservations == d.reservations
  {
  }

  // ---------------------------------------------------------------------- advancing

  /** The proof of a recovery: passed, for this profile's scope and target, and for
      this very ledger; no automatic retries. */
  predicate RecoveryProved(sha: Digest, p: Profile, proof: Proof, l: Ledger) {
    && proof.passed && proof.priorLedgerSha == Some(sha(OfLedger(l))) && proof.automaticRetries == Some(0)
    && match p
       case Recovery =>
         && proof.scope == Some("m1_missing_cancel_truncate_only") && proof.maxAttempts == Some(5)
         && proof.target == Some(2)
       case CancelOnly =>
         proof.scope == Some("m1_reply_cancel_only") && proof.maxAttempts == Some(5) && proof.target == Some(3)
       case CancelRetry =>
         proof.scope == Some("m1_reply_cancel_only") && proof.maxAttempts == Some(6) && proof.target == Some(4)
       case _ => false
  }

  /** A recovery continues the epoch before its target, made by the version before its
      own, and changes of the baseline's dimensions only that version. */
  predicate RecoveryFits(p: Profile, b: Baseline, l: Ledger)
    requires l.epochs != []
  {
    var prior := l.epochs[|l.epochs| - 1].body.baseline;
    && b.settingsSha == prior.settingsSha && b.dimensions.provider == prior.dimensions.provider
    && b.dimensions.model == prior.dimensions.model && b.dimensions.protocol == prior.dimensions.protocol
    && b.dimensions.sdk == prior.dimensions.sdk
    && match p
       case Recovery =>
         && l.active == 1
         && prior.dimensions.adapter == "b937a78-step004-evidence-v7" && prior.dimensions.suite == "step004-o01-v7"
         && b.dimensions.adapter == "b937a78-step004-evidence-v8" && b.dimensions.suite == "step004-o01-v8"
       case CancelOnly =>
         && l.active == 2
         && prior.dimensions.adapter == "b937a78-step004-evidence-v8" && prior.dimensions.suite == "step004-o01-v8"
         && b.dimensions.adapter == "b937a78-step004-evidence-v9" && b.dimensions.suite == "step004-o01-v9"
       case CancelRetry =>
         && l.active == 3
         && prior.dimensions.adapter == "b937a78-step004-evidence-v9" && prior.dimensions.suite == "step004-o01-v9"
         && b.dimensions.adapter == "b937a78-step004-evidence-v9" && b.dimensions.suite == "step004-o01-v9"
       case _ => false
  }

  predicate RecoveryAllowed(sha: Digest, c: AdvanceCall, l: Ledger)
    requires c.evidence.File? && l.epochs != []
  {
    && c.authorization == Some(c.frozen) && !c.authorizedRetest
    && c.evidence.proof.Some? && RecoveryProved(sha, c.profile, c.evidence.proof.value, l)
    && l.maxAttempts == 5 && (forall i | 0 <= i < |l.attempts| :: l.attempts[i].kind != AdminAck)
    && RecoveryFits(c.profile, c.baseline, l)
  }

  /** A default campaign goes from its first epoch to the second without approval, from
      the second to the third with one, and on with one that names the ledger, the
      target and its budget; to the sixth for ten minutes only, after fifteen attempts
      without any of that kind, under the same baseline. */
  predicate RetestAllowed(sha: Digest, c: AdvanceCall, l: Ledger)
    requires c.evidence.File? && l.epochs != []
  {
    if !c.authorizedRetest then l.active == 1
    else
      && c.evidence.proof.Some?
      && var proof := c.evidence.proof.value;
      && proof.additionalRound && proof.passed
      && if proof.target == Some(4) || proof.target == Some(5) || proof.target == Some(6) then
           && l.active == proof.target.value - 1 && proof.priorLedgerSha == Some(sha(OfLedger(l)))
           && proof.maxAttempts == Some(if proof.target == Some(5) then 18 else 16)
           && (proof.target == Some(6) ==>
                 && proof.scope == Some("s06_ten_minute_only") && proof.minutes == Some(10)
                 && |l.attempts| == 15 && (forall i | 0 <= i < |l.attempts| :: l.attempts[i].kind != S06Start)
                 && c.baseline == l.epochs[|l.epochs| - 1].body.baseline)
         else l.active == 2
  }

  predicate AdvanceArguments(sha: Digest, c: AdvanceCall) {
    && ValidCampaignId(c.frozen.campaign) && ValidHash(c.frozen.matrix) && ValidHash(c.frozen.runtime)
    && ValidBaseline(sha, c.baseline) && c.pathMatches && c.evidence.File? && c.registeredAt.Aware?
  }

  /** Something of the new epoch differs from the last one, which has been used. */
  predicate SomethingNew(c: AdvanceCall, l: Ledger) {
    && l.campaign == c.frozen.campaign && l.epochs != [] && l.attempts != []
    && var e := l.epochs[|l.epochs| - 1].body;
       e.matrix != c.frozen.matrix || e.runtime != c.frozen.runtime || e.baseline != c.baseline
  }

  predicate AdvanceAdmitted(sha: Digest, c: AdvanceCall, d: Directory) {
    && AdvanceArguments(sha, c) && d.file.Document? && ValidLedger(c.profile, sha, d.file.ledger)
    && SomethingNew(c, d.file.ledger)
    && if c.profile == Default then RetestAllowed(sha, c, d.file.ledger) else RecoveryAllowed(sha, c, d.file.ledger)
  }

  lemma RecoveryRefusedExactlyWhen(sha: Digest, c: AdvanceCall, l: Ledger)
    requires c.profile.IsM1() && c.evidence.File? && l.epochs != []
    ensures RecoveryRefusal(sha, c, l).None? <==> RecoveryAllowed(sha, c, l)
  {
    assert ADAPTER_PREFIX + "v7" == "b937a78-step004-evidence-v7" && SUITE_PREFIX + "v7" == "step004-o01-v7";
    assert ADAPTER_PREFIX + "v8" == "b937a78-step004-evidence-v8" && SUITE_PREFIX + "v8" == "step004-o01-v8";
    assert ADAPTER_PREFIX + "v9" == "b937a78-step004-evidence-v9" && SUITE_PREFIX + "v9" == "step004-o01-v9";
  }

  lemma DefaultOpenExactlyWhen(sha: Digest, c: AdvanceCall, l: Ledger)
    requires c.profile == Default && AdvanceArguments(sha, c) && ValidLedger(Default, sha, l)
    ensures AdvanceOpen(sha, c, Document(l)).Ok? <==> SomethingNew(c, l) && RetestAllowed(sha, c, l)
  {
  }

  lemma RecoveryOpenExactlyWhen(sha: Digest, c: AdvanceCall, l: Ledger)
    requires c.profile != Default && AdvanceArguments(sha, c) && ValidLedger(c.profile, sha, l)
    ensures AdvanceOpen(sha, c, Document(l)).Ok? <==> SomethingNew(c, l) && RecoveryAllowed(sha, c, l)
  {
    RecoveryRefusedExactlyWhen(sha, c, l);
  }

  lemma ArgumentsAreNeeded(sha: Digest, c: AdvanceCall, file: LedgerFile)
    requires AdvanceOpen(sha, c, file).Ok?
    ensures AdvanceArguments(sha, c) && file.Document? && ValidLedger(c.profile, sha, file.ledger)
    ensures AdvanceOpen(sha, c, file).value == file.ledger
  {
  }

  lemma AdvanceOpenExactlyWhen(sha: Digest, c: AdvanceCall, d: Directory)
    ensures AdvanceOpen(sha, c, d.file).Ok? <==> AdvanceAdmitted(sha, c, d)
  {
    if AdvanceOpen(sha, c, d.file).Ok? {
      ArgumentsAreNeeded(sha, c, d.file);
    }
    if AdvanceArguments(sha, c) && d.file.Document? && ValidLedger(c.profile, sha, d.file.ledger) {
      if c.profile == Default {
        DefaultOpenExactlyWhen(sha, c, d.file.ledger);
      } else {
        RecoveryOpenExactlyWhen(sha, c, d.file.ledger);
      }
    }
  }

  /** In every state a run reaches an advance succeeds exactly when its arguments are
      right, it brings something new, and the profile's approval or recovery evidence
      binds this ledger; otherwise the directory stays as it was. */
  lemma AdvanceSucceedsExactlyWhen(sha: Digest, c: AdvanceCall, d: Directory, fate: Fate)
    requires HexDigest(sha) && Inv(sha, d)
    ensures AdvanceStep(sha, c, d, fate).1.Ok? <==> fate == Completes && AdvanceAdmitted(sha, c, d)
    ensures AdvanceStep(sha, c, d, fate).1.Err? ==> AdvanceStep(sha, c, d, fate).0 == d
  {
    AdvanceOpenExactlyWhen(sha, c, d);
    if AdvanceOpen(sha, c, d.file).Ok? {
      GuardedAdvanceIsValid(sha, c, d);
    }
  }

  function BatchName(p: Profile, number: int): string {
    if p == Default then
      if number == 2 then "final" else if number == 6 then "duration_amendment" else "authorized_retest"
    else if number == 2 then "m1_tool_recovery"
    else if number == 3 then "m1_cancel_only" else "m1_cancel_retry"
  }

  function BudgetAfter(p: Profile, number: int): int {
    if p == CancelRetry then 6
    else if p != Default then 5
    else if number <= 3 then 15
    else if number == 5 then 18 else 16
  }

  /** The new epoch: the next number and its batch, the caller's hashes and baseline,
      the evidence file with its digest, and the digest of the epoch before. */
  predicate IsNext(sha: Digest, c: AdvanceCall, l: Ledger, e: Epoch)
    requires c.evidence.File? && c.registeredAt.Aware? && l.epochs != []
  {
    && e.body.number == |l.epochs| + 1 && e.body.batch == BatchName(c.profile, |l.epochs| + 1)
    && e.body.matrix == c.frozen.matrix && e.body.runtime == c.frozen.runtime && e.body.baseline == c.baseline
    && e.body.regression.Some? && e.body.regression.value.path == c.evidence.path
    && e.body.regression.value.sha == sha(OfText(c.evidence.text))
    && e.body.registeredAt == Utc(c.registeredAt.micros)
    && e.body.previous == Some(l.epochs[|l.epochs| - 1].digest) && e.digest == sha(OfEpoch(e.body))
  }

  predicate Advanced(sha: Digest, c: AdvanceCall, l: Ledger, after: Ledger)
    requires c.evidence.File? && c.registeredAt.Aware? && l.epochs != []
  {
    && |after.epochs| == |l.epochs| + 1 && after.epochs[..|l.epochs|] == l.epochs
    && IsNext(sha, c, l, after.epochs[|l.epochs|])
    && after.active == |after.epochs| && after.maxAttempts == BudgetAfter(c.profile, |after.epochs|)
    && after.attempts == l.attempts && after.campaign == l.campaign && after.schema == l.schema
  }

  predicate BatchReceipts(after: Ledger, r: BatchReceipt) {
    && r.campaign == after.campaign && r.active == after.active && r.active == |after.epochs|
    && r.remaining + |after.attempts| == after.maxAttempts
  }

  lemma NextIsSaid(sha: Digest, c: AdvanceCall, d: Directory)
    requires Inv(sha, d) && AdvanceOpen(sha, c, d.file).Ok?
    ensures AdvanceArguments(sha, c) && d.file.Document? && 1 <= |d.file.ledger.epochs| < |Batches(c.profile)|
    ensures Advanced(sha, c, d.file.ledger, WithEpoch(sha, c, d.file.ledger))
  {
    ArgumentsAreNeeded(sha, c, d.file);
    OpenLeavesABatch(sha, c, d.file);
    AdvanceOpenExactlyWhen(sha, c, d);
    NextBudget(sha, c, d.file.ledger);
    NextEpoch(sha, c, d.file.ledger);
  }

  lemma NextBudget(sha: Digest, c: AdvanceCall, l: Ledger)
    requires c.evidence.File? && c.registeredAt.Aware? && ValidLedger(c.profile, sha, l)
    requires if c.profile == Default then RetestAllowed(sha, c, l) else RecoveryAllowed(sha, c, l)
    requires |l.epochs| < |Batches(c.profile)|
    ensures WithEpoch(sha, c, l).maxAttempts == BudgetAfter(c.profile, |l.epochs| + 1)
  {
  }

  lemma NextEpoch(sha: Digest, c: AdvanceCall, l: Ledger)
    requires c.evidence.File? && c.registeredAt.Aware? && 1 <= |l.epochs| < |Batches(c.profile)|
    ensures IsNext(sha, c, l, WithEpoch(sha, c, l).epochs[|l.epochs|])
  {
  }

  /** An advance that succeeds has appended one epoch and set number and budget; its
      receipt tells the truth. */
  lemma SuccessfulAdvance(sha: Digest, c: AdvanceCall, d: Directory, fate: Fate)
    requires HexDigest(sha) && Inv(sha, d) && AdvanceStep(sha, c, d, fate).1.Ok?
    ensures AdvanceArguments(sha, c) && d.file.Document? && d.file.ledger.epochs != []
    ensures var (after, answer) := AdvanceStep(sha, c, d, fate);
      && after.file.Document? && after.reservations == d.reservations
      && Advanced(sha, c, d.file.ledger, after.file.ledger) && BatchReceipts(after.file.ledger, answer.value)
  {
    NextIsSaid(sha, c, d);
  }
}
