/** Reserving an attempt and advancing a campaign: the guards in the runner's
    order, the ledger each call would write, and the directory that holds the
    ledger file and the one-shot reservation files. */
module CampaignSteps {
  import opened Results
  import opened CampaignLedger

  datatype LedgerFile = Absent | Malformed | Document(ledger: Ledger)

  datatype Reservation = Reservation(
    campaign: string, matrix: string, runtime: string, epoch: int,
    id: string, ordinal: int, kind: Kind, reservedAt: Stamp)

  datatype Directory = Directory(file: LedgerFile, reservations: map<string, Reservation>)

  datatype Receipt = Receipt(
    campaign: string, id: string, ordinal: int, kind: Kind, epoch: int, remaining: int)

  datatype BatchReceipt = BatchReceipt(campaign: string, active: int, remaining: int)

  datatype Refusal =
    | NotAuthorized | RecoveryKindOnly | BadCampaignId | BadHash | BadKind | BadBaseline
    | ProfileBaselineMismatch | WrongLedgerPath | UnreadableLedger | RecoveryNeedsLedger
    | CampaignConflict | BaselineConflict | TenMinuteKindOnly | BudgetExhausted | NaiveClock
    | WouldBeInvalid | ReservationExists | BadEvidence | NotApproved | NotRegistered
    | RecoveryMismatch | ApprovalMismatch | AlreadyAdvanced | NoAttemptYet
    | AmendmentMismatch | BaselineUnchanged | BadOrdinal | NoSuchAttempt | ReservationUnusable
    | Stopped

  /** How far a call gets: to its end, or the process dies or a write fails just
      before the ledger is replaced or just before the reservation is linked. */
  datatype Fate = Completes | StopsBeforeReplace | StopsBeforeLink

  /** The frozen run a user decision names: campaign, matrix and runtime. */
  datatype Frozen = Frozen(campaign: string, matrix: string, runtime: string)

  // --------------------------------------------------------------- reserving

  datatype ReserveCall = ReserveCall(
    profile: Profile, authorization: Option<Frozen>, frozen: Frozen, baseline: Baseline,
    kind: Kind, pathMatches: bool, registeredAt: Clock, reservedAt: Clock, attemptId: string)

  const PROVIDER_PROFILE := "doubao-s2s-strong-character"
  const PROTOCOL_PROFILE := "dialogue-v3-binary-gzip-json-pcm16"
  const ADAPTER_PREFIX := "b937a78-step004-evidence-"
  const SUITE_PREFIX := "step004-o01-"

  function EvidenceVersion(p: Profile): string {
    match p
    case Default => "v5"
    case Protocol => "v7"
    case Recovery => "v8"
    case _ => "v9"
  }

  predicate ProfileBaseline(p: Profile, b: Baseline) {
    && b.dimensions.adapter == ADAPTER_PREFIX + EvidenceVersion(p)
    && b.dimensions.suite == SUITE_PREFIX + EvidenceVersion(p)
    && b.dimensions.model == "2.2.0.0"
    && b.dimensions.protocol == PROTOCOL_PROFILE
    && b.dimensions.provider == PROVIDER_PROFILE
  }

  function StampOf(c: Clock): Stamp
    requires c.Aware?
  {
    Utc(c.micros)
  }

  /** The guards that run before the lock is taken. */
  function ReserveRefusal(sha: Digest, c: ReserveCall): Option<Refusal> {
    if c.profile.IsM1() && c.authorization != Some(c.frozen) then Some(NotAuthorized)
    else if c.profile.IsRecovery() && c.kind != S01Start then Some(RecoveryKindOnly)
    else if !ValidCampaignId(c.frozen.campaign) then Some(BadCampaignId)
    else if !ValidHash(c.frozen.matrix) || !ValidHash(c.frozen.runtime) then Some(BadHash)
    else if c.kind !in Kinds(c.profile) then Some(BadKind)
    else if !ValidBaseline(sha, c.baseline) then Some(BadBaseline)
    else if c.profile.IsM1() && !ProfileBaseline(c.profile, c.baseline) then Some(ProfileBaselineMismatch)
    else if !c.pathMatches then Some(WrongLedgerPath)
    else None
  }

  function ReadLedger(p: Profile, sha: Digest, file: LedgerFile): Result<Option<Ledger>, Refusal> {
    match file
    case Absent => Ok(None)
    case Malformed => Err(UnreadableLedger)
    case Document(l) => if ValidLedger(p, sha, l) then Ok(Some(l)) else Err(UnreadableLedger)
  }

  function NewEpoch(
    sha: Digest, p: Profile, number: nat, frozen: Frozen, b: Baseline,
    regression: Option<Regression>, at: Stamp, previous: Option<string>): Epoch
    requires 1 <= number <= |Batches(p)|
  {
    var body := EpochBody(number, Batches(p)[number - 1], frozen.matrix, frozen.runtime, b, regression, at, previous);
    Epoch(body, sha(OfEpoch(body)))
  }

  function FirstLedger(sha: Digest, c: ReserveCall): Ledger
    requires c.registeredAt.Aware?
  {
    Ledger(LEDGER_SCHEMA, c.frozen.campaign, InitialLimit(c.profile), 1,
           [NewEpoch(sha, c.profile, 1, c.frozen, c.baseline, None, StampOf(c.registeredAt), None)], [])
  }

  predicate SameBinding(e: Epoch, frozen: Frozen, b: Baseline) {
    e.body.matrix == frozen.matrix && e.body.runtime == frozen.runtime && e.body.baseline == b
  }

  /** The ledger an attempt may be appended to, once every guard before the
      final validation has passed. */
  function ReserveOpen(sha: Digest, c: ReserveCall, file: LedgerFile): Result<Ledger, Refusal> {
    var early := ReserveRefusal(sha, c);
    if early.Some? then Err(early.value) else
    var read := ReadLedger(c.profile, sha, file);
    if read.Err? then Err(read.error) else
    if read.value.None? && c.profile.IsRecovery() then Err(RecoveryNeedsLedger) else
    if read.value.None? && c.registeredAt.Naive? then Err(NaiveClock) else
    var l := if read.value.None? then FirstLedger(sha, c) else read.value.value;
    if l.campaign != c.frozen.campaign then Err(CampaignConflict)
    else if !SameBinding(l.epochs[l.active - 1], c.frozen, c.baseline) then Err(BaselineConflict)
    else if l.active == 6 && c.kind != S06Start then Err(TenMinuteKindOnly)
    else if |l.attempts| >= l.maxAttempts then Err(BudgetExhausted)
    else if c.reservedAt.Naive? then Err(NaiveClock)
    else Ok(l)
  }

  function NextAttempt(c: ReserveCall, l: Ledger): Attempt
    requires c.reservedAt.Aware?
  {
    Attempt(c.attemptId, |l.attempts| + 1, l.active, c.kind, StampOf(c.reservedAt))
  }

  function WithAttempt(l: Ledger, a: Attempt): Ledger {
    l.(attempts := l.attempts + [a])
  }

  function ReservationOf(frozen: Frozen, a: Attempt): Reservation {
    Reservation(frozen.campaign, frozen.matrix, frozen.runtime, a.epoch, a.id, a.ordinal, a.kind, a.reservedAt)
  }

  function ReserveStep(sha: Digest, c: ReserveCall, d: Directory, fate: Fate): (Directory, Result<Receipt, Refusal>) {
    var open := ReserveOpen(sha, c, d.file);
    if open.Err? then (d, Err(open.error)) else
    var a := NextAttempt(c, open.value);
    var l := WithAttempt(open.value, a);
    if !ValidLedger(c.profile, sha, l) then (d, Err(WouldBeInvalid)) else
    if fate.StopsBeforeReplace? then (d, Err(Stopped)) else
    var replaced := d.(file := Document(l));
    if fate.StopsBeforeLink? then (replaced, Err(Stopped)) else
    if a.id in d.reservations then (replaced, Err(ReservationExists)) else
    (replaced.(reservations := d.reservations[a.id := ReservationOf(c.frozen, a)]),
     Ok(Receipt(c.frozen.campaign, a.id, a.ordinal, a.kind, a.epoch, l.maxAttempts - |l.attempts|)))
  }

  // --------------------------------------------------------------- advancing

  type RelativePath = p: string | |p| > 0 witness "."

  /** The keys an approval or a recovery proof may carry; `None` is a key that is
      absent or of another type. */
  datatype Proof = Proof(
    additionalRound: bool, passed: bool, scope: Option<string>, priorLedgerSha: Option<string>,
    maxAttempts: Option<int>, automaticRetries: Option<int>, target: Option<int>, minutes: Option<int>)

  /** The evidence path is no regular file inside the project, or a file whose
      text may be a JSON object. */
  datatype EvidenceFile = NoFile | File(path: RelativePath, text: string, proof: Option<Proof>)

  datatype AdvanceCall = AdvanceCall(
    profile: Profile, authorization: Option<Frozen>, frozen: Frozen, baseline: Baseline,
    pathMatches: bool, evidence: EvidenceFile, authorizedRetest: bool, registeredAt: Clock)

  function AdvanceRefusal(sha: Digest, c: AdvanceCall): Option<Refusal> {
    if !ValidCampaignId(c.frozen.campaign) then Some(BadCampaignId)
    else if !ValidHash(c.frozen.matrix) || !ValidHash(c.frozen.runtime) then Some(BadHash)
    else if !ValidBaseline(sha, c.baseline) then Some(BadBaseline)
    else if !c.pathMatches then Some(WrongLedgerPath)
    else if c.evidence.NoFile? then Some(BadEvidence)
    else if c.authorizedRetest
            && (c.evidence.proof.None? || !c.evidence.proof.value.additionalRound || !c.evidence.proof.value.passed)
    then Some(NotApproved)
    else None
  }

  /** The epoch an M1 profile continues from. */
  function RecoverySource(p: Profile): int {
    if p.CancelRetry? then 3 else if p.CancelOnly? then 2 else 1
  }

  function RecoveryScope(p: Profile): string {
    if p.IsCancelOnly() then "m1_reply_cancel_only" else "m1_missing_cancel_truncate_only"
  }

  function PriorVersion(p: Profile): string {
    if p.CancelRetry? then "v9" else if p.CancelOnly? then "v8" else "v7"
  }

  /** The extra guard of the M1 profiles. */
  function RecoveryRefusal(sha: Digest, c: AdvanceCall, l: Ledger): Option<Refusal>
    requires c.profile.IsM1() && c.evidence.File? && l.epochs != []
  {
    var prior := l.epochs[|l.epochs| - 1].body.baseline;
    if !c.profile.IsRecovery() || c.authorization != Some(c.frozen) then Some(NotAuthorized)
    else if || c.evidence.proof.None?
            || c.authorizedRetest
            || !c.evidence.proof.value.passed
            || c.evidence.proof.value.scope != Some(RecoveryScope(c.profile))
            || c.evidence.proof.value.priorLedgerSha != Some(sha(OfLedger(l)))
            || c.evidence.proof.value.maxAttempts != Some(InitialLimit(c.profile))
            || c.evidence.proof.value.automaticRetries != Some(0)
            || c.evidence.proof.value.target != Some(RecoverySource(c.profile) + 1)
            || l.maxAttempts != 5
            || l.active != RecoverySource(c.profile)
            || (exists i | 0 <= i < |l.attempts| :: l.attempts[i].kind == AdminAck)
    then Some(RecoveryMismatch)
    else if || c.baseline.dimensions != prior.dimensions.(
                 adapter := ADAPTER_PREFIX + EvidenceVersion(c.profile),
                 suite := SUITE_PREFIX + EvidenceVersion(c.profile))
            || prior.dimensions.adapter != ADAPTER_PREFIX + PriorVersion(c.profile)
            || prior.dimensions.suite != SUITE_PREFIX + PriorVersion(c.profile)
            || c.baseline.settingsSha != prior.settingsSha
    then Some(RecoveryMismatch)
    else None
  }

  /** Whether the approval names one of the later epochs as its target. */
  predicate NamesLaterEpoch(c: AdvanceCall) {
    && c.authorizedRetest && c.evidence.File? && c.evidence.proof.Some?
    && c.evidence.proof.value.target.Some? && c.evidence.proof.value.target.value in {4, 5, 6}
  }

  /** The epoch the ledger must be in for this call. */
  function ExpectedEpoch(c: AdvanceCall): int {
    if NamesLaterEpoch(c) then c.evidence.proof.value.target.value - 1
    else if c.profile.CancelRetry? then 3
    else if c.authorizedRetest || c.profile.IsCancelOnly() then 2
    else 1
  }

  predicate ApprovalBinds(sha: Digest, c: AdvanceCall, l: Ledger)
    requires NamesLaterEpoch(c)
  {
    var approval := c.evidence.proof.value;
    && approval.maxAttempts == Some(LimitForEpoch(c.profile, approval.target.value))
    && approval.priorLedgerSha == Some(sha(OfLedger(l)))
    && (approval.target == Some(6) ==>
          approval.scope == Some("s06_ten_minute_only") && approval.minutes == Some(10))
  }

  /** The ledger an epoch may be appended to, once every guard before the final
      validation has passed. */
  function AdvanceOpen(sha: Digest, c: AdvanceCall, file: LedgerFile): Result<Ledger, Refusal> {
    var early := AdvanceRefusal(sha, c);
    if early.Some? then Err(early.value) else
    var read := ReadLedger(c.profile, sha, file);
    if read.Err? then Err(read.error) else
    if read.value.None? || read.value.value.campaign != c.frozen.campaign then Err(NotRegistered) else
    var l := read.value.value;
    var recovery := if c.profile.IsM1() then RecoveryRefusal(sha, c, l) else None;
    if recovery.Some? then Err(recovery.value) else
    var expected := ExpectedEpoch(c);
    if NamesLaterEpoch(c) && !ApprovalBinds(sha, c, l) then Err(ApprovalMismatch)
    else if l.active != expected || |l.epochs| != expected then Err(AlreadyAdvanced)
    else if l.attempts == [] then Err(NoAttemptYet)
    else
      var previous := l.epochs[|l.epochs| - 1];
      if expected == 5
         && (|l.attempts| != 15
             || (exists i | 0 <= i < |l.attempts| :: l.attempts[i].kind == S06Start)
             || previous.body.baseline != c.baseline)
      then Err(AmendmentMismatch)
      else if SameBinding(previous, c.frozen, c.baseline) then Err(BaselineUnchanged)
      else if c.registeredAt.Naive? then Err(NaiveClock)
      else Ok(l)
  }

  function WithEpoch(sha: Digest, c: AdvanceCall, l: Ledger): Ledger
    requires c.evidence.File? && c.registeredAt.Aware?
    requires 1 <= |l.epochs| < |Batches(c.profile)|
  {
    var expected := |l.epochs|;
    var epoch := NewEpoch(
      sha, c.profile, expected + 1, c.frozen, c.baseline,
      Some(Regression(c.evidence.path, sha(OfText(c.evidence.text)))),
      StampOf(c.registeredAt), Some(l.epochs[expected - 1].digest));
    var retried := if c.profile.CancelRetry? then 6 else l.maxAttempts;
    l.(epochs := l.epochs + [epoch],
       active := expected + 1,
       maxAttempts := if expected in {3, 4, 5} then LimitForEpoch(c.profile, expected + 1) else retried)
  }

  /** A call that passes its guards has a batch name left for the new epoch. */
  lemma OpenLeavesABatch(sha: Digest, c: AdvanceCall, file: LedgerFile)
    requires AdvanceOpen(sha, c, file).Ok?
    ensures c.evidence.File? && c.registeredAt.Aware?
    ensures file.Document? && file.ledger == AdvanceOpen(sha, c, file).value
    ensures ValidLedger(c.profile, sha, file.ledger)
    ensures 1 <= |file.ledger.epochs| < |Batches(c.profile)|
  {
  }

  function AdvanceStep(sha: Digest, c: AdvanceCall, d: Directory, fate: Fate)
    : (Directory, Result<BatchReceipt, Refusal>)
  {
    var open := AdvanceOpen(sha, c, d.file);
    if open.Err? then (d, Err(open.error)) else
    OpenLeavesABatch(sha, c, d.file);
    var l := WithEpoch(sha, c, open.value);
    if !ValidLedger(c.profile, sha, l) then (d, Err(WouldBeInvalid)) else
    if !fate.Completes? then (d, Err(Stopped)) else
    (d.(file := Document(l)),
     Ok(BatchReceipt(c.frozen.campaign, l.active, l.maxAttempts - |l.attempts|)))
  }

  // ------------------------------------------------------------ serve-direct

  datatype LoadCall = LoadCall(profile: Profile, frozen: Frozen, baseline: Baseline, kind: Kind, ordinal: int)

  /** Finding the one still-usable receipt of the active epoch. */
  function LoadReserved(sha: Digest, c: LoadCall, d: Directory): Result<Attempt, Refusal> {
    if !ValidBaseline(sha, c.baseline) then Err(BadBaseline)
    else if c.kind !in DirectKinds(c.profile) then Err(BadKind)
    else if !(1 <= c.ordinal <= 18) then Err(BadOrdinal)
    else
      var read := ReadLedger(c.profile, sha, d.file);
      if read.Err? then Err(read.error) else
      if read.value.None? || read.value.value.campaign != c.frozen.campaign then Err(NotRegistered) else
      var l := read.value.value;
      if !SameBinding(l.epochs[l.active - 1], c.frozen, c.baseline) then Err(BaselineConflict) else
      var matching := Matching(c, l.active, l.attempts);
      if |matching| != 1 then Err(NoSuchAttempt) else
      var a := matching[0];
      if a.id !in d.reservations || d.reservations[a.id] != ReservationOf(c.frozen, a)
      then Err(ReservationUnusable)
      else Ok(a)
  }

  function Matching(c: LoadCall, active: int, attempts: seq<Attempt>): seq<Attempt> {
    if attempts == [] then []
    else
      var rest := Matching(c, active, attempts[..|attempts| - 1]);
      var a := attempts[|attempts| - 1];
      if a.ordinal == c.ordinal && a.epoch == active && a.kind == c.kind then rest + [a] else rest
  }

  // ------------------------------------------------------------ the directory

  /** One campaign directory. The file lock serialises the calls, so each runs
      from a settled state to the next. */
  class CampaignDirectory {
    const sha: Digest
    var file: LedgerFile
    var reservations: map<string, Reservation>

    constructor (sha: Digest)
      ensures this.sha == sha && State() == Directory(Absent, map[])
    {
      this.sha := sha;
      file := Absent;
      reservations := map[];
    }

    ghost function State(): Directory
      reads this
    {
      Directory(file, reservations)
    }

    /** The guarded half of `Reserve`: what it reads and refuses before it builds
        an attempt. */
    method OpenForReserve(c: ReserveCall) returns (open: Result<Ledger, Refusal>)
      ensures open == ReserveOpen(sha, c, file)
    {
      var early := ReserveRefusal(sha, c);
      if early.Some? {
        return Err(early.value);
      }
      var value: Ledger;
      match file {
        case Malformed =>
          return Err(UnreadableLedger);
        case Absent =>
          if c.profile.IsRecovery() {
            return Err(RecoveryNeedsLedger);
          }
          if c.registeredAt.Naive? {
            return Err(NaiveClock);
          }
          value := FirstLedger(sha, c);
        case Document(l) =>
          var readable := Validate(c.profile, sha, l);
          if !readable {
            return Err(UnreadableLedger);
          }
          value := l;
          if value.campaign != c.frozen.campaign {
            return Err(CampaignConflict);
          }
      }
      if !SameBinding(value.epochs[value.active - 1], c.frozen, c.baseline) {
        return Err(BaselineConflict);
      }
      if value.active == 6 && c.kind != S06Start {
        return Err(TenMinuteKindOnly);
      }
      if |value.attempts| >= value.maxAttempts {
        return Err(BudgetExhausted);
      }
      if c.reservedAt.Naive? {
        return Err(NaiveClock);
      }
      open := Ok(value);
    }

    method Reserve(c: ReserveCall, fate: Fate) returns (r: Result<Receipt, Refusal>)
      modifies this
      ensures (State(), r) == ReserveStep(sha, c, old(State()), fate)
    {
      var open := OpenForReserve(c);
      if open.Err? {
        return Err(open.error);
      }
      var value := open.value;
      var attempt := Attempt(c.attemptId, |value.attempts| + 1, value.active, c.kind, Utc(c.reservedAt.micros));
      value := value.(attempts := value.attempts + [attempt]);
      var writable := Validate(c.profile, sha, value);
      if !writable {
        return Err(WouldBeInvalid);
      }
      if fate.StopsBeforeReplace? {
        return Err(Stopped);
      }
      file := Document(value);
      if fate.StopsBeforeLink? {
        return Err(Stopped);
      }
      if attempt.id in reservations {
        return Err(ReservationExists);
      }
      reservations := reservations[attempt.id := ReservationOf(c.frozen, attempt)];
      r := Ok(Receipt(c.frozen.campaign, attempt.id, attempt.ordinal, attempt.kind, attempt.epoch,
                      value.maxAttempts - |value.attempts|));
    }

    /** The new epoch and the budget that goes with it. */
    method Register(c: AdvanceCall, l: Ledger) returns (value: Ledger)
      requires c.evidence.File? && c.registeredAt.Aware? && 1 <= |l.epochs| < |Batches(c.profile)|
      ensures value == WithEpoch(sha, c, l)
    {
      value := l;
      var expected := |value.epochs|;
      var epoch := NewEpoch(
        sha, c.profile, expected + 1, c.frozen, c.baseline,
        Some(Regression(c.evidence.path, sha(OfText(c.evidence.text)))),
        Utc(c.registeredAt.micros), Some(value.epochs[expected - 1].digest));
      value := value.(epochs := value.epochs + [epoch]);
      value := value.(active := expected + 1);
      if c.profile.CancelRetry? {
        value := value.(maxAttempts := 6);
      }
      if expected in {3, 4, 5} {
        value := value.(maxAttempts := LimitForEpoch(c.profile, expected + 1));
      }
    }

    /** The guarded half of `Advance`. */
    method OpenForAdvance(c: AdvanceCall) returns (open: Result<Ledger, Refusal>)
      ensures open == AdvanceOpen(sha, c, file)
    {
      var early := AdvanceRefusal(sha, c);
      if early.Some? {
        return Err(early.value);
      }
      if file.Malformed? {
        return Err(UnreadableLedger);
      }
      if file.Absent? {
        return Err(NotRegistered);
      }
      var value := file.ledger;
      var readable := Validate(c.profile, sha, value);
      if !readable {
        return Err(UnreadableLedger);
      }
      if value.campaign != c.frozen.campaign {
        return Err(NotRegistered);
      }
      if c.profile.IsM1() {
        var recovery := RecoveryRefusal(sha, c, value);
        if recovery.Some? {
          return Err(recovery.value);
        }
      }
      var expected := ExpectedEpoch(c);
      if NamesLaterEpoch(c) && !ApprovalBinds(sha, c, value) {
        return Err(ApprovalMismatch);
      }
      if value.active != expected || |value.epochs| != expected {
        return Err(AlreadyAdvanced);
      }
      if value.attempts == [] {
        return Err(NoAttemptYet);
      }
      var previous := value.epochs[|value.epochs| - 1];
      if expected == 5
         && (|value.attempts| != 15
             || (exists i | 0 <= i < |value.attempts| :: value.attempts[i].kind == S06Start)
             || previous.body.baseline != c.baseline)
      {
        return Err(AmendmentMismatch);
      }
      if SameBinding(previous, c.frozen, c.baseline) {
        return Err(BaselineUnchanged);
      }
      if c.registeredAt.Naive? {
        return Err(NaiveClock);
      }
      open := Ok(value);
    }

    method Advance(c: AdvanceCall, fate: Fate) returns (r: Result<BatchReceipt, Refusal>)
      modifies this
      ensures (State(), r) == AdvanceStep(sha, c, old(State()), fate)
    {
      var open := OpenForAdvance(c);
      if open.Err? {
        return Err(open.error);
      }
      OpenLeavesABatch(sha, c, file);
      var value := Register(c, open.value);
      var writable := Validate(c.profile, sha, value);
      if !writable {
        return Err(WouldBeInvalid);
      }
      if !fate.Completes? {
        return Err(Stopped);
      }
      file := Document(value);
      r := Ok(BatchReceipt(c.frozen.campaign, value.active, value.maxAttempts - |value.attempts|));
    }
  }
}
