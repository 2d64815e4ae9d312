/** Which refusal a call gets: that of the first check that fails, in the order of the
    checks. */
module CampaignRefusals {
  import opened Results
  import opened CampaignLedger
  import opened CampaignSteps
  import opened CampaignRuns
  import opened CampaignTheorems
  import opened CampaignAnswers

  // ---------------------------------------------------------------------- reserving

  /** Check k of a reserve fails. */
  ghost predicate ReserveCheckFails(sha: Digest, c: ReserveCall, d: Directory, k: nat) {
    match k
    case 0 => c.profile != Default && c.authorization != Some(c.frozen)
    case 1 => c.profile != Default && c.profile != Protocol && c.kind != S01Start
    case 2 => !ValidCampaignId(c.frozen.campaign)
    case 3 => !ValidHash(c.frozen.matrix) || !ValidHash(c.frozen.runtime)
    case 4 => !KindAllowed(if c.profile == Default then Default else Protocol, c.kind)
    case 5 => !ValidBaseline(sha, c.baseline)
    case 6 => c.profile != Default && !VersionsOf(c.profile, c.baseline.dimensions)
    case 7 => !c.pathMatches
    case 8 => d.file.Malformed? || (d.file.Document? && !ValidLedger(c.profile, sha, d.file.ledger))
    case 9 => d.file.Absent? && c.profile != Default && c.profile != Protocol
    case 10 => d.file.Absent? && c.registeredAt.Naive?
    case 11 => d.file.Document? && d.file.ledger.campaign != c.frozen.campaign
    case 12 => d.file.Document? && d.file.ledger.epochs != [] &&
      var e := d.file.ledger.epochs[|d.file.ledger.epochs| - 1].body;
      e.matrix != c.frozen.matrix || e.runtime != c.frozen.runtime || e.baseline != c.baseline
    case 13 => d.file.Document? && |d.file.ledger.epochs| == 6 && c.kind != S06Start
    case 14 => d.file.Document? && |d.file.ledger.attempts| >= d.file.ledger.maxAttempts
    case 15 => c.reservedAt.Naive?
    case 16 => !CanonicalUuid(c.attemptId) ||
      (d.file.Document? &&
       (UsedId(d.file.ledger, c.attemptId) || Sealed(d.file.ledger, |d.file.ledger.epochs|)))
    case _ => false
  }

  const RESERVE_REASONS := [
    NotAuthorized, RecoveryKindOnly, BadCampaignId, BadHash, BadKind, BadBaseline, ProfileBaselineMismatch,
    WrongLedgerPath, UnreadableLedger, RecoveryNeedsLedger, NaiveClock, CampaignConflict, BaselineConflict,
    TenMinuteKindOnly, BudgetExhausted, NaiveClock, WouldBeInvalid]

  ghost predicate FirstReserveFailure(sha: Digest, c: ReserveCall, d: Directory, k: nat) {
    ReserveCheckFails(sha, c, d, k) && forall j | 0 <= j < k :: !ReserveCheckFails(sha, c, d, j)
  }

  /** A check before the lock that fails is the reason, if those before it pass. */
  lemma EarlyReserveFailure(sha: Digest, c: ReserveCall, d: Directory, k: nat)
    requires k <= 7 && FirstReserveFailure(sha, c, d, k)
    ensures ReserveRefusal(sha, c) == Some(RESERVE_REASONS[k])
  {
    if k <= 3 { FirstFour(sha, c, d, k); } else { NextFour(sha, c, d, k); }
  }

  lemma FirstFour(sha: Digest, c: ReserveCall, d: Directory, k: nat)
    requires k <= 3 && FirstReserveFailure(sha, c, d, k)
    ensures ReserveRefusal(sha, c) == Some(RESERVE_REASONS[k])
  {
    assert k > 0 ==> !ReserveCheckFails(sha, c, d, 0);
    assert k > 1 ==> !ReserveCheckFails(sha, c, d, 1);
    assert k > 2 ==> !ReserveCheckFails(sha, c, d, 2);
  }

  lemma NextFour(sha: Digest, c: ReserveCall, d: Directory, k: nat)
    requires 4 <= k <= 7 && FirstReserveFailure(sha, c, d, k)
    ensures ReserveRefusal(sha, c) == Some(RESERVE_REASONS[k])
  {
    ArgumentsByCheck(sha, c);
    assert !ReserveCheckFails(sha, c, d, 0) && !ReserveCheckFails(sha, c, d, 1);
    assert !ReserveCheckFails(sha, c, d, 2) && !ReserveCheckFails(sha, c, d, 3);
    assert k > 4 ==> !ReserveCheckFails(sha, c, d, 4);
    assert k > 5 ==> !ReserveCheckFails(sha, c, d, 5);
    assert k > 6 ==> !ReserveCheckFails(sha, c, d, 6);
  }

  lemma ArgumentsByCheck(sha: Digest, c: ReserveCall)
    ensures c.kind !in Kinds(c.profile) <==> !KindAllowed(if c.profile == Default then Default else Protocol, c.kind)
    ensures c.profile != Default ==>
      (ProfileBaseline(c.profile, c.baseline) <==> VersionsOf(c.profile, c.baseline.dimensions))
  {
    assert ADAPTER_PREFIX + "v7" == "b937a78-step004-evidence-v7" && SUITE_PREFIX + "v7" == "step004-o01-v7";
    assert ADAPTER_PREFIX + "v8" == "b937a78-step004-evidence-v8" && SUITE_PREFIX + "v8" == "step004-o01-v8";
    assert ADAPTER_PREFIX + "v9" == "b937a78-step004-evidence-v9" && SUITE_PREFIX + "v9" == "step004-o01-v9";
  }

  lemma LateReserveFailure(sha: Digest, c: ReserveCall, d: Directory, k: nat)
    requires 8 <= k <= 15 && FirstReserveFailure(sha, c, d, k)
    ensures ReserveOpen(sha, c, d.file) == Err(RESERVE_REASONS[k])
  {
    NoEarlyFailure(sha, c, d, k);
    if k <= 11 { FirstLateFailures(sha, c, d, k); } else { NextLateFailures(sha, c, d, k); }
  }

  lemma FirstLateFailures(sha: Digest, c: ReserveCall, d: Directory, k: nat)
    requires 8 <= k <= 11 && FirstReserveFailure(sha, c, d, k) && ReserveRefusal(sha, c) == None
    ensures ReserveOpen(sha, c, d.file) == Err(RESERVE_REASONS[k])
  {
    assert k > 8 ==> !ReserveCheckFails(sha, c, d, 8);
    assert k > 9 ==> !ReserveCheckFails(sha, c, d, 9);
    assert k > 10 ==> !ReserveCheckFails(sha, c, d, 10);
  }

  lemma NextLateFailures(sha: Digest, c: ReserveCall, d: Directory, k: nat)
    requires 12 <= k <= 15 && FirstReserveFailure(sha, c, d, k) && ReserveRefusal(sha, c) == None
    ensures ReserveOpen(sha, c, d.file) == Err(RESERVE_REASONS[k])
  {
    assert !ReserveCheckFails(sha, c, d, 8) && !ReserveCheckFails(sha, c, d, 9);
    assert !ReserveCheckFails(sha, c, d, 10) && !ReserveCheckFails(sha, c, d, 11);
    assert k > 12 ==> !ReserveCheckFails(sha, c, d, 12);
    assert k > 13 ==> !ReserveCheckFails(sha, c, d, 13);
    assert k > 14 ==> !ReserveCheckFails(sha, c, d, 14);
  }

  lemma NoEarlyFailure(sha: Digest, c: ReserveCall, d: Directory, k: nat)
    requires k >= 8 && forall j | 0 <= j < k :: !ReserveCheckFails(sha, c, d, j)
    ensures ReserveRefusal(sha, c) == None
  {
    ArgumentsByCheck(sha, c);
    assert !ReserveCheckFails(sha, c, d, 0) && !ReserveCheckFails(sha, c, d, 1) && !ReserveCheckFails(sha, c, d, 2);
    assert !ReserveCheckFails(sha, c, d, 3) && !ReserveCheckFails(sha, c, d, 4) && !ReserveCheckFails(sha, c, d, 5);
    assert !ReserveCheckFails(sha, c, d, 6) && !ReserveCheckFails(sha, c, d, 7);
  }

  lemma OpensWithoutLedger(sha: Digest, c: ReserveCall)
    requires forall j | 0 <= j < 16 :: !ReserveCheckFails(sha, c, Directory(Absent, map[]), j)
    ensures ReserveOpen(sha, c, Absent).Ok?
  {
    var d := Directory(Absent, map[]);
    NoEarlyFailure(sha, c, d, 16);
    assert !ReserveCheckFails(sha, c, d, 9) && !ReserveCheckFails(sha, c, d, 10) && !ReserveCheckFails(sha, c, d, 15);
  }

  lemma OpensOnLedger(sha: Digest, c: ReserveCall, d: Directory)
    requires d.file.Document? && forall j | 0 <= j < 16 :: !ReserveCheckFails(sha, c, d, j)
    ensures ReserveOpen(sha, c, d.file).Ok?
  {
    NoEarlyFailure(sha, c, d, 16);
    assert !ReserveCheckFails(sha, c, d, 8) && !ReserveCheckFails(sha, c, d, 11) && !ReserveCheckFails(sha, c, d, 12);
    assert !ReserveCheckFails(sha, c, d, 13) && !ReserveCheckFails(sha, c, d, 14) && !ReserveCheckFails(sha, c, d, 15);
    OpensFrom(sha, c, d.file.ledger);
  }

  lemma OpensFrom(sha: Digest, c: ReserveCall, l: Ledger)
    requires ReserveRefusal(sha, c) == None && ValidLedger(c.profile, sha, l) && l.campaign == c.frozen.campaign
    requires var e := l.epochs[|l.epochs| - 1].body;
      e.matrix == c.frozen.matrix && e.runtime == c.frozen.runtime && e.baseline == c.baseline
    requires (|l.epochs| == 6 ==> c.kind == S06Start) && |l.attempts| < l.maxAttempts && c.reservedAt.Aware?
    ensures ReserveOpen(sha, c, Document(l)).Ok?
  {
  }

  lemma OpensWhenChecksPass(sha: Digest, c: ReserveCall, d: Directory)
    requires forall j | 0 <= j < 16 :: !ReserveCheckFails(sha, c, d, j)
    ensures ReserveOpen(sha, c, d.file).Ok?
  {
    assert !ReserveCheckFails(sha, c, d, 8);
    if d.file.Document? {
      OpensOnLedger(sha, c, d);
    } else {
      forall j | 0 <= j < 16 ensures !ReserveCheckFails(sha, c, Directory(Absent, map[]), j) {
        OnlyTheFileCounts(sha, c, d, Directory(Absent, map[]), j);
      }
      OpensWithoutLedger(sha, c);
    }
  }

  lemma OnlyTheFileCounts(sha: Digest, c: ReserveCall, a: Directory, b: Directory, k: nat)
    requires a.file == b.file
    ensures ReserveCheckFails(sha, c, a, k) == ReserveCheckFails(sha, c, b, k)
  {
  }

  lemma LastReserveFailure(sha: Digest, c: ReserveCall, d: Directory, fate: Fate)
    requires HexDigest(sha) && Inv(sha, d) && FirstReserveFailure(sha, c, d, 16)
    ensures ReserveStep(sha, c, d, fate).1 == Err(WouldBeInvalid)
  {
    OpensWhenChecksPass(sha, c, d);
    OpenExactlyWhen(sha, c, d);
    var l := ReserveOpen(sha, c, d.file).value;
    if CanonicalUuid(c.attemptId) {
      GuardedReserveFailsExactlyWhen(sha, c, d);
      SameLedger(sha, c, d, l);
    } else {
      ValidIdsAreCanonical(sha, c.profile, l, NextAttempt(c, l));
    }
  }

  lemma SameLedger(sha: Digest, c: ReserveCall, d: Directory, l: Ledger)
    requires StartsFrom(sha, c, d, l) && ReserveCheckFails(sha, c, d, 16) && CanonicalUuid(c.attemptId)
    requires d.file.Document? ==> l.active == |l.epochs|
    ensures UsedId(l, c.attemptId) || Sealed(l, l.active)
  {
  }

  /** The first check that fails decides the refusal of a reserve, however far it might
      have got. */
  lemma ReserveRefusedByTheFirst(sha: Digest, c: ReserveCall, d: Directory, fate: Fate, k: nat)
    requires HexDigest(sha) && Inv(sha, d) && k < 17 && FirstReserveFailure(sha, c, d, k)
    ensures ReserveStep(sha, c, d, fate).1 == Err(RESERVE_REASONS[k])
  {
    if k <= 7 {
      EarlyReserveFailure(sha, c, d, k);
    } else if k <= 15 {
      LateReserveFailure(sha, c, d, k);
    } else {
      LastReserveFailure(sha, c, d, fate);
    }
  }

  /** And a reserve that no check refuses is admitted. */
  lemma ReserveAdmittedByAll(sha: Digest, c: ReserveCall, d: Directory)
    requires HexDigest(sha) && Inv(sha, d) && forall k | 0 <= k < 17 :: !ReserveCheckFails(sha, c, d, k)
    ensures ReserveAdmitted(sha, c, d)
  {
    OpensWhenChecksPass(sha, c, d);
    OpenExactlyWhen(sha, c, d);
    assert !ReserveCheckFails(sha, c, d, 16);
    PassedTheLast(sha, c, d, ReserveOpen(sha, c, d.file).value);
  }

  lemma PassedTheLast(sha: Digest, c: ReserveCall, d: Directory, l: Ledger)
    requires StartsFrom(sha, c, d, l) && !ReserveCheckFails(sha, c, d, 16)
    requires d.file.Document? ==> l.active == |l.epochs|
    ensures CanonicalUuid(c.attemptId) && !UsedId(l, c.attemptId) && !Sealed(l, l.active)
  {
  }

  // ---------------------------------------------------------------------- advancing

  predicate WantsEpoch(c: AdvanceCall, target: int) {
    c.authorizedRetest && c.evidence.File? && c.evidence.proof.Some? && c.evidence.proof.value.target == Some(target)
  }

  predicate WantsLater(c: AdvanceCall) {
    WantsEpoch(c, 4) || WantsEpoch(c, 5) || WantsEpoch(c, 6)
  }

  /** The approval of a later epoch names this ledger and the epoch's budget; of the
      sixth also ten minutes. */
  predicate ApprovalNames(sha: Digest, c: AdvanceCall, l: Ledger)
    requires WantsLater(c)
  {
    var proof := c.evidence.proof.value;
    && proof.priorLedgerSha == Some(sha(OfLedger(l)))
    && proof.maxAttempts == Some(if WantsEpoch(c, 5) then 18 else 16)
    && (WantsEpoch(c, 6) ==> proof.scope == Some("s06_ten_minute_only") && proof.minutes == Some(10))
  }

  predicate RecoveryMatches(sha: Digest, c: AdvanceCall, l: Ledger)
    requires c.evidence.File? && l.epochs != []
  {
    && !c.authorizedRetest && c.evidence.proof.Some? && RecoveryProved(sha, c.profile, c.evidence.proof.value, l)
    && l.maxAttempts == 5 && (forall i | 0 <= i < |l.attempts| :: l.attempts[i].kind != AdminAck)
    && RecoveryFits(c.profile, c.baseline, l)
  }

  /** Check k of an advance on its arguments fails. */
  predicate ArgumentFails(sha: Digest, c: AdvanceCall, k: nat) {
    match k
    case 0 => !ValidCampaignId(c.frozen.campaign)
    case 1 => !ValidHash(c.frozen.matrix) || !ValidHash(c.frozen.runtime)
    case 2 => !ValidBaseline(sha, c.baseline)
    case 3 => !c.pathMatches
    case 4 => c.evidence.NoFile?
    case 5 => c.authorizedRetest &&
      (c.evidence.NoFile? || c.evidence.proof.None? || !c.evidence.proof.value.additionalRound
       || !c.evidence.proof.value.passed)
    case _ => false
  }

  const ARGUMENT_REASONS := [BadCampaignId, BadHash, BadBaseline, WrongLedgerPath, BadEvidence, NotApproved]

  lemma FirstArgumentDecides(sha: Digest, c: AdvanceCall, k: nat)
    requires k < 6 && ArgumentFails(sha, c, k) && forall j | 0 <= j < k :: !ArgumentFails(sha, c, j)
    ensures AdvanceRefusal(sha, c) == Some(ARGUMENT_REASONS[k])
  {
    assert k > 0 ==> !ArgumentFails(sha, c, 0);
    assert k > 1 ==> !ArgumentFails(sha, c, 1);
    assert k > 2 ==> !ArgumentFails(sha, c, 2);
    assert k > 3 ==> !ArgumentFails(sha, c, 3);
    assert k > 4 ==> !ArgumentFails(sha, c, 4);
  }

  lemma ArgumentsPass(sha: Digest, c: AdvanceCall)
    requires forall j | 0 <= j < 6 :: !ArgumentFails(sha, c, j)
    ensures AdvanceRefusal(sha, c) == None && c.evidence.File?
  {
    assert !ArgumentFails(sha, c, 0) && !ArgumentFails(sha, c, 1) && !ArgumentFails(sha, c, 2);
    assert !ArgumentFails(sha, c, 3) && !ArgumentFails(sha, c, 4) && !ArgumentFails(sha, c, 5);
  }

  /** Check k of an advance on a valid ledger fails. */
  ghost predicate AdvanceCheckFails(sha: Digest, c: AdvanceCall, l: Ledger, k: nat)
    requires c.evidence.File? && l.epochs != []
  {
    match k
    case 0 => l.campaign != c.frozen.campaign
    case 1 => c.profile != Default && (c.profile == Protocol || c.authorization != Some(c.frozen))
    case 2 => c.profile != Default && !RecoveryMatches(sha, c, l)
    case 3 => c.profile == Default && WantsLater(c) && !ApprovalNames(sha, c, l)
    case 4 => c.profile == Default && |l.epochs| !=
      if WantsEpoch(c, 4) then 3 else if WantsEpoch(c, 5) then 4 else if WantsEpoch(c, 6) then 5
      else if c.authorizedRetest then 2 else 1
    case 5 => l.attempts == []
    case 6 => c.profile == Default && WantsEpoch(c, 6) &&
      !(&& |l.attempts| == 15 && (forall i | 0 <= i < |l.attempts| :: l.attempts[i].kind != S06Start)
        && l.epochs[|l.epochs| - 1].body.baseline == c.baseline)
    case 7 =>
      var e := l.epochs[|l.epochs| - 1].body;
      e.matrix == c.frozen.matrix && e.runtime == c.frozen.runtime && e.baseline == c.baseline
    case 8 => c.registeredAt.Naive?
    case _ => false
  }

  const ADVANCE_REASONS := [
    NotRegistered, NotAuthorized, RecoveryMismatch, ApprovalMismatch, AlreadyAdvanced, NoAttemptYet,
    AmendmentMismatch, BaselineUnchanged, NaiveClock]

  lemma M1CheckDecides(sha: Digest, c: AdvanceCall, l: Ledger)
    requires c.profile != Default && c.evidence.File? && l.epochs != []
    ensures RecoveryRefusal(sha, c, l) ==
      if AdvanceCheckFails(sha, c, l, 1) then Some(NotAuthorized)
      else if AdvanceCheckFails(sha, c, l, 2) then Some(RecoveryMismatch) else None
  {
    RecoveryRefusedExactlyWhen(sha, c, l);
  }

  lemma M1AdvanceDecides(sha: Digest, c: AdvanceCall, l: Ledger, k: nat)
    requires c.profile != Default && AdvanceRefusal(sha, c).None? && ValidLedger(c.profile, sha, l) && k < 9
    requires c.evidence.File? && AdvanceCheckFails(sha, c, l, k)
    requires forall j | 0 <= j < k :: !AdvanceCheckFails(sha, c, l, j)
    ensures AdvanceOpen(sha, c, Document(l)) == Err(ADVANCE_REASONS[k])
  {
    M1CheckDecides(sha, c, l);
    assert k > 0 ==> !AdvanceCheckFails(sha, c, l, 0);
    assert k > 1 ==> !AdvanceCheckFails(sha, c, l, 1);
    assert k > 2 ==> !AdvanceCheckFails(sha, c, l, 2);
    assert k > 5 ==> !AdvanceCheckFails(sha, c, l, 5);
    assert k > 7 ==> !AdvanceCheckFails(sha, c, l, 7);
  }

  lemma DefaultAdvanceDecides(sha: Digest, c: AdvanceCall, l: Ledger, k: nat)
    requires c.profile == Default && AdvanceRefusal(sha, c).None? && ValidLedger(c.profile, sha, l) && k < 9
    requires c.evidence.File? && AdvanceCheckFails(sha, c, l, k)
    requires forall j | 0 <= j < k :: !AdvanceCheckFails(sha, c, l, j)
    ensures AdvanceOpen(sha, c, Document(l)) == Err(ADVANCE_REASONS[k])
  {
    assert k > 0 ==> !AdvanceCheckFails(sha, c, l, 0);
    assert k > 3 ==> !AdvanceCheckFails(sha, c, l, 3);
    assert k > 4 ==> !AdvanceCheckFails(sha, c, l, 4);
    assert k > 5 ==> !AdvanceCheckFails(sha, c, l, 5);
    assert k > 6 ==> !AdvanceCheckFails(sha, c, l, 6);
    assert k > 7 ==> !AdvanceCheckFails(sha, c, l, 7);
  }

  /** The first of the checks on the arguments that fails. */
  predicate FirstArgument(sha: Digest, c: AdvanceCall, k: nat) {
    k < 6 && ArgumentFails(sha, c, k) && forall j | 0 <= j < k :: !ArgumentFails(sha, c, j)
  }

  predicate ArgumentsAreFine(sha: Digest, c: AdvanceCall) {
    forall j | 0 <= j < 6 :: !ArgumentFails(sha, c, j)
  }

  ghost predicate FirstCheck(sha: Digest, c: AdvanceCall, l: Ledger, k: nat) {
    && k < 9 && c.evidence.File? && l.epochs != [] && AdvanceCheckFails(sha, c, l, k)
    && forall j | 0 <= j < k :: !AdvanceCheckFails(sha, c, l, j)
  }

  /** The reason of an advance's refusal: the first check that fails, of the arguments,
      then whether there is a readable ledger, then what it says. */
  ghost predicate AdvanceRefusedFor(sha: Digest, c: AdvanceCall, d: Directory, r: Refusal) {
    if !ArgumentsAreFine(sha, c) then exists k: nat :: FirstArgument(sha, c, k) && ARGUMENT_REASONS[k] == r
    else
      match d.file
      case Absent => r == NotRegistered
      case Malformed => r == UnreadableLedger
      case Document(l) =>
        if !ValidLedger(c.profile, sha, l) then r == UnreadableLedger
        else exists k: nat :: FirstCheck(sha, c, l, k) && ADVANCE_REASONS[k] == r
  }

  lemma FirstCheckDecides(sha: Digest, c: AdvanceCall, l: Ledger, k: nat)
    requires ArgumentsAreFine(sha, c) && ValidLedger(c.profile, sha, l) && FirstCheck(sha, c, l, k)
    ensures AdvanceOpen(sha, c, Document(l)) == Err(ADVANCE_REASONS[k])
  {
    ArgumentsPass(sha, c);
    if c.profile == Default {
      DefaultAdvanceDecides(sha, c, l, k);
    } else {
      M1AdvanceDecides(sha, c, l, k);
    }
  }

  lemma NoLedgerDecides(sha: Digest, c: AdvanceCall, file: LedgerFile)
    requires ArgumentsAreFine(sha, c)
    ensures file.Absent? ==> AdvanceOpen(sha, c, file) == Err(NotRegistered)
    ensures file.Malformed? || (file.Document? && !ValidLedger(c.profile, sha, file.ledger)) ==>
      AdvanceOpen(sha, c, file) == Err(UnreadableLedger)
  {
    ArgumentsPass(sha, c);
  }

  lemma ArgumentReason(sha: Digest, c: AdvanceCall, d: Directory, r: Refusal)
    requires !ArgumentsAreFine(sha, c) && AdvanceRefusedFor(sha, c, d, r)
    ensures AdvanceRefusal(sha, c) == Some(r)
  {
    var k: nat :| FirstArgument(sha, c, k) && ARGUMENT_REASONS[k] == r;
    FirstArgumentDecides(sha, c, k);
  }

  lemma LedgerReason(sha: Digest, c: AdvanceCall, d: Directory, r: Refusal)
    requires ArgumentsAreFine(sha, c) && AdvanceRefusedFor(sha, c, d, r)
    ensures AdvanceOpen(sha, c, d.file) == Err(r)
  {
    NoLedgerDecides(sha, c, d.file);
    if d.file.Document? && ValidLedger(c.profile, sha, d.file.ledger) {
      var k: nat :| FirstCheck(sha, c, d.file.ledger, k) && ADVANCE_REASONS[k] == r;
      FirstCheckDecides(sha, c, d.file.ledger, k);
    }
  }

  lemma EarlyIsOpen(sha: Digest, c: AdvanceCall, file: LedgerFile)
    ensures AdvanceRefusal(sha, c).Some? ==> AdvanceOpen(sha, c, file) == Err(AdvanceRefusal(sha, c).value)
  {
  }

  lemma OpenRefusedByTheFirst(sha: Digest, c: AdvanceCall, d: Directory, r: Refusal)
    requires AdvanceRefusedFor(sha, c, d, r)
    ensures AdvanceOpen(sha, c, d.file) == Err(r)
  {
    if ArgumentsAreFine(sha, c) {
      LedgerReason(sha, c, d, r);
    } else {
      ArgumentReason(sha, c, d, r);
      EarlyIsOpen(sha, c, d.file);
    }
  }

  /** The first check that fails decides the refusal of an advance. */
  lemma AdvanceRefusedByTheFirst(sha: Digest, c: AdvanceCall, d: Directory, fate: Fate, r: Refusal)
    requires AdvanceRefusedFor(sha, c, d, r)
    ensures AdvanceStep(sha, c, d, fate).1 == Err(r)
  {
    OpenRefusedByTheFirst(sha, c, d, r);
  }

  /** And an advance that no check refuses is admitted. */
  lemma AdvanceAdmittedByAll(sha: Digest, c: AdvanceCall, d: Directory)
    requires ArgumentsAreFine(sha, c) && d.file.Document? && ValidLedger(c.profile, sha, d.file.ledger)
    requires c.evidence.File? && forall k | 0 <= k < 9 :: !AdvanceCheckFails(sha, c, d.file.ledger, k)
    ensures AdvanceAdmitted(sha, c, d)
  {
    var l := d.file.ledger;
    ArgumentsPass(sha, c);
    assert !ArgumentFails(sha, c, 0) && !ArgumentFails(sha, c, 1) && !ArgumentFails(sha, c, 2);
    assert !ArgumentFails(sha, c, 3) && !ArgumentFails(sha, c, 5);
    assert !AdvanceCheckFails(sha, c, l, 0) && !AdvanceCheckFails(sha, c, l, 1) && !AdvanceCheckFails(sha, c, l, 2);
    assert !AdvanceCheckFails(sha, c, l, 3) && !AdvanceCheckFails(sha, c, l, 4) && !AdvanceCheckFails(sha, c, l, 5);
    assert !AdvanceCheckFails(sha, c, l, 6) && !AdvanceCheckFails(sha, c, l, 7) && !AdvanceCheckFails(sha, c, l, 8);
  }

  // ------------------------------------------------------------------------ loading

  /** Check k of a load fails. */
  ghost predicate LoadCheckFails(sha: Digest, c: LoadCall, d: Directory, k: nat) {
    match k
    case 0 => !ValidBaseline(sha, c.baseline)
    case 1 => !ServedDirectly(c.profile, c.kind)
    case 2 => !(1 <= c.ordinal <= 18)
    case 3 => d.file.Malformed? || (d.file.Document? && !ValidLedger(c.profile, sha, d.file.ledger))
    case 4 => d.file.Absent? || (d.file.Document? && d.file.ledger.campaign != c.frozen.campaign)
    case 5 => d.file.Document? && d.file.ledger.epochs != [] &&
      var e := d.file.ledger.epochs[|d.file.ledger.epochs| - 1].body;
      e.matrix != c.frozen.matrix || e.runtime != c.frozen.runtime || e.baseline != c.baseline
    case 6 => d.file.Document? &&
      var l := d.file.ledger;
      !(1 <= c.ordinal <= |l.attempts| && l.attempts[c.ordinal - 1].epoch == |l.epochs|
        && l.attempts[c.ordinal - 1].kind == c.kind)
    case 7 => d.file.Document? && 1 <= c.ordinal <= |d.file.ledger.attempts|
      && d.file.ledger.attempts[c.ordinal - 1].id !in d.reservations
    case _ => false
  }

  const LOAD_REASONS := [
    BadBaseline, BadKind, BadOrdinal, UnreadableLedger, NotRegistered, BaselineConflict, NoSuchAttempt,
    ReservationUnusable]

  lemma EarlyLoadFailure(sha: Digest, c: LoadCall, d: Directory, k: nat)
    requires k <= 5 && LoadCheckFails(sha, c, d, k) && forall j | 0 <= j < k :: !LoadCheckFails(sha, c, d, j)
    ensures LoadReserved(sha, c, d) == Err(LOAD_REASONS[k])
  {
    assert k > 0 ==> !LoadCheckFails(sha, c, d, 0);
    assert k > 1 ==> !LoadCheckFails(sha, c, d, 1);
    assert k > 2 ==> !LoadCheckFails(sha, c, d, 2);
    assert k > 3 ==> !LoadCheckFails(sha, c, d, 3);
    assert k > 4 ==> !LoadCheckFails(sha, c, d, 4);
  }

  lemma SearchDecides(sha: Digest, c: LoadCall, d: Directory)
    requires forall j | 0 <= j < 6 :: !LoadCheckFails(sha, c, d, j)
    ensures d.file.Document? && ValidLedger(c.profile, sha, d.file.ledger)
    ensures var found := Matching(c, d.file.ledger.active, d.file.ledger.attempts);
      && (|found| != 1 ==> LoadReserved(sha, c, d) == Err(NoSuchAttempt))
      && (|found| == 1 && found[0].id !in d.reservations ==> LoadReserved(sha, c, d) == Err(ReservationUnusable))
  {
    assert !LoadCheckFails(sha, c, d, 0) && !LoadCheckFails(sha, c, d, 1) && !LoadCheckFails(sha, c, d, 2);
    assert !LoadCheckFails(sha, c, d, 3) && !LoadCheckFails(sha, c, d, 4) && !LoadCheckFails(sha, c, d, 5);
  }

  lemma LateLoadFailure(sha: Digest, c: LoadCall, d: Directory, k: nat)
    requires 6 <= k <= 7 && LoadCheckFails(sha, c, d, k) && forall j | 0 <= j < k :: !LoadCheckFails(sha, c, d, j)
    ensures LoadReserved(sha, c, d) == Err(LOAD_REASONS[k])
  {
    SearchDecides(sha, c, d);
    OrdinalsCount(c.profile, sha, d.file.ledger);
    MatchingIsOneSlot(c, d.file.ledger.active, d.file.ledger.attempts);
    assert k > 6 ==> !LoadCheckFails(sha, c, d, 6);
  }

  /** The first check that fails decides the refusal of a load; without one it succeeds. */
  lemma LoadRefusedByTheFirst(sha: Digest, c: LoadCall, d: Directory, k: nat)
    requires Inv(sha, d) && forall j | 0 <= j < k :: !LoadCheckFails(sha, c, d, j)
    ensures k < 8 && LoadCheckFails(sha, c, d, k) ==> LoadReserved(sha, c, d) == Err(LOAD_REASONS[k])
    ensures k == 8 ==> LoadReserved(sha, c, d).Ok?
  {
    if k < 8 && LoadCheckFails(sha, c, d, k) {
      if k <= 5 { EarlyLoadFailure(sha, c, d, k); } else { LateLoadFailure(sha, c, d, k); }
    }
    if k == 8 {
      AllLoadChecksPass(sha, c, d);
      LoadIsExact(sha, c, d);
    }
  }

  lemma AllLoadChecksPass(sha: Digest, c: LoadCall, d: Directory)
    requires forall j | 0 <= j < 8 :: !LoadCheckFails(sha, c, d, j)
    ensures Loadable(sha, c, d)
  {
    assert !LoadCheckFails(sha, c, d, 0) && !LoadCheckFails(sha, c, d, 1) && !LoadCheckFails(sha, c, d, 2);
    assert !LoadCheckFails(sha, c, d, 3) && !LoadCheckFails(sha, c, d, 4) && !LoadCheckFails(sha, c, d, 5);
    assert !LoadCheckFails(sha, c, d, 6) && !LoadCheckFails(sha, c, d, 7);
  }
}
