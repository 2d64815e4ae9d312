/** When an M1 campaign can be continued by a recovery profile, and that it can be
    taken through all of them. */
module CampaignRecovery {
  import opened Results
  import opened CampaignLedger
  import opened CampaignSteps
  import opened CampaignRuns
  import opened CampaignAnswers
  import opened CampaignReach

  /** The version of the adapter and of the evidence suite that an epoch of the M1
      family was made with. */
  function AdapterOf(number: int): string {
    if number == 1 then "b937a78-step004-evidence-v7"
    else if number == 2 then "b937a78-step004-evidence-v8" else "b937a78-step004-evidence-v9"
  }

  function SuiteOf(number: int): string {
    if number == 1 then "step004-o01-v7" else if number == 2 then "step004-o01-v8" else "step004-o01-v9"
  }

  function EpochBefore(p: Profile): int {
    match p case Recovery => 1 case CancelOnly => 2 case _ => 3
  }

  /** The campaign is in the epoch that the profile continues, made by the version
      before, has made an attempt but none of them an acknowledgement, and has its
      budget of five. */
  ghost predicate CanRecover(sha: Digest, p: Profile, l: Ledger) {
    && ValidLedger(p, sha, l) && l.active == EpochBefore(p) && l.maxAttempts == 5 && l.attempts != []
    && (forall i | 0 <= i < |l.attempts| :: l.attempts[i].kind != AdminAck)
    && var d := l.epochs[|l.epochs| - 1].body.baseline.dimensions;
       d.adapter == AdapterOf(l.active) && d.suite == SuiteOf(l.active)
  }

  function NextDimensions(l: Ledger): Dimensions
    requires l.epochs != []
  {
    l.epochs[|l.epochs| - 1].body.baseline.dimensions.(
      adapter := AdapterOf(l.active + 1), suite := SuiteOf(l.active + 1))
  }

  function NextBaseline(sha: Digest, l: Ledger): Baseline
    requires l.epochs != []
  {
    l.epochs[|l.epochs| - 1].body.baseline.(
      dimensions := NextDimensions(l), fingerprint := sha(OfDimensions(NextDimensions(l))))
  }

  function RecoveryProof(sha: Digest, p: Profile, l: Ledger): Proof {
    Proof(false, true,
          Some(if p == Recovery then "m1_missing_cancel_truncate_only" else "m1_reply_cancel_only"),
          Some(sha(OfLedger(l))), Some(if p == CancelRetry then 6 else 5), Some(0), Some(EpochBefore(p) + 1), None)
  }

  /** A call that continues the campaign under another matrix. */
  function Recover(sha: Digest, p: Profile, l: Ledger): AdvanceCall
    requires l.epochs != []
  {
    var e := l.epochs[|l.epochs| - 1].body;
    var frozen := Frozen(l.campaign, OtherHash(e.matrix), e.runtime);
    AdvanceCall(p, Some(frozen), frozen, NextBaseline(sha, l), true,
                File("evidence.json", "", Some(RecoveryProof(sha, p, l))), false, Aware(0))
  }

  lemma VersionsAreSafe(number: int)
    ensures SafeDimension(AdapterOf(number)) && SafeDimension(SuiteOf(number))
  {
    assert forall i | 0 <= i < |AdapterOf(number)| ::
      AlphaNumeric(AdapterOf(number)[i]) || AdapterOf(number)[i] in "_.:@+-";
    assert forall i | 0 <= i < |SuiteOf(number)| ::
      AlphaNumeric(SuiteOf(number)[i]) || SuiteOf(number)[i] in "_.:@+-";
  }

  lemma NextBaselineIsValid(sha: Digest, p: Profile, l: Ledger)
    requires HexDigest(sha) && ValidLedger(p, sha, l)
    ensures ValidBaseline(sha, NextBaseline(sha, l))
  {
    assert EpochOk(p, sha, l.epochs, |l.epochs| - 1);
    assert ValidHash(sha(OfDimensions(NextDimensions(l))));
    NextBaselineFrom(sha, l, l.epochs[|l.epochs| - 1].body.baseline);
  }

  lemma NextBaselineFrom(sha: Digest, l: Ledger, prior: Baseline)
    requires l.epochs != [] && l.epochs[|l.epochs| - 1].body.baseline == prior && ValidBaseline(sha, prior)
    requires ValidHash(sha(OfDimensions(NextDimensions(l))))
    ensures ValidBaseline(sha, NextBaseline(sha, l))
  {
    VersionsAreSafe(l.active + 1);
  }

  lemma RecoverIsAllowed(sha: Digest, p: Profile, l: Ledger)
    requires p.IsRecovery() && CanRecover(sha, p, l)
    ensures RecoveryAllowed(sha, Recover(sha, p, l), l) && SomethingNew(Recover(sha, p, l), l)
  {
  }

  lemma RecoverIsAdmitted(sha: Digest, p: Profile, l: Ledger, d: Directory)
    requires HexDigest(sha) && p.IsRecovery() && CanRecover(sha, p, l) && d.file == Document(l)
    ensures AdvanceAdmitted(sha, Recover(sha, p, l), d)
  {
    assert EpochOk(p, sha, l.epochs, |l.epochs| - 1);
    NextBaselineIsValid(sha, p, l);
    RecoverIsAllowed(sha, p, l);
  }

  /** A recovery profile has a call that succeeds exactly when the campaign can be
      recovered; every such call names the ledger's digest, its own target and limit
      and the scope of its profile, and the authorization names its hashes. */
  lemma RecoveryPossibleExactlyWhen(sha: Digest, p: Profile, d: Directory)
    requires HexDigest(sha) && Inv(sha, d) && p.IsRecovery()
    ensures (exists c: AdvanceCall :: c.profile == p && AdvanceStep(sha, c, d, Completes).1.Ok?)
       <==> d.file.Document? && CanRecover(sha, p, d.file.ledger)
    ensures forall c: AdvanceCall | c.profile == p && AdvanceStep(sha, c, d, Completes).1.Ok? ::
      && c.authorization == Some(c.frozen) && c.evidence.File? && c.evidence.proof.Some?
      && RecoveryProved(sha, p, c.evidence.proof.value, d.file.ledger)
  {
    if d.file.Document? && CanRecover(sha, p, d.file.ledger) {
      var c := Recover(sha, p, d.file.ledger);
      RecoverIsAdmitted(sha, p, d.file.ledger, d);
      AdvanceSucceedsExactlyWhen(sha, c, d, Completes);
      assert c.profile == p;
    }
    forall c: AdvanceCall | c.profile == p && AdvanceStep(sha, c, d, Completes).1.Ok?
      ensures d.file.Document? && CanRecover(sha, p, d.file.ledger)
      ensures c.authorization == Some(c.frozen) && c.evidence.File? && c.evidence.proof.Some?
      ensures RecoveryProved(sha, p, c.evidence.proof.value, d.file.ledger)
    {
      AdvanceSucceedsExactlyWhen(sha, c, d, Completes);
      AdmittedCanRecover(sha, c, d.file.ledger);
    }
  }

  lemma AdmittedCanRecover(sha: Digest, c: AdvanceCall, l: Ledger)
    requires c.profile.IsRecovery() && ValidLedger(c.profile, sha, l) && c.evidence.File?
    requires RecoveryAllowed(sha, c, l) && SomethingNew(c, l)
    ensures CanRecover(sha, c.profile, l)
  {
  }

  // ------------------------------------------------------------------------- the chain

  const M1_DIMENSIONS := Dimensions(
    "doubao-s2s-strong-character", "2.2.0.0", "dialogue-v3-binary-gzip-json-pcm16",
    "b937a78-step004-evidence-v7", "a", "step004-o01-v7")

  function FirstM1Call(sha: Digest): ReserveCall {
    var zeros := Repeat('0', 64);
    var b := Baseline(BASELINE_SCHEMA, zeros, zeros, M1_DIMENSIONS, sha(OfDimensions(M1_DIMENSIONS)));
    var frozen := Frozen("c", zeros, zeros);
    ReserveCall(Protocol, Some(frozen), frozen, b, S01Start, true, Aware(0), Aware(0), Uuid(0))
  }

  lemma ProviderIsSafe()
    ensures SafeDimension("doubao-s2s-strong-character") && SafeDimension("2.2.0.0")
  {
    var s, t := "doubao-s2s-strong-character", "2.2.0.0";
    assert forall i | 0 <= i < |s| :: AlphaNumeric(s[i]) || s[i] in "_.:@+-";
    assert forall i | 0 <= i < |t| :: AlphaNumeric(t[i]) || t[i] in "_.:@+-";
  }

  lemma ProtocolIsSafe()
    ensures SafeDimension("dialogue-v3-binary-gzip-json-pcm16")
  {
    var s := "dialogue-v3-binary-gzip-json-pcm16";
    assert forall i | 0 <= i < |s| :: AlphaNumeric(s[i]) || s[i] in "_.:@+-";
  }

  lemma M1BaselineIsValid(sha: Digest)
    requires HexDigest(sha)
    ensures ValidBaseline(sha, FirstM1Call(sha).baseline)
  {
    assert ValidHash(Repeat('0', 64)) && ValidHash(sha(OfDimensions(M1_DIMENSIONS)));
    ProviderIsSafe();
    ProtocolIsSafe();
    VersionsAreSafe(1);
  }

  lemma FirstM1Admitted(sha: Digest, d: Directory)
    requires HexDigest(sha) && d.file.Absent?
    ensures ReserveAdmitted(sha, FirstM1Call(sha), d)
  {
    M1BaselineIsValid(sha);
    assert ValidHash(Repeat('0', 64));
  }

  /** After the first M1 reserve the campaign can be recovered. */
  lemma FirstM1Attempt(sha: Digest) returns (l: Ledger, d: Directory)
    requires HexDigest(sha)
    ensures Leads(sha, [], d) && d.file == Document(l) && CanRecover(sha, Recovery, l) && |l.attempts| == 1
  {
    LeadsToItself(sha, []);
    var empty, c := Directory(Absent, map[]), FirstM1Call(sha);
    FirstM1Admitted(sha, empty);
    ReserveSucceedsExactlyWhen(sha, c, empty);
    SuccessfulReserve(sha, c, empty, Completes);
    d := ReserveStep(sha, c, empty, Completes).0;
    l := d.file.ledger;
    LeadsOn(sha, [], empty, Reserving(c, Completes));
    LeadsKeepsInvariant(sha, [], d);
    ValidUnderRecovery(sha, Recovery, l);
  }

  /** What is valid for the M1 family with the budget of five is valid under every of
      its profiles that has the epochs. */
  lemma ValidUnderRecovery(sha: Digest, p: Profile, l: Ledger)
    requires ValidLedger(CancelRetry, sha, l) && p.IsRecovery() && l.maxAttempts == 5 && l.active == EpochBefore(p)
    ensures ValidLedger(p, sha, l)
  {
    assert Batches(p) <= Batches(CancelRetry);
    forall i | 0 <= i < |l.epochs| ensures EpochOk(p, sha, l.epochs, i) {
      assert EpochOk(CancelRetry, sha, l.epochs, i);
    }
    forall i | 0 <= i < |l.attempts| ensures AttemptOk(p, l.active, l.attempts, i) {
      assert AttemptOk(CancelRetry, l.active, l.attempts, i);
    }
  }

  /** The profile that continues where another has got to. */
  predicate Follows(p: Profile, next: Profile) {
    (p == Recovery && next == CancelOnly) || (p == CancelOnly && next == CancelRetry)
  }

  lemma RecoveredCanGoOn(sha: Digest, p: Profile, next: Profile, l: Ledger, after: Ledger)
    requires CanRecover(sha, p, l) && Follows(p, next) && Advanced(sha, Recover(sha, p, l), l, after)
    requires ValidLedger(CancelRetry, sha, after)
    ensures CanRecover(sha, next, after)
  {
    ValidUnderRecovery(sha, next, after);
  }

  /** One recovery after the other. */
  lemma RecoverOnce(sha: Digest, p: Profile, l: Ledger, d: Directory) returns (after: Ledger, later: Directory)
    requires HexDigest(sha) && p.IsRecovery() && Leads(sha, [], d) && d.file == Document(l) && CanRecover(sha, p, l)
    ensures Leads(sha, [], later) && later.file == Document(after)
    ensures Advanced(sha, Recover(sha, p, l), l, after)
    ensures forall next | Follows(p, next) :: CanRecover(sha, next, after)
  {
    var c := Recover(sha, p, l);
    LeadsKeepsInvariant(sha, [], d);
    RecoverIsAdmitted(sha, p, l, d);
    AdvanceSucceedsExactlyWhen(sha, c, d, Completes);
    SuccessfulAdvance(sha, c, d, Completes);
    later := AdvanceStep(sha, c, d, Completes).0;
    after := later.file.ledger;
    LeadsOn(sha, [], d, Advancing(c, Completes));
    LeadsKeepsInvariant(sha, [], later);
    forall next | Follows(p, next) ensures CanRecover(sha, next, after) {
      RecoveredCanGoOn(sha, p, next, l, after);
    }
  }

  /** From an empty directory each recovery profile has an advance that succeeds: a run
      takes the protocol, the recovery, the cancel-only and the cancel-retry profile
      through four epochs and ends with the budget of six. */
  lemma EveryRecoveryHappens(sha: Digest)
    requires HexDigest(sha)
    ensures exists calls :: HasLedger(Run(sha, calls), 4, 6, 1)
  {
    var l1, d1 := FirstM1Attempt(sha);
    var l2, d2 := RecoverOnce(sha, Recovery, l1, d1);
    var l3, d3 := RecoverOnce(sha, CancelOnly, l2, d2);
    assert |l3.attempts| == 1;
    var l4, d4 := RecoverOnce(sha, CancelRetry, l3, d3);
    assert HasLedger(d4, 4, 6, 1);
    var calls :| Run(sha, [] + calls) == d4;
    assert [] + calls == calls;
  }
}
