/** The provider-attempt ledger of a campaign: its data, the limit and batch
    tables of every profile, and what makes a ledger valid.

    SHA-256 over canonical JSON is a parameter `sha`; where its output format
    matters a lemma requires `HexDigest(sha)`. No lemma assumes that it has no
    collisions: what would follow from that is concluded up to a collision. */
module CampaignLedger {
  import opened Results

  // ---------------------------------------------------------------- profiles

  /** The runner is started in one of these configurations. `Protocol` and the
      three that follow it are the M1 profiles. */
  datatype Profile = Default | Protocol | Recovery | CancelOnly | CancelRetry {
    predicate IsM1() { !Default? }
    predicate IsRecovery() { Recovery? || CancelOnly? || CancelRetry? }
    predicate IsCancelOnly() { CancelOnly? || CancelRetry? }
  }

  datatype Kind =
    | AdminConnection | AdminAck | S01Start | S01Reconnect | S02Start
    | S03Start | S04Start | S05Start | S06Start | UnknownKind(name: string)

  function Kinds(p: Profile): set<Kind> {
    if p.IsM1() then {S01Start, S01Reconnect, AdminAck}
    else {AdminConnection, AdminAck, S01Start, S01Reconnect, S02Start, S03Start, S04Start, S05Start, S06Start}
  }

  /** Kinds that are served directly rather than through the admin routes. */
  function DirectKinds(p: Profile): set<Kind> {
    Kinds(p) - {AdminConnection, AdminAck}
  }

  /** Batch names in epoch order: epoch `i + 1` has batch `Batches(p)[i]`. */
  function Batches(p: Profile): seq<string> {
    match p
    case Default =>
      ["initial", "final", "authorized_retest", "authorized_retest", "authorized_retest", "duration_amendment"]
    case Protocol => ["m1_protocol"]
    case Recovery => ["m1_protocol", "m1_tool_recovery"]
    case CancelOnly => ["m1_protocol", "m1_tool_recovery", "m1_cancel_only"]
    case CancelRetry => ["m1_protocol", "m1_tool_recovery", "m1_cancel_only", "m1_cancel_retry"]
  }

  const TEN_MINUTE_LIMIT := 16

  function InitialLimit(p: Profile): int {
    match p
    case Default => 15
    case CancelRetry => 6
    case _ => 5
  }

  function LimitForEpoch(p: Profile, epoch: int): int {
    if p.IsM1() then if p.CancelRetry? && epoch == 4 then 6 else 5
    else if epoch == 6 then TEN_MINUTE_LIMIT
    else if epoch == 5 then 18
    else if epoch == 4 then 16
    else InitialLimit(p)
  }

  // -------------------------------------------------------------------- data

  datatype Dimensions = Dimensions(
    provider: string, model: string, protocol: string,
    adapter: string, sdk: string, suite: string)

  datatype Baseline = Baseline(
    schema: string, settingsSha: string, draftSha: string,
    dimensions: Dimensions, fingerprint: string)

  /** A timestamp text that parses as UTC, or any other text. */
  datatype Stamp = Utc(micros: int) | NotUtc(text: string)

  /** The caller's clock: with a time zone, or naive. */
  datatype Clock = Aware(micros: int) | Naive

  datatype Regression = Regression(path: string, sha: string)

  datatype EpochBody = EpochBody(
    number: int, batch: string, matrix: string, runtime: string, baseline: Baseline,
    regression: Option<Regression>, registeredAt: Stamp, previous: Option<string>)

  datatype Epoch = Epoch(body: EpochBody, digest: string)

  datatype Attempt = Attempt(id: string, ordinal: int, epoch: int, kind: Kind, reservedAt: Stamp)

  datatype Ledger = Ledger(
    schema: string, campaign: string, maxAttempts: int, active: int,
    epochs: seq<Epoch>, attempts: seq<Attempt>)

  /** Everything the runner feeds to SHA-256. */
  datatype Hashed =
    | OfEpoch(body: EpochBody) | OfDimensions(dimensions: Dimensions)
    | OfLedger(ledger: Ledger) | OfText(text: string)

  type Digest = Hashed -> string

  ghost predicate HexDigest(sha: Digest) {
    forall x :: ValidHash(sha(x))
  }

  /** Two different epochs, one of each history, with one digest. */
  ghost predicate Collide(sha: Digest, a: seq<Epoch>, b: seq<Epoch>) {
    exists i, j | 0 <= i < |a| && 0 <= j < |b| ::
      a[i].body != b[j].body && sha(OfEpoch(a[i].body)) == sha(OfEpoch(b[j].body))
  }

  // ------------------------------------------------------------ field formats

  predicate LowerHex(c: char) { '0' <= c <= '9' || 'a' <= c <= 'f' }

  predicate AlphaNumeric(c: char) { '0' <= c <= '9' || 'a' <= c <= 'z' || 'A' <= c <= 'Z' }

  predicate ValidHash(s: string) {
    |s| == 64 && forall i | 0 <= i < 64 :: LowerHex(s[i])
  }

  /** The one spelling of a UUID that parsing and printing it gives back. */
  predicate CanonicalUuid(s: string) {
    |s| == 36 && forall i | 0 <= i < 36 :: if i in {8, 13, 18, 23} then s[i] == '-' else LowerHex(s[i])
  }

  predicate ValidCampaignId(s: string) {
    1 <= |s| <= 80 && AlphaNumeric(s[0]) && forall i | 1 <= i < |s| :: AlphaNumeric(s[i]) || s[i] in "._-"
  }

  predicate SafeDimension(s: string) {
    1 <= |s| && AlphaNumeric(s[0]) && forall i | 1 <= i < |s| :: AlphaNumeric(s[i]) || s[i] in "_.:@+-"
  }

  const LEDGER_SCHEMA := "m1-campaign-provider-attempt-ledger/v2"
  const BASELINE_SCHEMA := "m1-campaign-baseline/v1"

  predicate ValidBaseline(sha: Digest, b: Baseline) {
    && b.schema == BASELINE_SCHEMA
    && ValidHash(b.settingsSha)
    && ValidHash(b.draftSha)
    && SafeDimension(b.dimensions.provider) && SafeDimension(b.dimensions.model)
    && SafeDimension(b.dimensions.protocol) && SafeDimension(b.dimensions.adapter)
    && SafeDimension(b.dimensions.sdk) && SafeDimension(b.dimensions.suite)
    && ValidHash(b.fingerprint)
    && b.fingerprint == sha(OfDimensions(b.dimensions))
  }

  // ---------------------------------------------------------------- validity

  predicate HeaderOk(p: Profile, l: Ledger) {
    && l.schema == LEDGER_SCHEMA
    && l.maxAttempts == LimitForEpoch(p, l.active)
    && ValidCampaignId(l.campaign)
    && 1 <= |l.epochs| <= |Batches(p)|
    && l.active == |l.epochs|
  }

  predicate RegressionOk(first: bool, r: Option<Regression>) {
    if first then r.None? else r.Some? && r.value.path != "" && ValidHash(r.value.sha)
  }

  /** Epoch `i` is well formed and its digest covers its body, which names the
      digest of the epoch before it. */
  predicate EpochOk(p: Profile, sha: Digest, epochs: seq<Epoch>, i: nat)
    requires i < |epochs| <= |Batches(p)|
  {
    var e := epochs[i];
    && e.body.number == i + 1
    && e.body.batch == Batches(p)[i]
    && ValidHash(e.body.matrix)
    && ValidHash(e.body.runtime)
    && e.body.previous == (if i == 0 then None else Some(epochs[i - 1].digest))
    && ValidHash(e.digest)
    && e.digest == sha(OfEpoch(e.body))
    && RegressionOk(i == 0, e.body.regression)
    && ValidBaseline(sha, e.body.baseline)
    && e.body.registeredAt.Utc?
  }

  /** An attempt as it is judged on its own. */
  predicate AttemptShapeOk(p: Profile, active: int, a: Attempt, ordinal: int) {
    && CanonicalUuid(a.id)
    && a.ordinal == ordinal
    && 1 <= a.epoch <= active
    && a.kind in Kinds(p)
    && a.reservedAt.Utc?
    && (a.epoch == 6 ==> a.kind == S06Start && a.ordinal == TEN_MINUTE_LIMIT)
  }

  /** Attempt `i` fits the attempts before it: a fresh id, an epoch that does not
      go back, and an epoch that no earlier `AdminAck` has sealed. */
  predicate AttemptOk(p: Profile, active: int, attempts: seq<Attempt>, i: nat)
    requires i < |attempts|
  {
    var a := attempts[i];
    && AttemptShapeOk(p, active, a, i + 1)
    && forall j | 0 <= j < i ::
         && attempts[j].id != a.id
         && attempts[j].epoch <= a.epoch
         && (attempts[j].kind == AdminAck ==> attempts[j].epoch != a.epoch)
  }

  predicate ValidLedger(p: Profile, sha: Digest, l: Ledger) {
    && HeaderOk(p, l)
    && (forall i | 0 <= i < |l.epochs| :: EpochOk(p, sha, l.epochs, i))
    && |l.attempts| <= l.maxAttempts
    && (forall i | 0 <= i < |l.attempts| :: AttemptOk(p, l.active, l.attempts, i))
  }

  /** The validator's first pass: the hash chain is followed with the digest of
      the epoch just read. */
  method ValidateEpochs(p: Profile, sha: Digest, epochs: seq<Epoch>) returns (ok: bool)
    requires |epochs| <= |Batches(p)|
    ensures ok == forall i | 0 <= i < |epochs| :: EpochOk(p, sha, epochs, i)
  {
    var previous: Option<string> := None;
    for i := 0 to |epochs|
      invariant previous == if i == 0 then None else Some(epochs[i - 1].digest)
      invariant forall k | 0 <= k < i :: EpochOk(p, sha, epochs, k)
    {
      var e := epochs[i];
      if || e.body.number != i + 1
         || e.body.batch != Batches(p)[i]
         || !ValidHash(e.body.matrix)
         || !ValidHash(e.body.runtime)
         || e.body.previous != previous
         || !ValidHash(e.digest)
         || e.digest != sha(OfEpoch(e.body))
         || !RegressionOk(i == 0, e.body.regression)
         || !ValidBaseline(sha, e.body.baseline)
         || !e.body.registeredAt.Utc?
      {
        assert !EpochOk(p, sha, epochs, i);
        return false;
      }
      previous := Some(e.digest);
    }
    ok := true;
  }

  function IdsBefore(attempts: seq<Attempt>, i: nat): set<string>
    requires i <= |attempts|
  {
    set k | 0 <= k < i :: attempts[k].id
  }

  function SealedBefore(attempts: seq<Attempt>, i: nat): set<int>
    requires i <= |attempts|
  {
    set k | 0 <= k < i && attempts[k].kind == AdminAck :: attempts[k].epoch
  }

  function EpochBefore(attempts: seq<Attempt>, i: nat): int
    requires i <= |attempts|
  {
    if i == 0 then 1 else attempts[i - 1].epoch
  }

  lemma AddedBefore(attempts: seq<Attempt>, i: nat)
    requires i < |attempts|
    ensures IdsBefore(attempts, i + 1) == IdsBefore(attempts, i) + {attempts[i].id}
    ensures SealedBefore(attempts, i + 1)
         == if attempts[i].kind == AdminAck then SealedBefore(attempts, i) + {attempts[i].epoch}
            else SealedBefore(attempts, i)
  {
  }

  /** The ids and seals so far and the last epoch decide whether the next attempt
      fits all earlier ones. */
  lemma SummaryDecides(p: Profile, active: int, attempts: seq<Attempt>, i: nat)
    requires i < |attempts|
    requires i > 0 ==> AttemptOk(p, active, attempts, i - 1)
    ensures AttemptOk(p, active, attempts, i) <==>
      && AttemptShapeOk(p, active, attempts[i], i + 1)
      && attempts[i].id !in IdsBefore(attempts, i)
      && EpochBefore(attempts, i) <= attempts[i].epoch
      && attempts[i].epoch !in SealedBefore(attempts, i)
  {
  }

  /** The validator's second pass: one reading of the attempts with the ids and
      sealed epochs seen so far and the epoch of the attempt just read. */
  method ValidateAttempts(p: Profile, active: int, attempts: seq<Attempt>) returns (ok: bool)
    ensures ok == forall i | 0 <= i < |attempts| :: AttemptOk(p, active, attempts, i)
  {
    var ids: set<string>, sealedEpochs: set<int>, previousEpoch := {}, {}, 1;
    for i := 0 to |attempts|
      invariant ids == IdsBefore(attempts, i) && sealedEpochs == SealedBefore(attempts, i)
      invariant previousEpoch == EpochBefore(attempts, i)
      invariant forall k | 0 <= k < i :: AttemptOk(p, active, attempts, k)
    {
      var a := attempts[i];
      SummaryDecides(p, active, attempts, i);
      AddedBefore(attempts, i);
      if || !CanonicalUuid(a.id)
         || a.id in ids
         || a.ordinal != i + 1
         || !(1 <= a.epoch <= active)
         || a.epoch < previousEpoch
         || a.epoch in sealedEpochs
         || a.kind !in Kinds(p)
         || !a.reservedAt.Utc?
         || (a.epoch == 6 && (a.kind != S06Start || a.ordinal != TEN_MINUTE_LIMIT))
      {
        assert !AttemptOk(p, active, attempts, i);
        return false;
      }
      ids := ids + {a.id};
      previousEpoch := a.epoch;
      if a.kind == AdminAck {
        sealedEpochs := sealedEpochs + {a.epoch};
      }
    }
    ok := true;
  }

  /** The validator accepts exactly the valid ledgers. */
  method Validate(p: Profile, sha: Digest, l: Ledger) returns (ok: bool)
    ensures ok == ValidLedger(p, sha, l)
  {
    if !HeaderOk(p, l) {
      return false;
    }
    var epochsOk := ValidateEpochs(p, sha, l.epochs);
    if !epochsOk || |l.attempts| > l.maxAttempts {
      return false;
    }
    ok := ValidateAttempts(p, l.active, l.attempts);
  }
}
