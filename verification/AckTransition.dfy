/** The check of what one administrator ACK test may have changed. Snapshots hold
    rows of JSON fields; a missing field reads as null. */
module AckTransition {
  import opened Results

  datatype Value =
    | Null | Flag(flag: bool) | Number(number: int) | Text(text: string)
    | List(items: seq<Value>) | Object(fields: map<string, Value>)

  type Record = map<string, Value>

  datatype Snapshot = Snapshot(
    database: Value, activeRows: seq<Record>, redis: Value, evidenceRows: seq<Record>, configRows: seq<Record>)

  datatype Refusal =
    | EvidenceOnError | ChangedOnError | Changed | BadStatus
    | EvidenceRewritten | NotOneEvidence | ReceiptMismatch
    | ConfigRowsDiffer | NotOneDraft | BadDraftMetadata | BadContent | OtherContentChanged
    | BadCapability | NoProjection | ProjectionMismatch

  const ACK := "supports_sentence_playback_ack"
  const DIMENSIONS := [
    "provider_profile", "model_version", "protocol_profile", "adapter_version", "sdk_version", "evidence_suite_version"]
  const STABLE := ["id", "config_key", "version", "is_draft", "is_active"]

  function Get(r: Record, key: string): Value {
    if key in r then r[key] else Null
  }

  predicate HaveIds(rows: seq<Record>) {
    forall r <- rows :: "id" in r
  }

  /** The rows by id; of rows with the same id the last counts. */
  function ById(rows: seq<Record>): map<Value, Record>
    requires HaveIds(rows)
  {
    if rows == [] then map[]
    else
      var last := rows[|rows| - 1];
      assert last in rows && forall r <- rows[..|rows| - 1] :: r in rows;
      ById(rows[..|rows| - 1])[last["id"] := last]
  }

  // ---------------------------------------------------------------- projection

  function StatusOf(result: Value): Option<Value> {
    if result == Text("passed") then Some(Text("verified"))
    else if result == Text("failed") then Some(Text("failed"))
    else if result == Text("error") then Some(Text("unverified"))
    else None
  }

  predicate CanProject(e: Record) {
    && "verification_result" in e && StatusOf(e["verification_result"]).Some?
    && (forall d <- DIMENSIONS :: d in e)
    && "evidence_fingerprint" in e && "evidence_ttl_days_snapshot" in e && "verified_at" in e
    && "expires_at" in e && "evidence_report_id" in e
  }

  /** The capability after the evidence has been applied to it. */
  function Projected(capability: Record, e: Record): Option<Record> {
    if !CanProject(e) then None
    else Some(capability
      + map["verification_status" := StatusOf(e["verification_result"]).value, "enabled" := Flag(false),
            "forced_enabled" := Flag(false), "effective_scope" := Text("off")]
      + (map d | d in DIMENSIONS :: e[d])
      + map["evidence_fingerprint" := e["evidence_fingerprint"], "evidence_ttl_days" := e["evidence_ttl_days_snapshot"],
            "verified_at" := e["verified_at"], "expires_at" := e["expires_at"],
            "evidence_report_id" := e["evidence_report_id"], "last_test_result" := e["verification_result"]])
  }

  // ------------------------------------------------------- what may have changed

  predicate MatchesReceipt(e: Record, result: Record) {
    && Get(e, "evidence_report_id") == Get(result, "evidence_report_id")
    && Get(e, "evidence_run_id") == Get(result, "evidence_run_id")
    && Get(e, "capability_key") == Text(ACK)
    && Get(e, "verification_result") == Get(result, "status")
    && Get(e, "source_type") == Text("admin_capability_test")
  }

  /** The voice draft moved by one revision; its identity and flags are the same. */
  predicate DraftMoved(previous: Record, current: Record) {
    && (forall f <- STABLE :: Get(previous, f) == Get(current, f))
    && Get(current, "config_key") == Text("voice_call_config")
    && Get(current, "is_draft") == Flag(true) && Get(current, "is_active") == Flag(false)
    && Get(previous, "draft_revision").Number?
    && Get(current, "draft_revision") == Number(Get(previous, "draft_revision").number + 1)
  }

  /** The content of a draft with another ACK capability. */
  function WithAck(content: Record, ack: Record): Record
    requires Get(content, "capabilities").Object?
  {
    content["capabilities" := Object(content["capabilities"].fields[ACK := Object(ack)])]
  }

  /** The capability entry of a draft, when it is well formed. */
  function AckOf(content: Value): Option<Record> {
    if content.Object? && Get(content.fields, "capabilities").Object?
      && Get(Get(content.fields, "capabilities").fields, ACK).Object?
    then Some(Get(Get(content.fields, "capabilities").fields, ACK).fields)
    else None
  }

  /** Nothing but the ACK capability of the content changed, and that became the
      projection of the evidence. */
  predicate ContentProjected(previous: Value, current: Value, e: Record) {
    && AckOf(previous).Some?
    && Projected(AckOf(previous).value, e).Some?
    && current == Object(WithAck(previous.fields, Projected(AckOf(previous).value, e).value))
  }

  ghost predicate DraftAdvanced(previous: Record, current: Record, e: Record) {
    DraftMoved(previous, current) && ContentProjected(Get(previous, "content"), Get(current, "content"), e)
  }

  /** One evidence row more and one draft advanced by it, all other rows the same. */
  ghost predicate AckApplied(
    before: Snapshot, after: Snapshot, result: Record, newId: Value, e: Record, draft: Value, current: Record)
    requires HaveIds(before.evidenceRows) && HaveIds(after.evidenceRows) && HaveIds(before.configRows)
      && HaveIds(after.configRows)
  {
    && EvidenceAdded(ById(before.evidenceRows), ById(after.evidenceRows), result, newId, e)
    && DraftChanged(ById(before.configRows), ById(after.configRows), e, draft, current)
  }

  ghost predicate EvidenceAdded(
    before: map<Value, Record>, after: map<Value, Record>, result: Record, newId: Value, e: Record) {
    newId !in before && after == before[newId := e] && MatchesReceipt(e, result)
  }

  ghost predicate DraftChanged(
    before: map<Value, Record>, after: map<Value, Record>, e: Record, draft: Value, current: Record) {
    draft in before && after == before[draft := current] && DraftAdvanced(before[draft], current, e)
  }

  ghost predicate MayHaveChanged(before: Snapshot, after: Snapshot, mode: string, result: Record)
    requires HaveIds(before.evidenceRows) && HaveIds(after.evidenceRows) && HaveIds(before.configRows)
      && HaveIds(after.configRows)
  {
    if mode != "ack" then after == before
    else if Get(result, "status") == Text("error") then
      after == before && Get(result, "evidence_run_id") == Null && Get(result, "evidence_report_id") == Null
    else
      && (Get(result, "status") == Text("passed") || Get(result, "status") == Text("failed"))
      && after.database == before.database && after.activeRows == before.activeRows && after.redis == before.redis
      && exists newId, e, draft, current :: AckApplied(before, after, result, newId, e, draft, current)
  }

  // ------------------------------------------------------------------- the check

  /** The old entries are kept and the new keys are exactly k. */
  lemma OneNewKey<K, V>(before: map<K, V>, after: map<K, V>, k: K)
    ensures (forall i | i in before :: i in after && after[i] == before[i]) && after.Keys - before.Keys == {k}
       <==> k !in before && k in after && after == before[k := after[k]]
  {
    if (forall i | i in before :: i in after && after[i] == before[i]) && after.Keys - before.Keys == {k} {
      assert k in after.Keys - before.Keys;
      forall i ensures i in after <==> i in before || i == k {
        assert i in after.Keys - before.Keys <==> i == k;
      }
    }
  }

  lemma OneChange<K, V>(before: map<K, V>, after: map<K, V>, k: K)
    requires before.Keys == after.Keys
    ensures (set i | i in before && before[i] != after[i]) == {k}
      <==> k in before && after[k] != before[k] && after == before[k := after[k]]
  {
    var changed := set i | i in before && before[i] != after[i];
    if changed == {k} {
      assert k in changed;
      forall i | i in before && i != k ensures after[i] == before[i] { assert i !in changed; }
    }
    if k in before && after[k] != before[k] && after == before[k := after[k]] {
      assert k in changed;
      forall i | i in changed ensures i == k { }
      assert changed == {k};
    }
  }

  lemma Singleton<T>(s: set<T>)
    ensures |s| == 1 <==> exists x :: s == {x}
  {
    if |s| == 1 {
      var x :| x in s;
      assert |s - {x}| == 0;
      assert s == {x};
    }
  }

  /** Blanking the entry on both sides compares everything but the entry. */
  lemma BlankedEqual(previous: Record, current: Record, a: Record, b: Record)
    requires AckOf(Object(previous)) == Some(a) && AckOf(Object(current)) == Some(b)
    ensures var p, c := Get(previous, "capabilities").fields, Get(current, "capabilities").fields;
      previous["capabilities" := Object(p[ACK := Null])] == current["capabilities" := Object(c[ACK := Null])]
      <==> current == WithAck(previous, b)
  {
    var p, c := Get(previous, "capabilities").fields, Get(current, "capabilities").fields;
    var blankP, blankC :=
      previous["capabilities" := Object(p[ACK := Null])], current["capabilities" := Object(c[ACK := Null])];
    if blankP == blankC {
      assert blankP["capabilities"] == blankC["capabilities"];
      assert c == p[ACK := Null][ACK := Object(b)];
      assert p[ACK := Null][ACK := Object(b)] == p[ACK := Object(b)];
      assert current == blankC["capabilities" := Object(c)];
    }
    if current == WithAck(previous, b) {
      assert c == p[ACK := Object(b)] && c[ACK := Null] == p[ACK := Null];
      assert blankC == previous["capabilities" := Object(c)]["capabilities" := Object(c[ACK := Null])] == blankP;
    }
  }

  method CheckDraft(previous: Record, current: Record, e: Record) returns (refused: Option<Refusal>)
    ensures refused.None? <==> DraftAdvanced(previous, current, e)
  {
    if !DraftMoved(previous, current) {
      return Some(BadDraftMetadata);
    }
    var previousContent, currentContent := Get(previous, "content"), Get(current, "content");
    if !previousContent.Object? || !currentContent.Object? {
      return Some(BadContent);
    }
    var previousCapabilities, currentCapabilities :=
      Get(previousContent.fields, "capabilities"), Get(currentContent.fields, "capabilities");
    if !previousCapabilities.Object? || !currentCapabilities.Object? {
      return Some(BadContent);
    }
    var previousAck, currentAck := Get(previousCapabilities.fields, ACK), Get(currentCapabilities.fields, ACK);
    var blankPrevious := previousContent.fields["capabilities" := Object(previousCapabilities.fields[ACK := Null])];
    var blankCurrent := currentContent.fields["capabilities" := Object(currentCapabilities.fields[ACK := Null])];
    if blankPrevious != blankCurrent {
      DifferentRest(previousContent.fields, currentContent.fields, e);
      return Some(OtherContentChanged);
    }
    if !previousAck.Object? || !currentAck.Object? {
      return Some(BadCapability);
    }
    BlankedEqual(previousContent.fields, currentContent.fields, previousAck.fields, currentAck.fields);
    var expected := Projected(previousAck.fields, e);
    if expected.None? {
      return Some(NoProjection);
    }
    if currentAck != Object(expected.value) {
      return Some(ProjectionMismatch);
    }
    return None;
  }

  lemma DifferentRest(previous: Record, current: Record, e: Record)
    requires Get(previous, "capabilities").Object? && Get(current, "capabilities").Object?
    requires previous["capabilities" := Object(Get(previous, "capabilities").fields[ACK := Null])]
          != current["capabilities" := Object(Get(current, "capabilities").fields[ACK := Null])]
    ensures !ContentProjected(Object(previous), Object(current), e)
  {
    if ContentProjected(Object(previous), Object(current), e) {
      var ack := Projected(AckOf(Object(previous)).value, e).value;
      BlankedEqual(previous, current, AckOf(Object(previous)).value, ack);
    }
  }

  method AssertTransition(before: Snapshot, after: Snapshot, mode: string, result: Record)
    returns (refused: Option<Refusal>)
    requires HaveIds(before.evidenceRows) && HaveIds(after.evidenceRows) && HaveIds(before.configRows)
      && HaveIds(after.configRows)
    ensures refused.None? <==> MayHaveChanged(before, after, mode, result)
  {
    var status := Get(result, "status");
    if mode == "ack" && status == Text("error")
      && (Get(result, "evidence_run_id") != Null || Get(result, "evidence_report_id") != Null)
    {
      return Some(EvidenceOnError);
    }
    if mode == "ack" && status == Text("error") {
      return if before != after then Some(ChangedOnError) else None;
    }
    if mode != "ack" {
      return if before != after then Some(Changed) else None;
    }
    if status != Text("passed") && status != Text("failed") {
      return Some(BadStatus);
    }
    if before.database != after.database || before.activeRows != after.activeRows || before.redis != after.redis {
      return Some(Changed);
    }
    refused := CheckRows(before, after, result);
  }

  method CheckRows(before: Snapshot, after: Snapshot, result: Record) returns (refused: Option<Refusal>)
    requires HaveIds(before.evidenceRows) && HaveIds(after.evidenceRows) && HaveIds(before.configRows)
      && HaveIds(after.configRows)
    ensures refused.None?
      <==> exists newId, e, draft, current :: AckApplied(before, after, result, newId, e, draft, current)
  {
    var beforeEvidence, afterEvidence := ById(before.evidenceRows), ById(after.evidenceRows);
    refused := CheckEvidence(beforeEvidence, afterEvidence, result);
    if refused.Some? {
      return;
    }
    var newIds := afterEvidence.Keys - beforeEvidence.Keys;
    ghost var id, row :| EvidenceAdded(beforeEvidence, afterEvidence, result, id, row);
    assert newIds == {id};
    var newId :| newId in newIds;
    var e := afterEvidence[newId];
    assert forall i, r | EvidenceAdded(beforeEvidence, afterEvidence, result, i, r) :: i == newId && r == e by {
      forall i, r | EvidenceAdded(beforeEvidence, afterEvidence, result, i, r) ensures i == newId && r == e {
        assert i in newIds;
      }
    }
    var beforeConfigs, afterConfigs := ById(before.configRows), ById(after.configRows);
    refused := CheckConfigs(beforeConfigs, afterConfigs, e);
    if refused.None? {
      ghost var draft, current :| DraftChanged(beforeConfigs, afterConfigs, e, draft, current);
      assert AckApplied(before, after, result, newId, e, draft, current);
    }
  }

  method CheckEvidence(before: map<Value, Record>, after: map<Value, Record>, result: Record)
    returns (refused: Option<Refusal>)
    ensures refused.None? <==> exists newId, e :: EvidenceAdded(before, after, result, newId, e)
  {
    if exists i | i in before :: i !in after || after[i] != before[i] {
      return Some(EvidenceRewritten);
    }
    var newIds := after.Keys - before.Keys;
    Singleton(newIds);
    forall newId, e | EvidenceAdded(before, after, result, newId, e) ensures newIds == {newId} && e == after[newId] {
      OneNewKey(before, after, newId);
    }
    if |newIds| != 1 {
      return Some(NotOneEvidence);
    }
    var newId :| newId in newIds;
    OneNewKey(before, after, newId);
    if !MatchesReceipt(after[newId], result) {
      return Some(ReceiptMismatch);
    }
    assert EvidenceAdded(before, after, result, newId, after[newId]);
    return None;
  }

  method CheckConfigs(before: map<Value, Record>, after: map<Value, Record>, e: Record)
    returns (refused: Option<Refusal>)
    ensures refused.None? <==> exists draft, current :: DraftChanged(before, after, e, draft, current)
  {
    if before.Keys != after.Keys {
      return Some(ConfigRowsDiffer);
    }
    var changed := set i | i in before && before[i] != after[i];
    Singleton(changed);
    forall draft, current | DraftChanged(before, after, e, draft, current)
      ensures changed == {draft} && current == after[draft]
    {
      AdvancedIsChanged(before[draft], current, e);
      OneChange(before, after, draft);
    }
    if |changed| != 1 {
      return Some(NotOneDraft);
    }
    var draft :| draft in changed;
    OneChange(before, after, draft);
    refused := CheckDraft(before[draft], after[draft], e);
    assert refused.None? ==> DraftChanged(before, after, e, draft, after[draft]);
  }

  lemma AdvancedIsChanged(previous: Record, current: Record, e: Record)
    requires DraftAdvanced(previous, current, e)
    ensures previous != current
  {
  }
}
