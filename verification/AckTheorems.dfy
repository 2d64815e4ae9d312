/** What an accepted ACK test has done, row by row and field by field. */
module AckTheorems {
  import opened Results
  import opened AckTransition

  /** Of the rows with an id the last one counts. */
  lemma {:induction false} ByIdKeepsTheLast(rows: seq<Record>, i: nat)
    requires HaveIds(rows) && i < |rows| && "id" in rows[i]
    requires forall j | i < j < |rows| :: "id" in rows[j] && rows[j]["id"] != rows[i]["id"]
    ensures rows[i]["id"] in ById(rows) && ById(rows)[rows[i]["id"]] == rows[i]
  {
    var k := |rows| - 1;
    OneRowMore(rows);
    if i < k {
      assert rows[..k][i] == rows[i];
      ByIdKeepsTheLast(rows[..k], i);
    }
  }

  lemma OneRowMore(rows: seq<Record>)
    requires HaveIds(rows) && rows != []
    ensures var k := |rows| - 1;
      HaveIds(rows[..k]) && "id" in rows[k] && ById(rows) == ById(rows[..k])[rows[k]["id"] := rows[k]]
  {
    assert rows[|rows| - 1] in rows;
    assert forall r <- rows[..|rows| - 1] :: r in rows;
  }

  /** Every id is the id of some row. */
  lemma {:induction false} ByIdHasNoOther(rows: seq<Record>, id: Value) returns (i: nat)
    requires HaveIds(rows) && id in ById(rows)
    ensures i < |rows| && "id" in rows[i] && rows[i]["id"] == id
  {
    i := |rows| - 1;
    OneRowMore(rows);
    if rows[i]["id"] != id {
      i := ByIdHasNoOther(rows[..i], id);
    }
  }

  // ----------------------------------------------------------------- the after-state

  /** All rows but one are the same. */
  ghost predicate OnlyAt(before: map<Value, Record>, after: map<Value, Record>, id: Value) {
    forall k | k != id :: (k in after <==> k in before) && (k in before ==> after[k] == before[k])
  }

  ghost predicate OneAdded(before: map<Value, Record>, after: map<Value, Record>, id: Value) {
    id !in before && id in after && OnlyAt(before, after, id)
  }

  ghost predicate OneMoved(before: map<Value, Record>, after: map<Value, Record>, id: Value) {
    id in before && id in after && OnlyAt(before, after, id)
  }

  /** Two objects agree but for the named fields. */
  ghost predicate SameOutside(a: Record, b: Record, names: set<string>) {
    forall k | k !in names :: (k in a <==> k in b) && (k in a ==> a[k] == b[k])
  }

  /** The new evidence row is of an ACK test and names the receipt's report, run and
      status. */
  predicate EvidenceFits(e: Record, result: Record) {
    && Get(e, "evidence_report_id") == Get(result, "evidence_report_id")
    && Get(e, "evidence_run_id") == Get(result, "evidence_run_id")
    && Get(e, "verification_result") == Get(result, "status")
    && Get(e, "capability_key") == Text("supports_sentence_playback_ack")
    && Get(e, "source_type") == Text("admin_capability_test")
  }

  predicate Copied(e: Record, from: string, current: Record, to: string) {
    from in e && to in current && current[to] == e[from]
  }

  predicate SetTo(current: Record, name: string, value: Value) {
    name in current && current[name] == value
  }

  const TOUCHED := {
    "verification_status", "enabled", "forced_enabled", "effective_scope", "provider_profile", "model_version",
    "protocol_profile", "adapter_version", "sdk_version", "evidence_suite_version", "evidence_fingerprint",
    "evidence_ttl_days", "verified_at", "expires_at", "evidence_report_id", "last_test_result"}

  /** Verified for a passed receipt and failed for a failed one, and switched off. */
  predicate OutcomeFits(current: Record, status: Value) {
    && SetTo(current, "verification_status", Text(if status == Text("passed") then "verified" else "failed"))
    && SetTo(current, "enabled", Flag(false)) && SetTo(current, "forced_enabled", Flag(false))
    && SetTo(current, "effective_scope", Text("off"))
  }

  predicate DimensionsFit(current: Record, e: Record) {
    && Copied(e, "provider_profile", current, "provider_profile")
    && Copied(e, "model_version", current, "model_version")
    && Copied(e, "protocol_profile", current, "protocol_profile")
    && Copied(e, "adapter_version", current, "adapter_version")
    && Copied(e, "sdk_version", current, "sdk_version")
    && Copied(e, "evidence_suite_version", current, "evidence_suite_version")
  }

  predicate ReportFits(current: Record, e: Record) {
    && Copied(e, "evidence_fingerprint", current, "evidence_fingerprint")
    && Copied(e, "evidence_ttl_days_snapshot", current, "evidence_ttl_days")
    && Copied(e, "verified_at", current, "verified_at") && Copied(e, "expires_at", current, "expires_at")
    && Copied(e, "evidence_report_id", current, "evidence_report_id")
    && Copied(e, "verification_result", current, "last_test_result")
  }

  /** The capability after the test: verified for a passed receipt and failed for a
      failed one, switched off, bound to the evidence, and otherwise as it was. */
  ghost predicate CapabilityFits(previous: Record, current: Record, e: Record, status: Value) {
    && OutcomeFits(current, status) && DimensionsFit(current, e) && ReportFits(current, e)
    && SameOutside(previous, current, TOUCHED)
  }

  predicate SameField(previous: Record, current: Record, name: string) {
    Get(previous, name) == Get(current, name)
  }

  /** The moved row is the voice draft, one revision later. */
  predicate IdentityFits(previous: Record, current: Record) {
    && SameField(previous, current, "id") && SameField(previous, current, "config_key")
    && SameField(previous, current, "version") && SameField(previous, current, "is_draft")
    && SameField(previous, current, "is_active")
    && Get(current, "config_key") == Text("voice_call_config")
    && Get(current, "is_draft") == Flag(true) && Get(current, "is_active") == Flag(false)
    && Get(previous, "draft_revision").Number? && Get(current, "draft_revision").Number?
    && Get(current, "draft_revision").number == Get(previous, "draft_revision").number + 1
  }

  /** Of the draft's content only the ACK capability has changed. */
  ghost predicate ContentFits(previous: Value, current: Value, e: Record, status: Value) {
    && previous.Object? && current.Object?
    && SameOutside(previous.fields, current.fields, {"capabilities"})
    && var p, c := Get(previous.fields, "capabilities"), Get(current.fields, "capabilities");
    && p.Object? && c.Object?
    && SameOutside(p.fields, c.fields, {"supports_sentence_playback_ack"})
    && var a, b := Get(p.fields, "supports_sentence_playback_ack"), Get(c.fields, "supports_sentence_playback_ack");
    && a.Object? && b.Object?
    && CapabilityFits(a.fields, b.fields, e, status)
  }

  ghost predicate DraftFits(previous: Record, current: Record, e: Record, status: Value) {
    && IdentityFits(previous, current)
    && ContentFits(Get(previous, "content"), Get(current, "content"), e, status)
  }

  /** One evidence row more, which fits the receipt, and one draft moved by it. */
  ghost predicate AckDone(
    before: Snapshot, after: Snapshot, result: Record, newId: Value, e: Record, draft: Value, current: Record)
    requires HaveIds(before.evidenceRows) && HaveIds(after.evidenceRows)
    requires HaveIds(before.configRows) && HaveIds(after.configRows)
  {
    && OneAdded(ById(before.evidenceRows), ById(after.evidenceRows), newId)
    && ById(after.evidenceRows)[newId] == e && EvidenceFits(e, result)
    && OneMoved(ById(before.configRows), ById(after.configRows), draft)
    && ById(after.configRows)[draft] == current
    && DraftFits(ById(before.configRows)[draft], current, e, Get(result, "status"))
  }

  // ------------------------------------------------------------------------ proofs

  function Outcome(status: Value): Record
    requires StatusOf(status).Some?
  {
    map["verification_status" := StatusOf(status).value, "enabled" := Flag(false),
        "forced_enabled" := Flag(false), "effective_scope" := Text("off")]
  }

  function Dimensions(e: Record): Record
    requires CanProject(e)
  {
    map d | d in DIMENSIONS :: e[d]
  }

  function Report(e: Record): Record
    requires CanProject(e)
  {
    map["evidence_fingerprint" := e["evidence_fingerprint"], "evidence_ttl_days" := e["evidence_ttl_days_snapshot"],
        "verified_at" := e["verified_at"], "expires_at" := e["expires_at"],
        "evidence_report_id" := e["evidence_report_id"], "last_test_result" := e["verification_result"]]
  }

  const FLAGS := {"verification_status", "enabled", "forced_enabled", "effective_scope"}
  const REPORT := {
    "evidence_fingerprint", "evidence_ttl_days", "verified_at", "expires_at", "evidence_report_id", "last_test_result"}

  function Names(): set<string> {
    set d | d in DIMENSIONS
  }

  lemma LayersApart()
    ensures Names() !! REPORT && FLAGS !! Names() && FLAGS !! REPORT
    ensures TOUCHED == FLAGS + Names() + REPORT
  {
  }

  lemma Layers(previous: Record, e: Record, status: Value, made: Record)
    requires CanProject(e) && e["verification_result"] == status
    requires made == previous + Outcome(status) + Dimensions(e) + Report(e)
    ensures Projected(previous, e) == Some(made)
    ensures SameOutside(Outcome(status), made, Names() + REPORT + (previous.Keys - FLAGS))
    ensures SameOutside(Dimensions(e), made, REPORT + FLAGS + (previous.Keys - Names()))
    ensures forall k <- REPORT :: k in made && made[k] == Report(e)[k]
    ensures SameOutside(previous, made, TOUCHED)
  {
    LayersApart();
    assert Outcome(status).Keys == FLAGS && Dimensions(e).Keys == Names() && Report(e).Keys == REPORT;
  }

  lemma OutcomeOfLayers(previous: Record, status: Value, made: Record)
    requires status == Text("passed") || status == Text("failed")
    requires SameOutside(Outcome(status), made, Names() + REPORT + (previous.Keys - FLAGS))
    ensures OutcomeFits(made, status)
  {
    LayersApart();
    assert FLAGS !! Names() + REPORT + (previous.Keys - FLAGS);
    var o := Outcome(status);
    assert forall k <- FLAGS :: k in o && k in made && made[k] == o[k];
    assert "verification_status" in FLAGS && "enabled" in FLAGS && "forced_enabled" in FLAGS
      && "effective_scope" in FLAGS;
  }

  lemma DimensionsOfLayers(previous: Record, e: Record, made: Record)
    requires CanProject(e) && SameOutside(Dimensions(e), made, REPORT + FLAGS + (previous.Keys - Names()))
    ensures DimensionsFit(made, e)
  {
    LayersApart();
    assert Names() !! REPORT + FLAGS + (previous.Keys - Names());
    assert forall d <- DIMENSIONS :: d in Names() && d in made && made[d] == e[d];
    assert DIMENSIONS[0] in DIMENSIONS && DIMENSIONS[1] in DIMENSIONS && DIMENSIONS[2] in DIMENSIONS;
    assert DIMENSIONS[3] in DIMENSIONS && DIMENSIONS[4] in DIMENSIONS && DIMENSIONS[5] in DIMENSIONS;
  }

  lemma ReportOfLayers(e: Record, made: Record)
    requires CanProject(e) && forall k <- REPORT :: k in made && made[k] == Report(e)[k]
    ensures ReportFits(made, e)
  {
    assert "evidence_fingerprint" in REPORT && "evidence_ttl_days" in REPORT && "verified_at" in REPORT;
    assert "expires_at" in REPORT && "evidence_report_id" in REPORT && "last_test_result" in REPORT;
  }

  /** The projection of evidence with the receipt's status fits. */
  lemma ProjectedFits(previous: Record, e: Record, status: Value)
    requires CanProject(e) && e["verification_result"] == status
    requires status == Text("passed") || status == Text("failed")
    ensures Projected(previous, e).Some? && CapabilityFits(previous, Projected(previous, e).value, e, status)
  {
    var made := previous + Outcome(status) + Dimensions(e) + Report(e);
    Layers(previous, e, status, made);
    OutcomeOfLayers(previous, status, made);
    DimensionsOfLayers(previous, e, made);
    ReportOfLayers(e, made);
  }

  lemma FitsOnlyOne(previous: Record, a: Record, b: Record, e: Record, status: Value)
    requires CapabilityFits(previous, a, e, status) && CapabilityFits(previous, b, e, status)
    ensures a == b
  {
    forall k ensures (k in a <==> k in b) && (k in a ==> a[k] == b[k]) {
      if k in TOUCHED {
        assert k in a && k in b;
      }
    }
  }

  /** Evidence that fits some capability can be projected. */
  lemma FittingCanBeProjected(previous: Record, current: Record, e: Record, status: Value)
    requires CapabilityFits(previous, current, e, status) && Get(e, "verification_result") == status
    requires status == Text("passed") || status == Text("failed")
    ensures CanProject(e) && e["verification_result"] == status
  {
    forall d | d in DIMENSIONS ensures d in e {
      assert d in {"provider_profile", "model_version", "protocol_profile", "adapter_version", "sdk_version",
                   "evidence_suite_version"};
    }
  }

  lemma ProjectedExactlyWhenFits(previous: Record, current: Record, e: Record, status: Value)
    requires Get(e, "verification_result") == status && (status == Text("passed") || status == Text("failed"))
    ensures Projected(previous, e) == Some(current) <==> CapabilityFits(previous, current, e, status)
  {
    if Projected(previous, e) == Some(current) {
      ProjectedFits(previous, e, status);
    }
    if CapabilityFits(previous, current, e, status) {
      FittingCanBeProjected(previous, current, e, status);
      ProjectedFits(previous, e, status);
      FitsOnlyOne(previous, current, Projected(previous, e).value, e, status);
    }
  }

  // -------------------------------------------------------------------- the content

  lemma OneEntryChanged(a: Record, b: Record, name: string)
    requires name in a && name in b
    ensures SameOutside(a, b, {name}) <==> b == a[name := b[name]]
  {
  }

  lemma ContentProjectedFits(previous: Value, current: Value, e: Record, status: Value)
    requires Get(e, "verification_result") == status && (status == Text("passed") || status == Text("failed"))
    ensures ContentProjected(previous, current, e) ==> ContentFits(previous, current, e, status)
  {
    if ContentProjected(previous, current, e) {
      var ack := AckOf(previous).value;
      var made := Projected(ack, e).value;
      ProjectedExactlyWhenFits(ack, made, e, status);
      var p := previous.fields["capabilities"].fields;
      var c := p[ACK := Object(made)];
      assert current.fields == previous.fields["capabilities" := Object(c)];
      OneEntryChanged(previous.fields, current.fields, "capabilities");
      OneEntryChanged(p, c, ACK);
    }
  }

  lemma FittingContentIsProjected(previous: Value, current: Value, e: Record, status: Value)
    requires Get(e, "verification_result") == status && (status == Text("passed") || status == Text("failed"))
    requires ContentFits(previous, current, e, status)
    ensures ContentProjected(previous, current, e)
  {
    var p, c := previous.fields["capabilities"].fields, current.fields["capabilities"].fields;
    OneEntryChanged(previous.fields, current.fields, "capabilities");
    OneEntryChanged(p, c, ACK);
    ProjectedExactlyWhenFits(p[ACK].fields, c[ACK].fields, e, status);
  }

  lemma MovedFits(previous: Record, current: Record)
    ensures DraftMoved(previous, current) <==> IdentityFits(previous, current)
  {
    assert STABLE[0] in STABLE && STABLE[1] in STABLE && STABLE[2] in STABLE;
    assert STABLE[3] in STABLE && STABLE[4] in STABLE;
  }

  lemma AdvancedFits(previous: Record, current: Record, e: Record, status: Value)
    requires Get(e, "verification_result") == status && (status == Text("passed") || status == Text("failed"))
    ensures DraftAdvanced(previous, current, e)
       <==> IdentityFits(previous, current) && ContentFits(Get(previous, "content"), Get(current, "content"), e, status)
  {
    MovedFits(previous, current);
    ContentProjectedFits(Get(previous, "content"), Get(current, "content"), e, status);
    if ContentFits(Get(previous, "content"), Get(current, "content"), e, status) {
      FittingContentIsProjected(Get(previous, "content"), Get(current, "content"), e, status);
    }
  }

  // ------------------------------------------------------------------------ the rows

  /** An update of a map, entry by entry. */
  lemma OneUpdated(before: map<Value, Record>, after: map<Value, Record>, id: Value, row: Record)
    ensures after == before[id := row]
       <==> OnlyAt(before, after, id) && id in after && after[id] == row
  {
    if OnlyAt(before, after, id) && id in after && after[id] == row {
      assert after == before[id := row];
    }
  }

  lemma ReceiptFits(e: Record, result: Record)
    ensures MatchesReceipt(e, result) <==> EvidenceFits(e, result)
  {
  }

  lemma OneRowAdded(before: map<Value, Record>, after: map<Value, Record>, result: Record, id: Value, e: Record)
    ensures EvidenceAdded(before, after, result, id, e)
       <==> OneAdded(before, after, id) && after[id] == e && EvidenceFits(e, result)
  {
    ReceiptFits(e, result);
    OneUpdated(before, after, id, e);
  }

  lemma ChangedIsMoved(
    before: map<Value, Record>, after: map<Value, Record>, e: Record, status: Value, draft: Value, current: Record)
    requires Get(e, "verification_result") == status && (status == Text("passed") || status == Text("failed"))
    requires DraftChanged(before, after, e, draft, current)
    ensures OneMoved(before, after, draft) && after[draft] == current && DraftFits(before[draft], current, e, status)
  {
    AdvancedFits(before[draft], current, e, status);
    OneUpdated(before, after, draft, current);
  }

  lemma MovedIsChanged(
    before: map<Value, Record>, after: map<Value, Record>, e: Record, status: Value, draft: Value, current: Record)
    requires Get(e, "verification_result") == status && (status == Text("passed") || status == Text("failed"))
    requires OneMoved(before, after, draft) && after[draft] == current && DraftFits(before[draft], current, e, status)
    ensures DraftChanged(before, after, e, draft, current)
  {
    assert DraftAdvanced(before[draft], current, e) by { AdvancedFits(before[draft], current, e, status); }
    OneUpdated(before, after, draft, current);
  }

  lemma AppliedIsDone(
    before: Snapshot, after: Snapshot, result: Record, newId: Value, e: Record, draft: Value, current: Record)
    requires HaveIds(before.evidenceRows) && HaveIds(after.evidenceRows)
    requires HaveIds(before.configRows) && HaveIds(after.configRows)
    requires Get(result, "status") == Text("passed") || Get(result, "status") == Text("failed")
    requires AckApplied(before, after, result, newId, e, draft, current)
    ensures AckDone(before, after, result, newId, e, draft, current)
  {
    OneRowAdded(ById(before.evidenceRows), ById(after.evidenceRows), result, newId, e);
    ChangedIsMoved(ById(before.configRows), ById(after.configRows), e, Get(result, "status"), draft, current);
  }

  lemma DoneIsApplied(
    before: Snapshot, after: Snapshot, result: Record, newId: Value, e: Record, draft: Value, current: Record)
    requires HaveIds(before.evidenceRows) && HaveIds(after.evidenceRows)
    requires HaveIds(before.configRows) && HaveIds(after.configRows)
    requires Get(result, "status") == Text("passed") || Get(result, "status") == Text("failed")
    requires AckDone(before, after, result, newId, e, draft, current)
    ensures AckApplied(before, after, result, newId, e, draft, current)
  {
    OneRowAdded(ById(before.evidenceRows), ById(after.evidenceRows), result, newId, e);
    MovedIsChanged(ById(before.configRows), ById(after.configRows), e, Get(result, "status"), draft, current);
  }

  /** A passed or failed ACK test is accepted exactly when database, active rows and
      cache are as they were, one evidence row was added that fits the receipt, and of
      the other rows only the voice draft moved: by one revision, and in its content
      only in the ACK capability, which now says what the evidence says. */
  lemma AckIsAcceptedExactlyWhen(before: Snapshot, after: Snapshot, result: Record)
    requires HaveIds(before.evidenceRows) && HaveIds(after.evidenceRows)
    requires HaveIds(before.configRows) && HaveIds(after.configRows)
    requires Get(result, "status") == Text("passed") || Get(result, "status") == Text("failed")
    ensures MayHaveChanged(before, after, "ack", result) <==>
      && after.database == before.database && after.activeRows == before.activeRows && after.redis == before.redis
      && exists newId, e, draft, current :: AckDone(before, after, result, newId, e, draft, current)
  {
    forall newId, e, draft, current
      ensures AckApplied(before, after, result, newId, e, draft, current)
         <==> AckDone(before, after, result, newId, e, draft, current)
    {
      AppliedExactlyWhenDone(before, after, result, newId, e, draft, current);
    }
  }

  lemma AppliedExactlyWhenDone(
    before: Snapshot, after: Snapshot, result: Record, newId: Value, e: Record, draft: Value, current: Record)
    requires HaveIds(before.evidenceRows) && HaveIds(after.evidenceRows)
    requires HaveIds(before.configRows) && HaveIds(after.configRows)
    requires Get(result, "status") == Text("passed") || Get(result, "status") == Text("failed")
    ensures AckApplied(before, after, result, newId, e, draft, current)
       <==> AckDone(before, after, result, newId, e, draft, current)
  {
    if AckApplied(before, after, result, newId, e, draft, current) {
      AppliedIsDone(before, after, result, newId, e, draft, current);
    } else if AckDone(before, after, result, newId, e, draft, current) {
      DoneIsApplied(before, after, result, newId, e, draft, current);
    }
  }
}
