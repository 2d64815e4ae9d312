/** Which campaigns can still get to the ten-minute epoch, the sixth and last. */
module CampaignReach {
  import opened Results
  import opened CampaignLedger
  import opened CampaignSteps
  import opened CampaignRuns

  predicate AtTenMinutes(d: Directory) {
    d.file.Document? && d.file.ledger.active == 6
  }

  ghost predicate NoTenMinuteStart(l: Ledger) {
    forall i | 0 <= i < |l.attempts| :: l.attempts[i].kind != S06Start
  }

  /** The campaign is in the ten-minute epoch; or it has no attempt of that kind yet
      and has made fifteen attempts, or fewer and can make more: in an epoch before
      the fifth, or in the fifth and no acknowledgement has sealed it. */
  ghost predicate StillOpen(d: Directory) {
    match d.file
    case Absent => true
    case Malformed => false
    case Document(l) =>
      && Home(l) == Default
      && (|| l.active == 6
          || (NoTenMinuteStart(l) && |l.attempts| == 15)
          || (NoTenMinuteStart(l) && |l.attempts| < 15 && !(l.active == 5 && Sealed(l, 5))))
  }

  /** Some continuation of the run leads to `d`. */
  ghost predicate Leads(sha: Digest, calls: seq<Call>, d: Directory) {
    exists more :: Run(sha, calls + more) == d
  }

  lemma RunThen(sha: Digest, calls: seq<Call>, call: Call)
    ensures Run(sha, calls + [call]) == Step(sha, Run(sha, calls), call)
  {
    assert (calls + [call])[..|calls|] == calls;
  }

  lemma LeadsToItself(sha: Digest, calls: seq<Call>)
    ensures Leads(sha, calls, Run(sha, calls))
  {
    assert calls + [] == calls;
  }

  lemma LeadsOn(sha: Digest, calls: seq<Call>, d: Directory, call: Call)
    requires Leads(sha, calls, d)
    ensures Leads(sha, calls, Step(sha, d, call))
  {
    var more :| Run(sha, calls + more) == d;
    RunThen(sha, calls + more, call);
    assert calls + more + [call] == calls + (more + [call]);
  }

  lemma LeadsKeepsInvariant(sha: Digest, calls: seq<Call>, d: Directory)
    requires HexDigest(sha) && Leads(sha, calls, d)
    ensures Inv(sha, d)
  {
    var more :| Run(sha, calls + more) == d;
    RunKeepsInvariant(sha, calls + more);
  }

  // ------------------------------------------------------- closed stays closed

  lemma {:induction false} ClosedStaysClosed(sha: Digest, calls: seq<Call>, more: seq<Call>)
    requires HexDigest(sha) && !StillOpen(Run(sha, calls))
    ensures !StillOpen(Run(sha, calls + more))
    decreases |more|
  {
    if more == [] {
      assert calls + more == calls;
    } else {
      NextStaysClosed(sha, calls, more[0]);
      ClosedStaysClosed(sha, calls + [more[0]], more[1..]);
      assert calls + [more[0]] + more[1..] == calls + more;
    }
  }

  lemma NextStaysClosed(sha: Digest, calls: seq<Call>, call: Call)
    requires HexDigest(sha) && !StillOpen(Run(sha, calls))
    ensures !StillOpen(Run(sha, calls + [call]))
  {
    RunKeepsInvariant(sha, calls);
    StepStaysClosed(sha, Run(sha, calls), call);
    RunThen(sha, calls, call);
  }

  lemma StepStaysClosed(sha: Digest, d: Directory, call: Call)
    requires HexDigest(sha) && Inv(sha, d) && !StillOpen(d)
    ensures !StillOpen(Step(sha, d, call))
  {
    if Step(sha, d, call) != d {
      StepKeepsFamily(sha, d, call);
      match call
      case Reserving(c, fate) => ReserveStaysClosed(sha, d, c, fate);
      case Advancing(c, fate) => AdvanceStaysClosed(sha, d, c, fate);
    }
  }

  lemma StepKeepsFamily(sha: Digest, d: Directory, call: Call)
    requires HexDigest(sha) && Inv(sha, d) && d.file.Document? && Step(sha, d, call) != d
    ensures Step(sha, d, call).file.Document?
    ensures Home(Step(sha, d, call).file.ledger) == Home(d.file.ledger)
  {
    var p := if call.Reserving? then call.reserve.profile else call.advance.profile;
    var after := Step(sha, d, call).file.ledger;
    if call.Reserving? {
      ReserveOutcome(sha, call.reserve, d, call.fate);
    }
    assert ValidLedger(p, sha, after);
    FamilyCovers(p, sha, after);
    if Home(d.file.ledger) != Family(p) {
      OtherFamilyIsRefused(sha, d, call);
    }
  }

  lemma ReserveStaysClosed(sha: Digest, d: Directory, c: ReserveCall, fate: Fate)
    requires HexDigest(sha) && Inv(sha, d) && d.file.Document? && !StillOpen(d)
    requires ReserveStep(sha, c, d, fate).0 != d
    requires ReserveStep(sha, c, d, fate).0.file.Document?
    requires Home(ReserveStep(sha, c, d, fate).0.file.ledger) == Home(d.file.ledger)
    ensures !StillOpen(ReserveStep(sha, c, d, fate).0)
  {
    ReserveOutcome(sha, c, d, fate);
    var l, n := d.file.ledger, |d.file.ledger.attempts|;
    var after := WithAttempt(l, NextAttempt(c, l));
    assert AttemptOk(c.profile, after.active, after.attempts, n);
    assert forall i | 0 <= i < n :: after.attempts[i] == l.attempts[i];
  }

  lemma AdvanceStaysClosed(sha: Digest, d: Directory, c: AdvanceCall, fate: Fate)
    requires HexDigest(sha) && Inv(sha, d) && d.file.Document? && !StillOpen(d)
    requires AdvanceStep(sha, c, d, fate).0 != d
    requires AdvanceStep(sha, c, d, fate).0.file.Document?
    requires Home(AdvanceStep(sha, c, d, fate).0.file.ledger) == Home(d.file.ledger)
    ensures !StillOpen(AdvanceStep(sha, c, d, fate).0)
  {
    OpenLeavesABatch(sha, c, d.file);
  }

  // ----------------------------------------------------- the calls that go there

  function Repeat(c: char, n: nat): string { seq(n, _ => c) }

  /** A hash other than `s`. */
  function OtherHash(s: string): (r: string)
    ensures ValidHash(r) && r != s
  {
    if s == Repeat('0', 64) then assert Repeat('1', 64)[0] != s[0]; Repeat('1', 64) else Repeat('0', 64)
  }

  /** Sixteen UUIDs, and one of them is left while at most fifteen are used. */
  function Uuid(k: nat): (r: string)
    requires k < 16
    ensures CanonicalUuid(r) && r[0] == "0123456789abcdef"[k]
  {
    seq(36, i requires 0 <= i => if i in {8, 13, 18, 23} then '-' else "0123456789abcdef"[k])
  }

  lemma {:induction false} SomeUuidIsLeft(ids: set<string>, n: nat) returns (k: nat)
    requires |ids| < n <= 16
    ensures k < n && Uuid(k) !in ids
  {
    k := n - 1;
    if Uuid(n - 1) in ids {
      k := SomeUuidIsLeft(ids - {Uuid(n - 1)}, n - 1);
    }
  }

  lemma {:induction false} FewIds(attempts: seq<Attempt>, i: nat)
    requires i <= |attempts|
    ensures |IdsBefore(attempts, i)| <= i
  {
    if i == 0 {
      assert IdsBefore(attempts, 0) == {};
    } else {
      FewIds(attempts, i - 1);
      AddedBefore(attempts, i - 1);
    }
  }

  /** An attempt of `kind` under the active epoch's own campaign, hashes and baseline. */
  function ReserveHere(l: Ledger, kind: Kind, id: string): ReserveCall
    requires l.epochs != []
  {
    var e := l.epochs[|l.epochs| - 1].body;
    ReserveCall(Default, None, Frozen(l.campaign, e.matrix, e.runtime), e.baseline, kind, true, Aware(0), Aware(0), id)
  }

  lemma ReserveHereOpens(sha: Digest, l: Ledger, kind: Kind, id: string)
    requires ValidLedger(Default, sha, l) && |l.attempts| < l.maxAttempts
    requires kind in Kinds(Default) && (l.active == 6 ==> kind == S06Start)
    ensures ReserveOpen(sha, ReserveHere(l, kind, id), Document(l)) == Ok(l)
  {
    assert EpochOk(Default, sha, l.epochs, |l.epochs| - 1);
  }

  lemma FreshId(attempts: seq<Attempt>) returns (id: string)
    requires |attempts| <= 15
    ensures CanonicalUuid(id) && forall i | 0 <= i < |attempts| :: attempts[i].id != id
  {
    FewIds(attempts, |attempts|);
    var k := SomeUuidIsLeft(IdsBefore(attempts, |attempts|), 16);
    id := Uuid(k);
    assert forall i | 0 <= i < |attempts| :: attempts[i].id in IdsBefore(attempts, |attempts|);
  }

  /** While the budget lasts and the epoch is not sealed an attempt can be reserved. */
  lemma CanReserve(sha: Digest, l: Ledger, d: Directory, kind: Kind) returns (call: Call, id: string)
    requires HexDigest(sha) && Inv(sha, d) && d.file == Document(l) && Home(l) == Default
    requires |l.attempts| <= 15 && |l.attempts| < l.maxAttempts && !Sealed(l, l.active)
    requires kind in Kinds(Default) && (l.active == 6 ==> kind == S06Start)
    ensures Step(sha, d, call).file == Document(WithAttempt(l, Attempt(id, |l.attempts| + 1, l.active, kind, Utc(0))))
  {
    id := FreshId(l.attempts);
    var c := ReserveHere(l, kind, id);
    ReserveHereOpens(sha, l, kind, id);
    assert !UsedId(l, id);
    GuardedReserveFailsExactlyWhen(sha, c, d);
    assert ReserveStep(sha, c, d, Completes).1 != Err(WouldBeInvalid);
    call := Reserving(c, Completes);
  }

  /** The approval of the epoch after the active one. */
  function Approval(sha: Digest, l: Ledger): Proof {
    Proof(true, true, Some("s06_ten_minute_only"), Some(sha(OfLedger(l))),
          Some(LimitForEpoch(Default, l.active + 1)), None,
          if l.active < 3 then None else Some(l.active + 1), Some(10))
  }

  /** The next epoch under the same baseline and another matrix. */
  function AdvanceHere(sha: Digest, l: Ledger): AdvanceCall
    requires l.epochs != []
  {
    var e := l.epochs[|l.epochs| - 1].body;
    AdvanceCall(Default, None, Frozen(l.campaign, OtherHash(e.matrix), e.runtime), e.baseline, true,
                File("evidence.json", "", Some(Approval(sha, l))), l.active >= 2, Aware(0))
  }

  lemma AdvanceHereOpens(sha: Digest, l: Ledger)
    requires HexDigest(sha) && ValidLedger(Default, sha, l) && l.active < 6 && l.attempts != []
    requires l.active == 5 ==> |l.attempts| == 15 && NoTenMinuteStart(l)
    ensures AdvanceOpen(sha, AdvanceHere(sha, l), Document(l)) == Ok(l)
  {
    assert EpochOk(Default, sha, l.epochs, |l.epochs| - 1);
  }

  /** After an attempt every epoch before the sixth can be followed by another, the
      fifth if its campaign is ready for the ten minutes. */
  lemma CanAdvance(sha: Digest, l: Ledger, d: Directory) returns (call: Call, after: Ledger)
    requires HexDigest(sha) && Inv(sha, d) && d.file == Document(l) && Home(l) == Default
    requires l.active < 6 && l.attempts != []
    requires l.active == 5 ==> |l.attempts| == 15 && NoTenMinuteStart(l)
    ensures Step(sha, d, call).file == Document(after)
    ensures after.active == l.active + 1 && after.attempts == l.attempts
    ensures after.maxAttempts == LimitForEpoch(Default, after.active)
  {
    var c := AdvanceHere(sha, l);
    AdvanceHereOpens(sha, l);
    GuardedAdvanceIsValid(sha, c, d);
    call := Advancing(c, Completes);
    after := WithEpoch(sha, c, l);
  }

  /** No attempt seals an epoch to come, nor the sixth. */
  lemma Unsealed(p: Profile, sha: Digest, l: Ledger, epoch: int)
    requires ValidLedger(p, sha, l) && (epoch > l.active || epoch == 6)
    ensures !Sealed(l, epoch)
  {
    forall i | 0 <= i < |l.attempts| ensures !(l.attempts[i].kind == AdminAck && l.attempts[i].epoch == epoch) {
      assert AttemptOk(p, l.active, l.attempts, i);
    }
  }

  /** A ledger that more attempts and epochs can bring to the ten minutes. */
  ghost predicate CanFill(l: Ledger) {
    && Home(l) == Default && l.active < 6 && NoTenMinuteStart(l) && |l.attempts| <= 15
    && (|l.attempts| < 15 ==> !Sealed(l, l.active))
  }

  ghost predicate Filled(l: Ledger, active: int) {
    Home(l) == Default && l.active == active && NoTenMinuteStart(l) && |l.attempts| == 15
  }

  /** An attempt that is no acknowledgement seals nothing. */
  lemma AttemptSealsNothing(l: Ledger, a: Attempt)
    requires CanFill(l) && |l.attempts| < 15 && a.kind == S01Start
    ensures CanFill(WithAttempt(l, a))
  {
    var after := WithAttempt(l, a);
    assert forall i | 0 <= i < |l.attempts| :: after.attempts[i] == l.attempts[i];
  }

  /** Attempts up to the fifteenth. */
  lemma {:induction false} Fill(sha: Digest, calls: seq<Call>, l: Ledger, d: Directory)
    returns (full: Ledger, later: Directory)
    requires HexDigest(sha) && Leads(sha, calls, d) && d.file == Document(l) && CanFill(l)
    ensures Leads(sha, calls, later) && later.file == Document(full) && Filled(full, l.active)
    decreases 15 - |l.attempts|
  {
    full, later := l, d;
    if |l.attempts| < 15 {
      full, later := FillOne(sha, calls, l, d);
      full, later := Fill(sha, calls, full, later);
    }
  }

  lemma FillOne(sha: Digest, calls: seq<Call>, l: Ledger, d: Directory) returns (after: Ledger, later: Directory)
    requires HexDigest(sha) && Leads(sha, calls, d) && d.file == Document(l) && CanFill(l) && |l.attempts| < 15
    ensures Leads(sha, calls, later) && later.file == Document(after) && CanFill(after)
    ensures after.active == l.active && |after.attempts| == |l.attempts| + 1
  {
    LeadsKeepsInvariant(sha, calls, d);
    BudgetIsFifteen(sha, l);
    var call, id := CanReserve(sha, l, d, S01Start);
    LeadsOn(sha, calls, d, call);
    var a := Attempt(id, |l.attempts| + 1, l.active, S01Start, Utc(0));
    AttemptSealsNothing(l, a);
    after, later := WithAttempt(l, a), Step(sha, d, call);
  }

  lemma BudgetIsFifteen(sha: Digest, l: Ledger)
    requires ValidLedger(Default, sha, l)
    ensures l.maxAttempts >= 15
  {
  }

  lemma ClimbOne(sha: Digest, calls: seq<Call>, l: Ledger, d: Directory) returns (call: Call, after: Ledger)
    requires HexDigest(sha) && Leads(sha, calls, d) && d.file == Document(l) && Filled(l, l.active) && l.active < 6
    ensures Leads(sha, calls, Step(sha, d, call)) && Step(sha, d, call).file == Document(after)
    ensures Filled(after, l.active + 1) && after.maxAttempts == LimitForEpoch(Default, after.active)
  {
    LeadsKeepsInvariant(sha, calls, d);
    call, after := CanAdvance(sha, l, d);
    LeadsOn(sha, calls, d, call);
  }

  lemma {:induction false} Climb(sha: Digest, calls: seq<Call>, l: Ledger, d: Directory)
    returns (top: Ledger, later: Directory)
    requires HexDigest(sha) && Leads(sha, calls, d) && d.file == Document(l) && Filled(l, l.active) && l.active <= 5
    ensures Leads(sha, calls, later) && later.file == Document(top) && Filled(top, 5)
    decreases 5 - l.active
  {
    top, later := l, d;
    if l.active < 5 {
      var call, after := ClimbOne(sha, calls, l, d);
      top, later := Climb(sha, calls, after, Step(sha, d, call));
    }
  }

  const DIMENSIONS := Dimensions("a", "a", "a", "a", "a", "a")

  /** A first call for a campaign. */
  function FirstCall(sha: Digest): ReserveCall {
    var zeros := Repeat('0', 64);
    var b := Baseline(BASELINE_SCHEMA, zeros, zeros, DIMENSIONS, sha(OfDimensions(DIMENSIONS)));
    ReserveCall(Default, None, Frozen("c", zeros, zeros), b, S01Start, true, Aware(0), Aware(0), Uuid(0))
  }

  lemma FirstCallOpens(sha: Digest)
    requires HexDigest(sha)
    ensures ReserveOpen(sha, FirstCall(sha), Absent) == Ok(FirstLedger(sha, FirstCall(sha)))
  {
    assert ValidHash(Repeat('0', 64)) && ValidHash(sha(OfDimensions(DIMENSIONS)));
  }

  lemma FirstAttempt(sha: Digest, calls: seq<Call>, d: Directory) returns (l: Ledger, later: Directory)
    requires HexDigest(sha) && Leads(sha, calls, d) && d.file.Absent?
    ensures Leads(sha, calls, later) && later.file == Document(l) && CanFill(l)
  {
    LeadsKeepsInvariant(sha, calls, d);
    var c := FirstCall(sha);
    var empty := FirstLedger(sha, c);
    FirstCallOpens(sha);
    GuardedReserveFailsExactlyWhen(sha, c, d);
    assert ReserveStep(sha, c, d, Completes).1 != Err(WouldBeInvalid);
    AttemptSealsNothing(empty, NextAttempt(c, empty));
    l, later := WithAttempt(empty, NextAttempt(c, empty)), Step(sha, d, Reserving(c, Completes));
    LeadsOn(sha, calls, d, Reserving(c, Completes));
  }

  /** An epoch before the fifth that is sealed is left behind. */
  lemma Unseal(sha: Digest, calls: seq<Call>, l: Ledger, d: Directory) returns (after: Ledger, later: Directory)
    requires HexDigest(sha) && Leads(sha, calls, d) && d.file == Document(l) && Home(l) == Default
    requires NoTenMinuteStart(l) && |l.attempts| <= 15 && l.active < 5 && Sealed(l, l.active)
    ensures Leads(sha, calls, later) && later.file == Document(after) && CanFill(after)
  {
    LeadsKeepsInvariant(sha, calls, d);
    var call;
    call, after := CanAdvance(sha, l, d);
    later := Step(sha, d, call);
    LeadsOn(sha, calls, d, call);
    Unsealed(Default, sha, l, l.active + 1);
  }

  lemma OpenGetsToFive(sha: Digest, calls: seq<Call>) returns (l: Ledger, d: Directory)
    requires HexDigest(sha) && StillOpen(Run(sha, calls)) && !AtTenMinutes(Run(sha, calls))
    ensures Leads(sha, calls, d) && d.file == Document(l) && Filled(l, 5)
  {
    LeadsToItself(sha, calls);
    d := Run(sha, calls);
    l, d := OpenCanFill(sha, calls, d);
    l, d := Fill(sha, calls, l, d);
    l, d := Climb(sha, calls, l, d);
  }

  lemma OpenCanFill(sha: Digest, calls: seq<Call>, d: Directory) returns (l: Ledger, later: Directory)
    requires HexDigest(sha) && Leads(sha, calls, d) && StillOpen(d) && !AtTenMinutes(d)
    ensures Leads(sha, calls, later) && later.file == Document(l) && CanFill(l)
  {
    LeadsKeepsInvariant(sha, calls, d);
    if d.file.Absent? {
      l, later := FirstAttempt(sha, calls, d);
    } else if CanFill(d.file.ledger) {
      l, later := d.file.ledger, d;
    } else {
      l, later := Unseal(sha, calls, d.file.ledger, d);
    }
  }

  /** After any run some continuation reaches the ten-minute epoch exactly when the
      campaign is still open in the above sense: whatever the profiles, refusals and
      stops on the way, nothing else in the ledger or the directory matters. */
  lemma TenMinutesReachableExactlyWhen(sha: Digest, calls: seq<Call>)
    requires HexDigest(sha)
    ensures (exists more :: AtTenMinutes(Run(sha, calls + more))) <==> StillOpen(Run(sha, calls))
  {
    if AtTenMinutes(Run(sha, calls)) {
      assert calls + [] == calls;
      RunKeepsInvariant(sha, calls);
    } else if StillOpen(Run(sha, calls)) {
      var l, d := OpenGetsToFive(sha, calls);
      var call, after := ClimbOne(sha, calls, l, d);
      var more :| Run(sha, calls + more) == Step(sha, d, call);
      assert AtTenMinutes(Run(sha, calls + more));
    } else {
      forall more ensures !AtTenMinutes(Run(sha, calls + more)) {
        ClosedStaysClosed(sha, calls, more);
        RunKeepsInvariant(sha, calls + more);
      }
    }
  }

  ghost predicate HasLedger(d: Directory, active: int, budget: int, attempts: int) {
    && d.file.Document? && d.file.ledger.active == active
    && d.file.ledger.maxAttempts == budget && |d.file.ledger.attempts| == attempts
  }

  /** `advance` lowers the budget of the fifth epoch from 18 to 16, and `last` reserves
      the sixteenth attempt, for the ten minutes. */
  ghost predicate EndsInTenMinutes(sha: Digest, d: Directory, advance: Call, last: Call) {
    var d6 := Step(sha, d, advance);
    var d7 := Step(sha, d6, last);
    && HasLedger(d, 5, 18, 15) && HasLedger(d6, 6, 16, 15) && HasLedger(d7, 6, 16, 16)
    && d7.file.ledger.attempts[15].kind == S06Start
  }

  /** Every campaign that is still open and has not come that far, an empty directory
      among them, can be continued to its last attempt. */
  lemma OpenCampaignsEndInTenMinutes(sha: Digest, calls: seq<Call>)
    requires HexDigest(sha) && StillOpen(Run(sha, calls)) && !AtTenMinutes(Run(sha, calls))
    ensures exists d, advance, last :: Leads(sha, calls, d) && EndsInTenMinutes(sha, d, advance, last)
  {
    var l5, d5 := OpenGetsToFive(sha, calls);
    LeadsKeepsInvariant(sha, calls, d5);
    var advance, l6 := ClimbOne(sha, calls, l5, d5);
    var d6 := Step(sha, d5, advance);
    LeadsKeepsInvariant(sha, calls, d6);
    Unsealed(Default, sha, l6, 6);
    var last, id := CanReserve(sha, l6, d6, S06Start);
    assert EndsInTenMinutes(sha, d5, advance, last);
  }
}
