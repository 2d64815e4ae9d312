/** The campaign's promises, as statements about whole runs. */
module CampaignTheorems {
  import opened Results
  import opened CampaignLedger
  import opened CampaignSteps
  import opened CampaignRuns

  // ------------------------------------------------------- budgets and seals

  /** The budgets of every run, and what an `AdminAck` and the ten-minute epoch
      allow: an ack is the only one of its epoch and the epoch's last attempt, and
      in epoch six `S06Start` was used at most once, as attempt 16. */
  lemma RunBudgets(sha: Digest, calls: seq<Call>)
    requires HexDigest(sha) && Run(sha, calls).file.Document?
    ensures var l := Run(sha, calls).file.ledger;
      && |l.attempts| <= (if Home(l) == Default then 18 else 6)
      && (forall i, j | 0 <= i < j < |l.attempts| && l.attempts[i].kind == AdminAck ::
            l.attempts[i].epoch < l.attempts[j].epoch)
      && (l.active == 6 ==>
            forall i | 0 <= i < |l.attempts| && l.attempts[i].kind == S06Start ::
              i == 15 && l.attempts[i].ordinal == 16)
  {
    RunKeepsInvariant(sha, calls);
    var l := Run(sha, calls).file.ledger;
    forall i, j | 0 <= i < j < |l.attempts| && l.attempts[i].kind == AdminAck
      ensures l.attempts[i].epoch < l.attempts[j].epoch
    {
      assert AttemptOk(Home(l), l.active, l.attempts, j);
    }
    forall i | 0 <= i < |l.attempts| && l.attempts[i].kind == S06Start && l.active == 6
      ensures i == 15 && l.attempts[i].ordinal == 16
    {
      assert AttemptOk(Home(l), l.active, l.attempts, i);
    }
  }

  // -------------------------------------------------------------- hash chain

  /** Numbered epochs, each with the digest of its body, which names the digest of
      the epoch before it. */
  ghost predicate Chained(sha: Digest, epochs: seq<Epoch>) {
    forall i | 0 <= i < |epochs| ::
      && epochs[i].body.number == i + 1
      && epochs[i].digest == sha(OfEpoch(epochs[i].body))
      && epochs[i].body.previous == if i == 0 then None else Some(epochs[i - 1].digest)
  }

  lemma ValidIsChained(p: Profile, sha: Digest, l: Ledger)
    requires ValidLedger(p, sha, l)
    ensures Chained(sha, l.epochs) && l.epochs != []
  {
    forall i | 0 <= i < |l.epochs|
      ensures l.epochs[i].body.number == i + 1 && l.epochs[i].digest == sha(OfEpoch(l.epochs[i].body))
      ensures l.epochs[i].body.previous == if i == 0 then None else Some(l.epochs[i - 1].digest)
    {
      assert EpochOk(p, sha, l.epochs, i);
    }
  }

  lemma SameDigestSameEpoch(sha: Digest, a: seq<Epoch>, b: seq<Epoch>, i: nat, j: nat)
    requires Chained(sha, a) && Chained(sha, b) && !Collide(sha, a, b)
    requires i < |a| && j < |b| && a[i].digest == b[j].digest
    ensures i == j && a[i] == b[i]
    ensures i > 0 ==> a[i - 1].digest == b[i - 1].digest
  {
    assert sha(OfEpoch(a[i].body)) == sha(OfEpoch(b[j].body));
    assert a[i].body == b[j].body;
  }

  lemma {:induction false} ChainsAgree(sha: Digest, a: seq<Epoch>, b: seq<Epoch>, i: nat, j: nat)
    requires Chained(sha, a) && Chained(sha, b) && !Collide(sha, a, b)
    requires i < |a| && j < |b| && a[i].digest == b[j].digest
    ensures i == j && a[..i + 1] == b[..i + 1]
    decreases i
  {
    SameDigestSameEpoch(sha, a, b, i, j);
    if i > 0 {
      ChainsAgree(sha, a, b, i - 1, i - 1);
    }
    assert a[..i + 1] == a[..i] + [a[i]] && b[..i + 1] == b[..i] + [b[i]];
  }

  /** Two valid ledgers with the same last digest have the same epoch history, or
      two of their own epochs collide; whichever profiles they are valid under. */
  lemma LastDigestDeterminesHistory(p: Profile, q: Profile, sha: Digest, a: Ledger, b: Ledger)
    requires ValidLedger(p, sha, a) && ValidLedger(q, sha, b)
    requires a.epochs[|a.epochs| - 1].digest == b.epochs[|b.epochs| - 1].digest
    ensures a.epochs == b.epochs || Collide(sha, a.epochs, b.epochs)
  {
    ValidIsChained(p, sha, a);
    ValidIsChained(q, sha, b);
    if !Collide(sha, a.epochs, b.epochs) {
      ChainsAgree(sha, a.epochs, b.epochs, |a.epochs| - 1, |b.epochs| - 1);
      assert a.epochs == a.epochs[..|a.epochs|] && b.epochs == b.epochs[..|b.epochs|];
    }
  }

  /** So the active epoch's digest that a run shows tells which epochs it went
      through: two runs, of whatever calls, that show the same digest have the same
      history or exhibit a collision of the hash. */
  lemma RunsWithOneDigestAgree(sha: Digest, calls: seq<Call>, others: seq<Call>)
    requires HexDigest(sha) && Run(sha, calls).file.Document? && Run(sha, others).file.Document?
    ensures var a, b := Run(sha, calls).file.ledger.epochs, Run(sha, others).file.ledger.epochs;
      && a != [] && b != []
      && (a[|a| - 1].digest == b[|b| - 1].digest ==> a == b || Collide(sha, a, b))
  {
    RunKeepsInvariant(sha, calls);
    RunKeepsInvariant(sha, others);
    LastDigestOfRuns(sha, Run(sha, calls).file.ledger, Run(sha, others).file.ledger);
  }

  lemma LastDigestOfRuns(sha: Digest, a: Ledger, b: Ledger)
    requires ValidLedger(Home(a), sha, a) && ValidLedger(Home(b), sha, b)
    ensures a.epochs != [] && b.epochs != []
    ensures a.epochs[|a.epochs| - 1].digest == b.epochs[|b.epochs| - 1].digest ==>
      a.epochs == b.epochs || Collide(sha, a.epochs, b.epochs)
  {
    ValidIsChained(Home(a), sha, a);
    ValidIsChained(Home(b), sha, b);
    if a.epochs[|a.epochs| - 1].digest == b.epochs[|b.epochs| - 1].digest {
      LastDigestDeterminesHistory(Home(a), Home(b), sha, a, b);
    }
  }

  /** Every epoch after the first registers a new matrix, runtime or baseline. */
  lemma EveryEpochRegistersSomethingNew(sha: Digest, calls: seq<Call>, i: nat)
    requires HexDigest(sha) && Run(sha, calls).file.Document?
    requires 1 <= i < |Run(sha, calls).file.ledger.epochs|
    ensures var before, after :=
      Run(sha, calls).file.ledger.epochs[i - 1].body, Run(sha, calls).file.ledger.epochs[i].body;
      (before.matrix, before.runtime, before.baseline) != (after.matrix, after.runtime, after.baseline)
  {
    RunKeepsInvariant(sha, calls);
  }

  // ------------------------------------------------------------ reservations

  /** After every run each reservation file belongs to exactly one attempt and
      carries that attempt's own epoch's hashes, and there are no more of them
      than attempts. */
  lemma ReservationsMatchAttempts(sha: Digest, calls: seq<Call>)
    requires HexDigest(sha) && Run(sha, calls).file.Document?
    ensures var l, published := Run(sha, calls).file.ledger, Run(sha, calls).reservations;
      && |published| <= |l.attempts|
      && forall id | id in published ::
           exists i :: Backs(l, id, published[id], i) && forall j :: Backs(l, id, published[id], j) ==> j == i
  {
    RunKeepsInvariant(sha, calls);
    var l, published := Run(sha, calls).file.ledger, Run(sha, calls).reservations;
    forall id | id in published
      ensures exists i :: Backs(l, id, published[id], i) && forall j :: Backs(l, id, published[id], j) ==> j == i
    {
      var i := published[id].ordinal - 1;
      assert Backs(l, id, published[id], i);
      forall j | Backs(l, id, published[id], j) ensures j == i {
        assert AttemptOk(Home(l), l.active, l.attempts, j) && AttemptOk(Home(l), l.active, l.attempts, i);
      }
    }
    BackedIdsAreFewer(l, published, published.Keys, |l.attempts|);
    assert |published.Keys| == |published|;
  }

  /** Distinct ids are backed by distinct attempts. */
  lemma {:induction false} BackedIdsAreFewer(l: Ledger, published: map<string, Reservation>, ids: set<string>, n: nat)
    requires ids <= published.Keys && n <= |l.attempts|
    requires forall id | id in ids ::
      Backs(l, id, published[id], published[id].ordinal - 1) && published[id].ordinal <= n
    ensures |ids| <= n
  {
    if ids != {} {
      var id :| id in ids;
      assert 1 <= published[id].ordinal <= n;
      BackedIdsAreFewer(l, published, ids - {l.attempts[n - 1].id}, n - 1);
    }
  }

  // ------------------------------------------------------------ serve-direct

  lemma {:induction false} MatchingIsOneSlot(c: LoadCall, active: int, attempts: seq<Attempt>)
    requires forall i | 0 <= i < |attempts| :: attempts[i].ordinal == i + 1
    ensures Matching(c, active, attempts) ==
      if 1 <= c.ordinal <= |attempts| && attempts[c.ordinal - 1].epoch == active
        && attempts[c.ordinal - 1].kind == c.kind
      then [attempts[c.ordinal - 1]] else []
  {
    if attempts != [] {
      MatchingIsOneSlot(c, active, attempts[..|attempts| - 1]);
    }
  }

  /** The kinds that do not go through the admin routes. */
  predicate ServedDirectly(p: Profile, kind: Kind) {
    kind == S01Start || kind == S01Reconnect
    || (p == Default && kind in {S02Start, S03Start, S04Start, S05Start, S06Start})
  }

  /** Attempt number `c.ordinal` is in the active epoch, which is exactly the
      caller's, and its reservation was published. */
  ghost predicate Loadable(sha: Digest, c: LoadCall, d: Directory) {
    && ValidBaseline(sha, c.baseline) && ServedDirectly(c.profile, c.kind) && 1 <= c.ordinal <= 18
    && d.file.Document? && ValidLedger(c.profile, sha, d.file.ledger)
    && d.file.ledger.campaign == c.frozen.campaign
    && SameBinding(d.file.ledger.epochs[d.file.ledger.active - 1], c.frozen, c.baseline)
    && c.ordinal <= |d.file.ledger.attempts|
    && var a := d.file.ledger.attempts[c.ordinal - 1];
       a.epoch == d.file.ledger.active && a.kind == c.kind && a.id in d.reservations
  }

  /** Whenever the invariant holds, a load succeeds exactly when the attempt is
      loadable: a reservation file that exists is never the wrong one. */
  lemma LoadIsExact(sha: Digest, c: LoadCall, d: Directory)
    requires Inv(sha, d)
    ensures LoadReserved(sha, c, d).Ok? <==> Loadable(sha, c, d)
    ensures Loadable(sha, c, d) ==> LoadReserved(sha, c, d).value == d.file.ledger.attempts[c.ordinal - 1]
  {
    if d.file.Document? && ValidLedger(c.profile, sha, d.file.ledger) {
      var l := d.file.ledger;
      OrdinalsCount(c.profile, sha, l);
      MatchingIsOneSlot(c, l.active, l.attempts);
      var found := Matching(c, l.active, l.attempts);
      LoadFinds(sha, c, d, found);
      if Loadable(sha, c, d) {
        PublishedIsExpected(sha, c, d);
      }
      LoadableFinds(sha, c, d, found);
    } else {
      LoadNeedsALedger(sha, c, d);
    }
  }

  lemma LoadNeedsALedger(sha: Digest, c: LoadCall, d: Directory)
    requires !(d.file.Document? && ValidLedger(c.profile, sha, d.file.ledger))
    ensures LoadReserved(sha, c, d).Err?
  {
  }

  /** The load's conditions when its search has found these attempts. */
  ghost predicate Finds(sha: Digest, c: LoadCall, d: Directory, found: seq<Attempt>)
    requires d.file.Document? && ValidLedger(c.profile, sha, d.file.ledger)
  {
    && ValidBaseline(sha, c.baseline) && c.kind in DirectKinds(c.profile) && 1 <= c.ordinal <= 18
    && d.file.ledger.campaign == c.frozen.campaign
    && SameBinding(d.file.ledger.epochs[d.file.ledger.active - 1], c.frozen, c.baseline)
    && |found| == 1 && found[0].id in d.reservations && d.reservations[found[0].id] == ReservationOf(c.frozen, found[0])
  }

  lemma LoadFinds(sha: Digest, c: LoadCall, d: Directory, found: seq<Attempt>)
    requires d.file.Document? && ValidLedger(c.profile, sha, d.file.ledger)
    requires found == Matching(c, d.file.ledger.active, d.file.ledger.attempts)
    ensures LoadReserved(sha, c, d).Ok? <==> Finds(sha, c, d, found)
    ensures LoadReserved(sha, c, d).Ok? ==> LoadReserved(sha, c, d).value == found[0]
  {
  }

  lemma LoadableFinds(sha: Digest, c: LoadCall, d: Directory, found: seq<Attempt>)
    requires d.file.Document? && ValidLedger(c.profile, sha, d.file.ledger)
    requires var l := d.file.ledger;
      if 1 <= c.ordinal <= |l.attempts| && l.attempts[c.ordinal - 1].epoch == l.active
        && l.attempts[c.ordinal - 1].kind == c.kind
      then found == [l.attempts[c.ordinal - 1]] else found == []
    requires Loadable(sha, c, d) ==>
      var a := d.file.ledger.attempts[c.ordinal - 1]; d.reservations[a.id] == ReservationOf(c.frozen, a)
    ensures Finds(sha, c, d, found) <==> Loadable(sha, c, d)
    ensures Loadable(sha, c, d) ==> found[0] == d.file.ledger.attempts[c.ordinal - 1]
  {
  }

  lemma OrdinalsCount(p: Profile, sha: Digest, l: Ledger)
    requires ValidLedger(p, sha, l)
    ensures forall i | 0 <= i < |l.attempts| :: l.attempts[i].ordinal == i + 1
  {
    forall i | 0 <= i < |l.attempts| ensures l.attempts[i].ordinal == i + 1 {
      assert AttemptOk(p, l.active, l.attempts, i);
    }
  }

  lemma PublishedIsExpected(sha: Digest, c: LoadCall, d: Directory)
    requires Inv(sha, d) && Loadable(sha, c, d)
    ensures var a := d.file.ledger.attempts[c.ordinal - 1]; d.reservations[a.id] == ReservationOf(c.frozen, a)
  {
    var l := d.file.ledger;
    var a := l.attempts[c.ordinal - 1];
    var i := d.reservations[a.id].ordinal - 1;
    assert Backs(l, a.id, d.reservations[a.id], i);
    assert i == c.ordinal - 1 by { SameIdSameSlot(c.profile, sha, l, i, c.ordinal - 1); }
  }

  lemma SameIdSameSlot(p: Profile, sha: Digest, l: Ledger, i: nat, j: nat)
    requires ValidLedger(p, sha, l) && i < |l.attempts| && j < |l.attempts| && l.attempts[i].id == l.attempts[j].id
    ensures i == j
  {
    assert AttemptOk(p, l.active, l.attempts, i) && AttemptOk(p, l.active, l.attempts, j);
  }

  /** So it is after every run. */
  lemma LoadSucceedsExactlyWhen(sha: Digest, calls: seq<Call>, c: LoadCall)
    requires HexDigest(sha)
    ensures var d := Run(sha, calls);
      && (LoadReserved(sha, c, d).Ok? <==> Loadable(sha, c, d))
      && (Loadable(sha, c, d) ==> LoadReserved(sha, c, d).value == d.file.ledger.attempts[c.ordinal - 1])
  {
    RunKeepsInvariant(sha, calls);
    LoadIsExact(sha, c, Run(sha, calls));
  }

  /** A load never returns an attempt of an epoch the campaign has advanced past:
      whatever was active at some moment of the run, a later load only returns
      attempts of the epoch active now. */
  lemma LoadNeverReturnsPastEpoch(sha: Digest, calls: seq<Call>, n: nat, c: LoadCall)
    requires HexDigest(sha) && n <= |calls| && Run(sha, calls[..n]).file.Document?
    requires LoadReserved(sha, c, Run(sha, calls)).Ok?
    ensures Run(sha, calls).file.Document?
    ensures var earlier, now := Run(sha, calls[..n]).file.ledger.active, Run(sha, calls).file.ledger.active;
      earlier <= now == LoadReserved(sha, c, Run(sha, calls)).value.epoch
  {
    ActiveEpochNeverFalls(sha, calls, n);
    RunKeepsInvariant(sha, calls);
    LoadedIsActive(sha, c, Run(sha, calls));
  }

  lemma LoadedIsActive(sha: Digest, c: LoadCall, d: Directory)
    requires Inv(sha, d) && LoadReserved(sha, c, d).Ok?
    ensures d.file.Document? && LoadReserved(sha, c, d).value.epoch == d.file.ledger.active
  {
    LoadIsExact(sha, c, d);
    LoadableIsActive(sha, c, d, LoadReserved(sha, c, d).value);
  }

  lemma LoadableIsActive(sha: Digest, c: LoadCall, d: Directory, a: Attempt)
    requires Loadable(sha, c, d) && a == d.file.ledger.attempts[c.ordinal - 1]
    ensures d.file.Document? && a.epoch == d.file.ledger.active
  {
  }

  lemma ActiveEpochNeverFalls(sha: Digest, calls: seq<Call>, n: nat)
    requires HexDigest(sha) && n <= |calls| && Run(sha, calls[..n]).file.Document?
    ensures Run(sha, calls).file.Document?
    ensures Run(sha, calls[..n]).file.ledger.active <= Run(sha, calls).file.ledger.active
  {
    HistoryOnlyGrows(sha, calls, n);
    RunKeepsInvariant(sha, calls);
    RunKeepsInvariant(sha, calls[..n]);
  }

  /** An attempt whose reservation was lost to a crash stays counted and can never
      be loaded, whatever the run does afterwards. */
  lemma LostAttemptStaysLost(sha: Digest, calls: seq<Call>, n: nat, c: LoadCall)
    requires HexDigest(sha) && n <= |calls| && Run(sha, calls[..n]).file.Document?
    requires var d := Run(sha, calls[..n]);
      1 <= c.ordinal <= |d.file.ledger.attempts| && d.file.ledger.attempts[c.ordinal - 1].id !in d.reservations
    ensures LoadReserved(sha, c, Run(sha, calls)).Err?
    ensures Run(sha, calls).file.Document?
    ensures Run(sha, calls[..n]).file.ledger.attempts <= Run(sha, calls).file.ledger.attempts
  {
    LoadSucceedsExactlyWhen(sha, calls, c);
    HistoryOnlyGrows(sha, calls, n);
  }
}
