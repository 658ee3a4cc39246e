/**
 What the outbox machine guarantees when every live worker settles within its lease, and what
 exactly goes wrong when one does not.
 */
module Leases {
  import opened Prelude
  import opened Events
  import opened Outbox

  // ---------- lease exclusivity ----------

  ghost predicate WithinLease(s: Relay) {
    forall w | w in s.holds :: s.now < s.holds[w].claimedAt + LEASE
  }

  // A run in which no worker acted, or let others act, after its lease had lapsed.  Only the
  // states before the last step are constrained.
  ghost predicate Punctual(steps: seq<Step>) {
    steps == [] || (Punctual(Front(steps)) && IsRun(Front(steps)) && WithinLease(After(Front(steps))))
  }

  ghost predicate Owns(s: Relay, h: Hold) {
    && h.rec < |s.rows|
    && s.rows[h.rec].status == Publishing
    && s.rows[h.rec].attempts == h.attempts
    && s.rows[h.rec].availableAt == h.claimedAt + LEASE
    && 1 <= h.attempts
    && h.claimedAt <= s.now
  }

  ghost predicate Exclusive(s: Relay) {
    && (forall w | w in s.holds :: Owns(s, s.holds[w]))
    && (forall v, w | v in s.holds && w in s.holds && v != w :: s.holds[v].rec != s.holds[w].rec)
  }

  lemma ExclusiveStep(s: Relay, step: Step)
    requires Exclusive(s) && WithinLease(s) && Enabled(s, step)
    ensures Exclusive(Next(s, step))
  {
    var t := Next(s, step);
    forall w | w in t.holds ensures Owns(t, t.holds[w]) {
      if w in s.holds {
        assert Owns(s, s.holds[w]);
      }
    }
  }

  // No two live workers hold the same record, and each holder is the record's latest claimant.
  lemma {:induction false} LeasesAreExclusive(steps: seq<Step>)
    requires IsRun(steps) && Punctual(steps)
    ensures Exclusive(After(steps))
  {
    if steps != [] {
      PrefixOfRun(steps);
      LeasesAreExclusive(Front(steps));
      ExclusiveStep(After(Front(steps)), Last(steps));
    }
  }

  // A held record can be claimed a second time exactly when its holder has outlived its lease.
  lemma ReclaimableExactlyWhenLapsed(steps: seq<Step>, holder: nat, other: nat)
    requires IsRun(steps) && Punctual(steps)
    requires holder in After(steps).holds && other !in After(steps).holds
    ensures
      var s := After(steps);
      Enabled(s, Claim(other, s.holds[holder].rec)) <==> s.holds[holder].claimedAt + LEASE <= s.now
  {
    LeasesAreExclusive(steps);
    assert Owns(After(steps), After(steps).holds[holder]);
  }

  // ---------- published and dead are final ----------

  lemma {:induction false} SettledIsFinal(steps: seq<Step>, k: nat, rec: nat)
    requires IsRun(steps) && Punctual(steps) && k <= |steps|
    requires rec < |StateAt(steps, k).rows| && StateAt(steps, k).rows[rec].Settled()
    ensures rec < |After(steps).rows| && After(steps).rows[rec] == StateAt(steps, k).rows[rec]
    decreases |steps|
  {
    if k < |steps| {
      PrefixOfRun(steps);
      assert Front(steps)[..k] == steps[..k];
      SettledIsFinal(Front(steps), k, rec);
      LeasesAreExclusive(Front(steps));
      var s := After(Front(steps));
      assert forall w | w in s.holds :: Owns(s, s.holds[w]);
    } else {
      assert steps[..k] == steps;
    }
  }

  lemma ExtendRun(steps: seq<Step>, step: Step)
    requires IsRun(steps) && Enabled(After(steps), step)
    ensures IsRun(steps + [step]) && After(steps + [step]) == Next(After(steps), step)
  {
    assert Front(steps + [step]) == steps;
  }

  // Settling is not fenced: as soon as one lease has lapsed, three steps undo a publication.
  lemma LapsedLeaseUndoesPublication(steps: seq<Step>, late: nat, other: nat, error: string)
    requires IsRun(steps) && Punctual(steps)
    requires late in After(steps).holds && other !in After(steps).holds
    requires After(steps).holds[late].claimedAt + LEASE <= After(steps).now
    ensures
      var rec := After(steps).holds[late].rec;
      var published := steps + [Claim(other, rec)] + [SettlePublished(other)];
      var undone := published + [SettleFailed(late, error)];
      && IsRun(published) && rec < |After(published).rows|
      && After(published).rows[rec].status == Published
      && IsRun(undone) && rec < |After(undone).rows|
      && After(undone).rows[rec].status != Published
  {
    var s := After(steps);
    var rec := s.holds[late].rec;
    LeasesAreExclusive(steps);
    assert Owns(s, s.holds[late]);
    ExtendRun(steps, Claim(other, rec));
    ExtendRun(steps + [Claim(other, rec)], SettlePublished(other));
    ExtendRun(steps + [Claim(other, rec)] + [SettlePublished(other)], SettleFailed(late, error));
  }

  // Such a lapse is reachable, so without the assumption finality fails.
  lemma FinalityNeedsLeases(e: AuditEvent, error: string)
    ensures
      var steps := [Enqueue(e, 0), Claim(1, 0), Tick(LEASE), Claim(2, 0), SettlePublished(2), SettleFailed(1, error)];
      && IsRun(steps) && IsRun(steps[..5])
      && |After(steps[..5]).rows| == 1 && After(steps[..5]).rows[0].status == Published
      && |After(steps).rows| == 1 && After(steps).rows[0].status == Pending
  {
    var s0: seq<Step> := [];
    var s1 := s0 + [Enqueue(e, 0)];
    ExtendRun(s0, Enqueue(e, 0));
    ExtendRun(s1, Claim(1, 0));
    ExtendRun(s1 + [Claim(1, 0)], Tick(LEASE));
    var s3 := s1 + [Claim(1, 0)] + [Tick(LEASE)];
    ExtendRun(s3, Claim(2, 0));
    ExtendRun(s3 + [Claim(2, 0)], SettlePublished(2));
    var s5 := s3 + [Claim(2, 0)] + [SettlePublished(2)];
    ExtendRun(s5, SettleFailed(1, error));
    var steps := [Enqueue(e, 0), Claim(1, 0), Tick(LEASE), Claim(2, 0), SettlePublished(2), SettleFailed(1, error)];
    assert steps == s5 + [SettleFailed(1, error)];
    assert steps[..5] == s5;
  }

  // ---------- a record dies no sooner than 3326 seconds after its first claim ----------

  function FirstClaim(steps: seq<Step>, rec: nat): Option<nat> {
    if steps == [] then None
    else
      match FirstClaim(Front(steps), rec)
      case Some(t) => Some(t)
      case None =>
        if Last(steps).Claim? && Last(steps).rec == rec && IsRun(Front(steps))
        then Some(After(Front(steps)).now)
        else None
  }

  // How much time a record must have spent, given its status and attempts.
  ghost predicate Waited(row: Row, now: nat, first: Option<nat>) {
    if row.attempts == 0 then first.None? && row.status == Pending
    else
      && first.Some?
      && match row.status
         case Pending => row.availableAt >= first.value + TotalDelay(row.attempts)
         case Publishing => row.availableAt >= first.value + TotalDelay(row.attempts - 1) + LEASE
         case Published => true
         case Dead => now >= first.value + TotalDelay(row.attempts - 1)
  }

  lemma {:induction false} NoEarlierClaim(steps: seq<Step>, rec: nat)
    requires IsRun(steps)
    ensures FirstClaim(steps, rec).None? <==> forall i | 0 <= i < |steps| :: !ClaimsAt(steps, i, rec)
  {
    if steps != [] {
      PrefixOfRun(steps);
      NoEarlierClaim(Front(steps), rec);
      assert forall i | 0 <= i < |steps| - 1 :: ClaimsAt(steps, i, rec) <==> ClaimsAt(Front(steps), i, rec);
      assert ClaimsAt(steps, |steps| - 1, rec) <==> Last(steps).Claim? && Last(steps).rec == rec;
    }
  }

  predicate ClaimsAt(steps: seq<Step>, i: nat, rec: nat)
    requires i < |steps|
  {
    steps[i].Claim? && steps[i].rec == rec
  }

  // It is the time at which the run first claims the record.
  lemma {:induction false} FirstClaimIsFirst(steps: seq<Step>, rec: nat) returns (i: nat)
    requires IsRun(steps) && FirstClaim(steps, rec).Some?
    ensures i < |steps| && ClaimsAt(steps, i, rec) && forall j | 0 <= j < i :: !ClaimsAt(steps, j, rec)
    ensures StateAt(steps, i).now == FirstClaim(steps, rec).value
  {
    PrefixOfRun(steps);
    if FirstClaim(Front(steps), rec).Some? {
      i := FirstClaimIsFirst(Front(steps), rec);
      assert Front(steps)[..i] == steps[..i];
      assert forall j | 0 <= j <= i :: ClaimsAt(steps, j, rec) <==> ClaimsAt(Front(steps), j, rec);
    } else {
      i := |steps| - 1;
      NoEarlierClaim(Front(steps), rec);
      assert steps[..i] == Front(steps);
      assert forall j | 0 <= j < i :: ClaimsAt(steps, j, rec) <==> ClaimsAt(Front(steps), j, rec);
    }
  }

  lemma WaitedStep(s: Relay, step: Step, rec: nat, first: Option<nat>)
    requires Exclusive(s) && WithinLease(s) && Enabled(s, step)
    requires if rec < |s.rows| then Waited(s.rows[rec], s.now, first) else first.None?
    ensures
      var t := Next(s, step);
      var known := if first.None? && step.Claim? && step.rec == rec then Some(s.now) else first;
      if rec < |t.rows| then Waited(t.rows[rec], t.now, known) else known.None?
  {
    assert forall w | w in s.holds :: Owns(s, s.holds[w]);
    if rec < |s.rows| && s.rows[rec].attempts >= 1 {
      RetryDelayIsNeverCapped(s.rows[rec].attempts);
    }
  }

  lemma {:induction false} FirstClaimKnown(steps: seq<Step>, rec: nat)
    requires IsRun(steps) && Punctual(steps)
    ensures
      if rec < |After(steps).rows|
      then Waited(After(steps).rows[rec], After(steps).now, FirstClaim(steps, rec))
      else FirstClaim(steps, rec).None?
  {
    if steps != [] {
      PrefixOfRun(steps);
      FirstClaimKnown(Front(steps), rec);
      LeasesAreExclusive(Front(steps));
      WaitedStep(After(Front(steps)), Last(steps), rec, FirstClaim(Front(steps), rec));
    }
  }

  lemma DeadNoSooner(steps: seq<Step>, rec: nat)
    requires IsRun(steps) && Punctual(steps)
    requires rec < |After(steps).rows| && After(steps).rows[rec].status == Dead
    ensures After(steps).rows[rec].attempts >= 20
    ensures FirstClaim(steps, rec).Some? && After(steps).now >= FirstClaim(steps, rec).value + 3326
  {
    FirstClaimKnown(steps, rec);
    EveryRunIsSound(steps);
    DeadRowHasWaited(After(steps).rows[rec], After(steps).now, FirstClaim(steps, rec));
  }

  lemma DeadRowHasWaited(row: Row, now: nat, first: Option<nat>)
    requires row.status == Dead && RowOk(row, now) && Waited(row, now, first)
    ensures row.attempts >= 20 && first.Some? && now >= first.value + 3326
  {
    TotalDelayClosedForm(row.attempts - 1);
  }

  // ---------- how many claims a record can take ----------

  // Crashes of a worker that was making the twentieth or a later attempt at the record.
  function LateCrashes(steps: seq<Step>, rec: nat): nat {
    if steps == [] then 0
    else
      LateCrashes(Front(steps), rec) +
      if IsRun(Front(steps)) && Last(steps).Crash? && Last(steps).worker in After(Front(steps)).holds
         && After(Front(steps)).holds[Last(steps).worker].rec == rec
         && After(Front(steps)).holds[Last(steps).worker].attempts >= MAX_ATTEMPTS
      then 1 else 0
  }

  ghost predicate Held(s: Relay, rec: nat) {
    exists w :: w in s.holds && s.holds[w].rec == rec
  }

  // A record in publication whose worker has crashed.
  ghost predicate Abandoned(s: Relay, rec: nat)
    requires rec < |s.rows|
  {
    s.rows[rec].status == Publishing && !Held(s, rec)
  }

  ghost predicate Budgeted(s: Relay, rec: nat, crashes: nat) {
    if |s.rows| <= rec then crashes == 0
    else
      var row := s.rows[rec];
      && (row.status == Pending ==> row.attempts < MAX_ATTEMPTS)
      && (row.attempts < MAX_ATTEMPTS ==> crashes == 0)
      && (row.attempts >= MAX_ATTEMPTS ==>
            row.attempts == MAX_ATTEMPTS + crashes - if Abandoned(s, rec) then 1 else 0)
  }

  predicate Releases(step: Step) {
    step.Crash? || step.SettleFailed? || step.SettlePublished?
  }

  // How the worker that holds a record changes with a step.
  lemma HeldAfter(s: Relay, step: Step, rec: nat)
    requires Exclusive(s) && Enabled(s, step)
    ensures Held(Next(s, step), rec) <==>
      || (step.Claim? && step.rec == rec)
      || (Held(s, rec) && !(Releases(step) && s.holds[step.worker].rec == rec))
  {
    var t := Next(s, step);
    if step.Claim? && step.rec == rec {
      assert t.holds[step.worker].rec == rec;
    }
    if Held(s, rec) && !(Releases(step) && s.holds[step.worker].rec == rec) {
      var w :| w in s.holds && s.holds[w].rec == rec;
      assert w in t.holds && t.holds[w].rec == rec;
    }
  }

  lemma BudgetedStep(s: Relay, step: Step, rec: nat, before: nat, after: nat)
    requires Exclusive(s) && WithinLease(s) && Sound(s) && Enabled(s, step) && Budgeted(s, rec, before)
    requires after == before + if step.Crash? && s.holds[step.worker].rec == rec
                                  && s.holds[step.worker].attempts >= MAX_ATTEMPTS then 1 else 0
    ensures Budgeted(Next(s, step), rec, after)
  {
    assert forall w | w in s.holds :: Owns(s, s.holds[w]);
    HeldAfter(s, step, rec);
  }

  lemma {:induction false} BudgetHolds(steps: seq<Step>, rec: nat)
    requires IsRun(steps) && Punctual(steps)
    ensures Budgeted(After(steps), rec, LateCrashes(steps, rec))
  {
    if steps != [] {
      PrefixOfRun(steps);
      BudgetHolds(Front(steps), rec);
      LeasesAreExclusive(Front(steps));
      EveryRunIsSound(Front(steps));
      BudgetedStep(After(Front(steps)), Last(steps), rec,
                   LateCrashes(Front(steps), rec), LateCrashes(steps, rec));
    }
  }

  // With leases respected, `attempts <= 20` fails once workers crash late; this is exactly when
  // it holds.
  lemma TwentyAttemptsExactly(steps: seq<Step>, rec: nat)
    requires IsRun(steps) && Punctual(steps) && rec < |After(steps).rows|
    ensures After(steps).rows[rec].attempts <= 20
       <==> LateCrashes(steps, rec) <= if Abandoned(After(steps), rec) then 1 else 0
  {
    BudgetHolds(steps, rec);
  }

  lemma ExtendPunctual(steps: seq<Step>, step: Step)
    requires IsRun(steps) && Punctual(steps) && WithinLease(After(steps)) && Enabled(After(steps), step)
    ensures IsRun(steps + [step]) && Punctual(steps + [step])
    ensures After(steps + [step]) == Next(After(steps), step)
  {
    ExtendRun(steps, step);
    assert Front(steps + [step]) == steps;
  }

  // Repeated crashes drive the count past any bound.
  lemma {:induction false} CrashesExceedAnyBound(e: AuditEvent, n: nat) returns (steps: seq<Step>)
    ensures IsRun(steps) && Punctual(steps)
    ensures |After(steps).rows| == 1 && After(steps).rows[0].attempts == n
    ensures After(steps).holds == map[] && Eligible(After(steps).rows[0], After(steps).now)
  {
    if n == 0 {
      ExtendPunctual([], Enqueue(e, 0));
      steps := [] + [Enqueue(e, 0)];
    } else {
      var before := CrashesExceedAnyBound(e, n - 1);
      ExtendPunctual(before, Claim(0, 0));
      ExtendPunctual(before + [Claim(0, 0)], Crash(0));
      ExtendPunctual(before + [Claim(0, 0)] + [Crash(0)], Tick(LEASE));
      steps := before + [Claim(0, 0)] + [Crash(0)] + [Tick(LEASE)];
    }
  }

  // ---------- how many claims a record can take, leases respected or not ----------

  // Claims of the record when it already had twenty or more attempts.
  function LateClaims(steps: seq<Step>, rec: nat): nat {
    if steps == [] then 0
    else
      LateClaims(Front(steps), rec) +
      if IsRun(Front(steps)) && Last(steps).Claim? && Last(steps).rec == rec
         && rec < |After(Front(steps)).rows| && After(Front(steps)).rows[rec].attempts >= MAX_ATTEMPTS
      then 1 else 0
  }

  // Nothing stops such claims: in every run they are what attempts beyond the twentieth are.
  lemma {:induction false} AttemptsBeyondTwenty(steps: seq<Step>, rec: nat)
    requires IsRun(steps)
    ensures
      if rec < |After(steps).rows| && After(steps).rows[rec].attempts >= MAX_ATTEMPTS
      then After(steps).rows[rec].attempts == MAX_ATTEMPTS + LateClaims(steps, rec)
      else LateClaims(steps, rec) == 0
  {
    if steps != [] {
      PrefixOfRun(steps);
      AttemptsBeyondTwenty(Front(steps), rec);
    }
  }

  // `attempts <= 20` in every run, leases respected or not: exactly when the record was never
  // claimed again after its twentieth attempt.
  lemma TwentyAttemptsWithoutLeasesExactly(steps: seq<Step>, rec: nat)
    requires IsRun(steps) && rec < |After(steps).rows|
    ensures After(steps).rows[rec].attempts <= 20 <==> LateClaims(steps, rec) == 0
  {
    AttemptsBeyondTwenty(steps, rec);
  }

  // Slow workers drive the count past any bound without a single crash: each outlives its lease.
  lemma {:induction false} SlowWorkersExceedAnyBound(e: AuditEvent, n: nat) returns (steps: seq<Step>)
    ensures IsRun(steps) && CrashFree(steps)
    ensures |After(steps).rows| == 1 && After(steps).rows[0].attempts == n
    ensures forall w | w in After(steps).holds :: w < n
    ensures Eligible(After(steps).rows[0], After(steps).now)
  {
    if n == 0 {
      ExtendRun([], Enqueue(e, 0));
      steps := [] + [Enqueue(e, 0)];
    } else {
      var before := SlowWorkersExceedAnyBound(e, n - 1);
      ExtendRun(before, Claim(n - 1, 0));
      ExtendRun(before + [Claim(n - 1, 0)], Tick(LEASE));
      steps := before + [Claim(n - 1, 0)] + [Tick(LEASE)];
    }
  }

  // ---------- claims in total ----------

  function TotalClaims(steps: seq<Step>): nat {
    if steps == [] then 0 else TotalClaims(Front(steps)) + if Last(steps).Claim? then 1 else 0
  }

  function TotalAttempts(rows: seq<Row>): nat {
    if rows == [] then 0 else TotalAttempts(Front(rows)) + Last(rows).attempts
  }

  lemma {:induction false} TotalAttemptsUpdate(rows: seq<Row>, i: nat, row: Row)
    requires i < |rows|
    ensures TotalAttempts(rows[i := row]) == TotalAttempts(rows) - rows[i].attempts + row.attempts
  {
    if i == |rows| - 1 {
      assert Front(rows[i := row]) == Front(rows);
    } else {
      assert Front(rows[i := row]) == Front(rows)[i := row];
      TotalAttemptsUpdate(Front(rows), i, row);
    }
  }

  lemma {:induction false} ClaimsAreAttempts(steps: seq<Step>)
    requires IsRun(steps)
    ensures TotalClaims(steps) == TotalAttempts(After(steps).rows)
  {
    if steps != [] {
      PrefixOfRun(steps);
      ClaimsAreAttempts(Front(steps));
      var s, step := After(Front(steps)), Last(steps);
      match step
      case Enqueue(e, at) => assert Front(s.rows + [NewRow(e, at)]) == s.rows;
      case Claim(w, r) => TotalAttemptsUpdate(s.rows, r, Claimed(s.rows[r], s.now));
      case SettlePublished(w) =>
        TotalAttemptsUpdate(s.rows, s.holds[w].rec, Delivered(s.rows[s.holds[w].rec], s.now));
      case SettleFailed(w, error) =>
        TotalAttemptsUpdate(s.rows, s.holds[w].rec,
                            Failed(s.rows[s.holds[w].rec], s.holds[w].attempts, s.now, error));
      case _ =>
    }
  }

  lemma {:induction false} TotalAttemptsBound(rows: seq<Row>, bound: nat)
    requires forall i | 0 <= i < |rows| :: rows[i].attempts <= bound
    ensures TotalAttempts(rows) <= bound * |rows|
  {
    if rows != [] {
      TotalAttemptsBound(Front(rows), bound);
    }
  }

  // With any number of workers, n records cost at most 20n claims unless some worker
  // crashes during a twentieth or later attempt.
  lemma AtMostTwentyClaimsEach(steps: seq<Step>)
    requires IsRun(steps) && Punctual(steps)
    requires forall rec: nat | rec < |After(steps).rows| :: LateCrashes(steps, rec) == 0
    ensures TotalClaims(steps) <= 20 * |After(steps).rows|
  {
    forall i | 0 <= i < |After(steps).rows| ensures After(steps).rows[i].attempts <= 20 {
      TwentyAttemptsExactly(steps, i);
    }
    TotalAttemptsBound(After(steps).rows, 20);
    ClaimsAreAttempts(steps);
  }

  // The record is eligible, and an idle worker finds an oldest eligible record to claim, this one
  // or another that is no younger.
  ghost predicate CanClaim(s: Relay, idle: nat, rec: nat) {
    && rec < |s.rows| && Eligible(s.rows[rec], s.now)
    && exists r: nat :: OldestAmong(s.rows, r, s.now, {}, |s.rows|)
         && Enabled(s, Claim(idle, r)) && s.rows[r].createdAt <= s.rows[rec].createdAt
  }

  // Nothing gets stuck: within 300 seconds an unsettled record is eligible, and an idle worker can
  // claim it unless an older one comes first.
  lemma UnsettledCanMove(steps: seq<Step>, rec: nat, idle: nat)
    requires IsRun(steps)
    requires rec < |After(steps).rows| && !After(steps).rows[rec].Settled()
    requires idle !in After(steps).holds
    ensures exists wait: nat :: wait <= LEASE
              && IsRun(steps + [Tick(wait)]) && CanClaim(After(steps + [Tick(wait)]), idle, rec)
  {
    EveryRunIsSound(steps);
    var s := After(steps);
    assert RowOk(s.rows[rec], s.now);
    var wait: nat := if s.rows[rec].availableAt <= s.now then 0 else s.rows[rec].availableAt - s.now;
    ExtendRun(steps, Tick(wait));
    var t := After(steps + [Tick(wait)]);
    assert Claimable(t.rows, rec, t.now, {});
    var r := OldestExists(t.rows, t.now, {}, |t.rows|, rec);
    assert Enabled(t, Claim(idle, r));
    assert wait <= LEASE && IsRun(steps + [Tick(wait)]) && CanClaim(t, idle, rec);
  }

  // ---------- draining ----------

  predicate CrashFree(steps: seq<Step>) {
    forall i | 0 <= i < |steps| :: !steps[i].Crash?
  }

  lemma {:induction false} NoCrashesNoLateOnes(steps: seq<Step>, rec: nat)
    requires CrashFree(steps)
    ensures LateCrashes(steps, rec) == 0
  {
    if steps != [] {
      NoCrashesNoLateOnes(Front(steps), rec);
    }
  }

  lemma {:induction false} TotalAttemptsLow(rows: seq<Row>, i: nat)
    requires i < |rows| && rows[i].attempts < MAX_ATTEMPTS
    requires forall r | 0 <= r < |rows| :: rows[r].attempts <= MAX_ATTEMPTS
    ensures TotalAttempts(rows) < MAX_ATTEMPTS * |rows|
  {
    if i < |rows| - 1 {
      TotalAttemptsLow(Front(rows), i);
    } else {
      TotalAttemptsBound(Front(rows), MAX_ATTEMPTS);
    }
  }

  // An open record that nobody holds still has claims left.
  lemma OpenRecordHasClaimsLeft(steps: seq<Step>, rec: nat)
    requires IsRun(steps) && Punctual(steps) && CrashFree(steps) && After(steps).holds == map[]
    requires rec < |After(steps).rows| && !After(steps).rows[rec].Settled()
    ensures TotalClaims(steps) < 20 * |After(steps).rows|
  {
    var rows := After(steps).rows;
    forall r | 0 <= r < |rows| ensures rows[r].attempts <= MAX_ATTEMPTS {
      NoCrashesNoLateOnes(steps, r);
      BudgetHolds(steps, r);
    }
    NoCrashesNoLateOnes(steps, rec);
    BudgetHolds(steps, rec);
    TotalAttemptsLow(rows, rec);
    ClaimsAreAttempts(steps);
  }

  // Any number of relays drain the outbox: without crashes, whatever the outcomes and however the
  // relays interleave, a run that has come to rest either has settled every record, or has made
  // fewer than 20n claims and can make another within 300 seconds.
  lemma RelaysDrain(steps: seq<Step>, idle: nat)
    requires IsRun(steps) && Punctual(steps) && CrashFree(steps) && After(steps).holds == map[]
    ensures TotalClaims(steps) <= 20 * |After(steps).rows|
    ensures
      || (forall rec | 0 <= rec < |After(steps).rows| :: After(steps).rows[rec].Settled())
      || (&& TotalClaims(steps) < 20 * |After(steps).rows|
          && exists rec: nat, wait: nat :: wait <= LEASE && Punctual(steps + [Tick(wait)])
               && IsRun(steps + [Tick(wait)]) && CanClaim(After(steps + [Tick(wait)]), idle, rec))
  {
    forall rec: nat | rec < |After(steps).rows| ensures LateCrashes(steps, rec) == 0 {
      NoCrashesNoLateOnes(steps, rec);
    }
    AtMostTwentyClaimsEach(steps);
    if rec: nat :| rec < |After(steps).rows| && !After(steps).rows[rec].Settled() {
      OpenRecordHasClaimsLeft(steps, rec);
      UnsettledCanMove(steps, rec, idle);
      var wait: nat :| wait <= LEASE
        && IsRun(steps + [Tick(wait)]) && CanClaim(After(steps + [Tick(wait)]), idle, rec);
      assert Front(steps + [Tick(wait)]) == steps;
    }
  }
}
