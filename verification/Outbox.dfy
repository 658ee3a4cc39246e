/**
 The transactional outbox and its relay workers.

 A relay claims the oldest eligible record under a five-minute lease, publishes it, and
 settles it as published, retried with exponential back-off, or dead.  Settling names only
 the record: nothing compares the lease.  The first half states the row updates, the second
 half runs them as a machine with any number of workers, crashes and an advancing clock.
 */
module Outbox {
  import opened Prelude
  import opened Events

  const LEASE: nat := 300
  const BACKOFF_CAP: nat := 300
  const MAX_ATTEMPTS: nat := 20
  const ERROR_LENGTH: nat := 2000

  datatype Status = Pending | Publishing | Published | Dead

  datatype Row = Row(
    event: AuditEvent,
    status: Status,
    attempts: nat,
    availableAt: nat,
    createdAt: nat,
    publishedAt: Option<nat>,
    lastError: Option<string>)
  {
    predicate Settled() {
      status == Published || status == Dead
    }
  }

  // ---------- back-off ----------

  function Pow2(n: nat): nat {
    if n == 0 then 1 else 2 * Pow2(n - 1)
  }

  function RetryDelay(attempts: nat): nat {
    Min(BACKOFF_CAP, Pow2(Min(attempts, 8)))
  }

  // Total time spent backing off after the attempts 1 .. k.
  function TotalDelay(k: nat): nat {
    if k == 0 then 0 else TotalDelay(k - 1) + RetryDelay(k)
  }

  lemma PowersOfTwo()
    ensures Pow2(0) == 1 && Pow2(1) == 2 && Pow2(2) == 4 && Pow2(3) == 8 && Pow2(4) == 16
    ensures Pow2(5) == 32 && Pow2(6) == 64 && Pow2(7) == 128 && Pow2(8) == 256
  {
  }

  lemma RetryDelayIsNeverCapped(k: nat)
    requires k >= 1
    ensures RetryDelay(k) == Pow2(Min(k, 8))
    ensures 2 <= RetryDelay(k) <= 256 < BACKOFF_CAP
    ensures k < 8 ==> RetryDelay(k + 1) == 2 * RetryDelay(k)
    ensures k >= 8 ==> RetryDelay(k) == 256
  {
    PowersOfTwo();
    assert k < 8 ==> k in {1, 2, 3, 4, 5, 6, 7};
  }

  lemma {:induction false} TotalDelayClosedForm(k: nat)
    requires k >= 8
    ensures TotalDelay(k) == 510 + 256 * (k - 8)
  {
    PowersOfTwo();
    if k > 8 {
      TotalDelayClosedForm(k - 1);
    }
  }

  // ---------- row updates ----------

  predicate Eligible(row: Row, now: nat) {
    (row.status == Pending || row.status == Publishing) && row.availableAt <= now
  }

  function NewRow(event: AuditEvent, createdAt: nat): Row {
    Row(event, Pending, 0, createdAt, createdAt, None, None)
  }

  function Claimed(row: Row, now: nat): Row {
    row.(status := Publishing, attempts := row.attempts + 1, availableAt := now + LEASE)
  }

  function Delivered(row: Row, now: nat): Row {
    row.(status := Published, publishedAt := Some(now), lastError := None)
  }

  // `attempts` is the count the worker read when it claimed, not the row's current count.
  function Failed(row: Row, attempts: nat, now: nat, error: string): Row {
    row.(status := if attempts < MAX_ATTEMPTS then Pending else Dead,
         availableAt := now + RetryDelay(attempts),
         lastError := Some(error[..Min(|error|, ERROR_LENGTH)]))
  }

  // ---------- which row a claim takes ----------

  // A row that this claim may take: eligible, and not locked by another transaction.
  predicate Claimable(rows: seq<Row>, r: nat, now: nat, locked: set<nat>) {
    r < |rows| && r !in locked && Eligible(rows[r], now)
  }

  predicate OldestAmong(rows: seq<Row>, r: nat, now: nat, locked: set<nat>, n: nat)
    requires n <= |rows|
  {
    && r < n && Claimable(rows, r, now, locked)
    && forall q: nat | q < n :: Claimable(rows, q, now, locked) ==> rows[r].createdAt <= rows[q].createdAt
  }

  lemma {:induction false} OldestExists(rows: seq<Row>, now: nat, locked: set<nat>, n: nat, some: nat)
    returns (best: nat)
    requires n <= |rows| && some < n && Claimable(rows, some, now, locked)
    ensures OldestAmong(rows, best, now, locked, n)
  {
    if r: nat :| r < n - 1 && Claimable(rows, r, now, locked) {
      best := OldestExists(rows, now, locked, n - 1, r);
      if Claimable(rows, n - 1, now, locked) && rows[n - 1].createdAt < rows[best].createdAt {
        best := n - 1;
      }
    } else {
      best := some;
    }
  }

  // ---------- the machine ----------

  // What a live worker remembers of its claim.
  datatype Hold = Hold(rec: nat, attempts: nat, claimedAt: nat)

  datatype Relay = Relay(now: nat, rows: seq<Row>, holds: map<nat, Hold>)

  datatype Step =
    | Tick(seconds: nat)
    | Enqueue(event: AuditEvent, createdAt: nat)
    | Claim(worker: nat, rec: nat)
    | SettlePublished(worker: nat)
    | SettleFailed(worker: nat, error: string)
    | Crash(worker: nat)

  const Initial := Relay(0, [], map[])

  predicate Enabled(s: Relay, step: Step) {
    match step
    case Tick(_) => true
    case Enqueue(_, createdAt) => createdAt <= s.now
    case Claim(w, r) => w !in s.holds && r < |s.rows| && Eligible(s.rows[r], s.now)
    case SettlePublished(w) => w in s.holds && s.holds[w].rec < |s.rows|
    case SettleFailed(w, _) => w in s.holds && s.holds[w].rec < |s.rows|
    case Crash(w) => w in s.holds
  }

  function Next(s: Relay, step: Step): Relay
    requires Enabled(s, step)
  {
    match step
    case Tick(d) => s.(now := s.now + d)
    case Enqueue(e, createdAt) => s.(rows := s.rows + [NewRow(e, createdAt)])
    case Claim(w, r) =>
      var row := Claimed(s.rows[r], s.now);
      s.(rows := s.rows[r := row], holds := s.holds[w := Hold(r, row.attempts, s.now)])
    case SettlePublished(w) =>
      var r := s.holds[w].rec;
      s.(rows := s.rows[r := Delivered(s.rows[r], s.now)], holds := s.holds - {w})
    case SettleFailed(w, error) =>
      var r := s.holds[w].rec;
      s.(rows := s.rows[r := Failed(s.rows[r], s.holds[w].attempts, s.now, error)],
         holds := s.holds - {w})
    case Crash(w) => s.(holds := s.holds - {w})
  }

  // The state a run of steps leads to, or None when some step was not enabled.
  function Replay(steps: seq<Step>): Option<Relay> {
    if steps == [] then Some(Initial)
    else
      match Replay(Front(steps))
      case None => None
      case Some(s) => if Enabled(s, Last(steps)) then Some(Next(s, Last(steps))) else None
  }

  predicate IsRun(steps: seq<Step>) {
    Replay(steps).Some?
  }

  function After(steps: seq<Step>): Relay
    requires IsRun(steps)
  {
    Replay(steps).value
  }

  lemma PrefixOfRun(steps: seq<Step>)
    requires IsRun(steps) && steps != []
    ensures IsRun(Front(steps)) && Enabled(After(Front(steps)), Last(steps))
    ensures After(steps) == Next(After(Front(steps)), Last(steps))
  {
  }

  // A prefix of a run is a run.
  lemma PrefixIsRun(steps: seq<Step>, k: nat)
    requires IsRun(steps) && k <= |steps|
    ensures IsRun(steps[..k])
    decreases |steps|
  {
    if k < |steps| {
      PrefixOfRun(steps);
      PrefixIsRun(Front(steps), k);
      assert Front(steps)[..k] == steps[..k];
    } else {
      assert steps[..k] == steps;
    }
  }

  // The state a run went through after its first k steps.
  function StateAt(steps: seq<Step>, k: nat): Relay
    requires IsRun(steps) && k <= |steps|
  {
    PrefixIsRun(steps, k);
    After(steps[..k])
  }

  // The machine lets an idle worker claim any eligible record, because the code may take any: it
  // takes an oldest one among those that other transactions do not hold locked at the moment.
  lemma ClaimsDependOnLocks(s: Relay, worker: nat, r: nat)
    requires worker !in s.holds
    ensures Enabled(s, Claim(worker, r)) <==> exists locked :: OldestAmong(s.rows, r, s.now, locked, |s.rows|)
  {
    if Enabled(s, Claim(worker, r)) {
      var others := set q: nat | q < |s.rows| && Claimable(s.rows, q, s.now, {}) && q != r;
      assert OldestAmong(s.rows, r, s.now, others, |s.rows|);
    }
  }

  // ---------- what every run keeps, leases respected or not ----------

  ghost predicate RowOk(row: Row, now: nat) {
    && row.createdAt <= now
    && (!row.Settled() ==> row.availableAt <= now + 300)
    && (row.status == Pending ==> row.availableAt <= now + 256)
    && (row.status == Dead ==> row.attempts >= MAX_ATTEMPTS)
    && (row.status != Pending ==> row.attempts >= 1)
  }

  ghost predicate HoldOk(s: Relay, h: Hold) {
    h.rec < |s.rows| && 1 <= h.attempts <= s.rows[h.rec].attempts && h.claimedAt <= s.now
  }

  ghost predicate Sound(s: Relay) {
    && (forall r | 0 <= r < |s.rows| :: RowOk(s.rows[r], s.now))
    && (forall w | w in s.holds :: HoldOk(s, s.holds[w]))
  }

  lemma SoundStep(s: Relay, step: Step)
    requires Sound(s) && Enabled(s, step)
    ensures Sound(Next(s, step))
  {
    var t := Next(s, step);
    if step.SettleFailed? {
      RetryDelayIsNeverCapped(s.holds[step.worker].attempts);
    }
    forall r | 0 <= r < |t.rows| ensures RowOk(t.rows[r], t.now) {
      if r < |s.rows| {
        assert RowOk(s.rows[r], s.now);
      }
    }
    forall w | w in t.holds ensures HoldOk(t, t.holds[w]) {
      if w in s.holds {
        assert HoldOk(s, s.holds[w]);
      }
    }
  }

  // Every unsettled record becomes eligible within 300 seconds, a pending one within 256, and a
  // record is only ever declared dead after twenty claims: with any number of workers and no assumption on leases.
  lemma {:induction false} EveryRunIsSound(steps: seq<Step>)
    requires IsRun(steps)
    ensures Sound(After(steps))
  {
    if steps != [] {
      PrefixOfRun(steps);
      EveryRunIsSound(Front(steps));
      SoundStep(After(Front(steps)), Last(steps));
    }
  }

  // ---------- what each step does to a row ----------

  // All that may differ between two rows of one record.
  predicate SameExcept(a: Row, b: Row) {
    a.event == b.event && a.createdAt == b.createdAt
  }

  lemma EnqueueExactly(s: Relay, event: AuditEvent, createdAt: nat)
    requires createdAt <= s.now
    ensures
      var t := Next(s, Enqueue(event, createdAt));
      && |t.rows| == |s.rows| + 1 && t.rows[..|s.rows|] == s.rows && t.holds == s.holds && t.now == s.now
      && t.rows[|s.rows|].event == event && t.rows[|s.rows|].attempts == 0
      && Eligible(t.rows[|s.rows|], s.now)
  {
  }

  // A claim leases the record to the worker for 300 seconds, and counts.
  lemma ClaimExactly(s: Relay, w: nat, r: nat)
    requires Enabled(s, Claim(w, r))
    ensures
      var t := Next(s, Claim(w, r));
      && |t.rows| == |s.rows| && (forall q | 0 <= q < |s.rows| && q != r :: t.rows[q] == s.rows[q])
      && SameExcept(s.rows[r], t.rows[r]) && t.rows[r].attempts == s.rows[r].attempts + 1
      && (forall time: nat :: Eligible(t.rows[r], time) <==> s.now + 300 <= time)
      && w in t.holds && t.holds[w].rec == r && t.holds[w].attempts == t.rows[r].attempts
  {
  }

  // A failure counts the attempts that the worker remembers: below twenty the record is retried
  // after 2^min(attempts, 8) seconds and not before, from twenty on it is dead.
  lemma FailureExactly(s: Relay, w: nat, error: string)
    requires Sound(s) && Enabled(s, SettleFailed(w, error))
    ensures
      var t := Next(s, SettleFailed(w, error));
      var r, attempts := s.holds[w].rec, s.holds[w].attempts;
      && |t.rows| == |s.rows| && (forall q | 0 <= q < |s.rows| && q != r :: t.rows[q] == s.rows[q])
      && SameExcept(s.rows[r], t.rows[r]) && t.rows[r].attempts == s.rows[r].attempts
      && t.rows[r].availableAt == s.now + Pow2(Min(attempts, 8))
      && (attempts < 20 <==> t.rows[r].status == Pending) && (attempts >= 20 <==> t.rows[r].status == Dead)
      && (forall time: nat ::
            Eligible(t.rows[r], time) <==> attempts < 20 && s.now + Pow2(Min(attempts, 8)) <= time)
      && t.rows[r].lastError == Some(error[..Min(|error|, 2000)])
      && w !in t.holds
  {
    RetryDelayIsNeverCapped(s.holds[w].attempts);
  }

  // A success publishes the record, dated now and with no error; nothing claims it again.
  lemma SuccessExactly(s: Relay, w: nat)
    requires Enabled(s, SettlePublished(w))
    ensures
      var t := Next(s, SettlePublished(w));
      var r := s.holds[w].rec;
      && |t.rows| == |s.rows| && (forall q | 0 <= q < |s.rows| && q != r :: t.rows[q] == s.rows[q])
      && SameExcept(s.rows[r], t.rows[r]) && t.rows[r].attempts == s.rows[r].attempts
      && t.rows[r].status == Published && t.rows[r].publishedAt == Some(s.now) && t.rows[r].lastError == None
      && (forall time: nat :: !Eligible(t.rows[r], time))
      && w !in t.holds
  {
  }

  // A crash changes no row: only the worker's memory is gone.
  lemma CrashExactly(s: Relay, w: nat)
    requires Enabled(s, Crash(w))
    ensures Next(s, Crash(w)).rows == s.rows && Next(s, Crash(w)).now == s.now
    ensures Next(s, Crash(w)).holds.Keys == s.holds.Keys - {w}
    ensures forall v | v in s.holds && v != w :: Next(s, Crash(w)).holds[v] == s.holds[v]
  {
  }

  function Claims(steps: seq<Step>, rec: nat): nat {
    if steps == [] then 0
    else Claims(Front(steps), rec) + if Last(steps).Claim? && Last(steps).rec == rec then 1 else 0
  }

  lemma {:induction false} NoClaimsBeforeEnqueue(steps: seq<Step>, rec: nat)
    requires IsRun(steps) && |After(steps).rows| <= rec
    ensures Claims(steps, rec) == 0
  {
    if steps != [] {
      PrefixOfRun(steps);
      NoClaimsBeforeEnqueue(Front(steps), rec);
    }
  }

  lemma {:induction false} AttemptsCountClaims(steps: seq<Step>, rec: nat)
    requires IsRun(steps) && rec < |After(steps).rows|
    ensures After(steps).rows[rec].attempts == Claims(steps, rec)
  {
    if steps != [] {
      PrefixOfRun(steps);
      if rec < |After(Front(steps)).rows| {
        AttemptsCountClaims(Front(steps), rec);
      } else {
        NoClaimsBeforeEnqueue(Front(steps), rec);
      }
    }
  }

  // No record is ever lost, and none has its event changed.
  lemma {:induction false} NothingIsLost(steps: seq<Step>, k: nat, rec: nat)
    requires IsRun(steps) && k <= |steps| && rec < |StateAt(steps, k).rows|
    ensures rec < |After(steps).rows|
    ensures After(steps).rows[rec].event == StateAt(steps, k).rows[rec].event
    ensures After(steps).rows[rec].createdAt == StateAt(steps, k).rows[rec].createdAt
    decreases |steps|
  {
    if k < |steps| {
      PrefixOfRun(steps);
      assert Front(steps)[..k] == steps[..k];
      NothingIsLost(Front(steps), k, rec);
      EveryRunIsSound(Front(steps));
    } else {
      assert steps[..k] == steps;
    }
  }
}
