/** The outbox table as the code updates it, and the relay's loop over it. */
module OutboxWorker {
  import opened Prelude
  import opened Events
  import opened Outbox
  import Leases

  class OutboxTable {
    var rows: seq<Row>

    constructor ()
      ensures rows == []
    {
      rows := [];
    }

    method EnqueueAudit(event: AuditEvent, now: nat)
      modifies this`rows
      ensures rows == old(rows) + [NewRow(event, now)]
    {
      rows := rows + [Row(event, Pending, 0, now, now, None, None)];
    }

    // Takes the oldest eligible row that no other transaction has locked.
    method ClaimOutbox(now: nat, locked: set<nat>) returns (claim: Option<nat>)
      modifies this`rows
      ensures claim.None? ==> rows == old(rows)
      ensures claim.None? ==> forall r: nat :: !Claimable(old(rows), r, now, locked)
      ensures claim.Some? ==>
        && OldestAmong(old(rows), claim.value, now, locked, |old(rows)|)
        && rows == old(rows)[claim.value := Claimed(old(rows)[claim.value], now)]
    {
      if exists r | 0 <= r < |rows| :: Claimable(rows, r, now, locked) {
        ghost var some: nat :| some < |rows| && Claimable(rows, some, now, locked);
        ghost var best := OldestExists(rows, now, locked, |rows|, some);
        var r: nat :| r < |rows| && OldestAmong(rows, r, now, locked, |rows|);
        var row := rows[r];
        row := row.(status := Publishing);
        row := row.(attempts := row.attempts + 1);
        row := row.(availableAt := now + LEASE);
        rows := rows[r := row];
        claim := Some(r);
      } else {
        claim := None;
      }
    }

    method MarkPublished(r: nat, now: nat)
      requires r < |rows|
      modifies this`rows
      ensures rows == old(rows)[r := Delivered(old(rows)[r], now)]
    {
      rows := rows[r := rows[r].(status := Published, publishedAt := Some(now), lastError := None)];
    }

    method MarkFailed(r: nat, attempts: nat, now: nat, error: string)
      requires r < |rows|
      modifies this`rows
      ensures rows == old(rows)[r := Failed(old(rows)[r], attempts, now, error)]
    {
      var row := rows[r];
      row := row.(status := if attempts < MAX_ATTEMPTS then Pending else Dead);
      row := row.(availableAt := now + Min(BACKOFF_CAP, Pow2(Min(attempts, 8))));
      row := row.(lastError := Some(error[..Min(|error|, ERROR_LENGTH)]));
      rows := rows[r := row];
    }
  }

  // ---------- how much work is left ----------

  function Remaining(row: Row): nat {
    if row.Settled() then 0 else Max(1, MAX_ATTEMPTS - row.attempts)
  }

  function Budget(rows: seq<Row>): nat {
    if rows == [] then 0 else Budget(Front(rows)) + Remaining(Last(rows))
  }

  lemma {:induction false} BudgetUpdate(rows: seq<Row>, r: nat, row: Row)
    requires r < |rows|
    ensures Budget(rows[r := row]) == Budget(rows) - Remaining(rows[r]) + Remaining(row)
  {
    if r == |rows| - 1 {
      assert Front(rows[r := row]) == Front(rows);
    } else {
      assert Front(rows[r := row]) == Front(rows)[r := row];
      BudgetUpdate(Front(rows), r, row);
    }
  }

  lemma {:induction false} BudgetIsTwentyEach(rows: seq<Row>)
    ensures Budget(rows) <= 20 * |rows|
  {
    if rows != [] {
      BudgetIsTwentyEach(Front(rows));
    }
  }

  // The latest time at which an unsettled row becomes eligible.
  function Horizon(rows: seq<Row>): nat {
    if rows == [] then 0
    else Max(Horizon(Front(rows)), if Last(rows).Settled() then 0 else Last(rows).availableAt)
  }

  lemma {:induction false} HorizonBounds(rows: seq<Row>, r: nat)
    requires r < |rows| && !rows[r].Settled()
    ensures rows[r].availableAt <= Horizon(rows)
  {
    if r < |rows| - 1 {
      HorizonBounds(Front(rows), r);
    }
  }

  // ---------- the relay loop ----------

  // How one publication went: whether it succeeded, how long it took, and the error if not.
  datatype Outcome = Outcome(delivered: bool, took: nat, error: string)

  // A row after one claim and its settlement.
  function Attempted(row: Row, now: nat, outcome: Outcome): Row {
    if outcome.delivered then Delivered(Claimed(row, now), now + outcome.took)
    else Failed(Claimed(row, now), row.attempts + 1, now + outcome.took, outcome.error)
  }

  lemma AttemptSpendsBudget(rows: seq<Row>, r: nat, now: nat, outcome: Outcome)
    requires r < |rows| && Eligible(rows[r], now)
    ensures Budget(rows[r := Attempted(rows[r], now, outcome)]) < Budget(rows)
    ensures Leases.TotalAttempts(rows[r := Attempted(rows[r], now, outcome)]) == Leases.TotalAttempts(rows) + 1
  {
    BudgetUpdate(rows, r, Attempted(rows[r], now, outcome));
    Leases.TotalAttemptsUpdate(rows, r, Attempted(rows[r], now, outcome));
  }

  // One turn of the loop: claim, publish, settle; or sleep a second when nothing is eligible.
  method Turn(table: OutboxTable, now: nat, outcome: Outcome) returns (claim: Option<nat>, later: nat)
    modifies table`rows
    ensures claim.None? ==>
      && table.rows == old(table.rows) && later == now + 1
      && forall r: nat | r < |table.rows| :: !Eligible(table.rows[r], now)
    ensures claim.Some? ==>
      && later == now + outcome.took
      && OldestAmong(old(table.rows), claim.value, now, {}, |old(table.rows)|)
      && table.rows == old(table.rows)[claim.value := Attempted(old(table.rows)[claim.value], now, outcome)]
  {
    claim := table.ClaimOutbox(now, {});
    if claim.None? {
      forall r: nat | r < |table.rows| ensures !Eligible(table.rows[r], now) {
        assert !Claimable(table.rows, r, now, {});
      }
      later := now + 1;
    } else {
      var r := claim.value;
      later := now + outcome.took;
      if outcome.delivered {
        table.MarkPublished(r, later);
      } else {
        table.MarkFailed(r, table.rows[r].attempts, later, outcome.error);
      }
    }
  }

  function Settlement(worker: nat, outcome: Outcome): Step {
    if outcome.delivered then SettlePublished(worker) else SettleFailed(worker, outcome.error)
  }

  // A turn that finds a record is three steps of the relay protocol: the claim, the time the
  // publication takes, and the settlement.
  lemma TurnIsThreeSteps(before: seq<Step>, worker: nat, r: nat, outcome: Outcome)
    requires IsRun(before) && worker !in After(before).holds
    requires r < |After(before).rows| && Eligible(After(before).rows[r], After(before).now)
    ensures
      var s := After(before);
      var steps := before + [Claim(worker, r)] + [Tick(outcome.took)] + [Settlement(worker, outcome)];
      IsRun(steps) && After(steps)
        == Relay(s.now + outcome.took, s.rows[r := Attempted(s.rows[r], s.now, outcome)], s.holds)
  {
    var s := After(before);
    Leases.ExtendRun(before, Claim(worker, r));
    var claimed := before + [Claim(worker, r)];
    Leases.ExtendRun(claimed, Tick(outcome.took));
    var waited := claimed + [Tick(outcome.took)];
    Leases.ExtendRun(waited, Settlement(worker, outcome));
    var steps := waited + [Settlement(worker, outcome)];
    assert After(steps).holds == s.holds;
    assert After(steps).rows == s.rows[r := Attempted(s.rows[r], s.now, outcome)];
  }

  ghost predicate AllSettled(rows: seq<Row>) {
    forall r | 0 <= r < |rows| :: rows[r].Settled()
  }

  ghost predicate Kept(was: Row, row: Row) {
    && row.event == was.event
    && (was.Settled() ==> row == was)
  }

  // What became of a row under publications that all succeed.
  ghost predicate SettledOnce(was: Row, row: Row) {
    if was.Settled() || !row.Settled() then row == was
    else row.status == Published && row.attempts == was.attempts + 1
  }

  lemma AttemptKeeps(was: seq<Row>, rows: seq<Row>, r: nat, now: nat, outcome: Outcome)
    requires |rows| == |was| && (forall q | 0 <= q < |rows| :: Kept(was[q], rows[q]))
    requires r < |rows| && Eligible(rows[r], now)
    ensures
      var after := rows[r := Attempted(rows[r], now, outcome)];
      && (forall q | 0 <= q < |rows| :: Kept(was[q], after[q]))
      && (outcome.delivered && (forall q | 0 <= q < |rows| :: SettledOnce(was[q], rows[q]))
          ==> forall q | 0 <= q < |rows| :: SettledOnce(was[q], after[q]))
  {
  }

  // The loop of a lone relay until the outbox has drained.  `publish(i)` is the outcome of the
  // i-th publication.  Whatever the outcomes, the loop drains the table, keeps every event, and
  // makes at most 20 claims a record; when all succeed, one claim each.
  method Run(table: OutboxTable, start: nat, publish: nat -> Outcome) returns (claims: nat, now: nat)
    modifies table`rows
    ensures AllSettled(table.rows)
    ensures |table.rows| == |old(table.rows)|
    ensures forall r | 0 <= r < |table.rows| :: Kept(old(table.rows)[r], table.rows[r])
    ensures claims <= Budget(old(table.rows)) <= 20 * |old(table.rows)|
    ensures claims == Leases.TotalAttempts(table.rows) - Leases.TotalAttempts(old(table.rows))
    ensures (forall i :: publish(i).delivered) ==>
              forall r | 0 <= r < |table.rows| :: SettledOnce(old(table.rows)[r], table.rows[r])
  {
    BudgetIsTwentyEach(table.rows);
    claims, now := 0, start;
    while exists r | 0 <= r < |table.rows| :: !table.rows[r].Settled()
      invariant |table.rows| == |old(table.rows)|
      invariant forall r | 0 <= r < |table.rows| :: Kept(old(table.rows)[r], table.rows[r])
      invariant claims + Budget(table.rows) <= Budget(old(table.rows))
      invariant claims == Leases.TotalAttempts(table.rows) - Leases.TotalAttempts(old(table.rows))
      invariant (forall i :: publish(i).delivered) ==>
                  forall r | 0 <= r < |table.rows| :: SettledOnce(old(table.rows)[r], table.rows[r])
      decreases Budget(table.rows), Horizon(table.rows) - now
    {
      ghost var before, at := table.rows, now;
      ghost var r: nat :| r < |before| && !before[r].Settled();
      var outcome := publish(claims);
      var claim;
      claim, now := Turn(table, now, outcome);
      if claim.Some? {
        AttemptSpendsBudget(before, claim.value, at, outcome);
        AttemptKeeps(old(table.rows), before, claim.value, at, outcome);
        claims := claims + 1;
      } else {
        HorizonBounds(before, r);
      }
    }
  }
}
