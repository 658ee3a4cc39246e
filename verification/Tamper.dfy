/** What re-verifying the hash chain detects, and that the chain can fork. */
module Tamper {
  import opened Prelude
  import opened Events
  import opened Ledger

  // ---------- verification of a linear chain ----------

  ghost predicate VerifiesAt(h: Hash, chain: seq<AuditRow>, i: nat)
    requires i < |chain|
  {
    && chain[i].recordHash == h(CanonicalOf(chain[i]))
    && chain[i].previousHash == if i == 0 then None else Some(chain[i - 1].recordHash)
  }

  ghost predicate Verifies(h: Hash, chain: seq<AuditRow>) {
    forall i: nat | i < |chain| :: VerifiesAt(h, chain, i)
  }

  lemma AppendVerifies(h: Hash, chain: seq<AuditRow>, row: AuditRow)
    requires Verifies(h, chain) && row.recordHash == h(CanonicalOf(row))
    requires row.previousHash == if chain == [] then None else Some(Last(chain).recordHash)
    ensures Verifies(h, chain + [row])
  {
    forall i: nat | i < |chain| + 1 ensures VerifiesAt(h, chain + [row], i) {
      if i < |chain| {
        assert VerifiesAt(h, chain, i);
      }
    }
  }

  lemma FrontVerifies(h: Hash, chain: seq<AuditRow>)
    requires Verifies(h, chain) && chain != []
    ensures Verifies(h, Front(chain))
  {
    forall i: nat | i < |chain| - 1 ensures VerifiesAt(h, Front(chain), i) {
      assert VerifiesAt(h, chain, i);
    }
  }

  function TenantRows(log: seq<AuditRow>, tenant: Id): seq<AuditRow> {
    if log == [] then []
    else TenantRows(Front(log), tenant) + if Last(log).facts.tenant == tenant then [Last(log)] else []
  }

  lemma {:induction false} LastTenantRow(log: seq<AuditRow>, tenant: Id, n: nat)
    requires n <= |log|
    ensures TenantRows(log[..n], tenant) == [] ==> forall k: nat :: k < n ==> !OfTenant(log, tenant, k)
    ensures TenantRows(log[..n], tenant) != [] ==>
      exists i: nat :: i < n && OfTenant(log, tenant, i) && Last(TenantRows(log[..n], tenant)) == log[i]
        && forall k: nat :: i < k < n ==> !OfTenant(log, tenant, k)
  {
    if n > 0 {
      LastTenantRow(log, tenant, n - 1);
      assert Front(log[..n]) == log[..n - 1];
    }
  }

  lemma RowLinksToLastTenantRow(h: Hash, log: seq<AuditRow>, tenant: Id, n: nat)
    requires Injective(h) && WellLinked(h, log) && Linear(log, tenant) && OfTenant(log, tenant, n)
    ensures
      var chain := TenantRows(log[..n], tenant);
      log[n].previousHash == if chain == [] then None else Some(Last(chain).recordHash)
  {
    LastTenantRow(log, tenant, n);
    var chain := TenantRows(log[..n], tenant);
    if chain == [] {
      forall k | 0 <= k < n ensures log[k].facts.tenant != tenant {
        assert !OfTenant(log, tenant, k);
      }
      assert FirstOfTenant(log, n);
      LinksNameEarlierRows(h, log, n);
    } else {
      var i: nat :| i < n && OfTenant(log, tenant, i) && Last(chain) == log[i]
        && forall k: nat :: i < k < n ==> !OfTenant(log, tenant, k);
      forall k | i < k < n ensures log[k].facts.tenant != tenant {
        assert !OfTenant(log, tenant, k);
      }
      assert Adjacent(log, tenant, i, n);
    }
  }

  lemma {:induction false} PrefixVerifies(h: Hash, log: seq<AuditRow>, tenant: Id, n: nat)
    requires Injective(h) && WellLinked(h, log) && Linear(log, tenant) && n <= |log|
    ensures Verifies(h, TenantRows(log[..n], tenant))
  {
    if n > 0 {
      PrefixVerifies(h, log, tenant, n - 1);
      assert Front(log[..n]) == log[..n - 1] && Last(log[..n]) == log[n - 1];
      if log[n - 1].facts.tenant == tenant {
        assert RowLinked(h, log, n - 1);
        RowLinksToLastTenantRow(h, log, tenant, n - 1);
        AppendVerifies(h, TenantRows(log[..n - 1], tenant), log[n - 1]);
      } else {
        assert TenantRows(log[..n], tenant) == TenantRows(log[..n - 1], tenant);
      }
    }
  }

  // A linear ledger passes verification.
  lemma LinearLedgerVerifies(h: Hash, log: seq<AuditRow>, tenant: Id)
    requires Injective(h) && WellLinked(h, log) && Linear(log, tenant)
    ensures Verifies(h, TenantRows(log, tenant))
  {
    PrefixVerifies(h, log, tenant, |log|);
    assert log[..|log|] == log;
  }

  // The last hash pins the whole chain.
  lemma {:induction false} LastHashPinsChain(h: Hash, a: seq<AuditRow>, b: seq<AuditRow>)
    requires Injective(h) && Verifies(h, a) && Verifies(h, b)
    requires a != [] && b != [] && Last(a).recordHash == Last(b).recordHash
    ensures |a| == |b|
    ensures forall i :: 0 <= i < |a| ==> CanonicalOf(a[i]) == CanonicalOf(b[i]) && a[i].recordHash == b[i].recordHash
  {
    assert VerifiesAt(h, a, |a| - 1) && VerifiesAt(h, b, |b| - 1);
    assert CanonicalOf(Last(a)) == CanonicalOf(Last(b));
    if |a| > 1 && |b| > 1 {
      FrontVerifies(h, a);
      FrontVerifies(h, b);
      LastHashPinsChain(h, Front(a), Front(b));
    }
  }

  // Replacing one record's hashed content goes unnoticed only at the very end of the chain, and
  // only when the record's own hash is recomputed over an unchanged link.
  lemma AlterationVerifiesExactly(h: Hash, chain: seq<AuditRow>, i: nat, forged: AuditRow)
    requires Injective(h) && Verifies(h, chain) && i < |chain|
    requires CanonicalOf(forged) != CanonicalOf(chain[i])
    ensures Verifies(h, chain[i := forged]) <==>
      && i == |chain| - 1
      && forged.previousHash == chain[i].previousHash
      && forged.recordHash == h(CanonicalOf(forged))
  {
    var altered := chain[i := forged];
    assert VerifiesAt(h, chain, i);
    if i < |chain| - 1 {
      assert VerifiesAt(h, chain, i + 1);
      assert !(VerifiesAt(h, altered, i) && VerifiesAt(h, altered, i + 1));
    }
    if Verifies(h, altered) {
      assert VerifiesAt(h, altered, i);
    } else {
      var k: nat :| k < |altered| && !VerifiesAt(h, altered, k);
      assert VerifiesAt(h, chain, k);
    }
  }

  // With its stored hash left alone, a record altered in any hashed field, its link included,
  // always fails verification.
  lemma AlteredFieldIsDetected(h: Hash, chain: seq<AuditRow>, i: nat, facts: Facts, previousHash: Option<Digest>)
    requires Injective(h) && Verifies(h, chain) && i < |chain|
    requires facts != chain[i].facts || previousHash != chain[i].previousHash
    ensures !Verifies(h, chain[i := chain[i].(facts := facts, previousHash := previousHash)])
  {
    assert VerifiesAt(h, chain, i);
    AlterationVerifiesExactly(h, chain, i, chain[i].(facts := facts, previousHash := previousHash));
  }

  // The ingest time and the row id are outside the hash: changing them is never noticed,
  // although they decide which record the next one is linked to.
  lemma IngestTimeIsNotCovered(h: Hash, chain: seq<AuditRow>, i: nat, id: Id, ingestedAt: nat)
    requires i < |chain|
    ensures Verifies(h, chain[i := chain[i].(id := id, ingestedAt := ingestedAt)]) <==> Verifies(h, chain)
  {
    var altered := chain[i := chain[i].(id := id, ingestedAt := ingestedAt)];
    assert forall k: nat | k < |chain| :: VerifiesAt(h, altered, k) <==> VerifiesAt(h, chain, k);
    if Verifies(h, altered) {
      forall k: nat | k < |chain| ensures VerifiesAt(h, chain, k) {
        assert VerifiesAt(h, altered, k);
      }
    }
  }

  // ---------- the general, possibly forked, ledger ----------

  // The hashed documents from the tenant's root down to row i.
  function Lineage(log: seq<AuditRow>, i: nat): seq<Canonical>
    requires i < |log|
    decreases i
  {
    match Parent(log, i)
    case None => [CanonicalOf(log[i])]
    case Some(p) => Lineage(log, p) + [CanonicalOf(log[i])]
  }

  // It begins with a document that has no predecessor, each further one names the hash of the one
  // before, and the last is row i's.
  lemma {:induction false} LineageIsLinked(h: Hash, log: seq<AuditRow>, i: nat)
    requires Injective(h) && WellLinked(h, log) && i < |log|
    ensures
      var chain := Lineage(log, i);
      && chain != [] && Last(chain) == CanonicalOf(log[i]) && chain[0].previousHash == None
      && forall k | 1 <= k < |chain| :: chain[k].previousHash == Some(h(chain[k - 1]))
    decreases i
  {
    LinksNameEarlierRows(h, log, i);
    match Parent(log, i)
    case None =>
    case Some(p) =>
      LineageIsLinked(h, log, p);
      assert RowLinked(h, log, p);
  }

  // In any two sound ledgers, equal record hashes mean equal histories.
  lemma {:induction false} HashPinsLineage(h: Hash, a: seq<AuditRow>, i: nat, b: seq<AuditRow>, j: nat)
    requires Injective(h) && WellLinked(h, a) && WellLinked(h, b) && i < |a| && j < |b|
    requires a[i].recordHash == b[j].recordHash
    ensures Lineage(a, i) == Lineage(b, j)
    decreases i
  {
    assert RowLinked(h, a, i) && RowLinked(h, b, j);
    assert CanonicalOf(a[i]) == CanonicalOf(b[j]);
    LinksNameEarlierRows(h, a, i);
    LinksNameEarlierRows(h, b, j);
    if Parent(a, i).Some? {
      HashPinsLineage(h, a, Parent(a, i).value, b, Parent(b, j).value);
    }
  }

  // ---------- overlapping ingests fork the chain ----------

  // Two transactions of one tenant take the lock in the opposite order to their start times;
  // a third then links to the same predecessor as the first.
  lemma OverlapForksChain(c: Config, first: AuditEvent, second: AuditEvent, third: AuditEvent)
    returns (steps: seq<Step>)
    requires first.facts.tenant == second.facts.tenant == third.facts.tenant
    requires first.facts.eventId != second.facts.eventId
    requires third.facts.eventId != first.facts.eventId && third.facts.eventId != second.facts.eventId
    ensures IsRun(c, steps)
    ensures
      var log := After(c, steps).log;
      && |log| == 3
      && log[1].previousHash == Some(log[0].recordHash)
      && log[2].previousHash == Some(log[0].recordHash)
      && (Injective(c.h) ==> !Linear(log, first.facts.tenant))
  {
    var both := OpenBoth(c, first, second);
    var one := RunToCommit(c, both, 2, 12);
    var two := RunToCommit(c, one, 1, 11);
    ExtendRun(c, two, Begin(3, third, 3));
    var three := two + [Begin(3, third, 3)];
    ExtendRun(c, three, MissExisting(3));
    steps := RunToCommit(c, three + [MissExisting(3)], 3, 13);
    assert Adjacent(After(c, steps).log, first.facts.tenant, 1, 2);
  }

  lemma OpenBoth(c: Config, first: AuditEvent, second: AuditEvent) returns (steps: seq<Step>)
    ensures IsRun(c, steps)
    ensures After(c, steps) == State([], map[1 := Txn(first, 1, Missed), 2 := Txn(second, 2, Missed)])
  {
    var none: seq<Step> := [];
    ExtendRun(c, none, Begin(1, first, 1));
    ExtendRun(c, none + [Begin(1, first, 1)], Begin(2, second, 2));
    var both := none + [Begin(1, first, 1)] + [Begin(2, second, 2)];
    ExtendRun(c, both, MissExisting(1));
    ExtendRun(c, both + [MissExisting(1)], MissExisting(2));
    steps := both + [MissExisting(1)] + [MissExisting(2)];
  }

  // Without overlap the line can still break: of three ingests the first two start at the same
  // instant, the second of them gets the smaller id, and the third links past it.
  lemma TieBreaksLine(c: Config, first: AuditEvent, second: AuditEvent, third: AuditEvent)
    returns (steps: seq<Step>)
    requires Injective(c.h)
    requires first.facts.tenant == second.facts.tenant == third.facts.tenant
    requires first.facts.eventId != second.facts.eventId
    requires third.facts.eventId != first.facts.eventId && third.facts.eventId != second.facts.eventId
    ensures IsRun(c, steps) && Serial(c, steps, first.facts.tenant)
    ensures !Linear(After(c, steps).log, first.facts.tenant)
  {
    var none: seq<Step> := [];
    var one := RunAlone(c, none, first, 1, 12, 1);
    var two := RunAlone(c, one, second, 2, 11, 1);
    steps := RunAlone(c, two, third, 3, 13, 2);
    var log := After(c, steps).log;
    assert |log| == 3 && log[2].previousHash == Some(log[0].recordHash);
    assert Adjacent(log, first.facts.tenant, 1, 2);
    assert CanonicalOf(log[0]) != CanonicalOf(log[1]);
  }

  // One ingest from start to finish with no other open.
  lemma RunAlone(c: Config, before: seq<Step>, event: AuditEvent, x: nat, id: Id, start: nat)
    returns (steps: seq<Step>)
    requires IsRun(c, before) && Serial(c, before, event.facts.tenant) && After(c, before).txns == map[]
    requires !Recorded(After(c, before).log, event.facts)
    requires forall i | 0 <= i < |After(c, before).log| ::
               After(c, before).log[i].id != id && After(c, before).log[i].ingestedAt <= start
    ensures IsRun(c, steps) && Serial(c, steps, event.facts.tenant)
    ensures
      var log := After(c, before).log;
      After(c, steps) == State(
        log + [LinkedRow(c.h, id, event.facts, start, TailHash(log, event.facts.tenant))], map[])
  {
    ExtendSerial(c, before, Begin(x, event, start), event.facts.tenant);
    var begun := before + [Begin(x, event, start)];
    ExtendSerial(c, begun, MissExisting(x), event.facts.tenant);
    steps := RunToCommit(c, begun + [MissExisting(x)], x, id);
  }

  lemma ExtendSerial(c: Config, steps: seq<Step>, step: Step, tenant: Id)
    requires IsRun(c, steps) && Enabled(c, After(c, steps), step) && Serial(c, steps, tenant)
    requires step.Begin? && step.event.facts.tenant == tenant ==>
      var s := After(c, steps);
      && (forall x :: x in s.txns ==> s.txns[x].event.facts.tenant != tenant)
      && (forall i :: 0 <= i < |s.log| && s.log[i].facts.tenant == tenant ==> s.log[i].ingestedAt <= step.start)
    ensures IsRun(c, steps + [step]) && Serial(c, steps + [step], tenant)
    ensures After(c, steps + [step]) == Next(c, After(c, steps), step)
  {
    ExtendRun(c, steps, step);
    assert Front(steps + [step]) == steps;
  }

  lemma RunToCommit(c: Config, before: seq<Step>, x: nat, id: Id) returns (steps: seq<Step>)
    requires IsRun(c, before)
    requires
      var s := After(c, before);
      && x in s.txns && s.txns[x].stage == Missed
      && (forall y | y in s.txns :: !s.txns[y].HoldsLock())
      && (forall i | 0 <= i < |s.log| :: s.log[i].id != id && !SameKey(s.log[i].facts, s.txns[x].event.facts))
    ensures IsRun(c, steps)
    ensures
      var s := After(c, before);
      var t := s.txns[x];
      After(c, steps) == State(
        s.log + [LinkedRow(c.h, id, t.event.facts, t.start, TailHash(s.log, t.event.facts.tenant))],
        s.txns - {x})
    ensures forall tenant | Serial(c, before, tenant) :: Serial(c, steps, tenant)
  {
    ExtendRun(c, before, TakeLock(x));
    var locked := before + [TakeLock(x)];
    ExtendRun(c, locked, ReadPrevious(x));
    ExtendRun(c, locked + [ReadPrevious(x)], Commit(x, id));
    forall tenant | Serial(c, before, tenant) ensures Serial(c, locked + [ReadPrevious(x)] + [Commit(x, id)], tenant) {
      ExtendSerial(c, before, TakeLock(x), tenant);
      ExtendSerial(c, locked, ReadPrevious(x), tenant);
      ExtendSerial(c, locked + [ReadPrevious(x)], Commit(x, id), tenant);
    }
    steps := locked + [ReadPrevious(x)] + [Commit(x, id)];
    var s := After(c, before);
    assert After(c, steps).txns == s.txns - {x};
  }
}
