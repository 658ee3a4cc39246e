/**
 The audit ledger: ingest transactions that interleave under read-committed isolation, a
 per-tenant advisory lock, and records whose hash covers the predecessor's hash.

 The hash is a parameter `h`; it is assumed injective only where a lemma says so.  A record's
 `ingestedAt` is its transaction's start time, so the record chosen as predecessor need not be
 the last one committed.
 */
module Ledger {
  import opened Prelude
  import opened Events

  type Digest = string

  // The document that is hashed.
  datatype Canonical = Canonical(facts: Facts, previousHash: Option<Digest>)

  datatype AuditRow = AuditRow(
    id: Id,
    facts: Facts,
    ingestedAt: nat,
    previousHash: Option<Digest>,
    recordHash: Digest)

  type Hash = Canonical -> Digest

  ghost predicate Injective(h: Hash) {
    forall a, b :: h(a) == h(b) ==> a == b
  }

  function CanonicalOf(row: AuditRow): Canonical {
    Canonical(row.facts, row.previousHash)
  }

  function LinkedRow(h: Hash, id: Id, facts: Facts, start: nat, previousHash: Option<Digest>): AuditRow {
    AuditRow(id, facts, start, previousHash, h(Canonical(facts, previousHash)))
  }

  predicate Recorded(log: seq<AuditRow>, facts: Facts) {
    exists i :: 0 <= i < |log| && log[i].facts.tenant == facts.tenant && log[i].facts.eventId == facts.eventId
  }

  // The unique key of the ledger table: tenant, event and time of occurrence.
  predicate SameKey(a: Facts, b: Facts) {
    a.tenant == b.tenant && a.eventId == b.eventId && a.occurredAt == b.occurredAt
  }

  // ---------- the predecessor query ----------

  // Descending order by (ingestedAt, id).
  predicate Later(a: AuditRow, b: AuditRow) {
    a.ingestedAt > b.ingestedAt || (a.ingestedAt == b.ingestedAt && a.id > b.id)
  }

  // Position of the tenant's first row in that order.
  function Tail(log: seq<AuditRow>, tenant: Id): (r: Option<nat>)
    ensures r.Some? ==> r.value < |log| && log[r.value].facts.tenant == tenant
  {
    if log == [] then None
    else
      var n := |log| - 1;
      var best := Tail(log[..n], tenant);
      if log[n].facts.tenant == tenant && (best.None? || Later(log[n], log[best.value])) then Some(n) else best
  }

  function TailHash(log: seq<AuditRow>, tenant: Id): Option<Digest> {
    match Tail(log, tenant)
    case None => None
    case Some(i) => Some(log[i].recordHash)
  }

  ghost predicate DistinctIds(log: seq<AuditRow>) {
    forall i, j :: 0 <= i < j < |log| ==> log[i].id != log[j].id
  }

  lemma {:induction false} TailIsLatest(log: seq<AuditRow>, tenant: Id)
    requires DistinctIds(log)
    ensures Tail(log, tenant).None? <==> forall i :: 0 <= i < |log| ==> log[i].facts.tenant != tenant
    ensures Tail(log, tenant).Some? ==>
      var k := Tail(log, tenant).value;
      forall i :: 0 <= i < |log| && i != k && log[i].facts.tenant == tenant ==> Later(log[k], log[i])
  {
    if log != [] {
      var n := |log| - 1;
      var front := log[..n];
      TailIsLatest(front, tenant);
      assert forall i :: 0 <= i < n ==> log[i] == front[i];
    }
  }

  // ---------- ingest transactions ----------

  datatype Stage = Begun | Missed | Locked | Linked(previousHash: Option<Digest>)

  datatype Txn = Txn(event: AuditEvent, start: nat, stage: Stage)
  {
    predicate HoldsLock() {
      stage == Locked || stage.Linked?
    }
  }

  datatype State = State(log: seq<AuditRow>, txns: map<nat, Txn>)

  datatype Step =
    | Begin(txn: nat, event: AuditEvent, start: nat)
    | FindExisting(txn: nat)
    | MissExisting(txn: nat)
    | TakeLock(txn: nat)
    | ReadPrevious(txn: nat)
    | Commit(txn: nat, id: Id)
    | Abort(txn: nat)

  // `lockOf` is the integer hash that names a tenant's advisory lock; tenants may share one.
  datatype Config = Config(h: Hash, lockOf: Id -> int)

  const Initial := State([], map[])

  predicate Enabled(c: Config, s: State, step: Step) {
    match step
    case Begin(x, _, _) => x !in s.txns
    case FindExisting(x) =>
      x in s.txns && s.txns[x].stage == Begun && Recorded(s.log, s.txns[x].event.facts)
    case MissExisting(x) =>
      x in s.txns && s.txns[x].stage == Begun && !Recorded(s.log, s.txns[x].event.facts)
    case TakeLock(x) =>
      && x in s.txns && s.txns[x].stage == Missed
      && (forall y :: y in s.txns && s.txns[y].HoldsLock()
            ==> c.lockOf(s.txns[y].event.facts.tenant) != c.lockOf(s.txns[x].event.facts.tenant))
    case ReadPrevious(x) => x in s.txns && s.txns[x].stage == Locked
    case Commit(x, id) =>
      && x in s.txns && s.txns[x].stage.Linked?
      && (forall i :: 0 <= i < |s.log| ==> s.log[i].id != id && !SameKey(s.log[i].facts, s.txns[x].event.facts))
    case Abort(x) => x in s.txns
  }

  function Next(c: Config, s: State, step: Step): State
    requires Enabled(c, s, step)
  {
    match step
    case Begin(x, e, start) => s.(txns := s.txns[x := Txn(e, start, Begun)])
    case FindExisting(x) => s.(txns := s.txns - {x})
    case MissExisting(x) => s.(txns := s.txns[x := s.txns[x].(stage := Missed)])
    case TakeLock(x) => s.(txns := s.txns[x := s.txns[x].(stage := Locked)])
    case ReadPrevious(x) =>
      var previous := TailHash(s.log, s.txns[x].event.facts.tenant);
      s.(txns := s.txns[x := s.txns[x].(stage := Linked(previous))])
    case Commit(x, id) =>
      var t := s.txns[x];
      State(s.log + [LinkedRow(c.h, id, t.event.facts, t.start, t.stage.previousHash)], s.txns - {x})
    case Abort(x) => s.(txns := s.txns - {x})
  }

  function Replay(c: Config, steps: seq<Step>): Option<State> {
    if steps == [] then Some(Initial)
    else
      match Replay(c, Front(steps))
      case None => None
      case Some(s) => if Enabled(c, s, Last(steps)) then Some(Next(c, s, Last(steps))) else None
  }

  predicate IsRun(c: Config, steps: seq<Step>) {
    Replay(c, steps).Some?
  }

  function After(c: Config, steps: seq<Step>): State
    requires IsRun(c, steps)
  {
    Replay(c, steps).value
  }

  lemma PrefixOfRun(c: Config, steps: seq<Step>)
    requires IsRun(c, steps) && steps != []
    ensures IsRun(c, Front(steps)) && Enabled(c, After(c, Front(steps)), Last(steps))
    ensures After(c, steps) == Next(c, After(c, Front(steps)), Last(steps))
  {
  }

  lemma ExtendRun(c: Config, steps: seq<Step>, step: Step)
    requires IsRun(c, steps) && Enabled(c, After(c, steps), step)
    ensures IsRun(c, steps + [step]) && After(c, steps + [step]) == Next(c, After(c, steps), step)
  {
    assert Front(steps + [step]) == steps;
  }

  // ---------- what every interleaving keeps ----------

  ghost predicate RowLinked(h: Hash, log: seq<AuditRow>, i: nat)
    requires i < |log|
  {
    && log[i].recordHash == h(CanonicalOf(log[i]))
    && log[i].previousHash == TailHash(log[..i], log[i].facts.tenant)
  }

  // Every record was linked to the latest record of its tenant among those committed before it.
  ghost predicate WellLinked(h: Hash, log: seq<AuditRow>) {
    && DistinctIds(log)
    && (forall i, j :: 0 <= i < j < |log| ==> !SameKey(log[i].facts, log[j].facts))
    && (forall i: nat | i < |log| :: RowLinked(h, log, i))
  }

  ghost predicate LocksExclusive(c: Config, s: State) {
    forall x, y :: x in s.txns && y in s.txns && x != y && s.txns[x].HoldsLock() && s.txns[y].HoldsLock()
      ==> c.lockOf(s.txns[x].event.facts.tenant) != c.lockOf(s.txns[y].event.facts.tenant)
  }

  // What a transaction read under the lock is still the latest record when it commits.
  ghost predicate ReadsStillCurrent(s: State) {
    forall x :: x in s.txns && s.txns[x].stage.Linked?
      ==> s.txns[x].stage.previousHash == TailHash(s.log, s.txns[x].event.facts.tenant)
  }

  ghost predicate Sound(c: Config, s: State) {
    WellLinked(c.h, s.log) && LocksExclusive(c, s) && ReadsStillCurrent(s)
  }

  lemma AppendKeepsOtherTails(log: seq<AuditRow>, row: AuditRow, tenant: Id)
    requires row.facts.tenant != tenant && DistinctIds(log)
    ensures TailHash(log + [row], tenant) == TailHash(log, tenant)
  {
    assert (log + [row])[..|log|] == log;
    TailIsLatest(log, tenant);
  }

  lemma AppendKeepsLinks(h: Hash, log: seq<AuditRow>, row: AuditRow)
    requires WellLinked(h, log)
    requires forall i :: 0 <= i < |log| ==> log[i].id != row.id && !SameKey(log[i].facts, row.facts)
    requires row.recordHash == h(CanonicalOf(row)) && row.previousHash == TailHash(log, row.facts.tenant)
    ensures WellLinked(h, log + [row])
  {
    var longer := log + [row];
    forall i: nat | i < |longer| ensures RowLinked(h, longer, i) {
      if i < |log| {
        assert RowLinked(h, log, i);
        assert longer[..i] == log[..i];
      } else {
        assert longer[..i] == log;
      }
    }
  }

  lemma SoundStep(c: Config, s: State, step: Step)
    requires Sound(c, s) && Enabled(c, s, step)
    ensures Sound(c, Next(c, s, step))
  {
    var t := Next(c, s, step);
    if step.Commit? {
      var row := Last(t.log);
      AppendKeepsLinks(c.h, s.log, row);
      forall y | y in t.txns && t.txns[y].stage.Linked?
        ensures t.txns[y].stage.previousHash == TailHash(t.log, t.txns[y].event.facts.tenant)
      {
        assert s.txns[y].HoldsLock() && s.txns[step.txn].HoldsLock();
        AppendKeepsOtherTails(s.log, row, t.txns[y].event.facts.tenant);
      }
    }
  }

  lemma {:induction false} EveryRunIsSound(c: Config, steps: seq<Step>)
    requires IsRun(c, steps)
    ensures Sound(c, After(c, steps))
  {
    if steps != [] {
      PrefixOfRun(c, steps);
      EveryRunIsSound(c, Front(steps));
      SoundStep(c, After(c, Front(steps)), Last(steps));
    }
  }

  // Every record is what one transaction of the run was begun with: its content and the time it
  // started.
  lemma {:induction false} RowsWereBegun(c: Config, steps: seq<Step>, i: nat) returns (k: nat)
    requires IsRun(c, steps) && i < |After(c, steps).log|
    ensures k < |steps| && steps[k].Begin? && steps[k].event.facts == After(c, steps).log[i].facts
    ensures steps[k].start == After(c, steps).log[i].ingestedAt
  {
    PrefixOfRun(c, steps);
    if i < |After(c, Front(steps)).log| {
      k := RowsWereBegun(c, Front(steps), i);
    } else {
      k := TxnsWereBegun(c, Front(steps), Last(steps).txn);
    }
  }

  lemma {:induction false} TxnsWereBegun(c: Config, steps: seq<Step>, x: nat) returns (k: nat)
    requires IsRun(c, steps) && x in After(c, steps).txns
    ensures k < |steps| && steps[k].Begin? && steps[k].txn == x
    ensures steps[k].event == After(c, steps).txns[x].event && steps[k].start == After(c, steps).txns[x].start
  {
    PrefixOfRun(c, steps);
    if Last(steps).Begin? && Last(steps).txn == x {
      k := |steps| - 1;
    } else {
      k := TxnsWereBegun(c, Front(steps), x);
    }
  }

  // ---------- the shape of the ledger ----------

  lemma HashesNameRows(h: Hash, log: seq<AuditRow>, i: nat, j: nat)
    requires Injective(h) && WellLinked(h, log) && i < |log| && j < |log|
    requires log[i].recordHash == log[j].recordHash
    ensures i == j
  {
    assert RowLinked(h, log, i) && RowLinked(h, log, j);
    assert CanonicalOf(log[i]) == CanonicalOf(log[j]);
    assert SameKey(log[i].facts, log[j].facts) && SameKey(log[j].facts, log[i].facts);
  }

  ghost predicate FirstOfTenant(log: seq<AuditRow>, i: nat)
    requires i < |log|
  {
    forall j :: 0 <= j < i ==> log[j].facts.tenant != log[i].facts.tenant
  }

  // The row that row i was linked to.
  function Parent(log: seq<AuditRow>, i: nat): (p: Option<nat>)
    requires i < |log|
  {
    Tail(log[..i], log[i].facts.tenant)
  }

  // A record has no predecessor exactly when it is its tenant's first; otherwise its link
  // names exactly one record, which belongs to the same tenant and was committed earlier.
  lemma LinksNameEarlierRows(h: Hash, log: seq<AuditRow>, i: nat)
    requires Injective(h) && WellLinked(h, log) && i < |log|
    ensures log[i].previousHash.None? <==> FirstOfTenant(log, i)
    ensures Parent(log, i).Some? <==> !FirstOfTenant(log, i)
    ensures Parent(log, i).Some? ==>
      var p := Parent(log, i).value;
      && p < i && log[p].facts.tenant == log[i].facts.tenant
      && log[i].previousHash == Some(log[p].recordHash)
      && forall j :: 0 <= j < |log| && log[i].previousHash == Some(log[j].recordHash) ==> j == p
  {
    assert RowLinked(h, log, i);
    var before := log[..i];
    TailIsLatest(before, log[i].facts.tenant);
    assert forall j :: 0 <= j < i ==> before[j] == log[j];
    if Parent(log, i).Some? {
      forall j | 0 <= j < |log| && log[i].previousHash == Some(log[j].recordHash)
        ensures j == Parent(log, i).value
      {
        HashesNameRows(h, log, j, Parent(log, i).value);
      }
    }
  }

  lemma {:induction false} SomeRowIsFirst(log: seq<AuditRow>, i: nat) returns (first: nat)
    requires i < |log|
    ensures first <= i && log[first].facts.tenant == log[i].facts.tenant && FirstOfTenant(log, first)
  {
    if FirstOfTenant(log, i) {
      first := i;
    } else {
      var j: nat :| j < i && log[j].facts.tenant == log[i].facts.tenant;
      first := SomeRowIsFirst(log, j);
    }
  }

  // Each tenant that has records has exactly one without a predecessor.
  lemma ExactlyOneRoot(h: Hash, log: seq<AuditRow>, tenant: Id)
    requires Injective(h) && WellLinked(h, log)
    requires exists i :: 0 <= i < |log| && log[i].facts.tenant == tenant
    ensures exists r: nat ::
      && r < |log| && log[r].facts.tenant == tenant && log[r].previousHash.None?
      && forall i :: 0 <= i < |log| && log[i].facts.tenant == tenant && log[i].previousHash.None? ==> i == r
  {
    var i: nat :| i < |log| && log[i].facts.tenant == tenant;
    var r := SomeRowIsFirst(log, i);
    LinksNameEarlierRows(h, log, r);
    forall j: nat | j < |log| && log[j].facts.tenant == tenant && log[j].previousHash.None? ensures j == r {
      LinksNameEarlierRows(h, log, j);
    }
  }

  // Row i is linked to the earlier row p of its tenant.
  predicate LinkedTo(log: seq<AuditRow>, i: nat, p: nat) {
    && p < i < |log|
    && log[p].facts.tenant == log[i].facts.tenant
    && log[i].previousHash == Some(log[p].recordHash)
  }

  // Following links from row i visits strictly earlier rows and ends at the tenant's root.
  ghost predicate IsAncestry(log: seq<AuditRow>, path: seq<nat>, i: nat) {
    && path != [] && path[0] == i && Last(path) < |log|
    && (forall k :: 0 <= k < |path| - 1 ==> LinkedTo(log, path[k], path[k + 1]))
    && log[Last(path)].previousHash.None?
  }

  lemma ExtendAncestry(log: seq<AuditRow>, rest: seq<nat>, i: nat, p: nat)
    requires IsAncestry(log, rest, p) && LinkedTo(log, i, p)
    ensures IsAncestry(log, [i] + rest, i)
  {
    var path := [i] + rest;
    assert forall k :: 1 <= k < |path| ==> path[k] == rest[k - 1];
  }

  lemma {:induction false} LinksReachTheRoot(h: Hash, log: seq<AuditRow>, i: nat) returns (path: seq<nat>)
    requires Injective(h) && WellLinked(h, log) && i < |log|
    ensures IsAncestry(log, path, i)
    decreases i
  {
    LinksNameEarlierRows(h, log, i);
    match Parent(log, i)
    case None => path := [i];
    case Some(p) =>
      var rest := LinksReachTheRoot(h, log, p);
      ExtendAncestry(log, rest, i, p);
      path := [i] + rest;
  }

  // ---------- when the tree is a line ----------

  predicate OfTenant(log: seq<AuditRow>, tenant: Id, i: nat) {
    i < |log| && log[i].facts.tenant == tenant
  }

  ghost predicate Adjacent(log: seq<AuditRow>, tenant: Id, i: nat, j: nat) {
    && i < j && OfTenant(log, tenant, i) && OfTenant(log, tenant, j)
    && forall k :: i < k < j ==> log[k].facts.tenant != tenant
  }

  // Each record is linked to the one committed just before it.
  ghost predicate Linear(log: seq<AuditRow>, tenant: Id) {
    forall i: nat, j: nat :: Adjacent(log, tenant, i, j) ==> log[j].previousHash == Some(log[i].recordHash)
  }

  // Commit order agrees with (ingestedAt, id) order, except perhaps for the last record.
  ghost predicate OrderedButLast(log: seq<AuditRow>, tenant: Id) {
    forall i: nat, j: nat, k: nat |
      i < j < k && OfTenant(log, tenant, i) && OfTenant(log, tenant, j) && OfTenant(log, tenant, k) ::
      Later(log[j], log[i])
  }

  lemma {:induction false} NextOfTenant(log: seq<AuditRow>, tenant: Id, i: nat, k: nat) returns (j: nat)
    requires OfTenant(log, tenant, i) && i < k && OfTenant(log, tenant, k)
    ensures j <= k && Adjacent(log, tenant, i, j)
    decreases k
  {
    if m: nat :| i < m < k && log[m].facts.tenant == tenant {
      j := NextOfTenant(log, tenant, i, m);
    } else {
      j := k;
    }
  }

  lemma TailWhenLatest(log: seq<AuditRow>, tenant: Id, i: nat)
    requires DistinctIds(log) && OfTenant(log, tenant, i)
    requires forall m: nat | m < |log| && m != i && OfTenant(log, tenant, m) :: Later(log[i], log[m])
    ensures Tail(log, tenant) == Some(i)
  {
    TailIsLatest(log, tenant);
    assert OfTenant(log, tenant, Tail(log, tenant).value);
  }

  lemma AdjacentRowsLink(h: Hash, log: seq<AuditRow>, tenant: Id, i: nat, j: nat)
    requires WellLinked(h, log) && Adjacent(log, tenant, i, j)
    requires forall m: nat | m < i && OfTenant(log, tenant, m) :: Later(log[i], log[m])
    ensures log[j].previousHash == Some(log[i].recordHash)
  {
    assert RowLinked(h, log, j);
    var before := log[..j];
    assert forall m: nat | m < |before| && OfTenant(before, tenant, m) :: m <= i && OfTenant(log, tenant, m);
    TailWhenLatest(before, tenant, i);
  }

  lemma LinearWhenOrdered(h: Hash, log: seq<AuditRow>, tenant: Id)
    requires WellLinked(h, log) && OrderedButLast(log, tenant)
    ensures Linear(log, tenant)
  {
    forall i: nat, j: nat | Adjacent(log, tenant, i, j) ensures log[j].previousHash == Some(log[i].recordHash) {
      forall m: nat | m < i && OfTenant(log, tenant, m) ensures Later(log[i], log[m]) {
        assert m < i < j;
      }
      AdjacentRowsLink(h, log, tenant, i, j);
    }
  }

  lemma LinearRowsAreLater(h: Hash, log: seq<AuditRow>, tenant: Id, i: nat, j: nat, k: nat)
    requires Injective(h) && WellLinked(h, log) && Linear(log, tenant)
    requires i < j < k && OfTenant(log, tenant, i) && OfTenant(log, tenant, j) && OfTenant(log, tenant, k)
    ensures Later(log[j], log[i])
  {
    var n := NextOfTenant(log, tenant, j, k);
    assert Adjacent(log, tenant, j, n);
    LinksNameEarlierRows(h, log, n);
    assert Parent(log, n) == Some(j);
    var before := log[..n];
    TailIsLatest(before, tenant);
    assert before[i] == log[i] && before[j] == log[j];
  }

  lemma OrderedWhenLinear(h: Hash, log: seq<AuditRow>, tenant: Id)
    requires Injective(h) && WellLinked(h, log) && Linear(log, tenant)
    ensures OrderedButLast(log, tenant)
  {
    forall i: nat, j: nat, k: nat |
      i < j < k && OfTenant(log, tenant, i) && OfTenant(log, tenant, j) && OfTenant(log, tenant, k)
      ensures Later(log[j], log[i])
    {
      LinearRowsAreLater(h, log, tenant, i, j, k);
    }
  }

  // A tenant's ledger is one chain in commit order exactly when the start times of its records
  // increase in commit order, the last record excepted.
  lemma LinearExactly(h: Hash, log: seq<AuditRow>, tenant: Id)
    requires Injective(h) && WellLinked(h, log)
    ensures Linear(log, tenant) <==> OrderedButLast(log, tenant)
  {
    if OrderedButLast(log, tenant) {
      LinearWhenOrdered(h, log, tenant);
    }
    if Linear(log, tenant) {
      OrderedWhenLinear(h, log, tenant);
    }
  }

  // Ingests of a tenant do not overlap: each begins when no other is open, at a time no earlier
  // than that of any record already ingested.
  ghost predicate Serial(c: Config, steps: seq<Step>, tenant: Id) {
    steps == [] ||
    (&& Serial(c, Front(steps), tenant)
     && IsRun(c, Front(steps))
     && (Last(steps).Begin? && Last(steps).event.facts.tenant == tenant ==>
           var s := After(c, Front(steps));
           && (forall x :: x in s.txns ==> s.txns[x].event.facts.tenant != tenant)
           && (forall i :: 0 <= i < |s.log| && s.log[i].facts.tenant == tenant
                 ==> s.log[i].ingestedAt <= Last(steps).start)))
  }

  ghost predicate SerialState(s: State, tenant: Id) {
    && (forall x, y | x in s.txns && y in s.txns ::
          s.txns[x].event.facts.tenant == tenant && s.txns[y].event.facts.tenant == tenant ==> x == y)
    && (forall x, i | x in s.txns && 0 <= i < |s.log| ::
          s.txns[x].event.facts.tenant == tenant && s.log[i].facts.tenant == tenant
          ==> s.log[i].ingestedAt <= s.txns[x].start)
    && (forall i, j | 0 <= i < j < |s.log| ::
          s.log[i].facts.tenant == tenant && s.log[j].facts.tenant == tenant
          ==> s.log[i].ingestedAt <= s.log[j].ingestedAt)
  }

  lemma SerialStep(c: Config, s: State, step: Step, tenant: Id)
    requires SerialState(s, tenant) && Enabled(c, s, step)
    requires step.Begin? && step.event.facts.tenant == tenant ==>
      && (forall x :: x in s.txns ==> s.txns[x].event.facts.tenant != tenant)
      && (forall i :: 0 <= i < |s.log| && s.log[i].facts.tenant == tenant ==> s.log[i].ingestedAt <= step.start)
    ensures SerialState(Next(c, s, step), tenant)
  {
    if step.Commit? {
      SerialCommit(c, s, step, tenant);
    } else if step.Begin? {
      SerialBegin(c, s, step, tenant);
    } else {
      assert Next(c, s, step).log == s.log && Next(c, s, step).txns.Keys <= s.txns.Keys;
    }
  }

  lemma SerialBegin(c: Config, s: State, step: Step, tenant: Id)
    requires SerialState(s, tenant) && Enabled(c, s, step) && step.Begin?
    requires step.event.facts.tenant == tenant ==>
      && (forall x :: x in s.txns ==> s.txns[x].event.facts.tenant != tenant)
      && (forall i :: 0 <= i < |s.log| && s.log[i].facts.tenant == tenant ==> s.log[i].ingestedAt <= step.start)
    ensures SerialState(Next(c, s, step), tenant)
  {
  }

  lemma SerialCommit(c: Config, s: State, step: Step, tenant: Id)
    requires SerialState(s, tenant) && Enabled(c, s, step) && step.Commit?
    ensures SerialState(Next(c, s, step), tenant)
  {
    var t := Next(c, s, step);
    forall x, i | x in t.txns && 0 <= i < |t.log|
                  && t.txns[x].event.facts.tenant == tenant && t.log[i].facts.tenant == tenant
      ensures t.log[i].ingestedAt <= t.txns[x].start
    {
      assert x in s.txns && x != step.txn && i < |s.log|;
    }
  }

  lemma {:induction false} SerialRunsStayOrdered(c: Config, steps: seq<Step>, tenant: Id)
    requires IsRun(c, steps) && Serial(c, steps, tenant)
    ensures SerialState(After(c, steps), tenant)
  {
    if steps != [] {
      PrefixOfRun(c, steps);
      SerialRunsStayOrdered(c, Front(steps), tenant);
      SerialStep(c, After(c, Front(steps)), Last(steps), tenant);
    }
  }

  // Records that started at the same instant, the last of the tenant excepted, were committed in
  // the order of their random ids.
  ghost predicate TiesInIdOrder(log: seq<AuditRow>, tenant: Id) {
    forall i: nat, j: nat, k: nat |
      i < j < k && OfTenant(log, tenant, i) && OfTenant(log, tenant, j) && OfTenant(log, tenant, k) ::
      log[i].ingestedAt == log[j].ingestedAt ==> log[i].id < log[j].id
  }

  // Without overlap the log is one chain in commit order exactly when no tie in start times was
  // broken the wrong way; in particular when there was none.
  lemma SerialIngestIsLinear(c: Config, steps: seq<Step>, tenant: Id)
    requires Injective(c.h) && IsRun(c, steps) && Serial(c, steps, tenant)
    ensures Linear(After(c, steps).log, tenant) <==> TiesInIdOrder(After(c, steps).log, tenant)
  {
    EveryRunIsSound(c, steps);
    SerialRunsStayOrdered(c, steps, tenant);
    LinearExactly(c.h, After(c, steps).log, tenant);
  }
}
