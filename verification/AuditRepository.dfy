/** The ingest operation of the audit service, run as one uninterrupted transaction. */
module AuditRepository {
  import opened Prelude
  import opened Events
  import opened Ledger

  class Repository {
    const h: Hash
    var log: seq<AuditRow>

    constructor (h: Hash)
      ensures this.h == h && log == []
    {
      this.h := h;
      log := [];
    }

    ghost predicate Valid()
      reads this
    {
      WellLinked(h, log)
    }

    // `id` is the new row's random identifier and `start` the transaction's start time.
    method Ingest(event: AuditEvent, id: Id, start: nat) returns (row: AuditRow)
      requires Valid()
      requires forall i :: 0 <= i < |log| ==> log[i].id != id
      modifies this`log
      ensures Valid()
      ensures row in log && row.facts.tenant == event.facts.tenant && row.facts.eventId == event.facts.eventId
      ensures Recorded(old(log), event.facts) ==> log == old(log)
      ensures !Recorded(old(log), event.facts) ==>
        && log == old(log) + [row]
        && row.facts == event.facts && row.id == id && row.ingestedAt == start
        && row.previousHash == TailHash(old(log), event.facts.tenant)
        && row.recordHash == h(CanonicalOf(row))
    {
      if Recorded(log, event.facts) {
        var i :| 0 <= i < |log| && log[i].facts.tenant == event.facts.tenant
                 && log[i].facts.eventId == event.facts.eventId;
        return log[i];
      }
      var previousHash: Option<Digest> := None;
      var previous := Tail(log, event.facts.tenant);
      if previous.Some? {
        previousHash := Some(log[previous.value].recordHash);
      }
      var recordHash := h(Canonical(event.facts, previousHash));
      row := AuditRow(id, event.facts, start, previousHash, recordHash);
      AppendKeepsLinks(h, log, row);
      log := log + [row];
    }
  }

  // Uninterrupted ingest is one of the interleavings: the same row is appended by the five
  // steps of a transaction that runs alone.
  lemma IngestIsFiveSteps(c: Config, before: seq<Step>, event: AuditEvent, x: nat, id: Id, start: nat)
    requires IsRun(c, before) && After(c, before).txns == map[]
    requires !Recorded(After(c, before).log, event.facts)
    requires forall i | 0 <= i < |After(c, before).log| :: After(c, before).log[i].id != id
    ensures
      var steps := before + [Begin(x, event, start)] + [MissExisting(x)] + [TakeLock(x)] + [ReadPrevious(x)]
                   + [Commit(x, id)];
      var log := After(c, before).log;
      && IsRun(c, steps)
      && After(c, steps).log
           == log + [LinkedRow(c.h, id, event.facts, start, TailHash(log, event.facts.tenant))]
      && After(c, steps).txns == map[]
  {
    ExtendRun(c, before, Begin(x, event, start));
    var s1 := before + [Begin(x, event, start)];
    ExtendRun(c, s1, MissExisting(x));
    var s2 := s1 + [MissExisting(x)];
    ExtendRun(c, s2, TakeLock(x));
    var s3 := s2 + [TakeLock(x)];
    ExtendRun(c, s3, ReadPrevious(x));
    ExtendRun(c, s3 + [ReadPrevious(x)], Commit(x, id));
  }
}
