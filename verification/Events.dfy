/** The audit event that business services write to the outbox. */
module Events {
  import opened Prelude

  // Identifiers are only compared, so any countable type will do.
  type Id = nat

  // The part of an event that the audit ledger stores and hashes.
  datatype Facts = Facts(
    eventId: Id,
    tenant: Id,
    occurredAt: int,
    actorType: string,
    actorId: string,
    action: string,
    entityType: string,
    entityId: Option<string>,
    outcome: string,
    source: string,
    correlationId: Id,
    data: string)

  // `kind` and `subject` travel with the event but are not part of the ledger's hash.
  datatype AuditEvent = AuditEvent(facts: Facts, kind: string, subject: string)
}
