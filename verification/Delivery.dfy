/**
 Outbox relays and the audit ledger joined by an unreliable link.

 A request may be lost (never served), served several times, and its reply may be lost (never
 used); the server may process it long after the relay gave up.  Relays crash, leases lapse and
 ingest transactions interleave exactly as in the two machines this one is built from.
 */
module Delivery {
  import opened Prelude
  import opened Events
  import Outbox
  import Leases
  import Ledger

  // One publication attempt: the claim that made it and the payload it carries.
  datatype Request = Request(rec: nat, attempt: nat, event: AuditEvent)

  datatype System = System(
    relay: Outbox.Relay,
    ledger: Ledger.State,
    sent: set<Request>,
    acked: set<Request>,
    serving: map<nat, Request>)

  datatype Step =
    | Relay(action: Outbox.Step)
    | Send(worker: nat)
    | Serve(txn: nat, request: Request)
    | Ingest(step: Ledger.Step)

  const Initial := System(Outbox.Initial, Ledger.Initial, {}, {}, map[])

  function RequestOf(s: System, worker: nat): Request
    requires worker in s.relay.holds && s.relay.holds[worker].rec < |s.relay.rows|
  {
    var h := s.relay.holds[worker];
    Request(h.rec, h.attempts, s.relay.rows[h.rec].event)
  }

  function TxnOf(step: Ledger.Step): nat {
    match step
    case Begin(x, _, _) => x
    case FindExisting(x) => x
    case MissExisting(x) => x
    case TakeLock(x) => x
    case ReadPrevious(x) => x
    case Commit(x, _) => x
    case Abort(x) => x
  }

  // Event identifiers are generated at random: an identifier already in the outbox can only
  // belong to the same event.
  predicate FreshEvent(rows: seq<Outbox.Row>, e: AuditEvent) {
    forall r | 0 <= r < |rows| ::
      rows[r].event.facts.tenant == e.facts.tenant && rows[r].event.facts.eventId == e.facts.eventId
      ==> rows[r].event.facts == e.facts
  }

  predicate Enabled(c: Ledger.Config, s: System, step: Step) {
    match step
    case Relay(r) =>
      && Outbox.Enabled(s.relay, r)
      && (r.Enqueue? ==> FreshEvent(s.relay.rows, r.event))
      && (r.SettlePublished? ==> RequestOf(s, r.worker) in s.acked)
    case Send(w) => w in s.relay.holds && s.relay.holds[w].rec < |s.relay.rows| && RequestOf(s, w) !in s.sent
    case Serve(x, q) => q in s.sent && x !in s.ledger.txns
    case Ingest(l) => !l.Begin? && TxnOf(l) in s.serving && Ledger.Enabled(c, s.ledger, l)
  }

  function Next(c: Ledger.Config, s: System, step: Step): System
    requires Enabled(c, s, step)
  {
    match step
    case Relay(r) => s.(relay := Outbox.Next(s.relay, r))
    case Send(w) => s.(sent := s.sent + {RequestOf(s, w)})
    case Serve(x, q) =>
      s.(ledger := Ledger.Next(c, s.ledger, Ledger.Begin(x, q.event, s.relay.now)),
         serving := s.serving[x := q])
    case Ingest(l) =>
      var x := TxnOf(l);
      s.(ledger := Ledger.Next(c, s.ledger, l),
         acked := if l.FindExisting? || l.Commit? then s.acked + {s.serving[x]} else s.acked,
         serving := if l.FindExisting? || l.Commit? || l.Abort? then s.serving - {x} else s.serving)
  }

  function Replay(c: Ledger.Config, steps: seq<Step>): Option<System> {
    if steps == [] then Some(Initial)
    else
      match Replay(c, Front(steps))
      case None => None
      case Some(s) => if Enabled(c, s, Last(steps)) then Some(Next(c, s, Last(steps))) else None
  }

  predicate IsRun(c: Ledger.Config, steps: seq<Step>) {
    Replay(c, steps).Some?
  }

  function After(c: Ledger.Config, steps: seq<Step>): System
    requires IsRun(c, steps)
  {
    Replay(c, steps).value
  }

  lemma PrefixOfRun(c: Ledger.Config, steps: seq<Step>)
    requires IsRun(c, steps) && steps != []
    ensures IsRun(c, Front(steps)) && Enabled(c, After(c, Front(steps)), Last(steps))
    ensures After(c, steps) == Next(c, After(c, Front(steps)), Last(steps))
  {
  }

  // ---------- the two component machines run unchanged inside ----------

  function RelaySteps(steps: seq<Step>): seq<Outbox.Step> {
    if steps == [] then []
    else RelaySteps(Front(steps)) + if Last(steps).Relay? then [Last(steps).action] else []
  }

  lemma {:induction false} RelayProjection(c: Ledger.Config, steps: seq<Step>)
    requires IsRun(c, steps)
    ensures Outbox.IsRun(RelaySteps(steps)) && Outbox.After(RelaySteps(steps)) == After(c, steps).relay
  {
    if steps != [] {
      PrefixOfRun(c, steps);
      RelayProjection(c, Front(steps));
      if Last(steps).Relay? {
        Leases.ExtendRun(RelaySteps(Front(steps)), Last(steps).action);
      } else {
        assert RelaySteps(steps) == RelaySteps(Front(steps));
      }
    }
  }

  function LedgerSteps(c: Ledger.Config, steps: seq<Step>): seq<Ledger.Step>
    requires IsRun(c, steps)
  {
    if steps == [] then []
    else
      PrefixOfRun(c, steps);
      LedgerSteps(c, Front(steps)) +
      match Last(steps)
      case Serve(x, q) => [Ledger.Begin(x, q.event, After(c, Front(steps)).relay.now)]
      case Ingest(l) => [l]
      case _ => []
  }

  lemma {:induction false} LedgerProjection(c: Ledger.Config, steps: seq<Step>)
    requires IsRun(c, steps)
    ensures Ledger.IsRun(c, LedgerSteps(c, steps))
    ensures Ledger.After(c, LedgerSteps(c, steps)) == After(c, steps).ledger
  {
    if steps != [] {
      PrefixOfRun(c, steps);
      LedgerProjection(c, Front(steps));
      match Last(steps)
      case Serve(x, q) =>
        Ledger.ExtendRun(c, LedgerSteps(c, Front(steps)), Ledger.Begin(x, q.event, After(c, Front(steps)).relay.now));
      case Ingest(l) => Ledger.ExtendRun(c, LedgerSteps(c, Front(steps)), l);
      case _ => assert LedgerSteps(c, steps) == LedgerSteps(c, Front(steps));
    }
  }

  // ---------- what every run keeps ----------

  ghost predicate Enqueued(rows: seq<Outbox.Row>, facts: Facts) {
    exists r :: 0 <= r < |rows| && rows[r].event.facts == facts
  }

  ghost predicate RequestOk(s: System, q: Request) {
    q.rec < |s.relay.rows| && q.event == s.relay.rows[q.rec].event
  }

  ghost predicate ServiceOk(s: System, x: nat) {
    && x in s.serving && x in s.ledger.txns
    && s.serving[x] in s.sent && s.ledger.txns[x].event == s.serving[x].event
  }

  // Every request and transaction carries an enqueued event, an acknowledged request is in the
  // log, and so is every published record.
  ghost predicate Sound(s: System) {
    && (forall w | w in s.relay.holds :: Outbox.HoldOk(s.relay, s.relay.holds[w]))
    && (forall q | q in s.sent :: RequestOk(s, q))
    && (forall x | x in s.serving || x in s.ledger.txns :: ServiceOk(s, x))
    && (forall i | 0 <= i < |s.ledger.log| :: Enqueued(s.relay.rows, s.ledger.log[i].facts))
    && (forall q | q in s.acked :: RequestOk(s, q) && Ledger.Recorded(s.ledger.log, q.event.facts))
    && (forall r | 0 <= r < |s.relay.rows| && s.relay.rows[r].status == Outbox.Published ::
          Ledger.Recorded(s.ledger.log, s.relay.rows[r].event.facts))
    && (forall r | 0 <= r < |s.relay.rows| :: FreshEvent(s.relay.rows, s.relay.rows[r].event))
  }

  lemma EventsStay(s: Outbox.Relay, step: Outbox.Step)
    requires Outbox.Enabled(s, step)
    ensures |s.rows| <= |Outbox.Next(s, step).rows|
    ensures forall r :: 0 <= r < |s.rows| ==> Outbox.Next(s, step).rows[r].event == s.rows[r].event
  {
  }

  lemma EnqueuedStays(before: seq<Outbox.Row>, after: seq<Outbox.Row>, facts: Facts)
    requires |before| <= |after| && forall r :: 0 <= r < |before| ==> after[r].event == before[r].event
    requires Enqueued(before, facts)
    ensures Enqueued(after, facts)
  {
    var r :| 0 <= r < |before| && before[r].event.facts == facts;
    assert after[r].event.facts == facts;
  }

  lemma EventsStayFresh(s: Outbox.Relay, step: Outbox.Step)
    requires Outbox.Enabled(s, step) && (step.Enqueue? ==> FreshEvent(s.rows, step.event))
    requires forall r | 0 <= r < |s.rows| :: FreshEvent(s.rows, s.rows[r].event)
    ensures
      var rows := Outbox.Next(s, step).rows;
      forall r | 0 <= r < |rows| :: FreshEvent(rows, rows[r].event)
  {
    EventsStay(s, step);
    var rows := Outbox.Next(s, step).rows;
    forall r | 0 <= r < |rows| ensures FreshEvent(rows, rows[r].event) {
      if r < |s.rows| {
        assert FreshEvent(s.rows, s.rows[r].event);
      }
    }
  }

  // Only an acknowledged settlement makes a record published.
  lemma PublishedIsLogged(c: Ledger.Config, s: System, step: Outbox.Step, r: nat)
    requires Sound(s) && Enabled(c, s, Relay(step)) && Outbox.Sound(s.relay)
    requires
      var rows := Outbox.Next(s.relay, step).rows;
      r < |rows| && rows[r].status == Outbox.Published
    ensures Ledger.Recorded(s.ledger.log, Outbox.Next(s.relay, step).rows[r].event.facts)
  {
    EventsStay(s.relay, step);
    if step.SettlePublished? && r == s.relay.holds[step.worker].rec {
      assert RequestOf(s, step.worker) in s.acked;
    } else {
      assert s.relay.rows[r].status == Outbox.Published;
    }
  }

  lemma RelayStepSound(c: Ledger.Config, s: System, step: Outbox.Step)
    requires Sound(s) && Enabled(c, s, Relay(step)) && Outbox.Sound(s.relay)
    ensures Sound(Next(c, s, Relay(step)))
  {
    var t := Next(c, s, Relay(step));
    Outbox.SoundStep(s.relay, step);
    EventsStay(s.relay, step);
    EventsStayFresh(s.relay, step);
    forall q | q in t.sent || q in t.acked ensures RequestOk(t, q) {
      assert RequestOk(s, q);
    }
    forall x | x in t.serving || x in t.ledger.txns ensures ServiceOk(t, x) {
      assert ServiceOk(s, x);
    }
    forall i | 0 <= i < |t.ledger.log| ensures Enqueued(t.relay.rows, t.ledger.log[i].facts) {
      EnqueuedStays(s.relay.rows, t.relay.rows, s.ledger.log[i].facts);
    }
    forall r | 0 <= r < |t.relay.rows| && t.relay.rows[r].status == Outbox.Published
      ensures Ledger.Recorded(t.ledger.log, t.relay.rows[r].event.facts)
    {
      PublishedIsLogged(c, s, step, r);
    }
  }

  lemma RecordedStays(log: seq<Ledger.AuditRow>, longer: seq<Ledger.AuditRow>, facts: Facts)
    requires log <= longer && Ledger.Recorded(log, facts)
    ensures Ledger.Recorded(longer, facts)
  {
    var i :| 0 <= i < |log| && log[i].facts.tenant == facts.tenant && log[i].facts.eventId == facts.eventId;
    assert longer[i] == log[i];
  }

  // A reply means that the event is in the log by then, and only enqueued events get there.
  lemma IngestLogs(c: Ledger.Config, s: System, step: Ledger.Step)
    requires Sound(s) && Enabled(c, s, Ingest(step))
    ensures
      var log := Ledger.Next(c, s.ledger, step).log;
      && s.ledger.log <= log
      && (forall i | 0 <= i < |log| :: Enqueued(s.relay.rows, log[i].facts))
      && (step.FindExisting? || step.Commit? ==> Ledger.Recorded(log, s.serving[TxnOf(step)].event.facts))
  {
    var log := Ledger.Next(c, s.ledger, step).log;
    var q := s.serving[TxnOf(step)];
    assert ServiceOk(s, TxnOf(step)) && RequestOk(s, q);
    if step.Commit? {
      assert log[|s.ledger.log|].facts == q.event.facts;
      assert s.relay.rows[q.rec].event.facts == q.event.facts;
    }
  }

  lemma IngestServices(c: Ledger.Config, s: System, step: Ledger.Step)
    requires forall y | y in s.serving || y in s.ledger.txns :: ServiceOk(s, y)
    requires Enabled(c, s, Ingest(step))
    ensures
      var t := Next(c, s, Ingest(step));
      forall y | y in t.serving || y in t.ledger.txns :: ServiceOk(t, y)
  {
    var t := Next(c, s, Ingest(step));
    assert ServiceOk(s, TxnOf(step));
    forall y | y in t.serving || y in t.ledger.txns ensures ServiceOk(t, y) {
      ServiceStays(c, s, step, y);
    }
  }

  lemma ServiceStays(c: Ledger.Config, s: System, step: Ledger.Step, y: nat)
    requires ServiceOk(s, TxnOf(step)) && (y in s.serving || y in s.ledger.txns ==> ServiceOk(s, y))
    requires Enabled(c, s, Ingest(step))
    requires y in Next(c, s, Ingest(step)).serving || y in Next(c, s, Ingest(step)).ledger.txns
    ensures ServiceOk(Next(c, s, Ingest(step)), y)
  {
    var t := Next(c, s, Ingest(step));
    if y == TxnOf(step) {
      assert t.ledger.txns[y].event == s.ledger.txns[y].event;
    } else {
      assert t.ledger.txns[y] == s.ledger.txns[y];
    }
  }

  lemma IngestReplies(c: Ledger.Config, s: System, step: Ledger.Step, q: Request)
    requires Sound(s) && Enabled(c, s, Ingest(step)) && q in Next(c, s, Ingest(step)).acked
    ensures RequestOk(s, q) && Ledger.Recorded(Ledger.Next(c, s.ledger, step).log, q.event.facts)
  {
    IngestLogs(c, s, step);
    if q in s.acked {
      RecordedStays(s.ledger.log, Ledger.Next(c, s.ledger, step).log, q.event.facts);
    } else {
      assert ServiceOk(s, TxnOf(step)) && RequestOk(s, q);
    }
  }

  lemma IngestStepSound(c: Ledger.Config, s: System, step: Ledger.Step)
    requires Sound(s) && Enabled(c, s, Ingest(step))
    ensures Sound(Next(c, s, Ingest(step)))
  {
    var t := Next(c, s, Ingest(step));
    IngestLogs(c, s, step);
    IngestServices(c, s, step);
    forall q | q in t.acked ensures RequestOk(t, q) && Ledger.Recorded(t.ledger.log, q.event.facts) {
      IngestReplies(c, s, step, q);
    }
    forall r | 0 <= r < |t.relay.rows| && t.relay.rows[r].status == Outbox.Published
      ensures Ledger.Recorded(t.ledger.log, t.relay.rows[r].event.facts)
    {
      RecordedStays(s.ledger.log, t.ledger.log, s.relay.rows[r].event.facts);
    }
    forall q | q in t.sent ensures RequestOk(t, q) {
      assert RequestOk(s, q);
    }
  }

  lemma {:induction false} EveryRunIsSound(c: Ledger.Config, steps: seq<Step>)
    requires IsRun(c, steps)
    ensures Sound(After(c, steps))
  {
    if steps != [] {
      PrefixOfRun(c, steps);
      EveryRunIsSound(c, Front(steps));
      var s := After(c, Front(steps));
      match Last(steps)
      case Relay(r) =>
        RelayProjection(c, Front(steps));
        Outbox.EveryRunIsSound(RelaySteps(Front(steps)));
        RelayStepSound(c, s, r);
      case Send(w) => assert Outbox.HoldOk(s.relay, s.relay.holds[w]);
      case Serve(x, q) =>
        forall y | y in s.ledger.txns ensures ServiceOk(s, y) {}
      case Ingest(l) => IngestStepSound(c, s, l);
    }
  }

  // ---------- effectively-once delivery ----------

  ghost predicate AtMostOnce(log: seq<Ledger.AuditRow>) {
    forall i, j | 0 <= i < j < |log| ::
      !(log[i].facts.tenant == log[j].facts.tenant && log[i].facts.eventId == log[j].facts.eventId)
  }

  // In every interleaving: no tenant's log holds an event id twice, only enqueued events are
  // logged, and each published record's event is in the log exactly once.
  lemma EffectivelyOnce(c: Ledger.Config, steps: seq<Step>)
    requires IsRun(c, steps)
    ensures
      var s := After(c, steps);
      && AtMostOnce(s.ledger.log)
      && (forall i | 0 <= i < |s.ledger.log| :: Enqueued(s.relay.rows, s.ledger.log[i].facts))
      && (forall r | 0 <= r < |s.relay.rows| && s.relay.rows[r].status == Outbox.Published ::
            exists i :: 0 <= i < |s.ledger.log| && s.ledger.log[i].facts == s.relay.rows[r].event.facts)
  {
    var s := After(c, steps);
    var rows, log := s.relay.rows, s.ledger.log;
    EveryRunIsSound(c, steps);
    LedgerProjection(c, steps);
    Ledger.EveryRunIsSound(c, LedgerSteps(c, steps));
    forall i, j | 0 <= i < j < |log|
      ensures !(log[i].facts.tenant == log[j].facts.tenant && log[i].facts.eventId == log[j].facts.eventId)
    {
      assert !Ledger.SameKey(log[i].facts, log[j].facts);
      assert Enqueued(rows, log[i].facts) && Enqueued(rows, log[j].facts);
      var p :| 0 <= p < |rows| && rows[p].event.facts == log[i].facts;
      var q :| 0 <= q < |rows| && rows[q].event.facts == log[j].facts;
      assert FreshEvent(rows, rows[p].event);
    }
    forall r | 0 <= r < |rows| && rows[r].status == Outbox.Published
      ensures exists i :: 0 <= i < |log| && log[i].facts == rows[r].event.facts
    {
      var i :| 0 <= i < |log| && log[i].facts.tenant == rows[r].event.facts.tenant
               && log[i].facts.eventId == rows[r].event.facts.eventId;
      assert Enqueued(rows, log[i].facts);
      var p :| 0 <= p < |rows| && rows[p].event.facts == log[i].facts;
      assert FreshEvent(rows, rows[p].event);
    }
  }

  // A request is identified by its record and the attempt that the claim counted, so a reply can
  // only let that claim settle which sent the request.
  lemma {:induction false} AckedWereSent(c: Ledger.Config, steps: seq<Step>, q: Request)
    returns (i: nat, w: nat)
    requires IsRun(c, steps)
    requires
      var s := After(c, steps);
      q in s.acked || q in s.sent || q in s.serving.Values
    ensures i < |steps| && steps[i] == Send(w) && IsRun(c, steps[..i]) && w in After(c, steps[..i]).relay.holds
    ensures After(c, steps[..i]).relay.holds[w].rec == q.rec
    ensures After(c, steps[..i]).relay.holds[w].attempts == q.attempt
  {
    PrefixOfRun(c, steps);
    var front := Front(steps);
    var s := After(c, front);
    if q in s.acked || q in s.sent || q in s.serving.Values {
      i, w := AckedWereSent(c, front, q);
      assert front[..i] == steps[..i];
    } else {
      i := |steps| - 1;
      assert steps[..i] == front;
      if Last(steps).Send? {
        w := Last(steps).worker;
      } else {
        assert false;
      }
    }
  }

  // ---------- a healthy link delivers ----------

  lemma ExtendRun(c: Ledger.Config, steps: seq<Step>, step: Step)
    requires IsRun(c, steps) && Enabled(c, After(c, steps), step)
    ensures IsRun(c, steps + [step]) && After(c, steps + [step]) == Next(c, After(c, steps), step)
  {
    assert Front(steps + [step]) == steps;
  }

  // A transaction that ends well answers its request, whether it found the event or stored it, and
  // no reply is forgotten.
  lemma ReplyIsUsable(c: Ledger.Config, s: System, step: Ledger.Step)
    requires Enabled(c, s, Ingest(step))
    ensures s.acked <= Next(c, s, Ingest(step)).acked
    ensures s.serving[TxnOf(step)] in Next(c, s, Ingest(step)).acked
       <==> step.FindExisting? || step.Commit? || s.serving[TxnOf(step)] in s.acked
  {
  }

  lemma SendAndServe(c: Ledger.Config, steps: seq<Step>, w: nat, x: nat) returns (more: seq<Step>)
    requires IsRun(c, steps) && w in After(c, steps).relay.holds && x !in After(c, steps).ledger.txns
    ensures IsRun(c, steps + more)
    ensures
      var s, t := After(c, steps), After(c, steps + more);
      && t.relay == s.relay && t.ledger.log == s.ledger.log
      && s.relay.holds[w].rec < |s.relay.rows|
      && t.serving == s.serving[x := RequestOf(s, w)]
      && t.ledger.txns == s.ledger.txns[x := Ledger.Txn(RequestOf(s, w).event, s.relay.now, Ledger.Begun)]
  {
    EveryRunIsSound(c, steps);
    var s := After(c, steps);
    assert Outbox.HoldOk(s.relay, s.relay.holds[w]);
    var q := RequestOf(s, w);
    var sent := steps;
    if q !in s.sent {
      ExtendRun(c, steps, Send(w));
      sent := steps + [Send(w)];
    }
    ExtendRun(c, sent, Serve(x, q));
    more := if q in s.sent then [Serve(x, q)] else [Send(w), Serve(x, q)];
    assert steps + more == sent + [Serve(x, q)];
  }

  // The lock of a tenant is free for transaction x.
  predicate LockFree(c: Ledger.Config, s: Ledger.State, tenant: Id) {
    forall y | y in s.txns && s.txns[y].HoldsLock() ::
      c.lockOf(s.txns[y].event.facts.tenant) != c.lockOf(tenant)
  }

  // A redelivery finds the event and is answered at once.
  lemma AnswerFound(c: Ledger.Config, steps: seq<Step>, x: nat)
    requires IsRun(c, steps) && x in After(c, steps).serving && x in After(c, steps).ledger.txns
    requires After(c, steps).ledger.txns[x].stage == Ledger.Begun
    requires Ledger.Recorded(After(c, steps).ledger.log, After(c, steps).ledger.txns[x].event.facts)
    ensures
      var all := steps + [Ingest(Ledger.FindExisting(x))];
      && IsRun(c, all) && After(c, all).relay == After(c, steps).relay
      && After(c, all).ledger.log == After(c, steps).ledger.log
      && After(c, steps).serving[x] in After(c, all).acked
  {
    ExtendRun(c, steps, Ingest(Ledger.FindExisting(x)));
  }

  // A first delivery misses the event, takes the lock, stores one row and is answered.
  lemma AnswerStored(c: Ledger.Config, steps: seq<Step>, x: nat, id: Id) returns (more: seq<Step>)
    requires IsRun(c, steps) && x in After(c, steps).serving && x in After(c, steps).ledger.txns
    requires
      var s := After(c, steps).ledger;
      var t := s.txns[x];
      && t.stage == Ledger.Begun && !Ledger.Recorded(s.log, t.event.facts)
      && LockFree(c, s, t.event.facts.tenant)
      && forall i | 0 <= i < |s.log| :: s.log[i].id != id
    ensures IsRun(c, steps + more) && After(c, steps + more).relay == After(c, steps).relay
    ensures
      var s := After(c, steps).ledger;
      var t := s.txns[x];
      After(c, steps + more).ledger.log == s.log + [Ledger.LinkedRow(
        c.h, id, t.event.facts, t.start, Ledger.TailHash(s.log, t.event.facts.tenant))]
    ensures After(c, steps).serving[x] in After(c, steps + more).acked
  {
    ExtendRun(c, steps, Ingest(Ledger.MissExisting(x)));
    var missed := steps + [Ingest(Ledger.MissExisting(x))];
    ExtendRun(c, missed, Ingest(Ledger.TakeLock(x)));
    var locked := missed + [Ingest(Ledger.TakeLock(x))];
    ExtendRun(c, locked, Ingest(Ledger.ReadPrevious(x)));
    var linked := locked + [Ingest(Ledger.ReadPrevious(x))];
    ExtendRun(c, linked, Ingest(Ledger.Commit(x, id)));
    more := [Ingest(Ledger.MissExisting(x)), Ingest(Ledger.TakeLock(x)), Ingest(Ledger.ReadPrevious(x)),
             Ingest(Ledger.Commit(x, id))];
    assert steps + more == linked + [Ingest(Ledger.Commit(x, id))];
  }

  lemma ReplyReached(c: Ledger.Config, steps: seq<Step>, x: nat, id: Id) returns (more: seq<Step>)
    requires IsRun(c, steps) && x in After(c, steps).serving && x in After(c, steps).ledger.txns
    requires
      var s := After(c, steps).ledger;
      && s.txns[x].stage == Ledger.Begun && LockFree(c, s, s.txns[x].event.facts.tenant)
      && forall i | 0 <= i < |s.log| :: s.log[i].id != id
    ensures IsRun(c, steps + more) && After(c, steps + more).relay == After(c, steps).relay
    ensures
      var s := After(c, steps).ledger;
      var t := s.txns[x];
      After(c, steps + more).ledger.log ==
        if Ledger.Recorded(s.log, t.event.facts) then s.log
        else s.log + [Ledger.LinkedRow(c.h, id, t.event.facts, t.start, Ledger.TailHash(s.log, t.event.facts.tenant))]
    ensures After(c, steps).serving[x] in After(c, steps + more).acked
  {
    var s := After(c, steps).ledger;
    if Ledger.Recorded(s.log, s.txns[x].event.facts) {
      AnswerFound(c, steps, x);
      more := [Ingest(Ledger.FindExisting(x))];
    } else {
      more := AnswerStored(c, steps, x, id);
    }
  }

  // From every reachable state a relay that holds a record can publish it over a link that works:
  // it sends, the request is served, and the reply lets it settle.  The log gains the event, or
  // nothing when an earlier attempt had already stored it.
  lemma HealthyLinkPublishes(c: Ledger.Config, steps: seq<Step>, w: nat, x: nat, id: Id) returns (more: seq<Step>)
    requires IsRun(c, steps) && w in After(c, steps).relay.holds && x !in After(c, steps).ledger.txns
    requires After(c, steps).relay.holds[w].rec < |After(c, steps).relay.rows|
    requires LockFree(c, After(c, steps).ledger, RequestOf(After(c, steps), w).event.facts.tenant)
    requires forall i | 0 <= i < |After(c, steps).ledger.log| :: After(c, steps).ledger.log[i].id != id
    ensures IsRun(c, steps + more)
    ensures
      var s, t := After(c, steps), After(c, steps + more);
      var rec := s.relay.holds[w].rec;
      var facts := s.relay.rows[rec].event.facts;
      && |t.relay.rows| == |s.relay.rows| && t.relay.now == s.relay.now
      && t.relay.rows[rec].status == Outbox.Published && t.relay.rows[rec].publishedAt == Some(s.relay.now)
      && (forall r | 0 <= r < |s.relay.rows| && r != rec :: t.relay.rows[r] == s.relay.rows[r])
      && t.ledger.log == (
           if Ledger.Recorded(s.ledger.log, facts) then s.ledger.log
           else s.ledger.log + [Ledger.LinkedRow(c.h, id, facts, s.relay.now,
                                                 Ledger.TailHash(s.ledger.log, facts.tenant))])
  {
    var s := After(c, steps);
    var asked := SendAndServe(c, steps, w, x);
    var serving := After(c, steps + asked).ledger;
    assert LockFree(c, serving, serving.txns[x].event.facts.tenant);
    var answered := ReplyReached(c, steps + asked, x, id);
    var replied := steps + asked + answered;
    var settle := Relay(Outbox.SettlePublished(w));
    assert RequestOf(After(c, replied), w) == RequestOf(s, w);
    ExtendRun(c, replied, settle);
    Outbox.SuccessExactly(s.relay, w);
    more := asked + answered + [settle];
    assert steps + more == replied + [settle];
  }

  // The whole system drains: without crashes and within leases, a run whose relays have come to
  // rest has every event in the log once or its record dead, or else its relays have claims left
  // and one of them can go on within 300 seconds.
  lemma SystemDrains(c: Ledger.Config, steps: seq<Step>, idle: nat)
    requires IsRun(c, steps) && After(c, steps).relay.holds == map[]
    requires Leases.Punctual(RelaySteps(steps)) && Leases.CrashFree(RelaySteps(steps))
    ensures
      var s, relay := After(c, steps), RelaySteps(steps);
      var claims, n := Leases.TotalClaims(relay), |s.relay.rows|;
      && claims <= 20 * n
      && AtMostOnce(s.ledger.log)
      && ((forall r | 0 <= r < n :: s.relay.rows[r].status == Outbox.Dead
             || exists i :: 0 <= i < |s.ledger.log| && s.ledger.log[i].facts == s.relay.rows[r].event.facts)
          || (&& claims < 20 * n
              && exists rec: nat, wait: nat :: wait <= Outbox.LEASE
                   && Outbox.IsRun(relay + [Outbox.Tick(wait)])
                   && Leases.CanClaim(Outbox.After(relay + [Outbox.Tick(wait)]), idle, rec)))
  {
    RelayProjection(c, steps);
    Leases.RelaysDrain(RelaySteps(steps), idle);
    EffectivelyOnce(c, steps);
  }

  // A lost lease can reopen a published record, but its event still appears only once; while
  // leases are respected the record also stays published.
  lemma PublishedStaysPublished(c: Ledger.Config, steps: seq<Step>, more: seq<Step>, rec: nat)
    requires IsRun(c, steps) && IsRun(c, steps + more)
    requires Leases.Punctual(RelaySteps(steps + more))
    requires rec < |After(c, steps).relay.rows| && After(c, steps).relay.rows[rec].status == Outbox.Published
    ensures rec < |After(c, steps + more).relay.rows|
    ensures After(c, steps + more).relay.rows[rec] == After(c, steps).relay.rows[rec]
  {
    RelayProjection(c, steps);
    RelayProjection(c, steps + more);
    RelayStepsExtend(steps, more);
    var all, k := RelaySteps(steps + more), |RelaySteps(steps)|;
    assert all[..k] == RelaySteps(steps);
    assert Outbox.StateAt(all, k) == After(c, steps).relay;
    Leases.SettledIsFinal(all, k, rec);
  }

  lemma {:induction false} RelayStepsExtend(steps: seq<Step>, more: seq<Step>)
    ensures |RelaySteps(steps)| <= |RelaySteps(steps + more)|
    ensures RelaySteps(steps) == RelaySteps(steps + more)[..|RelaySteps(steps)|]
  {
    if more == [] {
      assert steps + more == steps;
    } else {
      assert Front(steps + more) == steps + Front(more);
      RelayStepsExtend(steps, Front(more));
    }
  }
}
