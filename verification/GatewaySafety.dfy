/** What every step of the protocol keeps, on both store backends and under every interleaving. */
module GatewaySafety {
  import opened Wrappers
  import opened PaymentStates
  import opened Stores
  import opened Gateway

  /** A payment whose creation has not ended is untouched: still Pending, with no reference. */
  ghost predicate CreationsOpen(s: System) {
    && (forall p :: p in s.procs && s.procs[p].Creating() ==>
          && s.procs[p].id in s.store.rows
          && s.store.rows[s.procs[p].id].status == Pending
          && s.store.rows[s.procs[p].id].reference == None)
    && (forall p, q ::
          (p in s.procs && q in s.procs && s.procs[p].Creating() && s.procs[q].Creating() && s.procs[p].id == s.procs[q].id)
          ==> p == q)
    && (forall p :: p in s.procs && s.procs[p].CreateReady? ==>
          s.store.rows[s.procs[p].id].key == s.procs[p].key)
    && (forall p :: p in s.procs && s.procs[p].CreateReadBack? ==>
          && s.procs[p].id in s.store.rows
          && s.store.rows[s.procs[p].id].status == Unknown
          && s.store.rows[s.procs[p].id].reference == None)
  }

  /** Everything that can change a payment after its creation already holds its reference. */
  ghost predicate HoldsReference(store: Store, q: Proc) {
    match q
    case Inquiring(id, reference, origin) =>
      && id in store.rows && store.rows[id].reference == Some(reference)
      && (origin.FromQueue? ==> origin.message.id == id && origin.message.reference == reference)
      && (origin.FromGet? ==> !origin.snapshot.IsTerminal())
    case InquiryAnswered(id, reference, origin, _) =>
      && id in store.rows && store.rows[id].reference == Some(reference)
      && (origin.FromGet? ==> !origin.snapshot.IsTerminal())
    case PgWebhookRead(id, ev, _) => store.Matches(ev, id)
    case PgUpdate(id, from, to, _) => id in store.rows && store.rows[id].reference.Some? && Legal(from, to)
    case RefundChecked(id, _) => id in store.rows && store.rows[id].reference.Some?
    case RefundCalling(id, _, _) => id in store.rows && store.rows[id].reference.Some?
    case RefundAnswered(id, _, _, _) => id in store.rows && store.rows[id].reference.Some?
    case _ => true
  }

  ghost predicate ReferencesHeld(s: System) {
    && (forall p :: p in s.procs ==> HoldsReference(s.store, s.procs[p]))
    && (forall m :: m in s.reconciles ==>
          m.id in s.store.rows && s.store.rows[m.id].reference == Some(m.reference))
    && (forall id :: id in s.store.rows && s.store.rows[id].reference == None ==>
          s.store.rows[id].status in {Pending, Failed, Unknown})
  }

  /** Each key's provider call is in the log at most once, and only for that key's one payment. */
  ghost predicate CallsOnce(s: System) {
    && (forall i :: 0 <= i < |s.log| && s.log[i].ProviderCalled? ==>
          && s.log[i].key in s.store.byKey && s.store.byKey[s.log[i].key] == s.log[i].id
          && forall p :: p in s.procs && s.procs[p].CreateReady? ==> s.procs[p].id != s.log[i].id)
    && (forall i, j :: 0 <= i < j < |s.log| && s.log[i].ProviderCalled? && s.log[j].ProviderCalled? ==>
          s.log[i].key != s.log[j].key)
  }

  ghost predicate Inv(s: System) {
    s.store.Consistent() && CreationsOpen(s) && ReferencesHeld(s) && CallsOnce(s)
  }

  // ---- Three kinds of step that keep the invariant, whatever label they come from ----

  predicate Quiet(events: seq<Event>) {
    forall i :: 0 <= i < |events| ==> !events[i].ProviderCalled?
  }

  /** A request moves on without touching the store. */
  lemma MoveKeeps(s: System, p: ProcId, q: Proc, events: seq<Event>)
    requires Inv(s) && Quiet(events)
    requires HoldsReference(s.store, q) && !q.CreateReady? && !q.CreateReadBack?
    requires q.Creating() ==> p in s.procs && s.procs[p].Creating() && s.procs[p].id == q.id
    ensures Inv(s.Move(p, q, events))
  {}

  lemma EndKeeps(s: System, p: ProcId)
    requires Inv(s)
    ensures Inv(s.End(p))
  {}

  /** `b` is `a` after writes to payments that already have their reference: only their status,
      next action and the other tables may differ. */
  ghost predicate Rewritten(a: Store, b: Store) {
    && b.byKey == a.byKey && b.rows.Keys == a.rows.Keys
    && (forall id :: id in a.rows ==>
          && b.rows[id].key == a.rows[id].key
          && b.rows[id].provider == a.rows[id].provider
          && b.rows[id].reference == a.rows[id].reference)
    && (forall id :: id in a.rows && a.rows[id].reference == None ==> b.rows[id] == a.rows[id])
  }

  lemma WriteKeeps(s: System, store': Store, events: seq<Event>)
    requires Inv(s) && Quiet(events) && Rewritten(s.store, store')
    ensures Inv(s.Commit(store', events))
  {
    var s' := s.Commit(store', events);
    assert s'.store.Consistent();
    assert CreationsOpen(s');
    assert ReferencesHeld(s') by {
      forall p | p in s.procs
        ensures HoldsReference(store', s.procs[p])
      {
        assert HoldsReference(s.store, s.procs[p]);
      }
    }
  }

  lemma InsertKeeps(s: System, newId: PaymentId, row: PaymentRow)
    requires Inv(s) && newId !in s.store.rows && row.key !in s.store.byKey
    requires row.status == Pending && row.reference == None
    ensures Inv(s.Commit(s.store.(rows := s.store.rows[newId := row], byKey := s.store.byKey[row.key := newId]),
                         [RowCreated(newId)]))
  {
    var s' := s.Commit(s.store.(rows := s.store.rows[newId := row], byKey := s.store.byKey[row.key := newId]),
                       [RowCreated(newId)]);
    assert s'.store.Consistent();
    assert CreationsOpen(s');
    InsertHolds(s, newId, row, s');
  }

  lemma InsertHolds(s: System, newId: PaymentId, row: PaymentRow, s': System)
    requires ReferencesHeld(s) && newId !in s.store.rows && row.status == Pending && row.reference == None
    requires s'.store.rows == s.store.rows[newId := row] && s'.procs == s.procs && s'.reconciles == s.reconciles
    ensures ReferencesHeld(s')
  {
    forall q | q in s.procs
      ensures HoldsReference(s'.store, s.procs[q])
    {
      assert HoldsReference(s.store, s.procs[q]);
    }
  }

  lemma SpawnKeeps(s: System, p: ProcId, id: PaymentId, front: Front)
    requires Inv(s) && p !in s.procs
    requires id in s.store.rows && s.store.rows[id].status == Pending && s.store.rows[id].reference == None
    requires forall q :: q in s.procs && s.procs[q].Creating() ==> s.procs[q].id != id
    requires forall i :: 0 <= i < |s.log| && s.log[i].ProviderCalled? ==> s.log[i].id != id
    ensures Inv(s.Move(p, CreateReady(id, front, s.store.rows[id].key), []))
  {
    var s' := s.Move(p, CreateReady(id, front, s.store.rows[id].key), []);
    assert s'.log == s.log;
    assert CreationsOpen(s');
  }

  lemma BeginKeeps(s: System, p: ProcId, front: Front, request: PaymentRequest, newId: PaymentId)
    requires Inv(s) && p !in s.procs
    ensures Inv(BeginStep(s, p, front, request, newId))
  {
    if request.key !in s.store.byKey && newId !in s.store.rows {
      var row := PaymentRow(request.key, request.fingerprint, request.provider, None, Pending, request.amount, None);
      InsertKeeps(s, newId, row);
      var mid := s.Commit(s.store.Begin(request, newId).0, [RowCreated(newId)]);
      assert forall i :: 0 <= i < |mid.log| && mid.log[i].ProviderCalled? ==> mid.log[i] == s.log[i];
      SpawnKeeps(mid, p, newId, front);
    }
  }

  lemma CallKeeps(c: Config, s: System, p: ProcId)
    requires Inv(s) && Enabled(c, s, CallProvider(p))
    ensures Inv(Step(c, s, CallProvider(p)))
  {
    var q := s.procs[p];
    var s' := Step(c, s, CallProvider(p));
    assert s'.log == s.log + [ProviderCalled(q.key, q.id)];
    assert forall i :: 0 <= i < |s.log| && s.log[i].ProviderCalled? ==> s.log[i].key != q.key;
  }

  /** The write that ends creation, on a row its request still owns. */
  lemma SettleKeeps(s: System, p: ProcId, row: PaymentRow, events: seq<Event>)
    requires Inv(s) && Quiet(events) && p in s.procs && s.procs[p].CreateAnswered?
    requires var old_ := s.store.rows[s.procs[p].id];
      && row.key == old_.key && row.provider == old_.provider
      && (row.reference == None ==> row.status in {Failed, Unknown})
    ensures Inv(s.End(p).Commit(s.store.(rows := s.store.rows[s.procs[p].id := row]), events))
  {
    var id := s.procs[p].id;
    var s' := s.End(p).Commit(s.store.(rows := s.store.rows[id := row]), events);
    assert s'.store.Consistent();
    assert CreationsOpen(s') by {
      assert forall q :: q in s'.procs && (s'.procs[q].Creating() || s'.procs[q].CreateReadBack?) ==> s'.procs[q].id != id;
    }
    assert ReferencesHeld(s') by {
      forall q | q in s'.procs
        ensures HoldsReference(s'.store, s'.procs[q])
      {
        assert HoldsReference(s.store, s.procs[q]);
      }
    }
  }

  /** The row and the log entries the write that ends creation leaves behind, on either backend. */
  function SettledRow(row: PaymentRow, reply: Reply): PaymentRow {
    match reply
    case Created(reference, status, action) =>
      row.(reference := Some(reference), status := status.ToStatus(), nextAction := action)
    case Rejected(error) =>
      row.WithStatus(if error.IsDefiniteNonOccurrence() then Failed else Unknown)
  }

  function SettledEvent(id: PaymentId, row: PaymentRow, reply: Reply): Event {
    StatusWritten(id, row.status, SettledRow(row, reply).status,
                  if reply.Created? then ByCreation
                  else if reply.error.IsDefiniteNonOccurrence() then ByRejection else ByAmbiguity)
  }

  /** No clobbering: the write that ends creation always finds its payment still `Pending` and
      without a reference, so SQLite's guards never refuse it and PostgreSQL's unguarded UPDATE
      writes exactly what the guarded one would. */
  lemma CreationNeverClobbers(c: Config, s: System, p: ProcId)
    requires Inv(s) && Enabled(c, s, FinishCreate(p))
    ensures var q := s.procs[p];
      && q.id in s.store.rows
      && s.store.rows[q.id].status == Pending && s.store.rows[q.id].reference == None
      && var done := s.End(p).Commit(s.store.(rows := s.store.rows[q.id := SettledRow(s.store.rows[q.id], q.reply)]),
                                     [SettledEvent(q.id, s.store.rows[q.id], q.reply)]);
      && Step(c, s, FinishCreate(p)) ==
           (if SettledEvent(q.id, s.store.rows[q.id], q.reply).cause == ByAmbiguity && q.front == Http
            then done.Move(p, CreateReadBack(q.id), []) else done)
  {
    var q := s.procs[p];
    assert q.Creating();
  }

  lemma FinishRows(c: Config, s: System, p: ProcId)
    requires Inv(s) && Enabled(c, s, FinishCreate(p))
    ensures var q := s.procs[p];
      && q.id in s.store.rows && s.store.rows[q.id].status == Pending
      && Step(c, s, FinishCreate(p)).store.rows == s.store.rows[q.id := SettledRow(s.store.rows[q.id], q.reply)]
  {
    CreationNeverClobbers(c, s, p);
    hide Inv, Step;
  }

  lemma FinishKeeps(c: Config, s: System, p: ProcId)
    requires Inv(s) && Enabled(c, s, FinishCreate(p))
    ensures Inv(Step(c, s, FinishCreate(p)))
  {
    CreationNeverClobbers(c, s, p);
    var q := s.procs[p];
    var row := SettledRow(s.store.rows[q.id], q.reply);
    SettleKeeps(s, p, row, [SettledEvent(q.id, s.store.rows[q.id], q.reply)]);
    if Step(c, s, FinishCreate(p)).procs != s.End(p).procs {
      ReadBackKeeps(s.End(p).Commit(s.store.(rows := s.store.rows[q.id := row]),
                                    [SettledEvent(q.id, s.store.rows[q.id], q.reply)]), p, q.id);
    }
  }

  lemma ReadBackKeeps(s: System, p: ProcId, id: PaymentId)
    requires Inv(s) && p !in s.procs
    requires id in s.store.rows && s.store.rows[id].status == Unknown && s.store.rows[id].reference == None
    ensures Inv(s.Move(p, CreateReadBack(id), []))
  {
    assert s.Move(p, CreateReadBack(id), []).log == s.log;
  }

  lemma InquiryStep(c: Config, s: System, p: ProcId)
    requires Enabled(c, s, ApplyInquiry(p))
    ensures Step(c, s, ApplyInquiry(p)) == ApplyInquiryStep(c, s, p)
  {}

  lemma ApplyInquiryKeeps(c: Config, s: System, p: ProcId)
    requires Inv(s) && Enabled(c, s, ApplyInquiry(p))
    ensures Inv(Step(c, s, ApplyInquiry(p)))
  {
    hide CreationsOpen, CallsOnce;
    var q := s.procs[p];
    assert HoldsReference(s.store, q);
    EndKeeps(s, p);
    if Wanted(q.origin, q.status) && c.backend == Sqlite {
      var (store', change) := s.store.Transitioned(q.id, q.status);
      WriteKeeps(s.End(p), store', [InquiryApplied(q.id, q.status)] + Written(change, q.id, ByInquiry(q.reference, q.status)));
    } else if Wanted(q.origin, q.status) && Legal(s.store.rows[q.id].status, q.status) {
      MoveKeeps(s, p, PgUpdate(q.id, s.store.rows[q.id].status, q.status, ByInquiry(q.reference, q.status)), []);
    } else if Wanted(q.origin, q.status) {
      WriteKeeps(s.End(p), s.store, [InquiryApplied(q.id, q.status)]);
    }
  }

  lemma DeliverKeeps(s: System, ev: WebhookEvent, id: PaymentId)
    requires Inv(s) && s.store.Matches(ev, id)
    ensures Inv(DeliverStep(s, ev, id))
  {
    hide CreationsOpen, CallsOnce;
    var (store', outcome) := s.store.ApplyWebhook(ev, id);
    WriteKeeps(s, store', [WebhookDelivered(ev, id, outcome != Duplicate)]
                          + (if outcome.Transition? then Written(outcome.outcome, id, ByWebhook(ev)) else []));
  }

  lemma PgInsertKeeps(c: Config, s: System, p: ProcId)
    requires Inv(s) && Enabled(c, s, PgInsertEvent(p))
    ensures Inv(Step(c, s, PgInsertEvent(p)))
  {
    hide CreationsOpen, CallsOnce;
    var q := s.procs[p];
    assert HoldsReference(s.store, q);
    EndKeeps(s, p);
    if q.ev.eventId in s.store.seen {
      WriteKeeps(s.End(p), s.store, [WebhookDelivered(q.ev, q.id, false)]);
    } else {
      var store' := s.store.(seen := s.store.seen + {q.ev.eventId});
      WriteKeeps(s.End(p), store', [WebhookDelivered(q.ev, q.id, true)]);
      var noted := s.End(p).Commit(store', [WebhookDelivered(q.ev, q.id, true)]);
      if PgInsertEventStep(s, p) != noted {
        MoveKeeps(noted, p, PgUpdate(q.id, q.from, q.ev.status, ByWebhook(q.ev)), []);
      }
    }
  }

  lemma PgWriteKeeps(c: Config, s: System, p: ProcId)
    requires Inv(s) && Enabled(c, s, PgWrite(p))
    ensures Inv(Step(c, s, PgWrite(p)))
  {
    hide CreationsOpen, CallsOnce;
    var q := s.procs[p];
    assert HoldsReference(s.store, q);
    EndKeeps(s, p);
    WriteKeeps(s.End(p), BlindStatus(s.store, q.id, q.to),
               (if q.cause.ByInquiry? then [InquiryApplied(q.id, q.cause.status)] else [])
               + BlindEvents(s.store, q.id, q.to, q.cause));
  }

  lemma RecordRefundKeeps(c: Config, s: System, p: ProcId)
    requires Inv(s) && Enabled(c, s, RecordRefund(p))
    ensures Inv(Step(c, s, RecordRefund(p)))
  {
    hide CreationsOpen, CallsOnce;
    var q := s.procs[p];
    assert HoldsReference(s.store, q);
    EndKeeps(s, p);
    var to := RefundedStatus(q.previously + q.refund, s.store.rows[q.id].amount);
    var (store', done) := s.store.RecordRefund(RefundRecord(q.result.id, q.id, q.refund, q.result.status), to);
    WriteKeeps(s.End(p), store', if done.Ok? then [StatusWritten(q.id, s.store.rows[q.id].status, to, ByRefund)] else []);
  }

  /** Steps that only move a request along. */
  lemma StartStepKeeps(c: Config, s: System, l: Label)
    requires Inv(s) && Enabled(c, s, l)
    requires l.GetPayment? || l.ReconcileStale? || l.ConsumeReconcile? || l.ReadForRefund?
             || (l.DeliverWebhook? && c.backend == Postgres)
    ensures Inv(Step(c, s, l))
  {
    hide CreationsOpen, CallsOnce;
    MoveKeeps(s, l.p, Step(c, s, l).procs[l.p], []);
  }

  lemma ReplyStepKeeps(c: Config, s: System, l: Label)
    requires Inv(s) && Enabled(c, s, l) && (l.ProviderReplies? || l.InquiryReplies? || l.RefundReplies?)
    ensures Inv(Step(c, s, l))
  {
    hide CreationsOpen, CallsOnce;
    assert HoldsReference(s.store, s.procs[l.p]);
    var s' := Step(c, s, l);
    var events := match l
      case ProviderReplies(p, reply) => [CreationReported(s.procs[p].id, reply)]
      case InquiryReplies(p, status) => [InquiryReported(s.procs[p].id, s.procs[p].reference, status)]
      case _ => [];
    MoveKeeps(s, l.p, s'.procs[l.p], events);
  }

  lemma CheckStepKeeps(c: Config, s: System, p: ProcId)
    requires Inv(s) && Enabled(c, s, CheckBalance(p))
    ensures Inv(Step(c, s, CheckBalance(p)))
  {
    hide CreationsOpen, CallsOnce;
    EndKeeps(s, p);
    var s' := Step(c, s, CheckBalance(p));
    if p in s'.procs { MoveKeeps(s, p, s'.procs[p], []); }
  }

  lemma QueueKeeps(s: System, webhooks: set<WebhookEvent>, reconciles: set<ReconcileMessage>, events: seq<Event>)
    requires Inv(s) && Quiet(events)
    requires forall m :: m in reconciles && m !in s.reconciles ==>
               m.id in s.store.rows && s.store.rows[m.id].reference == Some(m.reference)
    ensures Inv(s.(webhooks := webhooks, reconciles := reconciles, log := s.log + events))
  {}

  /** Steps that only touch the queues. */
  lemma QueueStepKeeps(c: Config, s: System, l: Label)
    requires Inv(s) && Enabled(c, s, l)
    requires l.PublishStale? || l.InquiryFails? || l.VerifyWebhook? || l.AckWebhook? || l.AckReconcile?
    ensures Inv(Step(c, s, l))
  {
    hide CreationsOpen, CallsOnce;
    var s' := Step(c, s, l);
    if l.InquiryFails? {
      EndKeeps(s, l.p);
      assert HoldsReference(s.store, s.procs[l.p]);
      QueueKeeps(s.End(l.p), s'.webhooks, s'.reconciles, []);
      assert s'.log == s.log + [];
    } else {
      var events := if l.VerifyWebhook? then [WebhookVerified(l.ev)] else [];
      QueueKeeps(s, s'.webhooks, s'.reconciles, events);
      assert s'.log == s.log + events;
    }
  }

  lemma StepKeeps(c: Config, s: System, l: Label)
    requires Inv(s) && Enabled(c, s, l)
    ensures Inv(Step(c, s, l))
  {
    hide CreationsOpen, CallsOnce;
    match l
    case Begin(p, front, request, newId) => BeginKeeps(s, p, front, request, newId);
    case CallProvider(p) => CallKeeps(c, s, p);
    case FinishCreate(p) => FinishKeeps(c, s, p);
    case ApplyInquiry(p) => ApplyInquiryKeeps(c, s, p);
    case DeliverWebhook(p, ev, id) =>
      if c.backend == Sqlite { DeliverKeeps(s, ev, id); } else { StartStepKeeps(c, s, l); }
    case PgInsertEvent(p) => PgInsertKeeps(c, s, p);
    case PgWrite(p) => PgWriteKeeps(c, s, p);
    case RecordRefund(p) => RecordRefundKeeps(c, s, p);
    case ReadBack(p) => EndKeeps(s, p);
    case Crash(p) => EndKeeps(s, p);
    case PublishStale(_) => QueueStepKeeps(c, s, l);
    case InquiryFails(_) => QueueStepKeeps(c, s, l);
    case VerifyWebhook(_) => QueueStepKeeps(c, s, l);
    case AckWebhook(_) => QueueStepKeeps(c, s, l);
    case AckReconcile(_) => QueueStepKeeps(c, s, l);
    case ProviderReplies(_, _) => ReplyStepKeeps(c, s, l);
    case InquiryReplies(_, _) => ReplyStepKeeps(c, s, l);
    case RefundReplies(_, _) => ReplyStepKeeps(c, s, l);
    case CheckBalance(p) => CheckStepKeeps(c, s, p);
    case _ => StartStepKeeps(c, s, l);
  }

  // ---- Whole runs ----

  lemma {:induction false} RunKeeps(c: Config, s: System, ls: seq<Label>, s': System)
    requires Inv(s) && Runs(c, s, ls, s')
    ensures Inv(s')
    decreases |ls|
  {
    if ls != [] {
      StepKeeps(c, s, ls[0]);
      RunKeeps(c, Step(c, s, ls[0]), ls[1..], s');
    }
  }

  lemma ReachableKeeps(c: Config, s: System)
    requires Reachable(c, s)
    ensures Inv(s)
  {
    var ls :| Runs(c, START, ls, s);
    RunKeeps(c, START, ls, s);
  }

  function CallsFor(log: seq<Event>, key: IdempotencyKey): nat {
    if log == [] then 0
    else CallsFor(log[..|log| - 1], key) + (if log[|log| - 1].ProviderCalled? && log[|log| - 1].key == key then 1 else 0)
  }

  lemma {:induction false} DistinctCallsCount(log: seq<Event>, key: IdempotencyKey)
    requires forall i, j :: 0 <= i < j < |log| && log[i].ProviderCalled? && log[j].ProviderCalled? ==> log[i].key != log[j].key
    ensures CallsFor(log, key) <= 1
    ensures CallsFor(log, key) == 1 ==> exists i :: 0 <= i < |log| && log[i].ProviderCalled? && log[i].key == key
  {
    if log != [] {
      DistinctCallsCount(log[..|log| - 1], key);
    }
  }

  /** At most once: however creates from both front ends, retries and crashes interleave, the
      provider is asked to create a payment at most once per idempotency key. */
  lemma AtMostOnce(c: Config, s: System, key: IdempotencyKey)
    requires Reachable(c, s)
    ensures CallsFor(s.log, key) <= 1
  {
    ReachableKeeps(c, s);
    DistinctCallsCount(s.log, key);
  }

  lemma {:induction false} IdentityForever(c: Config, s: System, ls: seq<Label>, s': System, id: PaymentId)
    requires Inv(s) && Runs(c, s, ls, s') && id in s.store.rows
    ensures id in s'.store.rows
    ensures s'.store.rows[id].key == s.store.rows[id].key
    ensures s'.store.rows[id].fingerprint == s.store.rows[id].fingerprint
    ensures s'.store.rows[id].provider == s.store.rows[id].provider
    ensures s'.store.rows[id].amount == s.store.rows[id].amount
    ensures s.store.rows[id].reference.Some? ==> s'.store.rows[id].reference == s.store.rows[id].reference
    decreases |ls|
  {
    if ls != [] {
      StepKeeps(c, s, ls[0]);
      StepKeepsIdentity(c, s, ls[0], id);
      IdentityForever(c, Step(c, s, ls[0]), ls[1..], s', id);
    }
  }

  lemma StepKeepsIdentity(c: Config, s: System, l: Label, id: PaymentId)
    requires Inv(s) && Enabled(c, s, l) && id in s.store.rows
    ensures var s' := Step(c, s, l);
      && id in s'.store.rows
      && s'.store.rows[id].key == s.store.rows[id].key
      && s'.store.rows[id].fingerprint == s.store.rows[id].fingerprint
      && s'.store.rows[id].provider == s.store.rows[id].provider
      && s'.store.rows[id].amount == s.store.rows[id].amount
      && (s.store.rows[id].reference.Some? ==> s'.store.rows[id].reference == s.store.rows[id].reference)
  {
    hide Inv;
    if l.FinishCreate? { FinishKeepsIdentity(c, s, l.p, id); }
  }

  lemma FinishKeepsIdentity(c: Config, s: System, p: ProcId, id: PaymentId)
    requires Inv(s) && Enabled(c, s, FinishCreate(p)) && id in s.store.rows
    ensures var s' := Step(c, s, FinishCreate(p));
      && id in s'.store.rows
      && s'.store.rows[id].key == s.store.rows[id].key
      && s'.store.rows[id].fingerprint == s.store.rows[id].fingerprint
      && s'.store.rows[id].provider == s.store.rows[id].provider
      && s'.store.rows[id].amount == s.store.rows[id].amount
      && (s.store.rows[id].reference.Some? ==> s'.store.rows[id].reference == s.store.rows[id].reference)
  {
    CreationNeverClobbers(c, s, p);
    hide Inv, Step;
  }

  /** One key, one payment, for the rest of time: once a key has claimed a payment, every later
      create with that key answers with that payment when the fingerprint is the recorded one and
      with Conflict otherwise, and neither answer starts a request or writes anything. */
  lemma KeyDecidesForever(c: Config, s: System, ls: seq<Label>, s': System, request: PaymentRequest, newId: PaymentId,
                          p: ProcId, front: Front)
    requires Reachable(c, s) && Runs(c, s, ls, s') && request.key in s.store.byKey && p !in s'.procs
    ensures var id := s.store.byKey[request.key];
      && id in s.store.rows && id in s'.store.rows
      && s'.store.Begin(request, newId)
           == (s'.store, Ok(if request.fingerprint == s.store.rows[id].fingerprint
                            then ReturnExisting(id, s'.store.rows[id]) else Conflict))
      && Step(c, s', Begin(p, front, request, newId)) == s'
  {
    ReachableKeeps(c, s);
    RunKeeps(c, s, ls, s');
    IdentityForever(c, s, ls, s', s.store.byKey[request.key]);
  }

  /** The create that claims a key decides it: from then on the payment is the one that create asked for,
      every repeat of it, from either front end, is answered with that payment and any other use of the
      key with Conflict, and neither answer does anything else. */
  lemma RepeatedCreate(
    c: Config, s: System, p: ProcId, front: Front, request: PaymentRequest, id: PaymentId, ls: seq<Label>, s': System,
    p': ProcId, front': Front, again: PaymentRequest, newId: PaymentId)
    requires Reachable(c, s) && p !in s.procs && request.key !in s.store.byKey && id !in s.store.rows
    requires Runs(c, Step(c, s, Begin(p, front, request, id)), ls, s') && p' !in s'.procs && again.key == request.key
    ensures && id in s'.store.rows && s'.store.rows[id].key == request.key
            && s'.store.rows[id].fingerprint == request.fingerprint
            && s'.store.rows[id].provider == request.provider && s'.store.rows[id].amount == request.amount
    ensures s'.store.Begin(again, newId)
         == (s'.store, Ok(if again.fingerprint == request.fingerprint then ReturnExisting(id, s'.store.rows[id]) else Conflict))
    ensures Step(c, s', Begin(p', front', again, newId)) == s'
  {
    var l := Begin(p, front, request, id);
    ReachableKeeps(c, s);
    BeginClaims(s.store, request, id);
    StepKeeps(c, s, l);
    var claimed := Step(c, s, l);
    assert claimed.store == s.store.Begin(request, id).0;
    IdentityForever(c, claimed, ls, s', id);
    RunKeeps(c, claimed, ls, s');
    BeginClaims(s'.store, again, newId);
  }

  /** No clobbering, in every reachable state: see `CreationNeverClobbers`. */
  lemma NoClobbering(c: Config, s: System, p: ProcId)
    requires Reachable(c, s) && Enabled(c, s, FinishCreate(p))
    ensures var q := s.procs[p];
      && q.id in s.store.rows
      && s.store.rows[q.id].status == Pending && s.store.rows[q.id].reference == None
      && Settles(s.store, Step(c, s, FinishCreate(p)).store, q.id, q.reply)
  {
    ReachableKeeps(c, s);
    CreationNeverClobbers(c, s, p);
    hide Inv, Step;
    SettledSettles(s.store, Step(c, s, FinishCreate(p)).store, s.procs[p].id, s.procs[p].reply);
  }

  lemma SettledSettles(a: Store, b: Store, id: PaymentId, reply: Reply)
    requires id in a.rows && b == a.(rows := a.rows[id := SettledRow(a.rows[id], reply)])
    ensures Settles(a, b, id, reply)
  {
    if reply.Rejected? { AmbiguousErrors(reply.error); }
  }

  /** What the reply to a creation call makes of its payment, and of nothing else. */
  ghost predicate Settles(a: Store, b: Store, id: PaymentId, reply: Reply) {
    && id in a.rows && id in b.rows && OthersKept(a, b, id)
    && b.byKey == a.byKey && b.seen == a.seen && b.refunds == a.refunds
    && b.rows[id].key == a.rows[id].key && b.rows[id].fingerprint == a.rows[id].fingerprint
    && b.rows[id].provider == a.rows[id].provider && b.rows[id].amount == a.rows[id].amount
    && (match reply
        case Created(reference, status, action) =>
          && b.rows[id].reference == Some(reference) && b.rows[id].nextAction == action
          && b.rows[id].status == (if status == CreationPending then Pending else Unknown)
        case Rejected(error) =>
          && b.rows[id].reference == a.rows[id].reference
          && b.rows[id].status == (if error in {Network, Timeout, Provider, Security, UnknownOutcome, Internal}
                                   then Unknown else Failed))
  }

  /** The record the HTTP front end reads back after an ambiguous creation is there and is `Unknown`:
      its "payment vanished" branch cannot be taken. */
  lemma ReadBackFindsUnknown(c: Config, s: System, p: ProcId)
    requires Reachable(c, s) && Enabled(c, s, ReadBack(p))
    ensures s.procs[p].id in s.store.rows && s.store.rows[s.procs[p].id].status == Unknown
  {
    ReachableKeeps(c, s);
  }

  /** No request can still give the payment a reference. */
  ghost predicate Orphaned(s: System, id: PaymentId) {
    && id in s.store.rows && s.store.rows[id].reference == None
    && forall p :: p in s.procs && s.procs[p].Creating() ==> s.procs[p].id != id
  }

  lemma OrphanFinish(c: Config, s: System, p: ProcId, id: PaymentId)
    requires Inv(s) && Enabled(c, s, FinishCreate(p)) && Orphaned(s, id)
    ensures Orphaned(Step(c, s, FinishCreate(p)), id)
    ensures Step(c, s, FinishCreate(p)).store.rows[id] == s.store.rows[id]
  {
    hide CallsOnce, ReferencesHeld, Step;
    CreationNeverClobbers(c, s, p);
  }

  /** A write that finds a reference leaves orphans alone. */
  lemma OrphanWrite(c: Config, s: System, l: Label, id: PaymentId)
    requires Inv(s) && Enabled(c, s, l) && Orphaned(s, id)
    requires l.ApplyInquiry? || l.PgWrite? || l.RecordRefund?
    ensures Orphaned(Step(c, s, l), id) && Step(c, s, l).store.rows[id] == s.store.rows[id]
  {
    assert HoldsReference(s.store, s.procs[l.p]) && s.procs[l.p].id != id;
    hide Inv;
  }

  lemma OrphanQuiet(c: Config, s: System, l: Label, id: PaymentId)
    requires Enabled(c, s, l) && Orphaned(s, id)
    requires !l.FinishCreate? && !l.ApplyInquiry? && !l.PgWrite? && !l.RecordRefund?
    ensures Orphaned(Step(c, s, l), id) && Step(c, s, l).store.rows[id] == s.store.rows[id]
  {}

  lemma OrphanStep(c: Config, s: System, l: Label, id: PaymentId)
    requires Inv(s) && Enabled(c, s, l) && Orphaned(s, id)
    ensures Orphaned(Step(c, s, l), id) && Step(c, s, l).store.rows[id] == s.store.rows[id]
  {
    hide Inv, Step, Enabled;
    if l.FinishCreate? {
      OrphanFinish(c, s, l.p, id);
    } else if l.ApplyInquiry? || l.PgWrite? || l.RecordRefund? {
      OrphanWrite(c, s, l, id);
    } else {
      OrphanQuiet(c, s, l, id);
    }
  }

  /** A payment left without a reference - by an ambiguous creation, a refusal or a crash - keeps its
      row exactly as it is for ever: no webhook, GET, queue or reconciler can resolve it. */
  lemma {:induction false} OrphanForever(c: Config, s: System, ls: seq<Label>, s': System, id: PaymentId)
    requires Inv(s) && Orphaned(s, id) && Runs(c, s, ls, s')
    ensures id in s'.store.rows && s'.store.rows[id] == s.store.rows[id]
    decreases |ls|
  {
    if ls != [] {
      StepKeeps(c, s, ls[0]);
      OrphanStep(c, s, ls[0], id);
      OrphanForever(c, Step(c, s, ls[0]), ls[1..], s', id);
    }
  }

  lemma OrphanedByRejection(c: Config, s: System, p: ProcId)
    requires Inv(s) && Enabled(c, s, FinishCreate(p)) && s.procs[p].reply.Rejected?
    ensures Orphaned(Step(c, s, FinishCreate(p)), s.procs[p].id)
  {
    CreationNeverClobbers(c, s, p);
    assert s.procs[p].Creating();
    hide Step;
  }

  /** An ambiguous creation is such a case: after any of these errors the payment is `Unknown` with no
      reference, in every later state of every run. */
  lemma AmbiguousStaysUnknown(c: Config, s: System, p: ProcId, ls: seq<Label>, s': System)
    requires Reachable(c, s) && Enabled(c, s, FinishCreate(p)) && s.procs[p].reply.Rejected?
    requires s.procs[p].reply.error in {Network, Timeout, Provider, Security, UnknownOutcome, Internal}
    requires Runs(c, Step(c, s, FinishCreate(p)), ls, s')
    ensures s.procs[p].id in s'.store.rows
    ensures s'.store.rows[s.procs[p].id].status == Unknown && s'.store.rows[s.procs[p].id].reference == None
  {
    hide Inv, Step, Reachable, Runs, Orphaned;
    ReachableKeeps(c, s);
    NoClobbering(c, s, p);
    StepKeeps(c, s, FinishCreate(p));
    OrphanedByRejection(c, s, p);
    OrphanForever(c, Step(c, s, FinishCreate(p)), ls, s', s.procs[p].id);
  }

  /** And a refused one is another: after any of these the payment is `Failed`, for good. */
  lemma RefusedStaysFailed(c: Config, s: System, p: ProcId, ls: seq<Label>, s': System)
    requires Reachable(c, s) && Enabled(c, s, FinishCreate(p)) && s.procs[p].reply.Rejected?
    requires s.procs[p].reply.error in {Validation, Authentication, Authorization, Configuration,
                                        UnsupportedCapability, RateLimit, IdempotencyConflict}
    requires Runs(c, Step(c, s, FinishCreate(p)), ls, s')
    ensures s.procs[p].id in s'.store.rows
    ensures s'.store.rows[s.procs[p].id].status == Failed && s'.store.rows[s.procs[p].id].reference == None
  {
    hide Inv, Step, Reachable, Runs, Orphaned;
    ReachableKeeps(c, s);
    NoClobbering(c, s, p);
    StepKeeps(c, s, FinishCreate(p));
    OrphanedByRejection(c, s, p);
    OrphanForever(c, Step(c, s, FinishCreate(p)), ls, s', s.procs[p].id);
  }
}
