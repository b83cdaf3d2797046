/** The payment protocol as a transition system: any number of requests, queue consumers and
    reconciler passes in flight, each broken at its awaits into atomic steps, and crashes.

    A run is a list of labels; a label carries every choice the world makes (which request moves,
    what a provider answers, which ids are drawn), so the next state is a function of it. */
module Gateway {
  import opened Wrappers
  import opened PaymentStates
  import opened Stores

  datatype Backend = Sqlite | Postgres

  datatype Config = Config(backend: Backend, maxRetries: nat)

  datatype ProcId = ProcId(n: int)

  datatype Front = Http | Grpc

  /** What a provider's `create_payment` call returns. */
  datatype Reply =
    | Created(reference: ProviderReference, status: CreationStatus, action: Option<string>)
    | Rejected(error: OpenWrapperError)

  datatype RefundResult = RefundResult(id: RefundId, status: RefundStatus)

  datatype ReconcileMessage = ReconcileMessage(
    id: PaymentId, provider: ProviderId, reference: ProviderReference, attempt: nat)

  datatype Origin = FromGet(snapshot: PaymentStatus) | FromReconciler | FromQueue(message: ReconcileMessage)

  datatype Cause =
    | ByCreation | ByRejection | ByAmbiguity | ByRefund
    | ByWebhook(ev: WebhookEvent) | ByInquiry(reference: ProviderReference, status: PaymentStatus)

  /** A request in flight, between two of its steps. */
  datatype Proc =
    | CreateReady(id: PaymentId, front: Front, key: IdempotencyKey)
    | CreateWaiting(id: PaymentId, front: Front)
    | CreateAnswered(id: PaymentId, front: Front, reply: Reply)
    | CreateReadBack(id: PaymentId)
    | Inquiring(id: PaymentId, reference: ProviderReference, origin: Origin)
    | InquiryAnswered(id: PaymentId, reference: ProviderReference, origin: Origin, status: PaymentStatus)
    | PgWebhookRead(id: PaymentId, ev: WebhookEvent, from: PaymentStatus)
    | PgUpdate(id: PaymentId, from: PaymentStatus, to: PaymentStatus, cause: Cause)
    | RefundChecked(id: PaymentId, refund: MinorUnits)
    | RefundCalling(id: PaymentId, refund: MinorUnits, previously: nat)
    | RefundAnswered(id: PaymentId, refund: MinorUnits, previously: nat, result: RefundResult)
  {
    /** Still on its way to the write that ends creation. */
    predicate Creating() {
      CreateReady? || CreateWaiting? || CreateAnswered?
    }

    predicate Refunding() {
      RefundChecked? || RefundCalling? || RefundAnswered?
    }
  }

  /** The audit trail of a run. Nothing in the protocol reads it. */
  datatype Event =
    | RowCreated(id: PaymentId)
    | ProviderCalled(key: IdempotencyKey, id: PaymentId)
    | CreationReported(id: PaymentId, reply: Reply)
    | InquiryReported(id: PaymentId, reference: ProviderReference, status: PaymentStatus)
    | WebhookVerified(ev: WebhookEvent)
    | WebhookDelivered(ev: WebhookEvent, id: PaymentId, first: bool)
    | InquiryApplied(id: PaymentId, status: PaymentStatus)
    | StatusWritten(id: PaymentId, from: PaymentStatus, to: PaymentStatus, cause: Cause)

  datatype System = System(
    store: Store, procs: map<ProcId, Proc>,
    webhooks: set<WebhookEvent>, reconciles: set<ReconcileMessage>, log: seq<Event>)
  {
    function Move(p: ProcId, proc: Proc, events: seq<Event>): System {
      this.(procs := procs[p := proc], log := log + events)
    }

    function End(p: ProcId): System {
      this.(procs := procs - {p})
    }

    function Commit(store': Store, events: seq<Event>): System {
      this.(store := store', log := log + events)
    }
  }

  const START := System(Store(map[], map[], {}, []), map[], {}, {}, [])

  datatype Label =
    | Begin(p: ProcId, front: Front, request: PaymentRequest, newId: PaymentId)
    | CallProvider(p: ProcId)
    | ProviderReplies(p: ProcId, reply: Reply)
    | FinishCreate(p: ProcId)
    | ReadBack(p: ProcId)
    | GetPayment(p: ProcId, id: PaymentId)
    | ReconcileStale(p: ProcId, id: PaymentId)
    | PublishStale(id: PaymentId)
    | ConsumeReconcile(p: ProcId, message: ReconcileMessage)
    | InquiryReplies(p: ProcId, status: PaymentStatus)
    | InquiryFails(p: ProcId)
    | ApplyInquiry(p: ProcId)
    | VerifyWebhook(ev: WebhookEvent)
    | DeliverWebhook(p: ProcId, ev: WebhookEvent, id: PaymentId)
    | PgInsertEvent(p: ProcId)
    | PgWrite(p: ProcId)
    | ReadForRefund(p: ProcId, id: PaymentId, refund: MinorUnits)
    | CheckBalance(p: ProcId)
    | RefundReplies(p: ProcId, result: RefundResult)
    | RecordRefund(p: ProcId)
    | AckWebhook(ev: WebhookEvent)
    | AckReconcile(message: ReconcileMessage)
    | Crash(p: ProcId)

  predicate Enabled(c: Config, s: System, l: Label)
  {
    match l
    case Begin(p, _, _, _) => p !in s.procs
    case CallProvider(p) => p in s.procs && s.procs[p].CreateReady?
    case ProviderReplies(p, _) => p in s.procs && s.procs[p].CreateWaiting?
    case FinishCreate(p) => p in s.procs && s.procs[p].CreateAnswered?
    case ReadBack(p) => p in s.procs && s.procs[p].CreateReadBack?
    // get_payment asks the provider only about a non-terminal payment that has a reference.
    case GetPayment(p, id) =>
      && p !in s.procs && id in s.store.rows
      && !s.store.rows[id].status.IsTerminal() && s.store.rows[id].reference.Some?
    // The stale list is read once per pass, so a payment's status may have moved on since.
    case ReconcileStale(p, id) => p !in s.procs && id in s.store.rows && s.store.rows[id].reference.Some?
    case PublishStale(id) => id in s.store.rows && s.store.rows[id].reference.Some?
    case ConsumeReconcile(p, m) => p !in s.procs && m in s.reconciles
    case InquiryReplies(p, _) => p in s.procs && s.procs[p].Inquiring?
    case InquiryFails(p) => p in s.procs && s.procs[p].Inquiring?
    case ApplyInquiry(p) => p in s.procs && s.procs[p].InquiryAnswered?
    case VerifyWebhook(_) => true
    case DeliverWebhook(p, ev, id) => p !in s.procs && ev in s.webhooks && s.store.Matches(ev, id)
    case PgInsertEvent(p) => p in s.procs && s.procs[p].PgWebhookRead?
    case PgWrite(p) => p in s.procs && s.procs[p].PgUpdate?
    case ReadForRefund(p, id, _) =>
      && p !in s.procs && id in s.store.rows
      && (s.store.rows[id].status == Succeeded || s.store.rows[id].status == PartiallyRefunded)
    case CheckBalance(p) => p in s.procs && s.procs[p].RefundChecked? && s.procs[p].id in s.store.rows
    case RefundReplies(p, _) => p in s.procs && s.procs[p].RefundCalling?
    case RecordRefund(p) => p in s.procs && s.procs[p].RefundAnswered? && s.procs[p].id in s.store.rows
    case AckWebhook(ev) => ev in s.webhooks
    case AckReconcile(m) => m in s.reconciles
    case Crash(p) => p in s.procs
  }

  function Step(c: Config, s: System, l: Label): System
    requires Enabled(c, s, l)
  {
    match l
    case Begin(p, front, request, newId) => BeginStep(s, p, front, request, newId)
    case CallProvider(p) =>
      var q := s.procs[p];
      s.Move(p, CreateWaiting(q.id, q.front), [ProviderCalled(q.key, q.id)])
    case ProviderReplies(p, reply) =>
      s.Move(p, CreateAnswered(s.procs[p].id, s.procs[p].front, reply), [CreationReported(s.procs[p].id, reply)])
    case FinishCreate(p) => FinishCreateStep(c, s, p)
    case ReadBack(p) => s.End(p)
    case GetPayment(p, id) =>
      var row := s.store.rows[id];
      s.Move(p, Inquiring(id, row.reference.value, FromGet(row.status)), [])
    case ReconcileStale(p, id) => s.Move(p, Inquiring(id, s.store.rows[id].reference.value, FromReconciler), [])
    case PublishStale(id) =>
      var row := s.store.rows[id];
      s.(reconciles := s.reconciles + {ReconcileMessage(id, row.provider, row.reference.value, 0)})
    case ConsumeReconcile(p, m) => s.Move(p, Inquiring(m.id, m.reference, FromQueue(m)), [])
    case InquiryReplies(p, status) =>
      var q := s.procs[p];
      s.Move(p, InquiryAnswered(q.id, q.reference, q.origin, status), [InquiryReported(q.id, q.reference, status)])
    case InquiryFails(p) => InquiryFailsStep(c, s, p)
    case ApplyInquiry(p) => ApplyInquiryStep(c, s, p)
    case VerifyWebhook(ev) => s.(webhooks := s.webhooks + {ev}, log := s.log + [WebhookVerified(ev)])
    case DeliverWebhook(p, ev, id) =>
      if c.backend == Sqlite then DeliverStep(s, ev, id)
      else s.Move(p, PgWebhookRead(id, ev, s.store.rows[id].status), [])
    case PgInsertEvent(p) => PgInsertEventStep(s, p)
    case PgWrite(p) => PgWriteStep(s, p)
    case ReadForRefund(p, id, refund) => s.Move(p, RefundChecked(id, refund), [])
    case CheckBalance(p) =>
      var q := s.procs[p];
      var previously := TotalRefunded(s.store.refunds, q.id);
      if q.refund > s.store.rows[q.id].amount - previously || s.store.rows[q.id].reference.None? then s.End(p)
      else s.Move(p, RefundCalling(q.id, q.refund, previously), [])
    case RefundReplies(p, result) =>
      var q := s.procs[p];
      s.Move(p, RefundAnswered(q.id, q.refund, q.previously, result), [])
    case RecordRefund(p) => RecordRefundStep(s, p)
    case AckWebhook(ev) => s.(webhooks := s.webhooks - {ev})
    case AckReconcile(m) => s.(reconciles := s.reconciles - {m})
    case Crash(p) => s.End(p)
  }

  function BeginStep(s: System, p: ProcId, front: Front, request: PaymentRequest, newId: PaymentId): System
    requires p !in s.procs
  {
    var (store', outcome) := s.store.Begin(request, newId);
    if outcome.Ok? && outcome.value.Proceed? then
      s.Commit(store', [RowCreated(newId)]).Move(p, CreateReady(newId, front, request.key), [])
    else s
  }

  /** The write that ends creation. SQLite re-checks the row, PostgreSQL writes blindly. */
  function FinishCreateStep(c: Config, s: System, p: ProcId): System
    requires p in s.procs && s.procs[p].CreateAnswered?
  {
    var id := s.procs[p].id;
    match s.procs[p].reply
    case Created(reference, status, action) =>
      if c.backend == Sqlite then
        var (store', done) := s.store.RecordCreation(id, reference, status.ToStatus(), action);
        s.End(p).Commit(store', if done.Ok? then [StatusWritten(id, s.store.rows[id].status, status.ToStatus(), ByCreation)] else [])
      else if id in s.store.rows then
        var row := s.store.rows[id];
        s.End(p).Commit(s.store.(rows := s.store.rows[id := row.(reference := Some(reference), status := status.ToStatus(), nextAction := action)]),
                        [StatusWritten(id, row.status, status.ToStatus(), ByCreation)])
      else s.End(p)
    case Rejected(error) =>
      var to := if error.IsDefiniteNonOccurrence() then Failed else Unknown;
      var cause := if error.IsDefiniteNonOccurrence() then ByRejection else ByAmbiguity;
      var written := c.backend == Postgres || s.store.UpdateStatus(id, to).1.Ok?;
      var s' := if written
                then s.End(p).Commit(BlindStatus(s.store, id, to), BlindEvents(s.store, id, to, cause))
                else s.End(p);
      // The HTTP front end reads the Unknown record back before it answers.
      if written && to == Unknown && s.procs[p].front == Http then s'.Move(p, CreateReadBack(id), []) else s'
  }

  function InquiryFailsStep(c: Config, s: System, p: ProcId): System
    requires p in s.procs && s.procs[p].Inquiring?
  {
    match s.procs[p].origin
    case FromQueue(m) =>
      if m.attempt + 1 < c.maxRetries
      then s.End(p).(reconciles := s.reconciles + {m.(attempt := m.attempt + 1)})
      else s.End(p)
    case _ => s.End(p)
  }

  /** Whether an inquiry's answer is written at all; otherwise only `updated_at` is touched. */
  predicate Wanted(origin: Origin, status: PaymentStatus) {
    status != Unknown && (origin.FromGet? ==> status != origin.snapshot)
  }

  function ApplyInquiryStep(c: Config, s: System, p: ProcId): System
    requires p in s.procs && s.procs[p].InquiryAnswered?
  {
    var q := s.procs[p];
    if !Wanted(q.origin, q.status) || q.id !in s.store.rows then s.End(p)
    else if c.backend == Sqlite then
      var (store', change) := s.store.Transitioned(q.id, q.status);
      s.End(p).Commit(store', [InquiryApplied(q.id, q.status)] + Written(change, q.id, ByInquiry(q.reference, q.status)))
    else
      var from := s.store.rows[q.id].status;
      if Legal(from, q.status)
      then s.Move(p, PgUpdate(q.id, from, q.status, ByInquiry(q.reference, q.status)), [])
      else s.End(p).Commit(s.store, [InquiryApplied(q.id, q.status)])
  }

  function DeliverStep(s: System, ev: WebhookEvent, id: PaymentId): System
    requires s.store.Matches(ev, id)
  {
    var (store', outcome) := s.store.ApplyWebhook(ev, id);
    s.Commit(store', [WebhookDelivered(ev, id, outcome != Duplicate)]
                     + (if outcome.Transition? then Written(outcome.outcome, id, ByWebhook(ev)) else []))
  }

  function PgInsertEventStep(s: System, p: ProcId): System
    requires p in s.procs && s.procs[p].PgWebhookRead?
  {
    var q := s.procs[p];
    if q.ev.eventId in s.store.seen then s.End(p).Commit(s.store, [WebhookDelivered(q.ev, q.id, false)])
    else
      var noted := s.End(p).Commit(s.store.(seen := s.store.seen + {q.ev.eventId}), [WebhookDelivered(q.ev, q.id, true)]);
      if q.id in s.store.rows && AmountAgrees(q.ev.amount, s.store.rows[q.id].amount) && Legal(q.from, q.ev.status)
      then noted.Move(p, PgUpdate(q.id, q.from, q.ev.status, ByWebhook(q.ev)), [])
      else noted
  }

  function PgWriteStep(s: System, p: ProcId): System
    requires p in s.procs && s.procs[p].PgUpdate?
  {
    var q := s.procs[p];
    s.End(p).Commit(BlindStatus(s.store, q.id, q.to),
                    (if q.cause.ByInquiry? then [InquiryApplied(q.id, q.cause.status)] else [])
                    + BlindEvents(s.store, q.id, q.to, q.cause))
  }

  function RecordRefundStep(s: System, p: ProcId): System
    requires p in s.procs && s.procs[p].RefundAnswered? && s.procs[p].id in s.store.rows
  {
    var q := s.procs[p];
    var to := RefundedStatus(q.previously + q.refund, s.store.rows[q.id].amount);
    var (store', done) := s.store.RecordRefund(RefundRecord(q.result.id, q.id, q.refund, q.result.status), to);
    s.End(p).Commit(store', if done.Ok? then [StatusWritten(q.id, s.store.rows[q.id].status, to, ByRefund)] else [])
  }

  function RefundedStatus(total: int, amount: int): PaymentStatus {
    if total >= amount then Refunded else PartiallyRefunded
  }

  /** `UPDATE payments SET status = ... WHERE id = ...` with no look at the current status. */
  function BlindStatus(store: Store, id: PaymentId, to: PaymentStatus): Store {
    if id in store.rows then store.SetStatus(id, to) else store
  }

  function BlindEvents(store: Store, id: PaymentId, to: PaymentStatus, cause: Cause): seq<Event> {
    if id in store.rows then [StatusWritten(id, store.rows[id].status, to, cause)] else []
  }

  function Written(change: TransitionOutcome, id: PaymentId, cause: Cause): seq<Event> {
    if change.Applied? then [StatusWritten(id, change.from, change.to, cause)] else []
  }

  /** `ls` is a run from `s` that ends in `s'`. */
  ghost predicate Runs(c: Config, s: System, ls: seq<Label>, s': System)
    decreases |ls|
  {
    if ls == [] then s == s'
    else
      && Enabled(c, s, ls[0])
      && Runs(c, Step(c, s, ls[0]), ls[1..], s')
  }

  ghost predicate Reachable(c: Config, s: System) {
    exists ls :: Runs(c, START, ls, s)
  }

  lemma {:induction false} RunsExtend(c: Config, s: System, ls: seq<Label>, mid: System, l: Label)
    requires Runs(c, s, ls, mid) && Enabled(c, mid, l)
    ensures Runs(c, s, ls + [l], Step(c, mid, l))
    decreases |ls|
  {
    if ls == [] {
      assert ls + [l] == [l] && [l][1..] == [];
    } else {
      assert (ls + [l])[1..] == ls[1..] + [l];
      RunsExtend(c, Step(c, s, ls[0]), ls[1..], mid, l);
    }
  }

  lemma ReachableStep(c: Config, s: System, l: Label)
    requires Reachable(c, s) && Enabled(c, s, l)
    ensures Reachable(c, Step(c, s, l))
  {
    var ls :| Runs(c, START, ls, s);
    RunsExtend(c, START, ls, s, l);
  }
}
