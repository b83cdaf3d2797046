/** Where a payment's outcome comes from: no failure and no capture is ever guessed. */
module GatewayEvidence {
  import opened Wrappers
  import opened PaymentStates
  import opened Stores
  import opened Gateway
  import opened GatewaySafety

  predicate SaysAbout(ev: WebhookEvent, row: PaymentRow, status: PaymentStatus) {
    && ev.provider == row.provider && row.reference == Some(ev.reference)
    && ev.status == status && AmountAgrees(ev.amount, row.amount)
  }

  /** The provider itself reported `status` for this payment: by inquiry, or by a verified
      webhook for its reference and amount. */
  ghost predicate Reported(log: seq<Event>, id: PaymentId, row: PaymentRow, status: PaymentStatus) {
    && row.reference.Some?
    && (|| InquiryReported(id, row.reference.value, status) in log
        || exists ev :: WebhookVerified(ev) in log && SaysAbout(ev, row, status))
  }

  /** The creation call came back with an error that rules out that anything was charged. */
  ghost predicate Refused(log: seq<Event>, id: PaymentId) {
    exists e: OpenWrapperError :: e.IsDefiniteNonOccurrence() && CreationReported(id, Rejected(e)) in log
  }

  ghost predicate RowBacked(log: seq<Event>, id: PaymentId, row: PaymentRow) {
    && (row.status == Failed ==> Refused(log, id) || Reported(log, id, row, Failed))
    && (Captured(row.status) ==> Reported(log, id, row, Succeeded))
  }

  ghost predicate ProcBacked(log: seq<Event>, store: Store, q: Proc) {
    match q
    case CreateAnswered(id, _, reply) => CreationReported(id, reply) in log
    case InquiryAnswered(id, reference, _, status) => InquiryReported(id, reference, status) in log
    case PgWebhookRead(id, ev, from) =>
      id in store.rows && WebhookVerified(ev) in log && (Captured(from) ==> Reported(log, id, store.rows[id], Succeeded))
    case PgUpdate(id, _, to, _) => id in store.rows && ToBacked(log, id, store.rows[id], to)
    case RefundChecked(id, _) => id in store.rows && Reported(log, id, store.rows[id], Succeeded)
    case RefundCalling(id, _, _) => id in store.rows && Reported(log, id, store.rows[id], Succeeded)
    case RefundAnswered(id, _, _, _) => id in store.rows && Reported(log, id, store.rows[id], Succeeded)
    case _ => true
  }

  ghost predicate ToBacked(log: seq<Event>, id: PaymentId, row: PaymentRow, to: PaymentStatus) {
    && (to == Failed ==> Reported(log, id, row, Failed))
    && (Captured(to) ==> Reported(log, id, row, Succeeded))
  }

  ghost predicate Backed(s: System) {
    && (forall id :: id in s.store.rows ==> RowBacked(s.log, id, s.store.rows[id]))
    && (forall p :: p in s.procs ==> ProcBacked(s.log, s.store, s.procs[p]))
    && (forall ev :: ev in s.webhooks ==> WebhookVerified(ev) in s.log)
  }

  predicate SameIdentity(a: PaymentRow, b: PaymentRow) {
    && a.provider == b.provider && a.amount == b.amount
    && (a.reference.Some? ==> b.reference == a.reference)
  }

  ghost predicate Grows(s: System, s': System) {
    && (forall e :: e in s.log ==> e in s'.log)
    && (forall id :: id in s.store.rows ==> id in s'.store.rows && SameIdentity(s.store.rows[id], s'.store.rows[id]))
  }

  lemma ReportedPersists(log: seq<Event>, log': seq<Event>, id: PaymentId, row: PaymentRow, row': PaymentRow, status: PaymentStatus)
    requires Reported(log, id, row, status) && SameIdentity(row, row')
    requires forall e :: e in log ==> e in log'
    ensures Reported(log', id, row', status)
  {
    if InquiryReported(id, row.reference.value, status) !in log {
      var ev :| WebhookVerified(ev) in log && SaysAbout(ev, row, status);
      assert WebhookVerified(ev) in log' && SaysAbout(ev, row', status);
    }
  }

  lemma ProcPersists(s: System, s': System, q: Proc)
    requires ProcBacked(s.log, s.store, q) && Grows(s, s')
    ensures ProcBacked(s'.log, s'.store, q)
  {
    match q
    case CreateAnswered(_, _, _) =>
    case InquiryAnswered(_, _, _, _) =>
    case CreateReady(_, _, _) =>
    case CreateWaiting(_, _) =>
    case CreateReadBack(_) =>
    case Inquiring(_, _, _) =>
    case _ =>
      var id := q.id;
      forall status | Reported(s.log, id, s.store.rows[id], status)
        ensures Reported(s'.log, id, s'.store.rows[id], status)
      {
        ReportedPersists(s.log, s'.log, id, s.store.rows[id], s'.store.rows[id], status);
      }
  }

  lemma RowPersists(s: System, s': System, id: PaymentId)
    requires id in s.store.rows && RowBacked(s.log, id, s.store.rows[id]) && Grows(s, s')
    requires s'.store.rows[id].status == s.store.rows[id].status
    ensures RowBacked(s'.log, id, s'.store.rows[id])
  {
    forall status | Reported(s.log, id, s.store.rows[id], status)
      ensures Reported(s'.log, id, s'.store.rows[id], status)
    {
      ReportedPersists(s.log, s'.log, id, s.store.rows[id], s'.store.rows[id], status);
    }
    if Refused(s.log, id) {
      var e: OpenWrapperError :| e.IsDefiniteNonOccurrence() && CreationReported(id, Rejected(e)) in s.log;
      assert CreationReported(id, Rejected(e)) in s'.log;
    }
  }

  /** A step keeps everything backed if what it adds is backed. */
  lemma Assemble(s: System, s': System)
    requires Backed(s) && Grows(s, s')
    requires forall p :: p in s'.procs ==>
      (p in s.procs && s'.procs[p] == s.procs[p]) || ProcBacked(s'.log, s'.store, s'.procs[p])
    requires forall id :: id in s'.store.rows ==>
      (id in s.store.rows && s'.store.rows[id].status == s.store.rows[id].status) || RowBacked(s'.log, id, s'.store.rows[id])
    requires forall ev :: ev in s'.webhooks ==> ev in s.webhooks || WebhookVerified(ev) in s'.log
    ensures Backed(s')
  {
    forall p | p in s'.procs ensures ProcBacked(s'.log, s'.store, s'.procs[p]) {
      if p in s.procs && s'.procs[p] == s.procs[p] { ProcPersists(s, s', s.procs[p]); }
    }
    forall id | id in s'.store.rows ensures RowBacked(s'.log, id, s'.store.rows[id]) {
      if id in s.store.rows && s'.store.rows[id].status == s.store.rows[id].status { RowPersists(s, s', id); }
    }
  }

  lemma StepGrows(c: Config, s: System, l: Label)
    requires Inv(s) && Enabled(c, s, l)
    ensures Grows(s, Step(c, s, l))
  {
    hide Inv;
    var s' := Step(c, s, l);
    assert s.log <= s'.log;
    assert forall e :: e in s.log ==> e in s'.log;
    forall id | id in s.store.rows
      ensures id in s'.store.rows && SameIdentity(s.store.rows[id], s'.store.rows[id])
    {
      StepKeepsIdentity(c, s, l, id);
    }
  }

  lemma ReportBacks(log: seq<Event>, id: PaymentId, row: PaymentRow, to: PaymentStatus)
    requires Reported(log, id, row, to)
    requires to in {PartiallyRefunded, Refunded} ==> Captured(row.status) && RowBacked(log, id, row)
    ensures ToBacked(log, id, row, to)
  {}

  lemma FinishChanges(c: Config, s: System, p: ProcId)
    requires Inv(s) && Enabled(c, s, FinishCreate(p))
    ensures var s', q := Step(c, s, FinishCreate(p)), s.procs[p];
      && q.id in s.store.rows && s.store.rows[q.id].status == Pending
      && s'.store.rows == s.store.rows[q.id := SettledRow(s.store.rows[q.id], q.reply)] && s'.webhooks == s.webhooks
      && forall o :: o in s'.procs ==> (o in s.procs && s'.procs[o] == s.procs[o]) || s'.procs[o].CreateReadBack?
  {
    CreationNeverClobbers(c, s, p);
    hide Inv, Step;
  }

  lemma FinishBacked(c: Config, s: System, p: ProcId)
    requires Inv(s) && Backed(s) && Enabled(c, s, FinishCreate(p))
    ensures Backed(Step(c, s, FinishCreate(p)))
  {
    hide Inv, Step;
    var s', q := Step(c, s, FinishCreate(p)), s.procs[p];
    StepGrows(c, s, FinishCreate(p));
    FinishChanges(c, s, p);
    assert ProcBacked(s.log, s.store, q);
    assert CreationReported(q.id, q.reply) in s'.log;
    if q.reply.Rejected? && q.reply.error.IsDefiniteNonOccurrence() {
      assert Refused(s'.log, q.id);
    }
    assert RowBacked(s'.log, q.id, s'.store.rows[q.id]);
    hide Backed, RowBacked, Grows, Refused;
    Assemble(s, s');
  }

  /** The answer is written at once, or left to the UPDATE, or dropped. */
  ghost predicate Answers(s: System, s': System, p: ProcId)
    requires p in s.procs && s.procs[p].InquiryAnswered?
  {
    var q := s.procs[p];
    && s'.webhooks == s.webhooks && s'.procs - {p} == s.procs - {p}
    && (|| (s'.store.rows == s.store.rows && p !in s'.procs)
        || (q.id in s.store.rows && Legal(s.store.rows[q.id].status, q.status)
            && s'.store.rows == s.store.rows[q.id := s.store.rows[q.id].WithStatus(q.status)] && p !in s'.procs)
        || (q.id in s.store.rows && Legal(s.store.rows[q.id].status, q.status) && s'.store.rows == s.store.rows && p in s'.procs
            && s'.procs[p] == PgUpdate(q.id, s.store.rows[q.id].status, q.status, ByInquiry(q.reference, q.status))))
  }

  lemma InquiryActs(c: Config, s: System, p: ProcId)
    requires Enabled(c, s, ApplyInquiry(p))
    ensures Answers(s, Step(c, s, ApplyInquiry(p)), p)
  {
    InquiryStep(c, s, p);
    hide Step, Enabled;
  }

  /** A provider's answer backs the status it asks for. */
  lemma AnswerBacks(s: System, s': System, q: Proc)
    requires q.InquiryAnswered? && ProcBacked(s.log, s.store, q) && HoldsReference(s.store, q) && Grows(s, s')
    requires Legal(s.store.rows[q.id].status, q.status) && RowBacked(s.log, q.id, s.store.rows[q.id])
    ensures q.id in s'.store.rows && ToBacked(s'.log, q.id, s'.store.rows[q.id], q.status)
  {
    assert Reported(s.log, q.id, s.store.rows[q.id], q.status);
    ReportBacks(s.log, q.id, s.store.rows[q.id], q.status);
    Moved(s, s', q.id, q.status);
  }

  lemma ToBacksRow(log: seq<Event>, id: PaymentId, row: PaymentRow)
    requires ToBacked(log, id, row, row.status)
    ensures RowBacked(log, id, row)
  {}

  lemma AnsweredBacked(s: System, s': System, p: ProcId)
    requires Backed(s) && Grows(s, s') && p in s.procs && s.procs[p].InquiryAnswered? && Answers(s, s', p)
    requires HoldsReference(s.store, s.procs[p])
    ensures Backed(s')
  {
    var q := s.procs[p];
    assert ProcBacked(s.log, s.store, q) && RowBacked(s.log, q.id, s.store.rows[q.id]);
    hide Backed, RowBacked, ToBacked, Grows, Reported;
    if Legal(s.store.rows[q.id].status, q.status) {
      AnswerBacks(s, s', q);
      if s'.store.rows != s.store.rows { ToBacksRow(s'.log, q.id, s'.store.rows[q.id]); }
    }
    OthersStay(s, s', p);
    Assemble(s, s');
  }

  lemma InquiryBacked(c: Config, s: System, p: ProcId)
    requires Inv(s) && Backed(s) && Enabled(c, s, ApplyInquiry(p))
    ensures Backed(Step(c, s, ApplyInquiry(p)))
  {
    assert HoldsReference(s.store, s.procs[p]);
    hide Step, Inv, HoldsReference, Backed, Grows, Answers;
    StepGrows(c, s, ApplyInquiry(p));
    InquiryActs(c, s, p);
    AnsweredBacked(s, Step(c, s, ApplyInquiry(p)), p);
  }

  lemma OthersStay(s: System, s': System, p: ProcId)
    requires s'.procs - {p} == s.procs - {p}
    ensures forall o :: o in s'.procs && o != p ==> o in s.procs && s'.procs[o] == s.procs[o]
  {
    forall o | o in s'.procs && o != p ensures o in s.procs && s'.procs[o] == s.procs[o] {
      assert o in s'.procs - {p} && (s'.procs - {p})[o] == (s.procs - {p})[o];
    }
  }

  /** What was backed for the row before a step is backed after it. */
  lemma Moved(s: System, s': System, id: PaymentId, to: PaymentStatus)
    requires id in s.store.rows && Grows(s, s') && ToBacked(s.log, id, s.store.rows[id], to)
    ensures ToBacked(s'.log, id, s'.store.rows[id], to)
  {
    forall status | Reported(s.log, id, s.store.rows[id], status)
      ensures Reported(s'.log, id, s'.store.rows[id], status)
    {
      ReportedPersists(s.log, s'.log, id, s.store.rows[id], s'.store.rows[id], status);
    }
  }

  lemma DeliverBacked(c: Config, s: System, l: Label)
    requires Inv(s) && Backed(s) && Enabled(c, s, l) && l.DeliverWebhook?
    ensures Backed(Step(c, s, l))
  {
    hide CreationsOpen, CallsOnce;
    var s' := Step(c, s, l);
    StepGrows(c, s, l);
    var row := s.store.rows[l.id];
    assert WebhookVerified(l.ev) in s.log;
    if c.backend == Sqlite {
      if AmountAgrees(l.ev.amount, row.amount) && Legal(row.status, l.ev.status) {
        assert SaysAbout(l.ev, row, l.ev.status);
        ReportBacks(s.log, l.id, row, l.ev.status);
        Moved(s, s', l.id, l.ev.status);
      }
    } else {
      ProcPersists(s, s', PgWebhookRead(l.id, l.ev, row.status));
    }
    Assemble(s, s');
  }

  lemma PgWriteBacked(c: Config, s: System, p: ProcId)
    requires Inv(s) && Backed(s) && Enabled(c, s, PgWrite(p))
    ensures Backed(Step(c, s, PgWrite(p)))
  {
    var s', q := Step(c, s, PgWrite(p)), s.procs[p];
    assert ProcBacked(s.log, s.store, q);
    assert s'.procs == s.procs - {p} && s'.webhooks == s.webhooks;
    assert s'.store.rows == s.store.rows[q.id := s.store.rows[q.id].WithStatus(q.to)];
    hide Step, Inv, Backed, RowBacked, ToBacked, Grows;
    StepGrows(c, s, PgWrite(p));
    Moved(s, s', q.id, q.to);
    ToBacksRow(s'.log, q.id, s'.store.rows[q.id]);
    Assemble(s, s');
  }

  lemma PgInsertEffect(c: Config, s: System, p: ProcId)
    requires Enabled(c, s, PgInsertEvent(p)) && s.procs[p].id in s.store.rows
    ensures var s', q := Step(c, s, PgInsertEvent(p)), s.procs[p];
      && s'.store.rows == s.store.rows && s'.webhooks == s.webhooks
      && s'.procs - {p} == s.procs - {p}
      && (p in s'.procs ==>
            && s'.procs[p] == PgUpdate(q.id, q.from, q.ev.status, ByWebhook(q.ev))
            && AmountAgrees(q.ev.amount, s.store.rows[q.id].amount) && Legal(q.from, q.ev.status))
  {}

  lemma PgUpdateBacked(c: Config, s: System, p: ProcId)
    requires Inv(s) && Backed(s) && Enabled(c, s, PgInsertEvent(p)) && p in Step(c, s, PgInsertEvent(p)).procs
    ensures var s' := Step(c, s, PgInsertEvent(p)); ProcBacked(s'.log, s'.store, s'.procs[p])
  {
    var s' := Step(c, s, PgInsertEvent(p));
    var q := s.procs[p];
    StepGrows(c, s, PgInsertEvent(p));
    assert ProcBacked(s.log, s.store, q) && HoldsReference(s.store, q);
    PgInsertEffect(c, s, p);
    hide Inv, Step, Grows, Backed, HoldsReference;
    assert SaysAbout(q.ev, s.store.rows[q.id], q.ev.status);
    Moved(s, s', q.id, q.ev.status);
  }

  lemma PgInsertBacked(c: Config, s: System, p: ProcId)
    requires Inv(s) && Backed(s) && Enabled(c, s, PgInsertEvent(p))
    ensures Backed(Step(c, s, PgInsertEvent(p)))
  {
    var s' := Step(c, s, PgInsertEvent(p));
    assert HoldsReference(s.store, s.procs[p]);
    hide Inv, Step, Backed, ProcBacked, RowBacked, Grows;
    StepGrows(c, s, PgInsertEvent(p));
    PgInsertEffect(c, s, p);
    if p in s'.procs { PgUpdateBacked(c, s, p); }
    forall p' | p' in s'.procs && p' != p ensures p' in s.procs && s'.procs[p'] == s.procs[p'] {
      assert p' in s'.procs - {p} && (s'.procs - {p})[p'] == (s.procs - {p})[p'];
    }
    Assemble(s, s');
  }

  /** A refund in flight, at any of its steps, rests on a captured payment. */
  lemma RefundMoves(c: Config, s: System, l: Label, id: PaymentId)
    requires Inv(s) && Backed(s) && Enabled(c, s, l)
    requires l.ReadForRefund? || l.CheckBalance? || l.RefundReplies?
    requires id in s.store.rows && Reported(s.log, id, s.store.rows[id], Succeeded)
    requires if l.ReadForRefund? then l.id == id else s.procs[l.p].id == id
    ensures Backed(Step(c, s, l))
  {
    hide CreationsOpen, ReferencesHeld, CallsOnce, HoldsReference, Reported;
    var s' := Step(c, s, l);
    assert s'.log == s.log;
    assert s'.store == s.store;
    Assemble(s, s');
  }

  lemma RefundRecords(c: Config, s: System, p: ProcId)
    requires Inv(s) && Backed(s) && Enabled(c, s, RecordRefund(p))
    ensures Backed(Step(c, s, RecordRefund(p)))
  {
    hide CreationsOpen, ReferencesHeld, CallsOnce, HoldsReference;
    var s' := Step(c, s, RecordRefund(p));
    StepGrows(c, s, RecordRefund(p));
    var id := s.procs[p].id;
    assert ProcBacked(s.log, s.store, s.procs[p]);
    ReportedPersists(s.log, s'.log, id, s.store.rows[id], s'.store.rows[id], Succeeded);
    Assemble(s, s');
  }

  lemma RefundBacked(c: Config, s: System, l: Label)
    requires Inv(s) && Backed(s) && Enabled(c, s, l)
    requires l.ReadForRefund? || l.CheckBalance? || l.RefundReplies? || l.RecordRefund?
    ensures Backed(Step(c, s, l))
  {
    hide CreationsOpen, ReferencesHeld, CallsOnce, HoldsReference, Step;
    if l.RecordRefund? {
      RefundRecords(c, s, l.p);
    } else {
      var id := if l.ReadForRefund? then l.id else s.procs[l.p].id;
      if !l.ReadForRefund? { assert ProcBacked(s.log, s.store, s.procs[l.p]); }
      RefundMoves(c, s, l, id);
    }
  }

  lemma StepKeepsBacked(c: Config, s: System, l: Label)
    requires Inv(s) && Backed(s) && Enabled(c, s, l)
    ensures Backed(Step(c, s, l))
  {
    hide Inv, Backed, Step;
    match l
    case FinishCreate(p) => FinishBacked(c, s, p);
    case ApplyInquiry(p) => InquiryBacked(c, s, p);
    case DeliverWebhook(_, _, _) => DeliverBacked(c, s, l);
    case PgInsertEvent(p) => PgInsertBacked(c, s, p);
    case PgWrite(p) => PgWriteBacked(c, s, p);
    case ReadForRefund(_, _, _) => RefundBacked(c, s, l);
    case CheckBalance(_) => RefundBacked(c, s, l);
    case RefundReplies(_, _) => RefundBacked(c, s, l);
    case RecordRefund(_) => RefundBacked(c, s, l);
    case _ => OtherBacked(c, s, l);
  }

  /** A request that rests on nothing but what was reported to it. */
  predicate Witnessed(log: seq<Event>, q: Proc) {
    match q
    case CreateReady(_, _, _) => true
    case CreateWaiting(_, _) => true
    case CreateReadBack(_) => true
    case Inquiring(_, _, _) => true
    case CreateAnswered(id, _, reply) => CreationReported(id, reply) in log
    case InquiryAnswered(id, reference, _, status) => InquiryReported(id, reference, status) in log
    case _ => false
  }

  predicate IsOther(l: Label) {
    !IsWrite(l) && !l.FinishCreate? && !l.DeliverWebhook? && !l.ReadForRefund? && !l.CheckBalance? && !l.RefundReplies?
  }

  predicate IsWrite(l: Label) {
    l.ApplyInquiry? || l.PgInsertEvent? || l.PgWrite? || l.RecordRefund?
  }

  lemma OtherActs(c: Config, s: System, l: Label)
    requires Enabled(c, s, l) && IsOther(l)
    ensures var s' := Step(c, s, l);
      && (forall id :: id in s'.store.rows ==>
            (id in s.store.rows && s'.store.rows[id].status == s.store.rows[id].status) || s'.store.rows[id].status == Pending)
      && (forall p :: p in s'.procs ==> (p in s.procs && s'.procs[p] == s.procs[p]) || Witnessed(s'.log, s'.procs[p]))
  {}

  lemma OtherVerifies(c: Config, s: System, l: Label)
    requires Enabled(c, s, l) && IsOther(l)
    ensures var s' := Step(c, s, l);
      forall ev :: ev in s'.webhooks ==> ev in s.webhooks || WebhookVerified(ev) in s'.log
  {}

  lemma OtherBacked(c: Config, s: System, l: Label)
    requires Inv(s) && Backed(s) && Enabled(c, s, l) && IsOther(l)
    ensures Backed(Step(c, s, l))
  {
    hide Inv, Step, Enabled, Backed, Grows;
    StepGrows(c, s, l);
    OtherActs(c, s, l);
    OtherVerifies(c, s, l);
    Assemble(s, Step(c, s, l));
  }

  lemma {:induction false} RunKeepsBacked(c: Config, s: System, ls: seq<Label>, s': System)
    requires Inv(s) && Backed(s) && Runs(c, s, ls, s')
    ensures Backed(s')
    decreases |ls|
  {
    if ls != [] {
      StepKeeps(c, s, ls[0]);
      StepKeepsBacked(c, s, ls[0]);
      RunKeepsBacked(c, Step(c, s, ls[0]), ls[1..], s');
    }
  }

  /** The provider said so about this very payment: in an answer to an inquiry for its reference, or in a
      verified webhook from it, with that reference, whose amount if any is the payment's. */
  ghost predicate SaidBy(s: System, id: PaymentId, status: PaymentStatus)
    requires id in s.store.rows
  {
    var row := s.store.rows[id];
    && row.reference.Some?
    && (|| InquiryReported(id, row.reference.value, status) in s.log
        || exists ev ::
             && WebhookVerified(ev) in s.log && ev.provider == row.provider && ev.reference == row.reference.value
             && ev.status == status && (ev.amount == None || ev.amount == Some(row.amount as int)))
  }

  /** No guessed outcome: in every reachable state of either backend, a payment is `Failed` only if
      its creation was definitely refused or its provider reported `Failed` for it, and it is
      captured only if its provider reported `Succeeded` for it. */
  lemma NoGuessedOutcome(c: Config, s: System, id: PaymentId)
    requires Reachable(c, s) && id in s.store.rows
    ensures s.store.rows[id].status == Failed ==>
      || (exists error ::
            && error in {Validation, Authentication, Authorization, Configuration,
                         UnsupportedCapability, RateLimit, IdempotencyConflict}
            && CreationReported(id, Rejected(error)) in s.log)
      || SaidBy(s, id, Failed)
    ensures s.store.rows[id].status in {Succeeded, PartiallyRefunded, Refunded} ==> SaidBy(s, id, Succeeded)
  {
    var ls :| Runs(c, START, ls, s);
    RunKeepsBacked(c, START, ls, s);
    assert RowBacked(s.log, id, s.store.rows[id]);
  }
}
