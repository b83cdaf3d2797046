/** What a request that runs undisturbed achieves, from every reachable state of either backend: the
    steps its handler takes, in order, and what they leave behind. */
module Routes {
  import opened Wrappers
  import opened PaymentStates
  import opened Stores
  import opened Gateway
  import opened GatewaySafety

  /** A run and the reachable state it leads to. */
  ghost predicate Leads(c: Config, s: System, ls: seq<Label>, s': System) {
    Runs(c, s, ls, s') && Reachable(c, s')
  }

  lemma Nowhere(c: Config, s: System)
    requires Reachable(c, s)
    ensures Leads(c, s, [], s)
  {}

  lemma Onward(c: Config, s: System, ls: seq<Label>, mid: System, l: Label)
    requires Leads(c, s, ls, mid) && Enabled(c, mid, l)
    ensures Leads(c, s, ls + [l], Step(c, mid, l))
  {
    RunsExtend(c, s, ls, mid, l);
    ReachableStep(c, mid, l);
  }

  // ---- Creation ----

  lemma Claimed(c: Config, s: System, p: ProcId, front: Front, request: PaymentRequest, id: PaymentId) returns (s': System)
    requires Reachable(c, s) && p !in s.procs && request.key !in s.store.byKey && id !in s.store.rows
    ensures Leads(c, s, [Begin(p, front, request, id)], s')
    ensures Claims(s.store, s'.store, request, id) && s'.procs == s.procs[p := CreateReady(id, front, request.key)]
  {
    hide Leads;
    Nowhere(c, s);
    var l := Begin(p, front, request, id);
    s' := Step(c, s, l);
    Onward(c, s, [], s, l);
    assert [] + [l] == [l];
    ReachableKeeps(c, s);
    hide Inv, Reachable;
    assert s.store.Consistent() by { ConsistentHolds(c, s); }
    BeginClaims(s.store, request, id);
  }

  lemma ConsistentHolds(c: Config, s: System)
    requires Reachable(c, s)
    ensures s.store.Consistent()
  {
    ReachableKeeps(c, s);
  }

  lemma Called(c: Config, s0: System, ls: seq<Label>, s: System, p: ProcId, reply: Reply) returns (s': System)
    requires Leads(c, s0, ls, s) && p in s.procs && s.procs[p].CreateReady?
    ensures Leads(c, s0, ls + [CallProvider(p), ProviderReplies(p, reply)], s') && s'.store == s.store
    ensures s'.procs == s.procs[p := CreateAnswered(s.procs[p].id, s.procs[p].front, reply)]
    ensures ProviderCalled(s.procs[p].key, s.procs[p].id) in s'.log
  {
    hide Leads;
    Onward(c, s0, ls, s, CallProvider(p));
    var mid := Step(c, s, CallProvider(p));
    Onward(c, s0, ls + [CallProvider(p)], mid, ProviderReplies(p, reply));
    s' := Step(c, mid, ProviderReplies(p, reply));
    assert ls + [CallProvider(p)] + [ProviderReplies(p, reply)] == ls + [CallProvider(p), ProviderReplies(p, reply)];
    assert s'.procs == s.procs[p := CreateAnswered(s.procs[p].id, s.procs[p].front, reply)];
  }

  /** A create: the payment is stored as requested, the provider is asked once, and its reply decides
      reference, status and next action. */
  lemma CreationRoute(c: Config, s: System, p: ProcId, front: Front, request: PaymentRequest, id: PaymentId, reply: Reply)
    returns (s': System)
    requires Reachable(c, s) && p !in s.procs && request.key !in s.store.byKey && id !in s.store.rows
    ensures Runs(c, s, [Begin(p, front, request, id), CallProvider(p), ProviderReplies(p, reply), FinishCreate(p)], s')
    ensures CallsFor(s'.log, request.key) == 1
    ensures id in s'.store.rows && OthersKept(s.store, s'.store, id)
    ensures var row := s'.store.rows[id];
      && row.key == request.key && row.fingerprint == request.fingerprint
      && row.provider == request.provider && row.amount == request.amount
      && (match reply
          case Created(reference, status, action) =>
            row.reference == Some(reference) && row.status == status.ToStatus() && row.nextAction == action
          case Rejected(error) =>
            && row.reference == None
            && row.status == (if error in {Network, Timeout, Provider, Security, UnknownOutcome, Internal} then Unknown else Failed))
  {
    hide Leads, Reachable, Step, Runs;
    var s1 := Claimed(c, s, p, front, request, id);
    var s2 := Called(c, s, [Begin(p, front, request, id)], s1, p, reply);
    var ls := [Begin(p, front, request, id)] + [CallProvider(p), ProviderReplies(p, reply)];
    assert Enabled(c, s2, FinishCreate(p));
    Onward(c, s, ls, s2, FinishCreate(p));
    s' := Step(c, s2, FinishCreate(p));
    assert ls + [FinishCreate(p)] == [Begin(p, front, request, id), CallProvider(p), ProviderReplies(p, reply), FinishCreate(p)];
    Landed(c, s, ls, s2);
    Landed(c, s, ls + [FinishCreate(p)], s');
    NoClobbering(c, s2, p);
    StaysCalled(c, s2, FinishCreate(p), ProviderCalled(request.key, id));
    AtMostOnce(c, s', request.key);
    CalledCounts(s'.log, request.key, ProviderCalled(request.key, id));
  }

  lemma Landed(c: Config, s: System, ls: seq<Label>, s': System)
    requires Leads(c, s, ls, s')
    ensures Runs(c, s, ls, s') && Reachable(c, s')
  {}

  lemma StaysCalled(c: Config, s: System, l: Label, e: Event)
    requires Enabled(c, s, l) && e in s.log
    ensures e in Step(c, s, l).log
  {
    assert s.log <= Step(c, s, l).log;
    hide Step;
  }

  lemma {:induction false} CalledCounts(log: seq<Event>, key: IdempotencyKey, e: Event)
    requires e in log && e.ProviderCalled? && e.key == key
    ensures CallsFor(log, key) >= 1
  {
    if log[|log| - 1] != e {
      assert log == log[..|log| - 1] + [log[|log| - 1]];
      CalledCounts(log[..|log| - 1], key, e);
    }
  }

  // ---- Webhooks ----

  /** The payment keeps everything but its status and next action, and the others everything. */
  ghost predicate OnlyStatus(s: System, s': System, id: PaymentId, status: PaymentStatus) {
    && id in s.store.rows && SameBut(s.store, s'.store, id, status) && s'.store.refunds == s.store.refunds
  }

  ghost predicate SameRows(s: System, s': System) {
    s'.store.rows == s.store.rows && s'.store.byKey == s.store.byKey && s'.store.refunds == s.store.refunds
  }

  /** The webhook is about this payment. */
  ghost predicate About(s: System, ev: WebhookEvent, id: PaymentId) {
    && id in s.store.rows && s.store.rows[id].provider == ev.provider && s.store.rows[id].reference == Some(ev.reference)
  }

  lemma Verified(c: Config, s: System, ev: WebhookEvent) returns (s': System)
    requires Reachable(c, s)
    ensures Leads(c, s, [VerifyWebhook(ev)], s') && s'.store == s.store && s'.procs == s.procs && ev in s'.webhooks
  {
    hide Leads, Reachable;
    Nowhere(c, s);
    Onward(c, s, [], s, VerifyWebhook(ev));
    assert [] + [VerifyWebhook(ev)] == [VerifyWebhook(ev)];
    s' := Step(c, s, VerifyWebhook(ev));
  }

  /** A verified webhook, delivered: on SQLite in one step, on PostgreSQL in up to three. A first delivery of
      a legal status whose amount, if it reports one, is the payment's sets that status; a repeated
      event id, a differing amount or an illegal status changes no payment; each event is seen afterwards. */
  lemma WebhookRoute(c: Config, s: System, p: ProcId, ev: WebhookEvent, id: PaymentId) returns (ls: seq<Label>, s': System)
    requires Reachable(c, s) && p !in s.procs && About(s, ev, id)
    ensures Leads(c, s, ls, s')
    ensures ls == [VerifyWebhook(ev), DeliverWebhook(p, ev, id)]
            || (c.backend == Postgres && ls == [VerifyWebhook(ev), DeliverWebhook(p, ev, id), PgInsertEvent(p)])
            || (c.backend == Postgres && ls == [VerifyWebhook(ev), DeliverWebhook(p, ev, id), PgInsertEvent(p), PgWrite(p)])
    ensures s'.procs == s.procs && s'.store.seen == s.store.seen + {ev.eventId}
    ensures if ev.eventId !in s.store.seen && (ev.amount == None || ev.amount == Some(s.store.rows[id].amount as int))
               && Legal(s.store.rows[id].status, ev.status)
            then OnlyStatus(s, s', id, ev.status) else SameRows(s, s')
  {
    hide Leads, Reachable;
    var s1 := Verified(c, s, ev);
    var l := DeliverWebhook(p, ev, id);
    Onward(c, s, [VerifyWebhook(ev)], s1, l);
    assert [VerifyWebhook(ev)] + [l] == [VerifyWebhook(ev), l];
    if c.backend == Sqlite {
      ls, s' := [VerifyWebhook(ev), l], Step(c, s1, l);
      DeliveredOnSqlite(c, s1, l);
    } else {
      ls, s' := PgWebhookRoute(c, s, [VerifyWebhook(ev), l], Step(c, s1, l), p);
      assert s'.procs == s.procs;
    }
  }

  lemma DeliveredOnSqlite(c: Config, s: System, l: Label)
    requires c.backend == Sqlite && Enabled(c, s, l) && l.DeliverWebhook?
    ensures var s', ev, id := Step(c, s, l), l.ev, l.id;
      && s'.procs == s.procs && s'.store.seen == s.store.seen + {ev.eventId}
      && (if ev.eventId !in s.store.seen && (ev.amount == None || ev.amount == Some(s.store.rows[id].amount as int))
             && Legal(s.store.rows[id].status, ev.status)
          then OnlyStatus(s, s', id, ev.status) else SameRows(s, s'))
  {}

  /** PostgreSQL, from the row as read. */
  lemma PgWebhookRoute(c: Config, s0: System, ls0: seq<Label>, s: System, p: ProcId) returns (ls: seq<Label>, s': System)
    requires Leads(c, s0, ls0, s) && p in s.procs && s.procs[p].PgWebhookRead?
    requires About(s, s.procs[p].ev, s.procs[p].id) && s.procs[p].from == s.store.rows[s.procs[p].id].status
    ensures Leads(c, s0, ls, s') && (ls == ls0 + [PgInsertEvent(p)] || ls == ls0 + [PgInsertEvent(p), PgWrite(p)])
    ensures s'.procs == s.procs - {p}
    ensures var ev, id := s.procs[p].ev, s.procs[p].id;
      && s'.store.seen == s.store.seen + {ev.eventId}
      && (if ev.eventId !in s.store.seen && (ev.amount == None || ev.amount == Some(s.store.rows[id].amount as int))
             && Legal(s.store.rows[id].status, ev.status)
          then OnlyStatus(s, s', id, ev.status) else SameRows(s, s'))
  {
    hide Leads;
    Onward(c, s0, ls0, s, PgInsertEvent(p));
    ls, s' := ls0 + [PgInsertEvent(p)], Step(c, s, PgInsertEvent(p));
    if p in s'.procs {
      Onward(c, s0, ls, s', PgWrite(p));
      ls, s' := ls + [PgWrite(p)], Step(c, s', PgWrite(p));
      assert ls == ls0 + [PgInsertEvent(p), PgWrite(p)];
      assert s'.procs == s.procs - {p};
    }
  }

  /** At no step of a delivery, whatever happens in between, does an amount other than the payment's change
      a payment or leave a change to be made. */
  lemma WrongAmountIgnored(c: Config, s: System, l: Label, ev: WebhookEvent, id: PaymentId)
    requires Enabled(c, s, l) && id in s.store.rows && ev.amount.Some? && ev.amount.value != s.store.rows[id].amount
    requires (l.DeliverWebhook? && l.ev == ev && l.id == id)
             || (l.PgInsertEvent? && s.procs[l.p].ev == ev && s.procs[l.p].id == id)
    ensures Step(c, s, l).store.rows == s.store.rows
    ensures l.p in Step(c, s, l).procs ==> Step(c, s, l).procs[l.p].PgWebhookRead?
  {}

  // ---- Inquiries ----

  /** Asking about a payment, by whichever route. */
  ghost predicate Asks(s: System, p: ProcId, id: PaymentId) {
    && p in s.procs && s.procs[p].Inquiring? && s.procs[p].id == id
    && id in s.store.rows && s.store.rows[id].reference == Some(s.procs[p].reference)
    && (s.procs[p].origin.FromGet? ==> s.procs[p].origin.snapshot == s.store.rows[id].status)
  }

  /** A GET asks about any payment with a reference that is not settled yet. */
  lemma GetAsks(c: Config, s: System, p: ProcId, id: PaymentId) returns (s': System)
    requires Reachable(c, s) && p !in s.procs && id in s.store.rows && s.store.rows[id].reference.Some?
    requires s.store.rows[id].status in {Pending, Unknown, PartiallyRefunded}
    ensures Leads(c, s, [GetPayment(p, id)], s') && s'.store == s.store && s'.procs - {p} == s.procs && Asks(s', p, id)
  {
    hide Leads;
    Nowhere(c, s);
    Onward(c, s, [], s, GetPayment(p, id));
    assert [] + [GetPayment(p, id)] == [GetPayment(p, id)];
    s' := Step(c, s, GetPayment(p, id));
    assert s'.procs - {p} == s.procs;
  }

  /** The reconciler asks in place, */
  lemma ReconcilerAsks(c: Config, s: System, p: ProcId, id: PaymentId) returns (s': System)
    requires Reachable(c, s) && p !in s.procs && id in s.store.rows && s.store.rows[id].reference.Some?
    ensures Leads(c, s, [ReconcileStale(p, id)], s') && s'.store == s.store && s'.procs - {p} == s.procs && Asks(s', p, id)
  {
    hide Leads;
    Nowhere(c, s);
    Onward(c, s, [], s, ReconcileStale(p, id));
    assert [] + [ReconcileStale(p, id)] == [ReconcileStale(p, id)];
    s' := Step(c, s, ReconcileStale(p, id));
    assert s'.procs - {p} == s.procs;
  }

  /** or through the queue, with a message of attempt 0. */
  lemma QueueAsks(c: Config, s: System, p: ProcId, id: PaymentId) returns (m: ReconcileMessage, s': System)
    requires Reachable(c, s) && p !in s.procs && id in s.store.rows && s.store.rows[id].reference.Some?
    ensures m == ReconcileMessage(id, s.store.rows[id].provider, s.store.rows[id].reference.value, 0)
    ensures Leads(c, s, [PublishStale(id), ConsumeReconcile(p, m)], s')
    ensures s'.store == s.store && s'.procs - {p} == s.procs && Asks(s', p, id) && s'.procs[p].origin == FromQueue(m)
  {
    hide Leads;
    Nowhere(c, s);
    m := ReconcileMessage(id, s.store.rows[id].provider, s.store.rows[id].reference.value, 0);
    Onward(c, s, [], s, PublishStale(id));
    var mid := Step(c, s, PublishStale(id));
    Onward(c, s, [] + [PublishStale(id)], mid, ConsumeReconcile(p, m));
    assert [] + [PublishStale(id)] + [ConsumeReconcile(p, m)] == [PublishStale(id), ConsumeReconcile(p, m)];
    s' := Step(c, mid, ConsumeReconcile(p, m));
    assert s'.procs - {p} == s.procs;
  }

  /** Whoever asks, an answer other than `Unknown` that is legal becomes the payment's status, and any other
      answer changes nothing. */
  lemma AnswerRoute(c: Config, s0: System, ls0: seq<Label>, s: System, p: ProcId, id: PaymentId, status: PaymentStatus)
    returns (ls: seq<Label>, s': System)
    requires Leads(c, s0, ls0, s) && Asks(s, p, id)
    ensures Leads(c, s0, ls, s') && (ls == ls0 + [InquiryReplies(p, status), ApplyInquiry(p)]
                                     || ls == ls0 + [InquiryReplies(p, status), ApplyInquiry(p), PgWrite(p)])
    ensures s'.procs == s.procs - {p} && s'.store.seen == s.store.seen
    ensures if status != Unknown && Legal(s.store.rows[id].status, status) && s.store.rows[id].status != status
            then OnlyStatus(s, s', id, status)
            else SameRows(s, s') || (status == s.store.rows[id].status && OnlyStatus(s, s', id, status))
  {
    hide Leads;
    Onward(c, s0, ls0, s, InquiryReplies(p, status));
    var mid := Step(c, s, InquiryReplies(p, status));
    assert mid.procs == s.procs[p := InquiryAnswered(id, s.procs[p].reference, s.procs[p].origin, status)] && mid.store == s.store;
    Onward(c, s0, ls0 + [InquiryReplies(p, status)], mid, ApplyInquiry(p));
    InquiryStep(c, mid, p);
    ls, s' := ls0 + [InquiryReplies(p, status)] + [ApplyInquiry(p)], ApplyInquiryStep(c, mid, p);
    assert ls == ls0 + [InquiryReplies(p, status), ApplyInquiry(p)];
    if p in s'.procs {
      Onward(c, s0, ls, s', PgWrite(p));
      ls, s' := ls + [PgWrite(p)], Step(c, s', PgWrite(p));
      assert ls == ls0 + [InquiryReplies(p, status), ApplyInquiry(p), PgWrite(p)];
    }
    assert s'.procs == s.procs - {p};
  }

  /** A failed inquiry of a queue message goes back to the queue with one more attempt, up to the limit;
      any other failed inquiry leaves nothing behind. */
  lemma FailureRequeues(c: Config, s: System, p: ProcId)
    requires p in s.procs && s.procs[p].Inquiring?
    ensures Enabled(c, s, InquiryFails(p))
    ensures var s' := Step(c, s, InquiryFails(p));
      && s'.store == s.store && s'.procs == s.procs - {p} && s'.webhooks == s.webhooks && s'.log == s.log
      && s'.reconciles == s.reconciles
           + (match s.procs[p].origin
              case FromQueue(m) => if m.attempt + 1 < c.maxRetries
                                   then {ReconcileMessage(m.id, m.provider, m.reference, m.attempt + 1)} else {}
              case _ => {})
  {}

  // ---- Leaving ----

  /** An acknowledgement takes its own message from its queue, a crash its own request from those in flight,
      and neither touches anything else. */
  lemma Leaves(c: Config, s: System, l: Label)
    requires Enabled(c, s, l) && (l.AckWebhook? || l.AckReconcile? || l.Crash?)
    ensures var s' := Step(c, s, l);
      && s'.store == s.store && s'.log == s.log
      && (forall ev :: ev in s'.webhooks <==> ev in s.webhooks && l != AckWebhook(ev))
      && (forall m :: m in s'.reconciles <==> m in s.reconciles && l != AckReconcile(m))
      && (forall p :: (p in s'.procs <==> p in s.procs && l != Crash(p)) && (p in s'.procs ==> s'.procs[p] == s.procs[p]))
  {}

  // ---- Refunds ----

  /** A refund that fits the balance: the provider is asked, and its result is recorded with the amount and
      the status that the new total calls for. */
  lemma RefundRoute(c: Config, s: System, p: ProcId, id: PaymentId, amount: MinorUnits, result: RefundResult) returns (s': System)
    requires Reachable(c, s) && p !in s.procs && id in s.store.rows
    requires s.store.rows[id].status in {Succeeded, PartiallyRefunded} && s.store.rows[id].reference.Some?
    requires TotalRefunded(s.store.refunds, id) + amount <= s.store.rows[id].amount
    requires forall i :: 0 <= i < |s.store.refunds| ==> s.store.refunds[i].id != result.id
    ensures Leads(c, s, [ReadForRefund(p, id, amount), CheckBalance(p), RefundReplies(p, result), RecordRefund(p)], s')
    ensures s'.procs == s.procs && s'.store.seen == s.store.seen
    ensures s'.store.refunds == s.store.refunds + [RefundRecord(result.id, id, amount, result.status)]
    ensures SameBut(s.store, s'.store, id,
              if TotalRefunded(s.store.refunds, id) + amount == s.store.rows[id].amount then Refunded else PartiallyRefunded)
  {
    hide Leads, TotalRefunded;
    Nowhere(c, s);
    var s1 := Checked(c, s, p, id, amount);
    var ls := [ReadForRefund(p, id, amount), CheckBalance(p)];
    Onward(c, s, ls, s1, RefundReplies(p, result));
    var s2 := Step(c, s1, RefundReplies(p, result));
    assert s2.store == s.store && s2.procs[p] == RefundAnswered(id, amount, TotalRefunded(s.store.refunds, id), result);
    Onward(c, s, ls + [RefundReplies(p, result)], s2, RecordRefund(p));
    s' := RecordRefundStep(s2, p);
    assert s' == Step(c, s2, RecordRefund(p));
    assert ls + [RefundReplies(p, result)] + [RecordRefund(p)]
        == [ReadForRefund(p, id, amount), CheckBalance(p), RefundReplies(p, result), RecordRefund(p)];
    assert s'.procs == s.procs;
  }

  lemma Checked(c: Config, s: System, p: ProcId, id: PaymentId, amount: MinorUnits) returns (s': System)
    requires Reachable(c, s) && p !in s.procs && id in s.store.rows
    requires s.store.rows[id].status in {Succeeded, PartiallyRefunded} && s.store.rows[id].reference.Some?
    requires TotalRefunded(s.store.refunds, id) + amount <= s.store.rows[id].amount
    ensures Leads(c, s, [ReadForRefund(p, id, amount), CheckBalance(p)], s')
    ensures s'.store == s.store && s'.procs == s.procs[p := RefundCalling(id, amount, TotalRefunded(s.store.refunds, id))]
  {
    hide Leads, TotalRefunded;
    Nowhere(c, s);
    Onward(c, s, [], s, ReadForRefund(p, id, amount));
    var mid := Step(c, s, ReadForRefund(p, id, amount));
    Onward(c, s, [] + [ReadForRefund(p, id, amount)], mid, CheckBalance(p));
    s' := Step(c, mid, CheckBalance(p));
    assert [] + [ReadForRefund(p, id, amount)] + [CheckBalance(p)] == [ReadForRefund(p, id, amount), CheckBalance(p)];
    assert s'.procs == s.procs[p := RefundCalling(id, amount, TotalRefunded(s.store.refunds, id))];
  }

  /** A refund that does not fit never reaches the provider, and a payment that was not captured or is fully
      refunded takes none. */
  lemma RefundRefused(c: Config, s: System, p: ProcId)
    requires Enabled(c, s, CheckBalance(p))
    requires TotalRefunded(s.store.refunds, s.procs[p].id) + s.procs[p].refund > s.store.rows[s.procs[p].id].amount
    ensures var s' := Step(c, s, CheckBalance(p)); s'.store == s.store && s'.procs == s.procs - {p} && s'.log == s.log
    ensures forall id, amount: MinorUnits :: id in s.store.rows && s.store.rows[id].status !in {Succeeded, PartiallyRefunded} ==>
      !Enabled(c, s, ReadForRefund(p, id, amount))
  {}
}
