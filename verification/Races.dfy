/** Concrete runs in which the code does less than its documentation says. */
module Races {
  import opened Wrappers
  import opened PaymentStates
  import opened Stores
  import opened Gateway
  import opened GatewaySafety
  import opened GatewayHistory
  import opened Refunds

  const SHOP := ProviderId("paymob")
  const REFERENCE := ProviderReference("ref")
  const PAYMENT := PaymentId(1)
  const FIRST := ProcId(1)
  const SECOND := ProcId(2)

  function Report(event: string, status: PaymentStatus): WebhookEvent {
    WebhookEvent(EventId(event), SHOP, REFERENCE, status, None)
  }

  /** A payment of 100 created on either backend, `Pending` with its reference. */
  function Row(status: PaymentStatus): PaymentRow {
    PaymentRow(IdempotencyKey("key"), Fingerprint("fp"), SHOP, Some(REFERENCE), status, 100, None)
  }

  function Fresh(): PaymentRow {
    Row(Pending).(reference := None)
  }

  lemma Claimed(c: Config) returns (s: System)
    ensures Reachable(c, s) && s.store == Store(map[PAYMENT := Fresh()], map[Fresh().key := PAYMENT], {}, [])
    ensures s.procs == map[FIRST := CreateReady(PAYMENT, Grpc, Fresh().key)] && s.webhooks == {}
  {
    assert Runs(c, START, [], START);
    var l := Begin(FIRST, Grpc, PaymentRequest(IdempotencyKey("key"), Fingerprint("fp"), SHOP, 100), PAYMENT);
    ReachableStep(c, START, l);
    s := Step(c, START, l);
  }

  lemma Answered(c: Config) returns (s: System)
    ensures Reachable(c, s) && s.store == Store(map[PAYMENT := Fresh()], map[Fresh().key := PAYMENT], {}, [])
    ensures s.procs == map[FIRST := CreateAnswered(PAYMENT, Grpc, Created(REFERENCE, CreationPending, None))] && s.webhooks == {}
  {
    hide Reachable;
    var s0 := Claimed(c);
    ReachableStep(c, s0, CallProvider(FIRST));
    var s1 := Step(c, s0, CallProvider(FIRST));
    var l := ProviderReplies(FIRST, Created(REFERENCE, CreationPending, None));
    ReachableStep(c, s1, l);
    s := Step(c, s1, l);
  }

  lemma CreatedPayment(c: Config) returns (s: System)
    ensures Reachable(c, s) && s.store == Store(map[PAYMENT := Row(Pending)], map[Row(Pending).key := PAYMENT], {}, [])
    ensures s.procs == map[] && s.webhooks == {}
  {
    hide Reachable;
    var s0 := Answered(c);
    ReachableStep(c, s0, FinishCreate(FIRST));
    s := Step(c, s0, FinishCreate(FIRST));
  }

  // ---- PostgreSQL: the guard is read in one statement and the write made in another ----

  lemma BothVerified(c: Config, s0: System, a: WebhookEvent, b: WebhookEvent) returns (s: System)
    requires Reachable(c, s0)
    ensures Reachable(c, s) && s.store == s0.store && s.procs == s0.procs && s.webhooks == s0.webhooks + {a, b}
  {
    hide Reachable;
    ReachableStep(c, s0, VerifyWebhook(a));
    var s1 := Step(c, s0, VerifyWebhook(a));
    ReachableStep(c, s1, VerifyWebhook(b));
    s := Step(c, s1, VerifyWebhook(b));
  }

  /** Two deliveries read the same Pending row. */
  lemma BothRead(a: WebhookEvent, b: WebhookEvent) returns (s: System)
    requires a == Report("a", Succeeded) && b == Report("b", b.status)
    ensures Reachable(Config(Postgres, 3), s)
    ensures s.store == Store(map[PAYMENT := Row(Pending)], map[Row(Pending).key := PAYMENT], {}, [])
    ensures s.procs == map[FIRST := PgWebhookRead(PAYMENT, a, Pending), SECOND := PgWebhookRead(PAYMENT, b, Pending)]
  {
    hide Reachable;
    var c := Config(Postgres, 3);
    var s0 := CreatedPayment(c);
    var s1 := BothVerified(c, s0, a, b);
    ReachableStep(c, s1, DeliverWebhook(FIRST, a, PAYMENT));
    var s2 := Step(c, s1, DeliverWebhook(FIRST, a, PAYMENT));
    ReachableStep(c, s2, DeliverWebhook(SECOND, b, PAYMENT));
    s := Step(c, s2, DeliverWebhook(SECOND, b, PAYMENT));
  }

  /** The first inserts its event and passes the guard. */
  lemma OnePasses(a: WebhookEvent, b: WebhookEvent) returns (s: System)
    requires a == Report("a", Succeeded) && b == Report("b", b.status)
    ensures Reachable(Config(Postgres, 3), s) && s.store.rows == map[PAYMENT := Row(Pending)] && s.store.seen == {EventId("a")}
    ensures s.procs == map[FIRST := PgUpdate(PAYMENT, Pending, Succeeded, ByWebhook(a)), SECOND := PgWebhookRead(PAYMENT, b, Pending)]
  {
    hide Reachable;
    var c := Config(Postgres, 3);
    var s0 := BothRead(a, b);
    ReachableStep(c, s0, PgInsertEvent(FIRST));
    s := Step(c, s0, PgInsertEvent(FIRST));
  }

  /** And so does the second. */
  lemma BothPass(a: WebhookEvent, b: WebhookEvent) returns (s: System)
    requires a == Report("a", Succeeded) && b == Report("b", b.status) && (b.status == Failed || b.status == Pending)
    ensures Reachable(Config(Postgres, 3), s) && s.store.rows == map[PAYMENT := Row(Pending)]
    ensures s.procs == map[FIRST := PgUpdate(PAYMENT, Pending, Succeeded, ByWebhook(a)), SECOND := PgUpdate(PAYMENT, Pending, b.status, ByWebhook(b))]
  {
    hide Reachable;
    var c := Config(Postgres, 3);
    var s0 := OnePasses(a, b);
    assert "a"[0] != "b"[0];
    ReachableStep(c, s0, PgInsertEvent(SECOND));
    s := Step(c, s0, PgInsertEvent(SECOND));
  }

  /** On PostgreSQL a settled payment can lose its verdict: with two webhooks in flight, `Succeeded`
      is overwritten by `Failed` - or by `Pending`, by a report that is a no-op on SQLite. */
  lemma PostgresLosesVerdict(to: PaymentStatus) returns (s: System, s': System)
    requires to == Failed || to == Pending
    ensures Reachable(Config(Postgres, 3), s) && Reachable(Config(Postgres, 3), s')
    ensures Enabled(Config(Postgres, 3), s, PgWrite(SECOND)) && s' == Step(Config(Postgres, 3), s, PgWrite(SECOND))
    ensures PAYMENT in s.store.rows && s.store.rows[PAYMENT].status == Succeeded
    ensures PAYMENT in s'.store.rows && s'.store.rows[PAYMENT].status == to && !Legal(Succeeded, to)
  {
    hide Reachable;
    var c := Config(Postgres, 3);
    var s0 := BothPass(Report("a", Succeeded), Report("b", to));
    ReachableStep(c, s0, PgWrite(FIRST));
    s := Step(c, s0, PgWrite(FIRST));
    ReachableStep(c, s, PgWrite(SECOND));
    s' := Step(c, s, PgWrite(SECOND));
  }

  /** A webhook's event is in, its UPDATE is to come. */
  lemma Inserted() returns (s: System)
    ensures Reachable(Config(Postgres, 3), s) && s.procs == map[FIRST := PgUpdate(PAYMENT, Pending, Succeeded, ByWebhook(Report("a", Succeeded)))]
    ensures s.store == Store(map[PAYMENT := Row(Pending)], map[Row(Pending).key := PAYMENT], {EventId("a")}, [])
    ensures s.webhooks == {Report("a", Succeeded)}
  {
    hide Reachable;
    var c, a := Config(Postgres, 3), Report("a", Succeeded);
    var s0 := CreatedPayment(c);
    ReachableStep(c, s0, VerifyWebhook(a));
    var s1 := Step(c, s0, VerifyWebhook(a));
    ReachableStep(c, s1, DeliverWebhook(FIRST, a, PAYMENT));
    var s2 := Step(c, s1, DeliverWebhook(FIRST, a, PAYMENT));
    ReachableStep(c, s2, PgInsertEvent(FIRST));
    s := Step(c, s2, PgInsertEvent(FIRST));
  }

  /** A crash between the two. */
  lemma Crashed() returns (s: System)
    ensures Reachable(Config(Postgres, 3), s) && s.procs == map[]
    ensures s.store == Store(map[PAYMENT := Row(Pending)], map[Row(Pending).key := PAYMENT], {EventId("a")}, [])
    ensures s.webhooks == {Report("a", Succeeded)}
  {
    hide Reachable;
    var s0 := Inserted();
    ReachableStep(Config(Postgres, 3), s0, Crash(FIRST));
    s := Step(Config(Postgres, 3), s0, Crash(FIRST));
  }

  /** On PostgreSQL such a crash loses the verdict: the payment is `Pending`, nothing is in flight, and
      every redelivery of the `Succeeded` webhook is taken for a duplicate and writes nothing. */
  lemma CrashLosesVerdict() returns (s: System)
    ensures var c, a := Config(Postgres, 3), Report("a", Succeeded);
      && Reachable(c, s) && s.procs == map[] && a in s.webhooks
      && PAYMENT in s.store.rows && s.store.rows[PAYMENT].status == Pending && s.store.Matches(a, PAYMENT)
      && forall p :: Enabled(c, s, DeliverWebhook(p, a, PAYMENT))
           && var read := Step(c, s, DeliverWebhook(p, a, PAYMENT));
              Enabled(c, read, PgInsertEvent(p)) && Step(c, read, PgInsertEvent(p)).store == s.store
              && Step(c, read, PgInsertEvent(p)).procs == map[]
  {
    hide Reachable;
    s := Crashed();
  }

  // ---- Refunds: the balance is checked in one step and recorded three steps later ----

  lemma Captured100() returns (s: System)
    ensures Reachable(Config(Sqlite, 3), s)
    ensures s.store == Store(map[PAYMENT := Row(Succeeded)], map[Row(Succeeded).key := PAYMENT], {EventId("a")}, [])
    ensures s.procs == map[]
  {
    hide Reachable;
    var c := Config(Sqlite, 3);
    var a := Report("a", Succeeded);
    var s0 := CreatedPayment(c);
    ReachableStep(c, s0, VerifyWebhook(a));
    var s1 := Step(c, s0, VerifyWebhook(a));
    ReachableStep(c, s1, DeliverWebhook(FIRST, a, PAYMENT));
    s := Step(c, s1, DeliverWebhook(FIRST, a, PAYMENT));
  }

  /** A request reads the payment and passes the balance check. */
  lemma PassesCheck(s0: System, p: ProcId, refund: MinorUnits) returns (s: System)
    requires Reachable(Config(Sqlite, 3), s0) && p !in s0.procs && refund <= 100
    requires s0.store == Store(map[PAYMENT := Row(Succeeded)], map[Row(Succeeded).key := PAYMENT], {EventId("a")}, [])
    ensures Reachable(Config(Sqlite, 3), s) && s.store == s0.store
    ensures s.procs == s0.procs[p := RefundCalling(PAYMENT, refund, 0)]
  {
    hide Reachable;
    var c := Config(Sqlite, 3);
    ReachableStep(c, s0, ReadForRefund(p, PAYMENT, refund));
    var s1 := Step(c, s0, ReadForRefund(p, PAYMENT, refund));
    ReachableStep(c, s1, CheckBalance(p));
    s := Step(c, s1, CheckBalance(p));
  }

  /** The provider accepts, and the refund is recorded. */
  lemma Records(s0: System, p: ProcId, result: RefundResult) returns (s: System)
    requires Reachable(Config(Sqlite, 3), s0) && p in s0.procs && s0.procs[p].RefundCalling?
    requires s0.procs[p].id == PAYMENT && PAYMENT in s0.store.rows
    requires forall i :: 0 <= i < |s0.store.refunds| ==> s0.store.refunds[i].id != result.id
    ensures Reachable(Config(Sqlite, 3), s) && s.procs == s0.procs - {p}
    ensures var q := s0.procs[p];
      && s.store.refunds == s0.store.refunds + [RefundRecord(result.id, PAYMENT, q.refund, result.status)]
      && s.store.rows == s0.store.rows[PAYMENT := s0.store.rows[PAYMENT].(status := RefundedStatus(q.previously + q.refund, s0.store.rows[PAYMENT].amount))]
  {
    hide Reachable;
    var c := Config(Sqlite, 3);
    ReachableStep(c, s0, RefundReplies(p, result));
    var s1 := Step(c, s0, RefundReplies(p, result));
    assert s1.procs[p].RefundAnswered?;
    ReachableStep(c, s1, RecordRefund(p));
    s := Step(c, s1, RecordRefund(p));
  }

  /** Two refunds of one payment in flight at once: 100 and 40 are given back out of 100, and the
      payment goes from `Refunded` to `PartiallyRefunded`, which the status machine forbids. */
  lemma ConcurrentRefundsOverpay() returns (s: System)
    ensures Reachable(Config(Sqlite, 3), s)
    ensures PAYMENT in s.store.rows && s.store.rows[PAYMENT].amount == 100 && TotalRefunded(s.store.refunds, PAYMENT) == 140
    ensures s.store.rows[PAYMENT].status == PartiallyRefunded
  {
    hide Reachable;
    var s0 := Captured100();
    var s1 := PassesCheck(s0, FIRST, 100);
    var s2 := PassesCheck(s1, SECOND, 40);
    var s3 := Records(s2, FIRST, RefundResult(RefundId("x"), RefundSucceeded));
    assert "x"[0] != "y"[0];
    s := Records(s3, SECOND, RefundResult(RefundId("y"), RefundSucceeded));
    TotalAppend([], s3.store.refunds[0], PAYMENT);
    TotalAppend(s3.store.refunds, s.store.refunds[1], PAYMENT);
    assert s3.store.refunds == [] + [s3.store.refunds[0]];
    assert s.store.refunds == s3.store.refunds + [s.store.refunds[1]];
  }

  /** A refund the provider has only accepted as pending still makes the payment `Refunded`, while
      the ledger, which counts succeeded refunds, says that nothing was given back. */
  lemma PendingRefundUnbalances() returns (s: System)
    ensures Reachable(Config(Sqlite, 3), s)
    ensures PAYMENT in s.store.rows && s.store.rows[PAYMENT].status == Refunded && TotalRefunded(s.store.refunds, PAYMENT) == 0
  {
    hide Reachable;
    var s0 := Captured100();
    var s1 := PassesCheck(s0, FIRST, 100);
    s := Records(s1, FIRST, RefundResult(RefundId("x"), RefundPending));
    TotalAppend([], s.store.refunds[0], PAYMENT);
    assert s.store.refunds == [] + [s.store.refunds[0]];
  }
}
