/** Repeated deliveries: what the webhook deduplication may and may not swallow (SQLite). */
module GatewayDedup {
  import opened Wrappers
  import opened PaymentStates
  import opened Stores
  import opened Gateway
  import opened GatewaySafety
  import opened GatewayHistory
  import opened GatewayVerdict

  ghost predicate FirstSeen(log: seq<Event>, eventId: EventId) {
    exists i :: 0 <= i < |log| && log[i].WebhookDelivered? && log[i].first && log[i].ev.eventId == eventId
  }

  ghost predicate DeliveryBacked(log: seq<Event>, store: Store, e: Event)
    requires e.WebhookDelivered?
  {
    store.Matches(e.ev, e.id) && WebhookVerified(e.ev) in log && (!e.first ==> e.ev.eventId in store.seen)
  }

  /** Only first deliveries fill `seen`, and every delivery was of a verified event for its payment. */
  ghost predicate SeenBacked(s: System) {
    && (forall eventId :: eventId in s.store.seen ==> FirstSeen(s.log, eventId))
    && (forall i :: 0 <= i < |s.log| && s.log[i].WebhookDelivered? ==> DeliveryBacked(s.log, s.store, s.log[i]))
    && (forall ev :: ev in s.webhooks ==> WebhookVerified(ev) in s.log)
    && (forall p :: p in s.procs ==> !s.procs[p].PgWebhookRead?)
  }

  lemma FirstSeenPersists(log: seq<Event>, es: seq<Event>, eventId: EventId)
    requires FirstSeen(log, eventId)
    ensures FirstSeen(log + es, eventId)
  {
    var i :| 0 <= i < |log| && log[i].WebhookDelivered? && log[i].first && log[i].ev.eventId == eventId;
    assert (log + es)[i] == log[i];
  }

  lemma DeliverySeen(s: System, s': System, es: seq<Event>)
    requires SeenBacked(s) && s'.log == s.log + es
    requires forall eventId :: eventId in s'.store.seen ==> eventId in s.store.seen || FirstSeen(s'.log, eventId)
    requires s.store.seen <= s'.store.seen
    requires forall ev, id :: s.store.Matches(ev, id) ==> s'.store.Matches(ev, id)
    requires forall k :: 0 <= k < |es| && es[k].WebhookDelivered? ==> DeliveryBacked(s'.log, s'.store, es[k])
    requires forall ev :: ev in s'.webhooks ==> ev in s.webhooks || WebhookVerified(ev) in s'.log
    requires forall p :: p in s'.procs ==> !s'.procs[p].PgWebhookRead?
    ensures SeenBacked(s')
  {
    forall eventId | eventId in s'.store.seen ensures FirstSeen(s'.log, eventId) {
      if eventId in s.store.seen { FirstSeenPersists(s.log, es, eventId); }
    }
    forall i | 0 <= i < |s'.log| && s'.log[i].WebhookDelivered?
      ensures DeliveryBacked(s'.log, s'.store, s'.log[i])
    {
      if i < |s.log| {
        assert s'.log[i] == s.log[i] && DeliveryBacked(s.log, s.store, s.log[i]);
      } else {
        assert s'.log[i] == es[i - |s.log|];
      }
    }
  }

  lemma MatchesPersist(c: Config, s: System, l: Label, ev: WebhookEvent, id: PaymentId)
    requires Inv(s) && Enabled(c, s, l) && s.store.Matches(ev, id)
    ensures Step(c, s, l).store.Matches(ev, id)
  {
    hide Inv, Step;
    StepKeepsIdentity(c, s, l, id);
  }

  lemma DeliverKeepsSeen(c: Config, s: System, l: Label)
    requires c.backend == Sqlite && Inv(s) && SeenBacked(s) && Enabled(c, s, l) && l.DeliverWebhook?
    ensures SeenBacked(Step(c, s, l))
  {
    hide CreationsOpen, ReferencesHeld, CallsOnce;
    var s' := Step(c, s, l);
    forall ev, id | s.store.Matches(ev, id) ensures s'.store.Matches(ev, id) { MatchesPersist(c, s, l, ev, id); }
    var es := s'.log[|s.log|..];
    assert s'.log == s.log + es;
    var e := WebhookDelivered(l.ev, l.id, l.ev.eventId !in s.store.seen);
    assert es[0] == e && s'.log[|s.log|] == e;
    assert DeliveryBacked(s'.log, s'.store, e);
    DeliverySeen(s, s', es);
  }

  /** No other step delivers a webhook. */
  lemma NothingDelivered(c: Config, s: System, l: Label)
    requires c.backend == Sqlite && Enabled(c, s, l) && !l.DeliverWebhook? && !l.PgInsertEvent?
    ensures var s' := Step(c, s, l); var es := s'.log[|s.log|..];
      s'.log == s.log + es && forall k :: 0 <= k < |es| ==> !es[k].WebhookDelivered?
  {}

  lemma NothingSeen(c: Config, s: System, l: Label)
    requires c.backend == Sqlite && Enabled(c, s, l) && !l.DeliverWebhook? && !l.PgInsertEvent?
    ensures var s' := Step(c, s, l);
      && s'.store.seen == s.store.seen
      && (forall ev :: ev in s'.webhooks ==> ev in s.webhooks || WebhookVerified(ev) in s'.log)
      && (forall p :: p in s'.procs && s'.procs[p].PgWebhookRead? ==> p in s.procs && s.procs[p].PgWebhookRead?)
  {}

  lemma OtherKeepsSeen(c: Config, s: System, l: Label)
    requires c.backend == Sqlite && Inv(s) && SeenBacked(s) && Enabled(c, s, l) && !l.DeliverWebhook? && !l.PgInsertEvent?
    ensures SeenBacked(Step(c, s, l))
  {
    var s' := Step(c, s, l);
    NothingDelivered(c, s, l);
    NothingSeen(c, s, l);
    forall ev, id | s.store.Matches(ev, id) ensures s'.store.Matches(ev, id) { MatchesPersist(c, s, l, ev, id); }
    hide Inv, Step, Enabled, FirstSeen, DeliveryBacked;
    DeliverySeen(s, s', s'.log[|s.log|..]);
  }

  lemma {:induction false} RunKeepsSeen(c: Config, s: System, ls: seq<Label>, s': System)
    requires c.backend == Sqlite && Inv(s) && SeenBacked(s) && Runs(c, s, ls, s')
    ensures SeenBacked(s')
    decreases |ls|
  {
    if ls != [] {
      StepKeeps(c, s, ls[0]);
      if ls[0].DeliverWebhook? { DeliverKeepsSeen(c, s, ls[0]); } else { OtherKeepsSeen(c, s, ls[0]); }
      RunKeepsSeen(c, Step(c, s, ls[0]), ls[1..], s');
    }
  }

  /** Something authoritative reached the payment: an inquiry that was applied, or any delivery,
      first or repeated, of a verified webhook with the right amount. */
  ghost predicate Heard(log: seq<Event>, id: PaymentId, amount: int, t: PaymentStatus) {
    || InquiryApplied(id, t) in log
    || exists ev, first :: WebhookDelivered(ev, id, first) in log && AmountAgrees(ev.amount, amount) && ev.status == t
  }

  /** Event ids identify the events the providers sent. */
  ghost predicate EventIdsIdentify(log: seq<Event>) {
    forall a, b :: (WebhookVerified(a) in log && WebhookVerified(b) in log && a.eventId == b.eventId) ==> a == b
  }

  /** The provider gave this payment's reference to no other payment. */
  ghost predicate ReferenceIsOwn(store: Store, id: PaymentId)
    requires id in store.rows
  {
    forall i :: (i in store.rows && store.rows[i].provider == store.rows[id].provider
                 && store.rows[i].reference == store.rows[id].reference) ==> i == id
  }

  /** Behind every repeated delivery there was a first one, of the same event to the same payment. */
  lemma FirstDelivery(s: System, ev: WebhookEvent, id: PaymentId, first: bool)
    requires SeenBacked(s) && WebhookDelivered(ev, id, first) in s.log
    requires id in s.store.rows && EventIdsIdentify(s.log) && ReferenceIsOwn(s.store, id)
    ensures exists i :: 0 <= i < |s.log| && s.log[i] == WebhookDelivered(ev, id, true)
  {
    var j :| 0 <= j < |s.log| && s.log[j] == WebhookDelivered(ev, id, first);
    assert DeliveryBacked(s.log, s.store, s.log[j]);
    if !first {
      assert FirstSeen(s.log, ev.eventId);
      var i :| 0 <= i < |s.log| && s.log[i].WebhookDelivered? && s.log[i].first && s.log[i].ev.eventId == ev.eventId;
      assert DeliveryBacked(s.log, s.store, s.log[i]);
      assert s.log[i].ev == ev && s.log[i].id == id;
      assert s.log[i] == WebhookDelivered(ev, id, true);
    }
  }

  lemma HeardIsAnswered(s: System, id: PaymentId, amount: int, t: PaymentStatus)
    requires SeenBacked(s) && id in s.store.rows && Authoritative(t)
    requires EventIdsIdentify(s.log) && ReferenceIsOwn(s.store, id)
    ensures Heard(s.log, id, amount, t) <==> (exists i :: 0 <= i < |s.log| && Answer(s.log[i], id, amount) == Some(t))
  {
    AnsweredIsHeard(s.log, id, amount, t);
    if InquiryApplied(id, t) in s.log {
      var i :| 0 <= i < |s.log| && s.log[i] == InquiryApplied(id, t);
      assert Answer(s.log[i], id, amount) == Some(t);
    } else if Heard(s.log, id, amount, t) {
      var ev, first :| WebhookDelivered(ev, id, first) in s.log && AmountAgrees(ev.amount, amount) && ev.status == t;
      FirstDelivery(s, ev, id, first);
      hide SeenBacked, EventIdsIdentify, ReferenceIsOwn;
      var i :| 0 <= i < |s.log| && s.log[i] == WebhookDelivered(ev, id, true);
      assert Answer(s.log[i], id, amount) == Some(t);
    }
  }

  lemma AnsweredIsHeard(log: seq<Event>, id: PaymentId, amount: int, t: PaymentStatus)
    ensures (exists i :: 0 <= i < |log| && Answer(log[i], id, amount) == Some(t)) ==> Heard(log, id, amount, t)
  {
    if i :| 0 <= i < |log| && Answer(log[i], id, amount) == Some(t) {
      assert log[i] in log;
      if log[i].WebhookDelivered? {
        assert WebhookDelivered(log[i].ev, id, true) in log;
      }
    }
  }

  /** With event ids that identify their events and references that identify their payments, the
      deduplication swallows nothing that matters: when every authoritative answer about a payment is
      `t` and no refund status was ever written, the payment is `t` exactly when some delivery of `t`,
      first or repeated, ever reached it. */
  lemma DeliveryDecides(c: Config, s: System, id: PaymentId, t: PaymentStatus)
    requires c.backend == Sqlite && Reachable(c, s) && id in s.store.rows && s.store.rows[id].reference.Some?
    requires Authoritative(t) && EventIdsIdentify(s.log) && ReferenceIsOwn(s.store, id)
    requires forall i :: 0 <= i < |s.log| && Answer(s.log[i], id, s.store.rows[id].amount).Some? ==>
               Answer(s.log[i], id, s.store.rows[id].amount).value == t
    requires forall i :: 0 <= i < |s.log| && s.log[i].StatusWritten? && s.log[i].id == id ==> Reportable(s.log[i].to)
    ensures s.store.rows[id].status == t <==> Heard(s.log, id, s.store.rows[id].amount, t)
  {
    hide Inv, SeenBacked, EventIdsIdentify, ReferenceIsOwn, Heard, Answer;
    ReachableSeen(c, s);
    var ls :| Runs(c, START, ls, s);
    SqliteIsClean(c, START, ls, s);
    hide Runs, CleanRun;
    Confluence(c, ls, s, id, t);
    HeardIsAnswered(s, id, s.store.rows[id].amount, t);
  }

  lemma ReachableSeen(c: Config, s: System)
    requires c.backend == Sqlite && Reachable(c, s)
    ensures SeenBacked(s)
  {
    var ls :| Runs(c, START, ls, s);
    RunKeepsSeen(c, START, ls, s);
  }
}
