/** The loops that feed the store: the two queue consumers and the background reconciler, each run
    to the end of its input against the SQLite store. */
module Consumers {
  import opened Wrappers
  import opened PaymentStates
  import opened Stores
  import opened Gateway

  // ---- Webhooks ----

  /** No two payments share a provider reference. */
  ghost predicate UniqueReferences(store: Store) {
    forall i, j ::
      (i in store.rows && j in store.rows && store.rows[i].provider == store.rows[j].provider
       && store.rows[i].reference.Some? && store.rows[i].reference == store.rows[j].reference)
      ==> i == j
  }

  ghost predicate Known(store: Store, ev: WebhookEvent) {
    exists id :: store.Matches(ev, id)
  }

  ghost function Delivered(store: Store, ev: WebhookEvent): Store {
    if Known(store, ev) then
      var id :| store.Matches(ev, id);
      store.ApplyWebhook(ev, id).0
    else store
  }

  ghost function DeliveredAll(store: Store, evs: seq<WebhookEvent>): Store
    decreases |evs|
  {
    if evs == [] then store else DeliveredAll(Delivered(store, evs[0]), evs[1..])
  }

  lemma DeliveredTo(store: Store, ev: WebhookEvent, id: PaymentId)
    requires UniqueReferences(store) && store.Matches(ev, id)
    ensures Delivered(store, ev) == store.ApplyWebhook(ev, id).0
  {
    var i :| store.Matches(ev, i) && Delivered(store, ev) == store.ApplyWebhook(ev, i).0;
    assert store.Matches(ev, i);
    assert store.rows[i].reference == Some(ev.reference);
    assert store.rows[id].reference == Some(ev.reference);
    assert i == id;
  }

  method ProcessWebhookMessage(store: SqliteStore, ev: WebhookEvent)
    requires UniqueReferences(store.Contents())
    modifies store
    ensures store.Contents() == Delivered(old(store.Contents()), ev)
  {
    ghost var before := store.Contents();
    var found, outcome := store.ApplyWebhookEvent(ev);
    if found.Some? {
      DeliveredTo(before, ev, found.value);
    }
  }

  lemma DeliveredKeepsReferences(store: Store, ev: WebhookEvent)
    ensures Delivered(store, ev).rows.Keys == store.rows.Keys
    ensures forall id :: id in store.rows ==>
      Delivered(store, ev).rows[id].provider == store.rows[id].provider
      && Delivered(store, ev).rows[id].reference == store.rows[id].reference
    ensures UniqueReferences(store) ==> UniqueReferences(Delivered(store, ev))
    ensures store.seen <= Delivered(store, ev).seen
    ensures Known(store, ev) ==> ev.eventId in Delivered(store, ev).seen
  {
    if Known(store, ev) {
      var id :| store.Matches(ev, id) && Delivered(store, ev) == store.ApplyWebhook(ev, id).0;
    }
  }

  /** The consumer acknowledges every delivery, so a drained queue has been delivered once, in order. */
  method ConsumeWebhooks(store: SqliteStore, queue: seq<WebhookEvent>)
    requires UniqueReferences(store.Contents())
    modifies store
    ensures store.Contents() == DeliveredAll(old(store.Contents()), queue)
  {
    for i := 0 to |queue|
      invariant UniqueReferences(store.Contents())
      invariant DeliveredAll(store.Contents(), queue[i..]) == DeliveredAll(old(store.Contents()), queue)
    {
      DeliveredKeepsReferences(store.Contents(), queue[i]);
      ProcessWebhookMessage(store, queue[i]);
      assert queue[i..][0] == queue[i] && queue[i..][1..] == queue[i + 1..];
    }
  }

  /** Delivering the event again would change nothing. */
  ghost predicate Absorbed(store: Store, ev: WebhookEvent) {
    Known(store, ev) ==> ev.eventId in store.seen
  }

  lemma AbsorbedPersists(store: Store, ev: WebhookEvent, next: WebhookEvent)
    requires Absorbed(store, ev)
    ensures Absorbed(Delivered(store, next), ev)
  {
    DeliveredKeepsReferences(store, next);
    if Known(Delivered(store, next), ev) {
      var id :| Delivered(store, next).Matches(ev, id);
      assert store.Matches(ev, id);
    }
  }

  lemma {:induction false} AllAbsorbed(store: Store, evs: seq<WebhookEvent>, ev: WebhookEvent)
    requires ev in evs || Absorbed(store, ev)
    ensures Absorbed(DeliveredAll(store, evs), ev)
    decreases |evs|
  {
    if evs != [] {
      DeliveredKeepsReferences(store, evs[0]);
      if evs[0] == ev {
        assert Absorbed(Delivered(store, ev), ev) by {
          if Known(Delivered(store, ev), ev) {
            var id :| Delivered(store, ev).Matches(ev, id);
            assert store.Matches(ev, id);
          }
        }
      } else if Absorbed(store, ev) {
        AbsorbedPersists(store, ev, evs[0]);
      }
      AllAbsorbed(Delivered(store, evs[0]), evs[1..], ev);
    }
  }

  lemma {:induction false} AbsorbedAllStay(store: Store, evs: seq<WebhookEvent>)
    requires forall ev :: ev in evs ==> Absorbed(store, ev)
    ensures DeliveredAll(store, evs) == store
    decreases |evs|
  {
    if evs != [] {
      assert Absorbed(store, evs[0]);
      assert Delivered(store, evs[0]) == store;
      AbsorbedAllStay(store, evs[1..]);
    }
  }

  /** At-least-once delivery is harmless: a queue drained a second time, after a crash before its
      acknowledgements, leaves the store exactly as the first time did. */
  lemma RedeliveryIsNoOp(store: Store, evs: seq<WebhookEvent>)
    ensures DeliveredAll(DeliveredAll(store, evs), evs) == DeliveredAll(store, evs)
  {
    forall ev | ev in evs ensures Absorbed(DeliveredAll(store, evs), ev) {
      AllAbsorbed(store, evs, ev);
    }
    AbsorbedAllStay(DeliveredAll(store, evs), evs);
  }

  // ---- Reconciliation ----

  /** What the provider answers to the n-th inquiry of a run; `None` is an error. */
  type Replies = (ReconcileMessage, nat) -> Option<PaymentStatus>

  /** What one answer does to the store: an error, or the answer `Unknown`, does nothing. */
  function Reconciled(store: Store, id: PaymentId, reply: Option<PaymentStatus>): Store {
    if reply.None? || reply.value == Unknown then store
    else store.ApplyReconciliation(id, reply.value).0
  }

  method ProcessReconcileMessage(
    store: SqliteStore, providers: set<ProviderId>, maxRetries: nat, msg: ReconcileMessage, reply: Option<PaymentStatus>)
    returns (asked: bool, republished: Option<ReconcileMessage>)
    modifies store
    ensures asked <==> msg.provider in providers
    ensures store.Contents() == if asked then Reconciled(old(store.Contents()), msg.id, reply) else old(store.Contents())
    ensures republished ==
      if asked && reply.None? && msg.attempt + 1 < maxRetries then Some(msg.(attempt := msg.attempt + 1)) else None
  {
    if msg.provider !in providers {
      return false, None;
    }
    match reply
    case Some(resolved) =>
      if resolved != Unknown {
        var outcome := store.ApplyReconciliationResult(msg.id, resolved);
      }
      return true, None;
    case None =>
      return true, if msg.attempt + 1 < maxRetries then Some(msg.(attempt := msg.attempt + 1)) else None;
  }

  /** The consumer's surroundings: the providers it knows, its retry limit and their answers. */
  datatype World = World(providers: set<ProviderId>, maxRetries: nat, replies: Replies)

  /** How often a message can still be asked about. */
  function Allowance(w: World, msg: ReconcileMessage): nat {
    if msg.provider !in w.providers then 0
    else if msg.attempt < w.maxRetries then w.maxRetries - msg.attempt else 1
  }

  function Budget(w: World, queue: seq<ReconcileMessage>): nat {
    if queue == [] then 0 else Allowance(w, queue[0]) + Budget(w, queue[1..])
  }

  lemma {:induction false} BudgetAppend(w: World, queue: seq<ReconcileMessage>, msg: ReconcileMessage)
    ensures Budget(w, queue + [msg]) == Budget(w, queue) + Allowance(w, msg)
  {
    if queue == [] {
      assert queue + [msg] == [msg];
    } else {
      BudgetAppend(w, queue[1..], msg);
      assert (queue + [msg])[1..] == queue[1..] + [msg];
    }
  }

  predicate Retried(w: World, msg: ReconcileMessage, reply: Option<PaymentStatus>) {
    reply.None? && msg.attempt + 1 < w.maxRetries
  }

  /** What the queue holds after its head was asked about. */
  function Rest(w: World, queue: seq<ReconcileMessage>, reply: Option<PaymentStatus>): (rest: seq<ReconcileMessage>)
    requires queue != [] && queue[0].provider in w.providers
    ensures Budget(w, rest) < Budget(w, queue)
  {
    if Retried(w, queue[0], reply)
    then BudgetAppend(w, queue[1..], queue[0].(attempt := queue[0].attempt + 1));
         queue[1..] + [queue[0].(attempt := queue[0].attempt + 1)]
    else queue[1..]
  }

  /** The consumer draining its queue: the final store, and how many inquiries had been made by then,
      counting from the n-th. A message for an unknown provider is dropped. */
  function Drained(w: World, store: Store, queue: seq<ReconcileMessage>, n: nat): (Store, nat)
    decreases Budget(w, queue), |queue|
  {
    if queue == [] then (store, n)
    else if queue[0].provider !in w.providers then Drained(w, store, queue[1..], n)
    else
      var reply := (w.replies)(queue[0], n);
      Drained(w, Reconciled(store, queue[0].id, reply), Rest(w, queue, reply), n + 1)
  }

  /** The consumer loop. A failed inquiry goes to the back of the queue, so the queue can grow again
      after shrinking; the loop ends all the same. */
  method ConsumeReconciliation(store: SqliteStore, w: World, queue: seq<ReconcileMessage>) returns (inquiries: nat)
    modifies store
    ensures (store.Contents(), inquiries) == Drained(w, old(store.Contents()), queue, 0)
  {
    var pending := queue;
    inquiries := 0;
    while pending != []
      invariant Drained(w, store.Contents(), pending, inquiries) == Drained(w, old(store.Contents()), queue, 0)
      decreases Budget(w, pending), |pending|
    {
      var reply := (w.replies)(pending[0], inquiries);
      ghost var next := if pending[0].provider in w.providers then Rest(w, pending, reply) else pending[1..];
      var asked, republished := ProcessReconcileMessage(store, w.providers, w.maxRetries, pending[0], reply);
      pending := pending[1..] + if republished.Some? then [republished.value] else [];
      assert pending == next;
      if asked { inquiries := inquiries + 1; }
    }
  }

  /** How many messages are for known providers. */
  function Answerable(w: World, queue: seq<ReconcileMessage>): nat {
    if queue == [] then 0 else (if queue[0].provider in w.providers then 1 else 0) + Answerable(w, queue[1..])
  }

  lemma {:induction false} AnswerableAppend(w: World, queue: seq<ReconcileMessage>, msg: ReconcileMessage)
    ensures Answerable(w, queue + [msg]) == Answerable(w, queue) + if msg.provider in w.providers then 1 else 0
  {
    if queue == [] {
      assert queue + [msg] == [msg];
    } else {
      AnswerableAppend(w, queue[1..], msg);
      assert (queue + [msg])[1..] == queue[1..] + [msg];
    }
  }

  /** No message is asked about more often than its retries allow, and none for a known provider is
      dropped unasked. */
  lemma {:induction false} DrainedBudget(w: World, store: Store, queue: seq<ReconcileMessage>, n: nat)
    ensures n + Answerable(w, queue) <= Drained(w, store, queue, n).1 <= n + Budget(w, queue)
    decreases Budget(w, queue), |queue|
  {
    if queue != [] {
      var head := queue[0];
      if head.provider !in w.providers {
        DrainedBudget(w, store, queue[1..], n);
      } else {
        var reply := (w.replies)(head, n);
        AnswerableAppend(w, queue[1..], head.(attempt := head.attempt + 1));
        DrainedBudget(w, Reconciled(store, head.id, reply), Rest(w, queue, reply), n + 1);
      }
    }
  }

  /** The budget is exact: providers that never answer are asked that often, and nothing is written. */
  lemma {:induction false} DrainedUnanswered(w: World, store: Store, queue: seq<ReconcileMessage>, n: nat)
    requires forall m, k :: (w.replies)(m, k) == None
    ensures Drained(w, store, queue, n) == (store, n + Budget(w, queue))
    decreases Budget(w, queue), |queue|
  {
    if queue != [] {
      var head := queue[0];
      if head.provider !in w.providers {
        DrainedUnanswered(w, store, queue[1..], n);
      } else {
        BudgetAppend(w, queue[1..], head.(attempt := head.attempt + 1));
        DrainedUnanswered(w, store, Rest(w, queue, None), n + 1);
      }
    }
  }

  /** The queue holds a message about the payment that a known provider can be asked. */
  ghost predicate Mentions(w: World, queue: seq<ReconcileMessage>, id: PaymentId) {
    exists i :: 0 <= i < |queue| && queue[i].id == id && queue[i].provider in w.providers
  }

  lemma RestMentions(w: World, queue: seq<ReconcileMessage>, reply: Option<PaymentStatus>, id: PaymentId)
    requires queue != [] && queue[0].provider in w.providers
    ensures Mentions(w, Rest(w, queue, reply), id) ==> Mentions(w, queue, id)
    ensures Mentions(w, queue, id) && (queue[0].id != id || Retried(w, queue[0], reply)) ==> Mentions(w, Rest(w, queue, reply), id)
  {
    var rest := Rest(w, queue, reply);
    if Mentions(w, rest, id) {
      var i :| 0 <= i < |rest| && rest[i].id == id && rest[i].provider in w.providers;
      assert i < |queue| - 1 ==> queue[i + 1] == rest[i];
      assert i == |queue| - 1 ==> queue[0].id == id;
    }
    if Mentions(w, queue, id) && (queue[0].id != id || Retried(w, queue[0], reply)) {
      var i :| 0 <= i < |queue| && queue[i].id == id && queue[i].provider in w.providers;
      if i > 0 {
        assert rest[i - 1] == queue[i];
      } else {
        assert rest[|queue| - 1].id == id;
      }
    }
  }

  lemma TailMentions(w: World, queue: seq<ReconcileMessage>, id: PaymentId)
    requires queue != [] && queue[0].provider !in w.providers
    ensures Mentions(w, queue[1..], id) <==> Mentions(w, queue, id)
  {
    if Mentions(w, queue, id) {
      var i :| 0 <= i < |queue| && queue[i].id == id && queue[i].provider in w.providers;
      assert queue[1..][i - 1] == queue[i];
    }
  }

  /** Every inquiry about the payment fails or answers `verdict`, and the last one allowed answers. */
  ghost predicate EventuallyAnswers(w: World, id: PaymentId, verdict: PaymentStatus) {
    forall m: ReconcileMessage, k :: m.id == id ==>
      (w.replies)(m, k) in {None, Some(verdict)} && (m.attempt + 1 >= w.maxRetries ==> (w.replies)(m, k) == Some(verdict))
  }

  /** Retrying is enough: an open payment with a message in the queue ends with the provider's
      verdict whenever the provider recovers before the retries run out, whatever other messages are
      around it; and the consumer touches no payment its queue does not mention. */
  lemma {:induction false} DrainedResolves(
    w: World, store: Store, queue: seq<ReconcileMessage>, n: nat, id: PaymentId, verdict: PaymentStatus)
    requires Authoritative(verdict)
    requires id in store.rows && store.rows[id].status in {Pending, Unknown, verdict}
    requires EventuallyAnswers(w, id, verdict)
    ensures var final := Drained(w, store, queue, n).0;
            && id in final.rows
            && (Mentions(w, queue, id) ==> final.rows[id].status == verdict)
            && final.rows[id] in {store.rows[id], store.rows[id].WithStatus(verdict)}
            && (!Mentions(w, queue, id) ==> final.rows[id] == store.rows[id])
    decreases Budget(w, queue), |queue|
  {
    if queue != [] {
      if queue[0].provider !in w.providers {
        TailMentions(w, queue, id);
        DrainedResolves(w, store, queue[1..], n, id, verdict);
      } else {
        var reply := (w.replies)(queue[0], n);
        RestMentions(w, queue, reply, id);
        assert queue[0].id == id ==> Mentions(w, queue, id);
        DrainedResolves(w, Reconciled(store, queue[0].id, reply), Rest(w, queue, reply), n + 1, id, verdict);
      }
    }
  }

  // ---- The background reconciler ----

  /** What the provider answers about a payment for the length of one pass. */
  type Answers = PaymentId -> Option<PaymentStatus>

  function ReconciledAll(store: Store, queue: seq<ReconcileMessage>, answers: Answers): Store
    decreases |queue|
  {
    if queue == [] then store
    else ReconciledAll(Reconciled(store, queue[0].id, answers(queue[0].id)), queue[1..], answers)
  }

  /** One message for each stale payment that has a reference and a provider able to be asked. */
  function Messages(rows: map<PaymentId, PaymentRow>, stale: seq<PaymentId>, capable: set<ProviderId>): seq<ReconcileMessage>
    requires forall i :: 0 <= i < |stale| ==> stale[i] in rows
  {
    if stale == [] then []
    else
      var row := rows[stale[|stale| - 1]];
      Messages(rows, stale[..|stale| - 1], capable)
      + if row.reference.Some? && row.provider in capable
        then [ReconcileMessage(stale[|stale| - 1], row.provider, row.reference.value, 0)] else []
  }

  lemma {:induction false} ReconciledAllAppend(store: Store, queue: seq<ReconcileMessage>, msg: ReconcileMessage, answers: Answers)
    ensures ReconciledAll(store, queue + [msg], answers)
         == Reconciled(ReconciledAll(store, queue, answers), msg.id, answers(msg.id))
    decreases |queue|
  {
    if queue == [] {
      assert queue + [msg] == [msg];
    } else {
      ReconciledAllAppend(Reconciled(store, queue[0].id, answers(queue[0].id)), queue[1..], msg, answers);
      assert (queue + [msg])[1..] == queue[1..] + [msg];
    }
  }

  /** The payment has a reference, and its provider can be asked. */
  ghost predicate Askable(rows: map<PaymentId, PaymentRow>, id: PaymentId, capable: set<ProviderId>) {
    id in rows && rows[id].reference.Some? && rows[id].provider in capable
  }

  ghost predicate IsMessageFor(rows: map<PaymentId, PaymentRow>, id: PaymentId, msg: ReconcileMessage) {
    && id in rows && rows[id].reference.Some?
    && msg.id == id && msg.provider == rows[id].provider && msg.reference == rows[id].reference.value && msg.attempt == 0
  }

  /** `picks` are the places of the askable payments in the list, and `msgs` the messages for them, in order. */
  ghost predicate Picks(
    rows: map<PaymentId, PaymentRow>, stale: seq<PaymentId>, capable: set<ProviderId>, msgs: seq<ReconcileMessage>, picks: seq<nat>)
  {
    && |picks| == |msgs|
    && (forall k :: 0 <= k < |picks| ==>
          picks[k] < |stale| && Askable(rows, stale[picks[k]], capable) && IsMessageFor(rows, stale[picks[k]], msgs[k]))
    && (forall j, k :: 0 <= j < k < |picks| ==> picks[j] < picks[k])
    && (forall i :: 0 <= i < |stale| && Askable(rows, stale[i], capable) ==> i in picks)
  }

  /** The messages are those for the askable payments of the list, one for each entry, in list order. */
  ghost predicate OneForEach(
    rows: map<PaymentId, PaymentRow>, stale: seq<PaymentId>, capable: set<ProviderId>, msgs: seq<ReconcileMessage>)
  {
    exists picks :: Picks(rows, stale, capable, msgs, picks)
  }

  lemma {:induction false} MessagesPicked(rows: map<PaymentId, PaymentRow>, stale: seq<PaymentId>, capable: set<ProviderId>)
    requires forall i :: 0 <= i < |stale| ==> stale[i] in rows
    ensures OneForEach(rows, stale, capable, Messages(rows, stale, capable))
  {
    if stale == [] {
      assert Picks(rows, stale, capable, [], []);
    } else {
      var last := |stale| - 1;
      var before := Messages(rows, stale[..last], capable);
      MessagesPicked(rows, stale[..last], capable);
      hide Picks;
      var picks :| Picks(rows, stale[..last], capable, before, picks);
      if Askable(rows, stale[last], capable) {
        var msg := ReconcileMessage(stale[last], rows[stale[last]].provider, rows[stale[last]].reference.value, 0);
        MorePicked(rows, stale, capable, before, picks, msg);
        assert Messages(rows, stale, capable) == before + [msg];
      } else {
        NotPicked(rows, stale, capable, before, picks);
        assert Messages(rows, stale, capable) == before;
      }
    }
  }

  lemma NotPicked(
    rows: map<PaymentId, PaymentRow>, stale: seq<PaymentId>, capable: set<ProviderId>, before: seq<ReconcileMessage>,
    picks: seq<nat>)
    requires stale != [] && Picks(rows, stale[..|stale| - 1], capable, before, picks)
    requires !Askable(rows, stale[|stale| - 1], capable)
    ensures Picks(rows, stale, capable, before, picks)
  {
    hide Askable, IsMessageFor;
    var init := stale[..|stale| - 1];
    forall i | 0 <= i < |stale| && Askable(rows, stale[i], capable) ensures i in picks {
      assert i < |init| && init[i] == stale[i];
    }
  }

  lemma MorePicked(
    rows: map<PaymentId, PaymentRow>, stale: seq<PaymentId>, capable: set<ProviderId>, before: seq<ReconcileMessage>,
    picks: seq<nat>, msg: ReconcileMessage)
    requires stale != [] && Picks(rows, stale[..|stale| - 1], capable, before, picks)
    requires Askable(rows, stale[|stale| - 1], capable) && IsMessageFor(rows, stale[|stale| - 1], msg)
    ensures Picks(rows, stale, capable, before + [msg], picks + [|stale| - 1])
  {
    hide Askable, IsMessageFor;
    var last := |stale| - 1;
    var init := stale[..last];
    forall i | 0 <= i < |stale| && Askable(rows, stale[i], capable) ensures i in picks + [last] {
      if i < last { assert init[i] == stale[i]; }
    }
  }

  lemma PickedIsListed(
    rows: map<PaymentId, PaymentRow>, stale: seq<PaymentId>, capable: set<ProviderId>, msgs: seq<ReconcileMessage>,
    picks: seq<nat>, k: nat)
    requires Picks(rows, stale, capable, msgs, picks) && k < |msgs|
    ensures msgs[k].id in stale && Askable(rows, msgs[k].id, capable) && IsMessageFor(rows, msgs[k].id, msgs[k])
  {
    hide Askable;
    assert picks[k] < |stale| && msgs[k].id == stale[picks[k]];
  }

  lemma ListedIsPicked(
    rows: map<PaymentId, PaymentRow>, stale: seq<PaymentId>, capable: set<ProviderId>, msgs: seq<ReconcileMessage>,
    picks: seq<nat>, msg: ReconcileMessage)
    requires Picks(rows, stale, capable, msgs, picks)
    requires msg.id in stale && Askable(rows, msg.id, capable) && IsMessageFor(rows, msg.id, msg)
    ensures msg in msgs
  {
    hide Askable;
    var i :| 0 <= i < |stale| && stale[i] == msg.id;
    assert i in picks;
    var k :| 0 <= k < |picks| && picks[k] == i;
    assert msgs[k] == msg;
  }

  lemma PickedAre(rows: map<PaymentId, PaymentRow>, stale: seq<PaymentId>, capable: set<ProviderId>, msgs: seq<ReconcileMessage>)
    requires OneForEach(rows, stale, capable, msgs)
    ensures forall msg :: msg in msgs <==> msg.id in stale && Askable(rows, msg.id, capable) && IsMessageFor(rows, msg.id, msg)
  {
    var picks :| Picks(rows, stale, capable, msgs, picks);
    hide *;
    forall k | 0 <= k < |msgs|
      ensures msgs[k].id in stale && Askable(rows, msgs[k].id, capable) && IsMessageFor(rows, msgs[k].id, msgs[k])
    {
      PickedIsListed(rows, stale, capable, msgs, picks, k);
    }
    forall msg: ReconcileMessage | msg.id in stale && Askable(rows, msg.id, capable) && IsMessageFor(rows, msg.id, msg) ensures msg in msgs {
      ListedIsPicked(rows, stale, capable, msgs, picks, msg);
    }
  }

  /** The provider's answer is news that the payment's status may take. */
  ghost predicate Settling(row: PaymentRow, answer: Option<PaymentStatus>) {
    answer.Some? && answer.value != Unknown && answer.value != row.status && Legal(row.status, answer.value)
  }

  ghost predicate Restatused(row: PaymentRow, row': PaymentRow, status: PaymentStatus) {
    && row'.status == status
    && row'.key == row.key && row'.fingerprint == row.fingerprint && row'.provider == row.provider
    && row'.reference == row.reference && row'.amount == row.amount
  }

  /** Asking in place: every askable listed payment takes its provider's answer if it may, and nothing else
      changes. */
  ghost predicate TakesAnswers(
    a: Store, b: Store, asked: set<PaymentId>, answers: Answers)
  {
    && b.rows.Keys == a.rows.Keys && b.byKey == a.byKey && b.seen == a.seen && b.refunds == a.refunds
    && forall id :: id in a.rows ==>
         if id in asked && Settling(a.rows[id], answers(id))
         then Restatused(a.rows[id], b.rows[id], answers(id).value)
         else b.rows[id] == a.rows[id]
  }

  lemma ReconciledTakes(store: Store, id: PaymentId, answers: Answers)
    ensures TakesAnswers(store, Reconciled(store, id, answers(id)), {id}, answers)
  {}

  /** Asking about one payment more, or about one again. */
  lemma TakesMore(a: Store, b: Store, asked: set<PaymentId>, id: PaymentId, answers: Answers)
    requires TakesAnswers(a, b, asked, answers)
    ensures TakesAnswers(a, Reconciled(b, id, answers(id)), asked + {id}, answers)
  {
    ReconciledTakes(b, id, answers);
  }

  ghost function Ids(msgs: seq<ReconcileMessage>): set<PaymentId> {
    set msg | msg in msgs :: msg.id
  }

  lemma {:induction false} AllTake(store: Store, queue: seq<ReconcileMessage>, answers: Answers)
    ensures TakesAnswers(store, ReconciledAll(store, queue, answers), Ids(queue), answers)
    decreases |queue|
  {
    if queue != [] {
      var init, last := queue[..|queue| - 1], queue[|queue| - 1];
      assert queue == init + [last];
      AllTake(store, init, answers);
      ReconciledAllAppend(store, init, last, answers);
      TakesMore(store, ReconciledAll(store, init, answers), Ids(init), last.id, answers);
      assert Ids(queue) == Ids(init) + {last.id};
    }
  }

  lemma AskedIds(rows: map<PaymentId, PaymentRow>, stale: seq<PaymentId>, capable: set<ProviderId>)
    requires forall i :: 0 <= i < |stale| ==> stale[i] in rows
    ensures Ids(Messages(rows, stale, capable)) == set id | id in stale && Askable(rows, id, capable)
  {
    var msgs := Messages(rows, stale, capable);
    MessagesPicked(rows, stale, capable);
    PickedAre(rows, stale, capable, msgs);
    forall id | id in stale && Askable(rows, id, capable) ensures id in Ids(msgs) {
      assert ReconcileMessage(id, rows[id].provider, rows[id].reference.value, 0) in msgs;
    }
  }

  /** What a pass publishes, or writes in place. */
  lemma PassDoes(store: Store, stale: seq<PaymentId>, capable: set<ProviderId>, answers: Answers)
    requires forall i :: 0 <= i < |stale| ==> stale[i] in store.rows
    ensures var msgs := Messages(store.rows, stale, capable);
      && OneForEach(store.rows, stale, capable, msgs)
      && (forall msg :: msg in msgs <==>
            msg.id in stale && Askable(store.rows, msg.id, capable) && IsMessageFor(store.rows, msg.id, msg))
      && TakesAnswers(store, ReconciledAll(store, msgs, answers),
                      (set id | id in stale && Askable(store.rows, id, capable)), answers)
  {
    MessagesPicked(store.rows, stale, capable);
    PickedAre(store.rows, stale, capable, Messages(store.rows, stale, capable));
    AllTake(store, Messages(store.rows, stale, capable), answers);
    AskedIds(store.rows, stale, capable);
    hide *;
  }

  /** One pass. With a message bus it only publishes; without one it asks and applies in place.
      `stale` is the list the store's SELECT returned, so its rows are read once, up front. */
  method RunOnce(store: SqliteStore, stale: seq<PaymentId>, capable: set<ProviderId>, bus: bool, answers: Answers)
    returns (published: seq<ReconcileMessage>)
    requires forall i :: 0 <= i < |stale| ==> stale[i] in store.rows
    modifies store
    ensures published == if bus then old(Messages(store.rows, stale, capable)) else []
    ensures store.Contents() == if bus then old(store.Contents())
                                else ReconciledAll(old(store.Contents()), old(Messages(store.rows, stale, capable)), answers)
    ensures bus ==>
      && OneForEach(old(store.rows), stale, capable, published)
      && (forall msg :: msg in published <==>
            msg.id in stale && Askable(old(store.rows), msg.id, capable) && IsMessageFor(old(store.rows), msg.id, msg))
    ensures !bus ==>
      TakesAnswers(old(store.Contents()), store.Contents(),
                   (set id | id in stale && Askable(old(store.rows), id, capable)), answers)
  {
    hide Askable, IsMessageFor, OneForEach, TakesAnswers;
    PassDoes(store.Contents(), stale, capable, answers);
    var listed := store.rows;
    published := [];
    ghost var done := [];
    for i := 0 to |stale|
      invariant done == Messages(listed, stale[..i], capable)
      invariant published == if bus then done else []
      invariant store.Contents() == if bus then old(store.Contents()) else ReconciledAll(old(store.Contents()), done, answers)
    {
      assert stale[..i + 1][..i] == stale[..i];
      var row := listed[stale[i]];
      if row.reference.None? || row.provider !in capable { continue; }
      var msg := ReconcileMessage(stale[i], row.provider, row.reference.value, 0);
      ReconciledAllAppend(old(store.Contents()), done, msg, answers);
      done := done + [msg];
      if bus {
        published := published + [msg];
        continue;
      }
      var reply := answers(stale[i]);
      if reply.Some? && reply.value != Unknown {
        var outcome := store.ApplyReconciliationResult(stale[i], reply.value);
      }
    }
    assert stale[..|stale|] == stale;
  }

  /** Through the queue or in place, a pass has the same effect: draining what the reconciler
      published writes exactly what it would have written itself, retries and requeueing included. */
  lemma {:induction false} QueueMatchesInline(w: World, store: Store, queue: seq<ReconcileMessage>, n: nat, answers: Answers)
    requires forall i :: 0 <= i < |queue| ==> queue[i].provider in w.providers
    requires forall m: ReconcileMessage, k :: (w.replies)(m, k) == answers(m.id)
    ensures Drained(w, store, queue, n).0 == ReconciledAll(store, queue, answers)
    decreases Budget(w, queue)
  {
    if queue != [] {
      var head := queue[0];
      var reply := (w.replies)(head, n);
      var next := Reconciled(store, head.id, reply);
      QueueMatchesInline(w, next, Rest(w, queue, reply), n + 1, answers);
      if Retried(w, head, reply) {
        ReconciledAllAppend(next, queue[1..], head.(attempt := head.attempt + 1), answers);
      }
    }
  }
}
