/** The payment store: its tables as a value, each store operation as a function
    on that value, and the SQLite store whose methods run those operations in place
    under one lock (`apps/gateway/src/store/sqlite.rs`). */
module Stores {
  import opened Wrappers
  import opened PaymentStates
  import Monies

  datatype PaymentId = PaymentId(ulid: int)
  datatype IdempotencyKey = IdempotencyKey(text: string)
  datatype Fingerprint = Fingerprint(hex: string)
  datatype ProviderId = ProviderId(name: string)
  datatype ProviderReference = ProviderReference(text: string)
  datatype EventId = EventId(text: string)
  datatype RefundId = RefundId(text: string)

  type MinorUnits = Monies.MinorUnits

  datatype PaymentRequest = PaymentRequest(
    key: IdempotencyKey, fingerprint: Fingerprint, provider: ProviderId, amount: MinorUnits)

  datatype PaymentRow = PaymentRow(
    key: IdempotencyKey, fingerprint: Fingerprint, provider: ProviderId,
    reference: Option<ProviderReference>, status: PaymentStatus, amount: MinorUnits,
    nextAction: Option<string>)
  {
    /** The row after `UPDATE payments SET status = ...`; a terminal status clears the next action. */
    function WithStatus(s: PaymentStatus): PaymentRow {
      this.(status := s, nextAction := if s.IsTerminal() then None else nextAction)
    }
  }

  datatype WebhookEvent = WebhookEvent(
    eventId: EventId, provider: ProviderId, reference: ProviderReference,
    status: PaymentStatus, amount: Option<int>)

  datatype RefundStatus = RefundSucceeded | RefundPending | RefundFailed

  datatype RefundRecord = RefundRecord(
    id: RefundId, payment: PaymentId, amount: MinorUnits, status: RefundStatus)

  datatype BeginOutcome = Proceed(id: PaymentId) | ReturnExisting(existing: PaymentId, row: PaymentRow) | Conflict

  datatype TransitionOutcome =
    | Applied(from: PaymentStatus, to: PaymentStatus)
    | NoOp
    | Illegal(illegalFrom: PaymentStatus, illegalTo: PaymentStatus)
    | AmountMismatch(stored: int, reported: int)

  datatype WebhookOutcome = Duplicate | PaymentNotFound | Transition(outcome: TransitionOutcome)

  datatype StoreError = InternalError

  /** The money a payment's refunds have returned: only refunds that succeeded count. */
  function TotalRefunded(refunds: seq<RefundRecord>, id: PaymentId): nat {
    if refunds == [] then 0
    else
      var last := refunds[|refunds| - 1];
      TotalRefunded(refunds[..|refunds| - 1], id)
      + if last.payment == id && last.status == RefundSucceeded then last.amount else 0
  }

  predicate AmountAgrees(reported: Option<int>, stored: int) {
    reported.None? || reported.value == stored
  }

  /** The tables. `byKey` is the UNIQUE index on `idempotency_key`, `seen` the primary
      key of `webhook_events`. */
  datatype Store = Store(
    rows: map<PaymentId, PaymentRow>, byKey: map<IdempotencyKey, PaymentId>,
    seen: set<EventId>, refunds: seq<RefundRecord>)
  {
    predicate Consistent() {
      && (forall id :: id in rows ==> rows[id].key in byKey && byKey[rows[id].key] == id)
      && (forall k :: k in byKey ==> byKey[k] in rows && rows[byKey[k]].key == k)
    }

    function Begin(request: PaymentRequest, newId: PaymentId): (Store, Result<BeginOutcome, StoreError>) {
      if request.key in byKey then
        var id := byKey[request.key];
        if id !in rows then (this, Err(InternalError))
        else (this, Ok(if rows[id].fingerprint == request.fingerprint then ReturnExisting(id, rows[id]) else Conflict))
      else if newId in rows then
        (this, Err(InternalError))
      else
        var row := PaymentRow(request.key, request.fingerprint, request.provider, None, Pending, request.amount, None);
        (this.(rows := rows[newId := row], byKey := byKey[request.key := newId]), Ok(Proceed(newId)))
    }

    function RecordCreation(id: PaymentId, reference: ProviderReference, status: PaymentStatus, action: Option<string>)
      : (Store, Result<(), StoreError>)
    {
      if id !in rows then (this, Err(InternalError))
      else if !Legal(rows[id].status, status) then (this, Err(InternalError))
      else if rows[id].reference.Some? && rows[id].reference.value != reference then (this, Err(InternalError))
      else
        (this.(rows := rows[id := rows[id].(reference := Some(reference), status := status, nextAction := action)]), Ok(()))
    }

    /** `update_status_only`: behind `mark_unknown` and `mark_terminal_without_provider_reference`. */
    function UpdateStatus(id: PaymentId, status: PaymentStatus): (Store, Result<(), StoreError>) {
      if id !in rows then (this, Err(InternalError))
      else if !Legal(rows[id].status, status) then (this, Err(InternalError))
      else (SetStatus(id, status), Ok(()))
    }

    function ApplyReconciliation(id: PaymentId, resolved: PaymentStatus): (Store, Result<TransitionOutcome, StoreError>) {
      if id !in rows then (this, Err(InternalError))
      else (Transitioned(id, resolved).0, Ok(Transitioned(id, resolved).1))
    }

    predicate Matches(ev: WebhookEvent, id: PaymentId) {
      id in rows && rows[id].provider == ev.provider && rows[id].reference == Some(ev.reference)
    }

    /** `apply_webhook_event` once its SELECT has found the payment `id`. */
    function ApplyWebhook(ev: WebhookEvent, id: PaymentId): (Store, WebhookOutcome)
      requires Matches(ev, id)
    {
      if ev.eventId in seen then (this, Duplicate)
      else
        var noted := this.(seen := seen + {ev.eventId});
        if !AmountAgrees(ev.amount, rows[id].amount) then
          (noted, Transition(AmountMismatch(rows[id].amount, ev.amount.value)))
        else
          (noted.Transitioned(id, ev.status).0, Transition(noted.Transitioned(id, ev.status).1))
    }

    function RecordRefund(refund: RefundRecord, status: PaymentStatus): (Store, Result<(), StoreError>) {
      if exists i :: 0 <= i < |refunds| && refunds[i].id == refund.id then (this, Err(InternalError))
      else
        var noted := this.(refunds := refunds + [refund]);
        (if refund.payment in rows
         then noted.(rows := rows[refund.payment := rows[refund.payment].(status := status)]) else noted, Ok(()))
    }

    /** A guarded status change: legal ones are written, the rest are reported and change nothing. */
    function Transitioned(id: PaymentId, to: PaymentStatus): (Store, TransitionOutcome)
      requires id in rows
    {
      var from := rows[id].status;
      if from == to then (this, NoOp)
      else if Legal(from, to) then (SetStatus(id, to), Applied(from, to))
      else (this, Illegal(from, to))
    }

    function SetStatus(id: PaymentId, to: PaymentStatus): Store
      requires id in rows
    {
      this.(rows := rows[id := rows[id].WithStatus(to)])
    }
  }

  // ---- What the operations do to the tables ----

  /** Payments other than `id` are as they were. */
  ghost predicate OthersKept(a: Store, b: Store, id: PaymentId) {
    forall i :: i != id ==> (i in b.rows <==> i in a.rows) && (i in a.rows ==> b.rows[i] == a.rows[i])
  }

  /** A new payment for the request, `Pending`, with everything the request says and nothing else. */
  ghost predicate Claims(a: Store, b: Store, request: PaymentRequest, id: PaymentId) {
    && id !in a.rows && id in b.rows && OthersKept(a, b, id)
    && b.rows[id].key == request.key && b.rows[id].fingerprint == request.fingerprint
    && b.rows[id].provider == request.provider && b.rows[id].amount == request.amount
    && b.rows[id].reference == None && b.rows[id].nextAction == None && b.rows[id].status == Pending
    && request.key !in a.byKey && b.byKey == a.byKey[request.key := id]
    && b.seen == a.seen && b.refunds == a.refunds
  }

  /** The payment's row keeps everything but its status and next action. */
  ghost predicate SameBut(a: Store, b: Store, id: PaymentId, status: PaymentStatus)
    requires id in a.rows
  {
    && id in b.rows && OthersKept(a, b, id) && b.byKey == a.byKey
    && b.rows[id].key == a.rows[id].key && b.rows[id].fingerprint == a.rows[id].fingerprint
    && b.rows[id].provider == a.rows[id].provider && b.rows[id].amount == a.rows[id].amount
    && b.rows[id].reference == a.rows[id].reference && b.rows[id].status == status
  }

  /** A guarded status change: written, with the next action gone if nothing is left to do, or refused. */
  ghost predicate GuardedChange(a: Store, b: Store, id: PaymentId, to: PaymentStatus, change: TransitionOutcome)
    requires id in a.rows
  {
    var from := a.rows[id].status;
    if from == to then change == NoOp && b.rows == a.rows && b.byKey == a.byKey
    else if Legal(from, to) then
      && change == Applied(from, to) && SameBut(a, b, id, to)
      && b.rows[id].nextAction == (if to == Succeeded || to == Failed || to == Refunded then None else a.rows[id].nextAction)
    else change == Illegal(from, to) && b.rows == a.rows && b.byKey == a.byKey
  }

  /** A webhook delivered to payment `id`: a repeated event id changes nothing, an amount that differs
      from the payment's changes no payment, and otherwise the reported status is a guarded change. */
  ghost predicate Delivers(a: Store, b: Store, ev: WebhookEvent, id: PaymentId, outcome: WebhookOutcome)
    requires id in a.rows
  {
    && b.refunds == a.refunds && b.seen == a.seen + {ev.eventId}
    && (if ev.eventId in a.seen then outcome == Duplicate && b == a
        else if ev.amount.Some? && ev.amount.value != a.rows[id].amount then
          outcome == Transition(AmountMismatch(a.rows[id].amount, ev.amount.value)) && b.rows == a.rows && b.byKey == a.byKey
        else outcome.Transition? && GuardedChange(a, b, id, ev.status, outcome.outcome))
  }

  /** One more refund in the ledger, and its payment's status set whatever it was. */
  ghost predicate AddsRefund(a: Store, b: Store, refund: RefundRecord, status: PaymentStatus) {
    && (forall i :: 0 <= i < |a.refunds| ==> a.refunds[i].id != refund.id)
    && b.refunds == a.refunds + [refund] && b.seen == a.seen
    && (if refund.payment in a.rows
        then SameBut(a, b, refund.payment, status) && b.rows[refund.payment].nextAction == a.rows[refund.payment].nextAction
        else b.rows == a.rows && b.byKey == a.byKey)
  }

  lemma BeginClaims(store: Store, request: PaymentRequest, newId: PaymentId)
    requires store.Consistent()
    ensures var (store', outcome) := store.Begin(request, newId);
      if request.key in store.byKey then
        var id := store.byKey[request.key];
        && store' == store && id in store.rows
        && outcome == Ok(if store.rows[id].fingerprint == request.fingerprint then ReturnExisting(id, store.rows[id]) else Conflict)
      else if newId in store.rows then store' == store && outcome == Err(InternalError)
      else outcome == Ok(Proceed(newId)) && Claims(store, store', request, newId)
  {}

  lemma TransitionedGuards(store: Store, id: PaymentId, to: PaymentStatus)
    requires id in store.rows
    ensures var (store', change) := store.Transitioned(id, to);
      GuardedChange(store, store', id, to, change) && store'.seen == store.seen && store'.refunds == store.refunds
  {}

  lemma WebhookDelivers(store: Store, ev: WebhookEvent, id: PaymentId)
    requires store.Matches(ev, id)
    ensures ev.provider == store.rows[id].provider && store.rows[id].reference == Some(ev.reference)
    ensures var (store', outcome) := store.ApplyWebhook(ev, id); Delivers(store, store', ev, id, outcome)
  {
    TransitionedGuards(store.(seen := store.seen + {ev.eventId}), id, ev.status);
  }

  lemma RefundAdds(store: Store, refund: RefundRecord, status: PaymentStatus)
    ensures var (store', outcome) := store.RecordRefund(refund, status);
      if outcome.Ok? then AddsRefund(store, store', refund, status)
      else store' == store && exists i :: 0 <= i < |store.refunds| && store.refunds[i].id == refund.id
  {}

  /** The embedded store: one connection behind one mutex, so each method is one atomic step. */
  class SqliteStore {
    var rows: map<PaymentId, PaymentRow>
    var byKey: map<IdempotencyKey, PaymentId>
    var seen: set<EventId>
    var refunds: seq<RefundRecord>

    function Contents(): Store
      reads this
    {
      Store(rows, byKey, seen, refunds)
    }

    constructor ()
      ensures Contents() == Store(map[], map[], {}, [])
    {
      rows, byKey, seen, refunds := map[], map[], {}, [];
    }

    method BeginPayment(request: PaymentRequest, newId: PaymentId) returns (outcome: Result<BeginOutcome, StoreError>)
      modifies this
      ensures old(Contents()).Consistent() ==> Contents().Consistent()
      ensures (Contents(), outcome) == old(Contents()).Begin(request, newId)
      ensures outcome == Ok(Proceed(newId)) ==> Claims(old(Contents()), Contents(), request, newId)
      ensures outcome != Ok(Proceed(newId)) ==> Contents() == old(Contents())
      ensures outcome == Ok(Proceed(newId)) <==> request.key !in old(byKey) && newId !in old(rows)
    {
      // The INSERT fails on a taken key or a taken id; only then is the key looked up.
      if request.key !in byKey && newId !in rows {
        rows := rows[newId := PaymentRow(request.key, request.fingerprint, request.provider, None, Pending, request.amount, None)];
        byKey := byKey[request.key := newId];
        return Ok(Proceed(newId));
      }
      if request.key !in byKey {
        return Err(InternalError);
      }
      var id := byKey[request.key];
      if id !in rows {
        return Err(InternalError);
      }
      if rows[id].fingerprint == request.fingerprint {
        return Ok(ReturnExisting(id, rows[id]));
      }
      return Ok(Conflict);
    }

    method RecordCreationResult(id: PaymentId, reference: ProviderReference, status: PaymentStatus, action: Option<string>)
      returns (outcome: Result<(), StoreError>)
      modifies this`rows
      ensures (Contents(), outcome) == old(Contents()).RecordCreation(id, reference, status, action)
      ensures outcome.Ok? <==> id in old(rows) && Legal(old(rows)[id].status, status)
                               && (old(rows)[id].reference.Some? ==> old(rows)[id].reference.value == reference)
      ensures outcome.Ok? ==>
        rows == old(rows)[id := old(rows)[id].(reference := Some(reference), status := status, nextAction := action)]
      ensures outcome.Err? ==> Contents() == old(Contents())
    {
      if id !in rows { return Err(InternalError); }
      var row := rows[id];
      if row.status.ValidateTransition(status).Err? { return Err(InternalError); }
      if row.reference.Some? && row.reference.value != reference { return Err(InternalError); }
      rows := rows[id := row.(reference := Some(reference), status := status, nextAction := action)];
      return Ok(());
    }

    method ApplyWebhookEvent(ev: WebhookEvent) returns (found: Option<PaymentId>, outcome: WebhookOutcome)
      modifies this`rows, this`seen
      ensures found.None? ==>
        && outcome == PaymentNotFound && Contents() == old(Contents())
        && forall id :: !old(Contents()).Matches(ev, id)
      ensures found.Some? ==>
        && old(Contents()).Matches(ev, found.value)
        && (Contents(), outcome) == old(Contents()).ApplyWebhook(ev, found.value)
        && Delivers(old(Contents()), Contents(), ev, found.value, outcome)
    {
      if id :| id in rows && rows[id].provider == ev.provider && rows[id].reference == Some(ev.reference) {
        found := Some(id);
        var row := rows[id];
        if ev.eventId in seen {
          return found, Duplicate;
        }
        seen := seen + {ev.eventId};
        if ev.amount.Some? && ev.amount.value != row.amount {
          return found, Transition(AmountMismatch(row.amount, ev.amount.value));
        }
        var change := ApplyTransition(id, ev.status);
        return found, Transition(change);
      }
      return None, PaymentNotFound;
    }

    method ApplyTransition(id: PaymentId, to: PaymentStatus) returns (change: TransitionOutcome)
      requires id in rows
      modifies this`rows
      ensures (Contents(), change) == old(Contents()).Transitioned(id, to)
      ensures GuardedChange(old(Contents()), Contents(), id, to, change)
    {
      var from := rows[id].status;
      if from == to { return NoOp; }
      match from.ValidateTransition(to)
      case Ok(_) =>
        rows := rows[id := rows[id].WithStatus(to)];
        return Applied(from, to);
      case Err(illegal) =>
        return Illegal(illegal.from, illegal.to);
    }

    method UpdateStatusOnly(id: PaymentId, status: PaymentStatus) returns (outcome: Result<(), StoreError>)
      modifies this`rows
      ensures (Contents(), outcome) == old(Contents()).UpdateStatus(id, status)
      ensures outcome.Ok? <==> id in old(rows) && Legal(old(rows)[id].status, status)
      ensures outcome.Ok? ==> SameBut(old(Contents()), Contents(), id, status)
      ensures outcome.Ok? ==>
        rows[id].nextAction == if status == Succeeded || status == Failed || status == Refunded then None else old(rows)[id].nextAction
      ensures outcome.Err? ==> Contents() == old(Contents())
    {
      if id !in rows { return Err(InternalError); }
      if rows[id].status.ValidateTransition(status).Err? { return Err(InternalError); }
      rows := rows[id := rows[id].WithStatus(status)];
      return Ok(());
    }

    method ApplyReconciliationResult(id: PaymentId, resolved: PaymentStatus)
      returns (outcome: Result<TransitionOutcome, StoreError>)
      modifies this`rows
      ensures (Contents(), outcome) == old(Contents()).ApplyReconciliation(id, resolved)
      ensures outcome.Err? <==> id !in old(rows)
      ensures outcome.Ok? ==> GuardedChange(old(Contents()), Contents(), id, resolved, outcome.value)
      ensures outcome.Ok? && outcome.value.Applied? ==> Legal(old(rows)[id].status, resolved) && rows[id].status == resolved
      ensures outcome.Ok? && outcome.value.Illegal? ==> !Legal(old(rows)[id].status, resolved)
      ensures outcome.Err? || !outcome.value.Applied? ==> Contents() == old(Contents())
    {
      if id !in rows { return Err(InternalError); }
      var change := ApplyTransition(id, resolved);
      return Ok(change);
    }

    method InsertRefund(refund: RefundRecord, status: PaymentStatus) returns (outcome: Result<(), StoreError>)
      modifies this`rows, this`refunds
      ensures (Contents(), outcome) == old(Contents()).RecordRefund(refund, status)
      ensures outcome.Ok? ==> AddsRefund(old(Contents()), Contents(), refund, status)
      ensures outcome.Err? <==> exists i :: 0 <= i < |old(refunds)| && old(refunds)[i].id == refund.id
      ensures outcome.Err? ==> Contents() == old(Contents())
    {
      for i := 0 to |refunds|
        invariant forall j :: 0 <= j < i ==> refunds[j].id != refund.id
      {
        if refunds[i].id == refund.id { return Err(InternalError); }
      }
      refunds := refunds + [refund];
      if refund.payment in rows {
        rows := rows[refund.payment := rows[refund.payment].(status := status)];
      }
      return Ok(());
    }
  }
}
