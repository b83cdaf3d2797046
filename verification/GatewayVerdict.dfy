/** Verdicts: how the providers' answers, arriving in any order and mix, decide a payment. */
module GatewayVerdict {
  import opened Wrappers
  import opened PaymentStates
  import opened Stores
  import opened Gateway
  import opened GatewaySafety
  import opened GatewayHistory

  /** The answer an event carries for payment `id`, if the store acted on it: an inquiry it applied,
      or the first delivery of a webhook whose amount agrees. */
  function Answer(e: Event, id: PaymentId, amount: int): Option<PaymentStatus> {
    match e
    case InquiryApplied(i, status) => if i == id && Authoritative(status) then Some(status) else None
    case WebhookDelivered(ev, i, first) =>
      if i == id && first && AmountAgrees(ev.amount, amount) && Authoritative(ev.status) then Some(ev.status) else None
    case _ => None
  }

  /** The first authoritative answer about a payment. */
  function Verdict(log: seq<Event>, id: PaymentId, amount: int): Option<PaymentStatus> {
    if log == [] then None
    else
      var earlier := Verdict(log[..|log| - 1], id, amount);
      if earlier.Some? then earlier else Answer(log[|log| - 1], id, amount)
  }

  function FirstAnswer(es: seq<Event>, id: PaymentId, amount: int): Option<PaymentStatus> {
    if es == [] then None
    else if Answer(es[0], id, amount).Some? then Answer(es[0], id, amount)
    else FirstAnswer(es[1..], id, amount)
  }

  lemma {:induction false} VerdictAppend(log: seq<Event>, es: seq<Event>, id: PaymentId, amount: int)
    ensures Verdict(log + es, id, amount)
              == if Verdict(log, id, amount).Some? then Verdict(log, id, amount) else FirstAnswer(es, id, amount)
    decreases |es|
  {
    if es == [] {
      assert log + es == log;
    } else {
      VerdictAppend(log + [es[0]], es[1..], id, amount);
      assert log + es == (log + [es[0]]) + es[1..];
      assert (log + [es[0]])[..|log|] == log;
    }
  }

  predicate Concerns(e: Event, id: PaymentId) {
    (e.InquiryApplied? || e.WebhookDelivered?) && e.id == id
  }

  lemma {:induction false} NoAnswer(es: seq<Event>, id: PaymentId, amount: int)
    requires forall k :: 0 <= k < |es| ==> !Concerns(es[k], id)
    ensures FirstAnswer(es, id, amount) == None
  {
    if es != [] {
      assert !Concerns(es[0], id);
      NoAnswer(es[1..], id, amount);
    }
  }

  // ---- Rows and verdicts ----

  predicate Open(status: PaymentStatus) {
    status == Pending || status == Unknown
  }

  predicate Settled(status: PaymentStatus, verdict: PaymentStatus) {
    if verdict == Failed then status == Failed else Captured(status)
  }

  /** PostgreSQL only: a webhook's event is in, and its UPDATE is still to come. */
  ghost predicate Awaited(procs: map<ProcId, Proc>, id: PaymentId, to: PaymentStatus) {
    exists p :: p in procs && procs[p].PgUpdate? && procs[p].id == id && procs[p].to == to && procs[p].cause.ByWebhook?
  }

  /** What the verdict says about the status. */
  ghost predicate Decides(verdict: Option<PaymentStatus>, row: PaymentRow, id: PaymentId, procs: map<ProcId, Proc>) {
    match verdict
    case None => row.reference.Some? ==> Open(row.status)
    case Some(v) => row.reference.Some? && (Settled(row.status, v) || Awaited(procs, id, v))
  }

  /** Requests that rest on a row: PostgreSQL's steps and refunds. */
  ghost predicate ProcFits(log: seq<Event>, store: Store, q: Proc) {
    match q
    case PgWebhookRead(id, ev, from) =>
      id in store.rows && (Open(from) || Verdict(log, id, store.rows[id].amount).Some?)
    case PgUpdate(id, from, to, cause) =>
      && id in store.rows && (cause.ByWebhook? || (cause.ByInquiry? && cause.status == to))
      && (cause.ByWebhook? && Authoritative(to) ==> Verdict(log, id, store.rows[id].amount).Some?)
    case _ => true
  }

  ghost predicate Decided(s: System) {
    && (forall id :: id in s.store.rows ==>
          Decides(Verdict(s.log, id, s.store.rows[id].amount), s.store.rows[id], id, s.procs))
    && (forall id, amount :: id !in s.store.rows ==> Verdict(s.log, id, amount) == None)
    && (forall p :: p in s.procs ==> ProcFits(s.log, s.store, s.procs[p]))
  }

  ghost predicate SameRow(a: Store, b: Store, id: PaymentId)
    requires id in b.rows
  {
    && id in a.rows && b.rows[id].status == a.rows[id].status
    && b.rows[id].reference == a.rows[id].reference && b.rows[id].amount == a.rows[id].amount
  }

  ghost predicate AwaitedStays(s: System, s': System) {
    forall p :: p in s.procs && s.procs[p].PgUpdate? && s.procs[p].cause.ByWebhook? ==> p in s'.procs && s'.procs[p] == s.procs[p]
  }

  /** What a step must show to keep every verdict: `id` is the payment it acts on. */
  ghost predicate ActsOn(s: System, s': System, es: seq<Event>, id: PaymentId) {
    && s'.log == s.log + es
    && (forall k, i :: 0 <= k < |es| && i != id ==> !Concerns(es[k], i))
    && (forall i :: i in s'.store.rows && i != id ==> SameRow(s.store, s'.store, i))
    && (forall i :: i in s.store.rows ==> i in s'.store.rows && s'.store.rows[i].amount == s.store.rows[i].amount)
    && (forall p :: p in s'.procs ==>
          (p in s.procs && s'.procs[p] == s.procs[p]) || ProcFits(s'.log, s'.store, s'.procs[p]))
  }

  lemma FitPersists(s: System, s': System, es: seq<Event>, id: PaymentId, q: Proc)
    requires ActsOn(s, s', es, id) && ProcFits(s.log, s.store, q)
    ensures ProcFits(s'.log, s'.store, q)
  {
    if q.PgWebhookRead? || q.PgUpdate? {
      VerdictAppend(s.log, es, q.id, s.store.rows[q.id].amount);
    }
  }

  lemma OtherDecides(s: System, s': System, es: seq<Event>, id: PaymentId, i: PaymentId)
    requires Decided(s) && ActsOn(s, s', es, id) && i != id && i in s'.store.rows
    requires forall v :: Awaited(s.procs, i, v) ==> Awaited(s'.procs, i, v)
    ensures Decides(Verdict(s'.log, i, s'.store.rows[i].amount), s'.store.rows[i], i, s'.procs)
  {
    assert SameRow(s.store, s'.store, i);
    var amount := s.store.rows[i].amount;
    VerdictAppend(s.log, es, i, amount);
    NoAnswer(es, i, amount);
    assert Decides(Verdict(s.log, i, amount), s.store.rows[i], i, s.procs);
  }

  /** A step that acts on one payment and keeps its verdict keeps them all. */
  lemma ActKeepsDecided(s: System, s': System, es: seq<Event>, id: PaymentId)
    requires Decided(s) && ActsOn(s, s', es, id)
    requires forall i, v :: i != id && Awaited(s.procs, i, v) ==> Awaited(s'.procs, i, v)
    requires id in s'.store.rows ==>
      Decides(Verdict(s'.log, id, s'.store.rows[id].amount), s'.store.rows[id], id, s'.procs)
    requires id !in s'.store.rows ==> forall k :: 0 <= k < |es| ==> !Concerns(es[k], id)
    ensures Decided(s')
  {
    forall i | i in s'.store.rows
      ensures Decides(Verdict(s'.log, i, s'.store.rows[i].amount), s'.store.rows[i], i, s'.procs)
    {
      if i != id { OtherDecides(s, s', es, id, i); }
    }
    forall i, amount | i !in s'.store.rows ensures Verdict(s'.log, i, amount) == None {
      NoAnswer(es, i, amount);
      VerdictAppend(s.log, es, i, amount);
    }
    forall p | p in s'.procs ensures ProcFits(s'.log, s'.store, s'.procs[p]) {
      if p in s.procs && s'.procs[p] == s.procs[p] { FitPersists(s, s', es, id, s.procs[p]); }
    }
  }

  lemma AwaitedKept(s: System, s': System)
    requires AwaitedStays(s, s')
    ensures forall i, v :: Awaited(s.procs, i, v) ==> Awaited(s'.procs, i, v)
  {
    forall i, v | Awaited(s.procs, i, v) ensures Awaited(s'.procs, i, v) {
      var p :| p in s.procs && s.procs[p].PgUpdate? && s.procs[p].id == i && s.procs[p].to == v && s.procs[p].cause.ByWebhook?;
      assert p in s'.procs && s'.procs[p] == s.procs[p];
    }
  }

  // ---- The steps ----

  /** No crash takes a webhook between PostgreSQL's INSERT of its event and the UPDATE of its payment. */
  predicate Lossless(s: System, l: Label) {
    l.Crash? && l.p in s.procs && s.procs[l.p].PgUpdate? ==> !s.procs[l.p].cause.ByWebhook?
  }

  predicate IsQuiet(l: Label) {
    !IsReport(l) && !l.Begin? && !l.FinishCreate? && !l.RecordRefund?
  }

  lemma QuietActs(c: Config, s: System, l: Label, id: PaymentId)
    requires Enabled(c, s, l) && IsQuiet(l)
    ensures var s' := Step(c, s, l);
      && |s.log| <= |s'.log| && s'.store.rows == s.store.rows
      && s'.log == s.log + Logged(s, s') && (forall k, i :: 0 <= k < |Logged(s, s')| ==> !Concerns(Logged(s, s')[k], i))
      && (forall p :: p in s'.procs ==> (p in s.procs && s'.procs[p] == s.procs[p]) || (!s'.procs[p].PgWebhookRead? && !s'.procs[p].PgUpdate?))
  {}

  lemma QuietStays(c: Config, s: System, l: Label)
    requires Enabled(c, s, l) && IsQuiet(l) && Lossless(s, l)
    ensures AwaitedStays(s, Step(c, s, l))
  {}

  lemma QuietDecided(c: Config, s: System, l: Label)
    requires Decided(s) && Enabled(c, s, l) && IsQuiet(l) && Lossless(s, l)
    ensures Decided(Step(c, s, l))
  {
    var s' := Step(c, s, l);
    var id := PaymentId(0);
    QuietActs(c, s, l, id);
    QuietStays(c, s, l);
    hide Step, Enabled;
    AwaitedKept(s, s');
    SameDecides(s, s', Logged(s, s'), id);
    ActKeepsDecided(s, s', Logged(s, s'), id);
  }

  /** A step that leaves the payment's row alone and brings no answer about it. */
  lemma SameDecides(s: System, s': System, es: seq<Event>, id: PaymentId)
    requires Decided(s) && s'.log == s.log + es && forall k :: 0 <= k < |es| ==> !Concerns(es[k], id)
    requires id in s'.store.rows ==> SameRow(s.store, s'.store, id)
    requires forall v :: Awaited(s.procs, id, v) ==> Awaited(s'.procs, id, v)
    ensures id in s'.store.rows ==>
      Decides(Verdict(s'.log, id, s'.store.rows[id].amount), s'.store.rows[id], id, s'.procs)
  {
    if id in s'.store.rows {
      NoAnswer(es, id, s.store.rows[id].amount);
      VerdictAppend(s.log, es, id, s.store.rows[id].amount);
      assert Decides(Verdict(s.log, id, s.store.rows[id].amount), s.store.rows[id], id, s.procs);
    }
  }

  /** A step that writes one row, of a payment with no reference so far, and brings no answer. */
  ghost predicate Creates(s: System, s': System, e: Event, id: PaymentId, row: PaymentRow) {
    && s'.log == s.log + [e] && !Concerns(e, id) && (e.RowCreated? || e.StatusWritten?)
    && s'.store.rows == s.store.rows[id := row]
    && (id in s.store.rows ==> s.store.rows[id].reference == None && row.amount == s.store.rows[id].amount)
    && (row.reference.Some? ==> Open(row.status))
    && (forall p :: p in s'.procs ==> (p in s.procs && s'.procs[p] == s.procs[p]) || s'.procs[p].CreateReady? || s'.procs[p].CreateReadBack?)
    && AwaitedStays(s, s')
  }

  lemma CreatesDecided(s: System, s': System, e: Event, id: PaymentId, row: PaymentRow)
    requires Decided(s) && Creates(s, s', e, id, row)
    ensures Decided(s')
  {
    assert id in s.store.rows ==> Decides(Verdict(s.log, id, row.amount), s.store.rows[id], id, s.procs);
    NoAnswer([e], id, row.amount);
    VerdictAppend(s.log, [e], id, row.amount);
    AwaitedKept(s, s');
    ActKeepsDecided(s, s', [e], id);
  }

  lemma BeginCreates(c: Config, s: System, l: Label)
    requires Enabled(c, s, l) && l.Begin? && Step(c, s, l) != s
    ensures var s' := Step(c, s, l);
      l.newId in s'.store.rows && Creates(s, s', RowCreated(l.newId), l.newId, s'.store.rows[l.newId])
  {}

  lemma BeginDecided(c: Config, s: System, l: Label)
    requires Decided(s) && Enabled(c, s, l) && l.Begin?
    ensures Decided(Step(c, s, l))
  {
    hide Step, Enabled, Creates, Decided;
    var s' := Step(c, s, l);
    if s' != s {
      BeginCreates(c, s, l);
      CreatesDecided(s, s', RowCreated(l.newId), l.newId, s'.store.rows[l.newId]);
    }
  }

  lemma FinishCreates(c: Config, s: System, p: ProcId)
    requires Inv(s) && Enabled(c, s, FinishCreate(p))
    ensures var s', q := Step(c, s, FinishCreate(p)), s.procs[p];
      && q.id in s.store.rows
      && var row := s.store.rows[q.id];
         Creates(s, s', SettledEvent(q.id, row, q.reply), q.id, SettledRow(row, q.reply))
  {
    CreationNeverClobbers(c, s, p);
    hide Inv, Step;
  }

  /** Before creation ends the payment has no reference, so no verdict either. */
  lemma FinishDecided(c: Config, s: System, p: ProcId)
    requires Inv(s) && Decided(s) && Enabled(c, s, FinishCreate(p))
    ensures Decided(Step(c, s, FinishCreate(p)))
  {
    hide Inv, Step, Creates, Decided;
    FinishCreates(c, s, p);
    var q := s.procs[p];
    var row := s.store.rows[q.id];
    CreatesDecided(s, Step(c, s, FinishCreate(p)), SettledEvent(q.id, row, q.reply), q.id, SettledRow(row, q.reply));
  }

  /** A guarded change of status keeps what the verdict says, if the change is to the verdict where
      there was none. */
  lemma VerdictStands(
    verdict: Option<PaymentStatus>, row: PaymentRow, to: PaymentStatus, id: PaymentId, procs: map<ProcId, Proc>,
    procs': map<ProcId, Proc>, answer: Option<PaymentStatus>)
    requires Decides(verdict, row, id, procs) && row.reference.Some? && Legal(row.status, to)
    requires verdict.Some? ==> Authoritative(verdict.value)
    requires answer == (if Authoritative(to) then Some(to) else None) || (answer == None && (Authoritative(to) ==> verdict.Some?))
    requires forall v :: v != to && Awaited(procs, id, v) ==> Awaited(procs', id, v)
    ensures Decides(if verdict.Some? then verdict else answer, row.WithStatus(to), id, procs')
  {}

  lemma {:induction false} VerdictIsAuthoritative(log: seq<Event>, id: PaymentId, amount: int)
    ensures Verdict(log, id, amount).Some? ==> Authoritative(Verdict(log, id, amount).value)
  {
    if log != [] { VerdictIsAuthoritative(log[..|log| - 1], id, amount); }
  }

  /** A payment that is not open has its verdict. */
  lemma ClosedHasVerdict(s: System, id: PaymentId)
    requires Decided(s) && id in s.store.rows && s.store.rows[id].reference.Some? && !Open(s.store.rows[id].status)
    ensures Verdict(s.log, id, s.store.rows[id].amount).Some?
  {
    assert Decides(Verdict(s.log, id, s.store.rows[id].amount), s.store.rows[id], id, s.procs);
  }

  /** What a step does that handles a report about payment `id`: `answer` is what the report tells,
      `to` the status it writes, if any. */
  ghost predicate Reports(s: System, s': System, es: seq<Event>, id: PaymentId, answer: Option<PaymentStatus>, to: Option<PaymentStatus>) {
    && s'.log == s.log + es && (forall k, i :: 0 <= k < |es| && i != id ==> !Concerns(es[k], i))
    && id in s.store.rows && s.store.rows[id].reference.Some?
    && FirstAnswer(es, id, s.store.rows[id].amount) == answer
    && s'.store.rows == (if to.Some? then s.store.rows[id := s.store.rows[id].WithStatus(to.value)] else s.store.rows)
    && (to.Some? ==> Legal(s.store.rows[id].status, to.value))
  }

  /** A report that writes: its status is its answer, or the verdict is already in. */
  lemma WrittenDecided(s: System, s': System, es: seq<Event>, id: PaymentId, answer: Option<PaymentStatus>, to: PaymentStatus)
    requires Decided(s) && Reports(s, s', es, id, answer, Some(to))
    requires answer == (if Authoritative(to) then Some(to) else None)
             || (answer == None && (Authoritative(to) ==> Verdict(s.log, id, s.store.rows[id].amount).Some?))
    requires forall i, v :: (i != id || v != to) && Awaited(s.procs, i, v) ==> Awaited(s'.procs, i, v)
    requires forall p :: p in s'.procs ==> p in s.procs && s'.procs[p] == s.procs[p]
    ensures Decided(s')
  {
    var row := s.store.rows[id];
    var verdict := Verdict(s.log, id, row.amount);
    VerdictAppend(s.log, es, id, row.amount);
    VerdictIsAuthoritative(s.log, id, row.amount);
    assert Decides(verdict, row, id, s.procs);
    VerdictStands(verdict, row, to, id, s.procs, s'.procs, answer);
    hide Decides, Verdict, FirstAnswer, Awaited;
    ActKeepsDecided(s, s', es, id);
  }

  /** A report that writes nothing: it brings no answer, or one whose verdict is in, or one that the
      request at `p` goes on to write. */
  lemma UnwrittenDecided(s: System, s': System, es: seq<Event>, id: PaymentId, answer: Option<PaymentStatus>)
    requires Decided(s) && Reports(s, s', es, id, answer, None)
    requires answer.Some? ==>
      Verdict(s.log, id, s.store.rows[id].amount).Some? || Awaited(s'.procs, id, answer.value)
    requires forall i, v :: Awaited(s.procs, i, v) ==> Awaited(s'.procs, i, v)
    requires forall p :: p in s'.procs ==>
          (p in s.procs && s'.procs[p] == s.procs[p]) || ProcFits(s'.log, s'.store, s'.procs[p])
    ensures Decided(s')
  {
    var row := s.store.rows[id];
    VerdictAppend(s.log, es, id, row.amount);
    assert Decides(Verdict(s.log, id, row.amount), row, id, s.procs);
    hide Verdict, FirstAnswer, Awaited;
    ActKeepsDecided(s, s', es, id);
  }

  lemma ReportEvents(answer: Event, change: TransitionOutcome, id: PaymentId, cause: Cause, amount: int)
    requires answer.InquiryApplied? || answer.WebhookDelivered?
    ensures FirstAnswer([answer] + Written(change, id, cause), id, amount) == Answer(answer, id, amount)
  {
    var es := [answer] + Written(change, id, cause);
    assert es[0] == answer && es[1..] == Written(change, id, cause);
    NoAnswer(Written(change, id, cause), id, amount);
  }

  // ---- SQLite: report and write are one step ----

  lemma ReportedDecided(s: System, s': System, id: PaymentId, answer: Event, to: PaymentStatus, cause: Cause)
    requires Decided(s) && id in s.store.rows && s.store.rows[id].reference.Some?
    requires answer.InquiryApplied? || answer.WebhookDelivered?
    requires answer.id == id && Answer(answer, id, s.store.rows[id].amount) == (if Authoritative(to) then Some(to) else None)
    requires s'.store.rows == s.store.Transitioned(id, to).0.rows
    requires s'.log == s.log + ([answer] + Written(s.store.Transitioned(id, to).1, id, cause))
    requires forall i, v :: Awaited(s.procs, i, v) ==> Awaited(s'.procs, i, v)
    requires forall p :: p in s'.procs ==> p in s.procs && s'.procs[p] == s.procs[p]
    ensures Decided(s')
  {
    var change := s.store.Transitioned(id, to).1;
    var es := [answer] + Written(change, id, cause);
    ReportEvents(answer, change, id, cause, s.store.rows[id].amount);
    hide FirstAnswer, Awaited, Verdict, Decided;
    if change.Applied? {
      WrittenDecided(s, s', es, id, if Authoritative(to) then Some(to) else None, to);
    } else {
      if Authoritative(to) { ClosedHasVerdict(s, id); }
      UnwrittenDecided(s, s', es, id, if Authoritative(to) then Some(to) else None);
    }
  }

  lemma DeliverDecided(c: Config, s: System, l: Label)
    requires c.backend == Sqlite && Decided(s) && Enabled(c, s, l) && l.DeliverWebhook?
    ensures Decided(Step(c, s, l))
  {
    var s', ev, id := Step(c, s, l), l.ev, l.id;
    AwaitedKept(s, s');
    hide Decided, Awaited, FirstAnswer;
    if ev.eventId in s.store.seen || !AmountAgrees(ev.amount, s.store.rows[id].amount) {
      var e := WebhookDelivered(ev, id, ev.eventId !in s.store.seen);
      assert s'.log == s.log + [e];
      OneEvent(e, id, s.store.rows[id].amount);
      UnwrittenDecided(s, s', [e], id, None);
    } else {
      ReportedDecided(s, s', id, WebhookDelivered(ev, id, true), ev.status, ByWebhook(ev));
    }
  }

  lemma OneEvent(e: Event, id: PaymentId, amount: int)
    ensures FirstAnswer([e], id, amount) == Answer(e, id, amount) && FirstAnswer([], id, amount) == None
  {
    assert [e][1..] == [];
  }

  lemma InquiryDecided(c: Config, s: System, p: ProcId)
    requires c.backend == Sqlite && Inv(s) && Decided(s) && p in s.procs && s.procs[p].InquiryAnswered?
    ensures Decided(ApplyInquiryStep(c, s, p))
  {
    var s', q := ApplyInquiryStep(c, s, p), s.procs[p];
    assert HoldsReference(s.store, q);
    AwaitedKept(s, s');
    hide Inv, Decided, Awaited, FirstAnswer;
    if Wanted(q.origin, q.status) {
      ReportedDecided(s, s', q.id, InquiryApplied(q.id, q.status), q.status, ByInquiry(q.reference, q.status));
    } else {
      Unreported(s, s', q.id);
    }
  }

  /** A step about a payment that logs nothing and writes nothing. */
  lemma Unreported(s: System, s': System, id: PaymentId)
    requires Decided(s) && s'.log == s.log && s'.store.rows == s.store.rows
    requires id in s.store.rows && s.store.rows[id].reference.Some?
    requires forall i, v :: Awaited(s.procs, i, v) ==> Awaited(s'.procs, i, v)
    requires forall p :: p in s'.procs ==>
          (p in s.procs && s'.procs[p] == s.procs[p]) || ProcFits(s'.log, s'.store, s'.procs[p])
    ensures Decided(s')
  {
    hide Decided, Awaited, ProcFits;
    assert s'.log == s.log + [];
    UnwrittenDecided(s, s', [], id, None);
  }

  // ---- PostgreSQL: the read, the event's INSERT and the UPDATE are three steps ----

  lemma PgReadDecided(c: Config, s: System, l: Label)
    requires c.backend == Postgres && Decided(s) && Enabled(c, s, l) && l.DeliverWebhook?
    ensures Decided(Step(c, s, l))
  {
    var s' := Step(c, s, l);
    AwaitedKept(s, s');
    if !Open(s.store.rows[l.id].status) { ClosedHasVerdict(s, l.id); }
    hide Decided, Awaited;
    Unreported(s, s', l.id);
  }

  /** An answer the status machine refuses is noted and changes nothing. */
  lemma RefusedDecided(s: System, s': System, id: PaymentId, status: PaymentStatus)
    requires Decided(s) && id in s.store.rows && s.store.rows[id].reference.Some? && !Legal(s.store.rows[id].status, status)
    requires s'.store == s.store && s'.log == s.log + [InquiryApplied(id, status)]
    requires forall p :: p in s'.procs ==> p in s.procs && s'.procs[p] == s.procs[p]
    requires AwaitedStays(s, s')
    ensures Decided(s')
  {
    AwaitedKept(s, s');
    hide Decided, Awaited, FirstAnswer, Verdict;
    if Authoritative(status) { ClosedHasVerdict(s, id); }
    OneEvent(InquiryApplied(id, status), id, s.store.rows[id].amount);
    UnwrittenDecided(s, s', [InquiryApplied(id, status)], id, if Authoritative(status) then Some(status) else None);
  }

  lemma PgRefusedDecided(c: Config, s: System, p: ProcId)
    requires c.backend == Postgres && Inv(s) && Decided(s) && p in s.procs && s.procs[p].InquiryAnswered?
    requires var q := s.procs[p]; Wanted(q.origin, q.status) && q.id in s.store.rows && !Legal(s.store.rows[q.id].status, q.status)
    ensures Decided(ApplyInquiryStep(c, s, p))
  {
    var s', q := ApplyInquiryStep(c, s, p), s.procs[p];
    assert HoldsReference(s.store, q);
    assert s' == s.End(p).Commit(s.store, [InquiryApplied(q.id, q.status)]);
    hide Inv, Decided, ApplyInquiryStep, Wanted, Legal;
    RefusedDecided(s, s', q.id, q.status);
  }

  lemma PgInquiryDecided(c: Config, s: System, p: ProcId)
    requires c.backend == Postgres && Inv(s) && Decided(s) && p in s.procs && s.procs[p].InquiryAnswered?
    ensures Decided(ApplyInquiryStep(c, s, p))
  {
    var s', q := ApplyInquiryStep(c, s, p), s.procs[p];
    assert HoldsReference(s.store, q);
    if Wanted(q.origin, q.status) && !Legal(s.store.rows[q.id].status, q.status) {
      PgRefusedDecided(c, s, p);
    } else {
      AwaitedKept(s, s');
      hide Inv, Decided, Awaited, FirstAnswer;
      Unreported(s, s', q.id);
    }
  }

  /** The INSERT either ends the request or leaves the UPDATE to be made. */
  lemma PgInsertActs(c: Config, s: System, p: ProcId)
    requires p in s.procs && s.procs[p].PgWebhookRead? && s.procs[p].id in s.store.rows
    ensures var s', q := PgInsertEventStep(s, p), s.procs[p];
      && s'.store.rows == s.store.rows
      && s'.log == s.log + [WebhookDelivered(q.ev, q.id, q.ev.eventId !in s.store.seen)]
      && (|| (&& s'.procs == s.procs - {p}
              && (q.ev.eventId in s.store.seen || !AmountAgrees(q.ev.amount, s.store.rows[q.id].amount) || !Legal(q.from, q.ev.status)))
          || (&& s'.procs == s.procs[p := PgUpdate(q.id, q.from, q.ev.status, ByWebhook(q.ev))]
              && q.ev.eventId !in s.store.seen && AmountAgrees(q.ev.amount, s.store.rows[q.id].amount)))
  {}

  lemma PgInsertDecided(c: Config, s: System, p: ProcId)
    requires Inv(s) && Decided(s) && p in s.procs && s.procs[p].PgWebhookRead?
    ensures Decided(PgInsertEventStep(s, p))
  {
    var s', q := PgInsertEventStep(s, p), s.procs[p];
    assert HoldsReference(s.store, q) && ProcFits(s.log, s.store, q);
    assert Open(q.from) || Verdict(s.log, q.id, s.store.rows[q.id].amount).Some?;
    PgInsertActs(c, s, p);
    hide Inv, Decided, PgInsertEventStep, HoldsReference, Verdict, ProcFits;
    var e := WebhookDelivered(q.ev, q.id, q.ev.eventId !in s.store.seen);
    if p in s'.procs {
      InsertedGoesOn(s, s', p, e);
    } else {
      InsertedEnds(s, s', p, e);
    }
  }

  /** Without an UPDATE to come, an answer of the event is one the verdict has refused. */
  lemma InsertedEnds(s: System, s': System, p: ProcId, e: Event)
    requires Decided(s) && p in s.procs && s.procs[p].PgWebhookRead? && s'.procs == s.procs - {p}
    requires s.procs[p].id in s.store.rows && s.store.rows[s.procs[p].id].reference.Some?
    requires s'.store.rows == s.store.rows && s'.log == s.log + [e] && e.WebhookDelivered? && e.id == s.procs[p].id
    requires Answer(e, e.id, s.store.rows[e.id].amount).Some? ==> Verdict(s.log, e.id, s.store.rows[e.id].amount).Some?
    ensures Decided(s')
  {
    AwaitedKept(s, s');
    OneEvent(e, e.id, s.store.rows[e.id].amount);
    hide Decided, Awaited, Verdict, FirstAnswer;
    UnwrittenDecided(s, s', [e], e.id, Answer(e, e.id, s.store.rows[e.id].amount));
  }

  lemma InsertedGoesOn(s: System, s': System, p: ProcId, e: Event)
    requires Decided(s) && p in s.procs && s.procs[p].PgWebhookRead?
    requires s.procs[p].id in s.store.rows && s.store.rows[s.procs[p].id].reference.Some?
    requires s'.store.rows == s.store.rows && s'.log == s.log + [e]
    requires var q := s.procs[p];
      && e == WebhookDelivered(q.ev, q.id, true) && AmountAgrees(q.ev.amount, s.store.rows[q.id].amount)
      && q.ev.eventId !in s.store.seen
      && s'.procs == s.procs[p := PgUpdate(q.id, q.from, q.ev.status, ByWebhook(q.ev))]
    ensures Decided(s')
  {
    AwaitedKept(s, s');
    PgUpdateFits(s, s', p, e);
    OneEvent(e, e.id, s.store.rows[e.id].amount);
    hide Decided, Awaited, Verdict, FirstAnswer, ProcFits;
    UnwrittenDecided(s, s', [e], e.id, Answer(e, e.id, s.store.rows[e.id].amount));
  }

  lemma PgUpdateFits(s: System, s': System, p: ProcId, e: Event)
    requires p in s.procs && s.procs[p].PgWebhookRead? && s.procs[p].id in s.store.rows
    requires s'.store.rows == s.store.rows && s'.log == s.log + [e]
    requires var q := s.procs[p];
      && e == WebhookDelivered(q.ev, q.id, q.ev.eventId !in s.store.seen)
      && s'.procs == s.procs[p := PgUpdate(q.id, q.from, q.ev.status, ByWebhook(q.ev))]
    requires var q := s.procs[p]; q.ev.eventId !in s.store.seen && AmountAgrees(q.ev.amount, s.store.rows[q.id].amount)
    ensures ProcFits(s'.log, s'.store, s'.procs[p])
    ensures var q := s.procs[p]; Authoritative(q.ev.status) ==> Awaited(s'.procs, q.id, q.ev.status)
  {
    var q := s.procs[p];
    var amount := s.store.rows[q.id].amount;
    OneEvent(e, q.id, amount);
    VerdictAppend(s.log, [e], q.id, amount);
    assert s'.procs[p].PgUpdate? && s'.procs[p].cause.ByWebhook?;
  }

  lemma PgWriteDecided(c: Config, s: System, p: ProcId)
    requires Inv(s) && Decided(s) && p in s.procs && s.procs[p].PgUpdate? && Guarded(s, PgWrite(p))
    ensures Decided(PgWriteStep(s, p))
  {
    var s', q := PgWriteStep(s, p), s.procs[p];
    assert HoldsReference(s.store, q) && ProcFits(s.log, s.store, q);
    hide Inv, HoldsReference;
    var row := s.store.rows[q.id];
    OthersAwaited(s, s', p);
    var written := StatusWritten(q.id, row.status, q.to, q.cause);
    if q.cause.ByWebhook? {
      assert s'.log == s.log + [written];
      OneEvent(written, q.id, row.amount);
      hide Decided, Awaited, Verdict, FirstAnswer;
      WrittenDecided(s, s', [written], q.id, None, q.to);
    } else {
      var es := [InquiryApplied(q.id, q.to), written];
      assert s'.log == s.log + es;
      TwoEvents(q.id, q.to, written, row.amount);
      hide Decided, Awaited, Verdict, FirstAnswer;
      WrittenDecided(s, s', es, q.id, if Authoritative(q.to) then Some(q.to) else None, q.to);
    }
  }

  lemma TwoEvents(id: PaymentId, status: PaymentStatus, written: Event, amount: int)
    requires written.StatusWritten?
    ensures FirstAnswer([InquiryApplied(id, status), written], id, amount) == if Authoritative(status) then Some(status) else None
  {
    var es := [InquiryApplied(id, status), written];
    assert es[1..] == [written];
    OneEvent(written, id, amount);
  }

  lemma OthersAwaited(s: System, s': System, p: ProcId)
    requires p in s.procs && s.procs[p].PgUpdate? && s'.procs == s.procs - {p}
    ensures forall i, v :: (i != s.procs[p].id || v != s.procs[p].to) && Awaited(s.procs, i, v) ==> Awaited(s'.procs, i, v)
  {
    forall i, v | (i != s.procs[p].id || v != s.procs[p].to) && Awaited(s.procs, i, v) ensures Awaited(s'.procs, i, v) {
      var o :| o in s.procs && s.procs[o].PgUpdate? && s.procs[o].id == i && s.procs[o].to == v && s.procs[o].cause.ByWebhook?;
      assert o in s'.procs && s'.procs[o] == s.procs[o];
    }
  }

  // ---- Refunds ----

  lemma RefundActs(c: Config, s: System, p: ProcId)
    requires Enabled(c, s, RecordRefund(p))
    ensures var s', q := Step(c, s, RecordRefund(p)), s.procs[p];
      && s'.procs == s.procs - {p}
      && var row := s.store.rows[q.id];
         var to := RefundedStatus(q.previously + q.refund, row.amount);
         || (s'.log == s.log && s'.store.rows == s.store.rows)
         || (&& s'.log == s.log + [StatusWritten(q.id, row.status, to, ByRefund)]
             && s'.store.rows == s.store.rows[q.id := row.(status := to)])
  {}

  /** A refund only moves a captured payment between captured statuses. */
  lemma RefundDecided(c: Config, s: System, p: ProcId)
    requires Inv(s) && RefundsCaptured(s) && Decided(s) && Enabled(c, s, RecordRefund(p))
    ensures Decided(Step(c, s, RecordRefund(p)))
  {
    var s', q := Step(c, s, RecordRefund(p)), s.procs[p];
    assert HoldsReference(s.store, q) && Captured(s.store.rows[q.id].status);
    RefundActs(c, s, p);
    hide Inv, Step, RefundsCaptured;
    AwaitedKept(s, s');
    if s'.log == s.log {
      hide Decided, Awaited;
      Unreported(s, s', q.id);
    } else {
      RefundedDecided(s, s', q.id, RefundedStatus(q.previously + q.refund, s.store.rows[q.id].amount));
    }
  }

  lemma RefundedDecided(s: System, s': System, id: PaymentId, to: PaymentStatus)
    requires Decided(s) && id in s.store.rows && s.store.rows[id].reference.Some? && Captured(s.store.rows[id].status)
    requires Captured(to) && s'.store.rows == s.store.rows[id := s.store.rows[id].(status := to)]
    requires s'.log == s.log + [StatusWritten(id, s.store.rows[id].status, to, ByRefund)]
    requires forall i, v :: Awaited(s.procs, i, v) ==> Awaited(s'.procs, i, v)
    requires forall p :: p in s'.procs ==> p in s.procs && s'.procs[p] == s.procs[p]
    ensures Decided(s')
  {
    var row := s.store.rows[id];
    var written := StatusWritten(id, row.status, to, ByRefund);
    OneEvent(written, id, row.amount);
    VerdictAppend(s.log, [written], id, row.amount);
    VerdictIsAuthoritative(s.log, id, row.amount);
    assert Decides(Verdict(s.log, id, row.amount), row, id, s.procs);
    hide Decided, Verdict, FirstAnswer, Awaited;
    ActKeepsDecided(s, s', [written], id);
  }

  // ---- Runs ----

  lemma StepKeepsDecided(c: Config, s: System, l: Label)
    requires Inv(s) && RefundsCaptured(s) && Decided(s) && Enabled(c, s, l) && Guarded(s, l) && Lossless(s, l)
    requires c.backend == Sqlite ==> NoPgSteps(s)
    ensures Decided(Step(c, s, l))
  {
    hide Inv, Decided, RefundsCaptured, Lossless, FinishCreateStep, ApplyInquiryStep, PgInsertEventStep, PgWriteStep, DeliverStep, RecordRefundStep;
    match l
    case Begin(_, _, _, _) => BeginDecided(c, s, l);
    case FinishCreate(p) => FinishDecided(c, s, p);
    case ApplyInquiry(p) => if c.backend == Sqlite { InquiryDecided(c, s, p); } else { PgInquiryDecided(c, s, p); }
    case DeliverWebhook(_, _, _) => if c.backend == Sqlite { DeliverDecided(c, s, l); } else { PgReadDecided(c, s, l); }
    case PgInsertEvent(p) => PgInsertDecided(c, s, p);
    case PgWrite(p) => PgWriteDecided(c, s, p);
    case RecordRefund(p) => RefundDecided(c, s, p);
    case _ => QuietDecided(c, s, l);
  }

  /** Every blind write is guarded and no consumed event is lost. Every SQLite run is clean. */
  ghost predicate CleanRun(c: Config, s: System, ls: seq<Label>, s': System)
    decreases |ls|
  {
    if ls == [] then s == s'
    else
      && Enabled(c, s, ls[0]) && Guarded(s, ls[0]) && Lossless(s, ls[0])
      && CleanRun(c, Step(c, s, ls[0]), ls[1..], s')
  }

  lemma {:induction false} SqliteIsClean(c: Config, s: System, ls: seq<Label>, s': System)
    requires c.backend == Sqlite && NoPgSteps(s) && Runs(c, s, ls, s')
    ensures CleanRun(c, s, ls, s') && NoPgSteps(s')
    decreases |ls|
  {
    if ls != [] {
      SqliteKeepsNoPg(c, s, ls[0]);
      SqliteIsClean(c, Step(c, s, ls[0]), ls[1..], s');
    }
  }

  lemma {:induction false} CleanKeepsDecided(c: Config, s: System, ls: seq<Label>, s': System)
    requires Inv(s) && RefundsCaptured(s) && Decided(s) && CleanRun(c, s, ls, s')
    requires c.backend == Sqlite ==> NoPgSteps(s)
    ensures Inv(s') && Decided(s')
    decreases |ls|
  {
    if ls != [] {
      hide Inv, RefundsCaptured, Decided, Step, Guarded, Lossless;
      StepKeeps(c, s, ls[0]);
      StepKeepsCaptured(c, s, ls[0]);
      StepKeepsDecided(c, s, ls[0]);
      if c.backend == Sqlite { SqliteKeepsNoPg(c, s, ls[0]); }
      CleanKeepsDecided(c, Step(c, s, ls[0]), ls[1..], s');
    }
  }

  lemma CleanDecided(c: Config, ls: seq<Label>, s: System)
    requires CleanRun(c, START, ls, s)
    ensures Inv(s) && Decided(s)
  {
    CleanKeepsDecided(c, START, ls, s);
  }

  /** The first authoritative answer wins, for good. On either backend, after any clean run, a payment
      with a reference is `Pending` or `Unknown` until an answer arrives; from then on it is `Failed` or
      captured as that first answer said, whatever is delivered later, in whatever order and however
      often - except that on PostgreSQL the UPDATE of that answer's webhook may still be to come. */
  lemma FirstVerdictWins(c: Config, ls: seq<Label>, s: System, id: PaymentId)
    requires CleanRun(c, START, ls, s) && id in s.store.rows && s.store.rows[id].reference.Some?
    ensures var row := s.store.rows[id];
      match Verdict(s.log, id, row.amount)
      case None => Open(row.status)
      case Some(v) => Authoritative(v) && (Settled(row.status, v) || (c.backend == Postgres && Awaited(s.procs, id, v)))
  {
    CleanDecided(c, ls, s);
    assert Decides(Verdict(s.log, id, s.store.rows[id].amount), s.store.rows[id], id, s.procs);
    VerdictIsAuthoritative(s.log, id, s.store.rows[id].amount);
    if c.backend == Sqlite { CleanSqlite(c, START, ls, s); }
  }

  lemma {:induction false} CleanSqlite(c: Config, s: System, ls: seq<Label>, s': System)
    requires c.backend == Sqlite && NoPgSteps(s) && CleanRun(c, s, ls, s')
    ensures NoPgSteps(s')
    decreases |ls|
  {
    if ls != [] {
      SqliteKeepsNoPg(c, s, ls[0]);
      CleanSqlite(c, Step(c, s, ls[0]), ls[1..], s');
    }
  }

  /** The verdict is some logged answer, and there is one as soon as there is any answer. */
  lemma {:induction false} VerdictFound(log: seq<Event>, id: PaymentId, amount: int)
    ensures Verdict(log, id, amount).Some? ==>
              exists i :: 0 <= i < |log| && Answer(log[i], id, amount) == Verdict(log, id, amount)
    ensures forall i :: 0 <= i < |log| && Answer(log[i], id, amount).Some? ==> Verdict(log, id, amount).Some?
  {
    if log != [] {
      VerdictFound(log[..|log| - 1], id, amount);
    }
  }

  lemma {:induction false} HistoryReportable(log: seq<Event>, id: PaymentId)
    requires forall i :: 0 <= i < |log| && log[i].StatusWritten? && log[i].id == id ==> Reportable(log[i].to)
    ensures forall x :: x in History(log, id) ==> Reportable(x)
  {
    if log != [] {
      HistoryReportable(log[..|log| - 1], id);
    }
  }

  /** Confluence: when every authoritative answer the store acted on for a payment is the same `t`, no
      refund status was ever written and no consumed webhook still waits for its UPDATE, the payment is
      `t` exactly when there was such an answer - whatever the order, repetition and mix of webhooks,
      queue, GET and reconciler, and with any number of `Pending` and `Unknown` reports in between. */
  lemma Confluence(c: Config, ls: seq<Label>, s: System, id: PaymentId, t: PaymentStatus)
    requires CleanRun(c, START, ls, s) && id in s.store.rows && s.store.rows[id].reference.Some?
    requires Authoritative(t) && (c.backend == Postgres ==> !Awaited(s.procs, id, t))
    requires forall i :: 0 <= i < |s.log| && Answer(s.log[i], id, s.store.rows[id].amount).Some? ==>
               Answer(s.log[i], id, s.store.rows[id].amount).value == t
    requires forall i :: 0 <= i < |s.log| && s.log[i].StatusWritten? && s.log[i].id == id ==> Reportable(s.log[i].to)
    ensures (s.store.rows[id].status == t) <==>
            (exists i :: 0 <= i < |s.log| && Answer(s.log[i], id, s.store.rows[id].amount) == Some(t))
  {
    hide Answer, Awaited;
    var row := s.store.rows[id];
    FirstVerdictWins(c, ls, s, id);
    VerdictFound(s.log, id, row.amount);
    HistoryReportable(s.log, id);
    CleanRuns(c, START, ls, s);
    StatusShown(c, s, id);
    hide CleanRun, Reachable, Runs;
    var h := History(s.log, id);
    assert row.status in h;
    if Verdict(s.log, id, row.amount).Some? {
      var i :| 0 <= i < |s.log| && Answer(s.log[i], id, row.amount) == Verdict(s.log, id, row.amount);
      assert row.status == t;
    }
  }

  lemma {:induction false} CleanRuns(c: Config, s: System, ls: seq<Label>, s': System)
    requires CleanRun(c, s, ls, s')
    ensures Runs(c, s, ls, s')
    decreases |ls|
  {
    if ls != [] { CleanRuns(c, Step(c, s, ls[0]), ls[1..], s'); }
  }
}
