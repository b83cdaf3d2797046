/** Status histories: what the log of any run tells about each payment, and when it is a path through
    the status machine. */
module GatewayHistory {
  import opened Wrappers
  import opened PaymentStates
  import opened Stores
  import opened Gateway
  import opened GatewaySafety

  /** The statuses a payment has shown, oldest first, as the log tells them. */
  function History(log: seq<Event>, id: PaymentId): seq<PaymentStatus> {
    if log == [] then []
    else History(log[..|log| - 1], id) + Shown(log[|log| - 1], id)
  }

  function Shown(e: Event, id: PaymentId): seq<PaymentStatus> {
    match e
    case RowCreated(i) => if i == id then [Pending] else []
    case StatusWritten(i, _, to, _) => if i == id then [to] else []
    case _ => []
  }

  function ShownAll(es: seq<Event>, id: PaymentId): seq<PaymentStatus> {
    if es == [] then [] else Shown(es[0], id) + ShownAll(es[1..], id)
  }

  lemma HistorySnoc(log: seq<Event>, e: Event, id: PaymentId)
    ensures History(log + [e], id) == History(log, id) + Shown(e, id)
  {
    assert (log + [e])[..|log|] == log;
  }

  lemma {:induction false} HistoryAppend(log: seq<Event>, es: seq<Event>, id: PaymentId)
    ensures History(log + es, id) == History(log, id) + ShownAll(es, id)
    decreases |es|
  {
    hide Shown, History;
    if es == [] {
      assert log + es == log;
    } else {
      HistorySnoc(log, es[0], id);
      HistoryAppend(log + [es[0]], es[1..], id);
      assert log + es == (log + [es[0]]) + es[1..];
    }
  }

  // ---- What one step writes ----

  predicate Plain(e: Event) {
    !e.StatusWritten? && !e.RowCreated?
  }

  predicate SameStatuses(a: Store, b: Store) {
    a.rows.Keys == b.rows.Keys && forall id :: id in a.rows ==> b.rows[id].status == a.rows[id].status
  }

  /** `es` is what a step logged: at most one status event, the last, which tells all that the step
      did to statuses. */
  ghost predicate Emits(s: System, s': System, es: seq<Event>) {
    && s'.log == s.log + es
    && (|es| <= 1 || (|es| == 2 && Plain(es[0])))
    && (if es == [] || Plain(es[|es| - 1]) then SameStatuses(s.store, s'.store)
        else match es[|es| - 1]
          case RowCreated(id) =>
            && id !in s.store.rows && id in s'.store.rows && s'.store.rows[id].status == Pending
            && SameStatuses(s.store, s'.store.(rows := s'.store.rows - {id}))
          case StatusWritten(id, from, to, _) =>
            && id in s.store.rows && from == s.store.rows[id].status
            && s'.store.rows.Keys == s.store.rows.Keys && s'.store.rows[id].status == to
            && forall i :: i in s.store.rows && i != id ==> s'.store.rows[i].status == s.store.rows[i].status
          case _ => true)
  }

  function Logged(s: System, s': System): seq<Event>
    requires |s.log| <= |s'.log|
  {
    s'.log[|s.log|..]
  }

  predicate IsReport(l: Label) {
    l.ApplyInquiry? || l.DeliverWebhook? || l.PgInsertEvent? || l.PgWrite?
  }

  lemma FinishEmits(c: Config, s: System, p: ProcId)
    requires Inv(s) && Enabled(c, s, FinishCreate(p))
    ensures var s' := Step(c, s, FinishCreate(p)); |s.log| <= |s'.log| && Emits(s, s', Logged(s, s'))
  {
    CreationNeverClobbers(c, s, p);
    hide Inv, Step;
  }

  lemma InquiryEmits(c: Config, s: System, l: Label)
    requires Inv(s) && Enabled(c, s, l) && l.ApplyInquiry?
    ensures var s' := Step(c, s, l); |s.log| <= |s'.log| && Emits(s, s', Logged(s, s'))
  {
    assert HoldsReference(s.store, s.procs[l.p]);
    InquiryStep(c, s, l.p);
    hide Inv, HoldsReference, Step, Enabled;
  }

  lemma DeliverEmits(c: Config, s: System, l: Label)
    requires Inv(s) && Enabled(c, s, l) && l.DeliverWebhook?
    ensures var s' := Step(c, s, l); |s.log| <= |s'.log| && Emits(s, s', Logged(s, s'))
  {
    hide Inv;
  }

  lemma PgInsertEmits(c: Config, s: System, l: Label)
    requires Inv(s) && Enabled(c, s, l) && l.PgInsertEvent?
    ensures var s' := Step(c, s, l); |s.log| <= |s'.log| && Emits(s, s', Logged(s, s'))
  {
    assert HoldsReference(s.store, s.procs[l.p]);
    hide Inv;
  }

  lemma PgWriteEmits(c: Config, s: System, l: Label)
    requires Inv(s) && Enabled(c, s, l) && l.PgWrite?
    ensures var s' := Step(c, s, l); |s.log| <= |s'.log| && Emits(s, s', Logged(s, s'))
  {
    assert HoldsReference(s.store, s.procs[l.p]);
    hide Inv;
  }

  lemma OtherEmits(c: Config, s: System, l: Label)
    requires Enabled(c, s, l) && !IsReport(l) && !l.FinishCreate?
    ensures var s' := Step(c, s, l); |s.log| <= |s'.log| && Emits(s, s', Logged(s, s'))
  {}

  lemma StepEmits(c: Config, s: System, l: Label)
    requires Inv(s) && Enabled(c, s, l)
    ensures var s' := Step(c, s, l); |s.log| <= |s'.log| && Emits(s, s', Logged(s, s'))
  {
    hide Inv, Step, Enabled, Emits;
    match l
    case FinishCreate(p) => FinishEmits(c, s, p);
    case ApplyInquiry(_) => InquiryEmits(c, s, l);
    case DeliverWebhook(_, _, _) => DeliverEmits(c, s, l);
    case PgInsertEvent(_) => PgInsertEmits(c, s, l);
    case PgWrite(_) => PgWriteEmits(c, s, l);
    case _ => OtherEmits(c, s, l);
  }

  lemma ShownShort(es: seq<Event>, id: PaymentId)
    requires |es| <= 1 || (|es| == 2 && Plain(es[0]))
    ensures ShownAll(es, id) == if es == [] then [] else Shown(es[|es| - 1], id)
  {
    if |es| == 1 {
      assert es[1..] == [];
    } else if |es| == 2 {
      assert es[1..] == [es[1]] && [es[1]][1..] == [];
    }
  }

  // ---- The log tells every status ----

  ghost predicate Narrates(log: seq<Event>, id: PaymentId, row: PaymentRow) {
    var h := History(log, id);
    h != [] && h[0] == Pending && h[|h| - 1] == row.status
  }

  ghost predicate Narrated(s: System) {
    && (forall id :: id in s.store.rows ==> Narrates(s.log, id, s.store.rows[id]))
    && (forall id :: id !in s.store.rows ==> History(s.log, id) == [])
  }

  lemma StepKeepsNarrated(c: Config, s: System, l: Label)
    requires Inv(s) && Narrated(s) && Enabled(c, s, l)
    ensures Narrated(Step(c, s, l))
  {
    hide Inv, Step, Enabled;
    StepEmits(c, s, l);
    var s' := Step(c, s, l);
    forall id ensures if id in s'.store.rows then Narrates(s'.log, id, s'.store.rows[id]) else History(s'.log, id) == [] {
      EmitsNarrates(s, s', id);
    }
  }

  /** What a step shows of one payment. */
  lemma EmitsShown(s: System, s': System, id: PaymentId)
    requires |s.log| <= |s'.log| && Emits(s, s', Logged(s, s'))
    ensures var shown := ShownAll(Logged(s, s'), id);
      if id in s'.store.rows then
        if id in s.store.rows then
          (shown == [] && s'.store.rows[id].status == s.store.rows[id].status) || shown == [s'.store.rows[id].status]
        else shown == [Pending] && s'.store.rows[id].status == Pending
      else id !in s.store.rows && shown == []
  {
    var es := Logged(s, s');
    ShownShort(es, id);
    if es != [] && es[|es| - 1].RowCreated? {
      var created := es[|es| - 1].id;
      assert id != created ==> (id in s'.store.rows - {created} <==> id in s.store.rows);
    }
  }

  lemma EmitsNarrates(s: System, s': System, id: PaymentId)
    requires Narrated(s) && |s.log| <= |s'.log| && Emits(s, s', Logged(s, s'))
    ensures if id in s'.store.rows then Narrates(s'.log, id, s'.store.rows[id]) else History(s'.log, id) == []
  {
    EmitsShown(s, s', id);
    HistoryAppend(s.log, Logged(s, s'), id);
    assert s'.log == s.log + Logged(s, s');
    hide Emits, ShownAll, Shown, History, Narrates, Logged;
    if id in s.store.rows {
      NarratesOn(s.log, s'.log, id, s.store.rows[id], s'.store.rows[id], ShownAll(Logged(s, s'), id));
    } else if id in s'.store.rows {
      NarratesFirst(s'.log, id, s'.store.rows[id]);
    }
  }

  lemma NarratesOn(log: seq<Event>, log': seq<Event>, id: PaymentId, row: PaymentRow, row': PaymentRow, shown: seq<PaymentStatus>)
    requires Narrates(log, id, row) && History(log', id) == History(log, id) + shown
    requires (shown == [] && row'.status == row.status) || shown == [row'.status]
    ensures Narrates(log', id, row')
  {
    hide History;
  }

  lemma NarratesFirst(log: seq<Event>, id: PaymentId, row: PaymentRow)
    requires History(log, id) == [Pending] && row.status == Pending
    ensures Narrates(log, id, row)
  {
    hide History;
  }

  lemma {:induction false} RunKeepsNarrated(c: Config, s: System, ls: seq<Label>, s': System)
    requires Inv(s) && Narrated(s) && Runs(c, s, ls, s')
    ensures Narrated(s')
    decreases |ls|
  {
    if ls != [] {
      StepKeeps(c, s, ls[0]);
      StepKeepsNarrated(c, s, ls[0]);
      RunKeepsNarrated(c, Step(c, s, ls[0]), ls[1..], s');
    }
  }

  /** On either backend, after any run, the log tells every payment's status. */
  lemma StatusShown(c: Config, s: System, id: PaymentId)
    requires Reachable(c, s) && id in s.store.rows
    ensures var h := History(s.log, id); h != [] && h[0] == Pending && h[|h| - 1] == s.store.rows[id].status
  {
    var ls :| Runs(c, START, ls, s);
    RunKeepsNarrated(c, START, ls, s);
    assert Narrates(s.log, id, s.store.rows[id]);
  }

  // ---- Guarded writes ----

  /** PostgreSQL's blind UPDATE finds a status from which its write is legal, as it does whenever
      nothing was written since the row was read. Every step of a SQLite run is guarded. */
  predicate Guarded(s: System, l: Label) {
    (l.PgWrite? && l.p in s.procs && s.procs[l.p].PgUpdate? && s.procs[l.p].id in s.store.rows) ==>
      Legal(s.store.rows[s.procs[l.p].id].status, s.procs[l.p].to)
  }

  ghost predicate GuardedRun(c: Config, s: System, ls: seq<Label>, s': System)
    decreases |ls|
  {
    if ls == [] then s == s'
    else Enabled(c, s, ls[0]) && Guarded(s, ls[0]) && GuardedRun(c, Step(c, s, ls[0]), ls[1..], s')
  }

  ghost predicate NoPgSteps(s: System) {
    forall p :: p in s.procs ==> !s.procs[p].PgWebhookRead? && !s.procs[p].PgUpdate?
  }

  lemma SqliteKeepsNoPg(c: Config, s: System, l: Label)
    requires c.backend == Sqlite && Enabled(c, s, l) && NoPgSteps(s)
    ensures NoPgSteps(Step(c, s, l)) && Guarded(s, l)
  {}

  lemma {:induction false} SqliteIsGuarded(c: Config, s: System, ls: seq<Label>, s': System)
    requires c.backend == Sqlite && NoPgSteps(s) && Runs(c, s, ls, s')
    ensures GuardedRun(c, s, ls, s') && NoPgSteps(s')
    decreases |ls|
  {
    if ls != [] {
      SqliteKeepsNoPg(c, s, ls[0]);
      SqliteIsGuarded(c, Step(c, s, ls[0]), ls[1..], s');
    }
  }

  /** If nothing was written to the row since it was read, the blind write is legal. */
  lemma UndisturbedIsGuarded(c: Config, s: System, p: ProcId)
    requires Reachable(c, s) && Enabled(c, s, PgWrite(p))
    ensures s.procs[p].id in s.store.rows
    ensures s.store.rows[s.procs[p].id].status == s.procs[p].from ==> Guarded(s, PgWrite(p))
  {
    ReachableKeeps(c, s);
    assert HoldsReference(s.store, s.procs[p]);
  }

  /** A refund in flight rests on a captured payment. */
  ghost predicate RefundsCaptured(s: System) {
    forall p :: p in s.procs && s.procs[p].Refunding() ==>
      s.procs[p].id in s.store.rows && Captured(s.store.rows[s.procs[p].id].status)
  }

  lemma CapturedStays(s: System, s': System)
    requires RefundsCaptured(s)
    requires forall p :: p in s'.procs && s'.procs[p].Refunding() ==>
      || (p in s.procs && s.procs[p].Refunding() && s.procs[p].id == s'.procs[p].id)
      || (s'.procs[p].id in s'.store.rows && Captured(s'.store.rows[s'.procs[p].id].status))
    requires forall id :: id in s.store.rows && Captured(s.store.rows[id].status) ==>
      id in s'.store.rows && Captured(s'.store.rows[id].status)
    ensures RefundsCaptured(s')
  {}

  lemma FinishKeepsCaptured(c: Config, s: System, p: ProcId)
    requires Inv(s) && RefundsCaptured(s) && Enabled(c, s, FinishCreate(p))
    ensures RefundsCaptured(Step(c, s, FinishCreate(p)))
  {
    CreationNeverClobbers(c, s, p);
    hide Inv, Step;
    CapturedStays(s, Step(c, s, FinishCreate(p)));
  }

  lemma ReportKeepsCaptured(c: Config, s: System, l: Label)
    requires RefundsCaptured(s) && Enabled(c, s, l) && (l.ApplyInquiry? || l.DeliverWebhook?)
    ensures RefundsCaptured(Step(c, s, l))
  {
    CapturedStays(s, Step(c, s, l));
  }

  lemma PgKeepsCaptured(c: Config, s: System, l: Label)
    requires RefundsCaptured(s) && Enabled(c, s, l) && Guarded(s, l) && (l.PgInsertEvent? || l.PgWrite?)
    ensures RefundsCaptured(Step(c, s, l))
  {
    CapturedStays(s, Step(c, s, l));
  }

  lemma OtherKeepsCaptured(c: Config, s: System, l: Label)
    requires RefundsCaptured(s) && Enabled(c, s, l) && !IsReport(l) && !l.FinishCreate?
    ensures RefundsCaptured(Step(c, s, l))
  {
    CapturedStays(s, Step(c, s, l));
  }

  lemma StepKeepsCaptured(c: Config, s: System, l: Label)
    requires Inv(s) && RefundsCaptured(s) && Enabled(c, s, l) && Guarded(s, l)
    ensures RefundsCaptured(Step(c, s, l))
  {
    hide Inv, Step, Enabled, RefundsCaptured;
    if l.FinishCreate? {
      FinishKeepsCaptured(c, s, l.p);
    } else if l.ApplyInquiry? || l.DeliverWebhook? {
      ReportKeepsCaptured(c, s, l);
    } else if IsReport(l) {
      PgKeepsCaptured(c, s, l);
    } else {
      OtherKeepsCaptured(c, s, l);
    }
  }

  lemma {:induction false} RunKeepsCaptured(c: Config, s: System, ls: seq<Label>, s': System)
    requires Inv(s) && RefundsCaptured(s) && GuardedRun(c, s, ls, s')
    ensures Inv(s') && RefundsCaptured(s')
    decreases |ls|
  {
    if ls != [] {
      StepKeeps(c, s, ls[0]);
      StepKeepsCaptured(c, s, ls[0]);
      RunKeepsCaptured(c, Step(c, s, ls[0]), ls[1..], s');
    }
  }

  /** A step that wrote a status. */
  ghost predicate Writes(s: System, s': System) {
    |s'.log| > |s.log| && s'.log[|s'.log| - 1].StatusWritten?
  }

  function LastWrite(s': System): Event
    requires s'.log != []
  {
    s'.log[|s'.log| - 1]
  }

  ghost predicate WritesLegally(s: System, s': System) {
    Writes(s, s') ==> Legal(LastWrite(s').from, LastWrite(s').to)
  }

  lemma FinishWritesLegally(c: Config, s: System, p: ProcId)
    requires Inv(s) && Enabled(c, s, FinishCreate(p))
    ensures WritesLegally(s, Step(c, s, FinishCreate(p)))
  {
    CreationNeverClobbers(c, s, p);
    hide Inv, Step;
  }

  lemma ReportWritesLegally(c: Config, s: System, l: Label)
    requires Enabled(c, s, l) && IsReport(l)
    ensures Guarded(s, l) ==> WritesLegally(s, Step(c, s, l))
  {}

  lemma RefundWrite(c: Config, s: System, p: ProcId)
    requires Enabled(c, s, RecordRefund(p))
    ensures var s' := Step(c, s, RecordRefund(p)); var q := s.procs[p];
      Writes(s, s') ==>
        LastWrite(s') == StatusWritten(q.id, s.store.rows[q.id].status,
                                       RefundedStatus(q.previously + q.refund, s.store.rows[q.id].amount), ByRefund)
  {}

  lemma OtherWritesNothing(c: Config, s: System, l: Label)
    requires Enabled(c, s, l) && !IsReport(l) && !l.FinishCreate? && !l.RecordRefund?
    ensures !Writes(s, Step(c, s, l))
  {}

  /** A guarded step writes legally, but for a partial refund recorded over `Refunded`. */
  lemma StepWrites(c: Config, s: System, l: Label)
    requires Inv(s) && RefundsCaptured(s) && Enabled(c, s, l) && Guarded(s, l) && Writes(s, Step(c, s, l))
    ensures var e := LastWrite(Step(c, s, l));
      Legal(e.from, e.to) || (l.RecordRefund? && e.id == s.procs[l.p].id && e.from == Refunded && e.to == PartiallyRefunded)
  {
    hide Inv, Step, Writes;
    if l.FinishCreate? {
      FinishWritesLegally(c, s, l.p);
    } else if IsReport(l) {
      ReportWritesLegally(c, s, l);
    } else if l.RecordRefund? {
      RefundWrite(c, s, l.p);
      assert s.procs[l.p].Refunding();
    } else {
      OtherWritesNothing(c, s, l);
    }
  }

  /** With no discipline at all on SQLite, and with guarded writes on PostgreSQL, the one write that can
      break the status machine is a refund recorded as partial over a payment that a concurrent refund
      has already made `Refunded`. */
  lemma WriteLegality(c: Config, ls: seq<Label>, s: System, l: Label, k: nat)
    requires GuardedRun(c, START, ls, s) && Enabled(c, s, l) && Guarded(s, l)
    requires |s.log| <= k < |Step(c, s, l).log| && Step(c, s, l).log[k].StatusWritten?
    ensures var e := Step(c, s, l).log[k];
      && e.id in s.store.rows && e.from == s.store.rows[e.id].status
      && (!Legal(e.from, e.to) ==> l.RecordRefund? && e.from == Refunded && e.to == PartiallyRefunded)
  {
    hide Inv, Step, Enabled, RefundsCaptured, GuardedRun;
    GuardedCaptured(c, ls, s);
    StepEmits(c, s, l);
    LastIsWrite(s, Step(c, s, l), k);
    StepWrites(c, s, l);
  }

  lemma GuardedCaptured(c: Config, ls: seq<Label>, s: System)
    requires GuardedRun(c, START, ls, s)
    ensures Inv(s) && RefundsCaptured(s)
  {
    RunKeepsCaptured(c, START, ls, s);
  }

  lemma LastIsWrite(s: System, s': System, k: nat)
    requires |s.log| <= |s'.log| && Emits(s, s', Logged(s, s'))
    requires |s.log| <= k < |s'.log| && s'.log[k].StatusWritten?
    ensures k == |s'.log| - 1 && Writes(s, s')
    ensures s'.log[k].id in s.store.rows && s'.log[k].from == s.store.rows[s'.log[k].id].status
  {
    var es := Logged(s, s');
    assert s'.log[k] == es[k - |s.log|] && es[|es| - 1] == LastWrite(s');
  }

  // ---- Reports ----

  /** Providers report no refund statuses; none of the adapters does. */
  predicate ReportsOnly(l: Label) {
    match l
    case InquiryReplies(_, status) => Reportable(status)
    case VerifyWebhook(ev) => Reportable(ev.status)
    case _ => true
  }

  predicate ReportFits(q: Proc) {
    match q
    case InquiryAnswered(_, _, _, status) => Reportable(status)
    case PgWebhookRead(_, ev, _) => Reportable(ev.status)
    case PgUpdate(_, _, to, _) => Reportable(to)
    case _ => true
  }

  ghost predicate Reporting(s: System) {
    && (forall p :: p in s.procs ==> ReportFits(s.procs[p]))
    && (forall ev :: ev in s.webhooks ==> Reportable(ev.status))
  }

  lemma StepKeepsReporting(c: Config, s: System, l: Label)
    requires Reporting(s) && Enabled(c, s, l) && ReportsOnly(l)
    ensures Reporting(Step(c, s, l))
  {}

  predicate Refundable(status: PaymentStatus) {
    status == Succeeded || status == PartiallyRefunded
  }

  /** What steps other than refunds do to statuses: new payments and payments not refunded yet get
      statuses that are reported; refunded ones keep theirs. */
  ghost predicate StatusesReported(a: Store, b: Store) {
    && (forall id :: id in a.rows ==> id in b.rows && b.rows[id].amount == a.rows[id].amount)
    && (forall id :: id in b.rows ==>
          if id in a.rows && (Captured(a.rows[id].status) || b.rows[id].status == a.rows[id].status)
          then b.rows[id].status == a.rows[id].status
          else Reportable(b.rows[id].status))
  }

  lemma ReportReported(c: Config, s: System, l: Label)
    requires Reporting(s) && Enabled(c, s, l) && (l.ApplyInquiry? || l.DeliverWebhook?)
    ensures StatusesReported(s.store, Step(c, s, l).store)
  {
    if l.ApplyInquiry? { assert ReportFits(s.procs[l.p]); }
  }

  lemma PgReported(c: Config, s: System, l: Label)
    requires Reporting(s) && Enabled(c, s, l) && Guarded(s, l) && (l.PgInsertEvent? || l.PgWrite?)
    ensures StatusesReported(s.store, Step(c, s, l).store)
  {
    assert ReportFits(s.procs[l.p]);
  }

  lemma FinishReported(c: Config, s: System, p: ProcId)
    requires Inv(s) && Enabled(c, s, FinishCreate(p))
    ensures StatusesReported(s.store, Step(c, s, FinishCreate(p)).store)
  {
    hide Inv, Step;
    FinishRows(c, s, p);
  }

  lemma OtherReported(c: Config, s: System, l: Label)
    requires Enabled(c, s, l) && !IsReport(l) && !l.FinishCreate? && !l.RecordRefund?
    ensures StatusesReported(s.store, Step(c, s, l).store)
  {
    if !l.Begin? {
      assert Step(c, s, l).store == s.store;
      hide Step, Enabled;
    }
  }

  lemma StepReported(c: Config, s: System, l: Label)
    requires Inv(s) && Reporting(s) && Enabled(c, s, l) && Guarded(s, l) && !l.RecordRefund?
    ensures StatusesReported(s.store, Step(c, s, l).store)
  {
    hide Inv, Reporting, Step, Enabled, Guarded, StatusesReported;
    if l.FinishCreate? {
      FinishReported(c, s, l.p);
    } else if l.ApplyInquiry? || l.DeliverWebhook? {
      ReportReported(c, s, l);
    } else if IsReport(l) {
      PgReported(c, s, l);
    } else {
      OtherReported(c, s, l);
    }
  }

  // ---- Refunds one at a time ----

  ghost predicate Disciplined(s: System, l: Label) {
    && ReportsOnly(l)
    && (l.ReadForRefund? ==> forall q :: q in s.procs && s.procs[q].Refunding() ==> s.procs[q].id != l.id)
  }

  ghost predicate DisciplinedRun(c: Config, s: System, ls: seq<Label>, s': System)
    decreases |ls|
  {
    if ls == [] then s == s'
    else
      && Enabled(c, s, ls[0]) && Disciplined(s, ls[0])
      && DisciplinedRun(c, Step(c, s, ls[0]), ls[1..], s')
  }

  /** At most one refund of each payment is in flight, and the payment can be refunded. */
  ghost predicate OneRefund(s: System) {
    && (forall p, q ::
          (p in s.procs && q in s.procs && s.procs[p].Refunding() && s.procs[q].Refunding() && s.procs[p].id == s.procs[q].id)
          ==> p == q)
    && (forall p :: p in s.procs && s.procs[p].Refunding() ==>
          s.procs[p].id in s.store.rows && Refundable(s.store.rows[s.procs[p].id].status))
  }

  ghost predicate NoRefundStarts(s: System, s': System) {
    forall p :: p in s'.procs && s'.procs[p].Refunding() ==>
      p in s.procs && s.procs[p].Refunding() && s.procs[p].id == s'.procs[p].id
  }

  lemma NothingStarts(c: Config, s: System, l: Label)
    requires Enabled(c, s, l) && !l.ReadForRefund?
    ensures NoRefundStarts(s, Step(c, s, l))
  {
    hide TotalRefunded, Legal;
  }

  lemma RefundsUndisturbed(s: System, s': System)
    requires OneRefund(s) && NoRefundStarts(s, s') && StatusesReported(s.store, s'.store)
    ensures OneRefund(s')
  {}

  lemma ReadKeepsOneRefund(c: Config, s: System, l: Label)
    requires OneRefund(s) && Enabled(c, s, l) && Disciplined(s, l) && l.ReadForRefund?
    ensures OneRefund(Step(c, s, l))
  {}

  lemma RecordKeepsOneRefund(c: Config, s: System, p: ProcId)
    requires OneRefund(s) && Enabled(c, s, RecordRefund(p))
    ensures OneRefund(Step(c, s, RecordRefund(p)))
  {
    var s' := Step(c, s, RecordRefund(p));
    assert forall q :: q in s'.procs && s'.procs[q].Refunding() ==> s'.procs[q].id != s.procs[p].id;
  }

  lemma StepKeepsOneRefund(c: Config, s: System, l: Label)
    requires Inv(s) && Reporting(s) && OneRefund(s) && Enabled(c, s, l) && Disciplined(s, l) && Guarded(s, l)
    ensures OneRefund(Step(c, s, l))
  {
    hide Inv, Reporting, Step, OneRefund, Enabled, Disciplined, Guarded, StatusesReported, NoRefundStarts;
    if l.ReadForRefund? {
      ReadKeepsOneRefund(c, s, l);
    } else if l.RecordRefund? {
      RecordKeepsOneRefund(c, s, l.p);
    } else {
      NothingStarts(c, s, l);
      StepReported(c, s, l);
      RefundsUndisturbed(s, Step(c, s, l));
    }
  }

  // ---- Legal histories ----

  ghost predicate AllLegal(s: System) {
    forall id :: LegalPath(History(s.log, id))
  }

  lemma AppendLegal(h: seq<PaymentStatus>, to: PaymentStatus)
    ensures LegalPath(h + [to]) <==> LegalPath(h) && (h != [] ==> Legal(h[|h| - 1], to))
  {
    var h' := h + [to];
    if LegalPath(h') {
      assert h != [] ==> Legal(h'[|h| - 1], h'[|h|]);
      forall i | 0 <= i < |h| - 1 ensures Legal(h[i], h[i + 1]) { assert Legal(h'[i], h'[i + 1]); }
    }
    if LegalPath(h) && (h != [] ==> Legal(h[|h| - 1], to)) {
      forall i | 0 <= i < |h'| - 1 ensures Legal(h'[i], h'[i + 1]) {
        if i < |h| - 1 { assert Legal(h[i], h[i + 1]); }
      }
    }
  }

  /** What a step shows of a payment: nothing, its creation, or the status it wrote. */
  lemma StepShows(s: System, s': System, id: PaymentId)
    requires |s.log| <= |s'.log| && Emits(s, s', Logged(s, s'))
    ensures var shown := ShownAll(Logged(s, s'), id);
      if Writes(s, s') && LastWrite(s').id == id
      then id in s.store.rows && LastWrite(s').from == s.store.rows[id].status && shown == [LastWrite(s').to]
      else shown == [] || (shown == [Pending] && id !in s.store.rows)
  {
    var es := Logged(s, s');
    ShownShort(es, id);
    assert es != [] ==> es[|es| - 1] == LastWrite(s');
    hide ShownAll;
  }

  /** The payment's last shown status is the one it has. */
  lemma LastShown(s: System, id: PaymentId)
    requires Narrated(s)
    ensures if id in s.store.rows
            then History(s.log, id) != [] && History(s.log, id)[|History(s.log, id)| - 1] == s.store.rows[id].status
            else History(s.log, id) == []
  {
    hide History;
    assert id in s.store.rows ==> Narrates(s.log, id, s.store.rows[id]);
  }

  /** One step adds at most one status to a history: the one it wrote, to the one the payment had. */
  lemma HistoryStep(s: System, s': System, id: PaymentId)
    requires Narrated(s) && |s.log| <= |s'.log| && Emits(s, s', Logged(s, s'))
    ensures var h, h' := History(s.log, id), History(s'.log, id);
      if Writes(s, s') && LastWrite(s').id == id
      then h != [] && h[|h| - 1] == LastWrite(s').from && h' == h + [LastWrite(s').to]
      else h' == h || (h == [] && h' == [Pending])
  {
    assert s'.log == s.log + Logged(s, s');
    hide Emits, Narrated, History, ShownAll, Writes, Logged;
    StepShows(s, s', id);
    LastShown(s, id);
    HistoryAppend(s.log, Logged(s, s'), id);
  }

  /** A step keeps histories legal if and only if what it writes is legal. */
  lemma LegalStep(s: System, s': System)
    requires Narrated(s) && AllLegal(s) && |s.log| <= |s'.log| && Emits(s, s', Logged(s, s'))
    ensures AllLegal(s') <==> WritesLegally(s, s')
  {
    hide Narrated, Emits;
    forall id ensures WritesLegally(s, s') ==> LegalPath(History(s'.log, id)) {
      HistoryStep(s, s', id);
      assert LegalPath(History(s.log, id));
      if Writes(s, s') { AppendLegal(History(s.log, id), LastWrite(s').to); }
    }
    if !WritesLegally(s, s') {
      HistoryStep(s, s', LastWrite(s').id);
      AppendLegal(History(s.log, LastWrite(s').id), LastWrite(s').to);
    }
  }

  /** A broken history stays broken. */
  lemma {:induction false} BrokenStays(c: Config, s: System, ls: seq<Label>, s': System)
    requires Inv(s) && Narrated(s) && DisciplinedRun(c, s, ls, s') && !AllLegal(s)
    ensures !AllLegal(s')
    decreases |ls|
  {
    if ls != [] {
      var next := Step(c, s, ls[0]);
      StepKeeps(c, s, ls[0]);
      StepKeepsNarrated(c, s, ls[0]);
      StepEmits(c, s, ls[0]);
      var id :| !LegalPath(History(s.log, id));
      HistoryStep(s, next, id);
      if Writes(s, next) { AppendLegal(History(s.log, id), LastWrite(next).to); }
      BrokenStays(c, next, ls[1..], s');
    }
  }

  /** Along a disciplined run every write is legal as long as every blind write is guarded. */
  lemma DisciplinedStep(c: Config, s: System, l: Label)
    requires Inv(s) && Narrated(s) && RefundsCaptured(s) && OneRefund(s) && AllLegal(s) && Enabled(c, s, l)
    ensures AllLegal(Step(c, s, l)) <==> Guarded(s, l)
  {
    hide Inv, Narrated, RefundsCaptured, AllLegal, Step, Enabled;
    var s' := Step(c, s, l);
    StepEmits(c, s, l);
    LegalStep(s, s');
    if !Guarded(s, l) {
      BlindWrites(c, s, l);
    } else if Writes(s, s') {
      StepWrites(c, s, l);
      if l.RecordRefund? { RecordsOverRefundable(c, s, l.p); }
    }
  }

  lemma BlindWrites(c: Config, s: System, l: Label)
    requires Enabled(c, s, l) && !Guarded(s, l)
    ensures !WritesLegally(s, Step(c, s, l))
  {}

  lemma RecordsOverRefundable(c: Config, s: System, p: ProcId)
    requires OneRefund(s) && Enabled(c, s, RecordRefund(p)) && Writes(s, Step(c, s, RecordRefund(p)))
    ensures LastWrite(Step(c, s, RecordRefund(p))).from != Refunded
  {
    RefundWrite(c, s, p);
    hide Step, Writes;
    assert s.procs[p].Refunding();
  }

  lemma {:induction false} DisciplinedLegality(c: Config, s: System, ls: seq<Label>, s': System)
    requires Inv(s) && Narrated(s) && RefundsCaptured(s) && Reporting(s) && OneRefund(s) && AllLegal(s) && DisciplinedRun(c, s, ls, s')
    ensures Narrated(s')
    ensures AllLegal(s') <==> GuardedRun(c, s, ls, s')
    decreases |ls|
  {
    if ls != [] {
      hide Inv, Narrated, RefundsCaptured, Reporting, OneRefund, AllLegal, Step, Enabled, Guarded;
      var l, next := ls[0], Step(c, s, ls[0]);
      StepKeeps(c, s, l);
      StepKeepsNarrated(c, s, l);
      DisciplinedStep(c, s, l);
      if Guarded(s, l) {
        StepKeepsCaptured(c, s, l);
        StepKeepsReporting(c, s, l);
        StepKeepsOneRefund(c, s, l);
        DisciplinedLegality(c, next, ls[1..], s');
      } else {
        DisciplinedRuns(c, next, ls[1..], s');
        RunKeepsNarrated(c, next, ls[1..], s');
        BrokenStays(c, next, ls[1..], s');
      }
    }
  }

  lemma {:induction false} DisciplinedRuns(c: Config, s: System, ls: seq<Label>, s': System)
    requires DisciplinedRun(c, s, ls, s')
    ensures Runs(c, s, ls, s')
    decreases |ls|
  {
    if ls != [] { DisciplinedRuns(c, Step(c, s, ls[0]), ls[1..], s'); }
  }

  lemma NothingIsLegal()
    ensures LegalPath([])
  {}

  lemma StartDisciplined()
    ensures Inv(START) && Narrated(START) && RefundsCaptured(START) && Reporting(START) && OneRefund(START)
    ensures AllLegal(START) && NoPgSteps(START)
  {}

  /** Refunding payments one at a time, every payment's history is a legal path if and only if every
      blind write was guarded when it was made - so on SQLite always, and on PostgreSQL until the first
      report that overwrites what another wrote after its own read. */
  lemma LegalIffGuarded(c: Config, ls: seq<Label>, s: System)
    requires DisciplinedRun(c, START, ls, s)
    ensures (forall id :: id in s.store.rows ==> LegalPath(History(s.log, id))) <==> GuardedRun(c, START, ls, s)
    ensures c.backend == Sqlite ==> GuardedRun(c, START, ls, s)
  {
    StartDisciplined();
    hide Inv, RefundsCaptured, Reporting, OneRefund, NoPgSteps, LegalPath, History, DisciplinedRun, GuardedRun, Runs;
    DisciplinedLegality(c, START, ls, s);
    DisciplinedRuns(c, START, ls, s);
    if c.backend == Sqlite { SqliteIsGuarded(c, START, ls, s); }
    NothingIsLegal();
    assert forall id :: id !in s.store.rows ==> History(s.log, id) == [];
  }

  /** Then every history changes at most four times, `Failed` is final, and refund statuses come only
      after `Succeeded`. */
  lemma HistoriesAreLegal(c: Config, ls: seq<Label>, s: System, id: PaymentId)
    requires DisciplinedRun(c, START, ls, s) && (c.backend == Sqlite || GuardedRun(c, START, ls, s)) && id in s.store.rows
    ensures var h := History(s.log, id);
      && LegalPath(h) && h != [] && h[0] == Pending && h[|h| - 1] == s.store.rows[id].status
      && |Changes(h)| <= 4
      && (Captured(s.store.rows[id].status) ==> Succeeded in h)
      && (Failed in h ==> s.store.rows[id].status == Failed)
  {
    hide Inv, RefundsCaptured, Reporting, OneRefund, NoPgSteps, LegalPath, History, DisciplinedRun, GuardedRun, AllLegal;
    StartDisciplined();
    LegalIffGuarded(c, ls, s);
    DisciplinedLegality(c, START, ls, s);
    assert Narrates(s.log, id, s.store.rows[id]);
    LegalPathShape(History(s.log, id));
  }
}
