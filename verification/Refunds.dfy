/** The refund ledger of `create_refund`: when refunds in flight at the same time can give back more
    than was paid, and when the payment's status tells how much was. */
module Refunds {
  import opened Wrappers
  import opened PaymentStates
  import opened Stores
  import opened Gateway
  import opened GatewaySafety
  import opened GatewayHistory

  lemma TotalAppend(refunds: seq<RefundRecord>, r: RefundRecord, id: PaymentId)
    ensures TotalRefunded(refunds + [r], id)
              == TotalRefunded(refunds, id) + (if r.payment == id && r.status == RefundSucceeded then r.amount else 0)
  {
    assert (refunds + [r])[..|refunds|] == refunds;
  }

  // ---- What refunds in flight may still add ----

  /** The money a request past the balance check may still record as given back. */
  function Pledge(q: Proc, id: PaymentId): nat {
    match q
    case RefundCalling(i, refund, _) => if i == id then refund else 0
    case RefundAnswered(i, refund, _, result) => if i == id && result.status == RefundSucceeded then refund else 0
    case _ => 0
  }

  ghost function Pledged(procs: map<ProcId, Proc>, id: PaymentId): nat
    decreases |procs.Keys|
  {
    if procs == map[] then 0
    else
      var p :| p in procs;
      assert (procs - {p}).Keys == procs.Keys - {p};
      Pledge(procs[p], id) + Pledged(procs - {p}, id)
  }

  lemma {:induction false} PledgedSplit(procs: map<ProcId, Proc>, p: ProcId, id: PaymentId)
    requires p in procs
    ensures Pledged(procs, id) == Pledge(procs[p], id) + Pledged(procs - {p}, id)
    decreases |procs.Keys|
  {
    var q :| q in procs && Pledged(procs, id) == Pledge(procs[q], id) + Pledged(procs - {q}, id);
    if q != p {
      assert (procs - {q}).Keys == procs.Keys - {q} && (procs - {p}).Keys == procs.Keys - {p};
      PledgedSplit(procs - {q}, p, id);
      PledgedSplit(procs - {p}, q, id);
      assert procs - {q} - {p} == procs - {p} - {q};
    }
  }

  function PledgeAt(procs: map<ProcId, Proc>, p: ProcId, id: PaymentId): nat {
    if p in procs then Pledge(procs[p], id) else 0
  }

  /** Changing one request changes the pledges by its own. */
  lemma PledgedChange(a: map<ProcId, Proc>, b: map<ProcId, Proc>, p: ProcId, id: PaymentId)
    requires a - {p} == b - {p}
    ensures Pledged(b, id) - PledgeAt(b, p, id) == Pledged(a, id) - PledgeAt(a, p, id)
    ensures PledgeAt(a, p, id) <= Pledged(a, id)
  {
    if p in a { PledgedSplit(a, p, id); } else { assert a - {p} == a; }
    if p in b { PledgedSplit(b, p, id); } else { assert b - {p} == b; }
  }

  lemma {:induction false} PledgedFound(procs: map<ProcId, Proc>, id: PaymentId)
    ensures Pledged(procs, id) > 0 <==> exists p :: p in procs && Pledge(procs[p], id) > 0
    decreases |procs.Keys|
  {
    if procs != map[] {
      var p :| p in procs && Pledged(procs, id) == Pledge(procs[p], id) + Pledged(procs - {p}, id);
      assert (procs - {p}).Keys == procs.Keys - {p};
      PledgedFound(procs - {p}, id);
      if q :| q in procs - {p} && Pledge((procs - {p})[q], id) > 0 { assert q in procs && Pledge(procs[q], id) > 0; }
      if q :| q in procs && Pledge(procs[q], id) > 0 { assert q != p ==> q in procs - {p} && Pledge((procs - {p})[q], id) > 0; }
    }
  }

  /** Recorded refunds and pledges together. */
  ghost function Committed(s: System, id: PaymentId): nat {
    TotalRefunded(s.store.refunds, id) + Pledged(s.procs, id)
  }

  // ---- One step ----

  predicate Recording(l: Label) {
    l.CheckBalance? || l.RefundReplies? || l.RecordRefund?
  }

  /** Other steps move at most one request, which pledges nothing, and leave the ledger alone. */
  lemma OtherCommits(c: Config, s: System, l: Label, id: PaymentId)
    requires Enabled(c, s, l) && !Recording(l)
    ensures var s' := Step(c, s, l);
      && s'.store.refunds == s.store.refunds
      && exists p :: s'.procs - {p} == s.procs - {p} && PledgeAt(s'.procs, p, id) == 0
  {
    hide TotalRefunded, Legal, Unused;
    var s' := Step(c, s, l);
    if l.PublishStale? || l.VerifyWebhook? || l.AckWebhook? || l.AckReconcile? {
      assert s'.procs == s.procs;
      UnusedPledges(s.procs, id);
    } else {
      assert s'.procs - {l.p} == s.procs - {l.p} && PledgeAt(s'.procs, l.p, id) == 0;
    }
  }

  lemma UnusedPledges(procs: map<ProcId, Proc>, id: PaymentId)
    ensures exists p :: procs - {p} == procs - {p} && PledgeAt(procs, p, id) == 0
  {
    assert PledgeAt(procs, Unused(procs), id) == 0;
    assert procs - {Unused(procs)} == procs - {Unused(procs)};
  }

  ghost function Unused(procs: map<ProcId, Proc>): (p: ProcId)
    ensures p !in procs
  {
    UnusedExists(procs);
    var p :| p !in procs;
    p
  }

  lemma UnusedExists(procs: map<ProcId, Proc>)
    ensures exists p :: p !in procs
  {
    var n := BoundOf(procs.Keys);
    assert ProcId(n) !in procs;
  }

  lemma {:induction false} BoundOf(ids: set<ProcId>) returns (n: int)
    ensures forall p :: p in ids ==> p.n < n
  {
    if ids == {} {
      n := 0;
    } else {
      var p :| p in ids;
      n := BoundOf(ids - {p});
      if n <= p.n { n := p.n + 1; }
    }
  }

  /** The refund's own check lets it through to the provider. */
  predicate Passes(s: System, p: ProcId) {
    && p in s.procs && s.procs[p].RefundChecked? && s.procs[p].id in s.store.rows
    && s.procs[p].refund <= s.store.rows[s.procs[p].id].amount - TotalRefunded(s.store.refunds, s.procs[p].id)
    && s.store.rows[s.procs[p].id].reference.Some?
  }

  lemma CheckCommits(c: Config, s: System, p: ProcId, id: PaymentId)
    requires Enabled(c, s, CheckBalance(p))
    ensures Committed(Step(c, s, CheckBalance(p)), id)
         == Committed(s, id) + if Passes(s, p) && s.procs[p].id == id then s.procs[p].refund else 0
  {
    var s' := Step(c, s, CheckBalance(p));
    assert s'.procs - {p} == s.procs - {p};
    PledgedChange(s.procs, s'.procs, p, id);
  }

  lemma ReplyCommits(c: Config, s: System, p: ProcId, result: RefundResult, id: PaymentId)
    requires Enabled(c, s, RefundReplies(p, result))
    ensures var s' := Step(c, s, RefundReplies(p, result));
      Committed(s', id) <= Committed(s, id) && (result.status == RefundSucceeded ==> Committed(s', id) == Committed(s, id))
  {
    var s' := Step(c, s, RefundReplies(p, result));
    assert s'.procs - {p} == s.procs - {p};
    PledgedChange(s.procs, s'.procs, p, id);
  }

  predicate TakenId(refunds: seq<RefundRecord>, id: RefundId) {
    exists i :: 0 <= i < |refunds| && refunds[i].id == id
  }

  lemma RecordCommits(c: Config, s: System, p: ProcId, id: PaymentId)
    requires Enabled(c, s, RecordRefund(p))
    ensures var s', q := Step(c, s, RecordRefund(p)), s.procs[p];
      && Committed(s', id) <= Committed(s, id)
      && (!TakenId(s.store.refunds, q.result.id) ==>
            && Committed(s', id) == Committed(s, id)
            && s'.store.refunds == s.store.refunds + [RefundRecord(q.result.id, q.id, q.refund, q.result.status)]
            && TotalRefunded(s'.store.refunds, id) == TotalRefunded(s.store.refunds, id) + Pledge(q, id))
  {
    var s', q := Step(c, s, RecordRefund(p)), s.procs[p];
    assert s'.procs == s.procs - {p} && s'.procs - {p} == s.procs - {p};
    PledgedChange(s.procs, s'.procs, p, id);
    if !TakenId(s.store.refunds, q.result.id) {
      TotalAppend(s.store.refunds, RefundRecord(q.result.id, q.id, q.refund, q.result.status), id);
    }
  }

  /** Only a passed balance check adds to what is committed. */
  lemma StepCommits(c: Config, s: System, l: Label, id: PaymentId)
    requires Enabled(c, s, l)
    ensures Committed(Step(c, s, l), id)
         <= Committed(s, id) + if l.CheckBalance? && Passes(s, l.p) && s.procs[l.p].id == id then s.procs[l.p].refund else 0
  {
    hide Step, Pledged;
    match l
    case CheckBalance(p) => CheckCommits(c, s, p, id);
    case RefundReplies(p, result) => ReplyCommits(c, s, p, result, id);
    case RecordRefund(p) => RecordCommits(c, s, p, id);
    case _ =>
      OtherCommits(c, s, l, id);
      var s' := Step(c, s, l);
      var p :| s'.procs - {p} == s.procs - {p} && PledgeAt(s'.procs, p, id) == 0;
      PledgedChange(s.procs, s'.procs, p, id);
  }

  // ---- When refunds in flight can overpay ----

  /** A continuation in which no refund is let past its balance check. */
  predicate NoNewRefunds(ls: seq<Label>) {
    forall i :: 0 <= i < |ls| ==> !ls[i].CheckBalance?
  }

  lemma {:induction false} CommittedBounds(c: Config, s: System, ls: seq<Label>, s': System, id: PaymentId)
    requires Runs(c, s, ls, s') && NoNewRefunds(ls)
    ensures TotalRefunded(s'.store.refunds, id) <= Committed(s', id) <= Committed(s, id)
    decreases |ls|
  {
    if ls != [] {
      StepCommits(c, s, ls[0], id);
      CommittedBounds(c, Step(c, s, ls[0]), ls[1..], s', id);
    }
  }

  /** The refund ids that providers have answered with for this payment are new and distinct, so that
      each of these refunds can be recorded. */
  ghost predicate FreshAnswers(s: System, id: PaymentId) {
    && (forall p :: p in s.procs && s.procs[p].RefundAnswered? && Pledge(s.procs[p], id) > 0 ==>
          !TakenId(s.store.refunds, s.procs[p].result.id))
    && (forall p, q :: (p in s.procs && q in s.procs && p != q && s.procs[p].RefundAnswered? && s.procs[q].RefundAnswered?
                        && Pledge(s.procs[p], id) > 0 && Pledge(s.procs[q], id) > 0) ==>
          s.procs[p].result.id != s.procs[q].result.id)
  }

  lemma {:induction false} LengthBound(ids: set<RefundId>) returns (n: nat)
    ensures forall r :: r in ids ==> |r.text| < n
  {
    if ids == {} {
      n := 0;
    } else {
      var r :| r in ids;
      n := LengthBound(ids - {r});
      if n <= |r.text| { n := |r.text| + 1; }
    }
  }

  /** An id no provider has answered with yet. */
  lemma UnusedRefundId(s: System) returns (r: RefundId)
    ensures !TakenId(s.store.refunds, r)
    ensures forall p :: p in s.procs && s.procs[p].RefundAnswered? ==> s.procs[p].result.id != r
  {
    var recorded := set i | 0 <= i < |s.store.refunds| :: s.store.refunds[i].id;
    var answered := set p | p in s.procs && s.procs[p].RefundAnswered? :: s.procs[p].result.id;
    var n := LengthBound(recorded + answered);
    r := RefundId(seq(n, _ => 'r'));
    forall i | 0 <= i < |s.store.refunds| ensures s.store.refunds[i].id != r { assert s.store.refunds[i].id in recorded; }
    forall p | p in s.procs && s.procs[p].RefundAnswered? ensures s.procs[p].result.id != r {
      assert s.procs[p].result.id in answered;
    }
  }

  /** An answered refund with a new id is recorded. */
  lemma RecordsAnswered(c: Config, s: System, p: ProcId, id: PaymentId) returns (s': System)
    requires id in s.store.rows && FreshAnswers(s, id)
    requires p in s.procs && s.procs[p].RefundAnswered? && Pledge(s.procs[p], id) > 0
    ensures Enabled(c, s, RecordRefund(p)) && s' == Step(c, s, RecordRefund(p))
    ensures id in s'.store.rows && FreshAnswers(s', id) && Committed(s', id) == Committed(s, id)
    ensures Pledged(s'.procs, id) < Pledged(s.procs, id)
  {
    s' := Step(c, s, RecordRefund(p));
    RecordCommits(c, s, p, id);
  }

  /** A refund at the provider can succeed under a new id. */
  lemma AnswersFresh(c: Config, s: System, p: ProcId, id: PaymentId) returns (l: Label, s': System)
    requires id in s.store.rows && FreshAnswers(s, id)
    requires p in s.procs && s.procs[p].RefundCalling? && Pledge(s.procs[p], id) > 0
    ensures Enabled(c, s, l) && l.RefundReplies? && s' == Step(c, s, l)
    ensures id in s'.store.rows && FreshAnswers(s', id) && Committed(s', id) == Committed(s, id)
    ensures Pledged(s'.procs, id) == Pledged(s.procs, id)
    ensures p in s'.procs && s'.procs[p].RefundAnswered? && Pledge(s'.procs[p], id) > 0
  {
    var r := UnusedRefundId(s);
    l := RefundReplies(p, RefundResult(r, RefundSucceeded));
    s' := Step(c, s, l);
    ReplyCommits(c, s, p, RefundResult(r, RefundSucceeded), id);
  }

  /** One refund in flight succeeds and is recorded. */
  lemma NextRecorded(c: Config, s: System, id: PaymentId) returns (ls: seq<Label>, s': System)
    requires id in s.store.rows && FreshAnswers(s, id) && Pledged(s.procs, id) > 0
    ensures Runs(c, s, ls, s') && NoNewRefunds(ls)
    ensures id in s'.store.rows && FreshAnswers(s', id) && Committed(s', id) == Committed(s, id)
    ensures Pledged(s'.procs, id) < Pledged(s.procs, id)
  {
    PledgedFound(s.procs, id);
    hide Step, Enabled, FreshAnswers, Pledged, TotalRefunded, Committed;
    var p :| p in s.procs && Pledge(s.procs[p], id) > 0;
    var mid := s;
    ls := [];
    if s.procs[p].RefundCalling? {
      var l;
      l, mid := AnswersFresh(c, s, p, id);
      ls := [l];
      assert [l][1..] == [];
    }
    assert Runs(c, s, ls, mid);
    s' := RecordsAnswered(c, mid, p, id);
    assert [RecordRefund(p)][1..] == [];
    RunsConcat(c, s, ls, mid, [RecordRefund(p)], s');
    ls := ls + [RecordRefund(p)];
  }

  lemma {:induction false} RunsConcat(c: Config, s: System, ls: seq<Label>, mid: System, ls': seq<Label>, s': System)
    requires Runs(c, s, ls, mid) && Runs(c, mid, ls', s')
    ensures Runs(c, s, ls + ls', s')
    decreases |ls|
  {
    if ls == [] {
      assert ls + ls' == ls';
    } else {
      assert (ls + ls')[1..] == ls[1..] + ls';
      RunsConcat(c, Step(c, s, ls[0]), ls[1..], mid, ls', s');
    }
  }

  /** The worst case: every refund in flight succeeds and is recorded. */
  lemma {:induction false} AllRecorded(c: Config, s: System, id: PaymentId) returns (ls: seq<Label>, s': System)
    requires id in s.store.rows && FreshAnswers(s, id)
    ensures Runs(c, s, ls, s') && NoNewRefunds(ls) && TotalRefunded(s'.store.refunds, id) == Committed(s, id)
    decreases Pledged(s.procs, id)
  {
    if Pledged(s.procs, id) == 0 {
      return [], s;
    }
    hide Step, Enabled, FreshAnswers, Pledged, TotalRefunded, Committed, Runs;
    var first, mid := NextRecorded(c, s, id);
    ls, s' := AllRecorded(c, mid, id);
    RunsConcat(c, s, first, mid, ls, s');
    ls := first + ls;
  }

  /** Some continuation that lets no further refund past its balance check gives back more than the
      payment's amount. */
  ghost predicate CanOverpay(c: Config, s: System, id: PaymentId)
    requires id in s.store.rows
  {
    exists ls, s' :: Runs(c, s, ls, s') && NoNewRefunds(ls) && TotalRefunded(s'.store.refunds, id) > s.store.rows[id].amount
  }

  /** Exactly when the refunds already in flight can give back more than was paid, on either backend:
      if and only if what is recorded and what is pledged together exceed the amount. Only the "if" needs
      the refunds answered so far to have ids of their own. */
  lemma OverpayIff(c: Config, s: System, id: PaymentId)
    requires id in s.store.rows
    ensures CanOverpay(c, s, id) ==> Committed(s, id) > s.store.rows[id].amount
    ensures FreshAnswers(s, id) ==> (CanOverpay(c, s, id) <==> Committed(s, id) > s.store.rows[id].amount)
  {
    hide Committed, FreshAnswers, Runs;
    if CanOverpay(c, s, id) {
      var ls, s' :| Runs(c, s, ls, s') && NoNewRefunds(ls) && TotalRefunded(s'.store.refunds, id) > s.store.rows[id].amount;
      CommittedBounds(c, s, ls, s', id);
    }
    if FreshAnswers(s, id) && Committed(s, id) > s.store.rows[id].amount {
      var ls, s' := AllRecorded(c, s, id);
      assert Runs(c, s, ls, s') && NoNewRefunds(ls);
    }
  }

  // ---- Balance checks that reserve ----

  /** A refund let past its balance check also fits beside those in flight. */
  ghost predicate Reserves(s: System, l: Label) {
    l.CheckBalance? && Passes(s, l.p) ==>
      Committed(s, s.procs[l.p].id) + s.procs[l.p].refund <= s.store.rows[s.procs[l.p].id].amount
  }

  ghost predicate ReservedRun(c: Config, s: System, ls: seq<Label>, s': System)
    decreases |ls|
  {
    if ls == [] then s == s'
    else Enabled(c, s, ls[0]) && Reserves(s, ls[0]) && ReservedRun(c, Step(c, s, ls[0]), ls[1..], s')
  }

  /** Nothing is committed to unknown payments, and no more than its amount to a known one. */
  ghost predicate Covered(s: System) {
    forall id :: Committed(s, id) <= if id in s.store.rows then s.store.rows[id].amount else 0
  }

  lemma StepKeepsCovered(c: Config, s: System, l: Label)
    requires Inv(s) && Covered(s) && Enabled(c, s, l) && Reserves(s, l)
    ensures Covered(Step(c, s, l))
  {
    hide Inv, Step, Committed, Enabled;
    var s' := Step(c, s, l);
    forall id ensures Committed(s', id) <= if id in s'.store.rows then s'.store.rows[id].amount else 0 {
      StepCommits(c, s, l, id);
      if id in s.store.rows { StepKeepsIdentity(c, s, l, id); }
    }
  }

  lemma {:induction false} RunKeepsCovered(c: Config, s: System, ls: seq<Label>, s': System)
    requires Inv(s) && Covered(s) && ReservedRun(c, s, ls, s')
    ensures Covered(s')
    decreases |ls|
  {
    if ls != [] {
      hide Inv, Covered, Reserves, Step;
      StepKeeps(c, s, ls[0]);
      StepKeepsCovered(c, s, ls[0]);
      RunKeepsCovered(c, Step(c, s, ls[0]), ls[1..], s');
    }
  }

  lemma StartCovered()
    ensures Inv(START) && Covered(START)
  {
    assert forall id :: Committed(START, id) == 0;
  }

  /** Refunds in any number at once never give back more than was paid, on either backend and whatever
      they come back with, as long as each passed balance check also counted those in flight. */
  lemma NeverOverpays(c: Config, ls: seq<Label>, s: System, id: PaymentId)
    requires ReservedRun(c, START, ls, s) && id in s.store.rows
    ensures TotalRefunded(s.store.refunds, id) <= Committed(s, id) <= s.store.rows[id].amount
  {
    StartCovered();
    hide Inv, ReservedRun;
    RunKeepsCovered(c, START, ls, s);
  }

  /** And only then: from the first check that did not, the refunds in flight can overpay. */
  lemma UnreservedCanOverpay(c: Config, s: System, p: ProcId)
    requires Enabled(c, s, CheckBalance(p)) && !Reserves(s, CheckBalance(p)) && FreshAnswers(s, s.procs[p].id)
    ensures var s' := Step(c, s, CheckBalance(p)); s.procs[p].id in s'.store.rows && CanOverpay(c, s', s.procs[p].id)
  {
    var s', id := Step(c, s, CheckBalance(p)), s.procs[p].id;
    CheckCommits(c, s, p, id);
    OverpayIff(c, s', id);
  }

  // ---- What the status tells ----

  /** The status never overstates the ledger. */
  predicate Understates(total: nat, row: PaymentRow) {
    && (row.status == Refunded ==> total == row.amount)
    && (row.status == PartiallyRefunded ==> 0 < total)
    && (row.status != Refunded && row.status != PartiallyRefunded ==> total == 0)
  }

  /** The ledger and the status tell the same story. */
  predicate Balanced(total: nat, row: PaymentRow) {
    && total <= row.amount
    && (row.status == Refunded <==> total == row.amount)
    && (row.status == PartiallyRefunded <==> 0 < total < row.amount)
  }

  ghost predicate ProcBooked(store: Store, q: Proc) {
    match q
    case RefundCalling(id, _, previously) => id in store.rows && previously <= TotalRefunded(store.refunds, id)
    case RefundAnswered(id, _, previously, result) =>
      id in store.rows && previously <= TotalRefunded(store.refunds, id) && result.status == RefundSucceeded
    case _ => true
  }

  ghost predicate Booked(s: System) {
    && (forall id :: id in s.store.rows ==> Understates(TotalRefunded(s.store.refunds, id), s.store.rows[id]))
    && (forall id :: id !in s.store.rows ==> TotalRefunded(s.store.refunds, id) == 0)
    && (forall p :: p in s.procs ==> ProcBooked(s.store, s.procs[p]))
  }

  /** Every refund the provider accepts is reported as succeeded. */
  predicate RefundsSettle(l: Label) {
    l.RefundReplies? ==> l.result.status == RefundSucceeded
  }

  /** How a request comes to be at or past the provider with its refund: from its balance check, with
      the total recorded then, or from the provider's reply. */
  ghost predicate Advances(s: System, s': System, l: Label, p: ProcId)
    requires p in s'.procs
  {
    var q := s'.procs[p];
    || (p in s.procs && q == s.procs[p])
    || (!q.RefundCalling? && !q.RefundAnswered?)
    || (q.RefundCalling? && q.id in s'.store.rows && q.previously == TotalRefunded(s.store.refunds, q.id))
    || (q.RefundAnswered? && l.RefundReplies? && p == l.p && p in s.procs && s.procs[p].RefundCalling?
        && q == RefundAnswered(s.procs[p].id, s.procs[p].refund, s.procs[p].previously, l.result))
  }

  lemma StepAdvances(c: Config, s: System, l: Label)
    requires Enabled(c, s, l) && !l.RecordRefund?
    ensures var s' := Step(c, s, l);
      s'.store.refunds == s.store.refunds && forall p :: p in s'.procs ==> Advances(s, s', l, p)
  {
    hide TotalRefunded, Legal;
  }

  lemma LedgerKept(c: Config, s: System, l: Label)
    requires Booked(s) && Enabled(c, s, l) && RefundsSettle(l) && !l.RecordRefund?
    requires StatusesReported(s.store, Step(c, s, l).store)
    ensures var s' := Step(c, s, l);
      && s'.store.refunds == s.store.refunds
      && forall p :: p in s'.procs ==> (p in s.procs && s'.procs[p] == s.procs[p]) || ProcBooked(s'.store, s'.procs[p])
  {
    var s' := Step(c, s, l);
    StepAdvances(c, s, l);
    hide TotalRefunded, Step, Enabled;
    forall p | p in s'.procs ensures (p in s.procs && s'.procs[p] == s.procs[p]) || ProcBooked(s'.store, s'.procs[p]) {
      assert Advances(s, s', l, p);
      if p in s.procs { assert ProcBooked(s.store, s.procs[p]); }
    }
  }

  lemma BookedUndisturbed(s: System, s': System)
    requires Booked(s) && StatusesReported(s.store, s'.store) && s'.store.refunds == s.store.refunds
    requires forall p :: p in s'.procs ==> (p in s.procs && s'.procs[p] == s.procs[p]) || ProcBooked(s'.store, s'.procs[p])
    ensures Booked(s')
  {
    hide TotalRefunded;
    forall p | p in s'.procs ensures ProcBooked(s'.store, s'.procs[p]) {
      if p in s.procs && s'.procs[p] == s.procs[p] { assert ProcBooked(s.store, s.procs[p]); }
    }
    forall id | id in s'.store.rows ensures Understates(TotalRefunded(s.store.refunds, id), s'.store.rows[id]) {
      assert id in s.store.rows ==> Understates(TotalRefunded(s.store.refunds, id), s.store.rows[id]);
    }
  }

  lemma RecordKeepsBooked(c: Config, s: System, p: ProcId)
    requires Booked(s) && Covered(s) && Enabled(c, s, RecordRefund(p))
    ensures Booked(Step(c, s, RecordRefund(p)))
  {
    var s', q := Step(c, s, RecordRefund(p)), s.procs[p];
    assert ProcBooked(s.store, q);
    PledgedChange(s.procs, s.procs, p, q.id);
    if s'.store != s.store {
      RecordedIsBooked(s, s', p);
    }
  }

  lemma RecordedIsBooked(s: System, s': System, p: ProcId)
    requires Booked(s) && p in s.procs && s.procs[p].RefundAnswered? && s.procs[p].id in s.store.rows
    requires var q := s.procs[p]; var row := s.store.rows[q.id];
      && q.previously <= TotalRefunded(s.store.refunds, q.id)
      && TotalRefunded(s.store.refunds, q.id) + q.refund <= row.amount
      && q.result.status == RefundSucceeded
      && s'.procs == s.procs - {p}
      && s'.store.refunds == s.store.refunds + [RefundRecord(q.result.id, q.id, q.refund, q.result.status)]
      && s'.store.rows == s.store.rows[q.id := row.(status := RefundedStatus(q.previously + q.refund, row.amount))]
    ensures Booked(s')
  {
    var q := s.procs[p];
    var r := RefundRecord(q.result.id, q.id, q.refund, q.result.status);
    forall id ensures TotalRefunded(s'.store.refunds, id) == TotalRefunded(s.store.refunds, id) + if id == q.id then q.refund else 0 {
      TotalAppend(s.store.refunds, r, id);
    }
    hide TotalRefunded;
    forall o | o in s'.procs ensures ProcBooked(s'.store, s'.procs[o]) { assert ProcBooked(s.store, s.procs[o]); }
  }

  lemma StepKeepsBooked(c: Config, s: System, l: Label)
    requires Inv(s) && Reporting(s) && Booked(s) && Covered(s) && Enabled(c, s, l) && Guarded(s, l) && RefundsSettle(l)
    ensures Booked(Step(c, s, l))
  {
    hide Inv, Reporting, Covered, Step, Guarded, StatusesReported, ProcBooked;
    if l.RecordRefund? {
      RecordKeepsBooked(c, s, l.p);
    } else {
      StepReported(c, s, l);
      LedgerKept(c, s, l);
      BookedUndisturbed(s, Step(c, s, l));
    }
  }

  /** Any number of refunds at once: reserved, reported as succeeded, no refund statuses from webhooks
      or inquiries, and guarded writes. */
  ghost predicate BookedRun(c: Config, s: System, ls: seq<Label>, s': System)
    decreases |ls|
  {
    if ls == [] then s == s'
    else
      && Enabled(c, s, ls[0]) && Reserves(s, ls[0]) && RefundsSettle(ls[0]) && ReportsOnly(ls[0]) && Guarded(s, ls[0])
      && BookedRun(c, Step(c, s, ls[0]), ls[1..], s')
  }

  /** A recorded refund that fits never finds `Refunded`. */
  lemma RecordsLegally(c: Config, s: System, p: ProcId)
    requires Booked(s) && Covered(s) && Enabled(c, s, RecordRefund(p))
    ensures s.store.rows[s.procs[p].id].status != Refunded
  {
    var q := s.procs[p];
    assert ProcBooked(s.store, q);
    PledgedChange(s.procs, s.procs, p, q.id);
  }

  ghost predicate Sound(s: System) {
    Inv(s) && Narrated(s) && AllLegal(s) && RefundsCaptured(s) && Reporting(s) && Booked(s) && Covered(s)
  }

  lemma StepKeepsLegal(c: Config, s: System, l: Label)
    requires Sound(s) && Enabled(c, s, l) && Guarded(s, l)
    ensures Narrated(Step(c, s, l)) && AllLegal(Step(c, s, l))
  {
    hide Inv, Narrated, AllLegal, RefundsCaptured, Reporting, Booked, Covered, Step, Enabled, Guarded, Emits, Writes;
    StepKeepsNarrated(c, s, l);
    StepEmits(c, s, l);
    LegalStep(s, Step(c, s, l));
    if Writes(s, Step(c, s, l)) {
      WrittenOne(s, Step(c, s, l));
      StepWrites(c, s, l);
      if l.RecordRefund? {
        RecordsLegally(c, s, l.p);
        RefundWrite(c, s, l.p);
      }
    }
  }

  lemma WrittenOne(s: System, s': System)
    requires Writes(s, s')
    ensures s'.log != [] && LastWrite(s').StatusWritten?
  {}

  lemma {:induction false} RunKeepsSound(c: Config, s: System, ls: seq<Label>, s': System)
    requires Sound(s) && BookedRun(c, s, ls, s')
    ensures Sound(s')
    decreases |ls|
  {
    if ls != [] {
      StepKeepsLegal(c, s, ls[0]);
      hide Inv, Narrated, AllLegal, RefundsCaptured, Reporting, Booked, Covered, Step, Guarded, Reserves;
      StepKeeps(c, s, ls[0]);
      StepKeepsCaptured(c, s, ls[0]);
      StepKeepsReporting(c, s, ls[0]);
      StepKeepsBooked(c, s, ls[0]);
      StepKeepsCovered(c, s, ls[0]);
      RunKeepsSound(c, Step(c, s, ls[0]), ls[1..], s');
    }
  }

  lemma StartSound()
    ensures Sound(START)
  {
    StartCovered();
    StartDisciplined();
    hide Inv, Narrated, AllLegal, RefundsCaptured, Reporting, Covered;
  }

  /** The ledger of concurrent refunds: on either backend, with any number of refunds of a payment in
      flight, the recorded ones never sum above the amount, `Refunded` means all of it was given back,
      `PartiallyRefunded` that some was, any other status that none was, and every history is legal.
      (All of it may be given back under `PartiallyRefunded`: see `RecordedBalances`.) */
  lemma ConcurrentLedger(c: Config, ls: seq<Label>, s: System, id: PaymentId)
    requires BookedRun(c, START, ls, s) && id in s.store.rows
    ensures var total, row := TotalRefunded(s.store.refunds, id), s.store.rows[id];
      && total <= row.amount
      && (row.status == Refunded ==> total == row.amount)
      && (row.status == PartiallyRefunded ==> 0 < total)
      && (row.status != Refunded && row.status != PartiallyRefunded ==> total == 0)
      && LegalPath(History(s.log, id))
  {
    StartSound();
    hide Inv, Narrated, RefundsCaptured, Reporting, BookedRun;
    RunKeepsSound(c, START, ls, s);
    assert Understates(TotalRefunded(s.store.refunds, id), s.store.rows[id]);
    assert TotalRefunded(s.store.refunds, id) <= Committed(s, id);
  }

  /** Exactly when recording a refund leaves ledger and status in agreement, whatever else is in flight:
      a succeeded one must leave something over, or have been checked after all those recorded before it;
      another one must find the ledger where its status says. */
  lemma RecordedBalances(s: System, p: ProcId)
    requires p in s.procs && s.procs[p].RefundAnswered? && s.procs[p].id in s.store.rows
    requires !TakenId(s.store.refunds, s.procs[p].result.id)
    requires s.procs[p].previously <= TotalRefunded(s.store.refunds, s.procs[p].id)
    ensures var q := s.procs[p]; var s' := RecordRefundStep(s, p);
      var total, amount := TotalRefunded(s.store.refunds, q.id), s.store.rows[q.id].amount;
      Balanced(TotalRefunded(s'.store.refunds, q.id), s'.store.rows[q.id]) <==>
        (if q.result.status == RefundSucceeded
         then total + q.refund < amount || (total + q.refund == amount && q.previously == total)
         else if q.previously + q.refund < amount then 0 < total < amount else total == amount)
  {
    var q := s.procs[p];
    TotalAppend(s.store.refunds, RefundRecord(q.result.id, q.id, q.refund, q.result.status), q.id);
  }

  // ---- Refunds one at a time ----

  ghost predicate ProcExact(store: Store, q: Proc) {
    q.RefundCalling? || q.RefundAnswered? ==> q.previously == TotalRefunded(store.refunds, q.id)
  }

  ghost predicate FullIsRefunded(store: Store) {
    forall id :: id in store.rows && TotalRefunded(store.refunds, id) == store.rows[id].amount ==>
      store.rows[id].status == Refunded
  }

  ghost predicate Exact(s: System) {
    (forall p :: p in s.procs ==> ProcExact(s.store, s.procs[p])) && FullIsRefunded(s.store)
  }

  /** A lone refund's balance check has nothing in flight to count. */
  lemma AloneReserves(c: Config, s: System, l: Label)
    requires OneRefund(s) && Enabled(c, s, l)
    ensures Reserves(s, l)
  {
    if l.CheckBalance? && Passes(s, l.p) {
      var id := s.procs[l.p].id;
      PledgedFound(s.procs, id);
      forall p | p in s.procs ensures Pledge(s.procs[p], id) == 0 {
        if s.procs[p].Refunding() && s.procs[p].id == id { assert p == l.p; }
      }
    }
  }

  lemma ProcsStayExact(c: Config, s: System, l: Label)
    requires Exact(s) && Enabled(c, s, l) && !l.RecordRefund?
    ensures var s' := Step(c, s, l);
      s'.store.refunds == s.store.refunds && forall p :: p in s'.procs ==> ProcExact(s'.store, s'.procs[p])
  {
    var s' := Step(c, s, l);
    StepAdvances(c, s, l);
    hide TotalRefunded, Step, Enabled, FullIsRefunded;
    forall p | p in s'.procs ensures ProcExact(s'.store, s'.procs[p]) {
      assert Advances(s, s', l, p);
      if p in s.procs { assert ProcExact(s.store, s.procs[p]); }
    }
  }

  lemma QuietKeepsExact(c: Config, s: System, l: Label)
    requires Exact(s) && Booked(s) && Enabled(c, s, l) && !l.RecordRefund? && StatusesReported(s.store, Step(c, s, l).store)
    ensures Exact(Step(c, s, l))
  {
    var s' := Step(c, s, l);
    ProcsStayExact(c, s, l);
    FullStaysRefunded(s, s');
    hide Step, Enabled, StatusesReported, TotalRefunded, Booked, FullIsRefunded;
  }

  lemma FullStaysRefunded(s: System, s': System)
    requires Exact(s) && Booked(s) && StatusesReported(s.store, s'.store) && s'.store.refunds == s.store.refunds
    ensures FullIsRefunded(s'.store)
  {}

  lemma RecordKeepsExact(c: Config, s: System, p: ProcId)
    requires OneRefund(s) && Exact(s) && Enabled(c, s, RecordRefund(p))
    ensures Exact(Step(c, s, RecordRefund(p)))
  {
    var s', q := RecordRefundStep(s, p), s.procs[p];
    assert s' == Step(c, s, RecordRefund(p));
    hide Step;
    var r := RefundRecord(q.result.id, q.id, q.refund, q.result.status);
    assert forall o :: o in s'.procs && s'.procs[o].Refunding() ==> s'.procs[o].id != q.id;
    assert ProcExact(s.store, q);
    if s'.store != s.store {
      assert s'.store.refunds == s.store.refunds + [r];
      forall id ensures TotalRefunded(s'.store.refunds, id)
                     == TotalRefunded(s.store.refunds, id) + if id == q.id && r.status == RefundSucceeded then q.refund else 0
      {
        TotalAppend(s.store.refunds, r, id);
      }
      hide TotalRefunded;
      forall o | o in s'.procs ensures ProcExact(s'.store, s'.procs[o]) { assert ProcExact(s.store, s.procs[o]); }
    }
  }

  lemma StepKeepsExact(c: Config, s: System, l: Label)
    requires Inv(s) && Reporting(s) && OneRefund(s) && Booked(s) && Exact(s) && Enabled(c, s, l) && Guarded(s, l)
    ensures Exact(Step(c, s, l))
  {
    hide Inv, Reporting, OneRefund, Booked, Exact, Step, Enabled, Guarded, StatusesReported;
    if l.RecordRefund? {
      RecordKeepsExact(c, s, l.p);
    } else {
      StepReported(c, s, l);
      QuietKeepsExact(c, s, l);
    }
  }

  /** Disciplined, every refund reported as succeeded, and guarded writes (as all are on SQLite). */
  ghost predicate RefundRun(c: Config, s: System, ls: seq<Label>, s': System)
    decreases |ls|
  {
    if ls == [] then s == s'
    else
      && Enabled(c, s, ls[0]) && Disciplined(s, ls[0]) && RefundsSettle(ls[0]) && Guarded(s, ls[0])
      && RefundRun(c, Step(c, s, ls[0]), ls[1..], s')
  }

  lemma {:induction false} RunKeepsExact(c: Config, s: System, ls: seq<Label>, s': System)
    requires Sound(s) && OneRefund(s) && Exact(s) && RefundRun(c, s, ls, s')
    ensures Sound(s') && Exact(s')
    decreases |ls|
  {
    if ls != [] {
      AloneReserves(c, s, ls[0]);
      StepKeepsLegal(c, s, ls[0]);
      hide Inv, Narrated, AllLegal, RefundsCaptured, Reporting, Booked, Covered, OneRefund, Exact, Step, Guarded, Reserves;
      StepKeeps(c, s, ls[0]);
      StepKeepsCaptured(c, s, ls[0]);
      StepKeepsReporting(c, s, ls[0]);
      StepKeepsBooked(c, s, ls[0]);
      StepKeepsCovered(c, s, ls[0]);
      StepKeepsOneRefund(c, s, ls[0]);
      StepKeepsExact(c, s, ls[0]);
      RunKeepsExact(c, Step(c, s, ls[0]), ls[1..], s');
    }
  }

  lemma ExactIsFull(s: System)
    requires Exact(s)
    ensures FullIsRefunded(s.store)
  {}

  lemma StartExact()
    ensures OneRefund(START) && Exact(START)
  {}

  /** The refund ledger, over every run that refunds each payment one at a time: recorded refunds
      never exceed the payment, and the status says exactly how much has been given back. */
  lemma LedgerBalances(c: Config, ls: seq<Label>, s: System, id: PaymentId)
    requires RefundRun(c, START, ls, s) && id in s.store.rows
    ensures Balanced(TotalRefunded(s.store.refunds, id), s.store.rows[id])
  {
    hide Exact;
    StartSound();
    StartExact();
    hide Inv, Narrated, AllLegal, RefundsCaptured, Reporting, RefundRun, OneRefund, TotalRefunded, Pledged;
    RunKeepsExact(c, START, ls, s);
    assert FullIsRefunded(s.store) by { ExactIsFull(s); }
    assert Understates(TotalRefunded(s.store.refunds, id), s.store.rows[id]);
    assert TotalRefunded(s.store.refunds, id) <= Committed(s, id);
  }
}
