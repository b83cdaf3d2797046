/** The payment status machine (`crates/core/src/payment.rs`) and the error
    classification that decides between `Failed` and `Unknown`
    (`crates/core/src/error.rs`). */
module PaymentStates {
  import opened Wrappers

  datatype PaymentStatus = Pending | Succeeded | Failed | Unknown | PartiallyRefunded | Refunded
  {
    predicate IsTerminal() {
      this == Succeeded || this == Failed || this == Refunded
    }

    function ValidateTransition(next: PaymentStatus): Result<(), IllegalTransition> {
      if this == next then Ok(())
      else match (this, next)
        case (Pending, Succeeded) => Ok(())
        case (Pending, Failed) => Ok(())
        case (Pending, Unknown) => Ok(())
        case (Unknown, Succeeded) => Ok(())
        case (Unknown, Failed) => Ok(())
        case (Succeeded, PartiallyRefunded) => Ok(())
        case (Succeeded, Refunded) => Ok(())
        case (PartiallyRefunded, Refunded) => Ok(())
        case _ => Err(IllegalTransition(this, next))
    }
  }

  datatype IllegalTransition = IllegalTransition(from: PaymentStatus, to: PaymentStatus)

  /** The only statuses a creation call can report. */
  datatype CreationStatus = CreationPending | CreationUnknown
  {
    function ToStatus(): PaymentStatus {
      if this == CreationPending then Pending else Unknown
    }
  }

  predicate Legal(from: PaymentStatus, to: PaymentStatus) {
    from.ValidateTransition(to).Ok?
  }

  /** Statuses a provider's webhook or inquiry reports; refund statuses are set by refunds alone. */
  predicate Reportable(s: PaymentStatus) {
    s != PartiallyRefunded && s != Refunded
  }

  /** A provider's definite answer about a payment. */
  predicate Authoritative(s: PaymentStatus) {
    s == Succeeded || s == Failed
  }

  /** A payment whose money was captured, refunded or not. */
  predicate Captured(s: PaymentStatus) {
    s == Succeeded || s == PartiallyRefunded || s == Refunded
  }

  datatype OpenWrapperError =
    | Validation | Authentication | Authorization | Configuration | Network | Timeout | Provider
    | RateLimit | UnsupportedCapability | Security | IdempotencyConflict | UnknownOutcome | Internal
  {
    predicate IsDefiniteNonOccurrence() {
      this in {Validation, Authentication, Authorization, Configuration,
               UnsupportedCapability, RateLimit, IdempotencyConflict}
    }
  }

  /** The other errors leave open whether the provider acted. */
  lemma AmbiguousErrors(e: OpenWrapperError)
    ensures !e.IsDefiniteNonOccurrence() <==> e in {Network, Timeout, Provider, Security, UnknownOutcome, Internal}
  {
    match e {
      case Network => case Timeout => case Provider => case Security => case UnknownOutcome => case Internal =>
      case _ =>
    }
  }

  /** The whole table: a status may stay, an open payment may become known to be unclear or be settled, and
      captured money may be given back, in part or in full. */
  lemma LegalIs(from: PaymentStatus, to: PaymentStatus)
    ensures Legal(from, to) <==>
      from == to
      || (from in {Pending, Unknown} && to in {Unknown, Succeeded, Failed} && to != from)
      || (from in {Succeeded, PartiallyRefunded} && to in {PartiallyRefunded, Refunded} && to != from)
    ensures from.ValidateTransition(to) == if Legal(from, to) then Ok(()) else Err(IllegalTransition(from, to))
    ensures from.IsTerminal() <==> from in {Succeeded, Failed, Refunded}
  {}

  // ---- Paths through the status machine ----

  ghost predicate LegalPath(h: seq<PaymentStatus>) {
    forall i :: 0 <= i < |h| - 1 ==> Legal(h[i], h[i + 1])
  }

  predicate Differs(h: seq<PaymentStatus>, i: nat)
    requires i < |h|
  {
    i > 0 && h[i - 1] != h[i]
  }

  /** The places at which a history shows another status than just before. */
  function Changes(h: seq<PaymentStatus>): set<nat> {
    set i: nat | i < |h| && Differs(h, i)
  }

  lemma LastChange(h: seq<PaymentStatus>)
    requires |h| > 1
    ensures |Changes(h)| == |Changes(h[..|h| - 1])| + if h[|h| - 2] != h[|h| - 1] then 1 else 0
  {
    var last := |h| - 1;
    assert forall i: nat | i < last :: Differs(h, i) <==> Differs(h[..last], i);
    assert Changes(h) == Changes(h[..last]) + if Differs(h, last) then {last} else {};
  }

  /** How far along a status is; every real change moves strictly forward. */
  function Depth(s: PaymentStatus): nat {
    match s
    case Pending => 0
    case Unknown => 1
    case Failed => 2
    case Succeeded => 2
    case PartiallyRefunded => 3
    case Refunded => 4
  }

  lemma {:induction false} LegalPathDepth(h: seq<PaymentStatus>)
    requires LegalPath(h) && h != [] && h[0] == Pending
    ensures |Changes(h)| <= Depth(h[|h| - 1])
  {
    if |h| == 1 { assert Changes(h) == {}; }
    hide Changes;
    if |h| > 1 {
      var init := h[..|h| - 1];
      LegalPathDepth(init);
      LastChange(h);
      assert Legal(h[|h| - 2], h[|h| - 1]);
    }
  }

  /** However long the history of a payment is, it changes at most four times,
      and it shows a refund status only after it has shown `Succeeded`. */
  lemma {:induction false} LegalPathShape(h: seq<PaymentStatus>)
    requires LegalPath(h) && h != [] && h[0] == Pending
    ensures |Changes(h)| <= 4
    ensures Captured(h[|h| - 1]) ==> Succeeded in h
    ensures Failed in h ==> h[|h| - 1] == Failed
  {
    LegalPathDepth(h);
    hide Changes;
    if |h| > 1 {
      var init := h[..|h| - 1];
      LegalPathShape(init);
      assert h == init + [h[|h| - 1]];
      assert Legal(h[|h| - 2], h[|h| - 1]);
    }
  }
}
