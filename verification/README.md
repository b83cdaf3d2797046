# OpenWrapper: a verified model

OpenWrapper is a payment gateway. It takes idempotent payment requests over HTTP and gRPC, forwards
each to a payment provider, and keeps one record per payment that webhooks, queue consumers, GET
requests, refunds and a background reconciler all write. This project models that protocol and the
algorithms around it, and proves what they guarantee.

| files | what they model |
|---|---|
| `PaymentStatus.dfy`, `Store.dfy` | the status machine, the error classification, and the payment store: its operations as functions on the tables, and the SQLite store as a class whose methods run them in place |
| `Gateway.dfy` | the protocol as a transition system. Every request is broken at its awaits into atomic steps; any number of requests, consumers and reconciler passes are in flight; a crash may drop any of them between two steps. Both backends: SQLite's operations are atomic, PostgreSQL's are a read, an insert and an unguarded update |
| `GatewaySafety.dfy`, `GatewayEvidence.dfy` | what holds in every reachable state of both backends |
| `Routes.dfy` | each request run to its end: what it leaves behind |
| `GatewayHistory.dfy`, `GatewayVerdict.dfy`, `GatewayDedup.dfy` | status histories, and how the providers' answers decide a payment: on SQLite after every run, on PostgreSQL after every run whose blind writes are legal when made |
| `Refunds.dfy` | the refund ledger: when refunds in flight can overpay, and when the status tells what was given back |
| `Races.dfy` | concrete runs in which the code does less than its documentation says |
| `Consumers.dfy` | the two queue consumers and the reconciler pass as loops over the SQLite store |
| `Money.dfy`, `Apportionment.dfy`, `ApportionmentLaws.dfy` | amounts, fees, ratios, and the two ways to split an amount |
| `TokenBucket.dfy`, `SlidingWindow.dfy` | the two rate limiters |
| `SplitMix.dfy`, `Retry.dfy` | the jitter's mixing function, the backoff delay and the retry loop |
| `CanonicalJson.dfy` | the normal form behind request fingerprints, in Rust and in TypeScript |
| `Signature.dfy`, `Utf8.dfy`, `QueryString.dfy`, `DecimalMoney.dfy`, `TokenLines.dfy` | printers and parsers: signature headers, query strings with their lossy UTF-8, decimal amounts (Rust and PHP), highlighted lines |
| `Text.dfy`, `Arithmetic.dfy`, `Sets.dfy`, `Wrappers.dfy` | shared text formats, laws of numbers and sets, `Option` and `Result` |

The choices the world makes (provider replies, drawn ids, clock readings, the keyed hash) are
parameters, so every theorem holds for all of them. A run is a list of labels that carry those
choices; the log of a state is an audit trail that no step reads.

## Where code and documentation differ

The model follows the code. Where a difference can be proved, the lemma is named:

- `docs/STATE_MACHINE.md` says every illegal transition is rejected, and `apps/gateway/src/store/mod.rs:153-155`
  that webhooks are applied atomically. On PostgreSQL the row is read in one statement and written in another
  (`apps/gateway/src/store/postgres.rs:639-731`, `750-770`), so two reports in flight can replace `Succeeded` by
  `Failed` or by `Pending` (`Races.PostgresLosesVerdict`), and a crash between the two can lose the verdict for
  good (`Races.CrashLosesVerdict`). `GatewayHistory.LegalIffGuarded` says exactly which runs keep every history
  legal, and `GatewayVerdict.FirstVerdictWins` what they then guarantee.
- The refund balance is checked before the provider is called and recorded after, with no guard
  (`apps/gateway/src/store/sqlite.rs:767-805`): `Races.ConcurrentRefundsOverpay`. `Refunds.OverpayIff` says exactly
  when refunds in flight can give back too much, and `GatewayHistory.WriteLegality` shows that the one illegal write
  SQLite can make comes from there.
- The status is set to `Refunded` whatever status the refund itself came back with, while only succeeded refunds are
  summed (`apps/gateway/src/handlers.rs:670-692`, `apps/gateway/src/store/sqlite.rs:807-823`):
  `Races.PendingRefundUnbalances`. `Refunds.RecordedBalances` says exactly when status and ledger agree.
- `apps/gateway/src/handlers.rs:208-213` says a GET will reconcile an ambiguous creation. Such a payment has no
  reference and stays `Unknown` for ever: `GatewaySafety.AmbiguousStaysUnknown`.
- `split_into_ratios` accepts non-negative weights but succeeds only if every part is at least one unit:
  `ApportionmentLaws.SplitSucceedsIff` says when that is, in terms of the amount and the weights.
- `checked_mul_ratio` promises `None` on overflow but casts with `as i64`: `Monies.RatioWraps`, with the exact
  condition in `Monies.RatioIsExactUnlessWrapped`.
- `splitmix64` is called provably uniform. The jitter is exactly uniform if and only if the ceiling divides 2^64
  (`Retry.UniformIffDivides`); in general each delay is off by at most one reading of the clock (`Retry.JitterBias`).
- The documented ceiling `min(max_delay, initial_delay * 2^k)` is met until `k` passes 30: `Retry.CeilingAsDocumented`.
- `toMinorUnits` and `formatMajorUnits` take any number of decimals but throw from 19 on, where `10 ** decimals` is a
  float: `DecimalMoney.DecimalRoundTrip` and `DecimalMoney.ParserTruncates` give the exact bounds.
- The sliding window is said to remove the double burst. Its true bound is `SlidingWindows.SlidingBound`, and
  `SlidingWindows.BoundAttained` shows that no smaller one holds.

Two further differences have no lemma, because the model simply has what the code has: `docs/IDEMPOTENCY.md` describes
a deduplication of refunds by key that the code lacks, and `crates/core/src/error.rs:43-47` calls a network error
unambiguous while `is_definite_non_occurrence` treats it as ambiguous.

## Assumptions

- Provider references are unique per provider where a statement says so (`Consumers.UniqueReferences`,
  `GatewayDedup.ReferenceIsOwn`); no index in the schema enforces it.
- Webhook event ids identify events where a statement says so (`GatewayDedup.EventIdsIdentify`). Without that,
  `GatewayVerdict.Confluence` still holds for the answers the store acted on.
- Providers report no refund statuses by webhook or inquiry where a statement says so
  (`GatewayHistory.ReportsOnly`). None of the adapters does.
- Refund ids identify refunds where a statement says so (`Refunds.FreshAnswers`); the gateway draws one where the
  provider gives none.

## Model

| member | source | states |
|---|---|---|
| PaymentStates.LegalPathShape | crates/core/src/payment.rs:47-92 | a history whose steps are all legal transitions changes at most four times, shows a refund status only after `Succeeded`, and never leaves `Failed` |
| PaymentStates.LegalIs | crates/core/src/payment.rs:47-92 | the table of legal transitions and terminal statuses, written out |
| PaymentStates.AmbiguousErrors | crates/core/src/error.rs:164-175 | the six errors that leave open whether the provider acted, by name |
| Stores.SqliteStore.BeginPayment | apps/gateway/src/store/sqlite.rs:246-307 | a new key gets a `Pending` row with exactly the key, fingerprint, provider and amount of the request and no reference or next action, and no other payment, event or refund changes; a taken key answers with its own payment if the fingerprint agrees and with Conflict if not, and changes nothing |
| Stores.SqliteStore.RecordCreationResult | apps/gateway/src/store/sqlite.rs:309-366 | stores reference, status and next action only over a legal transition and never over another reference |
| Stores.SqliteStore.ApplyWebhookEvent | apps/gateway/src/store/sqlite.rs:372-438 | finds a payment by provider and reference only; a repeated event id changes nothing; an unknown payment consumes no event id; an amount that differs from the payment's consumes it and changes no payment; otherwise the status is a guarded change |
| Stores.SqliteStore.ApplyTransition | apps/gateway/src/store/sqlite.rs:1155-1190 | writes a legal change, clears the next action on a terminal status, and reports an illegal one without touching the row |
| Stores.SqliteStore.UpdateStatusOnly | apps/gateway/src/store/sqlite.rs:522-557 | a missing payment and an illegal transition are errors that change nothing |
| Stores.SqliteStore.ApplyReconciliationResult | apps/gateway/src/store/sqlite.rs:473-520 | a guarded transition on a known payment, an error on an unknown one |
| Stores.SqliteStore.InsertRefund | apps/gateway/src/store/sqlite.rs:767-805 | appends a refund with a new id and sets the payment's status unguarded; a taken id changes nothing |
| Stores.BeginClaims | apps/gateway/src/store/sqlite.rs:246-307 | the same of the specified `begin`, which the protocol takes as its step on both backends |
| Stores.WebhookDelivers | apps/gateway/src/store/sqlite.rs:372-438 | the same of a specified webhook delivery |
| GatewaySafety.AtMostOnce | apps/gateway/src/handlers.rs:152-234 | in every reachable state of either backend the provider has been asked to create a payment at most once per idempotency key |
| GatewaySafety.KeyDecidesForever | crates/core/src/idempotency.rs:78-118 | once a key has a payment, every later create with it, in every continuation, answers that payment or Conflict by fingerprint and does nothing else |
| GatewaySafety.RepeatedCreate | apps/gateway/src/store/sqlite.rs:246-307 | after the create that claims a key, in every continuation the payment is the one it asked for, every repeat of it is answered `ReturnExisting` with that payment, any other fingerprint `Conflict`, and neither does anything else |
| GatewaySafety.IdentityForever | apps/gateway/src/store/sqlite.rs:246-307 | key, fingerprint, provider and amount of a payment never change, nor does a reference once it is set |
| GatewaySafety.StepKeeps | apps/gateway/src/grpc.rs:131-216 | every step of every request keeps the invariant: one creator per open payment, references held by everything that writes later, one provider call per key |
| GatewaySafety.NoClobbering | apps/gateway/src/handlers.rs:174-231 | the write that ends creation always finds its payment `Pending` without a reference, on both backends; it stores reference, status and next action as the provider replied, or `Failed` or `Unknown` by the name of its error, and changes nothing else |
| GatewaySafety.CreationNeverClobbers | apps/gateway/src/store/postgres.rs:617-637 | PostgreSQL's unguarded creation write does exactly what SQLite's guarded one does, and no guard ever refuses it |
| GatewaySafety.ReadBackFindsUnknown | apps/gateway/src/handlers.rs:218-223 | the payment read back after an ambiguous creation exists and is `Unknown` |
| GatewaySafety.OrphanForever | apps/gateway/src/reconciler.rs:66-69 | a payment no request can still give a reference to keeps its row for ever |
| GatewaySafety.AmbiguousStaysUnknown | apps/gateway/src/handlers.rs:206-231 | after a network, timeout, provider, security, unknown-outcome or internal error the payment is `Unknown` with no reference in every later state of every run |
| GatewaySafety.RefusedStaysFailed | apps/gateway/src/handlers.rs:195-231 | after each of the seven other errors it is `Failed` in every later state of every run |
| GatewayEvidence.NoGuessedOutcome | crates/core/src/error.rs:164-175 | on both backends a payment is `Failed` only if its creation was answered with one of seven named errors or its provider reported `Failed` for its reference and amount, and captured only if its provider reported `Succeeded` for them |
| Routes.CreationRoute | apps/gateway/src/handlers.rs:152-234 | a create run to its end stores the request, asks the provider once, and leaves reference, status and next action as its reply says; other payments stay |
| Routes.WebhookRoute | apps/gateway/src/store/sqlite.rs:372-438 | a delivery run to its end, in one step on SQLite and up to three on PostgreSQL: the first delivery of a legal status with no other amount sets that status, any other changes no payment, and its event id is consumed |
| Routes.PgWebhookRoute | apps/gateway/src/store/postgres.rs:639-731 | the same on PostgreSQL from the row as read |
| Routes.WrongAmountIgnored | apps/gateway/src/store/sqlite.rs:413-424 | at no step of a delivery does an amount other than the payment's change a payment or leave a change to be made |
| Routes.GetAsks | apps/gateway/src/handlers.rs:254-272 | a GET of a payment with a reference that is pending, unknown or partly refunded asks its provider |
| Routes.ReconcilerAsks | apps/gateway/src/reconciler.rs:112-153 | the reconciler asks about any payment with a reference in place, |
| Routes.QueueAsks | apps/gateway/src/reconciler.rs:66-105 | or by a queue message with its provider, reference and attempt 0 |
| Routes.AnswerRoute | apps/gateway/src/store/sqlite.rs:473-520 | whoever asked, a legal answer other than `Unknown` becomes the payment's status, on both backends, and any other answer changes nothing |
| Routes.FailureRequeues | apps/gateway/src/amqp.rs:336-349 | a failed inquiry of a queue message comes back with one more attempt while attempts remain; any other leaves nothing behind |
| Routes.Leaves | apps/gateway/src/amqp.rs:207-261 | an acknowledgement takes only its own message from the queue, and a crash only its own request from those in flight |
| Routes.RefundRoute | apps/gateway/src/handlers.rs:604-692 | a refund that fits the balance is recorded with its id, amount and status, and makes the payment `Refunded` exactly if nothing is left |
| Routes.RefundRefused | apps/gateway/src/handlers.rs:604-631 | one that does not fit never reaches the provider, and only captured payments are refunded |
| GatewayHistory.StatusShown | apps/gateway/src/handlers.rs:237-299 | after every run of either backend the logged history of a payment starts at `Pending` and ends at its stored status |
| GatewayHistory.WriteLegality | apps/gateway/src/handlers.rs:589-692 | with blind writes legal when made, as all SQLite steps are, a status write is legal unless it records a partial refund over `Refunded`, which only the refund step can do |
| GatewayHistory.UndisturbedIsGuarded | apps/gateway/src/store/postgres.rs:750-770 | a PostgreSQL UPDATE that finds the status its SELECT read is legal |
| GatewayHistory.SqliteIsGuarded | apps/gateway/src/store/sqlite.rs:1155-1190 | no run of SQLite contains a blind write |
| GatewayHistory.LegalIffGuarded | apps/gateway/src/store/postgres.rs:639-731 | with refunds one at a time, on either backend, every payment's history is a path of legal transitions if and only if every blind write of the run was legal when made |
| GatewayHistory.HistoriesAreLegal | crates/core/src/payment.rs:62-91 | such a history starts at `Pending`, changes at most four times, never leaves `Failed` and shows a refund status only after `Succeeded` |
| GatewayVerdict.FirstVerdictWins | apps/gateway/src/store/sqlite.rs:1155-1190 | on either backend, after a run with legal blind writes and no consumed event lost, the first authoritative answer decides a payment for good, whatever arrives later; on PostgreSQL its UPDATE may still be to come |
| GatewayVerdict.SqliteIsClean | apps/gateway/src/store/sqlite.rs:372-438 | every run of SQLite is such a run |
| GatewayVerdict.Confluence | apps/gateway/src/amqp.rs:263-333 | if all authoritative answers agree on one status and no refund status was written, the payment has that status exactly when there was such an answer, in any order and mix of webhook, queue, GET and reconciler, on either backend |
| GatewayDedup.DeliveryDecides | apps/gateway/src/store/sqlite.rs:372-438 | on SQLite deduplication swallows nothing that matters: the same holds for every delivery that reached the payment, first or repeated |
| Refunds.OverpayIff | apps/gateway/src/handlers.rs:617-692 | refunds in flight can give back more than was paid, with no further one let past its check, only if recorded and pledged amounts together exceed the payment; if their ids are their own, exactly then |
| Refunds.NeverOverpays | apps/gateway/src/handlers.rs:617-631 | in any run whose passed balance checks also fit beside the refunds in flight, recorded refunds never exceed the payment |
| Refunds.UnreservedCanOverpay | apps/gateway/src/handlers.rs:617-631 | from the first passed check that did not, some continuation overpays |
| Refunds.ConcurrentLedger | apps/gateway/src/handlers.rs:604-692 | with any number of such refunds at once, `Refunded` means all was given back, `PartiallyRefunded` some, any other status none, and every history is legal |
| Refunds.LedgerBalances | apps/gateway/src/handlers.rs:604-692 | with refunds one at a time, succeeded refunds never sum above the amount, `Refunded` holds exactly at equality, `PartiallyRefunded` exactly strictly between |
| Refunds.RecordedBalances | apps/gateway/src/handlers.rs:670-692 | recording a refund leaves ledger and status in agreement if and only if, when it succeeded, it leaves something over or was checked after all recorded before it, and otherwise the ledger was already where its status says |
| Races.PostgresLosesVerdict | apps/gateway/src/store/postgres.rs:639-731 | a reachable run in which PostgreSQL overwrites `Succeeded` by `Failed`, and one by `Pending` |
| Races.CrashLosesVerdict | apps/gateway/src/store/postgres.rs:664-718 | a reachable PostgreSQL state with nothing in flight and a `Pending` payment whose `Succeeded` webhook every redelivery takes for a duplicate |
| Races.ConcurrentRefundsOverpay | apps/gateway/src/handlers.rs:640-692 | a reachable SQLite run in which two refunds of one payment return more than it paid |
| Races.PendingRefundUnbalances | apps/gateway/src/store/sqlite.rs:807-823 | a reachable run in which a payment is `Refunded` and its succeeded refunds sum to zero |
| Consumers.ProcessWebhookMessage | apps/gateway/src/amqp.rs:263-294 | one message has the effect of one delivery to the payment with its reference, and none if there is no such payment |
| Consumers.ConsumeWebhooks | apps/gateway/src/amqp.rs:207-234 | a drained queue has been delivered once, in order |
| Consumers.RedeliveryIsNoOp | apps/gateway/src/amqp.rs:207-294 | draining the same queue a second time changes nothing |
| Consumers.ProcessReconcileMessage | apps/gateway/src/amqp.rs:296-352 | an answer other than `Unknown` is applied, an error is requeued with one more attempt while attempts remain, an unknown provider drops the message |
| Consumers.ConsumeReconciliation | apps/gateway/src/amqp.rs:236-352 | the consumer loop ends although failures go back into the queue, with the store and the number of inquiries of the specified drain |
| Consumers.DrainedBudget | apps/gateway/src/amqp.rs:336-349 | the number of inquiries lies between the number of answerable messages and the sum of their remaining attempts |
| Consumers.DrainedUnanswered | apps/gateway/src/amqp.rs:336-349 | providers that never answer are asked exactly that often and nothing is written |
| Consumers.DrainedResolves | apps/gateway/src/amqp.rs:309-349 | an open payment in the queue gets its provider's verdict if the provider recovers within the retries, whatever else is queued; payments not in the queue are untouched |
| Consumers.RunOnce | apps/gateway/src/reconciler.rs:45-153 | with a bus a pass writes nothing and publishes a message if and only if it is for a listed open payment with a reference and a capable provider, with that provider and reference and attempt 0, one for each such entry in list order; without one it publishes nothing, gives every such payment whose provider answers `Succeeded` or `Failed` that status, and leaves every other row as it was |
| Consumers.QueueMatchesInline | apps/gateway/src/reconciler.rs:97-153 | draining what a pass published writes exactly what the pass would have written in place |
| Monies.BpsIsExact | crates/core/src/money.rs:213-218 | a basis-point fee is the exact share rounded down whenever that share is an amount, and `None` otherwise |
| Monies.RatioIsExactUnlessWrapped | crates/core/src/money.rs:223-233 | a ratio is the exact share rounded down, or `None` when there is none, if and only if the denominator is zero or a quotient above the maximum does not wrap into the range of amounts |
| Monies.RatioWraps | crates/core/src/money.rs:223-233 | a quotient of 2^64 + 1 comes back as one minor unit |
| Monies.MoneyIs | crates/core/src/money.rs:148-160 | exactly 1 to 1,000,000,000 minor units are money; anything else is the error for its side, with the amount and the maximum |
| Apportionment.LeftoverFewerThanRemainders | crates/core/src/money.rs:266-279 | the leftover is never negative and never exceeds the number of nonzero remainders |
| Apportionment.DivideExactly | crates/core/src/money.rs:268-272 | neither the 128-bit product nor the casts of share and remainder can overflow |
| Apportionment.RoundDown | crates/core/src/money.rs:266-276 | the first loop yields every exact share rounded down, each remainder with its index, and their sum, without overflow |
| Apportionment.SortByRemainder | crates/core/src/money.rs:280 | the sort keeps the same entries in strictly decreasing order of remainder, lower index first on ties |
| Apportionment.GiveLeftover | crates/core/src/money.rs:281-283 | exactly the first `leftover` parts in that order get one unit more |
| Apportionment.PayOut | crates/core/src/money.rs:286-293 | the parts become amounts in order, or the first part that is no amount decides the error |
| Apportionment.SplitIntoRatios | crates/core/src/money.rs:251-294 | the result is that of an allocation that sums to the amount, gives each part its rounded-down share or one more, and gives extra units by largest remainder and lower index; no weight at all is an error |
| ApportionmentLaws.ApportionmentUnique | crates/core/src/money.rs:240-250 | there is only one such allocation |
| ApportionmentLaws.WithinQuota | crates/core/src/money.rs:240-250 | each part is within one unit of its exact share, and a whole exact share is met exactly |
| ApportionmentLaws.SplitSucceedsIff | crates/core/src/money.rs:266-293 | a split succeeds if and only if the last part of least weight has an exact share of at least one unit or fewer parts than there are leftover units come before it; a zero weight always fails |
| ApportionmentLaws.ChosenIffAhead | crates/core/src/money.rs:279-283 | a part gets a leftover unit if and only if fewer parts than there are units come before it in the order of remainders |
| ApportionmentLaws.Monotone | crates/core/src/money.rs:279-283 | a larger weight, or an equal one earlier, never gets less |
| ApportionmentLaws.LeastDeviation | crates/core/src/money.rs:240-250 | among all integer allocations of the amount this one has the least sum of absolute deviations from the exact shares |
| ApportionmentLaws.ScaleInvariant | crates/core/src/money.rs:251-294 | multiplying all weights by a positive number leaves the allocation unchanged |
| ApportionmentLaws.SplitInto | crates/core/src/money.rs:300-319 | succeeds exactly for 1 to `amount` parts, with the even parts, larger ones first |
| ApportionmentLaws.EvenIsFair | crates/core/src/money.rs:296-299 | the even parts sum to the amount, never increase, and differ by at most one |
| ApportionmentLaws.SplitsAgree | crates/core/src/money.rs:251-319 | on equal positive weights both splits agree, on results and on errors |
| TokenBuckets.TokenBucket.constructor | apps/gateway/src/rate_limit.rs:50-58 | a new bucket is full, with a rate of at least one token per second and `rate * 10^6` millionths capacity cut to 64 bits |
| TokenBuckets.TokenBucket.TryAcquire | apps/gateway/src/rate_limit.rs:60-84 | grants and leaves the state that the specified bucket grants and leaves |
| TokenBuckets.GrantBound | apps/gateway/src/rate_limit.rs:60-84 | for any nanosecond clock and requests per second, any stretch of any run of calls gets no more than the capacity and what drips in over the stretch and 999 ns |
| TokenBuckets.GrantBoundMicroseconds | apps/gateway/src/rate_limit.rs:60-84 | on a microsecond clock, at most `max(1, rps) + floor(max(1, rps) * d / 10^6)` grants in any stretch of `d` microseconds |
| TokenBuckets.HoldsExactly | apps/gateway/src/rate_limit.rs:65-83 | on any nanosecond clock, after any run, the bucket holds its capacity and the rate times the whole microseconds since it was last full, less what it granted since, however the calls cut those microseconds; it grants exactly if that makes a token |
| TokenBuckets.RefusedHasGranted | apps/gateway/src/rate_limit.rs:65-83 | the lower bound: at a refusal the bucket has granted, since an instant at which it was full, its capacity and all that dripped in, up to less than one token |
| TokenBuckets.NewBucketGrants | apps/gateway/src/rate_limit.rs:50-58 | a new bucket grants exactly the first `min(max(1, rps), (2^64 - 1) / 10^6)` calls at its first instant |
| TokenBuckets.LazyIsIdeal | apps/gateway/src/rate_limit.rs:65-76 | lazy saturating refill holds, after any run, what a bucket filled every microsecond holds, and grants the same calls |
| TokenBuckets.RefusedThenGranted | apps/gateway/src/rate_limit.rs:78-83 | after a refusal the next lone call is granted if and only if the missing part of a token has had time to drip in |
| SlidingWindows.DistributedLimiter.TryAcquire | apps/gateway/src/rate_limit.rs:108-137 | each call is decided by the estimate from the two windows of its reading and counted, admitted or not; for a limiter of requests per second that decision is stated on the readings, in `ms / 1000` and `ms % 1000`, without the limiter's own settings |
| SlidingWindows.BucketBound | apps/gateway/src/rate_limit.rs:131-137 | no window alone admits more than the limit, whatever the clock does |
| SlidingWindows.SlidingBound | apps/gateway/src/rate_limit.rs:108-137 | on a clock that does not step back, the previous window's admissions and this one's by offset `dt` never exceed `L + ceil(L * dt / W)` |
| SlidingWindows.SecondBound | apps/gateway/src/rate_limit.rs:108-137 | a limiter built for `r` requests per second admits at most `max(1, r)` calls with readings in any second `[1000 k, 1000 k + 1000)` |
| SlidingWindows.SlidingBoundOnClock | apps/gateway/src/rate_limit.rs:108-137 | on a clock that does not step back, a second and the first `dt + 1` milliseconds after it admit at most `L + ceil(L * dt / 1000)` with `L = max(1, r)` |
| SlidingWindows.BoundAttained | apps/gateway/src/rate_limit.rs:100-107 | for every limit and offset some run attains that bound |
| SplitMix.XorShiftUndone | crates/core/src/retry.rs:76-78 | an xor with a right shift of at least 22 bits is undone by two more |
| SplitMix.WrappingMulUndone | crates/core/src/retry.rs:76-77 | a wrapping multiplication is undone by the inverse modulo 2^64 |
| SplitMix.SplitMixIsBijective | crates/core/src/retry.rs:74-79 | the explicit inverse undoes `splitmix64` on every word, and the other way round |
| Retry.JitterBias | crates/core/src/retry.rs:62-68 | over all clock readings each delay below the ceiling `c` comes up `floor(2^64 / c)` times, or once more for the smallest ones |
| Retry.UniformIffDivides | crates/core/src/retry.rs:71-72 | all delays are equally frequent if and only if the ceiling divides 2^64 |
| Retry.CeilingIs | crates/core/src/retry.rs:50-53 | the ceiling is `min(initial / 1000, 2^64 - 1) * 2^min(attempt, 30)` capped by `min(max / 1000, 2^64 - 1)`, with both delays in nanoseconds; saturation of the product never shows |
| Retry.CeilingAsDocumented | crates/core/src/retry.rs:9-14 | it equals the documented ceiling if and only if the exponent has not outgrown 30 before the maximum is reached |
| Retry.CeilingInNanoseconds | crates/core/src/retry.rs:50-53 | a thousand times the ceiling is at most the initial delay doubled `attempt` times and at most the maximum, and one of the two up to rounding |
| Retry.AttemptsDiffer | crates/core/src/retry.rs:62-66 | different attempts mix different seeds out of one reading of the clock |
| Retry.DelayBelowCeiling | crates/core/src/retry.rs:46-69 | every delay is below the ceiling, or both are zero, and none exceeds the policy's maximum |
| Retry.RetryAsync | crates/core/src/retry.rs:82-108 | the operation is called until its first success, its first non-retryable error or `max_retries` retries; that outcome is returned, after the computed sleeps |
| Retry.SleepBound | crates/core/src/retry.rs:46-108 | the sleeps of a call sum to at most their number times the maximum delay |
| CanonicalJson.CanonicalDecides | crates/core/src/idempotency.rs:60-74 | two values have equal canonical forms if and only if they differ only in member order, at any depth |
| CanonicalJson.CanonicalKeepsMeaning | crates/core/src/idempotency.rs:60-74 | the canonical form is equivalent to its value, well formed, and its own canonical form |
| CanonicalJson.CanonicalInOrder | crates/core/src/idempotency.rs:60-74 | its keys ascend lexicographically at every depth |
| CanonicalJson.LookupsPreserved | crates/core/src/idempotency.rs:60-74 | every path of keys and indices finds in the canonical form the canonical form of what it finds in the value |
| CanonicalJson.CanonicalizeJson | apps/web/lib/cryptographic-signatures.ts:17-30 | the client's loop that fills its result key by key yields the same canonical form |
| Signatures.ReadHeader | apps/gateway/src/outbound_webhook.rs:41-59 | the parsing loop keeps the last readable timestamp and all candidate signatures in order |
| Signatures.ReadFindsTimestamp | apps/gateway/src/outbound_webhook.rs:41-52 | the timestamp read is that of the last item with a readable one, and none only if no item has one |
| Signatures.ReadFindsSignatures | apps/gateway/src/outbound_webhook.rs:53-56 | the candidates are exactly the values of the `v1` items |
| Signatures.ConstantTimeEqual | apps/gateway/src/outbound_webhook.rs:80-84 | the xor/or fold is zero if and only if the byte strings are equal |
| Signatures.VerifySignature | apps/gateway/src/outbound_webhook.rs:35-98 | the verifier returns the verdict specified for the header, errors in the order missing timestamp, missing signature, tolerance, mismatch |
| Signatures.AcceptedIff | apps/gateway/src/outbound_webhook.rs:35-98 | a header is accepted if and only if its last readable timestamp `t` has `t - tolerance <= now <= t + tolerance`, if there is a tolerance, and some `v1` item is the hex of the hash of that timestamp and the payload |
| Signatures.RefusedBecause | apps/gateway/src/outbound_webhook.rs:61-98 | each of the three earlier errors is given exactly if its own condition on the items holds and no earlier one does |
| Signatures.SpacedField | apps/gateway/src/outbound_webhook.rs:41-56 | spaces around key and value of an item do not matter |
| Signatures.HeaderRoundTrip | apps/gateway/src/outbound_webhook.rs:17-30 | a printed header verifies with tolerance 0; against any secret and payload it verifies exactly when `now` is within the tolerance of its timestamp and the hashes agree |
| Signatures.SignedTextInjective | apps/gateway/src/outbound_webhook.rs:18 | the signed text determines timestamp and payload |
| QueryStrings.UrlDecode | apps/gateway/src/handlers.rs:543-571 | the loop and the lossy conversion compute the specified text: a percent sign that no two hex digits follow stays, what is not UTF-8 is replaced |
| QueryStrings.LonePercent | apps/gateway/src/handlers.rs:543-571 | a percent sign that no two hex digits follow is kept |
| QueryStrings.NeverLonger | apps/gateway/src/handlers.rs:543-571 | decoding never lengthens a text, replacement characters included |
| Utf8.LossySynchronizes | apps/gateway/src/handlers.rs:570 | the lossy conversion falls back into step at every whole character, whatever comes before it |
| Utf8.ValidIsEncoded | apps/gateway/src/handlers.rs:570 | what the conversion keeps is exactly text: sequences of code points in the encoding of section 3 of RFC 3629, without surrogates or overlong forms |
| Utf8.LongestStart | apps/gateway/src/handlers.rs:570 | anywhere else one byte is replaced, or as many as some character starts with, and never fewer than that |
| QueryStrings.DecodeUndoesEncode | apps/gateway/src/handlers.rs:543-580 | decoding undoes every percent-encoding of every text, whichever way each byte was written (section 2.1 of RFC 3986, with `+` for a space) |
| QueryStrings.EncodeRoundTrip | apps/gateway/src/handlers.rs:543-580 | for the usual encoder of unreserved characters, decoding gives back every text |
| QueryStrings.QueryRoundTrip | apps/gateway/src/handlers.rs:527-537 | the query that joins any encodings of a list of pairs of texts parses to the map of those pairs, later ones winning |
| QueryStrings.KeyAlone | apps/gateway/src/handlers.rs:527-537 | a key without a value has the empty one, and the empty query no keys |
| QueryStrings.MapHoldsPairs | apps/gateway/src/handlers.rs:527-537 | with distinct keys that map holds exactly the pairs |
| TokenLines.Tokenizer.AppendSpan | apps/web/lib/code-syntax-highlighter.tsx:46-61 | appends a text's characters in its style to what is shown, splitting lines at newlines, with no empty span and none holding a newline |
| TokenLines.Tokenizer.Walk | apps/web/lib/code-syntax-highlighter.tsx:63-88 | appends a tree's leaves in order, each in its own or inherited type and alias |
| TokenLines.Tokenizer.TokenizeCode | apps/web/lib/code-syntax-highlighter.tsx:43-94 | the lines show exactly the leaves of all trees |
| TokenLines.LeavesStyled | apps/web/lib/code-syntax-highlighter.tsx:63-88 | every leaf has the kind of the nearest node around it with a nonempty one, and the alias of the nearest that gives one |
| TokenLines.LinesAreStyled | apps/web/lib/code-syntax-highlighter.tsx:43-94 | so has every character of the resulting lines |
| TokenLines.LinesAreTheText | apps/web/lib/code-syntax-highlighter.tsx:43-94 | the texts of the lines are the leaf text split at its newlines, so joined they give it back, and there is one line more than newlines |
| DecimalMoney.DecimalRoundTrip | sdk/php/src/Money.php:13-43 | for at least one decimal, formatting succeeds exactly up to 18 decimals on all but the least integer, and parsing gives the amount back |
| DecimalMoney.ParserTruncates | sdk/php/src/Money.php:13-27 | on a signed decimal with any number of digits the parser cuts the exact value towards zero, and throws exactly if that does not fit or from 19 decimals on |
| DecimalMoney.BlanksIgnored | sdk/php/src/Money.php:18 | blanks around an amount do not matter |
| DecimalMoney.GatewayAndClientAgree | crates/core/src/money.rs:171-180 | gateway and client print the same text for every amount in every currency, and the client reads back what the gateway shows of any with decimals |
| DecimalMoney.ShownAmount | crates/core/src/money.rs:171-180 | the shown text has no sign, as many decimals as the currency, and as a number, its point left out, it is the amount in minor units |

## Left out

- Time in the store: `updated_at`, touching, the minimum age and the batch limit of the stale list; the model lets any payment with a reference be picked at any time.
- Owners, API keys, capabilities, currencies in the store, reading next actions, resolving providers from headers, and mapping outcomes to HTTP and gRPC statuses: thin branching.
- Store and queue failures (a failed SQL statement, a failed publish or acknowledgement); a crash between any two steps is modelled, but not one inside SQLite's `record_refund` (below).
- `GatewayVerdict.FirstVerdictWins`: on PostgreSQL for runs with legal blind writes and no lost event only; without them it is false (`Races.PostgresLosesVerdict`, `Races.CrashLosesVerdict`).
- `GatewayDedup.DeliveryDecides`: for SQLite only; on PostgreSQL a first delivery may still wait for its UPDATE while a second is dropped.
- `Stores.SqliteStore.InsertRefund`: one step, although the source runs two statements without a transaction; a process death between them leaves a recorded refund with the old status.
- `Refunds.LedgerBalances`: for refunds one at a time that the provider reports as succeeded; what holds of concurrent ones is `Refunds.ConcurrentLedger`, and what a single record does in any case `Refunds.RecordedBalances`.
- `Consumers.RunOnce`: the provider's answers are fixed for the length of one pass; providers without the inquiry capability and unresolvable ones are both simply not capable.
- Liveness: no fairness of the reconciler or of delivery is assumed, so no payment is claimed to be resolved eventually.
- `Apportionment.SplitIntoRatios`: up to 2^32 weights, the number for which the 64-bit sum of 32-bit weights cannot overflow.
- `ApportionmentLaws.SplitInto`: fewer than 2^63 parts; above that the source cannot allocate its result.
- `Apportionment.SortByRemainder`: the standard library's sort is modelled as an insertion sort with the same order.
- Currency addition, subtraction and scalar multiplication, currency codes and symbols: easy.
- `TokenBuckets.TokenBucket.TryAcquire`: instants span less than 2^64 microseconds, so the cast of the elapsed time never wraps.
- `SlidingWindows.DistributedLimiter.TryAcquire`: the cache always answers (the source admits a request when it does not), counters stay below 2^63, the limit below 2^63 - 1, and keys do not expire; the source keeps each for five windows and reads it for two.
- `Retry.RetryAsync`: cancellation of the future while it sleeps.
- `CanonicalJson.CanonicalizeJson`: keys are compared character by character; JavaScript's order of UTF-16 units beyond the basic plane, its reordering of integer-like keys and the serialization and hashing of the canonical form are not modelled.
- `Signatures.VerifySignature`: the difference of two timestamps is not cut to 64 bits.
- SHA-256, HMAC and their keys: any function from secret and text to bytes.
- `TokenLines.Tokenizer.TokenizeCode`: the grammar and Prism's tokenizer, whose output is the input here.
- `DecimalMoney.ParserTruncates`: floating-point inputs, the zero-decimal branch, which rounds a float, exponents such as `1e3`, and blanks after the sign.
- Outbound webhook dispatch, metrics, configuration, health checks, user interfaces and provider adapters.
