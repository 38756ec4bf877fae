# Wallet ledger — a Dafny model

This project models the core of a Django wallet service. Each wallet has a
ledger of transactions. A credit is a row with a non-negative amount; it is
created PENDING or AVAILABLE and may expire. A debit is a row with a negative
amount. An extraction (withdrawal) request creates a PENDING debit for the
wallet's whole available credit, paired with an extraction request row. A
periodic sweep does three things:

- it expires AVAILABLE rows (of either sign) whose expiration has passed;
- it makes PENDING credits AVAILABLE once their availability time has passed;
- it settles each due debit. The debit and every AVAILABLE row of its
  wallet (of either sign) that became available before the debit was created become PROCESSED
  and point back at the debit. The debit's requests become PROCESSED with a
  resolution time.

The read side reports a wallet summary and a newest-first listing of the
user's transactions.

The modules follow the source files:

- `Models` (`models.dfy`) holds the entities and the four aggregates. It also
  holds `Ledger`, a class whose `txs`, `requests` and `wallets` fields are the
  three tables, updated in place, with a constructor for an empty ledger and
  the two row-creating methods.
- `Tasks` (`tasks.dfy`) holds the sweep. There is one method per step. Each
  method is proved equal to a specification function of the old tables.
- `SweepProperties` (`sweep_properties.dfy`) describes what a sweep does
  without the loop. It derives the sweep's frame and settlement facts, and
  what a second sweep still changes.
- `Serializers` (`serializers.dfy`) holds extraction validation and creation,
  and the representation of one transaction.
- `Views` (`views.dfy`) holds the summary endpoint, the listing order and
  filter, the map of settling rows, and the serialization of a page.
- `Flow` (`flow.dfy`) covers an extraction request followed by sweeps.

Conventions:

- A row's id is its index in `txs`. A wallet's id is its index in `wallets`.
- Times are integers. A nullable column is an `Option`.
- Amounts are `real`.
- The clock of the sweep (`now`, and one reading per settlement iteration) is a
  parameter.
- The order in which the due-debit query returns its rows is a parameter. The
  query has no `order_by`. `IsDueOrder` requires that the order lists every due
  debit exactly once.

In five places the code does something a reader might not expect. The model
follows the code each time:

- One might expect due debits to be settled oldest first. The due-debit query
  at `wallet_base/wallet_base/tasks/tasks.py:31-37` has no `order_by`, so the
  order is a parameter. `SettlementOrderMatters` shows that the outcome
  depends on it.
- One might expect a second sweep to change nothing. In the first atomic block
  (`wallet_base/wallet_base/tasks/tasks.py:17-26`), Expire runs before Mature.
  So a PENDING credit whose availability and expiration have both passed
  becomes AVAILABLE in one sweep and EXPIRED in the next.
  `SweepNotIdempotent` shows this. `SecondSweep` shows that, after a first
  sweep that completed, this is all a second sweep at the same time changes.
- One might expect a debit to consume the credits that existed when it was
  created. `wallet_base/wallet_base/tasks/tasks.py:44` compares each credit's
  availability time, not its creation time, with the debit's creation time
  (`IsConsumedBy`).
- An extraction debit is created with no availability time
  (`wallet_base/wallet_base/serializers/serializers.py:92-98`). The sweep
  ignores it until a collaborator sets one (`ExtractionWaitsForAvailability`).
- Settling a debit marks every one of its requests PROCESSED
  (`wallet_base/wallet_base/tasks/tasks.py:55-60`). If the debit has two or
  more requests, this breaks the unique (transaction, status) constraint. The
  iteration's atomic block is then rolled back, the exception ends the sweep,
  and the periodic job logs it. `Tasks.CanSettle` and `Run.completed` model
  this, and `Tasks.CanSettleExactly` shows that `CanSettle` is exactly the
  constraint holding after the update.

## Model

| member | source | states |
|---|---|---|
| Models.TxStatusCode | wallet_base/wallet_base/models.py:41-53 | each transaction status has a one-character code |
| Models.StatusCodesDistinct | wallet_base/wallet_base/models.py:41-97 | transaction status codes are distinct, request status codes are distinct, and request "processed" differs from transaction "processed" |
| Models.FirstWalletOf | wallet_base/wallet_base/serializers/serializers.py:63-65 | the result is the lowest-id wallet of the user; it is None exactly when the user has no wallet |
| Models.AvailableCredit | wallet_base/wallet_base/models.py:150-163 | the sum of the amounts of the wallet's rows whose status is in the list, by default AVAILABLE only; the empty (NULL) sum is 0 |
| Models.PaidCreditNegative | wallet_base/wallet_base/models.py:165-177 | the sum is at most 0, and it is 0 exactly when the wallet has no PROCESSED negative row |
| Models.PendingCredit | wallet_base/wallet_base/models.py:179-190 | the pending sum is the negative pending sum plus a non-negative part, so it is at least the negative pending sum; it is 0 when nothing is PENDING |
| Models.PendingCreditNegative | wallet_base/wallet_base/models.py:192-204 | the sum is at most 0, and it is 0 exactly when the wallet has no PENDING negative row |
| Models.AvailablePlusPending | wallet_base/wallet_base/models.py:150-190 | querying AVAILABLE and PENDING together gives the available sum plus the pending sum |
| Models.AvailableRow | wallet_base/wallet_base/models.py:206-223 | the new row belongs to the wallet, is AVAILABLE, has the given amount, is created at `now`, and settles nothing; it becomes available `availableDelta` after creation and expires `expirationDelta` after creation |
| Models.PendingRow | wallet_base/wallet_base/models.py:225-244 | the new row is PENDING; it becomes available `availableDelta` after creation, and it expires `availableDelta + expirationDelta` after creation, so `expirationDelta` after its availability |
| Models.AddAvailableEffect | wallet_base/wallet_base/models.py:206-223 | an added AVAILABLE row raises its own wallet's available sum by its amount and changes no other aggregate of any wallet |
| Models.AddPendingEffect | wallet_base/wallet_base/models.py:225-244 | an added PENDING row raises the pending sum by its amount, and the negative pending sum too when the amount is negative; the available and paid sums do not change |
| Models.Ledger.AddAvailable | wallet_base/wallet_base/models.py:206-223 | appends exactly one AVAILABLE row, returns its id, keeps the tables well formed, and changes nothing else |
| Models.Ledger.AddPending | wallet_base/wallet_base/models.py:225-244 | appends exactly one PENDING row, returns its id, keeps the tables well formed, and changes nothing else |
| Tasks.Settled | wallet_base/wallet_base/tasks/tasks.py:49-53 | a settled row is PROCESSED and linked to the debit; its amount and wallet are kept |
| Tasks.Expire | wallet_base/wallet_base/tasks/tasks.py:17-20 | keeps the number of rows; `PhasesRow` gives its effect on each row |
| Tasks.Mature | wallet_base/wallet_base/tasks/tasks.py:22-26 | keeps the number of rows; `PhasesRow` gives its effect on each row |
| Tasks.ExpireAndMature | wallet_base/wallet_base/tasks/tasks.py:16-26 | both steps touch only the transaction table and keep its size |
| Tasks.SettleOne | wallet_base/wallet_base/tasks/tasks.py:41-60 | one committed iteration keeps the size of both tables |
| Tasks.SettleAll | wallet_base/wallet_base/tasks/tasks.py:37-63 | the settled debits are a prefix of the order, and the loop completes exactly when the whole order is settled; `SettleAllCompletes` says how far it gets in terms of the request counts |
| Tasks.SettleOneKeepsWellFormed | wallet_base/wallet_base/tasks/tasks.py:41-60 | a committed settlement keeps foreign keys, links and the unique request constraint intact |
| Tasks.SettleAllCompletes | wallet_base/wallet_base/tasks/tasks.py:37-60 | the loop settles the debits of the order up to the first one with two or more requests; it completes exactly when every debit of the order has at most one request |
| Tasks.SweepCompletes | wallet_base/wallet_base/tasks/tasks.py:13-63 | a sweep settles every due debit of the order, and completes, exactly when each of them has at most one request; otherwise it stops at the first debit with two or more |
| Tasks.AbortIsFinal | wallet_base/wallet_base/tasks/tasks.py:37-76 | after a failed iteration, the rest of the order changes nothing |
| Tasks.ExpireAvailable | wallet_base/wallet_base/tasks/tasks.py:17-20 | the in-place loop leaves exactly `Expire` of the old rows and keeps the tables well formed |
| Tasks.MatureCredits | wallet_base/wallet_base/tasks/tasks.py:22-26 | the in-place loop leaves exactly `Mature` of the old rows and keeps the tables well formed |
| Tasks.SettleDebit | wallet_base/wallet_base/tasks/tasks.py:41-60 | it succeeds exactly when `CanSettle` holds, which `CanSettleExactly` shows is exactly when the request update respects the unique constraint; then both tables equal `SettleOne` of the old state, otherwise both are unchanged |
| Tasks.CanSettleExactly | wallet_base/wallet_base/tasks/tasks.py:55-60 | an iteration may commit exactly when marking the debit's requests PROCESSED keeps the unique (transaction, status) constraint; with two or more requests the update gives the debit two PROCESSED requests |
| Tasks.UpdateTransactions | wallet_base/wallet_base/tasks/tasks.py:13-63 | the tables end equal to `Sweep` of the old tables; the result says whether every due debit was settled; the tables stay well formed |
| SweepProperties.SettleAllView | wallet_base/wallet_base/tasks/tasks.py:37-60 | after the loop, each row is unchanged, settled by itself if it is a settled debit, or settled by the first settled debit that consumes it; each request is resolved at the time of its debit's iteration |
| SweepProperties.PhasesRow | wallet_base/wallet_base/tasks/tasks.py:16-26 | an expiring row becomes EXPIRED, a maturing row becomes AVAILABLE, and every other row is unchanged |
| SweepProperties.PhasesKeepDue | wallet_base/wallet_base/tasks/tasks.py:16-35 | Expire and Mature leave due debits as they are and create no new due debit |
| SweepProperties.SweepView | wallet_base/wallet_base/tasks/tasks.py:13-63 | the whole sweep agrees with the reference description applied after Expire and Mature |
| SweepProperties.SweepFrame | wallet_base/wallet_base/tasks/tasks.py:13-63 | a sweep changes only status and link and never an amount; it leaves CANCELLED, EXPIRED and PROCESSED rows alone; it only moves AVAILABLE to EXPIRED or PROCESSED and PENDING to AVAILABLE or PROCESSED |
| SweepProperties.SettledDebitsPointAtThemselves | wallet_base/wallet_base/tasks/tasks.py:42-60 | every settled debit is PROCESSED and linked to itself, and its requests are PROCESSED at its iteration's time |
| SweepProperties.ConsumedRowsAreProcessed | wallet_base/wallet_base/tasks/tasks.py:42-53 | a row that a settled debit consumes ends PROCESSED, linked to that debit or to an earlier one in the order |
| SweepProperties.MaturedCreditsCanBeConsumed | wallet_base/wallet_base/tasks/tasks.py:22-53 | a credit matured in this sweep is consumed in the same sweep by a settled debit of its wallet created after its availability |
| SweepProperties.UnconsumedRowsKept | wallet_base/wallet_base/tasks/tasks.py:42-53 | a row that no debit of the order consumes, and that is not itself due, ends as Expire and Mature left it |
| SweepProperties.UndueDebitsUntouched | wallet_base/wallet_base/tasks/tasks.py:31-35 | a PENDING debit with no availability, or one not before `now`, is untouched, and so are its requests |
| SweepProperties.OtherRequestsUntouched | wallet_base/wallet_base/tasks/tasks.py:55-60 | requests of debits that were not settled are unchanged |
| SweepProperties.SecondSweep | wallet_base/wallet_base/tasks/tasks.py:13-63 | after a completed sweep, no due debit and no maturing credit is left; a second sweep at the same time only expires credits the first one matured after their expiration |
| SweepProperties.SweepNotIdempotent | wallet_base/wallet_base/tasks/tasks.py:16-26 | an example credit is AVAILABLE after one sweep and EXPIRED after the next |
| SweepProperties.SettlementOrderMatters | wallet_base/wallet_base/tasks/tasks.py:31-53 | with two due debits in one wallet, the shared credit goes to whichever debit the query returns first |
| Serializers.ErrorCode | wallet_base/wallet_base/serializers/serializers.py:54-55 | the two validation errors have one-character codes; a missing wallet is not a validation error and has none |
| Serializers.Validate | wallet_base/wallet_base/serializers/serializers.py:61-83 | refused with "1" exactly when the first wallet has a PENDING negative row, checked first; refused with "2" exactly when it has none and the available sum is at most 0; otherwise accepted with that positive available sum |
| Serializers.ExtractionDebit | wallet_base/wallet_base/serializers/serializers.py:92-98 | the debit belongs to the wallet, is PENDING, in ARS, for minus the credit, with no availability and no expiration, and settles nothing; so it is an outstanding (PENDING negative) row exactly when the credit is positive |
| Serializers.AfterRequest | wallet_base/wallet_base/serializers/serializers.py:92-111 | an acceptance keeps every existing row and request and appends the debit and a PENDING request that references it |
| Serializers.ReplacedPayment | wallet_base/wallet_base/serializers/serializers.py:86-90 | the payment takes the new number and type; an existing payment keeps its owner, a new one belongs to the user |
| Serializers.WithPayment | wallet_base/wallet_base/serializers/serializers.py:86-90 | only the chosen wallet's payment changes, and no owner changes |
| Serializers.RequestExtraction | wallet_base/wallet_base/serializers/serializers.py:61-113 | a refusal changes nothing and returns the validation error; an acceptance leaves the tables as `AfterRequest` of the old ones, replaces the payment, and keeps the tables well formed |
| Serializers.FollowUpRejected | wallet_base/wallet_base/serializers/serializers.py:67-113 | right after an accepted request, the next request is refused with "1"; the credit is still available, and the negative pending sum equals minus the credit |
| Serializers.PositivePendingDoesNotBlock | wallet_base/wallet_base/serializers/serializers.py:67-72 | a PENDING non-negative row does not change the outcome of validation |
| Serializers.OtherWalletsDoNotMatter | wallet_base/wallet_base/serializers/serializers.py:61-83 | rows of other wallets do not change the outcome of validation |
| Serializers.OtherWalletRewriteDoesNotMatter | wallet_base/wallet_base/models.py:150-204 | rewriting a row of another wallet, as a sweep settling that wallet does, does not change the outcome of validation, because every aggregate filters on the wallet |
| Serializers.ToRepresentation | wallet_base/wallet_base/serializers/serializers.py:40-50 | the nested object is null without a map or without a link; with a map and a link, it is the linked row serialized without a nested object; a link whose id the map lacks raises a lookup error |
| Views.Mask | wallet_base/wallet_base/views/views.py:76-83 | shows min(5, length) characters: a prefix of an alias, a suffix of anything else |
| Views.MaskIdempotent | wallet_base/wallet_base/views/views.py:80-83 | masking twice is masking once |
| Views.Retrieve | wallet_base/wallet_base/views/views.py:64-94 | the total is available plus not available, which equals the AVAILABLE and PENDING sum; paid off is at most 0; without a payment, the number is null and the type is empty, and otherwise the type name and the masked number are shown |
| Views.ExtractionLowersTotal | wallet_base/wallet_base/views/views.py:64-94 | after an accepted request, the available sum is unchanged, the pending sum and the total drop by the credit, and the new masked destination is shown |
| Views.Insert | wallet_base/wallet_base/views/views.py:101 | inserting a row keeps the sequence newest first and adds exactly that row |
| Views.Listing | wallet_base/wallet_base/views/views.py:101-116 | lists exactly the rows of the user's wallets that are PENDING, AVAILABLE, PROCESSED or EXPIRED, each once, newest first |
| Views.ListingUnique | wallet_base/wallet_base/views/views.py:101 | two newest-first sequences with the same members are equal, so the listing is determined |
| Views.ListingHides | wallet_base/wallet_base/views/views.py:104-116 | no listed row is CANCELLED or belongs to another user |
| Views.LinkedMap | wallet_base/wallet_base/views/views.py:138-146 | each row id in the map is mapped to that row |
| Views.SerializeAll | wallet_base/wallet_base/views/views.py:148-152 | serializing many rows succeeds exactly when each row serializes, and then yields their representations in order |
| Views.PageSerializes | wallet_base/wallet_base/views/views.py:138-152 | when every link names an existing row, any slice of the listing serializes without a lookup error; a row carries the settling row exactly when it has a link |
| Flow.ExtractionWaitsForAvailability | wallet_base/wallet_base/tasks/tasks.py:31-35 | no sweep settles a fresh extraction debit or resolves its request |
| Flow.RequestCarriesOneRequest | wallet_base/wallet_base/serializers/serializers.py:100-111 | an accepted request gives its new debit exactly one request and changes no other transaction's request count |
| Flow.ReleasedExtractionIsProcessed | wallet_base/wallet_base/tasks/tasks.py:37-60 | once its availability has passed, a sweep in which every due debit has at most one request completes and makes the extraction debit PROCESSED and linked to itself, and its requests PROCESSED |
| Flow.LaterCreditStaysAvailable | wallet_base/wallet_base/tasks/tasks.py:42-47 | a credit that became available after every due debit of its wallet was created stays AVAILABLE |

## Left out

- Floating-point amounts are modelled as exact reals. Rounding in the database sums is not modelled.
- Calendar arithmetic (`relativedelta` in years and days) is replaced by integer offsets on one time scale. The zero-day default of `available_delta_days` is modelled. The three-year default of `expiration_delta_years` is not: `expirationDelta` has no default.
- The wall clock is a parameter, as are the time of each settlement iteration and the order of the due-debit query.
- Concurrency is not modelled: overlapping sweeps, row locking, and the interleaving of a request with a settlement.
- The atomic blocks are modelled only by their effect: all or nothing.
- Logging is not modelled, nor the periodic job wrapper beyond the fact that an exception ends the sweep (`Run.completed`).
- Three exceptions are modelled: the unique-constraint violation of the request update (`Run.completed`), the lookup of element 0 for a user with no wallet (`Failure(WalletMissing)` in `Serializers.Validate`, `None` from `Views.Retrieve`), and the map lookup of a missing id (`Failure(KeyError(...))` in `Serializers.ToRepresentation`). Other exceptions, such as database errors, are not modelled.
- Random and unique values are not modelled: the `code` uuid and the wallet number generator.
- The wallet fields `datetime_created`, `tax_code` and `culture`, and the row's `code`, are not modelled.
- Encryption of the payment number (an AES field) is not modelled; the number is plain text.
- The model stores the payment destination inside its wallet. In the source it is a separate row that several wallets could share. An update through one wallet would then show in the others, and the model does not capture that.
- Field-level validation of the request body is not modelled: a missing field or a payment type outside the two choices. The model only receives well-typed input.
- Pagination is not modelled: page size 50, the page count, the next and previous page numbers, and the empty answer for a page out of range. `Views.PageSerializes` covers any slice of the listing.
- Response formatting is not modelled: time zones, JSON encoding, and the empty body of a created request.
- Throttling, authentication, the login view, URL routing and the header middleware are outside this model.
- Views.Listing: the database leaves the order of rows with the same creation time open. The model breaks such ties by listing the higher id first.
- Views.LinkedMap: its contract states only that each entry maps a row id to that row. `Views.PageSerializes` states which ids it must contain.
- Tasks.Expire, Tasks.Mature: their own contracts state only the length. The per-row effect is stated in `SweepProperties.PhasesRow`.
- Models.FirstWalletOf: the query takes element 0 of the user's wallets with no `order_by`, and `Wallet` has no default ordering, so the database chooses the wallet. The model takes the lowest id.
