# Contract and escrow ledger of an assured-farming marketplace

This project models the ledger at the centre of the assured-farming backend.
Buyers contract with farmers for a quantity of a listed crop. Either party
proposes a price. Accepting a proposal reprices the contract and opens an
escrow for the new total. The contract is signed and the goods are shipped.
Confirming delivery releases the escrow. A payment gateway reports escrow
status changes through an idempotent webhook, and a background task releases
escrows. The model also covers the analytics read from these tables: farmer
revenue, active contracts and the proposal acceptance counts.

The model has two layers.

- **Pure transitions.** `LedgerStore.Store` holds the contract, proposal,
  escrow and shipment tables keyed by id. It also holds the unique
  `payment_reference` index, the set of webhook event ids already recorded,
  and each table's next auto-increment id. Each endpoint and task is a
  function from one store to the next that also returns the request's
  answer (`Step`). Modules ContractLifecycle, PaymentWebhook and ReleaseTask
  prove the properties about these functions.
- **The object.** Class `Ledgers.Ledger` holds the same tables as fields.
  Each endpoint or task is a method that updates the fields step by step.
  Its contract says that the new state and the answer are exactly those of
  the pure transition, and that the ledger invariant `Valid` still holds.

`LedgerStore.Valid` is the ledger invariant. Every modelled operation keeps
it. The generic update endpoint of the contract view set is not modelled; it
can write the quantity, the price and the total directly, so it can break the
parts about totals, escrow amounts and accepted prices. The parts are:

- every key lies below its table's next id;
- every proposal, escrow and shipment names an existing contract;
- a contract has at most one escrow and at most one shipment;
- the reference index is exact;
- every contract has a positive quantity, and its total is its quantity
  times its price, rounded to cents;
- every escrow holds its contract's total;
- an accepted proposal's contract has an escrow and carries that proposal's
  price;
- a contract has at most one accepted proposal.

The source stores no uniqueness constraint for the last property. It holds
because of the escrow's one-to-one constraint together with the rollback of
the atomic block in accept_proposal.

How values are represented:

- Decimals are scaled integers:
  - quantities in thousandths (`decimal_places=3`);
  - prices and amounts in hundredths (`decimal_places=2`).
- Storing the product of a quantity and a price in the two-decimal
  `total_value` column rounds it to cents. `Money.QuantizeCents` models this
  rounding with ties to even, which is Python's default decimal context. A
  database that rounds ties away from zero would differ only when the
  product falls exactly halfway between two cents.
- The current date and time are parameters (`today`, `now`).
- The payment reference that the mock gateway allocates is a parameter of
  accept_proposal (`paymentRef`).
- Listings are a parameter map, because the listing catalog is a separate
  component.

Points where the code's behaviour departs from what its field choices,
comments or tests suggest:

- **Initial status.** A created contract gets status `pending`, which is not
  among the declared choices. It is modelled as `ContractStatus.Pending`,
  for which `IsDeclaredChoice()` is false.
- **Signing.** `sign` saves the contract as active and then fails: the
  document task it calls is not imported (contracts/views.py:10). The change
  stays, and the answer is modelled as `SavedThenTaskMissing`.
- **Delivery confirmation.** `confirm_delivery` has no atomic block. The
  shipment is saved first. A contract without an escrow then fails with the
  shipment change kept (`SavedThenEscrowMissing`). The escrow is set to
  released from any status, refunded included.
- **Rounding.** The total is rounded to cents when it is stored, so it is
  not always exactly quantity × price.
- **Proposal price.** A proposal's price has no positivity check.
- **Webhook status.** The webhook writes any status among the escrow
  choices, with no forward-only check.
- **Webhook event record.** The event id is recorded before the 404 and 400
  checks. Returning from inside the atomic block commits it, so the record
  stays.
- **Required total.** total_value is a writable model field without a
  default (contracts/models.py:23), so the serializer requires it, and
  create then overwrites it with the computed total (contracts/serializers.py:70).
  The negotiation test posts a contract without it
  (contracts/tests/test_contracts.py:21-27); the walk-through in the model
  posts a total.
- **Failed escrow insert.** When the escrow insert in accept_proposal breaks
  a uniqueness constraint, the whole block rolls back (`EscrowInsertFailed`).
  This happens when the contract already has an escrow or when the reference
  is taken.

## Model

| member | source | states |
|---|---|---|
| Money.QuantizeCents | contracts/models.py:23 | the stored cents are within half a cent of the exact value, ties go to the even cent, and an exact value is kept unchanged |
| Money.TotalValue | contracts/serializers.py:70 | the stored total is within half a cent of quantity × price |
| Money.WholeQuantityTotalIsExact | contracts/serializers.py:70 | for a whole quantity the total is exactly quantity × price, with no rounding |
| Money.QuantizeCentsRoundTrip | contracts/models.py:23 | quantizing an amount already in cents gives it back |
| Records.DefaultContractStatus | contracts/models.py:26 | the model default is draft, a declared choice |
| Records.ParseEscrowStatus | payments/views.py:38-39 | a status string is accepted exactly when it is the stored name of an escrow status, and then it yields that status |
| Records.ParseEscrowStatusName | contracts/models.py:49-54 | every escrow status's stored name parses back to that status |
| Records.DefaultEscrowStatus | contracts/models.py:58 | a new escrow defaults to pending, which is not final |
| Records.NewProposal | contracts/models.py:36-42 | a new proposal is not accepted and keeps the given contract, proposer, price and message |
| Records.NewShipment | contracts/models.py:67-72 | delivered defaults to false when not given |
| Records.NewDispute | contracts/models.py:78-91 | a new dispute is open with empty resolution notes |
| Listings.Clean | marketplace/models.py:29-36 | a listing passes exactly when its quantity is positive and its harvest date is not in the past; the quantity rule is reported first |
| Listings.ValidateListing | marketplace/serializers.py:25-29 | the input passes unchanged exactly when the listing it describes passes clean, and otherwise fails with clean's error |
| ContractCreation.ValidateTerms | contracts/serializers.py:42-64 | non-numeric input, non-positive quantity, non-positive price and excess quantity are each rejected, with its own error, exactly when every earlier check passes and it fails; acceptance happens exactly when all pass, with the computed total |
| ContractCreation.ErrorFields | contracts/serializers.py:46-62 | each error is reported against the fields the serializer names |
| ContractCreation.AvailabilityFallback | contracts/serializers.py:56-64 | with quantity_available present, a quantity attribute has no effect; without it, a numeric quantity attribute is the limit; with no numeric limit, positive terms are accepted at any size |
| ContractCreation.AvailabilityBoundary | contracts/serializers.py:61-62 | exactly the available quantity is accepted, and one thousandth more is refused |
| LedgerStore.Empty | contracts/models.py:8-72 | the empty ledger satisfies the invariant |
| LedgerStore.ReferenceIsUnique | contracts/models.py:59 | two escrows with the same payment reference are the same escrow |
| LedgerStore.EscrowByReferenceFinds | payments/views.py:34 | the lookup by reference finds exactly the escrow that has that reference |
| LedgerStore.InsertContractPreservesValid | contracts/serializers.py:66-75 | inserting a contract whose total matches its terms keeps the invariant |
| LedgerStore.InsertShipmentKeepsPerContract | contracts/models.py:68 | adding a shipment to a contract that has none keeps shipments one-to-one |
| ContractLifecycle.CreateContractEffect | contracts/serializers.py:33-75 | creation succeeds exactly when the listing exists and the terms pass; on success it adds one contract under a fresh id, on that listing, bought by the requester, in status pending, with the computed total, quantity within availability, start date today unless given, no signature and no document, and nothing but the contract table and its next id changes; on failure nothing changes |
| ContractLifecycle.CreateIgnoresClientTotalStatusBuyer | contracts/serializers.py:31-73 | the client's status and buyer, both read-only, and its total_value, which create overwrites, have no effect |
| ContractLifecycle.CreateContract | contracts/serializers.py:33-75 | an unknown listing is refused; a refusal changes nothing; a success answers the fresh id of the one contract added, bought by the requester, in status pending |
| ContractLifecycle.CreateContractPreservesValid | contracts/serializers.py:66-75 | creation keeps the invariant |
| ContractLifecycle.ProposePriceEffect | contracts/views.py:19-27 | a proposal is created exactly when the contract exists and the price reads as a decimal, whatever the contract's status; it adds one unaccepted proposal by the requester under the next proposal id, which advances by one; every other table and id counter is kept |
| ContractLifecycle.ProposeIgnoresReadOnlyFields | contracts/serializers.py:17 | the client cannot set accepted, contract or proposer |
| ContractLifecycle.ProposePricePreservesValid | contracts/views.py:24 | proposing keeps the invariant |
| ContractLifecycle.ProposePrice | contracts/views.py:19-27 | an unknown contract is refused; a refusal changes nothing; a success adds one unaccepted proposal on that contract by the requester under the answered id |
| ContractLifecycle.Repriced | contracts/views.py:42-44 | the accepted contract takes the proposal's price, the total for that price and status accepted |
| ContractLifecycle.HeldEscrow | contracts/views.py:48 | the new escrow is held, for the contract's total, under the gateway's reference |
| ContractLifecycle.CommitAcceptance | contracts/views.py:39-48 | the proposal is accepted, the contract takes its price and status accepted, and one held escrow for the new total is added under the next id and indexed by the reference |
| ContractLifecycle.AcceptProposal | contracts/views.py:29-48 | an unknown contract is answered not found; anything but a commit changes nothing; a commit answers the new escrow's id, which is held and belongs to the now accepted contract |
| ContractLifecycle.AcceptAllOrNothing | contracts/views.py:29-48 | acceptance commits all of its writes exactly when the proposal belongs to the contract, the contract has no escrow and the reference is free; otherwise nothing changes; a missing or foreign proposal is reported as not found |
| ContractLifecycle.CommitReprices | contracts/views.py:40-45 | a commit accepts the proposal, reprices the contract and sets it accepted, and leaves every other proposal and contract unchanged |
| ContractLifecycle.CommitAddsOneEscrow | contracts/views.py:48 | a commit adds exactly one escrow, under a fresh id |
| ContractLifecycle.CommitEscrowRecord | contracts/views.py:47-48 | the added escrow is held, for the new total, under the gateway's reference, and the lookup by reference finds it |
| ContractLifecycle.CommitKeepsEarlierEscrows | contracts/views.py:39-48 | a commit leaves every earlier escrow unchanged |
| ContractLifecycle.CommitEscrowIsTheOnlyOne | contracts/models.py:56 | after a commit the new escrow is the contract's only escrow |
| ContractLifecycle.AcceptOnlyOnce | contracts/models.py:56 | once an acceptance has committed, a second acceptance on the same contract fails and changes nothing |
| ContractLifecycle.UnfundedHasNoAccepted | contracts/views.py:39-48 | no proposal of a contract without an escrow is accepted |
| ContractLifecycle.CommitKeepsOneAccepted | contracts/views.py:40-41 | a commit leaves at most one accepted proposal per contract |
| ContractLifecycle.AcceptPreservesValid | contracts/views.py:29-48 | acceptance keeps the invariant |
| ContractLifecycle.NegotiationScenario | contracts/tests/test_contracts.py:10-45 | buying 10 units at 25.00, with a total posted, gives a total of 250.00; the farmer accepting the buyer's proposal of 24.00 gives price 24.00, total 240.00, status accepted and one held escrow of 240.00 |
| ContractLifecycle.SignEffect | contracts/views.py:52-60 | signing an existing contract sets its signature time and status active from any status and changes no other field or record; the change stays although the request fails; an unknown contract changes nothing |
| ContractLifecycle.SignPreservesValid | contracts/views.py:56-58 | signing keeps the invariant |
| ContractLifecycle.Sign | contracts/views.py:52-60 | an unknown contract is answered not found; no contract is added or removed; an existing one becomes active with the signature time |
| ContractLifecycle.CreateShipmentEffect | contracts/models.py:67-72 | a shipment is created exactly when its contract exists and has none; it is then the contract's only shipment, and nothing else changes |
| ContractLifecycle.CreateShipmentPreservesValid | contracts/models.py:68 | creating a shipment keeps the invariant |
| ContractLifecycle.CreateShipment | contracts/models.py:67-72 | a shipment is created exactly when the contract exists and has none; a refusal changes nothing; the new shipment belongs to the contract |
| ContractLifecycle.Delivered | contracts/views.py:79-80 | the shipment becomes delivered; a given delivery date replaces the old one, and otherwise the old one stays |
| ContractLifecycle.ConfirmDeliveryEffect | contracts/views.py:76-85 | the shipment is saved as delivered; the contract's escrow is released from any status, and only its status changes; without an escrow the shipment change stays and the request fails; nothing but the shipment and escrow tables changes |
| ContractLifecycle.ConfirmDeliveryReleases | contracts/views.py:83-85 | the escrow released is the contract's one escrow, and only its status changes |
| ContractLifecycle.ConfirmDeliveryPreservesValid | contracts/views.py:76-85 | confirming delivery keeps the invariant |
| ContractLifecycle.ConfirmDelivery | contracts/views.py:76-85 | an unknown shipment is answered not found; otherwise the shipment is delivered, the request succeeds exactly when the contract has an escrow, and no contract changes |
| PaymentWebhook.HttpStatus | payments/views.py:23-44 | already processed and processed answer 200, missing fields and invalid status answer 400, and an unknown reference answers 404 |
| PaymentWebhook.Webhook | payments/views.py:17-44 | missing fields and an event already recorded change nothing; a complete callback leaves its event recorded; only escrows and the event set can change, and no escrow is added or removed |
| PaymentWebhook.MissingFieldsChangeNothing | payments/views.py:23-24 | a callback with an absent or empty field is refused exactly then and changes nothing |
| PaymentWebhook.DuplicateEventChangesNothing | payments/views.py:27-28 | a callback whose event id is already recorded answers "already processed" exactly then and changes nothing |
| PaymentWebhook.NewEventIsRecorded | payments/views.py:31-39 | a new event id is recorded whatever follows; the answer is 404 exactly when no escrow has the reference, and 400 exactly when one does but the status is unknown; in both cases the record is the only change |
| PaymentWebhook.ProcessedWritesStatus | payments/views.py:41-44 | a processed callback writes the named status onto the escrow with that reference and changes nothing else but the event record |
| PaymentWebhook.ReplayIsIdempotent | payments/views.py:26-32 | replaying a complete callback answers "already processed" and changes nothing |
| PaymentWebhook.WebhookPreservesValid | payments/views.py:31-42 | the webhook keeps the invariant |
| PaymentWebhook.ReleasedCanReturnToHeld | payments/views.py:38-42 | with no forward-only check, a new event sets a released escrow back to held |
| PaymentWebhook.PendingHeldReleasedScenario | payments/tests/test_webhook.py:53-90 | a pending escrow becomes held, then released, and replaying the first event afterwards changes nothing |
| ReleaseTask.ReleaseEffect | payments/tasks_release.py:9-18 | an unknown id answers not_found and a released or refunded escrow answers already_finalized, and neither changes anything; a pending or held escrow becomes released, with no other change; the three tags are distinct |
| ReleaseTask.ReleaseEscrow | payments/tasks_release.py:7-18 | not_found exactly for an unknown id; anything but a release changes nothing; a release leaves the escrow released; no escrow is added or removed |
| ReleaseTask.FinalStatesAbsorb | payments/tasks_release.py:12-13 | a released or refunded escrow is never changed by the release task |
| ReleaseTask.ReleaseIsIdempotent | payments/tasks_release.py:12-16 | running the release task twice is the same as running it once, and the second run answers already_finalized for any existing escrow |
| ReleaseTask.ReleasePreservesValid | payments/tasks_release.py:14-15 | the release task keeps the invariant |
| Analytics.FarmerRevenue | analytics/views.py:13-23 | every non-farmer is refused with 403; for a farmer the revenue is the sum of the amounts of every escrow in the table that is released and whose contract's listing is theirs |
| Analytics.RevenueIsAmountSum | analytics/views.py:18-21 | the revenue below an id is the sum of the amounts of the counted escrows below it, each counted once |
| Analytics.AmountSumRemove | analytics/views.py:21 | taking one escrow out of the sum takes away exactly its amount, whichever escrow it is |
| Analytics.EarningIdsCoverTable | analytics/views.py:18-20 | the escrow ids below the next id cover every counted escrow of the table |
| Analytics.RevenueZeroWhenNothingReleased | analytics/views.py:18-21 | with no released escrow on the farmer's listings, the revenue is 0 |
| Analytics.RevenueNonNegative | analytics/views.py:18-21 | with non-negative amounts, the revenue is not negative |
| Analytics.RevenueFrame | analytics/views.py:18-21 | the revenue depends only on which escrows count and on their amounts |
| Analytics.RevenueAfterStatusChange | analytics/views.py:18-21 | changing one escrow's status moves the revenue by that escrow's amount, as it starts or stops counting |
| Analytics.ReleaseRaisesRevenue | analytics/views.py:18-21 | a release by the release task of an escrow on the farmer's listing raises their revenue by exactly its amount, and no other farmer's revenue changes |
| Analytics.ActiveCountIsSetSize | analytics/views.py:31-34 | the active count is the number of distinct contracts where the user is buyer or listing farmer and the status is accepted or active |
| Analytics.ActiveCountFrame | analytics/views.py:31-34 | the count depends only on which contracts are active for the user |
| Analytics.ActiveCountAfterUpdate | analytics/views.py:31-34 | changing one contract moves the count by at most one, as it enters or leaves the set |
| Analytics.SignCountsOnce | analytics/views.py:31-34 | signing the user's contract raises their count by one unless it was already accepted or active |
| Analytics.ActiveContracts | analytics/views.py:28-36 | the answer is the number of distinct contracts in the table that are accepted or active and have the user as buyer or listing farmer |
| Analytics.ActiveIdsCoverTable | analytics/views.py:31-34 | the ids below the next contract id cover every contract of the table |
| Analytics.AcceptedAtMostTotal | analytics/views.py:64-65 | the user's accepted proposals never outnumber all of their proposals |
| Analytics.AcceptanceCountsOf | analytics/views.py:64-65 | the counts are the numbers of the user's accepted proposals and of all the user's proposals in the table, the first at most the second |
| Analytics.ProposalCountIsSetSize | analytics/views.py:64-65 | a count is the number of distinct proposals that meet its filter |
| Analytics.ProposalIdsCoverTable | analytics/views.py:64-65 | the ids below the next proposal id cover every proposal of the table |
| Analytics.AcceptanceRate | analytics/views.py:67 | the rate is 0 without proposals, and otherwise accepted over total times 100, between 0 and 100 |
| Analytics.ProposalsAcceptanceRate | analytics/views.py:58-67 | the user's rate lies between 0 and 100 |
| Analytics.ProposalCountFrame | analytics/views.py:64-65 | adding a proposal above the counted ids leaves the counts unchanged |
| Analytics.ProposeCountsOneMore | analytics/views.py:64-65 | a new proposal adds one to the proposer's total and nothing to their accepted count |
| Ledgers.Ledger.constructor | contracts/models.py:8-72 | a new ledger is empty and valid |
| Ledgers.Ledger.CreateContract | contracts/serializers.py:33-75 | the new state and answer are those of creation; the invariant holds |
| Ledgers.Ledger.AddContract | contracts/serializers.py:75 | the insert of the new contract under the next id |
| Ledgers.Ledger.ProposePrice | contracts/views.py:19-27 | the new state and answer are those of propose_price; the invariant holds |
| Ledgers.Ledger.AddProposal | contracts/views.py:24 | the insert of the new proposal under the next id |
| Ledgers.Ledger.AcceptProposal | contracts/views.py:29-50 | the new state and answer are those of accept_proposal; the invariant holds |
| Ledgers.Ledger.CommitAcceptance | contracts/views.py:39-48 | the writes of the atomic block, all together |
| Ledgers.Ledger.Sign | contracts/views.py:52-62 | the new state and answer are those of sign; the invariant holds |
| Ledgers.Ledger.CreateShipment | contracts/models.py:67-72 | the new state and answer are those of shipment creation; the invariant holds |
| Ledgers.Ledger.AddShipment | contracts/models.py:67-72 | the insert of the new shipment under the next id |
| Ledgers.Ledger.ConfirmDelivery | contracts/views.py:76-87 | the new state and answer are those of confirm_delivery; the invariant holds |
| Ledgers.Ledger.MarkDelivered | contracts/views.py:79-81 | the shipment save of confirm_delivery, on its own |
| Ledgers.Ledger.SetStatus | contracts/views.py:84-85 | one escrow's status is written and nothing else changes |
| Ledgers.Ledger.Webhook | payments/views.py:17-44 | the new state and answer are those of the webhook; the invariant holds |
| Ledgers.Ledger.ReleaseEscrow | payments/tasks_release.py:7-18 | the new state and answer are those of one run of the release task; the invariant holds |

## Left out

- Concurrency is not modelled: the row locks (`select_for_update`), racing requests, and the IntegrityError a concurrent duplicate webhook event would raise. Every request and every task run is one step.
- Notifications (`send_email_task`), PDF generation, SMS and the Celery task queue are not modelled. None of them changes the ledger.
- The gateway's uuid-based reference generation is not modelled. The reference is a parameter, and the float amount passed to the gateway is not used.
- Authentication, permission classes, the accounts app, the middleware and migrations are not modelled, and neither is the URL routing. Only the farmer role check of farmer_revenue is kept.
- The serializers' field-level validation, which runs before `create`, is not modelled. This includes required fields such as total_value, maximum digits, decimal places and listing_id resolution. Quantities and prices arrive already scaled or as NotNumeric.
- Dispute create, read, update and delete are not modelled; only the record and its defaults are.
- The generic list, retrieve, update and delete endpoints of the view sets are not modelled. Shipment creation is kept because confirm_delivery needs a shipment.
- avg_delivery_time (analytics/views.py:41-53) is not modelled. It is not part of the ledger core, and it refers to `models.F`, which the module never imports.
- Analytics.ProposalsAcceptanceRate: the rate is an exact real. Python's float division and the `.2f` percentage formatting are not modelled. The unused `user` query parameter is ignored, as in the source.
- ReleaseTask.ReleaseEscrow: the Celery retry settings are not modelled, because the release task never calls retry.
- Ledgers.Ledger.AcceptProposal: deciding beforehand whether the escrow insert would break a uniqueness constraint stands in for the database raising IntegrityError and rolling back within the same atomic block. The outcome is the same.
- ContractLifecycle.AcceptProposal: a proposal_id that is not an integer makes the proposal lookup raise ValueError (contracts/views.py:32-34), so the request fails with a server error and nothing changes. The model takes the id as an optional number and cannot represent that input.
- ContractLifecycle.ConfirmDelivery: a delivery_date that does not parse as a date makes the shipment save raise a validation error (contracts/views.py:80-81) before any write, so the request fails with a server error, nothing is saved and the escrow is not released. The model takes the date as an optional Date and cannot represent that input.
- Money.TotalValue: a total of any size is stored. total_value allows 14 digits, 12 before the point (contracts/models.py:23), and a product of a large quantity and a large price can exceed that; saving it then fails, in contract creation and in the repricing of accept_proposal, whose atomic block rolls back. The model has no such failure.
- Money.QuantizeCents: ties round to even, as Python's decimal context does. A database that rounds ties away from zero would store a different cent on exact half-cent products.
