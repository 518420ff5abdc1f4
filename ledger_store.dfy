/**
 * The ledger as one value: the contract, proposal, escrow and shipment tables
 * keyed by id, the unique index from payment_reference to escrow id, the
 * event ids of the webhook events recorded so far, and the next id each
 * table's auto-increment key will hand out.  Every operation of the
 * lifecycle is a function from one Store to the next (modules
 * ContractLifecycle, PaymentWebhook, ReleaseTask); class Ledgers.Ledger holds
 * the same state in fields and updates it in place.
 */
module LedgerStore {
  import opened Wrappers
  import opened Records
  import opened Money

  type Contracts = map<nat, Contract>
  type Proposals = map<nat, Proposal>
  type Escrows = map<nat, Escrow>
  type Shipments = map<nat, Shipment>

  datatype Store = Store(
    contracts: Contracts,
    proposals: Proposals,
    escrows: Escrows,
    shipments: Shipments,
    escrowByRef: map<string, nat>,
    seenEvents: set<string>,
    nextContractId: nat,
    nextProposalId: nat,
    nextEscrowId: nat,
    nextShipmentId: nat)

  /** The store after an operation, and what the operation answered. */
  datatype Step<+O> = Step(after: Store, out: O)

  /** True when some escrow belongs to contract c. */
  predicate HasEscrow(escrows: Escrows, c: nat) {
    exists e :: e in escrows && escrows[e].contractId == c
  }

  /** True when some shipment belongs to contract c. */
  predicate HasShipment(shipments: Shipments, c: nat) {
    exists i :: i in shipments && shipments[i].contractId == c
  }

  /** The escrow the unique payment_reference index names, if any. */
  function EscrowByReference(s: Store, ref: string): Option<nat> {
    if ref in s.escrowByRef && s.escrowByRef[ref] in s.escrows then Some(s.escrowByRef[ref]) else None
  }

  // ---- the ledger invariant, part by part; each part reads only the tables it names ----

  ghost predicate KeysBelow<T>(m: map<nat, T>, next: nat) {
    forall k :: k in m ==> k < next
  }

  /** Every proposal belongs to an existing contract. */
  ghost predicate ProposalsResolve(proposals: Proposals, contracts: Contracts) {
    forall p :: p in proposals ==> proposals[p].contractId in contracts
  }

  /** Every escrow belongs to an existing contract. */
  ghost predicate EscrowsResolve(escrows: Escrows, contracts: Contracts) {
    forall e :: e in escrows ==> escrows[e].contractId in contracts
  }

  /** Every shipment belongs to an existing contract. */
  ghost predicate ShipmentsResolve(shipments: Shipments, contracts: Contracts) {
    forall i :: i in shipments ==> shipments[i].contractId in contracts
  }

  /** A contract has at most one escrow. */
  ghost predicate EscrowPerContract(escrows: Escrows) {
    forall e1, e2 ::
      (e1 in escrows && e2 in escrows && escrows[e1].contractId == escrows[e2].contractId) ==> e1 == e2
  }

  /** A contract has at most one shipment. */
  ghost predicate ShipmentPerContract(shipments: Shipments) {
    forall i1, i2 ::
      (i1 in shipments && i2 in shipments && shipments[i1].contractId == shipments[i2].contractId) ==> i1 == i2
  }

  /** The payment_reference index names each escrow by its own reference, and nothing else. */
  ghost predicate RefIndexExact(escrowByRef: map<string, nat>, escrows: Escrows) {
    && (forall ref :: ref in escrowByRef ==>
          escrowByRef[ref] in escrows && escrows[escrowByRef[ref]].paymentReference == ref)
    && (forall e :: e in escrows ==>
          escrows[e].paymentReference in escrowByRef && escrowByRef[escrows[e].paymentReference] == e)
  }

  /**
   * Every contract holds at least the minimum quantity, and its total is its
   * quantity times its current price, quantized to cents.
   */
  ghost predicate TotalsConsistent(contracts: Contracts) {
    forall c :: c in contracts ==>
      && contracts[c].agreedQuantity >= MinAgreedQuantity
      && contracts[c].totalValue == TotalValue(contracts[c].agreedQuantity, contracts[c].pricePerUnit)
  }

  /** Every escrow holds its contract's total. */
  ghost predicate EscrowAmountsMatch(escrows: Escrows, contracts: Contracts) {
    forall e :: e in escrows && escrows[e].contractId in contracts ==>
      escrows[e].amount == contracts[escrows[e].contractId].totalValue
  }

  /** An accepted proposal's contract has an escrow and carries the proposal's price. */
  ghost predicate AcceptedFunded(proposals: Proposals, escrows: Escrows, contracts: Contracts) {
    forall p :: p in proposals && proposals[p].accepted ==>
      && HasEscrow(escrows, proposals[p].contractId)
      && proposals[p].contractId in contracts
      && contracts[proposals[p].contractId].pricePerUnit == proposals[p].pricePerUnit
  }

  /** No contract has two accepted proposals. */
  ghost predicate OneAcceptedPerContract(proposals: Proposals) {
    forall p1, p2 ::
      (&& p1 in proposals && p2 in proposals
       && proposals[p1].accepted && proposals[p2].accepted
       && proposals[p1].contractId == proposals[p2].contractId)
      ==> p1 == p2
  }

  ghost predicate Valid(s: Store) {
    && KeysBelow(s.contracts, s.nextContractId)
    && KeysBelow(s.proposals, s.nextProposalId)
    && KeysBelow(s.escrows, s.nextEscrowId)
    && KeysBelow(s.shipments, s.nextShipmentId)
    && ProposalsResolve(s.proposals, s.contracts)
    && EscrowsResolve(s.escrows, s.contracts)
    && ShipmentsResolve(s.shipments, s.contracts)
    && EscrowPerContract(s.escrows)
    && ShipmentPerContract(s.shipments)
    && RefIndexExact(s.escrowByRef, s.escrows)
    && TotalsConsistent(s.contracts)
    && EscrowAmountsMatch(s.escrows, s.contracts)
    && AcceptedFunded(s.proposals, s.escrows, s.contracts)
    && OneAcceptedPerContract(s.proposals)
  }

  /** The empty ledger, every table's key starting at 1. */
  function Empty(): (s: Store)
    ensures Valid(s)
    ensures s.contracts == map[] && s.escrows == map[] && s.seenEvents == {}
  {
    Store(map[], map[], map[], map[], map[], {}, 1, 1, 1, 1)
  }

  /** payment_reference is unique: two escrows with one reference are one escrow. */
  lemma ReferenceIsUnique(s: Store, e1: nat, e2: nat)
    requires RefIndexExact(s.escrowByRef, s.escrows)
    requires e1 in s.escrows && e2 in s.escrows
    requires s.escrows[e1].paymentReference == s.escrows[e2].paymentReference
    ensures e1 == e2
  {
    var ref := s.escrows[e1].paymentReference;
    assert s.escrowByRef[ref] == e1;
    assert s.escrowByRef[ref] == e2;
  }

  /** The index lookup finds exactly the escrow whose reference it is. */
  lemma EscrowByReferenceFinds(s: Store, ref: string, e: nat)
    requires RefIndexExact(s.escrowByRef, s.escrows)
    ensures EscrowByReference(s, ref) == Some(e) <==> e in s.escrows && s.escrows[e].paymentReference == ref
  {
    if e in s.escrows && s.escrows[e].paymentReference == ref {
      assert s.escrowByRef[ref] == e;
    }
  }

  // ---- the single-record updates the operations are built from ----
  // Each comes with a lemma that it keeps the invariant; the parts over
  // tables an update does not touch carry over unchanged.

  /** Records a webhook event id as seen. */
  function RecordEvent(s: Store, eventId: string): (t: Store)
    ensures t.seenEvents == s.seenEvents + {eventId}
    ensures t == s.(seenEvents := t.seenEvents)
  {
    s.(seenEvents := s.seenEvents + {eventId})
  }

  lemma RecordEventPreservesValid(s: Store, eventId: string)
    requires Valid(s)
    ensures Valid(RecordEvent(s, eventId))
  {
  }

  // An update that leaves every escrow's contract, amount and reference alone.
  ghost predicate SameEscrowShape(a: Escrows, b: Escrows) {
    && a.Keys == b.Keys
    && forall e :: e in a ==>
         && b[e].contractId == a[e].contractId
         && b[e].amount == a[e].amount
         && b[e].paymentReference == a[e].paymentReference
  }

  lemma EscrowShapeKeepsResolve(a: Escrows, b: Escrows, contracts: Contracts)
    requires SameEscrowShape(a, b) && EscrowsResolve(a, contracts)
    ensures EscrowsResolve(b, contracts)
  {
  }

  lemma EscrowShapeKeepsPerContract(a: Escrows, b: Escrows)
    requires SameEscrowShape(a, b) && EscrowPerContract(a)
    ensures EscrowPerContract(b)
  {
  }

  lemma EscrowShapeKeepsRefIndex(a: Escrows, b: Escrows, escrowByRef: map<string, nat>)
    requires SameEscrowShape(a, b) && RefIndexExact(escrowByRef, a)
    ensures RefIndexExact(escrowByRef, b)
  {
  }

  lemma EscrowShapeKeepsAmounts(a: Escrows, b: Escrows, contracts: Contracts)
    requires SameEscrowShape(a, b) && EscrowAmountsMatch(a, contracts)
    ensures EscrowAmountsMatch(b, contracts)
  {
  }

  lemma EscrowShapeKeepsHasEscrow(a: Escrows, b: Escrows, c: nat)
    requires SameEscrowShape(a, b) && HasEscrow(a, c)
    ensures HasEscrow(b, c)
  {
    var x :| x in a && a[x].contractId == c;
    assert x in b;
  }

  lemma EscrowShapeKeepsFunded(a: Escrows, b: Escrows, proposals: Proposals, contracts: Contracts)
    requires SameEscrowShape(a, b) && AcceptedFunded(proposals, a, contracts)
    ensures AcceptedFunded(proposals, b, contracts)
  {
    forall p | p in proposals && proposals[p].accepted
      ensures HasEscrow(b, proposals[p].contractId)
    {
      EscrowShapeKeepsHasEscrow(a, b, proposals[p].contractId);
    }
  }

  lemma EscrowShapePreservesValid(s: Store, escrows: Escrows)
    requires Valid(s) && SameEscrowShape(s.escrows, escrows)
    ensures Valid(s.(escrows := escrows))
  {
    EscrowShapeKeepsResolve(s.escrows, escrows, s.contracts);
    EscrowShapeKeepsPerContract(s.escrows, escrows);
    EscrowShapeKeepsRefIndex(s.escrows, escrows, s.escrowByRef);
    EscrowShapeKeepsAmounts(s.escrows, escrows, s.contracts);
    EscrowShapeKeepsFunded(s.escrows, escrows, s.proposals, s.contracts);
  }

  /** Writes a new status onto escrow e, leaving its other fields alone. */
  function SetEscrowStatus(s: Store, e: nat, status: EscrowStatus): (t: Store)
    requires e in s.escrows
    ensures t.escrows.Keys == s.escrows.Keys
    ensures t.escrows[e] == s.escrows[e].(status := status)
    ensures forall x :: x in s.escrows && x != e ==> t.escrows[x] == s.escrows[x]
    ensures t == s.(escrows := t.escrows)
  {
    s.(escrows := s.escrows[e := s.escrows[e].(status := status)])
  }

  lemma SetEscrowStatusPreservesValid(s: Store, e: nat, status: EscrowStatus)
    requires Valid(s) && e in s.escrows
    ensures Valid(SetEscrowStatus(s, e, status))
  {
    EscrowShapePreservesValid(s, SetEscrowStatus(s, e, status).escrows);
  }

  // An update of contracts that keeps every contract's quantity, price and total.
  ghost predicate SameContractTerms(a: Contracts, b: Contracts) {
    && a.Keys == b.Keys
    && forall c :: c in a ==>
         && b[c].agreedQuantity == a[c].agreedQuantity
         && b[c].pricePerUnit == a[c].pricePerUnit
         && b[c].totalValue == a[c].totalValue
  }

  // b holds every contract of a unchanged, and possibly more.
  ghost predicate ContractsExtend(a: Contracts, b: Contracts) {
    forall c :: c in a ==> c in b && b[c] == a[c]
  }

  lemma ContractKeysKeepResolve(s: Store, contracts: Contracts)
    requires Valid(s) && s.contracts.Keys <= contracts.Keys
    ensures ProposalsResolve(s.proposals, contracts)
    ensures EscrowsResolve(s.escrows, contracts)
    ensures ShipmentsResolve(s.shipments, contracts)
  {
  }

  lemma ContractTermsKeepTotals(a: Contracts, b: Contracts)
    requires SameContractTerms(a, b) && TotalsConsistent(a)
    ensures TotalsConsistent(b)
  {
  }

  lemma ContractTermsKeepAmounts(escrows: Escrows, a: Contracts, b: Contracts)
    requires SameContractTerms(a, b) && EscrowAmountsMatch(escrows, a)
    ensures EscrowAmountsMatch(escrows, b)
  {
  }

  lemma ContractTermsKeepFunded(proposals: Proposals, escrows: Escrows, a: Contracts, b: Contracts)
    requires SameContractTerms(a, b) && AcceptedFunded(proposals, escrows, a)
    ensures AcceptedFunded(proposals, escrows, b)
  {
  }

  lemma ContractTermsPreservesValid(s: Store, contracts: Contracts)
    requires Valid(s) && SameContractTerms(s.contracts, contracts)
    ensures Valid(s.(contracts := contracts))
  {
    ContractKeysKeepResolve(s, contracts);
    ContractTermsKeepTotals(s.contracts, contracts);
    ContractTermsKeepAmounts(s.escrows, s.contracts, contracts);
    ContractTermsKeepFunded(s.proposals, s.escrows, s.contracts, contracts);
  }

  lemma ContractsExtendKeepAmounts(escrows: Escrows, a: Contracts, b: Contracts)
    requires ContractsExtend(a, b) && EscrowsResolve(escrows, a) && EscrowAmountsMatch(escrows, a)
    ensures EscrowAmountsMatch(escrows, b)
  {
  }

  lemma ContractsExtendKeepFunded(proposals: Proposals, escrows: Escrows, a: Contracts, b: Contracts)
    requires ContractsExtend(a, b) && AcceptedFunded(proposals, escrows, a)
    ensures AcceptedFunded(proposals, escrows, b)
  {
  }

  /** Inserts contract c under the next contract id. */
  function InsertContract(s: Store, c: Contract): (t: Store)
    ensures t.contracts == s.contracts[s.nextContractId := c]
    ensures t.nextContractId == s.nextContractId + 1
    ensures t == s.(contracts := t.contracts, nextContractId := t.nextContractId)
  {
    s.(contracts := s.contracts[s.nextContractId := c], nextContractId := s.nextContractId + 1)
  }

  lemma InsertContractKeepsTotals(a: Contracts, id: nat, c: Contract)
    requires TotalsConsistent(a)
    requires c.agreedQuantity >= MinAgreedQuantity && c.totalValue == TotalValue(c.agreedQuantity, c.pricePerUnit)
    ensures TotalsConsistent(a[id := c])
  {
  }

  lemma InsertContractPreservesValid(s: Store, c: Contract)
    requires Valid(s)
    requires c.agreedQuantity >= MinAgreedQuantity && c.totalValue == TotalValue(c.agreedQuantity, c.pricePerUnit)
    ensures Valid(InsertContract(s, c))
  {
    var t := InsertContract(s, c);
    assert s.nextContractId !in s.contracts;
    assert ContractsExtend(s.contracts, t.contracts);
    ContractKeysKeepResolve(s, t.contracts);
    InsertContractKeepsTotals(s.contracts, s.nextContractId, c);
    ContractsExtendKeepAmounts(s.escrows, s.contracts, t.contracts);
    ContractsExtendKeepFunded(s.proposals, s.escrows, s.contracts, t.contracts);
  }

  /** Replaces contract id by c, which has the same quantity, price and total. */
  function UpdateContract(s: Store, id: nat, c: Contract): (t: Store)
    requires id in s.contracts
    ensures t.contracts == s.contracts[id := c]
    ensures t == s.(contracts := t.contracts)
  {
    s.(contracts := s.contracts[id := c])
  }

  lemma UpdateContractPreservesValid(s: Store, id: nat, c: Contract)
    requires Valid(s) && id in s.contracts
    requires c.agreedQuantity == s.contracts[id].agreedQuantity
    requires c.pricePerUnit == s.contracts[id].pricePerUnit
    requires c.totalValue == s.contracts[id].totalValue
    ensures Valid(UpdateContract(s, id, c))
  {
    ContractTermsPreservesValid(s, UpdateContract(s, id, c).contracts);
  }

  /** Inserts proposal p under the next proposal id. */
  function InsertProposal(s: Store, p: Proposal): (t: Store)
    ensures t.proposals == s.proposals[s.nextProposalId := p]
    ensures t.nextProposalId == s.nextProposalId + 1
    ensures t == s.(proposals := t.proposals, nextProposalId := t.nextProposalId)
  {
    s.(proposals := s.proposals[s.nextProposalId := p], nextProposalId := s.nextProposalId + 1)
  }

  lemma InsertUnacceptedKeepsFunded(a: Proposals, id: nat, p: Proposal, escrows: Escrows, contracts: Contracts)
    requires AcceptedFunded(a, escrows, contracts) && !p.accepted
    ensures AcceptedFunded(a[id := p], escrows, contracts)
  {
  }

  lemma InsertUnacceptedKeepsOneAccepted(a: Proposals, id: nat, p: Proposal)
    requires OneAcceptedPerContract(a) && !p.accepted
    ensures OneAcceptedPerContract(a[id := p])
  {
  }

  lemma InsertProposalPreservesValid(s: Store, p: Proposal)
    requires Valid(s) && !p.accepted && p.contractId in s.contracts
    ensures Valid(InsertProposal(s, p))
  {
    InsertUnacceptedKeepsFunded(s.proposals, s.nextProposalId, p, s.escrows, s.contracts);
    InsertUnacceptedKeepsOneAccepted(s.proposals, s.nextProposalId, p);
  }

  /** Inserts shipment sh under the next shipment id. */
  function InsertShipment(s: Store, sh: Shipment): (t: Store)
    ensures t.shipments == s.shipments[s.nextShipmentId := sh]
    ensures t.nextShipmentId == s.nextShipmentId + 1
    ensures t == s.(shipments := t.shipments, nextShipmentId := t.nextShipmentId)
  {
    s.(shipments := s.shipments[s.nextShipmentId := sh], nextShipmentId := s.nextShipmentId + 1)
  }

  lemma InsertShipmentKeepsPerContract(a: Shipments, id: nat, sh: Shipment)
    requires ShipmentPerContract(a) && id !in a && !HasShipment(a, sh.contractId)
    ensures ShipmentPerContract(a[id := sh])
  {
    assert forall j :: j in a ==> a[j].contractId != sh.contractId;
  }

  lemma InsertShipmentPreservesValid(s: Store, sh: Shipment)
    requires Valid(s) && sh.contractId in s.contracts && !HasShipment(s.shipments, sh.contractId)
    ensures Valid(InsertShipment(s, sh))
  {
    assert s.nextShipmentId !in s.shipments;
    InsertShipmentKeepsPerContract(s.shipments, s.nextShipmentId, sh);
  }

  /** Replaces shipment i by sh, which belongs to the same contract. */
  function UpdateShipment(s: Store, i: nat, sh: Shipment): (t: Store)
    requires i in s.shipments
    ensures t.shipments == s.shipments[i := sh]
    ensures t == s.(shipments := t.shipments)
  {
    s.(shipments := s.shipments[i := sh])
  }

  lemma UpdateShipmentKeepsPerContract(a: Shipments, i: nat, sh: Shipment)
    requires ShipmentPerContract(a) && i in a && sh.contractId == a[i].contractId
    ensures ShipmentPerContract(a[i := sh])
  {
  }

  lemma UpdateShipmentPreservesValid(s: Store, i: nat, sh: Shipment)
    requires Valid(s) && i in s.shipments && sh.contractId == s.shipments[i].contractId
    ensures Valid(UpdateShipment(s, i, sh))
  {
    UpdateShipmentKeepsPerContract(s.shipments, i, sh);
  }
}
