/**
 * The contract endpoints (contracts/views.py, with ContractSerializer.create
 * from contracts/serializers.py) as functions from one Store to the next:
 * create a contract, propose a price, accept a proposal, sign, create a
 * shipment and confirm its delivery.  None of them looks at the contract's
 * status.  Accepting a proposal is one atomic step: it commits all of its
 * writes or none.
 */
module ContractLifecycle {
  import opened Wrappers
  import opened Records
  import opened Money
  import opened Listings
  import opened ContractCreation
  import opened LedgerStore

  // ---------------------------------------------------------------------
  // Contract creation
  // ---------------------------------------------------------------------

  /**
   * What a client posts to create a contract.  total_value, status and buyer
   * are carried so that the model can show they are ignored: the total is
   * recomputed, and status and buyer are read-only.
   */
  datatype ContractRequest = ContractRequest(
    listingId: nat,
    agreedQuantity: RawDecimal,
    pricePerUnit: RawDecimal,
    totalValue: RawDecimal,
    startDate: Option<Date>,
    endDate: Option<Date>,
    status: Option<ContractStatus>,
    buyer: Option<UserId>)

  /**
   * Contract creation: the listing must exist, the serializer's checks must
   * pass against its quantity_available, and then a contract is inserted for
   * the requester with the server-computed total and status pending.
   */
  function CreateContract(s: Store, listings: map<nat, Listing>, requester: UserId,
                          req: ContractRequest, today: Date, now: Time): (st: Step<Result<nat, CreateError>>)
    ensures st.out == Err(UnknownListing) <==> req.listingId !in listings
    ensures st.out.Err? ==> st.after == s
    ensures st.out.Ok? ==>
              && st.out.value == s.nextContractId
              && st.after.contracts.Keys == s.contracts.Keys + {s.nextContractId}
              && s.nextContractId in st.after.contracts
              && st.after.contracts[s.nextContractId].buyer == requester
              && st.after.contracts[s.nextContractId].status == Pending
  {
    if req.listingId !in listings then Step(s, Err(UnknownListing))
    else
      match ValidateTerms(req.agreedQuantity, req.pricePerUnit,
                          Some(Numeric(listings[req.listingId].quantityAvailable)), None)
      case Err(e) => Step(s, Err(e))
      case Ok(t) =>
        var c := Contract(req.listingId, requester, t.quantity, t.pricePerUnit, t.totalValue,
                          if req.startDate.Some? then req.startDate.value else today,
                          req.endDate, Pending, None, None, now);
        Step(InsertContract(s, c), Ok(s.nextContractId))
  }

  /**
   * A creation succeeds exactly when the listing exists and the terms pass;
   * it then adds one contract under a fresh id, on that listing, bought by the
   * requester, in status pending (outside the declared choices), whose total
   * is the quantity times the price, starting today unless a start date is
   * given, unsigned and without a document; nothing else in the ledger but
   * the contract table and its next id changes; a failure changes nothing.
   */
  lemma CreateContractEffect(s: Store, listings: map<nat, Listing>, requester: UserId,
                             req: ContractRequest, today: Date, now: Time)
    requires Valid(s)
    ensures var st := CreateContract(s, listings, requester, req, today, now);
      && (st.out.Ok? <==>
            && req.listingId in listings
            && ValidateTerms(req.agreedQuantity, req.pricePerUnit,
                             Some(Numeric(listings[req.listingId].quantityAvailable)), None).Ok?)
      && (st.out.Err? ==> st.after == s)
      && (st.out.Ok? ==>
            var id := st.out.value;
            var c := st.after.contracts[id];
            && id !in s.contracts
            && st.after.contracts == s.contracts[id := c]
            && c.buyer == requester
            && c.status == Pending && !c.status.IsDeclaredChoice()
            && c.agreedQuantity == req.agreedQuantity.scaled
            && c.pricePerUnit == req.pricePerUnit.scaled
            && c.totalValue == TotalValue(req.agreedQuantity.scaled, req.pricePerUnit.scaled)
            && c.agreedQuantity <= listings[req.listingId].quantityAvailable
            && c.listingId == req.listingId
            && c.startDate == (if req.startDate.Some? then req.startDate.value else today)
            && c.endDate == req.endDate
            && c.document.None? && c.signedAt.None? && c.createdAt == now
            && st.after == s.(contracts := st.after.contracts, nextContractId := s.nextContractId + 1))
  {
  }

  /**
   * The client's status and buyer (read-only fields) and its total_value
   * (overwritten by the server-side total) have no effect on creation.
   */
  lemma CreateIgnoresClientTotalStatusBuyer(s: Store, listings: map<nat, Listing>, requester: UserId,
                                    req: ContractRequest, total: RawDecimal,
                                    status: Option<ContractStatus>, buyer: Option<UserId>,
                                    today: Date, now: Time)
    ensures CreateContract(s, listings, requester, req, today, now)
         == CreateContract(s, listings, requester, req.(totalValue := total, status := status, buyer := buyer), today, now)
  {
  }

  lemma CreateContractPreservesValid(s: Store, listings: map<nat, Listing>, requester: UserId,
                                     req: ContractRequest, today: Date, now: Time)
    requires Valid(s)
    ensures Valid(CreateContract(s, listings, requester, req, today, now).after)
  {
    var st := CreateContract(s, listings, requester, req, today, now);
    if st.out.Ok? {
      InsertContractPreservesValid(s, st.after.contracts[s.nextContractId]);
    }
  }

  // ---------------------------------------------------------------------
  // Price proposals
  // ---------------------------------------------------------------------

  /**
   * What a client posts as a proposal.  accepted, contract and proposer are
   * read-only and carried only to show that they are ignored.
   */
  datatype ProposalRequest = ProposalRequest(
    pricePerUnit: RawDecimal,
    message: string,
    accepted: Option<bool>,
    contract: Option<nat>,
    proposer: Option<UserId>)

  datatype ProposeOutcome = ProposalCreated(id: nat) | ProposeContractNotFound | ProposalInvalid

  /** propose_price: insert one proposal for this contract by the requester, whatever the contract's status. */
  function ProposePrice(s: Store, contractId: nat, requester: UserId, req: ProposalRequest, now: Time): (st: Step<ProposeOutcome>)
    ensures st.out == ProposeContractNotFound <==> contractId !in s.contracts
    ensures !st.out.ProposalCreated? ==> st.after == s
    ensures st.out.ProposalCreated? ==>
              && st.out.id == s.nextProposalId
              && st.after.proposals.Keys == s.proposals.Keys + {st.out.id}
              && st.out.id in st.after.proposals
              && st.after.proposals[st.out.id].contractId == contractId
              && st.after.proposals[st.out.id].proposer == requester
              && !st.after.proposals[st.out.id].accepted
  {
    if contractId !in s.contracts then Step(s, ProposeContractNotFound)
    else if req.pricePerUnit.NotNumeric? then Step(s, ProposalInvalid)
    else
      var p := NewProposal(contractId, requester, req.pricePerUnit.scaled, req.message, now);
      Step(InsertProposal(s, p), ProposalCreated(s.nextProposalId))
  }

  /**
   * A proposal is created exactly when the contract exists and the price reads
   * as a decimal; it adds one unaccepted proposal under a fresh id, bound to
   * this contract and the requester; nothing else changes.
   */
  lemma ProposePriceEffect(s: Store, contractId: nat, requester: UserId, req: ProposalRequest, now: Time)
    requires Valid(s)
    ensures var st := ProposePrice(s, contractId, requester, req, now);
      && (st.out.ProposalCreated? <==> contractId in s.contracts && req.pricePerUnit.Numeric?)
      && (!st.out.ProposalCreated? ==> st.after == s)
      && (st.out.ProposalCreated? ==>
            && st.out.id !in s.proposals
            && st.after.proposals == s.proposals[st.out.id := Proposal(contractId, requester, req.pricePerUnit.scaled, req.message, now, false)]
            && st.after.contracts == s.contracts && st.after.escrows == s.escrows
            && st.after.shipments == s.shipments && st.after.escrowByRef == s.escrowByRef
            && st.after.seenEvents == s.seenEvents
            && st.after == s.(proposals := st.after.proposals, nextProposalId := s.nextProposalId + 1))
  {
  }

  /** A client cannot set a proposal's accepted flag, contract or proposer. */
  lemma ProposeIgnoresReadOnlyFields(s: Store, contractId: nat, requester: UserId, req: ProposalRequest,
                                     accepted: Option<bool>, contract: Option<nat>, proposer: Option<UserId>, now: Time)
    ensures ProposePrice(s, contractId, requester, req, now)
         == ProposePrice(s, contractId, requester, req.(accepted := accepted, contract := contract, proposer := proposer), now)
  {
  }

  lemma ProposePricePreservesValid(s: Store, contractId: nat, requester: UserId, req: ProposalRequest, now: Time)
    requires Valid(s)
    ensures Valid(ProposePrice(s, contractId, requester, req, now).after)
  {
    if contractId in s.contracts && req.pricePerUnit.Numeric? {
      InsertProposalPreservesValid(s, NewProposal(contractId, requester, req.pricePerUnit.scaled, req.message, now));
    }
  }

  // ---------------------------------------------------------------------
  // Accepting a proposal
  // ---------------------------------------------------------------------

  datatype AcceptOutcome =
    | ProposalAccepted(escrowId: nat)
    | AcceptContractNotFound
    | ProposalNotFound
    | EscrowInsertFailed   // the escrow insert violated a uniqueness constraint; the atomic block rolled back

  /** The contract after accepting a proposal at `price`: its price, the total for that price, status accepted. */
  function Repriced(c: Contract, price: int): (c': Contract)
    ensures c'.pricePerUnit == price && c'.status == Accepted
    ensures c'.totalValue == TotalValue(c.agreedQuantity, price)
    ensures c' == c.(pricePerUnit := price, totalValue := c'.totalValue, status := Accepted)
  {
    c.(pricePerUnit := price, totalValue := TotalValue(c.agreedQuantity, price), status := Accepted)
  }

  /** The escrow accept_proposal inserts: held, for the contract's new total, under the gateway's reference. */
  function HeldEscrow(contractId: nat, c: Contract, paymentRef: string, now: Time): (e: Escrow)
    ensures e.status == Held && e.amount == c.totalValue && e.contractId == contractId
    ensures e.paymentReference == paymentRef && e.createdAt == now
  {
    Escrow(contractId, c.totalValue, Held, paymentRef, now)
  }

  /** The writes of the atomic block, all committed together. */
  function CommitAcceptance(s: Store, contractId: nat, proposalId: nat, paymentRef: string, now: Time): (t: Store)
    requires contractId in s.contracts && proposalId in s.proposals
    ensures proposalId in t.proposals && contractId in t.contracts && s.nextEscrowId in t.escrows
    ensures paymentRef in t.escrowByRef
    ensures t.proposals[proposalId].accepted
    ensures t.contracts[contractId].status == Accepted
    ensures t.contracts[contractId].pricePerUnit == s.proposals[proposalId].pricePerUnit
    ensures t.escrows[s.nextEscrowId].contractId == contractId && t.escrows[s.nextEscrowId].status == Held
    ensures t.escrows[s.nextEscrowId].amount == t.contracts[contractId].totalValue
    ensures t.escrowByRef[paymentRef] == s.nextEscrowId && t.nextEscrowId == s.nextEscrowId + 1
  {
    var c' := Repriced(s.contracts[contractId], s.proposals[proposalId].pricePerUnit);
    s.(proposals := s.proposals[proposalId := s.proposals[proposalId].(accepted := true)],
       contracts := s.contracts[contractId := c'],
       escrows := s.escrows[s.nextEscrowId := HeldEscrow(contractId, c', paymentRef, now)],
       escrowByRef := s.escrowByRef[paymentRef := s.nextEscrowId],
       nextEscrowId := s.nextEscrowId + 1)
  }

  /**
   * accept_proposal with the reference `paymentRef` the payment gateway
   * allocated.  The proposal (an absent proposal_id finds none) is looked up
   * among this contract's proposals; then, atomically, it is marked
   * accepted, the contract takes its price, the recomputed total and status
   * accepted, and one held escrow for the new total is inserted.  The insert
   * fails when the contract already has an escrow (one-to-one) or the
   * reference is taken (unique), and then none of the block's writes persist.
   */
  function AcceptProposal(s: Store, contractId: nat, proposalId: Option<nat>, paymentRef: string, now: Time): (st: Step<AcceptOutcome>)
    ensures st.out == AcceptContractNotFound <==> contractId !in s.contracts
    ensures !st.out.ProposalAccepted? ==> st.after == s
    ensures st.out.ProposalAccepted? ==>
              && st.out.escrowId == s.nextEscrowId
              && st.out.escrowId in st.after.escrows && contractId in st.after.contracts
              && st.after.escrows[st.out.escrowId].contractId == contractId
              && st.after.escrows[st.out.escrowId].status == Held
              && st.after.contracts[contractId].status == Accepted
  {
    if contractId !in s.contracts then Step(s, AcceptContractNotFound)
    else if proposalId.None? || proposalId.value !in s.proposals
         || s.proposals[proposalId.value].contractId != contractId then Step(s, ProposalNotFound)
    else if HasEscrow(s.escrows, contractId) || paymentRef in s.escrowByRef then Step(s, EscrowInsertFailed)
    else Step(CommitAcceptance(s, contractId, proposalId.value, paymentRef, now), ProposalAccepted(s.nextEscrowId))
  }

  /** The conditions under which the atomic block commits. */
  ghost predicate CanCommit(s: Store, contractId: nat, proposalId: nat, paymentRef: string) {
    && contractId in s.contracts
    && proposalId in s.proposals && s.proposals[proposalId].contractId == contractId
    && !HasEscrow(s.escrows, contractId) && paymentRef !in s.escrowByRef
  }

  /**
   * Acceptance is all-or-nothing: it commits exactly when the proposal
   * belongs to the contract, the contract has no escrow yet and the reference
   * is free, and anything else leaves the ledger as it was.
   */
  lemma AcceptAllOrNothing(s: Store, contractId: nat, proposalId: Option<nat>, paymentRef: string, now: Time)
    ensures var st := AcceptProposal(s, contractId, proposalId, paymentRef, now);
      && (st.out.ProposalAccepted? <==> proposalId.Some? && CanCommit(s, contractId, proposalId.value, paymentRef))
      && (st.out.ProposalAccepted? ==> st.after == CommitAcceptance(s, contractId, proposalId.value, paymentRef, now))
      && (!st.out.ProposalAccepted? ==> st.after == s)
      && (st.out == ProposalNotFound <==>
            && contractId in s.contracts
            && (proposalId.None? || proposalId.value !in s.proposals || s.proposals[proposalId.value].contractId != contractId))
  {
  }

  /**
   * A commit accepts the proposal, gives the contract its price, the total
   * for that price and status accepted, and changes no other proposal or
   * contract.
   */
  lemma CommitReprices(s: Store, contractId: nat, proposalId: nat, paymentRef: string, now: Time)
    requires CanCommit(s, contractId, proposalId, paymentRef)
    ensures var t := CommitAcceptance(s, contractId, proposalId, paymentRef, now);
      var price := s.proposals[proposalId].pricePerUnit;
      && t.proposals.Keys == s.proposals.Keys && t.contracts.Keys == s.contracts.Keys
      && t.proposals[proposalId] == s.proposals[proposalId].(accepted := true)
      && t.contracts[contractId].pricePerUnit == price
      && t.contracts[contractId].totalValue == TotalValue(s.contracts[contractId].agreedQuantity, price)
      && t.contracts[contractId].status == Accepted
      && (forall q :: q in s.proposals && q != proposalId ==> t.proposals[q] == s.proposals[q])
      && (forall c :: c in s.contracts && c != contractId ==> t.contracts[c] == s.contracts[c])
      && t.shipments == s.shipments && t.seenEvents == s.seenEvents
  {
  }

  /** A commit adds exactly one escrow, under a fresh id. */
  lemma CommitAddsOneEscrow(s: Store, contractId: nat, proposalId: nat, paymentRef: string, now: Time)
    requires KeysBelow(s.escrows, s.nextEscrowId) && CanCommit(s, contractId, proposalId, paymentRef)
    ensures s.nextEscrowId !in s.escrows
    ensures var t := CommitAcceptance(s, contractId, proposalId, paymentRef, now);
      t.escrows.Keys == s.escrows.Keys + {s.nextEscrowId} && |t.escrows| == |s.escrows| + 1
  {
    assert s.nextEscrowId !in s.escrows;
    InsertFreshKey(s.escrows, s.nextEscrowId, HeldEscrow(contractId, Repriced(s.contracts[contractId], s.proposals[proposalId].pricePerUnit), paymentRef, now));
  }

  lemma InsertFreshKey<V>(m: map<nat, V>, k: nat, v: V)
    requires k !in m
    ensures m[k := v].Keys == m.Keys + {k} && |m[k := v]| == |m| + 1
  {
  }

  /**
   * The escrow a commit adds is held, for the contract's new total, under the
   * gateway's reference, and the reference index finds it.
   */
  lemma CommitEscrowRecord(s: Store, contractId: nat, proposalId: nat, paymentRef: string, now: Time)
    requires CanCommit(s, contractId, proposalId, paymentRef)
    ensures var t := CommitAcceptance(s, contractId, proposalId, paymentRef, now);
      t.escrows[s.nextEscrowId] == Escrow(contractId, t.contracts[contractId].totalValue, Held, paymentRef, now)
    ensures var t := CommitAcceptance(s, contractId, proposalId, paymentRef, now);
      EscrowByReference(t, paymentRef) == Some(s.nextEscrowId)
  {
  }

  /** A commit leaves every earlier escrow as it was. */
  lemma CommitKeepsEarlierEscrows(s: Store, contractId: nat, proposalId: nat, paymentRef: string, now: Time)
    requires KeysBelow(s.escrows, s.nextEscrowId) && CanCommit(s, contractId, proposalId, paymentRef)
    ensures var t := CommitAcceptance(s, contractId, proposalId, paymentRef, now);
      forall x :: x in s.escrows ==> x in t.escrows && t.escrows[x] == s.escrows[x]
  {
    assert s.nextEscrowId !in s.escrows;
  }

  /** After a commit the new escrow is the contract's only one. */
  lemma CommitEscrowIsTheOnlyOne(s: Store, contractId: nat, proposalId: nat, paymentRef: string, now: Time)
    requires CanCommit(s, contractId, proposalId, paymentRef)
    ensures var t := CommitAcceptance(s, contractId, proposalId, paymentRef, now);
      forall x :: x in t.escrows && t.escrows[x].contractId == contractId ==> x == s.nextEscrowId
  {
    assert forall x :: x in s.escrows ==> s.escrows[x].contractId != contractId;
  }

  /** Once a contract has an escrow, no acceptance on it can commit: a second accept fails and changes nothing. */
  lemma AcceptOnlyOnce(s: Store, contractId: nat, p1: Option<nat>, ref1: string, now1: Time,
                       p2: Option<nat>, ref2: string, now2: Time)
    requires AcceptProposal(s, contractId, p1, ref1, now1).out.ProposalAccepted?
    ensures var t := AcceptProposal(s, contractId, p1, ref1, now1).after;
      !AcceptProposal(t, contractId, p2, ref2, now2).out.ProposalAccepted?
      && AcceptProposal(t, contractId, p2, ref2, now2).after == t
  {
    var t := AcceptProposal(s, contractId, p1, ref1, now1).after;
    assert t.escrows[s.nextEscrowId].contractId == contractId;
    assert HasEscrow(t.escrows, contractId);
  }

  // The invariant after a commit, part by part.  In each lemma the maps
  // after the commit are named by their construction.

  lemma CommitKeepsOneEscrowPerContract(escrows: Escrows, id: nat, e: Escrow)
    requires EscrowPerContract(escrows) && id !in escrows && !HasEscrow(escrows, e.contractId)
    ensures EscrowPerContract(escrows[id := e])
  {
    assert forall x :: x in escrows ==> escrows[x].contractId != e.contractId;
  }

  lemma CommitKeepsRefIndex(escrowByRef: map<string, nat>, escrows: Escrows, id: nat, e: Escrow)
    requires RefIndexExact(escrowByRef, escrows) && id !in escrows && e.paymentReference !in escrowByRef
    ensures RefIndexExact(escrowByRef[e.paymentReference := id], escrows[id := e])
  {
    assert forall x :: x in escrows ==> escrows[x].paymentReference != e.paymentReference;
  }

  lemma CommitKeepsTotals(contracts: Contracts, cid: nat, price: int)
    requires TotalsConsistent(contracts) && cid in contracts
    ensures TotalsConsistent(contracts[cid := Repriced(contracts[cid], price)])
  {
  }

  lemma CommitKeepsAmounts(escrows: Escrows, contracts: Contracts, cid: nat, price: int, id: nat, ref: string, now: Time)
    requires EscrowAmountsMatch(escrows, contracts) && cid in contracts && !HasEscrow(escrows, cid)
    ensures var c' := Repriced(contracts[cid], price);
      EscrowAmountsMatch(escrows[id := HeldEscrow(cid, c', ref, now)], contracts[cid := c'])
  {
    assert forall x :: x in escrows ==> escrows[x].contractId != cid;
  }

  /** No proposal of a contract without an escrow is accepted. */
  lemma UnfundedHasNoAccepted(s: Store, cid: nat)
    requires AcceptedFunded(s.proposals, s.escrows, s.contracts) && !HasEscrow(s.escrows, cid)
    ensures forall q :: q in s.proposals && s.proposals[q].contractId == cid ==> !s.proposals[q].accepted
  {
  }

  lemma CommitKeepsFunded(s: Store, contractId: nat, proposalId: nat, paymentRef: string, now: Time)
    requires AcceptedFunded(s.proposals, s.escrows, s.contracts) && KeysBelow(s.escrows, s.nextEscrowId)
    requires CanCommit(s, contractId, proposalId, paymentRef)
    ensures var t := CommitAcceptance(s, contractId, proposalId, paymentRef, now);
      AcceptedFunded(t.proposals, t.escrows, t.contracts)
  {
    var t := CommitAcceptance(s, contractId, proposalId, paymentRef, now);
    UnfundedHasNoAccepted(s, contractId);
    assert s.nextEscrowId in t.escrows && t.escrows[s.nextEscrowId].contractId == contractId;
    forall q | q in t.proposals && t.proposals[q].accepted
      ensures HasEscrow(t.escrows, t.proposals[q].contractId)
    {
      if q == proposalId {
        assert t.proposals[q].contractId == contractId;
      } else {
        var x :| x in s.escrows && s.escrows[x].contractId == s.proposals[q].contractId;
        assert x != s.nextEscrowId;
        assert x in t.escrows && t.escrows[x] == s.escrows[x];
      }
    }
  }

  lemma CommitKeepsOneAccepted(s: Store, contractId: nat, proposalId: nat)
    requires OneAcceptedPerContract(s.proposals) && AcceptedFunded(s.proposals, s.escrows, s.contracts)
    requires proposalId in s.proposals && s.proposals[proposalId].contractId == contractId
    requires !HasEscrow(s.escrows, contractId)
    ensures OneAcceptedPerContract(s.proposals[proposalId := s.proposals[proposalId].(accepted := true)])
  {
    UnfundedHasNoAccepted(s, contractId);
  }

  /** A commit keeps the keys, references, one-to-one links and the reference index in order. */
  lemma CommitKeepsStructure(s: Store, contractId: nat, proposalId: nat, paymentRef: string, now: Time)
    requires Valid(s) && CanCommit(s, contractId, proposalId, paymentRef)
    ensures var t := CommitAcceptance(s, contractId, proposalId, paymentRef, now);
      && KeysBelow(t.contracts, t.nextContractId) && KeysBelow(t.proposals, t.nextProposalId)
      && KeysBelow(t.escrows, t.nextEscrowId) && KeysBelow(t.shipments, t.nextShipmentId)
      && ProposalsResolve(t.proposals, t.contracts) && EscrowsResolve(t.escrows, t.contracts)
      && ShipmentsResolve(t.shipments, t.contracts)
      && EscrowPerContract(t.escrows) && ShipmentPerContract(t.shipments)
      && RefIndexExact(t.escrowByRef, t.escrows)
  {
    var price := s.proposals[proposalId].pricePerUnit;
    var e := HeldEscrow(contractId, Repriced(s.contracts[contractId], price), paymentRef, now);
    assert s.nextEscrowId !in s.escrows;
    CommitKeepsOneEscrowPerContract(s.escrows, s.nextEscrowId, e);
    CommitKeepsRefIndex(s.escrowByRef, s.escrows, s.nextEscrowId, e);
  }

  /** A commit keeps totals, escrow amounts and the acceptance links consistent. */
  lemma CommitKeepsValues(s: Store, contractId: nat, proposalId: nat, paymentRef: string, now: Time)
    requires Valid(s) && CanCommit(s, contractId, proposalId, paymentRef)
    ensures var t := CommitAcceptance(s, contractId, proposalId, paymentRef, now);
      && TotalsConsistent(t.contracts)
      && EscrowAmountsMatch(t.escrows, t.contracts)
      && AcceptedFunded(t.proposals, t.escrows, t.contracts)
      && OneAcceptedPerContract(t.proposals)
  {
    var price := s.proposals[proposalId].pricePerUnit;
    CommitKeepsTotals(s.contracts, contractId, price);
    CommitKeepsAmounts(s.escrows, s.contracts, contractId, price, s.nextEscrowId, paymentRef, now);
    CommitKeepsFunded(s, contractId, proposalId, paymentRef, now);
    CommitKeepsOneAccepted(s, contractId, proposalId);
  }

  lemma CommitPreservesValid(s: Store, contractId: nat, proposalId: nat, paymentRef: string, now: Time)
    requires Valid(s) && CanCommit(s, contractId, proposalId, paymentRef)
    ensures Valid(CommitAcceptance(s, contractId, proposalId, paymentRef, now))
  {
    CommitKeepsStructure(s, contractId, proposalId, paymentRef, now);
    CommitKeepsValues(s, contractId, proposalId, paymentRef, now);
  }

  lemma AcceptPreservesValid(s: Store, contractId: nat, proposalId: Option<nat>, paymentRef: string, now: Time)
    requires Valid(s)
    ensures Valid(AcceptProposal(s, contractId, proposalId, paymentRef, now).after)
  {
    if proposalId.Some? && CanCommit(s, contractId, proposalId.value, paymentRef) {
      CommitPreservesValid(s, contractId, proposalId.value, paymentRef, now);
    }
  }

  /**
   * The negotiation walk-through: a buyer contracts for 10 units at 25.00,
   * posting the required total_value of 250.00 (recomputed by the server),
   * the buyer proposes 24.00 with the message "offer", and the farmer
   * accepting that proposal gives the contract price 24.00, total 240.00
   * and status accepted, with one held escrow of 240.00.
   */
  lemma NegotiationScenario(listing: Listing, buyer: UserId, farmer: UserId, today: Date, now: Time)
    requires listing.quantityAvailable >= 10000
    ensures var listings := map[1 := listing];
      var create := ContractRequest(1, Numeric(10000), Numeric(2500), Numeric(25000), None, None, None, None);
      var st1 := CreateContract(Empty(), listings, buyer, create, today, now);
      var st2 := ProposePrice(st1.after, 1, buyer, ProposalRequest(Numeric(2400), "offer", None, None, None), now);
      var st3 := AcceptProposal(st2.after, 1, Some(1), "mock_ref", now);
      && st1.out == Ok(1) && st1.after.contracts[1].totalValue == 25000
      && st2.out == ProposalCreated(1)
      && st3.out == ProposalAccepted(1)
      && st3.after.contracts[1].pricePerUnit == 2400
      && st3.after.contracts[1].totalValue == 24000
      && st3.after.contracts[1].status == Accepted
      && st3.after.escrows[1] == Escrow(1, 24000, Held, "mock_ref", now)
  {
    WholeQuantityTotalIsExact(10000, 2500);
    WholeQuantityTotalIsExact(10000, 2400);
    var st2 := ProposePrice(CreateContract(Empty(), map[1 := listing], buyer,
                 ContractRequest(1, Numeric(10000), Numeric(2500), Numeric(25000), None, None, None, None), today, now).after,
                 1, buyer, ProposalRequest(Numeric(2400), "offer", None, None, None), now).after;
    assert !HasEscrow(st2.escrows, 1);
  }

  // ---------------------------------------------------------------------
  // Signing
  // ---------------------------------------------------------------------

  datatype SignOutcome =
    | SignContractNotFound
    | SavedThenTaskMissing   // the save commits, then the call to the document task fails: a server error

  /** sign: signed_at := now and status := active, from any prior status. */
  function Sign(s: Store, contractId: nat, now: Time): (st: Step<SignOutcome>)
    ensures st.out == SignContractNotFound <==> contractId !in s.contracts
    ensures st.after.contracts.Keys == s.contracts.Keys
    ensures contractId in s.contracts ==>
              contractId in st.after.contracts &&
              st.after.contracts[contractId].status == Active && st.after.contracts[contractId].signedAt == Some(now)
  {
    if contractId !in s.contracts then Step(s, SignContractNotFound)
    else
      var c := s.contracts[contractId];
      Step(UpdateContract(s, contractId, c.(signedAt := Some(now), status := Active)), SavedThenTaskMissing)
  }

  /**
   * Signing an existing contract turns it active and stamps it, whatever its
   * status was, and the change stays although the request then fails; every
   * other field of the contract and every other record are untouched.
   */
  lemma SignEffect(s: Store, contractId: nat, now: Time)
    ensures var st := Sign(s, contractId, now);
      && (contractId !in s.contracts ==> st == Step(s, SignContractNotFound))
      && (contractId in s.contracts ==>
            && st.out == SavedThenTaskMissing
            && st.after.contracts.Keys == s.contracts.Keys
            && st.after.contracts[contractId].status == Active
            && st.after.contracts[contractId].signedAt == Some(now)
            && st.after.contracts[contractId] == s.contracts[contractId].(signedAt := Some(now), status := Active)
            && (forall c :: c in s.contracts && c != contractId ==> st.after.contracts[c] == s.contracts[c])
            && st.after == s.(contracts := st.after.contracts))
  {
  }

  lemma SignPreservesValid(s: Store, contractId: nat, now: Time)
    requires Valid(s)
    ensures Valid(Sign(s, contractId, now).after)
  {
    if contractId in s.contracts {
      var c := s.contracts[contractId];
      UpdateContractPreservesValid(s, contractId, c.(signedAt := Some(now), status := Active));
    }
  }

  // ---------------------------------------------------------------------
  // Shipments
  // ---------------------------------------------------------------------

  datatype ShipmentRequest = ShipmentRequest(
    contractId: nat,
    pickupDate: Option<Date>,
    deliveryDate: Option<Date>,
    trackingId: string,
    delivered: Option<bool>)

  datatype ShipmentOutcome = ShipmentCreated(id: nat) | ShipmentContractUnknown | ShipmentAlreadyExists

  /** Creating a shipment: the contract must exist and must not have a shipment yet. */
  function CreateShipment(s: Store, req: ShipmentRequest): (st: Step<ShipmentOutcome>)
    ensures st.out.ShipmentCreated? <==> req.contractId in s.contracts && !HasShipment(s.shipments, req.contractId)
    ensures !st.out.ShipmentCreated? ==> st.after == s
    ensures st.out.ShipmentCreated? ==>
              && st.out.id == s.nextShipmentId
              && st.out.id in st.after.shipments
              && st.after.shipments[st.out.id].contractId == req.contractId
  {
    if req.contractId !in s.contracts then Step(s, ShipmentContractUnknown)
    else if HasShipment(s.shipments, req.contractId) then Step(s, ShipmentAlreadyExists)
    else
      var sh := NewShipment(req.contractId, req.pickupDate, req.deliveryDate, req.trackingId, req.delivered);
      Step(InsertShipment(s, sh), ShipmentCreated(s.nextShipmentId))
  }

  /**
   * A shipment is created exactly when its contract exists and has none yet;
   * it is then the contract's only shipment, and nothing but the shipment
   * table changes.
   */
  lemma CreateShipmentEffect(s: Store, req: ShipmentRequest)
    requires Valid(s)
    ensures var st := CreateShipment(s, req);
      && (st.out.ShipmentCreated? <==> req.contractId in s.contracts && !HasShipment(s.shipments, req.contractId))
      && (!st.out.ShipmentCreated? ==> st.after == s)
      && (st.out.ShipmentCreated? ==>
            && st.out.id !in s.shipments
            && st.after.shipments.Keys == s.shipments.Keys + {st.out.id}
            && st.after.shipments[st.out.id].contractId == req.contractId
            && st.after.shipments[st.out.id].delivered == (req.delivered == Some(true))
            && (forall i :: i in st.after.shipments && st.after.shipments[i].contractId == req.contractId ==> i == st.out.id)
            && st.after == s.(shipments := st.after.shipments, nextShipmentId := st.after.nextShipmentId))
  {
    var st := CreateShipment(s, req);
    if st.out.ShipmentCreated? {
      assert s.nextShipmentId !in s.shipments;
      assert forall i :: i in s.shipments ==> s.shipments[i].contractId != req.contractId;
    }
  }

  lemma CreateShipmentPreservesValid(s: Store, req: ShipmentRequest)
    requires Valid(s)
    ensures Valid(CreateShipment(s, req).after)
  {
    if req.contractId in s.contracts && !HasShipment(s.shipments, req.contractId) {
      InsertShipmentPreservesValid(s, NewShipment(req.contractId, req.pickupDate, req.deliveryDate, req.trackingId, req.delivered));
    }
  }

  // ---------------------------------------------------------------------
  // Delivery confirmation
  // ---------------------------------------------------------------------

  datatype DeliveryOutcome =
    | DeliveryConfirmed
    | ShipmentNotFound
    | SavedThenEscrowMissing   // the shipment is saved, then the contract has no escrow: a server error

  /** The shipment marked delivered; a delivery date replaces the old one only when one is given. */
  function Delivered(sh: Shipment, deliveryDate: Option<Date>): (sh': Shipment)
    ensures sh'.delivered && sh'.contractId == sh.contractId
    ensures sh'.deliveryDate == (if deliveryDate.Some? then deliveryDate else sh.deliveryDate)
    ensures sh'.pickupDate == sh.pickupDate && sh'.trackingId == sh.trackingId
  {
    sh.(delivered := true, deliveryDate := if deliveryDate.Some? then deliveryDate else sh.deliveryDate)
  }

  /**
   * confirm_delivery: the shipment becomes delivered and is saved; then its
   * contract's escrow is set to released, whatever its status.  The two
   * saves are separate, so the shipment's change stays when the contract has
   * no escrow.
   */
  ghost function ConfirmDelivery(s: Store, shipmentId: nat, deliveryDate: Option<Date>): (st: Step<DeliveryOutcome>)
    ensures st.out == ShipmentNotFound <==> shipmentId !in s.shipments
    ensures shipmentId in s.shipments ==>
              && shipmentId in st.after.shipments
              && st.after.shipments[shipmentId].delivered
              && (st.out == DeliveryConfirmed <==> HasEscrow(s.escrows, s.shipments[shipmentId].contractId))
              && st.after.contracts == s.contracts
  {
    if shipmentId !in s.shipments then Step(s, ShipmentNotFound)
    else
      var sh := s.shipments[shipmentId];
      var s1 := UpdateShipment(s, shipmentId, Delivered(sh, deliveryDate));
      if !HasEscrow(s1.escrows, sh.contractId) then Step(s1, SavedThenEscrowMissing)
      else
        var e :| e in s1.escrows && s1.escrows[e].contractId == sh.contractId;
        Step(SetEscrowStatus(s1, e, Released), DeliveryConfirmed)
  }

  /**
   * Confirming delivery marks the shipment delivered, keeps or replaces its
   * delivery date, and releases the contract's escrow from any status,
   * refunded included; only the status of that one escrow changes.  Without
   * an escrow the shipment's change is kept and the request fails.
   */
  lemma ConfirmDeliveryEffect(s: Store, shipmentId: nat, deliveryDate: Option<Date>)
    requires Valid(s)
    ensures var st := ConfirmDelivery(s, shipmentId, deliveryDate);
      && (shipmentId !in s.shipments ==> st == Step(s, ShipmentNotFound))
      && (shipmentId in s.shipments ==>
            var sh := s.shipments[shipmentId];
            && st.after.shipments == s.shipments[shipmentId := Delivered(sh, deliveryDate)]
            && st.after.contracts == s.contracts && st.after.proposals == s.proposals
            && st.after.escrowByRef == s.escrowByRef && st.after.seenEvents == s.seenEvents
            && st.after == s.(shipments := st.after.shipments, escrows := st.after.escrows)
            && (st.out == DeliveryConfirmed <==> HasEscrow(s.escrows, sh.contractId))
            && (st.out == SavedThenEscrowMissing <==> !HasEscrow(s.escrows, sh.contractId))
            && (st.out == SavedThenEscrowMissing ==> st.after.escrows == s.escrows)
            && (forall e :: e in s.escrows && s.escrows[e].contractId == sh.contractId ==>
                  st.after.escrows == s.escrows[e := s.escrows[e].(status := Released)]))
  {
    if shipmentId in s.shipments {
      var st := ConfirmDelivery(s, shipmentId, deliveryDate);
      var sh := s.shipments[shipmentId];
      forall e | e in s.escrows && s.escrows[e].contractId == sh.contractId
        ensures st.after.escrows == s.escrows[e := s.escrows[e].(status := Released)]
      {
        var e' :| e' in s.escrows && s.escrows[e'].contractId == sh.contractId
                  && st.after.escrows == s.escrows[e' := s.escrows[e'].(status := Released)];
        assert e' == e;
      }
    }
  }

  /** With one escrow per contract, the escrow confirm_delivery releases is the contract's escrow e. */
  lemma ConfirmDeliveryReleases(s: Store, shipmentId: nat, deliveryDate: Option<Date>, e: nat)
    requires EscrowPerContract(s.escrows)
    requires shipmentId in s.shipments
    requires e in s.escrows && s.escrows[e].contractId == s.shipments[shipmentId].contractId
    ensures ConfirmDelivery(s, shipmentId, deliveryDate)
         == Step(SetEscrowStatus(UpdateShipment(s, shipmentId, Delivered(s.shipments[shipmentId], deliveryDate)), e, Released),
                 DeliveryConfirmed)
  {
    var s1 := UpdateShipment(s, shipmentId, Delivered(s.shipments[shipmentId], deliveryDate));
    var e' :| e' in s1.escrows && s1.escrows[e'].contractId == s.shipments[shipmentId].contractId
             && ConfirmDelivery(s, shipmentId, deliveryDate) == Step(SetEscrowStatus(s1, e', Released), DeliveryConfirmed);
    assert e' == e;
  }

  lemma ConfirmDeliveryPreservesValid(s: Store, shipmentId: nat, deliveryDate: Option<Date>)
    requires Valid(s)
    ensures Valid(ConfirmDelivery(s, shipmentId, deliveryDate).after)
  {
    if shipmentId in s.shipments {
      var sh := s.shipments[shipmentId];
      var s1 := UpdateShipment(s, shipmentId, Delivered(sh, deliveryDate));
      UpdateShipmentPreservesValid(s, shipmentId, Delivered(sh, deliveryDate));
      if HasEscrow(s1.escrows, sh.contractId) {
        var e :| e in s1.escrows && s1.escrows[e].contractId == sh.contractId;
        SetEscrowStatusPreservesValid(s1, e, Released);
        assert ConfirmDelivery(s, shipmentId, deliveryDate).after == SetEscrowStatus(s1, e, Released) by {
          var e' :| e' in s1.escrows && s1.escrows[e'].contractId == sh.contractId
                   && ConfirmDelivery(s, shipmentId, deliveryDate).after == SetEscrowStatus(s1, e', Released);
          assert e' == e;
        }
      }
    }
  }
}
