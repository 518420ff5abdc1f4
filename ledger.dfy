/**
 * The ledger as the running system holds it: one object whose tables the
 * endpoints and the release task update in place.  Each method performs
 * one request (or one run of the release task) step by step on the fields, and its
 * contract ties the new state and the answer to the pure transition of the
 * same name in ContractLifecycle, PaymentWebhook or ReleaseTask, whose
 * properties are proved there.  The ledger invariant is kept by every
 * method.
 */
module Ledgers {
  import opened Wrappers
  import opened Records
  import opened Listings
  import opened ContractCreation
  import opened LedgerStore
  import CL = ContractLifecycle
  import PW = PaymentWebhook
  import RT = ReleaseTask

  class Ledger {
    var contracts: Contracts
    var proposals: Proposals
    var escrows: Escrows
    var shipments: Shipments
    var escrowByRef: map<string, nat>
    var seenEvents: set<string>
    var nextContractId: nat
    var nextProposalId: nat
    var nextEscrowId: nat
    var nextShipmentId: nat

    /** The ledger's tables as one value. */
    function Model(): Store
      reads this
    {
      Store(contracts, proposals, escrows, shipments, escrowByRef, seenEvents,
            nextContractId, nextProposalId, nextEscrowId, nextShipmentId)
    }

    ghost predicate Valid()
      reads this
    {
      LedgerStore.Valid(Model())
    }

    /** An empty ledger. */
    constructor ()
      ensures Valid() && Model() == Empty()
    {
      contracts, proposals, escrows, shipments := map[], map[], map[], map[];
      escrowByRef, seenEvents := map[], {};
      nextContractId, nextProposalId, nextEscrowId, nextShipmentId := 1, 1, 1, 1;
    }

    /** ContractSerializer.create: insert a contract bought by the requester, or report why not. */
    method CreateContract(listings: map<nat, Listing>, requester: UserId, req: CL.ContractRequest,
                          today: Date, now: Time) returns (r: Result<nat, CreateError>)
      requires Valid()
      modifies this
      ensures Valid()
      ensures Model() == CL.CreateContract(old(Model()), listings, requester, req, today, now).after
      ensures r == CL.CreateContract(old(Model()), listings, requester, req, today, now).out
    {
      CL.CreateContractPreservesValid(Model(), listings, requester, req, today, now);
      if req.listingId !in listings {
        return Err(UnknownListing);
      }
      var terms := ValidateTerms(req.agreedQuantity, req.pricePerUnit,
                                 Some(Numeric(listings[req.listingId].quantityAvailable)), None);
      if terms.Err? {
        return Err(terms.error);
      }
      var startDate := if req.startDate.Some? then req.startDate.value else today;
      var c := Contract(req.listingId, requester, terms.value.quantity, terms.value.pricePerUnit,
                        terms.value.totalValue, startDate, req.endDate, Pending, None, None, now);
      r := Ok(nextContractId);
      AddContract(c);
    }

    /** Insert contract c under the next contract id. */
    method AddContract(c: Contract)
      modifies this
      ensures Model() == InsertContract(old(Model()), c)
    {
      contracts, nextContractId := contracts[nextContractId := c], nextContractId + 1;
    }

    /** propose_price: record the requester's proposal on an existing contract. */
    method ProposePrice(contractId: nat, requester: UserId, req: CL.ProposalRequest, now: Time)
      returns (outcome: CL.ProposeOutcome)
      requires Valid()
      modifies this
      ensures Valid()
      ensures Model() == CL.ProposePrice(old(Model()), contractId, requester, req, now).after
      ensures outcome == CL.ProposePrice(old(Model()), contractId, requester, req, now).out
    {
      CL.ProposePricePreservesValid(Model(), contractId, requester, req, now);
      if contractId !in contracts {
        return CL.ProposeContractNotFound;
      }
      if req.pricePerUnit.NotNumeric? {
        return CL.ProposalInvalid;
      }
      outcome := CL.ProposalCreated(nextProposalId);
      AddProposal(NewProposal(contractId, requester, req.pricePerUnit.scaled, req.message, now));
    }

    /** Insert proposal p under the next proposal id. */
    method AddProposal(p: Proposal)
      modifies this
      ensures Model() == InsertProposal(old(Model()), p)
    {
      proposals, nextProposalId := proposals[nextProposalId := p], nextProposalId + 1;
    }

    /**
     * accept_proposal, with `paymentRef` the reference the payment gateway
     * handed out for this charge.  The writes of the atomic block are made
     * only once it is known that the escrow insert will succeed, so a failed
     * insert leaves every field as it was.
     */
    method AcceptProposal(contractId: nat, proposalId: Option<nat>, paymentRef: string, now: Time)
      returns (outcome: CL.AcceptOutcome)
      requires Valid()
      modifies this
      ensures Valid()
      ensures Model() == CL.AcceptProposal(old(Model()), contractId, proposalId, paymentRef, now).after
      ensures outcome == CL.AcceptProposal(old(Model()), contractId, proposalId, paymentRef, now).out
    {
      ghost var s := Model();
      CL.AcceptPreservesValid(s, contractId, proposalId, paymentRef, now);
      CL.AcceptAllOrNothing(s, contractId, proposalId, paymentRef, now);
      if contractId !in contracts {
        return CL.AcceptContractNotFound;
      }
      if proposalId.None? || proposalId.value !in proposals || proposals[proposalId.value].contractId != contractId {
        return CL.ProposalNotFound;
      }
      if HasEscrow(escrows, contractId) || paymentRef in escrowByRef {
        return CL.EscrowInsertFailed;
      }
      var id := nextEscrowId;
      CommitAcceptance(contractId, proposalId.value, paymentRef, now);
      outcome := CL.ProposalAccepted(id);
    }

    /** The writes of accept_proposal's atomic block, committed together. */
    method CommitAcceptance(contractId: nat, proposalId: nat, paymentRef: string, now: Time)
      requires contractId in contracts && proposalId in proposals
      modifies this
      ensures Model() == CL.CommitAcceptance(old(Model()), contractId, proposalId, paymentRef, now)
    {
      var p := proposals[proposalId];
      var c := CL.Repriced(contracts[contractId], p.pricePerUnit);
      var id := nextEscrowId;
      var escrow := CL.HeldEscrow(contractId, c, paymentRef, now);
      proposals, contracts, escrows, escrowByRef, nextEscrowId :=
        proposals[proposalId := p.(accepted := true)],
        contracts[contractId := c],
        escrows[id := escrow],
        escrowByRef[paymentRef := id],
        id + 1;
    }

    /** sign: stamp the contract and make it active; the request then fails on the missing document task. */
    method Sign(contractId: nat, now: Time) returns (outcome: CL.SignOutcome)
      requires Valid()
      modifies this
      ensures Valid()
      ensures Model() == CL.Sign(old(Model()), contractId, now).after
      ensures outcome == CL.Sign(old(Model()), contractId, now).out
    {
      CL.SignPreservesValid(Model(), contractId, now);
      if contractId !in contracts {
        return CL.SignContractNotFound;
      }
      var c := contracts[contractId];
      contracts := contracts[contractId := c.(signedAt := Some(now), status := Active)];
      outcome := CL.SavedThenTaskMissing;
    }

    /** Create the shipment of a contract that has none. */
    method CreateShipment(req: CL.ShipmentRequest) returns (outcome: CL.ShipmentOutcome)
      requires Valid()
      modifies this
      ensures Valid()
      ensures Model() == CL.CreateShipment(old(Model()), req).after
      ensures outcome == CL.CreateShipment(old(Model()), req).out
    {
      CL.CreateShipmentPreservesValid(Model(), req);
      if req.contractId !in contracts {
        return CL.ShipmentContractUnknown;
      }
      if HasShipment(shipments, req.contractId) {
        return CL.ShipmentAlreadyExists;
      }
      outcome := CL.ShipmentCreated(nextShipmentId);
      AddShipment(NewShipment(req.contractId, req.pickupDate, req.deliveryDate, req.trackingId, req.delivered));
    }

    /** Insert shipment sh under the next shipment id. */
    method AddShipment(sh: Shipment)
      modifies this
      ensures Model() == InsertShipment(old(Model()), sh)
    {
      shipments, nextShipmentId := shipments[nextShipmentId := sh], nextShipmentId + 1;
    }

    /** confirm_delivery: save the shipment as delivered, then release its contract's escrow. */
    method ConfirmDelivery(shipmentId: nat, deliveryDate: Option<Date>) returns (outcome: CL.DeliveryOutcome)
      requires Valid()
      modifies this
      ensures Valid()
      ensures Model() == CL.ConfirmDelivery(old(Model()), shipmentId, deliveryDate).after
      ensures outcome == CL.ConfirmDelivery(old(Model()), shipmentId, deliveryDate).out
    {
      ghost var s := Model();
      CL.ConfirmDeliveryPreservesValid(s, shipmentId, deliveryDate);
      if shipmentId !in shipments {
        return CL.ShipmentNotFound;
      }
      var sh := shipments[shipmentId];
      MarkDelivered(shipmentId, deliveryDate);
      if !HasEscrow(escrows, sh.contractId) {
        return CL.SavedThenEscrowMissing;
      }
      var e :| e in escrows && escrows[e].contractId == sh.contractId;
      CL.ConfirmDeliveryReleases(s, shipmentId, deliveryDate, e);
      SetStatus(e, Released);
      outcome := CL.DeliveryConfirmed;
    }

    /** Save shipment shipmentId as delivered, with the delivery date when one is given. */
    method MarkDelivered(shipmentId: nat, deliveryDate: Option<Date>)
      requires shipmentId in shipments
      modifies this
      ensures Model() == UpdateShipment(old(Model()), shipmentId, CL.Delivered(old(shipments[shipmentId]), deliveryDate))
    {
      shipments := shipments[shipmentId := CL.Delivered(shipments[shipmentId], deliveryDate)];
    }

    /** Save escrow e with a new status. */
    method SetStatus(e: nat, status: EscrowStatus)
      requires e in escrows
      modifies this
      ensures Model() == SetEscrowStatus(old(Model()), e, status)
    {
      escrows := escrows[e := escrows[e].(status := status)];
    }

    /** The gateway's webhook callback. */
    method Webhook(req: PW.WebhookRequest) returns (outcome: PW.WebhookOutcome)
      requires Valid()
      modifies this
      ensures Valid()
      ensures Model() == PW.Webhook(old(Model()), req).after
      ensures outcome == PW.Webhook(old(Model()), req).out
    {
      PW.WebhookPreservesValid(Model(), req);
      if !PW.AllGiven(req) {
        return PW.MissingFields;
      }
      var eventId := req.eventId.value;
      if eventId in seenEvents {
        return PW.AlreadyProcessed;
      }
      seenEvents := seenEvents + {eventId};
      var found := EscrowByReference(Model(), req.paymentReference.value);
      if found.None? {
        return PW.EscrowNotFound;
      }
      var status := ParseEscrowStatus(req.status.value);
      if status.None? {
        return PW.InvalidStatus;
      }
      SetStatus(found.value, status.value);
      outcome := PW.Processed;
    }

    /** One run of release_escrow_task. */
    method ReleaseEscrow(escrowId: nat) returns (outcome: RT.ReleaseOutcome)
      requires Valid()
      modifies this
      ensures Valid()
      ensures Model() == RT.ReleaseEscrow(old(Model()), escrowId).after
      ensures outcome == RT.ReleaseEscrow(old(Model()), escrowId).out
    {
      RT.ReleasePreservesValid(Model(), escrowId);
      if escrowId !in escrows {
        return RT.NotFound;
      }
      if escrows[escrowId].status.IsFinal() {
        return RT.AlreadyFinalized;
      }
      SetStatus(escrowId, Released);
      outcome := RT.ReleasedNow;
    }
  }
}
