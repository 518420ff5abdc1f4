/**
 * The ledger's records (contracts/models.py): contracts, price proposals,
 * escrow transactions, shipments and disputes, their status enumerations and
 * the defaults the schema gives them.  Amounts follow module Money: quantities
 * in thousandths, prices and totals in hundredths.
 */
module Records {
  import opened Wrappers

  type UserId = nat
  /** A calendar day, as a day number. */
  type Date = int
  /** An instant, as a timestamp. */
  type Time = int

  /**
   * A contract's status.  The first seven are the declared choices; Pending
   * is the value contract creation writes, which the choice list does not
   * declare and which the schema stores all the same (choices are not
   * checked on save).
   */
  datatype ContractStatus =
    | Draft | Proposed | Accepted | Active | Completed | Disputed | Cancelled
    | Pending
  {
    predicate IsDeclaredChoice() { !Pending? }
  }

  /** The schema default of Contract.status. */
  function DefaultContractStatus(): (st: ContractStatus)
    ensures st.IsDeclaredChoice() && st == Draft
  {
    Draft
  }

  datatype EscrowStatus = EscrowPending | Held | Released | Refunded
  {
    /** released and refunded are the final states of the release task. */
    predicate IsFinal() { Released? || Refunded? }

    /** The stored string of the status. */
    function Name(): string {
      match this
      case EscrowPending => "pending"
      case Held => "held"
      case Released => "released"
      case Refunded => "refunded"
    }
  }

  /** Reads a status string against the four declared escrow choices. */
  function ParseEscrowStatus(s: string): (r: Option<EscrowStatus>)
    ensures r.Some? ==> r.value.Name() == s
    ensures r.None? ==> forall st: EscrowStatus :: st.Name() != s
  {
    if s == "pending" then Some(EscrowPending)
    else if s == "held" then Some(Held)
    else if s == "released" then Some(Released)
    else if s == "refunded" then Some(Refunded)
    else None
  }

  /** Every escrow status reads back from its own name. */
  lemma ParseEscrowStatusName(st: EscrowStatus)
    ensures ParseEscrowStatus(st.Name()) == Some(st)
  {
    match st
    case EscrowPending =>
    case Held =>
    case Released =>
      assert "released" != "refunded";
    case Refunded =>
      assert "refunded" != "released";
  }

  /** The schema default of EscrowTransaction.status. */
  function DefaultEscrowStatus(): (st: EscrowStatus)
    ensures !st.IsFinal() && st.Name() == "pending"
  {
    EscrowPending
  }

  datatype DisputeStatus = Open | UnderReview | Resolved | Rejected

  /**
   * agreed_quantity in thousandths (at least 0.001), price_per_unit and
   * total_value in hundredths.
   */
  datatype Contract = Contract(
    listingId: nat,
    buyer: UserId,
    agreedQuantity: int,
    pricePerUnit: int,
    totalValue: int,
    startDate: Date,
    endDate: Option<Date>,
    status: ContractStatus,
    document: Option<string>,
    signedAt: Option<Time>,
    createdAt: Time)

  /** The smallest agreed_quantity the schema's validator admits, 0.001, in thousandths. */
  const MinAgreedQuantity: int := 1

  datatype Proposal = Proposal(
    contractId: nat,
    proposer: UserId,
    pricePerUnit: int,
    message: string,
    createdAt: Time,
    accepted: bool)

  /** A proposal as inserted: accepted takes its default, false. */
  function NewProposal(contractId: nat, proposer: UserId, price: int, message: string, now: Time): (p: Proposal)
    ensures !p.accepted
    ensures p.contractId == contractId && p.proposer == proposer
    ensures p.pricePerUnit == price && p.message == message && p.createdAt == now
  {
    Proposal(contractId, proposer, price, message, now, false)
  }

  /** payment_reference is unique over all escrows; contract is one-to-one. */
  datatype Escrow = Escrow(
    contractId: nat,
    amount: int,
    status: EscrowStatus,
    paymentReference: string,
    createdAt: Time)

  /** contract is one-to-one. */
  datatype Shipment = Shipment(
    contractId: nat,
    pickupDate: Option<Date>,
    deliveryDate: Option<Date>,
    trackingId: string,
    delivered: bool)

  /** A shipment as inserted: delivered is false unless the client gives it. */
  function NewShipment(contractId: nat, pickup: Option<Date>, delivery: Option<Date>,
                       trackingId: string, delivered: Option<bool>): (sh: Shipment)
    ensures delivered.None? ==> !sh.delivered
    ensures delivered.Some? ==> sh.delivered == delivered.value
    ensures sh.contractId == contractId && sh.pickupDate == pickup
    ensures sh.deliveryDate == delivery && sh.trackingId == trackingId
  {
    Shipment(contractId, pickup, delivery, trackingId,
             if delivered.Some? then delivered.value else false)
  }

  datatype Dispute = Dispute(
    contractId: nat,
    raisedBy: UserId,
    description: string,
    status: DisputeStatus,
    resolutionNotes: string,
    createdAt: Time)

  /** A dispute as inserted: status open, no resolution notes. */
  function NewDispute(contractId: nat, raisedBy: UserId, description: string, now: Time): (d: Dispute)
    ensures d.status == Open && d.resolutionNotes == ""
    ensures d.contractId == contractId && d.raisedBy == raisedBy
    ensures d.description == description && d.createdAt == now
  {
    Dispute(contractId, raisedBy, description, Open, "", now)
  }
}
