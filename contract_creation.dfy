/**
 * The checks ContractSerializer.create runs on a new contract's quantity and
 * price (contracts/serializers.py), and the server-side total.  The checks
 * run in order and the first failing one decides the error: the numbers are
 * read, the quantity must be positive, the price must be positive, and the
 * quantity must not exceed what the listing has available.
 */
module ContractCreation {
  import opened Wrappers
  import opened Money

  /** A decimal input as received: a number (scaled as its field is) or something that does not read as one. */
  datatype RawDecimal = Numeric(scaled: int) | NotNumeric

  datatype CreateError =
    | InvalidNumber        // quantity or price does not read as a decimal
    | QuantityNotPositive
    | PriceNotPositive
    | ExceedsAvailable
    | UnknownListing       // listing_id names no listing

  datatype Field = AgreedQuantityField | PricePerUnitField | ListingIdField

  /** The fields a creation error is reported against. */
  function ErrorFields(e: CreateError): (fs: set<Field>)
    ensures |fs| >= 1
    ensures PricePerUnitField in fs <==> e == InvalidNumber || e == PriceNotPositive
    ensures AgreedQuantityField in fs <==> e in {InvalidNumber, QuantityNotPositive, ExceedsAvailable}
  {
    match e
    case InvalidNumber => {AgreedQuantityField, PricePerUnitField}
    case QuantityNotPositive => {AgreedQuantityField}
    case PriceNotPositive => {PricePerUnitField}
    case ExceedsAvailable => {AgreedQuantityField}
    case UnknownListing => {ListingIdField}
  }

  /** Accepted terms: quantity in thousandths, price and total in hundredths. */
  datatype Terms = Terms(quantity: int, pricePerUnit: int, totalValue: int)

  /**
   * Where the availability limit comes from: the listing's quantity_available,
   * falling back to a quantity attribute; None when the listing has neither.
   */
  function AvailabilitySource(quantityAvailable: Option<RawDecimal>, quantity: Option<RawDecimal>): (r: Option<RawDecimal>)
    ensures quantityAvailable.Some? ==> r == quantityAvailable
    ensures quantityAvailable.None? ==> r == quantity
  {
    if quantityAvailable.Some? then quantityAvailable else quantity
  }

  /**
   * The availability check passes when the quantity does not exceed a numeric
   * limit; a missing or non-numeric limit skips the check.
   */
  predicate WithinAvailability(qty: int, source: Option<RawDecimal>) {
    match source
    case None => true
    case Some(NotNumeric) => true
    case Some(Numeric(available)) => qty <= available
  }

  /** The checks of ContractSerializer.create, in their order. */
  function ValidateTerms(qty: RawDecimal, ppu: RawDecimal,
                         quantityAvailable: Option<RawDecimal>, quantity: Option<RawDecimal>): (r: Result<Terms, CreateError>)
    ensures r == Err(InvalidNumber) <==> qty.NotNumeric? || ppu.NotNumeric?
    ensures r == Err(QuantityNotPositive) <==> qty.Numeric? && ppu.Numeric? && qty.scaled <= 0
    ensures r == Err(PriceNotPositive) <==> qty.Numeric? && ppu.Numeric? && qty.scaled > 0 && ppu.scaled <= 0
    ensures r == Err(ExceedsAvailable) <==>
              && qty.Numeric? && ppu.Numeric? && qty.scaled > 0 && ppu.scaled > 0
              && !WithinAvailability(qty.scaled, AvailabilitySource(quantityAvailable, quantity))
    ensures r.Ok? <==>
              && qty.Numeric? && ppu.Numeric?
              && qty.scaled > 0 && ppu.scaled > 0
              && WithinAvailability(qty.scaled, AvailabilitySource(quantityAvailable, quantity))
    ensures r.Ok? ==> r.value == Terms(qty.scaled, ppu.scaled, TotalValue(qty.scaled, ppu.scaled))
    ensures r != Err(UnknownListing)
  {
    if qty.NotNumeric? || ppu.NotNumeric? then Err(InvalidNumber)
    else if qty.scaled <= 0 then Err(QuantityNotPositive)
    else if ppu.scaled <= 0 then Err(PriceNotPositive)
    else if !WithinAvailability(qty.scaled, AvailabilitySource(quantityAvailable, quantity)) then Err(ExceedsAvailable)
    else Ok(Terms(qty.scaled, ppu.scaled, TotalValue(qty.scaled, ppu.scaled)))
  }

  /**
   * Where the limit comes from, as validation sees it: a quantity_available
   * on the listing makes any quantity attribute irrelevant; without one, a
   * numeric quantity attribute bounds the agreed quantity; with no numeric
   * limit at all, positive terms are accepted at any size.
   */
  lemma AvailabilityFallback(qty: int, ppu: int, quantityAvailable: Option<RawDecimal>, quantity: Option<RawDecimal>)
    requires qty > 0 && ppu > 0
    ensures quantityAvailable.Some? ==>
              forall other: Option<RawDecimal> {:trigger ValidateTerms(Numeric(qty), Numeric(ppu), quantityAvailable, other)} ::
                ValidateTerms(Numeric(qty), Numeric(ppu), quantityAvailable, other)
                == ValidateTerms(Numeric(qty), Numeric(ppu), quantityAvailable, quantity)
    ensures quantityAvailable.None? && quantity.Some? && quantity.value.Numeric? ==>
              (ValidateTerms(Numeric(qty), Numeric(ppu), quantityAvailable, quantity).Ok? <==> qty <= quantity.value.scaled)
    ensures quantityAvailable.None? && quantity.Some? && quantity.value.Numeric? && qty > quantity.value.scaled ==>
              ValidateTerms(Numeric(qty), Numeric(ppu), quantityAvailable, quantity) == Err(ExceedsAvailable)
    ensures (quantityAvailable.None? && (quantity.None? || quantity == Some(NotNumeric)))
            || quantityAvailable == Some(NotNumeric) ==>
              ValidateTerms(Numeric(qty), Numeric(ppu), quantityAvailable, quantity)
              == Ok(Terms(qty, ppu, TotalValue(qty, ppu)))
  {
  }

  /** Exactly the listing's availability is accepted; one thousandth more is not. */
  lemma AvailabilityBoundary(available: int, ppu: int)
    requires available > 0 && ppu > 0
    ensures ValidateTerms(Numeric(available), Numeric(ppu), Some(Numeric(available)), None).Ok?
    ensures ValidateTerms(Numeric(available + 1), Numeric(ppu), Some(Numeric(available)), None) == Err(ExceedsAvailable)
  {
  }
}
