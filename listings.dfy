/**
 * Listings (marketplace/models.py): a farmer's offer of a crop quantity, and
 * the model-level validation that every create and update through the listing
 * serializer runs.  The listing catalog itself is external to the ledger; its
 * farmer and quantity_available are what the ledger reads from it.
 */
module Listings {
  import opened Wrappers
  import opened Records

  /** quantity_available in thousandths, price_floor in hundredths. */
  datatype Listing = Listing(
    farmer: UserId,
    cropId: nat,
    quantityAvailable: int,
    harvestDate: Date,
    qualityGrade: string,
    location: string,
    priceFloor: int,
    createdAt: Time)

  datatype ListingError = QuantityNotPositive | HarvestInPast

  /**
   * Listing.clean: None when the listing passes, otherwise the first failing
   * rule; the quantity rule is checked before the date rule.
   */
  function Clean(l: Listing, today: Date): (r: Option<ListingError>)
    ensures r.None? <==> l.quantityAvailable > 0 && l.harvestDate >= today
    ensures l.quantityAvailable <= 0 ==> r == Some(QuantityNotPositive)
    ensures r == Some(HarvestInPast) <==> l.quantityAvailable > 0 && l.harvestDate < today
  {
    if l.quantityAvailable <= 0 then Some(QuantityNotPositive)
    else if l.harvestDate < today then Some(HarvestInPast)
    else None
  }

  /** The fields a client writes when creating or updating a listing. */
  datatype ListingInput = ListingInput(
    cropId: nat,
    quantityAvailable: int,
    harvestDate: Date,
    qualityGrade: string,
    location: string,
    priceFloor: int,
    createdAt: Time)

  /** The listing the serializer builds from the input, owned by the requester. */
  function ListingOf(input: ListingInput, farmer: UserId): Listing {
    Listing(farmer, input.cropId, input.quantityAvailable, input.harvestDate,
            input.qualityGrade, input.location, input.priceFloor, input.createdAt)
  }

  /**
   * ListingSerializer.validate: the input passes unchanged exactly when the
   * listing it describes passes Clean, and fails with Clean's error otherwise.
   */
  function ValidateListing(input: ListingInput, requester: UserId, today: Date): (r: Result<ListingInput, ListingError>)
    ensures r.Ok? <==> input.quantityAvailable > 0 && input.harvestDate >= today
    ensures r.Ok? ==> r.value == input
    ensures r.Err? ==> Some(r.error) == Clean(ListingOf(input, requester), today)
  {
    match Clean(ListingOf(input, requester), today)
    case None => Ok(input)
    case Some(e) => Err(e)
  }
}
