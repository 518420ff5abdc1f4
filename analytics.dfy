/**
 * The analytics endpoints (analytics/views.py) as aggregates over the
 * ledger: a farmer's revenue from released escrows, the number of a user's
 * contracts in status accepted or active, and the counts behind a user's
 * proposal acceptance rate.  Each aggregate runs over the ids below a
 * table's next id, which cover every key of a valid ledger.
 */
module Analytics {
  import opened Wrappers
  import opened Records
  import opened Listings
  import opened LedgerStore
  import opened ReleaseTask
  import ContractLifecycle

  datatype Role = Farmer | Buyer | Admin
  datatype User = User(id: UserId, role: Role)

  // ---------------------------------------------------------------------
  // Farmer revenue
  // ---------------------------------------------------------------------

  /** The farmer who owns the listing of contract c, when both records exist. */
  function ListingFarmer(s: Store, listings: map<nat, Listing>, c: nat): Option<UserId> {
    if c in s.contracts && s.contracts[c].listingId in listings
    then Some(listings[s.contracts[c].listingId].farmer) else None
  }

  /** Escrow e counts towards the farmer's revenue: it is released and its contract's listing is theirs. */
  predicate EarnsFor(s: Store, listings: map<nat, Listing>, farmer: UserId, e: nat) {
    && e in s.escrows
    && s.escrows[e].status == Released
    && ListingFarmer(s, listings, s.escrows[e].contractId) == Some(farmer)
  }

  /** The sum of the amounts of the escrows below id n that count towards the farmer's revenue. */
  function RevenueBelow(s: Store, listings: map<nat, Listing>, farmer: UserId, n: nat): int
  {
    if n == 0 then 0
    else RevenueBelow(s, listings, farmer, n - 1) + (if EarnsFor(s, listings, farmer, n - 1) then s.escrows[n - 1].amount else 0)
  }

  datatype AnalyticsError = OnlyFarmers   // 403

  /**
   * farmer_revenue: refused with 403 unless the user is a farmer; otherwise
   * the sum of the released escrows on their listings' contracts, 0 when
   * there are none.
   */
  function FarmerRevenue(s: Store, listings: map<nat, Listing>, user: User): (r: Result<int, AnalyticsError>)
    ensures r.Err? <==> user.role != Farmer
    ensures user.role == Farmer && KeysBelow(s.escrows, s.nextEscrowId) ==>
              r == Ok(AmountSum(s.escrows, EarningIn(s, listings, user.id)))
  {
    if user.role != Farmer then Err(OnlyFarmers)
    else
      RevenueIsAmountSum(s, listings, user.id, s.nextEscrowId);
      EarningIdsCoverTable(s, listings, user.id);
      Ok(RevenueBelow(s, listings, user.id, s.nextEscrowId))
  }

  /** The sum of the amounts of the escrows with the given ids, in no particular order. */
  ghost function AmountSum(escrows: map<nat, Escrow>, ids: set<nat>): int
    requires ids <= escrows.Keys
    decreases ids
  {
    if ids == {} then 0
    else
      var e :| e in ids;
      escrows[e].amount + AmountSum(escrows, ids - {e})
  }

  /** Taking any one escrow out of the sum takes away exactly its amount. */
  lemma {:induction false} AmountSumRemove(escrows: map<nat, Escrow>, ids: set<nat>, y: nat)
    requires ids <= escrows.Keys && y in ids
    ensures AmountSum(escrows, ids) == AmountSum(escrows, ids - {y}) + escrows[y].amount
    decreases ids
  {
    var x :| x in ids && AmountSum(escrows, ids) == escrows[x].amount + AmountSum(escrows, ids - {x});
    if x != y {
      AmountSumRemove(escrows, ids - {x}, y);
      AmountSumRemove(escrows, ids - {y}, x);
      assert ids - {x} - {y} == ids - {y} - {x};
    }
  }

  ghost function EarningBelow(s: Store, listings: map<nat, Listing>, farmer: UserId, n: nat): set<nat>
    ensures EarningBelow(s, listings, farmer, n) <= s.escrows.Keys
  {
    set e | 0 <= e < n && EarnsFor(s, listings, farmer, e)
  }

  /** The escrows of the whole table that count towards the farmer's revenue. */
  ghost function EarningIn(s: Store, listings: map<nat, Listing>, farmer: UserId): set<nat>
    ensures EarningIn(s, listings, farmer) <= s.escrows.Keys
  {
    set e | e in s.escrows && EarnsFor(s, listings, farmer, e)
  }

  /** The revenue below n is the sum of the amounts of the counted escrows below n, each taken once. */
  lemma {:induction false} RevenueIsAmountSum(s: Store, listings: map<nat, Listing>, farmer: UserId, n: nat)
    ensures RevenueBelow(s, listings, farmer, n) == AmountSum(s.escrows, EarningBelow(s, listings, farmer, n))
  {
    if n == 0 {
      assert EarningBelow(s, listings, farmer, 0) == {};
    } else {
      RevenueIsAmountSum(s, listings, farmer, n - 1);
      var prev := EarningBelow(s, listings, farmer, n - 1);
      if EarnsFor(s, listings, farmer, n - 1) {
        var cur := EarningBelow(s, listings, farmer, n);
        assert cur - {n - 1} == prev;
        AmountSumRemove(s.escrows, cur, n - 1);
      } else {
        assert EarningBelow(s, listings, farmer, n) == prev;
      }
    }
  }

  /** When every escrow id lies below the next id, the ids below it cover the whole table. */
  lemma EarningIdsCoverTable(s: Store, listings: map<nat, Listing>, farmer: UserId)
    ensures KeysBelow(s.escrows, s.nextEscrowId) ==>
              EarningBelow(s, listings, farmer, s.nextEscrowId) == EarningIn(s, listings, farmer)
  {
  }

  /** With no escrow counting towards the farmer, the revenue is 0. */
  lemma {:induction false} RevenueZeroWhenNothingReleased(s: Store, listings: map<nat, Listing>, farmer: UserId, n: nat)
    requires forall e :: 0 <= e < n ==> !EarnsFor(s, listings, farmer, e)
    ensures RevenueBelow(s, listings, farmer, n) == 0
  {
    if n > 0 {
      RevenueZeroWhenNothingReleased(s, listings, farmer, n - 1);
    }
  }

  /** With non-negative amounts, the revenue is never negative. */
  lemma {:induction false} RevenueNonNegative(s: Store, listings: map<nat, Listing>, farmer: UserId, n: nat)
    requires forall e :: e in s.escrows ==> s.escrows[e].amount >= 0
    ensures RevenueBelow(s, listings, farmer, n) >= 0
  {
    if n > 0 {
      RevenueNonNegative(s, listings, farmer, n - 1);
    }
  }

  /** The revenue depends only on which escrows count and their amounts. */
  lemma {:induction false} RevenueFrame(s: Store, t: Store, listings: map<nat, Listing>, farmer: UserId, n: nat)
    requires forall e :: 0 <= e < n ==> EarnsFor(s, listings, farmer, e) == EarnsFor(t, listings, farmer, e)
    requires forall e :: 0 <= e < n && EarnsFor(s, listings, farmer, e) && EarnsFor(t, listings, farmer, e) ==>
               s.escrows[e].amount == t.escrows[e].amount
    ensures RevenueBelow(s, listings, farmer, n) == RevenueBelow(t, listings, farmer, n)
  {
    if n > 0 {
      RevenueFrame(s, t, listings, farmer, n - 1);
    }
  }

  /**
   * Changing escrow x's status alone changes the revenue below n only by x's
   * amount: added when x starts counting, taken away when it stops.
   */
  lemma {:induction false} RevenueAfterStatusChange(s: Store, listings: map<nat, Listing>, farmer: UserId,
                                                    x: nat, status: EscrowStatus, n: nat)
    requires x in s.escrows
    ensures var t := SetEscrowStatus(s, x, status);
      RevenueBelow(t, listings, farmer, n) ==
        RevenueBelow(s, listings, farmer, n)
        + (if x < n && EarnsFor(t, listings, farmer, x) then s.escrows[x].amount else 0)
        - (if x < n && EarnsFor(s, listings, farmer, x) then s.escrows[x].amount else 0)
  {
    if n > 0 {
      RevenueAfterStatusChange(s, listings, farmer, x, status, n - 1);
    }
  }

  /**
   * When the release task releases an escrow on one of the farmer's
   * listings, their revenue grows by exactly its amount; no other farmer's
   * revenue changes.
   */
  lemma ReleaseRaisesRevenue(s: Store, listings: map<nat, Listing>, farmer: UserId, escrowId: nat)
    requires KeysBelow(s.escrows, s.nextEscrowId)
    requires ReleaseEscrow(s, escrowId).out == ReleasedNow
    ensures var t := ReleaseEscrow(s, escrowId).after;
      RevenueBelow(t, listings, farmer, t.nextEscrowId) ==
        RevenueBelow(s, listings, farmer, s.nextEscrowId)
        + (if ListingFarmer(s, listings, s.escrows[escrowId].contractId) == Some(farmer) then s.escrows[escrowId].amount else 0)
  {
    RevenueAfterStatusChange(s, listings, farmer, escrowId, Released, s.nextEscrowId);
  }

  // ---------------------------------------------------------------------
  // Active contracts
  // ---------------------------------------------------------------------

  /** Contract c is active for the user: accepted or active, and the user is its buyer or its listing's farmer. */
  predicate IsActiveFor(s: Store, listings: map<nat, Listing>, user: UserId, c: nat) {
    && c in s.contracts
    && s.contracts[c].status in {Accepted, Active}
    && (s.contracts[c].buyer == user || ListingFarmer(s, listings, c) == Some(user))
  }

  /** The number of contracts below id n that are active for the user. */
  function ActiveCountBelow(s: Store, listings: map<nat, Listing>, user: UserId, n: nat): nat
  {
    if n == 0 then 0
    else ActiveCountBelow(s, listings, user, n - 1) + (if IsActiveFor(s, listings, user, n - 1) then 1 else 0)
  }

  /**
   * active_contracts for the user: the number of distinct contracts in the
   * table that are accepted or active and of which the user is the buyer or
   * the listing's farmer.
   */
  function ActiveContracts(s: Store, listings: map<nat, Listing>, user: User): (count: nat)
    ensures KeysBelow(s.contracts, s.nextContractId) ==> count == |ActiveIn(s, listings, user.id)|
  {
    ActiveCountIsSetSize(s, listings, user.id, s.nextContractId);
    ActiveIdsCoverTable(s, listings, user.id);
    ActiveCountBelow(s, listings, user.id, s.nextContractId)
  }

  ghost function ActiveSet(s: Store, listings: map<nat, Listing>, user: UserId, n: nat): set<nat> {
    set c | 0 <= c < n && IsActiveFor(s, listings, user, c)
  }

  /** The contracts of the whole table that are active for the user. */
  ghost function ActiveIn(s: Store, listings: map<nat, Listing>, user: UserId): set<nat> {
    set c | c in s.contracts && IsActiveFor(s, listings, user, c)
  }

  /** When every contract id lies below the next id, the ids below it cover the whole table. */
  lemma ActiveIdsCoverTable(s: Store, listings: map<nat, Listing>, user: UserId)
    ensures KeysBelow(s.contracts, s.nextContractId) ==>
              ActiveSet(s, listings, user, s.nextContractId) == ActiveIn(s, listings, user)
  {
  }

  /**
   * The count is the number of distinct contracts active for the user: a
   * contract where the user is both buyer and farmer counts once.
   */
  lemma {:induction false} ActiveCountIsSetSize(s: Store, listings: map<nat, Listing>, user: UserId, n: nat)
    ensures ActiveCountBelow(s, listings, user, n) == |ActiveSet(s, listings, user, n)|
  {
    if n == 0 {
      assert ActiveSet(s, listings, user, 0) == {};
    } else {
      ActiveCountIsSetSize(s, listings, user, n - 1);
      var prev := ActiveSet(s, listings, user, n - 1);
      assert n - 1 !in prev;
      if IsActiveFor(s, listings, user, n - 1) {
        assert ActiveSet(s, listings, user, n) == prev + {n - 1};
      } else {
        assert ActiveSet(s, listings, user, n) == prev;
      }
    }
  }

  /** The count depends only on which contracts are active for the user. */
  lemma {:induction false} ActiveCountFrame(s: Store, t: Store, listings: map<nat, Listing>, user: UserId, n: nat)
    requires forall c :: 0 <= c < n ==> IsActiveFor(s, listings, user, c) == IsActiveFor(t, listings, user, c)
    ensures ActiveCountBelow(s, listings, user, n) == ActiveCountBelow(t, listings, user, n)
  {
    if n > 0 {
      ActiveCountFrame(s, t, listings, user, n - 1);
    }
  }

  /** Changing contract x alone moves the count below n by at most one, as x enters or leaves it. */
  lemma {:induction false} ActiveCountAfterUpdate(s: Store, listings: map<nat, Listing>, user: UserId,
                                                  x: nat, c: Contract, n: nat)
    requires x in s.contracts
    ensures var t := UpdateContract(s, x, c);
      ActiveCountBelow(t, listings, user, n) ==
        ActiveCountBelow(s, listings, user, n)
        + (if x < n && IsActiveFor(t, listings, user, x) then 1 else 0)
        - (if x < n && IsActiveFor(s, listings, user, x) then 1 else 0)
  {
    if n > 0 {
      ActiveCountAfterUpdate(s, listings, user, x, c, n - 1);
    }
  }

  /**
   * Signing a contract of the user's makes it count, once: the count grows
   * by one unless the contract was already accepted or active.
   */
  lemma SignCountsOnce(s: Store, listings: map<nat, Listing>, user: User, contractId: nat, now: Time)
    requires KeysBelow(s.contracts, s.nextContractId)
    requires contractId in s.contracts
    requires s.contracts[contractId].buyer == user.id || ListingFarmer(s, listings, contractId) == Some(user.id)
    ensures var t := ContractLifecycle.Sign(s, contractId, now).after;
      ActiveContracts(t, listings, user) ==
        ActiveContracts(s, listings, user) + (if s.contracts[contractId].status in {Accepted, Active} then 0 else 1)
  {
    var c := s.contracts[contractId];
    ActiveCountAfterUpdate(s, listings, user.id, contractId, c.(signedAt := Some(now), status := Active), s.nextContractId);
  }

  // ---------------------------------------------------------------------
  // Proposal acceptance rate
  // ---------------------------------------------------------------------

  /** The number of proposals below id n made by the user, and of those that were accepted. */
  function ProposalCountBelow(s: Store, user: UserId, n: nat, acceptedOnly: bool): nat
  {
    if n == 0 then 0
    else
      ProposalCountBelow(s, user, n - 1, acceptedOnly) + (if CountsFor(s, user, acceptedOnly, n - 1) then 1 else 0)
  }

  datatype AcceptanceCounts = AcceptanceCounts(accepted: nat, total: nat)

  /**
   * The counts of proposals_acceptance_rate: the user's accepted proposals
   * and all of the user's proposals, over the whole proposal table.
   */
  function AcceptanceCountsOf(s: Store, user: User): (counts: AcceptanceCounts)
    ensures counts.accepted <= counts.total
    ensures KeysBelow(s.proposals, s.nextProposalId) ==>
              && counts.accepted == |ProposalsIn(s, user.id, true)|
              && counts.total == |ProposalsIn(s, user.id, false)|
  {
    AcceptedAtMostTotal(s, user.id, s.nextProposalId);
    ProposalCountIsSetSize(s, user.id, s.nextProposalId, true);
    ProposalCountIsSetSize(s, user.id, s.nextProposalId, false);
    ProposalIdsCoverTable(s, user.id, true);
    ProposalIdsCoverTable(s, user.id, false);
    AcceptanceCounts(ProposalCountBelow(s, user.id, s.nextProposalId, true),
                     ProposalCountBelow(s, user.id, s.nextProposalId, false))
  }

  /** Proposal p is counted: it is the user's, and accepted when only accepted ones count. */
  predicate CountsFor(s: Store, user: UserId, acceptedOnly: bool, p: nat) {
    p in s.proposals && s.proposals[p].proposer == user && (!acceptedOnly || s.proposals[p].accepted)
  }

  ghost function ProposalSet(s: Store, user: UserId, n: nat, acceptedOnly: bool): set<nat> {
    set p | 0 <= p < n && CountsFor(s, user, acceptedOnly, p)
  }

  /** The user's proposals in the whole table (only the accepted ones when acceptedOnly). */
  ghost function ProposalsIn(s: Store, user: UserId, acceptedOnly: bool): set<nat> {
    set p | p in s.proposals && CountsFor(s, user, acceptedOnly, p)
  }

  /** The count below n is the number of distinct proposals below n that count. */
  lemma {:induction false} ProposalCountIsSetSize(s: Store, user: UserId, n: nat, acceptedOnly: bool)
    ensures ProposalCountBelow(s, user, n, acceptedOnly) == |ProposalSet(s, user, n, acceptedOnly)|
  {
    if n == 0 {
      assert ProposalSet(s, user, 0, acceptedOnly) == {};
    } else {
      ProposalCountIsSetSize(s, user, n - 1, acceptedOnly);
      var prev := ProposalSet(s, user, n - 1, acceptedOnly);
      assert n - 1 !in prev;
      if CountsFor(s, user, acceptedOnly, n - 1) {
        assert ProposalSet(s, user, n, acceptedOnly) == prev + {n - 1};
      } else {
        assert ProposalSet(s, user, n, acceptedOnly) == prev;
      }
    }
  }

  /** When every proposal id lies below the next id, the ids below it cover the whole table. */
  lemma ProposalIdsCoverTable(s: Store, user: UserId, acceptedOnly: bool)
    ensures KeysBelow(s.proposals, s.nextProposalId) ==>
              ProposalSet(s, user, s.nextProposalId, acceptedOnly) == ProposalsIn(s, user, acceptedOnly)
  {
  }

  /** Accepted proposals are among the user's proposals: never more of them than the total. */
  lemma {:induction false} AcceptedAtMostTotal(s: Store, user: UserId, n: nat)
    ensures ProposalCountBelow(s, user, n, true) <= ProposalCountBelow(s, user, n, false)
  {
    if n > 0 {
      AcceptedAtMostTotal(s, user, n - 1);
    }
  }

  /** The rate as a percentage: 0 when the user made no proposal, otherwise accepted over total, times 100. */
  function AcceptanceRate(counts: AcceptanceCounts): (rate: real)
    requires counts.accepted <= counts.total
    ensures 0.0 <= rate <= 100.0
    ensures counts.total == 0 ==> rate == 0.0
    ensures counts.total > 0 ==> rate * (counts.total as real) == (counts.accepted as real) * 100.0
    ensures counts.total > 0 && counts.accepted == counts.total ==> rate == 100.0
  {
    if counts.total > 0 then
      var share := (counts.accepted as real) / (counts.total as real);
      assert share * (counts.total as real) == counts.accepted as real;
      assert counts.accepted == counts.total ==> share == 1.0;
      ShareAtMostOne(counts.accepted as real, counts.total as real);
      share * 100.0
    else 0.0
  }

  /** A part over a positive whole is at most one. */
  lemma ShareAtMostOne(part: real, whole: real)
    requires 0.0 <= part <= whole && 0.0 < whole
    ensures part / whole <= 1.0
  {
    var x := part / whole;
    assert x * whole == part;
  }

  /** The user's acceptance rate, which always lies between 0 and 100. */
  function ProposalsAcceptanceRate(s: Store, user: User): (rate: real)
    ensures 0.0 <= rate <= 100.0
  {
    AcceptanceRate(AcceptanceCountsOf(s, user))
  }

  /** Adding a proposal above every counted id leaves the counts below n as they were. */
  lemma {:induction false} ProposalCountFrame(s: Store, p: Proposal, user: UserId, n: nat, acceptedOnly: bool)
    requires n <= s.nextProposalId
    ensures ProposalCountBelow(InsertProposal(s, p), user, n, acceptedOnly) == ProposalCountBelow(s, user, n, acceptedOnly)
  {
    if n > 0 {
      ProposalCountFrame(s, p, user, n - 1, acceptedOnly);
    }
  }

  /** A new proposal adds one to its proposer's total and nothing to their accepted count. */
  lemma ProposeCountsOneMore(s: Store, contractId: nat, requester: UserId, req: ContractLifecycle.ProposalRequest, now: Time)
    requires contractId in s.contracts && req.pricePerUnit.Numeric?
    ensures var t := ContractLifecycle.ProposePrice(s, contractId, requester, req, now).after;
      && AcceptanceCountsOf(t, User(requester, Buyer)).total == AcceptanceCountsOf(s, User(requester, Buyer)).total + 1
      && AcceptanceCountsOf(t, User(requester, Buyer)).accepted == AcceptanceCountsOf(s, User(requester, Buyer)).accepted
  {
    var p := NewProposal(contractId, requester, req.pricePerUnit.scaled, req.message, now);
    ProposalCountFrame(s, p, requester, s.nextProposalId, true);
    ProposalCountFrame(s, p, requester, s.nextProposalId, false);
  }
}
