/**
 * The background task that releases an escrow (payments/tasks_release.py,
 * release_escrow_task).  Released and refunded are final: the release task leaves
 * them alone and answers "already_finalized"; a pending or held escrow
 * becomes released.  The release task takes the row lock inside an atomic block,
 * which makes it one step here.
 */
module ReleaseTask {
  import opened Records
  import opened LedgerStore

  datatype ReleaseOutcome = NotFound | AlreadyFinalized | ReleasedNow
  {
    /** The string the release task returns. */
    function Tag(): string {
      match this
      case NotFound => "not_found"
      case AlreadyFinalized => "already_finalized"
      case ReleasedNow => "released"
    }
  }

  /** release_escrow_task for escrowId. */
  function ReleaseEscrow(s: Store, escrowId: nat): (st: Step<ReleaseOutcome>)
    ensures st.out == NotFound <==> escrowId !in s.escrows
    ensures st.out != ReleasedNow ==> st.after == s
    ensures st.out == ReleasedNow ==> escrowId in st.after.escrows && st.after.escrows[escrowId].status == Released
    ensures st.after.escrows.Keys == s.escrows.Keys
  {
    if escrowId !in s.escrows then Step(s, NotFound)
    else if s.escrows[escrowId].status.IsFinal() then Step(s, AlreadyFinalized)
    else Step(SetEscrowStatus(s, escrowId, Released), ReleasedNow)
  }

  /**
   * The three answers and what each does: an unknown id and a final escrow
   * change nothing; otherwise the escrow's status, and nothing else, becomes
   * released.  The three tags are distinct.
   */
  lemma ReleaseEffect(s: Store, escrowId: nat)
    ensures var st := ReleaseEscrow(s, escrowId);
      && (st.out == NotFound <==> escrowId !in s.escrows)
      && (st.out == AlreadyFinalized <==> escrowId in s.escrows && s.escrows[escrowId].status in {Released, Refunded})
      && (st.out == ReleasedNow <==> escrowId in s.escrows && s.escrows[escrowId].status in {EscrowPending, Held})
      && (st.out != ReleasedNow ==> st.after == s)
      && (st.out == ReleasedNow ==>
            st.after == s.(escrows := s.escrows[escrowId := s.escrows[escrowId].(status := Released)]))
    ensures NotFound.Tag() != AlreadyFinalized.Tag() && AlreadyFinalized.Tag() != ReleasedNow.Tag()
         && NotFound.Tag() != ReleasedNow.Tag()
  {
  }

  /** Final states absorb: no run of the release task changes the status of a released or refunded escrow. */
  lemma FinalStatesAbsorb(s: Store, escrowId: nat, x: nat)
    requires x in s.escrows && s.escrows[x].status.IsFinal()
    ensures x in ReleaseEscrow(s, escrowId).after.escrows
    ensures ReleaseEscrow(s, escrowId).after.escrows[x] == s.escrows[x]
  {
  }

  /**
   * Running the release task twice is running it once: the second run changes nothing
   * and answers already_finalized for any escrow that exists.
   */
  lemma ReleaseIsIdempotent(s: Store, escrowId: nat)
    ensures var t := ReleaseEscrow(s, escrowId).after;
      && ReleaseEscrow(t, escrowId).after == t
      && ReleaseEscrow(t, escrowId).out != ReleasedNow
      && (ReleaseEscrow(s, escrowId).out != NotFound ==> ReleaseEscrow(t, escrowId).out == AlreadyFinalized)
  {
  }

  lemma ReleasePreservesValid(s: Store, escrowId: nat)
    requires Valid(s)
    ensures Valid(ReleaseEscrow(s, escrowId).after)
  {
    if escrowId in s.escrows && !s.escrows[escrowId].status.IsFinal() {
      SetEscrowStatusPreservesValid(s, escrowId, Released);
    }
  }
}
