/**
 * The payment gateway's webhook (payments/views.py, MockWebhookView.post).
 * A callback names an event id, a payment reference and a new escrow
 * status.  Event ids already recorded are answered "already processed"
 * without any change; otherwise the event id is recorded first, inside the
 * atomic block, and that record stays even when the block then answers 404
 * (no escrow has the reference) or 400 (unknown status), because returning
 * from the block commits it.  Any status among the escrow choices is written,
 * with no check that the move is forward.
 */
module PaymentWebhook {
  import opened Wrappers
  import opened Records
  import opened LedgerStore

  /** A callback's three fields; None is an absent field. */
  datatype WebhookRequest = WebhookRequest(eventId: Option<string>, paymentReference: Option<string>, status: Option<string>)

  /** A field counts as given when it is present and not empty. */
  predicate Given(f: Option<string>) {
    f.Some? && f.value != ""
  }

  predicate AllGiven(req: WebhookRequest) {
    Given(req.eventId) && Given(req.paymentReference) && Given(req.status)
  }

  datatype WebhookOutcome = MissingFields | AlreadyProcessed | EscrowNotFound | InvalidStatus | Processed

  /** The HTTP status each answer carries. */
  function HttpStatus(o: WebhookOutcome): (code: int)
    ensures code == 200 <==> o in {AlreadyProcessed, Processed}
    ensures code == 400 <==> o in {MissingFields, InvalidStatus}
    ensures code == 404 <==> o == EscrowNotFound
  {
    match o
    case MissingFields => 400
    case AlreadyProcessed => 200
    case EscrowNotFound => 404
    case InvalidStatus => 400
    case Processed => 200
  }

  /** MockWebhookView.post: the field check, the idempotency gate, then the atomic block. */
  function Webhook(s: Store, req: WebhookRequest): (st: Step<WebhookOutcome>)
    ensures st.out in {MissingFields, AlreadyProcessed} ==> st.after == s
    ensures AllGiven(req) ==> req.eventId.value in st.after.seenEvents
    ensures st.after.escrows.Keys == s.escrows.Keys
    ensures st.after == s.(escrows := st.after.escrows, seenEvents := st.after.seenEvents)
  {
    if !AllGiven(req) then Step(s, MissingFields)
    else if req.eventId.value in s.seenEvents then Step(s, AlreadyProcessed)
    else
      var s1 := RecordEvent(s, req.eventId.value);
      match EscrowByReference(s1, req.paymentReference.value)
      case None => Step(s1, EscrowNotFound)
      case Some(e) =>
        match ParseEscrowStatus(req.status.value)
        case None => Step(s1, InvalidStatus)
        case Some(st) => Step(SetEscrowStatus(s1, e, st), Processed)
  }

  /** A callback with a field absent or empty is refused and changes nothing. */
  lemma MissingFieldsChangeNothing(s: Store, req: WebhookRequest)
    ensures Webhook(s, req).out == MissingFields <==> !AllGiven(req)
    ensures !AllGiven(req) ==> Webhook(s, req).after == s
  {
  }

  /** A complete callback whose event id was recorded before is answered 200 and changes nothing. */
  lemma DuplicateEventChangesNothing(s: Store, req: WebhookRequest)
    requires AllGiven(req)
    ensures Webhook(s, req).out == AlreadyProcessed <==> req.eventId.value in s.seenEvents
    ensures req.eventId.value in s.seenEvents ==> Webhook(s, req) == Step(s, AlreadyProcessed)
  {
  }

  /**
   * A complete callback with a new event id records that id whatever follows:
   * the answer is 404 exactly when no escrow has the reference, 400 exactly
   * when one does but the status is not an escrow choice, and in both cases
   * the event record is the only change.
   */
  lemma NewEventIsRecorded(s: Store, req: WebhookRequest)
    requires RefIndexExact(s.escrowByRef, s.escrows)
    requires AllGiven(req) && req.eventId.value !in s.seenEvents
    ensures var st := Webhook(s, req);
      && st.after.seenEvents == s.seenEvents + {req.eventId.value}
      && (st.out == EscrowNotFound <==>
            forall e :: e in s.escrows ==> s.escrows[e].paymentReference != req.paymentReference.value)
      && (st.out == InvalidStatus <==>
            && (exists e :: e in s.escrows && s.escrows[e].paymentReference == req.paymentReference.value)
            && forall x: EscrowStatus :: x.Name() != req.status.value)
      && (st.out in {EscrowNotFound, InvalidStatus} ==> st.after == RecordEvent(s, req.eventId.value))
      && st.out in {EscrowNotFound, InvalidStatus, Processed}
  {
    var ref := req.paymentReference.value;
    var s1 := RecordEvent(s, req.eventId.value);
    match EscrowByReference(s1, ref)
    case None =>
      forall e | e in s.escrows
        ensures s.escrows[e].paymentReference != ref
      {
        EscrowByReferenceFinds(s1, ref, e);
      }
    case Some(e) =>
      EscrowByReferenceFinds(s1, ref, e);
      if ParseEscrowStatus(req.status.value).Some? {
        var x := ParseEscrowStatus(req.status.value).value;
        assert x.Name() == req.status.value;
      }
  }

  /**
   * A processed callback writes the named status onto the one escrow with
   * the reference, from any status, and changes nothing else but the event
   * record.
   */
  lemma ProcessedWritesStatus(s: Store, req: WebhookRequest)
    requires RefIndexExact(s.escrowByRef, s.escrows)
    requires Webhook(s, req).out == Processed
    ensures AllGiven(req) && req.eventId.value !in s.seenEvents
    ensures var t := Webhook(s, req).after;
      exists e, st: EscrowStatus ::
        && e in s.escrows && s.escrows[e].paymentReference == req.paymentReference.value
        && st.Name() == req.status.value
        && t == s.(escrows := s.escrows[e := s.escrows[e].(status := st)],
                   seenEvents := s.seenEvents + {req.eventId.value})
  {
    var s1 := RecordEvent(s, req.eventId.value);
    var e := EscrowByReference(s1, req.paymentReference.value).value;
    EscrowByReferenceFinds(s1, req.paymentReference.value, e);
    var st := ParseEscrowStatus(req.status.value).value;
    assert Webhook(s, req).after == s.(escrows := s.escrows[e := s.escrows[e].(status := st)],
                                       seenEvents := s.seenEvents + {req.eventId.value});
  }

  /**
   * Replaying any callback that got past the field check is answered
   * "already processed" and changes nothing: the webhook is idempotent.
   */
  lemma ReplayIsIdempotent(s: Store, req: WebhookRequest)
    requires AllGiven(req)
    ensures var t := Webhook(s, req).after;
      Webhook(t, req) == Step(t, AlreadyProcessed)
  {
  }

  lemma WebhookPreservesValid(s: Store, req: WebhookRequest)
    requires Valid(s)
    ensures Valid(Webhook(s, req).after)
  {
    if AllGiven(req) && req.eventId.value !in s.seenEvents {
      var s1 := RecordEvent(s, req.eventId.value);
      RecordEventPreservesValid(s, req.eventId.value);
      match EscrowByReference(s1, req.paymentReference.value)
      case None =>
      case Some(e) =>
        match ParseEscrowStatus(req.status.value)
        case None =>
        case Some(st) => SetEscrowStatusPreservesValid(s1, e, st);
    }
  }

  /**
   * There is no forward-only check: a released escrow goes back to held when
   * a new event says so.
   */
  lemma ReleasedCanReturnToHeld(s: Store, e: nat, eventId: string)
    requires RefIndexExact(s.escrowByRef, s.escrows)
    requires e in s.escrows && s.escrows[e].status == Released && s.escrows[e].paymentReference != ""
    requires eventId != "" && eventId !in s.seenEvents
    ensures var st := Webhook(s, WebhookRequest(Some(eventId), Some(s.escrows[e].paymentReference), Some("held")));
      st.out == Processed && st.after.escrows[e].status == Held
  {
    EscrowByReferenceFinds(RecordEvent(s, eventId), s.escrows[e].paymentReference, e);
    ParseEscrowStatusName(Held);
  }

  /**
   * The escrow life cycle the webhook tests drive: a pending escrow is set
   * held by one event and released by a second, and replaying the first
   * event afterwards changes nothing.
   */
  lemma PendingHeldReleasedScenario(s: Store, e: nat)
    requires RefIndexExact(s.escrowByRef, s.escrows)
    requires e in s.escrows && s.escrows[e].status == EscrowPending
    requires s.escrows[e].paymentReference == "mock_release_test"
    requires "evt_held_001" !in s.seenEvents && "evt_released_001" !in s.seenEvents
    ensures var held := WebhookRequest(Some("evt_held_001"), Some("mock_release_test"), Some("held"));
      var released := WebhookRequest(Some("evt_released_001"), Some("mock_release_test"), Some("released"));
      var st1 := Webhook(s, held);
      var st2 := Webhook(st1.after, released);
      var st3 := Webhook(st2.after, held);
      && st1.out == Processed && st1.after.escrows[e].status == Held
      && st2.out == Processed && st2.after.escrows[e].status == Released
      && st3 == Step(st2.after, AlreadyProcessed)
      && HttpStatus(st1.out) == 200 && HttpStatus(st2.out) == 200 && HttpStatus(st3.out) == 200
  {
    var held := WebhookRequest(Some("evt_held_001"), Some("mock_release_test"), Some("held"));
    var released := WebhookRequest(Some("evt_released_001"), Some("mock_release_test"), Some("released"));
    ParseEscrowStatusName(Held);
    ParseEscrowStatusName(Released);
    EscrowByReferenceFinds(RecordEvent(s, "evt_held_001"), "mock_release_test", e);
    var t1 := Webhook(s, held).after;
    assert t1.escrowByRef == s.escrowByRef;
    EscrowShapeKeepsRefIndex(s.escrows, t1.escrows, s.escrowByRef);
    assert "evt_released_001" != "evt_held_001";
    EscrowByReferenceFinds(RecordEvent(t1, "evt_released_001"), "mock_release_test", e);
  }
}
