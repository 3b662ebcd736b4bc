/** The Stripe webhook: signature gate and status codes of `POST`, the
    idempotent revenue record of a completed checkout session, and the
    automatic approval of the buyer's request when a bid is bought.
    Signature verification (`constructEvent`) and the presence of the two
    secrets are boolean inputs. */
module Webhook {
  import opened Base
  import opened Guests

  const EventCompleted: string := "checkout.session.completed"
  const EventExpired: string := "checkout.session.expired"
  const KindLineSkip: string := "line_skip"
  const KindBid: string := "bid"

  const ErrMissingSignature: string := "Missing stripe-signature header"
  const ErrSecretNotConfigured: string := "Webhook secret not configured"
  const ErrInvalidSignature: string := "Invalid signature"
  const ErrInternal: string := "Internal server error"

  /** `session.metadata`: each field `None` when absent. */
  datatype Metadata = Metadata(eventId: Option<string>, userId: Option<string>, kind: Option<string>)

  /** A checkout session: its id, metadata and `amount_total` in cents. */
  datatype Session = Session(id: string, metadata: Option<Metadata>, amountTotal: int)

  /** A verified Stripe event: its type and `data.object`. */
  datatype StripeEvent = StripeEvent(eventType: string, session: Session)

  /** The JSON response: `{ received: true }` or `{ error }`, with a status. */
  datatype ResponseBody = Received | ErrorBody(error: string)
  datatype WebhookResponse = WebhookResponse(status: int, body: ResponseBody)

  /** An `event_revenue` row. */
  datatype RevenueRow = RevenueRow(eventId: Id, userId: Id, kind: string, amount: real, sessionId: string)

  /** `session.amount_total / 100`: cents to currency units. */
  function AmountOf(amountTotal: int): (a: real)
    ensures a * 100.0 == amountTotal as real
    ensures amountTotal >= 0 ==> a >= 0.0
  {
    amountTotal as real / 100.0
  }

  /** The metadata of a session that may be recorded: all three fields
      truthy and a known payment type. */
  predicate Recordable(session: Session) {
    HasMetadata(session) && session.metadata.value.kind.value in {KindLineSkip, KindBid}
  }

  /** `eventId`, `userId` and `type` of the metadata are all truthy. */
  predicate HasMetadata(session: Session) {
    && session.metadata.Some?
    && Truthy(session.metadata.value.eventId)
    && Truthy(session.metadata.value.userId)
    && Truthy(session.metadata.value.kind)
  }

  /** The signature gate of `POST`: `None` once the event is verified,
      otherwise the error response. */
  function Gate(stripeKeySet: bool, signature: Option<string>, secretSet: bool, signatureValid: bool)
    : (r: Option<WebhookResponse>)
    ensures r.None? <==> stripeKeySet && Truthy(signature) && secretSet && signatureValid
    // a request without a signature, or with one that does not verify, is a client error
    ensures stripeKeySet && !Truthy(signature) ==> r == Some(WebhookResponse(400, ErrorBody(ErrMissingSignature)))
    ensures stripeKeySet && Truthy(signature) && secretSet && !signatureValid ==>
      r == Some(WebhookResponse(400, ErrorBody(ErrInvalidSignature)))
    // missing configuration is a server error
    ensures !stripeKeySet ==> r == Some(WebhookResponse(500, ErrorBody(ErrInternal)))
    ensures stripeKeySet && Truthy(signature) && !secretSet ==>
      r == Some(WebhookResponse(500, ErrorBody(ErrSecretNotConfigured)))
    ensures r.Some? ==> r.value.status in {400, 500} && r.value.body.ErrorBody?
  {
    if !stripeKeySet then Some(WebhookResponse(500, ErrorBody(ErrInternal)))
    else if !Truthy(signature) then Some(WebhookResponse(400, ErrorBody(ErrMissingSignature)))
    else if !secretSet then Some(WebhookResponse(500, ErrorBody(ErrSecretNotConfigured)))
    else if !signatureValid then Some(WebhookResponse(400, ErrorBody(ErrInvalidSignature)))
    else None
  }

  /** What `handleCheckoutCompleted` did. */
  datatype Outcome = MissingMetadata | UnknownType | AlreadyRecorded | InsertFailed | Recorded(row: RevenueRow)

  /** How the auto-approval of `userId` for `eventId` takes the request
      table from (`requests`, `nextId`) to (`requests'`, `nextId'`). */
  predicate ApprovalStep(events: map<Id, EventInfo>, requests: seq<EventRequest>, nextId: nat,
                         requests': seq<EventRequest>, nextId': nat, eventId: Id, userId: Id, now: int)
  {
    if eventId !in events || events[eventId].visibility == VisibilityPublic then
      // unknown and public events need no approval
      requests' == requests && nextId' == nextId
    else
      match FindRequest(requests, eventId, userId)
      // an approved request is left alone, any other is approved
      case Some(k) =>
        && (requests[k].status == Approved ==> requests' == requests)
        && (requests[k].status != Approved ==>
              requests' == requests[k := requests[k].(status := Approved, respondedAt := Some(now))])
        && nextId' == nextId
      // no request: a new approved one is inserted
      case None =>
        requests' == requests + [EventRequest(nextId, eventId, userId, Approved, now, Some(now))] && nextId' == nextId + 1
  }

  /** `autoApproveBidRequest(supabase, eventId, userId, sessionId)`. */
  method AutoApproveBidRequest(guests: GuestStore, eventId: Id, userId: Id, now: int)
    requires guests.Valid()
    modifies guests
    ensures guests.Valid() && guests.events == old(guests.events) && guests.users == old(guests.users)
    ensures ApprovalStep(guests.events, old(guests.requests), old(guests.nextId), guests.requests, guests.nextId, eventId, userId, now)
    // afterwards a buyer of a non-public event holds an approved request
    ensures eventId in guests.events && guests.events[eventId].visibility != VisibilityPublic ==>
      var k := FindRequest(guests.requests, eventId, userId);
      k.Some? && guests.requests[k.value].status == Approved
  {
    if eventId !in guests.events {
      return;
    }
    if guests.events[eventId].visibility == VisibilityPublic {
      return;
    }
    var existing := FindRequest(guests.requests, eventId, userId);
    if existing.Some? {
      var k := existing.value;
      if guests.requests[k].status != Approved {
        guests.SetStatus(k, Approved, now);
      }
      assert guests.requests[k].eventId == eventId && guests.requests[k].userId == userId;
      RequestIsFound(guests.requests, guests.nextId, k);
    } else {
      var req := guests.Insert(eventId, userId, Approved, now, Some(now));
      RequestIsFound(guests.requests, guests.nextId, |guests.requests| - 1);
    }
  }

  class RevenueLedger {
    /** The `event_revenue` table. */
    var rows: seq<RevenueRow>

    /** `stripe_session_id` is unique. */
    ghost predicate Valid()
      reads this
    {
      forall i, j :: 0 <= i < j < |rows| ==> rows[i].sessionId != rows[j].sessionId
    }

    constructor ()
      ensures Valid() && rows == []
    {
      rows := [];
    }

    /** The idempotency lookup: is there a row for this session? */
    predicate HasSession(sessionId: string)
      reads this
    {
      exists i :: 0 <= i < |rows| && rows[i].sessionId == sessionId
    }

    /** The insert; the unique constraint on `stripe_session_id` refuses a
        second row for a session. */
    method Insert(row: RevenueRow) returns (ok: bool)
      requires Valid()
      modifies this
      ensures Valid()
      ensures ok <==> !old(HasSession(row.sessionId))
      ensures ok ==> rows == old(rows) + [row]
      ensures !ok ==> rows == old(rows)
      ensures HasSession(row.sessionId)
    {
      if HasSession(row.sessionId) {
        return false;
      }
      rows := rows + [row];
      ok := true;
      assert rows[|rows| - 1].sessionId == row.sessionId;
    }
  }

  /** `handleCheckoutCompleted(event)`. `lookupFails` says the idempotency
      lookup returned an error, after which the code goes on to insert. */
  method HandleCheckoutCompleted(ledger: RevenueLedger, guests: GuestStore, session: Session, lookupFails: bool, now: int)
    returns (o: Outcome)
    requires ledger.Valid() && guests.Valid()
    modifies ledger, guests
    ensures ledger.Valid() && guests.Valid()
    ensures guests.events == old(guests.events) && guests.users == old(guests.users)
    // missing or unknown metadata writes nothing
    ensures !Recordable(session) ==>
      && (o == MissingMetadata || o == UnknownType)
      && ledger.rows == old(ledger.rows) && guests.requests == old(guests.requests) && guests.nextId == old(guests.nextId)
    ensures o == MissingMetadata <==> !HasMetadata(session)
    ensures o == UnknownType <==> HasMetadata(session) && session.metadata.value.kind.value !in {KindLineSkip, KindBid}
    // a session already recorded writes nothing, whether or not the lookup saw it
    ensures Recordable(session) && old(ledger.HasSession(session.id)) ==>
      && (o == AlreadyRecorded || o == InsertFailed)
      && ledger.rows == old(ledger.rows) && guests.requests == old(guests.requests) && guests.nextId == old(guests.nextId)
    // otherwise exactly one row, with the amount in currency units
    ensures Recordable(session) && !old(ledger.HasSession(session.id)) ==>
      var m := session.metadata.value;
      && o == Recorded(RevenueRow(m.eventId.value, m.userId.value, m.kind.value, AmountOf(session.amountTotal), session.id))
      && ledger.rows == old(ledger.rows) + [o.row]
    // only a recorded bid touches the requests table
    ensures !(o.Recorded? && o.row.kind == KindBid) ==>
      guests.requests == old(guests.requests) && guests.nextId == old(guests.nextId)
    ensures o.Recorded? && o.row.kind == KindBid && o.row.eventId in guests.events
            && guests.events[o.row.eventId].visibility != VisibilityPublic ==>
      var k := FindRequest(guests.requests, o.row.eventId, o.row.userId);
      k.Some? && guests.requests[k.value].status == Approved
    // a recorded bid changes the requests exactly as the auto-approval does
    ensures o.Recorded? && o.row.kind == KindBid ==>
      ApprovalStep(guests.events, old(guests.requests), old(guests.nextId), guests.requests, guests.nextId,
                   o.row.eventId, o.row.userId, now)
    // whatever happened, the session is now on record when it is recordable
    ensures Recordable(session) ==> ledger.HasSession(session.id)
  {
    var m := session.metadata;
    if m.None? || !Truthy(m.value.eventId) || !Truthy(m.value.userId) || !Truthy(m.value.kind) {
      return MissingMetadata;
    }
    var kind := m.value.kind.value;
    if kind != KindLineSkip && kind != KindBid {
      return UnknownType;
    }
    if !lookupFails && ledger.HasSession(session.id) {
      return AlreadyRecorded;
    }
    var row := RevenueRow(m.value.eventId.value, m.value.userId.value, kind, AmountOf(session.amountTotal), session.id);
    var ok := ledger.Insert(row);
    if !ok {
      return InsertFailed;
    }
    o := Recorded(row);
    if kind == KindBid {
      AutoApproveBidRequest(guests, row.eventId, row.userId, now);
    }
  }

  /** `POST(request)`. */
  method Post(ledger: RevenueLedger, guests: GuestStore,
              stripeKeySet: bool, signature: Option<string>, secretSet: bool, signatureValid: bool,
              event: StripeEvent, lookupFails: bool, now: int)
    returns (resp: WebhookResponse)
    requires ledger.Valid() && guests.Valid()
    modifies ledger, guests
    ensures ledger.Valid() && guests.Valid()
    // an unverified request gets its error and changes nothing
    ensures Gate(stripeKeySet, signature, secretSet, signatureValid).Some? ==>
      && resp == Gate(stripeKeySet, signature, secretSet, signatureValid).value
      && ledger.rows == old(ledger.rows) && guests.requests == old(guests.requests) && guests.nextId == old(guests.nextId)
    // once verified the answer is always 200 { received: true }
    ensures Gate(stripeKeySet, signature, secretSet, signatureValid).None? ==> resp == WebhookResponse(200, Received)
    ensures resp.status == 200 <==> Gate(stripeKeySet, signature, secretSet, signatureValid).None?
    // expired sessions and other event types write nothing
    ensures event.eventType != EventCompleted ==>
      ledger.rows == old(ledger.rows) && guests.requests == old(guests.requests) && guests.nextId == old(guests.nextId)
    // a verified completed session is on record afterwards ...
    ensures Gate(stripeKeySet, signature, secretSet, signatureValid).None? && event.eventType == EventCompleted
            && Recordable(event.session) ==>
      ledger.HasSession(event.session.id)
    // ... with exactly one new row when it was new ...
    ensures Gate(stripeKeySet, signature, secretSet, signatureValid).None? && event.eventType == EventCompleted
            && Recordable(event.session) && !old(ledger.HasSession(event.session.id)) ==>
      var m := event.session.metadata.value;
      ledger.rows == old(ledger.rows) + [RevenueRow(m.eventId.value, m.userId.value, m.kind.value, AmountOf(event.session.amountTotal), event.session.id)]
    // ... and a new bid approves its buyer as the auto-approval does
    ensures Gate(stripeKeySet, signature, secretSet, signatureValid).None? && event.eventType == EventCompleted
            && Recordable(event.session) && !old(ledger.HasSession(event.session.id))
            && event.session.metadata.value.kind.value == KindBid ==>
      var m := event.session.metadata.value;
      ApprovalStep(guests.events, old(guests.requests), old(guests.nextId), guests.requests, guests.nextId,
                   m.eventId.value, m.userId.value, now)
    // a verified completed session that is not recordable, or already recorded, writes nothing
    ensures Gate(stripeKeySet, signature, secretSet, signatureValid).None? && event.eventType == EventCompleted
            && (!Recordable(event.session) || old(ledger.HasSession(event.session.id))) ==>
      ledger.rows == old(ledger.rows) && guests.requests == old(guests.requests) && guests.nextId == old(guests.nextId)
  {
    var gate := Gate(stripeKeySet, signature, secretSet, signatureValid);
    if gate.Some? {
      return gate.value;
    }
    if event.eventType == EventCompleted {
      var o := HandleCheckoutCompleted(ledger, guests, event.session, lookupFails, now);
    }
    resp := WebhookResponse(200, Received);
  }

  /** Stripe may deliver the same completed session more than once; the
      second delivery writes nothing, whatever each lookup returned. */
  method RedeliveryIsIdempotent(ledger: RevenueLedger, guests: GuestStore, session: Session,
                                firstLookupFails: bool, secondLookupFails: bool, now: int, later: int)
    requires ledger.Valid() && guests.Valid()
    modifies ledger, guests
    ensures ledger.Valid() && guests.Valid()
    ensures Recordable(session) && !old(ledger.HasSession(session.id)) ==> |ledger.rows| == |old(ledger.rows)| + 1
    ensures !Recordable(session) || old(ledger.HasSession(session.id)) ==> ledger.rows == old(ledger.rows)
  {
    var first := HandleCheckoutCompleted(ledger, guests, session, firstLookupFails, now);
    ghost var afterFirst := ledger.rows;
    var second := HandleCheckoutCompleted(ledger, guests, session, secondLookupFails, later);
    assert ledger.rows == afterFirst;
  }
}
