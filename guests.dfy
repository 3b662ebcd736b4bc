/** Guest requests: the `event_requests` table, in which a user's request
    for an event moves from absent to pending and then to approved or
    denied, under admin and public-event guards; the per-event pending
    counts; and the safety-tier attachment of the request and guest lists.
    `checkIsAdmin(userId, groupId)` is an oracle `isAdmin(userId, groupId)`
    that is true when the lookup answered without error that the user is
    an admin; both call sites treat an error as "not an admin". */
module Guests {
  import opened Base

  const VisibilityPublic: string := "public"

  const ErrEventAndUserRequired: string := "Event ID and User ID are required"
  const ErrInvalidId: string := "Invalid ID format"
  const ErrEventNotFound: string := "Event not found"
  const ErrAdminSelfRequest: string := "Admins cannot add themselves to the guest list"
  const ErrPublicEvent: string := "Public events do not require requests"
  const ErrRequestExists: string := "Request already exists for this event"
  const ErrRequestAndAdminRequired: string := "Request ID and Admin User ID are required"
  const ErrRequestNotFound: string := "Request not found"
  const ErrAlreadyProcessed: string := "Request has already been processed"
  const ErrManualArgsRequired: string := "Event ID, User ID to add, and Admin User ID are required"
  const ErrUserNotFound: string := "User not found"
  const ErrAdminAsGuest: string := "Admins cannot be added to the guest list"
  const ErrAlreadyGuest: string := "User is already on the guest list"
  const ErrAdminIdRequired: string := "Admin User ID is required"
  const ErrCountsAdminOnly: string := "Only admins can view event request counts"

  /** `validateAdminForEvent` builds its message from an action phrase. */
  function OnlyAdminsCan(action: string): string {
    "Only admins can " + action
  }

  /** The columns of an `event` row that the guest functions read. */
  datatype EventInfo = EventInfo(fratId: Id, visibility: string)

  datatype RequestStatus = Pending | Approved | Denied

  /** An `event_requests` row. Request ids come from a counter. */
  datatype EventRequest = EventRequest(
    id: nat,
    eventId: Id,
    userId: Id,
    status: RequestStatus,
    requestedAt: int,
    respondedAt: Option<int>)

  /** The request of `userId` for `eventId` (`.maybeSingle()`). */
  function FindRequest(requests: seq<EventRequest>, eventId: Id, userId: Id): (k: Option<nat>)
    ensures k.Some? ==> k.value < |requests| && requests[k.value].eventId == eventId && requests[k.value].userId == userId
    ensures k.None? <==> forall i :: 0 <= i < |requests| ==> !(requests[i].eventId == eventId && requests[i].userId == userId)
  {
    if requests == [] then None
    else if requests[0].eventId == eventId && requests[0].userId == userId then Some(0)
    else
      match FindRequest(requests[1..], eventId, userId)
      case None => None
      case Some(k) => Some(k + 1)
  }

  /** The request with a given id (`.eq('id', requestId).single()`). */
  function FindById(requests: seq<EventRequest>, id: nat): (k: Option<nat>)
    ensures k.Some? ==> k.value < |requests| && requests[k.value].id == id
    ensures k.None? <==> forall i :: 0 <= i < |requests| ==> requests[i].id != id
  {
    if requests == [] then None
    else if requests[0].id == id then Some(0)
    else
      match FindById(requests[1..], id)
      case None => None
      case Some(k) => Some(k + 1)
  }

  /** At most one request per (event, user), and distinct request ids. */
  ghost predicate WellFormed(requests: seq<EventRequest>, nextId: nat) {
    && (forall i, j :: 0 <= i < j < |requests| ==>
          !(requests[i].eventId == requests[j].eventId && requests[i].userId == requests[j].userId))
    && (forall i, j :: 0 <= i < j < |requests| ==> requests[i].id != requests[j].id)
    && (forall i :: 0 <= i < |requests| ==> requests[i].id < nextId)
  }

  /** Changing one request's status and response time keeps the table well formed. */
  lemma StatusChangeKeepsWellFormed(requests: seq<EventRequest>, nextId: nat, k: nat, status: RequestStatus, at: Option<int>)
    requires WellFormed(requests, nextId) && k < |requests|
    ensures WellFormed(requests[k := requests[k].(status := status, respondedAt := at)], nextId)
  {
    var rs := requests[k := requests[k].(status := status, respondedAt := at)];
    assert forall i :: 0 <= i < |rs| ==>
      rs[i].id == requests[i].id && rs[i].eventId == requests[i].eventId && rs[i].userId == requests[i].userId;
  }

  /** In a well-formed table, the request at `k` is the one found for its pair. */
  lemma RequestIsFound(requests: seq<EventRequest>, nextId: nat, k: nat)
    requires WellFormed(requests, nextId) && k < |requests|
    ensures FindRequest(requests, requests[k].eventId, requests[k].userId) == Some(k)
  {
  }

  // ---------------------------------------------------------------------------
  // Pending counts

  /** 1 when `r` is a pending request for `eventId`, else 0. */
  function PendingAt(r: EventRequest, eventId: Id): nat {
    if r.eventId == eventId && r.status == Pending then 1 else 0
  }

  /** The number of pending requests for `eventId`. */
  function PendingCount(requests: seq<EventRequest>, eventId: Id): (n: nat)
    ensures n <= |requests|
  {
    if requests == [] then 0
    else PendingCount(requests[..|requests| - 1], eventId) + PendingAt(requests[|requests| - 1], eventId)
  }

  /** An event's count is zero exactly when none of its requests is pending. */
  lemma {:induction false} PendingCountZero(requests: seq<EventRequest>, eventId: Id)
    ensures PendingCount(requests, eventId) == 0 <==>
      forall i :: 0 <= i < |requests| ==> !(requests[i].eventId == eventId && requests[i].status == Pending)
    decreases |requests|
  {
    if requests != [] {
      var init := requests[..|requests| - 1];
      PendingCountZero(init, eventId);
      assert forall i :: 0 <= i < |init| ==> init[i] == requests[i];
    }
  }

  lemma PendingCountStep(requests: seq<EventRequest>, j: nat, eventId: Id)
    requires j < |requests|
    ensures PendingCount(requests[..j + 1], eventId) == PendingCount(requests[..j], eventId) + PendingAt(requests[j], eventId)
  {
    assert requests[..j + 1][..j] == requests[..j];
  }

  /** Replacing one request changes the event's pending count by exactly the
      difference of the two requests' contributions. */
  lemma {:induction false} PendingCountUpdate(requests: seq<EventRequest>, k: nat, r: EventRequest, eventId: Id)
    requires k < |requests|
    ensures PendingCount(requests[k := r], eventId) + PendingAt(requests[k], eventId)
      == PendingCount(requests, eventId) + PendingAt(r, eventId)
    decreases |requests|
  {
    var n := |requests|;
    var rs := requests[k := r];
    assert PendingCount(rs, eventId) == PendingCount(rs[..n - 1], eventId) + PendingAt(rs[n - 1], eventId);
    assert PendingCount(requests, eventId)
      == PendingCount(requests[..n - 1], eventId) + PendingAt(requests[n - 1], eventId);
    if k == n - 1 {
      assert rs[..n - 1] == requests[..n - 1];
    } else {
      assert rs[..n - 1] == requests[..n - 1][k := r];
      assert requests[..n - 1][k] == requests[k];
      PendingCountUpdate(requests[..n - 1], k, r, eventId);
    }
  }

  /** Deciding a pending request removes exactly one from its event's
      pending count and leaves every other event's count alone. */
  lemma DecisionLowersPendingCount(requests: seq<EventRequest>, k: nat, status: RequestStatus, at: Option<int>, eventId: Id)
    requires k < |requests| && requests[k].status == Pending && status != Pending
    ensures eventId == requests[k].eventId ==>
      PendingCount(requests[k := requests[k].(status := status, respondedAt := at)], eventId) + 1
        == PendingCount(requests, eventId)
    ensures eventId != requests[k].eventId ==>
      PendingCount(requests[k := requests[k].(status := status, respondedAt := at)], eventId)
        == PendingCount(requests, eventId)
  {
    PendingCountUpdate(requests, k, requests[k].(status := status, respondedAt := at), eventId);
  }

  /** A new pending request adds exactly one to its event's count. */
  lemma NewRequestRaisesPendingCount(requests: seq<EventRequest>, r: EventRequest, eventId: Id)
    ensures PendingCount(requests + [r], eventId) == PendingCount(requests, eventId) + PendingAt(r, eventId)
  {
    assert (requests + [r])[..|requests|] == requests;
  }

  // ---------------------------------------------------------------------------
  // Safety tiers

  /** The `safety_tier` object attached to a row: `{ tier, score }`. */
  datatype SafetyTier = SafetyTier(tier: Option<string>, score: Option<int>)

  /** The rule of `getEventRequests`/`getGuestList`. `tiers` is the
      `safetytier` lookup as a map from user to tier, or `None` when the
      lookup failed or returned no data. */
  function SafetyTierFor(tiers: Option<map<Id, string>>, userId: Id, rawScore: Option<int>): (t: Option<SafetyTier>)
    // a found (non-empty) tier gives { tier, score }
    ensures tiers.Some? && userId in tiers.value && tiers.value[userId] != "" ==>
      t == Some(SafetyTier(Some(tiers.value[userId]), NumOrNull(rawScore)))
    // with a successful lookup, a user without a tier gets null whatever the score
    ensures tiers.Some? && (userId !in tiers.value || tiers.value[userId] == "") ==> t.None?
    // a failed lookup keeps the score alone, or null when there is none
    ensures tiers.None? ==> (t.Some? <==> NumOrNull(rawScore).Some?)
    ensures tiers.None? && t.Some? ==> t.value.tier.None? && t.value.score == rawScore
    // an attached object always carries a tier or a score
    ensures t.Some? ==> t.value.tier.Some? || t.value.score.Some?
  {
    match tiers
    case Some(tierMap) =>
      if userId in tierMap && tierMap[userId] != "" then Some(SafetyTier(Some(tierMap[userId]), NumOrNull(rawScore)))
      else None
    case None =>
      var score := NumOrNull(rawScore);
      if score.Some? then Some(SafetyTier(None, score)) else None
  }

  /** A row of the request or guest list: the request, the joined user's
      raw `safety_score`, and the attached `safety_tier` (`None` for null
      or not yet attached). */
  datatype RequestRow = RequestRow(request: EventRequest, userScore: Option<int>, safetyTier: Option<SafetyTier>)

  /** The `forEach` that attaches `safety_tier` to every row in place. The
      lookup, and so the attachment, happens only when some row has a
      truthy `user_id`. */
  method AttachSafetyTiers(rows: array<RequestRow>, tiers: Option<map<Id, string>>)
    modifies rows
    ensures (exists i :: 0 <= i < rows.Length && old(rows[i]).request.userId != "") ==>
      forall i :: 0 <= i < rows.Length ==>
        rows[i] == old(rows[i]).(safetyTier := SafetyTierFor(tiers, old(rows[i]).request.userId, old(rows[i]).userScore))
    ensures (forall i :: 0 <= i < rows.Length ==> old(rows[i]).request.userId == "") ==> rows[..] == old(rows[..])
  {
    var any := false;
    var i := 0;
    while i < rows.Length
      invariant i <= rows.Length
      invariant any <==> exists j :: 0 <= j < i && rows[j].request.userId != ""
    {
      any := any || rows[i].request.userId != "";
      i := i + 1;
    }
    if !any {
      return;
    }
    i := 0;
    while i < rows.Length
      invariant i <= rows.Length
      invariant forall j :: 0 <= j < i ==>
        rows[j] == old(rows[j]).(safetyTier := SafetyTierFor(tiers, old(rows[j]).request.userId, old(rows[j]).userScore))
      invariant forall j :: i <= j < rows.Length ==> rows[j] == old(rows[j])
    {
      rows[i] := rows[i].(safetyTier := SafetyTierFor(tiers, rows[i].request.userId, rows[i].userScore));
      i := i + 1;
    }
  }

  /** The event lookup of `getEventsPendingCounts`: whether any requested
      event exists and whether the caller administers every one that does. */
  method ScanEvents(events: map<Id, EventInfo>, ids: seq<Id>, admins: set<Id>) returns (found: bool, authorized: bool)
    ensures found <==> exists j :: 0 <= j < |ids| && ids[j] in events
    ensures authorized <==> forall j :: (0 <= j < |ids| && ids[j] in events) ==> events[ids[j]].fratId in admins
  {
    found, authorized := false, true;
    var i := 0;
    while i < |ids|
      invariant i <= |ids|
      invariant found <==> exists j :: 0 <= j < i && ids[j] in events
      invariant authorized <==> forall j :: (0 <= j < i && ids[j] in events) ==> events[ids[j]].fratId in admins
    {
      if ids[i] in events {
        found := true;
        authorized := authorized && events[ids[i]].fratId in admins;
      }
      i := i + 1;
    }
  }

  /** A zero count for every requested id. */
  method ZeroCounts(ids: seq<Id>) returns (counts: map<Id, nat>)
    ensures forall e :: e in counts <==> e in ids
    ensures forall e :: e in counts ==> counts[e] == 0
  {
    counts := map[];
    var i := 0;
    while i < |ids|
      invariant i <= |ids|
      invariant forall e :: e in counts <==> e in ids[..i]
      invariant forall e :: e in counts ==> counts[e] == 0
    {
      assert ids[..i + 1] == ids[..i] + [ids[i]];
      counts := counts[ids[i] := 0];
      i := i + 1;
    }
    assert ids[..i] == ids;
  }

  /** The counting of `getEventsPendingCounts`: every requested id starts at
      zero and each pending request adds one to its event. */
  method TallyPending(requests: seq<EventRequest>, ids: seq<Id>) returns (counts: map<Id, nat>)
    ensures forall e :: e in counts <==> e in ids
    ensures forall e :: e in counts ==> counts[e] == PendingCount(requests, e)
  {
    counts := ZeroCounts(ids);
    var j := 0;
    while j < |requests|
      invariant j <= |requests|
      invariant forall e :: e in counts <==> e in ids
      invariant forall e :: e in counts ==> counts[e] == PendingCount(requests[..j], e)
    {
      var req := requests[j];
      forall e | e in counts
        ensures PendingCount(requests[..j + 1], e) == PendingCount(requests[..j], e) + PendingAt(req, e)
      {
        PendingCountStep(requests, j, e);
      }
      if req.status == Pending && req.eventId in counts {
        counts := counts[req.eventId := counts[req.eventId] + 1];
      }
      j := j + 1;
    }
    assert requests[..j] == requests;
  }

  // ---------------------------------------------------------------------------
  // The store

  class GuestStore {
    /** The `event` table: id to owning fraternity and visibility. */
    var events: map<Id, EventInfo>
    /** The ids of the `User` table. */
    var users: set<Id>
    /** The `event_requests` table. */
    var requests: seq<EventRequest>
    /** Source of fresh request ids. */
    var nextId: nat

    ghost predicate Valid()
      reads this
    {
      WellFormed(requests, nextId)
    }

    constructor (events: map<Id, EventInfo>, users: set<Id>)
      ensures Valid() && this.events == events && this.users == users && requests == [] && nextId == 0
    {
      this.events := events;
      this.users := users;
      requests := [];
      nextId := 0;
    }

    /** `validateAdminForEvent(supabase, eventId, adminUserId, action)`. */
    function ValidateAdminForEvent(eventId: Id, adminUserId: Id, action: string, isAdmin: (Id, Id) -> bool)
      : (r: Result<EventInfo>)
      reads this
      ensures r.Ok? <==> eventId in events && isAdmin(adminUserId, events[eventId].fratId)
      ensures r.Ok? ==> r.value == events[eventId]
      ensures eventId !in events ==> r == Err(ErrEventNotFound)
      ensures eventId in events && !isAdmin(adminUserId, events[eventId].fratId) ==> r == Err(OnlyAdminsCan(action))
    {
      if eventId !in events then Err(ErrEventNotFound)
      else if !isAdmin(adminUserId, events[eventId].fratId) then Err(OnlyAdminsCan(action))
      else Ok(events[eventId])
    }

    /** Inserts a request for a pair that has none. */
    method Insert(eventId: Id, userId: Id, status: RequestStatus, now: int, respondedAt: Option<int>)
      returns (req: EventRequest)
      requires Valid() && FindRequest(requests, eventId, userId).None?
      modifies this
      ensures Valid() && events == old(events) && users == old(users)
      ensures req == EventRequest(old(nextId), eventId, userId, status, now, respondedAt)
      ensures requests == old(requests) + [req] && nextId == old(nextId) + 1
    {
      req := EventRequest(nextId, eventId, userId, status, now, respondedAt);
      requests := requests + [req];
      nextId := nextId + 1;
    }

    /** Sets the status of request `k` and stamps `responded_at`. */
    method SetStatus(k: nat, status: RequestStatus, now: int)
      requires Valid() && k < |requests|
      modifies this
      ensures Valid() && events == old(events) && users == old(users) && nextId == old(nextId)
      ensures requests == old(requests)[k := old(requests)[k].(status := status, respondedAt := Some(now))]
    {
      StatusChangeKeepsWellFormed(requests, nextId, k, status, Some(now));
      requests := requests[k := requests[k].(status := status, respondedAt := Some(now))];
    }

    /** `createEventRequest(eventId, userId)`. */
    method CreateEventRequest(eventId: Option<string>, userId: Option<string>, isAdmin: (Id, Id) -> bool, now: int)
      returns (r: Result<EventRequest>)
      requires Valid()
      modifies this
      ensures Valid() && events == old(events) && users == old(users)
      ensures r.Err? ==> requests == old(requests) && nextId == old(nextId)
      ensures !Truthy(eventId) || !Truthy(userId) ==> r == Err(ErrEventAndUserRequired)
      ensures Truthy(eventId) && Truthy(userId) && !(IsUuid(eventId.value) && IsUuid(userId.value)) ==>
        r == Err(ErrInvalidId)
      ensures (&& Truthy(eventId) && Truthy(userId) && IsUuid(eventId.value) && IsUuid(userId.value)
               && eventId.value !in events) ==>
        r == Err(ErrEventNotFound)
      ensures (&& Truthy(eventId) && Truthy(userId) && IsUuid(eventId.value) && IsUuid(userId.value)
               && eventId.value in events && isAdmin(userId.value, events[eventId.value].fratId)) ==>
        r == Err(ErrAdminSelfRequest)
      ensures (&& Truthy(eventId) && Truthy(userId) && IsUuid(eventId.value) && IsUuid(userId.value)
               && eventId.value in events && !isAdmin(userId.value, events[eventId.value].fratId)
               && events[eventId.value].visibility == VisibilityPublic) ==>
        r == Err(ErrPublicEvent)
      ensures (&& Truthy(eventId) && Truthy(userId) && IsUuid(eventId.value) && IsUuid(userId.value)
               && eventId.value in events && !isAdmin(userId.value, events[eventId.value].fratId)
               && events[eventId.value].visibility != VisibilityPublic
               && FindRequest(old(requests), eventId.value, userId.value).Some?) ==>
        r == Err(ErrRequestExists)
      // the one successful path: a new pending request is appended
      ensures r.Ok? <==>
        && Truthy(eventId) && Truthy(userId) && IsUuid(eventId.value) && IsUuid(userId.value)
        && eventId.value in events && !isAdmin(userId.value, events[eventId.value].fratId)
        && events[eventId.value].visibility != VisibilityPublic
        && FindRequest(old(requests), eventId.value, userId.value).None?
      ensures r.Ok? ==>
        && r.value == EventRequest(old(nextId), eventId.value, userId.value, Pending, now, None)
        && requests == old(requests) + [r.value]
    {
      if !Truthy(eventId) || !Truthy(userId) {
        return Err(ErrEventAndUserRequired);
      }
      var e := eventId.value;
      var u := userId.value;
      if !IsUuid(e) || !IsUuid(u) {
        return Err(ErrInvalidId);
      }
      if e !in events {
        return Err(ErrEventNotFound);
      }
      var event := events[e];
      if isAdmin(u, event.fratId) {
        return Err(ErrAdminSelfRequest);
      }
      if event.visibility == VisibilityPublic {
        return Err(ErrPublicEvent);
      }
      if FindRequest(requests, e, u).Some? {
        return Err(ErrRequestExists);
      }
      var req := Insert(e, u, Pending, now, None);
      r := Ok(req);
    }

    /** `approveRequest(requestId, adminUserId)` when `approve`, else
        `denyRequest(requestId, adminUserId)`: the two differ only in the
        status written and the action named in the admin error. */
    method RespondToRequest(requestId: Option<nat>, adminUserId: Option<string>, approve: bool,
                            isAdmin: (Id, Id) -> bool, now: int)
      returns (r: Result<EventRequest>)
      requires Valid()
      modifies this
      ensures Valid() && events == old(events) && users == old(users) && nextId == old(nextId)
      ensures r.Err? ==> requests == old(requests)
      ensures requestId.None? || !Truthy(adminUserId) ==> r == Err(ErrRequestAndAdminRequired)
      ensures requestId.Some? && Truthy(adminUserId) && FindById(old(requests), requestId.value).None? ==>
        r == Err(ErrRequestNotFound)
      ensures requestId.Some? && Truthy(adminUserId) && FindById(old(requests), requestId.value).Some? ==>
        var k := FindById(old(requests), requestId.value).value;
        var req := old(requests)[k];
        var verdict := ValidateAdminForEvent(req.eventId, adminUserId.value,
                                             if approve then "approve requests" else "deny requests", isAdmin);
        // only a pending request is decided ...
        && (req.status != Pending ==> r == Err(ErrAlreadyProcessed))
        // ... and only by an admin of the event's fraternity
        && (req.status == Pending && verdict.Err? ==> r == Err(verdict.message))
        && (req.status == Pending && verdict.Ok? ==>
              && requests == old(requests)[k := req.(status := if approve then Approved else Denied, respondedAt := Some(now))]
              && r == Ok(requests[k]))
      // a success always decided a request that was pending
      ensures r.Ok? ==> exists k :: (&& 0 <= k < |old(requests)| && old(requests)[k].status == Pending
                                     && requests == old(requests)[k := r.value] && r.value.status != Pending)
    {
      if requestId.None? || !Truthy(adminUserId) {
        return Err(ErrRequestAndAdminRequired);
      }
      var found := FindById(requests, requestId.value);
      if found.None? {
        return Err(ErrRequestNotFound);
      }
      var k := found.value;
      var req := requests[k];
      if req.status != Pending {
        return Err(ErrAlreadyProcessed);
      }
      var action := if approve then "approve requests" else "deny requests";
      var verdict := ValidateAdminForEvent(req.eventId, adminUserId.value, action, isAdmin);
      if verdict.Err? {
        return Err(verdict.message);
      }
      SetStatus(k, if approve then Approved else Denied, now);
      r := Ok(requests[k]);
    }

    /** `manuallyAddGuest(eventId, userIdToAdd, adminUserId)`. */
    method ManuallyAddGuest(eventId: Option<string>, userIdToAdd: Option<string>, adminUserId: Option<string>,
                            isAdmin: (Id, Id) -> bool, now: int)
      returns (r: Result<EventRequest>)
      requires Valid()
      modifies this
      ensures Valid() && events == old(events) && users == old(users)
      ensures r.Err? ==> requests == old(requests) && nextId == old(nextId)
      ensures !Truthy(eventId) || !Truthy(userIdToAdd) || !Truthy(adminUserId) ==> r == Err(ErrManualArgsRequired)
      ensures Truthy(eventId) && Truthy(userIdToAdd) && Truthy(adminUserId) ==>
        var e := eventId.value;
        var u := userIdToAdd.value;
        var verdict := ValidateAdminForEvent(e, adminUserId.value, "manually add guests", isAdmin);
        && (verdict.Err? ==> r == Err(verdict.message))
        && (verdict.Ok? && u !in users ==> r == Err(ErrUserNotFound))
        // an admin of the owning fraternity is never a guest
        && (verdict.Ok? && u in users && isAdmin(u, verdict.value.fratId) ==> r == Err(ErrAdminAsGuest))
        && (verdict.Ok? && u in users && !isAdmin(u, verdict.value.fratId) ==>
              match FindRequest(old(requests), e, u)
              // an approved request is refused
              case Some(k) => (old(requests)[k].status == Approved ==> r == Err(ErrAlreadyGuest))
                // a pending or denied one is approved
                && (old(requests)[k].status != Approved ==>
                      && requests == old(requests)[k := old(requests)[k].(status := Approved, respondedAt := Some(now))]
                      && nextId == old(nextId)
                      && r == Ok(requests[k]))
              // otherwise a new approved request is inserted
              case None =>
                && r == Ok(EventRequest(old(nextId), e, u, Approved, now, Some(now)))
                && requests == old(requests) + [r.value])
      ensures r.Ok? ==> r.value.status == Approved && r.value in requests
    {
      if !Truthy(eventId) || !Truthy(userIdToAdd) || !Truthy(adminUserId) {
        return Err(ErrManualArgsRequired);
      }
      var e := eventId.value;
      var u := userIdToAdd.value;
      var verdict := ValidateAdminForEvent(e, adminUserId.value, "manually add guests", isAdmin);
      if verdict.Err? {
        return Err(verdict.message);
      }
      if u !in users {
        return Err(ErrUserNotFound);
      }
      if isAdmin(u, verdict.value.fratId) {
        return Err(ErrAdminAsGuest);
      }
      var existing := FindRequest(requests, e, u);
      if existing.Some? {
        var k := existing.value;
        if requests[k].status == Approved {
          return Err(ErrAlreadyGuest);
        }
        SetStatus(k, Approved, now);
        r := Ok(requests[k]);
      } else {
        var req := Insert(e, u, Approved, now, Some(now));
        r := Ok(req);
      }
    }

    /** `getEventsPendingCounts(eventIds, adminUserId)`. `eventIds` is `None`
        when missing or not an array; `adminMemberships` and
        `createdFraternities` are the groups the admin holds the admin role
        in and the fraternities they created. */
    method GetEventsPendingCounts(eventIds: Option<seq<Id>>, adminUserId: Option<string>,
                                  adminMemberships: set<Id>, createdFraternities: set<Id>)
      returns (r: Result<map<Id, nat>>)
      // no ids: an empty map and no error
      ensures eventIds.None? || eventIds.value == [] ==> r == Ok(map[])
      ensures eventIds.Some? && eventIds.value != [] && !Truthy(adminUserId) ==> r == Err(ErrAdminIdRequired)
      // none of the events exists: an empty map and no error
      ensures (&& eventIds.Some? && eventIds.value != [] && Truthy(adminUserId)
               && forall i :: 0 <= i < |eventIds.value| ==> eventIds.value[i] !in events) ==>
        r == Ok(map[])
      // every found event's fraternity must be administered or created by the caller
      ensures (&& eventIds.Some? && eventIds.value != [] && Truthy(adminUserId)
               && (exists i :: 0 <= i < |eventIds.value| && eventIds.value[i] in events)
               && exists i :: (&& 0 <= i < |eventIds.value| && eventIds.value[i] in events
                               && events[eventIds.value[i]].fratId !in adminMemberships + createdFraternities)) ==>
        r == Err(ErrCountsAdminOnly)
      // otherwise a count for every requested id
      ensures (&& eventIds.Some? && eventIds.value != [] && Truthy(adminUserId)
               && (exists i :: 0 <= i < |eventIds.value| && eventIds.value[i] in events)
               && forall i :: (0 <= i < |eventIds.value| && eventIds.value[i] in events) ==>
                    events[eventIds.value[i]].fratId in adminMemberships + createdFraternities) ==>
        && r.Ok?
        && (forall e :: e in r.value <==> e in eventIds.value)
        && (forall e :: e in r.value ==> r.value[e] == PendingCount(requests, e))
    {
      if eventIds.None? || |eventIds.value| == 0 {
        return Ok(map[]);
      }
      if !Truthy(adminUserId) {
        return Err(ErrAdminIdRequired);
      }
      var ids := eventIds.value;
      var found, authorized := ScanEvents(events, ids, adminMemberships + createdFraternities);
      if !found {
        return Ok(map[]);
      }
      if !authorized {
        return Err(ErrCountsAdminOnly);
      }
      var counts := TallyPending(requests, ids);
      r := Ok(counts);
    }
  }
}
