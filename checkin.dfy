/** The in-memory attendance store: a list of check-in records that
    check-in appends to and check-out flips in place, with the invariant
    that at most one record per (event, user) is active. It also stands
    for the database-backed `checkOutUser` that the location tracker calls.
    Beside it, the pure validator of the QR string a guest shows. */
module CheckIn {
  import opened Base

  const EntryMethodQrScan: string := "qr_scan"
  const QrPrefix: string := "user-"

  const ErrInvalidQrFormat: string := "Invalid QR code format"
  const ErrAlreadyCheckedIn: string := "User is already checked in"
  const ErrNotCheckedIn: string := "User is not checked in"

  datatype CheckInRecord = CheckInRecord(
    id: nat,
    eventId: Id,
    userId: Id,
    checkedInAt: int,
    checkedOutAt: Option<int>,
    isCheckedIn: bool,
    entryMethod: string,
    lastLocationLat: Option<real>,
    lastLocationLng: Option<real>,
    lastLocationAt: Option<int>)

  predicate ActiveFor(r: CheckInRecord, eventId: Id, userId: Id) {
    r.eventId == eventId && r.userId == userId && r.isCheckedIn
  }

  /** The store's invariant: no two active records share (event, user). */
  ghost predicate AtMostOneActive(records: seq<CheckInRecord>) {
    forall i, j :: 0 <= i < j < |records| && records[i].isCheckedIn && records[j].isCheckedIn ==>
      records[i].eventId != records[j].eventId || records[i].userId != records[j].userId
  }

  /** `records.find(ci => ci.event_id === eventId && ci.user_id === userId && ci.is_checked_in)`,
      as an index. */
  function FindActive(records: seq<CheckInRecord>, eventId: Id, userId: Id): (k: Option<nat>)
    ensures k.Some? ==> k.value < |records| && ActiveFor(records[k.value], eventId, userId)
    ensures k.Some? ==> forall i :: 0 <= i < k.value ==> !ActiveFor(records[i], eventId, userId)
    ensures k.None? <==> forall i :: 0 <= i < |records| ==> !ActiveFor(records[i], eventId, userId)
  {
    if |records| == 0 then None
    else if ActiveFor(records[0], eventId, userId) then Some(0)
    else
      match FindActive(records[1..], eventId, userId)
      case None => None
      case Some(k) => Some(k + 1)
  }

  /** Under the invariant the active record found is the only one. */
  lemma ActiveIsUnique(records: seq<CheckInRecord>, eventId: Id, userId: Id, i: nat)
    requires AtMostOneActive(records)
    requires i < |records| && ActiveFor(records[i], eventId, userId)
    ensures FindActive(records, eventId, userId) == Some(i)
  {
  }

  /** `mockCheckInUser`'s only check of the scanned string. */
  predicate HasQrPrefix(qrCode: Option<string>) {
    qrCode.Some? && |qrCode.value| >= |QrPrefix| && qrCode.value[..|QrPrefix|] == QrPrefix
  }

  /** The record a successful check-in appends. */
  function NewCheckIn(id: nat, eventId: Id, userId: Id, now: int): (r: CheckInRecord)
    ensures ActiveFor(r, eventId, userId)
    ensures r.checkedOutAt.None? && r.entryMethod == EntryMethodQrScan && r.checkedInAt == now
  {
    CheckInRecord(id, eventId, userId, now, None, true, EntryMethodQrScan, None, None, None)
  }

  /** The check-out update: `is_checked_in = false`, `checked_out_at = now`. */
  function CheckedOut(r: CheckInRecord, now: int): (s: CheckInRecord)
    ensures !s.isCheckedIn && s.checkedOutAt == Some(now)
    ensures s.(isCheckedIn := r.isCheckedIn, checkedOutAt := r.checkedOutAt) == r
  {
    r.(isCheckedIn := false, checkedOutAt := Some(now))
  }

  // ---------------------------------------------------------------------------
  // Listing

  /** The event's active records in stored order (`filter`). */
  function ActiveAt(records: seq<CheckInRecord>, eventId: Id): (r: seq<CheckInRecord>)
    ensures forall x :: x in r <==> x in records && x.eventId == eventId && x.isCheckedIn
  {
    if records == [] then []
    else
      var last := records[|records| - 1];
      ActiveAt(records[..|records| - 1], eventId)
        + (if last.eventId == eventId && last.isCheckedIn then [last] else [])
  }

  lemma ActiveAtStep(records: seq<CheckInRecord>, i: nat, eventId: Id)
    requires i < |records|
    ensures ActiveAt(records[..i + 1], eventId) ==
      ActiveAt(records[..i], eventId)
        + (if records[i].eventId == eventId && records[i].isCheckedIn then [records[i]] else [])
  {
    assert records[..i + 1][..i] == records[..i];
  }

  lemma SameElements(a: seq<CheckInRecord>, b: seq<CheckInRecord>)
    requires multiset(a) == multiset(b)
    ensures forall x :: x in a ==> x in b
  {
    forall x | x in a ensures x in b {
      assert x in multiset(a);
    }
  }

  /** Sorted by `checked_in_at`, newest first. */
  predicate NewestFirst(s: seq<CheckInRecord>) {
    forall i, j :: 0 <= i < j < |s| ==> s[i].checkedInAt >= s[j].checkedInAt
  }

  /** Inserts `x` after every element at least as new, so that inserting the
      elements of a list one by one sorts it stably. */
  function InsertNewest(s: seq<CheckInRecord>, x: CheckInRecord): (r: seq<CheckInRecord>)
  {
    if s == [] then [x]
    else if s[0].checkedInAt < x.checkedInAt then [x] + s
    else [s[0]] + InsertNewest(s[1..], x)
  }

  lemma {:induction false} InsertNewestPermutes(s: seq<CheckInRecord>, x: CheckInRecord)
    ensures multiset(InsertNewest(s, x)) == multiset(s) + multiset{x}
  {
    if s != [] && s[0].checkedInAt >= x.checkedInAt {
      var rest := InsertNewest(s[1..], x);
      InsertNewestPermutes(s[1..], x);
      assert InsertNewest(s, x) == [s[0]] + rest;
      assert multiset([s[0]] + rest) == multiset{s[0]} + multiset(rest);
      assert s == [s[0]] + s[1..];
      assert multiset(s) == multiset{s[0]} + multiset(s[1..]);
    }
  }

  lemma {:induction false} InsertNewestMembers(s: seq<CheckInRecord>, x: CheckInRecord)
    ensures forall y :: y in InsertNewest(s, x) ==> y in s || y == x
  {
    if s != [] && s[0].checkedInAt >= x.checkedInAt {
      InsertNewestMembers(s[1..], x);
      assert InsertNewest(s, x) == [s[0]] + InsertNewest(s[1..], x);
      assert forall y :: y in s[1..] ==> y in s;
    }
  }

  lemma {:induction false} InsertNewestSorted(s: seq<CheckInRecord>, x: CheckInRecord)
    requires NewestFirst(s)
    ensures NewestFirst(InsertNewest(s, x))
  {
    if s != [] && s[0].checkedInAt >= x.checkedInAt {
      var rest := InsertNewest(s[1..], x);
      assert NewestFirst(s[1..]);
      InsertNewestSorted(s[1..], x);
      InsertNewestMembers(s[1..], x);
      assert forall k :: 0 <= k < |rest| ==> rest[k] in rest;
      assert forall y :: y in s[1..] ==> s[0].checkedInAt >= y.checkedInAt;
      assert InsertNewest(s, x) == [s[0]] + rest;
    }
  }

  /** The `sort` of `mockGetCheckedInUsers`: a stable sort by `checked_in_at`,
      newest first, here as insertion one element at a time. */
  method SortNewestFirst(s: seq<CheckInRecord>) returns (r: seq<CheckInRecord>)
    ensures multiset(r) == multiset(s)
    ensures NewestFirst(r)
  {
    r := [];
    var j := 0;
    while j < |s|
      invariant j <= |s|
      invariant NewestFirst(r)
      invariant multiset(r) == multiset(s[..j])
    {
      InsertNewestSorted(r, s[j]);
      InsertNewestPermutes(r, s[j]);
      assert s[..j + 1] == s[..j] + [s[j]];
      r := InsertNewest(r, s[j]);
      j := j + 1;
    }
    assert s[..j] == s;
  }

  // ---------------------------------------------------------------------------
  // QR string validation

  const ErrQrArgsRequired: string := "QR code, event ID, and user ID are required"
  const ErrQrBadFormat: string := "Invalid QR code format. Expected: user-{userId}-{eventId}"
  const ErrQrWrongUser: string := "QR code does not match user"
  const ErrQrWrongEvent: string := "QR code does not match event"
  const ErrQrFailed: string := "QR code validation failed"

  datatype QrVerdict = QrVerdict(valid: bool, error: Option<string>)

  /** The code a guest's pass must carry for (user, event). */
  function ExpectedQr(userId: string, eventId: string): string {
    QrPrefix + userId + "-" + eventId
  }

  /** Characters `.` does not match in a JavaScript regular expression. */
  predicate IsLineTerminator(c: char) {
    c == '\n' || c == '\r' || c == '\U{2028}' || c == '\U{2029}'
  }

  /** The smallest `k >= from` with `rest[k] == '-'` and at least one
      character after it: where the lazy `(.+?)` of `^user-(.+?)-(.+)$`
      stops. */
  function LazyDash(rest: string, from: nat): (k: Option<nat>)
    requires from >= 1
    ensures k.Some? ==> from <= k.value && k.value + 1 < |rest| && rest[k.value] == '-'
    ensures k.Some? ==> forall j :: from <= j < k.value ==> rest[j] != '-'
    ensures k.None? ==> forall j :: from <= j && j + 1 < |rest| ==> rest[j] != '-'
    decreases |rest| - from
  {
    if from + 1 >= |rest| then None
    else if rest[from] == '-' then Some(from)
    else LazyDash(rest, from + 1)
  }

  /** `qrCode.match(/^user-(.+?)-(.+)$/)`: the two captured groups. */
  function MatchQr(qrCode: string): (m: Option<(string, string)>)
    ensures m.Some? ==> qrCode == QrPrefix + m.value.0 + "-" + m.value.1
    ensures m.Some? ==> m.value.0 != [] && m.value.1 != []
    // the user group stops at the first dash after its first character
    ensures m.Some? ==> forall j :: 1 <= j < |m.value.0| ==> m.value.0[j] != '-'
  {
    if |qrCode| < |QrPrefix| || qrCode[..|QrPrefix|] != QrPrefix then None
    else
      var rest := qrCode[|QrPrefix|..];
      if exists j :: 0 <= j < |rest| && IsLineTerminator(rest[j]) then None
      else
        match LazyDash(rest, 1)
        case None => None
        case Some(k) =>
          assert qrCode == QrPrefix + rest[..k] + "-" + rest[k + 1..] by {
            assert rest == rest[..k] + [rest[k]] + rest[k + 1..];
          }
          Some((rest[..k], rest[k + 1..]))
  }

  /** `mockValidateUserQRCode(qrCode, eventId, userId)` as written. */
  function ValidateUserQRCode(qrCode: Option<string>, eventId: Option<string>, userId: Option<string>): (r: QrVerdict)
    // valid exactly when all three are present and the code is user-{userId}-{eventId}
    ensures r.valid <==>
      Truthy(qrCode) && Truthy(eventId) && Truthy(userId)
      && qrCode.value == ExpectedQr(userId.value, eventId.value)
    // an invalid verdict always carries a message, a valid one none
    ensures r.valid <==> r.error.None?
    ensures !(Truthy(qrCode) && Truthy(eventId) && Truthy(userId)) ==> r.error == Some(ErrQrArgsRequired)
  {
    if !Truthy(qrCode) || !Truthy(eventId) || !Truthy(userId) then
      QrVerdict(false, Some(ErrQrArgsRequired))
    else if qrCode.value != ExpectedQr(userId.value, eventId.value) then
      match MatchQr(qrCode.value)
      case None => QrVerdict(false, Some(ErrQrBadFormat))
      case Some((extractedUser, extractedEvent)) =>
        if extractedUser != userId.value then QrVerdict(false, Some(ErrQrWrongUser))
        else if extractedEvent != eventId.value then QrVerdict(false, Some(ErrQrWrongEvent))
        else QrVerdict(false, Some(ErrQrFailed))
    else QrVerdict(true, None)
  }

  /** The final "validation failed" answer can never be given: when both
      captured groups equal the expected ids the code is the expected one. */
  lemma ValidationFailedUnreachable(qrCode: Option<string>, eventId: Option<string>, userId: Option<string>)
    ensures ValidateUserQRCode(qrCode, eventId, userId).error != Some(ErrQrFailed)
  {
  }

  /** With UUID user ids (which contain dashes) the lazy group stops inside
      the user id, so a pass for the right user but another event is
      reported as belonging to another user. */
  lemma {:induction false} QrWrongEventReportedAsWrongUser(userId: string, eventId: string, otherEventId: string)
    requires IsUuid(userId)
    requires eventId != "" && otherEventId != "" && eventId != otherEventId
    requires forall j :: 0 <= j < |otherEventId| ==> !IsLineTerminator(otherEventId[j])
    ensures ValidateUserQRCode(Some(ExpectedQr(userId, otherEventId)), Some(eventId), Some(userId)).error
      == Some(ErrQrWrongUser)
  {
    var qr := ExpectedQr(userId, otherEventId);
    var rest := qr[|QrPrefix|..];
    assert qr[..|QrPrefix|] == QrPrefix;
    assert rest == userId + "-" + otherEventId;
    forall j | 0 <= j < |rest| ensures !IsLineTerminator(rest[j]) {
      if j < 36 {
        assert rest[j] == userId[j];
      } else if j > 36 {
        assert rest[j] == otherEventId[j - 37];
      }
    }
    assert rest[8] == '-';
    var m := MatchQr(qr);
    assert m.Some?;
    assert qr != ExpectedQr(userId, eventId) by {
      assert |qr| == |ExpectedQr(userId, eventId)| ==> qr[42..] != ExpectedQr(userId, eventId)[42..];
    }
    assert userId[8] == '-';
  }

  /** The evidently intended answer for a mismatching code: it names the
      event when the code carries the right user, and the user otherwise. */
  function ValidateUserQRCodeIntended(qrCode: Option<string>, eventId: Option<string>, userId: Option<string>): (r: QrVerdict)
    ensures r.valid <==>
      Truthy(qrCode) && Truthy(eventId) && Truthy(userId)
      && qrCode.value == ExpectedQr(userId.value, eventId.value)
    ensures r.valid <==> r.error.None?
  {
    if !Truthy(qrCode) || !Truthy(eventId) || !Truthy(userId) then
      QrVerdict(false, Some(ErrQrArgsRequired))
    else if qrCode.value == ExpectedQr(userId.value, eventId.value) then QrVerdict(true, None)
    else if MatchQr(qrCode.value).None? then QrVerdict(false, Some(ErrQrBadFormat))
    else
      var userPart := QrPrefix + userId.value + "-";
      if |userPart| <= |qrCode.value| && qrCode.value[..|userPart|] == userPart then
        QrVerdict(false, Some(ErrQrWrongEvent))
      else QrVerdict(false, Some(ErrQrWrongUser))
  }

  /** A well-formed pass for the right user and another event is reported
      as an event mismatch. */
  lemma IntendedReportsWrongEvent(userId: string, eventId: string, otherEventId: string)
    requires userId != "" && eventId != "" && otherEventId != "" && eventId != otherEventId
    requires MatchQr(ExpectedQr(userId, otherEventId)).Some?
    ensures ValidateUserQRCodeIntended(Some(ExpectedQr(userId, otherEventId)), Some(eventId), Some(userId)).error
      == Some(ErrQrWrongEvent)
  {
    var qr := ExpectedQr(userId, otherEventId);
    var userPart := QrPrefix + userId + "-";
    assert qr == userPart + otherEventId;
    assert qr[..|userPart|] == userPart;
    assert qr != ExpectedQr(userId, eventId) by {
      assert ExpectedQr(userId, eventId) == userPart + eventId;
      assert qr[|userPart|..] == otherEventId;
      assert ExpectedQr(userId, eventId)[|userPart|..] == eventId;
    }
  }

  /** Between UUID user ids, a pass issued to another user is reported as a
      user mismatch. */
  lemma {:induction false} IntendedReportsWrongUser(userId: string, otherUserId: string, eventId: string, otherEventId: string)
    requires IsUuid(userId) && IsUuid(otherUserId) && userId != otherUserId
    requires eventId != ""
    ensures ValidateUserQRCodeIntended(Some(ExpectedQr(otherUserId, otherEventId)), Some(eventId), Some(userId)).error
      == Some(ErrQrWrongUser) || MatchQr(ExpectedQr(otherUserId, otherEventId)).None?
  {
    var qr := ExpectedQr(otherUserId, otherEventId);
    var userPart := QrPrefix + userId + "-";
    assert qr[5..41] == otherUserId;
    assert ExpectedQr(userId, eventId)[5..41] == userId;
    assert userPart[5..41] == userId;
    assert |userPart| <= |qr| ==> qr[..|userPart|][5..41] == qr[5..41];
  }

  // ---------------------------------------------------------------------------
  // The store

  class CheckInStore {
    /** `mockCheckIns`. */
    var records: seq<CheckInRecord>
    /** Source of fresh record ids (`mock-checkin-${Date.now()}`). */
    var nextId: nat

    ghost predicate Valid()
      reads this
    {
      && AtMostOneActive(records)
      && forall i :: 0 <= i < |records| ==> records[i].id < nextId
    }

    constructor ()
      ensures Valid() && records == [] && nextId == 0
    {
      records := [];
      nextId := 0;
    }

    /** `mockIsUserCheckedIn(eventId, userId)`. */
    function IsUserCheckedIn(eventId: Id, userId: Id): (b: bool)
      reads this
      ensures b <==> exists i :: 0 <= i < |records| && ActiveFor(records[i], eventId, userId)
    {
      FindActive(records, eventId, userId).Some?
    }

    /** `mockCheckInUser(eventId, userId, qrCode, adminUserId)`. */
    method CheckInUser(eventId: Id, userId: Id, qrCode: Option<string>, adminUserId: Option<Id>, now: int)
      returns (r: Result<CheckInRecord>)
      requires Valid()
      modifies this
      ensures Valid()
      // a missing code, or one not starting with "user-", is refused with no change
      ensures !HasQrPrefix(qrCode) ==>
        r == Err(ErrInvalidQrFormat) && records == old(records) && nextId == old(nextId)
      // no double check-in
      ensures HasQrPrefix(qrCode) && FindActive(old(records), eventId, userId).Some? ==>
        r == Err(ErrAlreadyCheckedIn) && records == old(records) && nextId == old(nextId)
      // otherwise exactly one active qr_scan record is appended
      ensures HasQrPrefix(qrCode) && FindActive(old(records), eventId, userId).None? ==>
        && r == Ok(NewCheckIn(old(nextId), eventId, userId, now))
        && records == old(records) + [r.value]
      ensures r.Ok? ==> IsUserCheckedIn(eventId, userId)
    {
      if !HasQrPrefix(qrCode) {
        return Err(ErrInvalidQrFormat);
      }
      if FindActive(records, eventId, userId).Some? {
        return Err(ErrAlreadyCheckedIn);
      }
      var rec := NewCheckIn(nextId, eventId, userId, now);
      records := records + [rec];
      nextId := nextId + 1;
      r := Ok(rec);
      assert ActiveFor(records[|records| - 1], eventId, userId);
    }

    /** `mockCheckOutUser(eventId, userId, adminUserId)`; `adminUserId` is
        `None` for an automatic check-out and is not consulted. */
    method CheckOutUser(eventId: Id, userId: Id, adminUserId: Option<Id>, now: int)
      returns (r: Result<CheckInRecord>)
      requires Valid()
      modifies this
      ensures Valid() && nextId == old(nextId)
      ensures FindActive(old(records), eventId, userId).None? ==>
        r == Err(ErrNotCheckedIn) && records == old(records)
      ensures FindActive(old(records), eventId, userId).Some? ==>
        var k := FindActive(old(records), eventId, userId).value;
        && records == old(records)[k := CheckedOut(old(records)[k], now)]
        && r == Ok(records[k])
      // afterwards the user is not checked in at that event
      ensures !IsUserCheckedIn(eventId, userId)
    {
      var found := FindActive(records, eventId, userId);
      if found.None? {
        return Err(ErrNotCheckedIn);
      }
      var k := found.value;
      records := records[k := CheckedOut(records[k], now)];
      r := Ok(records[k]);
    }

    /** `mockGetCheckedInUsers(eventId, adminUserId)`: the event's active
        records, newest check-in first. */
    method GetCheckedInUsers(eventId: Id, adminUserId: Option<Id>) returns (r: seq<CheckInRecord>)
      ensures multiset(r) == multiset(ActiveAt(records, eventId))
      ensures NewestFirst(r)
      ensures forall x :: x in r ==> x in records && x.eventId == eventId && x.isCheckedIn
    {
      var checkedIn: seq<CheckInRecord> := [];
      var i := 0;
      while i < |records|
        invariant i <= |records|
        invariant checkedIn == ActiveAt(records[..i], eventId)
      {
        ActiveAtStep(records, i, eventId);
        if records[i].eventId == eventId && records[i].isCheckedIn {
          checkedIn := checkedIn + [records[i]];
        }
        i := i + 1;
      }
      assert records[..i] == records;
      r := SortNewestFirst(checkedIn);
      SameElements(r, ActiveAt(records, eventId));
    }
  }
}
