# BidMVP core rules in Dafny

BidMVP runs fraternity party admission. Guests request entry to invite-only
events. Admins approve or deny the requests, or add guests by hand. A paid
bid (a Stripe checkout) approves its buyer automatically. At the door a QR
code checks the guest in. While the guest is at the party, their phone
reports its position. A guest who stays more than 150 metres from the venue
for five minutes is checked out automatically.

This project models the rules under that flow and proves what they promise.
There is one Dafny module per source file:

| module | file | models |
|---|---|---|
| `Base` | (shared) | JavaScript truthiness and `trim()`, ASCII `toLowerCase()`, the UUID regex, integer-to-string, coordinate ranges |
| `Errors` | `errors.dfy` | `serializeError` |
| `Geocoding` | `geocoding.dfy` | the Nominatim throttle on `lastRequestTime` and the result validation of `geocodeAddress` |
| `CheckIn` | `checkin.dfy` | the in-memory check-in store (check in, check out, list, query) and the QR validator |
| `Tracker` | `tracker.dfy` | venue coordinates (literal `"lat,lng"` or geocoded) with their cache on the event row, location tracking, the radius decision and the automatic check-out |
| `Geofence` | `geofence.dfy` | the browser tracker component: the five-minute outside timer, start/stop, position errors and permission events |
| `Fraternity` | `fraternity.dfy` | the in-memory fraternity store: create, update, search, members, roles, verification thresholds and event eligibility |
| `Guests` | `guests.dfy` | the guest-request lifecycle on `event_requests`, admin guards, pending counts and the safety-tier attachment |
| `Webhook` | `webhook.dfy` | the Stripe webhook: the signature gate, the idempotent revenue insert and the bid auto-approval |
| `Schools` | `schools.dfy` | domain normalisation and validation, school creation with its duplicate fallback, search with a clamped limit, linking a user to a school |

The model makes these choices:

- **Time.** Time is an integer count of milliseconds, passed in as `now`.
- **Tables.** Database tables are fields of a class: a `seq` when rows are found by scanning, a `map` when they are found by key.
- **Abstract operations.** These are parameters:
  - the Haversine distance is an arbitrary function `dist`;
  - `checkIsAdmin` is an oracle `isAdmin(user, fraternity)`;
  - Stripe signature verification is a boolean;
  - the geocoder's HTTP answer is a `Response` value;
  - whether the cache write lands is a boolean.
- **Sequential state.** Each piece of state the source keeps in module scope is an object whose methods run one at a time:
  - `lastRequestTime`;
  - the mock arrays;
  - the React state and refs.
- **Check-out.** `lib/location/tracker.js` imports `checkOutUser` from a file that is not part of this model. Its contract is taken to be that of `mockCheckOutUser`, so the automatic check-out calls `CheckIn.CheckInStore.CheckOutUser`.

## Model

| member | source | states |
|---|---|---|
| `Base.NumOrNull` | lib/utils/errors.js:17 | `n \|\| null` for a number (`statusCode`, and `safety_score` at lib/supabase/guests.js:297): kept exactly when it is present and not 0 |
| `Errors.SerializeError` | lib/utils/errors.js:12-21 | a missing error gives exactly `{ message: default }`; an error gives all five keys; the message is the error's own when truthy, else the default, which is never empty when omitted; each of code, statusCode, details and hint is copied unchanged when truthy and is null exactly when falsy |
| `Errors.ReserializeIsStable` | lib/utils/errors.js:12-21 | serialising a serialised error with the same default gives it back, except that a bare `{ message }` gains null keys |
| `Base.TrimEmptyIffBlank` | lib/geocoding/nominatim.js:17 | `trim()` is empty exactly when every character is JavaScript white space |
| `Base.TrimIdempotent` | lib/location/tracker.js:57 | trimming twice is trimming once |
| `Base.TrimStart` | lib/location/tracker.js:57 | the leading white space goes: the result is a suffix that is empty or starts with a non-space, and all that was dropped is space |
| `Base.TrimEnd` | lib/location/tracker.js:57 | the trailing white space goes: the result is a prefix that is empty or ends with a non-space, and all that was dropped is space |
| `Base.Trim` | lib/location/tracker.js:57 | `trim()` is no longer than its input and neither starts nor ends with white space |
| `Base.UuidOfGroups` | lib/location/tracker.js:143-144 | five hex groups of 8, 4, 4, 4 and 12 digits joined by dashes pass the UUID regex |
| `Base.UuidGroups` | lib/location/tracker.js:143-144 | every string that passes the UUID regex is such five hex groups joined by dashes |
| `Base.TrimLowerCommute` | lib/supabase/schools.js:24 | lower-casing and trimming commute |
| `Base.OrNull` | lib/mocks/fraternityData.js:87 | `x \|\| null` keeps a string exactly when it is non-empty |
| `Geocoding.ThrottleDelay` | lib/geocoding/nominatim.js:22-28 | the wait is 0 when 1000 ms have passed since the last request, otherwise exactly the rest of the 1000 ms; afterwards the gap is at least 1000 ms |
| `Geocoding.ReadResponse` | lib/geocoding/nominatim.js:44-71 | a value exactly for an ok array response whose first result has finite, in-range lat and lon, and then `{ lat, lng: lon }` |
| `Geocoding.SpacedApart` | lib/geocoding/nominatim.js:6-7 | in a history of sequential requests, requests i and j are at least (j - i) × 1000 ms apart |
| `Geocoding.Geocoder.constructor` | lib/geocoding/nominatim.js:6 | the throttle starts with `lastRequestTime` 0 and no request sent |
| `Geocoding.Geocoder.GeocodeAddress` | lib/geocoding/nominatim.js:14-76 | a missing or blank address gives null with no wait and no state change; otherwise it waits `ThrottleDelay`, records a send time at least 1000 ms after the previous one, and returns `ReadResponse` of the answer |
| `CheckIn.FindActive` | lib/mocks/checkinData.js:103-105 | the first active record of (event, user), or none exactly when there is none |
| `CheckIn.ActiveIsUnique` | lib/mocks/checkinData.js:138-140 | under the store invariant, the active record of (event, user) is the one `find` returns |
| `CheckIn.NewCheckIn` | lib/mocks/checkinData.js:112-121 | a new record is active, has no check-out time, has entry method `qr_scan`, and is stamped with the current time |
| `CheckIn.CheckedOut` | lib/mocks/checkinData.js:147-148 | check-out clears `is_checked_in`, sets `checked_out_at`, and changes nothing else |
| `CheckIn.ActiveAt` | lib/mocks/checkinData.js:162-164 | the filter keeps exactly the event's active records |
| `CheckIn.InsertNewestPermutes` | lib/mocks/checkinData.js:167-169 | an insertion step of the sort permutes |
| `CheckIn.InsertNewestSorted` | lib/mocks/checkinData.js:167-169 | an insertion step keeps the list newest-first |
| `CheckIn.SortNewestFirst` | lib/mocks/checkinData.js:167-169 | the sort returns a permutation of its input ordered newest `checked_in_at` first |
| `CheckIn.MatchQr` | lib/mocks/checkinData.js:205 | a match of `^user-(.+?)-(.+)$` splits the code as `user-` + a + `-` + b with both groups non-empty and a free of dashes after its first character |
| `CheckIn.ValidateUserQRCode` | lib/mocks/checkinData.js:197-222 | valid exactly when all three arguments are non-empty and the code is `user-{userId}-{eventId}`; invalid verdicts carry a message; missing arguments give the "required" message |
| `CheckIn.ValidationFailedUnreachable` | lib/mocks/checkinData.js:218 | the final "QR code validation failed" message is never returned |
| `CheckIn.QrWrongEventReportedAsWrongUser` | lib/mocks/checkinData.js:205-213 | see Findings: for a UUID user id, a code for another event is reported as not matching the user |
| `CheckIn.ValidateUserQRCodeIntended` | lib/mocks/checkinData.js:197-222 | the corrected validator has the same valid/invalid verdict as the original |
| `CheckIn.IntendedReportsWrongEvent` | lib/mocks/checkinData.js:214-216 | the corrected validator reports a code for another event as not matching the event |
| `CheckIn.IntendedReportsWrongUser` | lib/mocks/checkinData.js:211-213 | the corrected validator reports a well-formed code for another UUID user as not matching the user |
| `CheckIn.CheckInStore.constructor` | lib/mocks/checkinData.js:94-126 | an empty store satisfies the at-most-one-active invariant |
| `CheckIn.CheckInStore.IsUserCheckedIn` | lib/mocks/checkinData.js:180-188 | true exactly when an active record of (event, user) exists |
| `CheckIn.CheckInStore.CheckInUser` | lib/mocks/checkinData.js:94-126 | a missing code, or one without the `user-` prefix, is refused; an existing active record gives "already checked in"; both leave the list unchanged; otherwise exactly one active `qr_scan` record is appended; the invariant is kept |
| `CheckIn.CheckInStore.CheckOutUser` | lib/mocks/checkinData.js:135-151 | with no active record it gives "not checked in" and no change; otherwise only that record is checked out; afterwards the user is not checked in; the invariant is kept |
| `CheckIn.CheckInStore.GetCheckedInUsers` | lib/mocks/checkinData.js:159-172 | exactly the event's active records (as a multiset), newest first |
| `Tracker.IndexOf` | lib/location/tracker.js:67 | the first position of the separator, or none when it is absent |
| `Tracker.ParseNumeral` | lib/location/tracker.js:65-67 | a parse succeeds only on a non-empty string of digits, dots and minus signs |
| `Tracker.ParseNumeralLanguage` | lib/location/tracker.js:65 | `ParseNumeral` (the pattern test followed by `Number`) succeeds exactly when the string is in the language of `-?\d+\.?\d*`: an optional minus, a digit first, then only digits and at most one dot |
| `Tracker.DecimalNumeralValue` | lib/location/tracker.js:67 | the numeral `[-]w.f` reads as ±(w + f / 10^\|f\|), with w and f the values of the digit strings |
| `Tracker.WholeNumeralValue` | lib/location/tracker.js:67 | the numeral `[-]w` reads as ±w |
| `Tracker.LiteralCoordinatesMatchPattern` | lib/location/tracker.js:65-67 | the literal reading of the trimmed text succeeds exactly when it matches `^-?\d+\.?\d*,-?\d+\.?\d*$` |
| `Tracker.ClassifyLocation` | lib/location/tracker.js:52-75 | a missing or blank location resolves to nothing; literal coordinates are taken only when both are in range; anything else is geocoded, trimmed and non-empty |
| `Tracker.LocationResult` | lib/location/tracker.js:52-75 | every coordinate pair returned is in range, and a blank location gives none |
| `Tracker.IntToStringParses` | lib/location/tracker.js:65-67 | the decimal text of an integer reads back as that integer |
| `Tracker.IntegerPairIsLiteral` | lib/location/tracker.js:65-70 | an in-range integer pair `"lat,lng"` is taken literally without geocoding |
| `Tracker.IntegerPairOutOfRangeIsGeocoded` | lib/location/tracker.js:65-74 | an out-of-range pair matching the pattern falls through to the geocoder |
| `Tracker.PaddedPairIsLiteral` | lib/location/tracker.js:57-70 | white space around a valid pair is trimmed before the pattern applies |
| `Tracker.DecimalPairIsLiteral` | lib/location/tracker.js:57-70 | `" 37.8719,-122.2585 "` gives the coordinates (37.8719, -122.2585) |
| `Tracker.LiteralPair` | lib/location/tracker.js:67 | `split(',')` of `a,b` reads both numerals |
| `Tracker.CachedCoordinates` | lib/location/tracker.js:97-102 | a cache hit exactly when both cached columns are non-null |
| `Tracker.WithCache` | lib/location/tracker.js:113-119 | writing the cache makes the next read hit with the written value and keeps the location text |
| `Tracker.ParseLocationToCoordinates` | lib/location/tracker.js:52-75 | returns `LocationResult`; only a location that is not usable literal coordinates costs a geocoder request |
| `Tracker.EventCoordinates` | lib/location/tracker.js:82-123 | an unknown event has no coordinates; a row with both cached columns answers them; a freshly resolved pair is in range |
| `Tracker.RowsAfterLookup` | lib/location/tracker.js:111-120 | the lookup keeps every row's key and location text and changes no other event's row |
| `Tracker.LookupThenHit` | lib/location/tracker.js:96-122 | a lookup does not change its own answer, and after a landed write-back every later lookup gives the same pair whatever the geocoder answers |
| `Tracker.EventTable.GetEventCoordinates` | lib/location/tracker.js:82-123 | an unknown event gives null; a cache hit is returned with no parse and no write; a miss resolves the location text and writes back only a success; afterwards a landed write is a hit; in all, the answer is `EventCoordinates` of the old rows and the new rows are `RowsAfterLookup` |
| `Tracker.PointOf` | lib/location/tracker.js:149-153 | validated arguments give an in-range point |
| `Tracker.ValidateLocationArgs` | lib/location/tracker.js:138-154 | passes exactly when both ids are UUIDs and both coordinates are in-range finite numbers; missing arguments give "All parameters are required" |
| `Tracker.EffectiveRadius` | lib/location/tracker.js:228-230 | a positive finite radius is kept; anything else becomes 150 |
| `Tracker.WithLastLocation` | lib/location/tracker.js:176-180 | only the three last-location columns change |
| `Tracker.TrackUserLocation` | lib/location/tracker.js:133-193 | invalid arguments give the validator's message and write nothing; no active record gives "not checked in"; otherwise only the active record's last-location columns change |
| `Tracker.CheckUserInRadius` | lib/location/tracker.js:204-254 | invalid arguments give the validator's message; no event coordinates give "Event location is required…"; otherwise the answer is an error exactly when the event has no coordinates (unknown, or a location that resolves to nothing), `inRadius` holds exactly when the distance is within the effective radius, the distance is measured to the event's coordinates, cached or freshly resolved, and a resolved miss is written back as `getEventCoordinates` does |
| `Tracker.AutoCheckOut` | lib/location/tracker.js:263-308 | no active record gives "not checked in"; errors write nothing; success closes exactly the active record; with no tracked position the guest is checked out unconditionally; with a tracked position, invalid ids or position give the validator's message, a venue without coordinates gives "Event location is required…", a position within 150 m of the venue (cached or resolved) gives "User is back in radius" with nobody checked out, and a position farther away checks the guest out |
| `Geofence.NextOutsideSince` | components/GeolocationTracker.js:53-80 | in radius resets to null; the first outside sample stamps its time; later ones keep the stamp and schedule a check-out exactly when it is at least five minutes old |
| `Geofence.OutsideRunKeepsFirstStamp` | components/GeolocationTracker.js:55-75 | through a run of outside samples the stamp stays the first sample's time |
| `Geofence.OutsideRunFires` | components/GeolocationTracker.js:61-75 | in such a run, sample i schedules a check-out exactly when it is at least five minutes after the first, so every later sample schedules another |
| `Geofence.InsideSampleResets` | components/GeolocationTracker.js:77-80 | an inside sample clears the stamp whatever came before |
| `Geofence.GeofenceMonitor.constructor` | components/GeolocationTracker.js:15-18 | the component starts stopped, with no stamp and no handles |
| `Geofence.GeofenceMonitor.StopTracking` | components/GeolocationTracker.js:20-30 | clears both handles and `isTracking`, changes nothing else, and is a no-op when already stopped |
| `Geofence.GeofenceMonitor.StartTracking` | components/GeolocationTracker.js:98-110 | does nothing while tracking; otherwise sets `isTracking`, installs the interval and takes one immediate sample |
| `Geofence.GeofenceMonitor.IntervalFired` | components/GeolocationTracker.js:104-106 | each tick of the 45 s interval takes one sample and changes nothing else |
| `Geofence.GeofenceMonitor.OnPosition` | components/GeolocationTracker.js:34-81 | a failed radius check changes nothing; otherwise the stamp follows `NextOutsideSince` and a check-out is scheduled when it fires |
| `Geofence.GeofenceMonitor.OnCheckOutResult` | components/GeolocationTracker.js:66-71 | only a successful check-out notifies and stops tracking |
| `Geofence.GeofenceMonitor.OnPositionError` | components/GeolocationTracker.js:82-89 | only PERMISSION_DENIED changes state: it sets permission to denied, reports the error and stops tracking |
| `Geofence.GeofenceMonitor.OnPermissionChange` | components/GeolocationTracker.js:183-190 | `granted` starts tracking (a no-op if already tracking); any other state stops it |
| `Geofence.GeofenceMonitor.OnPermissionQueried` | components/GeolocationTracker.js:175-181 | the mount query records the state and starts tracking only when it is `granted` |
| `Fraternity.Pick` | lib/mocks/fraternityData.js:134 | a key of the spread takes the update's value when present and keeps the current one otherwise |
| `Fraternity.ApplyPatch` | lib/mocks/fraternityData.js:134 | `{ ...f, ...updates }`: for every one of the twelve keys, a present field replaces and an absent one keeps; an empty patch is the identity |
| `Fraternity.FindFraternity` | lib/mocks/fraternityData.js:122 | the first record with the id, or none exactly when there is none |
| `Fraternity.FindMember` | lib/mocks/fraternityData.js:275 | `findIndex` on `user_id` |
| `Fraternity.Admins` | lib/mocks/fraternityData.js:269 | keeps exactly the members with role `admin` |
| `Fraternity.WithoutUser` | lib/mocks/fraternityData.js:243 | keeps exactly the members of other users, and keeps users distinct |
| `Fraternity.AdminsAfterRoleChange` | lib/mocks/fraternityData.js:280 | a role change moves the admin count by exactly the lost and gained admin role |
| `Fraternity.WithAddedCount` | lib/mocks/fraternityData.js:206-215 | both counts become the list length; `member_verified` is set at 7 and `verified` at 10, and neither is ever cleared |
| `Fraternity.WithRemovedCount` | lib/mocks/fraternityData.js:246-250 | both counts become the list length, and nothing else changes |
| `Fraternity.Eligibility` | lib/mocks/fraternityData.js:332-370 | an unknown fraternity cannot create events and needs 7; otherwise canCreate holds exactly when q ≥ 7, or the email is verified and q ≥ 5, or the group is verified; when it fails, `membersNeeded` is 7 − q (at least 1) with the matching reason |
| `Fraternity.StatusOf` | lib/mocks/fraternityData.js:384-409 | `membersNeeded` is 0 exactly when q ≥ 7, else 7 − q; the requirements text is the ready text at q ≥ 7, below it "Email verified ✓ \| Add n more …" when the email is verified and the unlock reason otherwise; the flags and counts are reported as stored |
| `Fraternity.StatusAgreesWithEligibility` | lib/mocks/fraternityData.js:361 | the status and the eligibility check agree on how many members are needed |
| `Fraternity.EmailVerificationLowersBar` | lib/mocks/fraternityData.js:345-347 | with five quality members, verifying the email enables event creation |
| `Fraternity.AddKeepsEligibility` | lib/mocks/fraternityData.js:206-215 | adding members never takes event creation away |
| `Fraternity.Matching` | lib/mocks/fraternityData.js:167-169 | keeps exactly the verified or member-verified groups whose name contains the query, ignoring case |
| `Fraternity.MatchingKeepsOrder` | lib/mocks/fraternityData.js:167-169 | the matches are a subsequence of the stored groups: `filter` keeps stored order |
| `Fraternity.MatchingKeepsCount` | lib/mocks/fraternityData.js:167-169 | each matching group appears as often as it is stored |
| `Fraternity.SliceTo` | lib/mocks/fraternityData.js:170 | `slice(0, limit)`: a prefix of length min(limit, n), or n + limit for a negative limit |
| `Fraternity.UserFraternities` | lib/mocks/fraternityData.js:141-159 | every entry is a group the user belongs to, with the user's role there |
| `Fraternity.UserFraternitiesComplete` | lib/mocks/fraternityData.js:145-154 | every group that has a record and that the user belongs to is listed |
| `Fraternity.RoleChangeKeepsAdmin` | lib/mocks/fraternityData.js:267-273 | the last-admin guard leaves a group that had an admin with at least one |
| `Fraternity.FraternityStore.constructor` | lib/mocks/fraternityData.js:80-104 | an empty store is well shaped |
| `Fraternity.FraternityStore.IsAdmin` | lib/mocks/fraternityData.js:307-313 | true exactly when the user has role `admin` in the group |
| `Fraternity.FraternityStore.CreateFraternity` | lib/mocks/fraternityData.js:80-104 | appends an unverified group with counts 1 whose only member is the creator, as admin |
| `Fraternity.FraternityStore.UpdateFraternity` | lib/mocks/fraternityData.js:119-136 | unknown id and non-admin are refused with no change; an admin's update replaces the record by the merged one |
| `Fraternity.FraternityStore.GetUserFraternities` | lib/mocks/fraternityData.js:141-159 | the loop returns `UserFraternities` over the groups in key order |
| `Fraternity.FraternityStore.SearchFraternities` | lib/mocks/fraternityData.js:164-173 | exactly `slice(0, limit)` of the matches in stored order, with 20 for a missing limit: the first `limit` matches for a non-negative limit, all but the last `-limit` for a negative one |
| `Fraternity.FraternityStore.AddMember` | lib/mocks/fraternityData.js:178-227 | an existing member or a non-admin adder is refused with no change; success appends exactly one member and recounts the group's record; succeeds exactly when neither guard fires |
| `Fraternity.FraternityStore.RemoveMember` | lib/mocks/fraternityData.js:232-253 | only an admin or the user themself may remove; every entry of the user goes, the others stay in order, and the record is recounted |
| `Fraternity.FraternityStore.UpdateMemberRole` | lib/mocks/fraternityData.js:258-282 | a non-admin updater, demoting the sole admin, or an unknown member is refused with no change; the call succeeds exactly when none of these guards refuses, and then only that member's role changes and the group keeps an admin; "Cannot remove last admin" is returned exactly for an admin's demotion of the sole admin |
| `Fraternity.FraternityStore.CanCreateEvents` | lib/mocks/fraternityData.js:329-371 | `Eligibility` of the stored record, or the not-found answer |
| `Fraternity.FraternityStore.CheckVerificationStatus` | lib/mocks/fraternityData.js:376-410 | not found exactly for an unknown id; otherwise `StatusOf` the record |
| `Fraternity.FraternityStore.VerifyFraternityEmail` | lib/mocks/fraternityData.js:415-437 | an unknown id is refused; otherwise only `email_verified` becomes true |
| `Guests.FindRequest` | lib/supabase/guests.js:84-89 | the request of (event, user), or none exactly when there is none |
| `Guests.RequestIsFound` | lib/supabase/guests.js:355-360 | in a well-formed table every request is the one found for its (event, user) |
| `Guests.StatusChangeKeepsWellFormed` | lib/supabase/guests.js:150-157 | a status change keeps one request per (event, user) and unique ids |
| `Guests.PendingCountZero` | lib/supabase/guests.js:636-657 | the count is 0 exactly when the event has no pending request |
| `Guests.DecisionLowersPendingCount` | lib/supabase/guests.js:150-157 | deciding a pending request lowers its event's count by one and leaves the other events' counts alone |
| `Guests.NewRequestRaisesPendingCount` | lib/supabase/guests.js:96-104 | a new pending request raises its event's count by one |
| `Guests.SafetyTierFor` | lib/supabase/guests.js:290-305 | a found tier gives `{ tier, score }`; a missing tier gives null; when the lookup fails the result is `{ tier: null, score }` for a score, else null |
| `Guests.AttachSafetyTiers` | lib/supabase/guests.js:281-306 | every row gets `SafetyTierFor` of its own user and score when some row has a user id, and the rows are untouched otherwise |
| `Guests.ScanEvents` | lib/supabase/guests.js:600-633 | finds whether any requested event exists and whether every found event's fraternity is administered or created by the caller |
| `Guests.TallyPending` | lib/supabase/guests.js:647-657 | a key for exactly the requested ids, each holding the number of pending requests of that event |
| `Guests.GuestStore.Insert` | lib/supabase/guests.js:96-104 | an insert appends one request with the next id and the given status and times, and keeps the table well formed |
| `Guests.GuestStore.SetStatus` | lib/supabase/guests.js:151-158 | an update sets only that request's status and `responded_at`, and keeps the table well formed |
| `Guests.GuestStore.constructor` | lib/supabase/guests.js:45-114 | an empty request table is well formed |
| `Guests.GuestStore.ValidateAdminForEvent` | lib/supabase/guests.js:20-37 | succeeds exactly for a known event whose fraternity the caller administers; otherwise "Event not found" or "Only admins can …" |
| `Guests.GuestStore.CreateEventRequest` | lib/supabase/guests.js:45-114 | missing or non-UUID ids, an unknown event, an admin requester, a public event, or an existing request are refused in that order with no write; otherwise exactly one pending request is appended |
| `Guests.GuestStore.RespondToRequest` | lib/supabase/guests.js:122-224 | a missing argument or unknown request is refused; a decided request gives "already processed"; a non-admin gets the admin error; otherwise only that request becomes approved or denied with its response time; a success always decided a pending request |
| `Guests.GuestStore.ManuallyAddGuest` | lib/supabase/guests.js:323-405 | missing arguments, the admin check, an unknown user and an admin target are refused with no write; an approved request gives "already on the guest list"; a pending or denied one is approved; otherwise an approved request is inserted |
| `Guests.GuestStore.GetEventsPendingCounts` | lib/supabase/guests.js:586-663 | no ids or no found events give an empty map; a missing admin id is refused; any found event of a fraternity the caller neither administers nor created is refused; otherwise each requested id maps to its pending count |
| `Webhook.AmountOf` | app/api/stripe/webhook/route.js:121 | the amount is `amount_total` / 100 |
| `Webhook.Gate` | app/api/stripe/webhook/route.js:30-61 | passes exactly with a key, a signature, a secret and a valid signature; a missing or invalid signature gives 400; missing configuration gives 500 |
| `Webhook.AutoApproveBidRequest` | app/api/stripe/webhook/route.js:172-228 | unknown and public events are left alone; an approved request is untouched, any other is approved, none gives a new approved one; afterwards the buyer of a non-public event holds an approved request |
| `Webhook.RevenueLedger.constructor` | app/api/stripe/webhook/route.js:143-151 | an empty ledger has unique session ids |
| `Webhook.RevenueLedger.Insert` | app/api/stripe/webhook/route.js:143-158 | inserts exactly when the session id is new (the unique constraint), and the session is on record afterwards |
| `Webhook.HandleCheckoutCompleted` | app/api/stripe/webhook/route.js:105-166 | the "missing metadata" return happens exactly when `eventId`, `userId` or `type` is falsy, and the "unknown type" return exactly when `type` is neither `line_skip` nor `bid`; these write nothing; a recorded session writes nothing whatever the lookup saw; otherwise exactly one row with the amount in currency units; only a recorded bid touches the requests, and it changes them exactly as `AutoApproveBidRequest` does (other requests unchanged, an approved one untouched, a public event left alone) |
| `Webhook.Post` | app/api/stripe/webhook/route.js:30-99 | an unverified request gets its error and changes nothing; once verified the answer is always 200 `{ received: true }`; expired sessions and other types write nothing; a verified completed session is on record afterwards, a new recordable one adds exactly its row, a new bid changes the requests as `AutoApproveBidRequest` does, and an unrecordable or already recorded one writes nothing |
| `Webhook.RedeliveryIsIdempotent` | app/api/stripe/webhook/route.js:124-140 | delivering the same session twice adds at most one revenue row |
| `Schools.NormalizeDomain` | lib/supabase/schools.js:24 | the normalised domain has no capitals and no white space at either end |
| `Schools.NormalizeIdempotent` | lib/supabase/schools.js:74 | normalising twice is normalising once |
| `Schools.SplitDots` | lib/supabase/schools.js:77 | splitting at dots gives dot-free parts that join back to the string |
| `Schools.SplitJoin` | lib/supabase/schools.js:77 | joining dot-free parts and splitting again gives the parts back |
| `Schools.ValidDomainOfParts` | lib/supabase/schools.js:77 | a dotted string is accepted exactly when every part before the last is a 1-63 character label not starting or ending with a hyphen, and the last is at least two letters |
| `Schools.ValidDomainShape` | lib/supabase/schools.js:76-78 | an accepted domain has at least four characters and a dot, starts with an alphanumeric, ends with a letter, and uses only alphanumerics, hyphens and dots |
| `Schools.WithNullExtras` | lib/supabase/schools.js:35-40 | a returned row carries the school and null `abbreviation`, `created_at` and `updated_at` |
| `Schools.SchoolLabel` | lib/supabase/schools.js:237 | `name \|\| domain` |
| `Schools.ClampLimit` | lib/supabase/schools.js:145 | the limit is clamped into [1, 50] |
| `Schools.FindDomain` | lib/supabase/schools.js:29-33 | the first school whose domain equals the query ignoring case, or none exactly when there is none |
| `Schools.FindSchool` | lib/supabase/schools.js:216-220 | the school with the id, or none exactly when there is none |
| `Schools.MatchingMembers` | lib/supabase/schools.js:154-157 | the search keeps exactly the schools whose name or domain contains the query, ignoring case |
| `Schools.RowsOf` | lib/supabase/schools.js:162-168 | every returned row is its school with the null extras |
| `Schools.FirstMatches` | lib/supabase/schools.js:154-168 | the loop returns the first `n` matches, or all of them when there are fewer |
| `Schools.MatchingPrefix` | lib/supabase/schools.js:154-158 | the matches in a prefix of the table are a prefix of all matches |
| `Schools.SchoolDirectory.constructor` | lib/supabase/schools.js:91-99 | an empty table has unique ids and lower-case unique domains |
| `Schools.SchoolDirectory.GetSchoolByDomain` | lib/supabase/schools.js:15-51 | an empty domain is refused; otherwise a school is returned exactly when one has the normalised domain ignoring case, with the null extras |
| `Schools.SchoolDirectory.CreateSchool` | lib/supabase/schools.js:61-124 | a missing name or domain, or a domain that fails the regex, is refused; a taken domain returns the existing school unchanged; a taken id gives the unique-violation error; otherwise it stores the trimmed name and the normalised domain; whatever it returns is what a lookup of the domain then finds |
| `Schools.SchoolDirectory.Insert` | lib/supabase/schools.js:91-99 | the insert appends the row, keeps ids and domains unique, and the row is then the one found for its domain |
| `Schools.SchoolDirectory.SearchSchools` | lib/supabase/schools.js:133-180 | a missing or blank query gives [] and an error; otherwise the first matches up to the clamped limit, never more than 50 |
| `Schools.SchoolDirectory.LinkUserToSchool` | lib/supabase/schools.js:191-257 | missing ids, an unknown user or an unknown school are refused with no change; otherwise only that user's `school_id` and `school` (= name or domain) change, and the user's school is then the linked one |
| `Schools.SchoolDirectory.GetUserSchool` | lib/supabase/schools.js:264-311 | a missing id is refused; a user with a linked, existing school gets that school with the null extras; any other case gives null |

## Left out

- The Haversine arithmetic of `calculateDistance` (lib/location/tracker.js:31-44) is floating-point trigonometry. It is the parameter `dist`, and only its comparison with the radius is modelled.
- Floating point in general: coordinates and amounts are `real`. NaN is the only non-finite number; ±Infinity is not representable. This matters for the radius: `checkUserInRadius` keeps a radius of +Infinity, which puts every position in radius, while the model has no such radius. `parseFloat` of the geocoder's strings is part of the `Response` input.
- `toLowerCase()` is modelled for ASCII letters only. Other characters are kept as they are.
- The Supabase transport: every query error, `.single()` failure and thrown exception that the source turns into `serializeError(...)` or a generic "Failed to …" message. This includes the update/insert errors after a successful guard. The model returns the success path, except for the errors named in the contracts.
- The ILIKE wildcards `%` and `_` inside a school search query are taken literally.
- `Schools.SchoolDirectory.GetSchoolByDomain` and `Schools.FindDomain` compare domains for case-insensitive equality. The source uses `.ilike('domain', normalizedDomain)` on an unvalidated input, where `_` matches any one character and `%` any run: "stanford_edu" finds stanford.edu there and nothing in the model, and "%" finds the only school or gives a `maybeSingle` error when there are several.
- `searchSchools` applies `.order('name').limit(n)`: it returns the n alphabetically first matches. The model returns the first n matches in table order, which is a different set of schools when there are more than n matches, not only a different order.
- A non-integer or NaN search `limit` is not modelled.
- `randomUUID()`, `Date.now()`-based ids and ISO timestamps are inputs (`freshId`, `now`).
- The mock network delays are not modelled.
- The seed data of the mock arrays is not modelled. The stores start empty, and every contract holds for any state satisfying the invariant.
- `Tracker.AutoCheckOut`: the check-out itself is `CheckIn.CheckInStore.CheckOutUser`, because `checkOutUser` is not part of this model.
- `CheckIn.CheckInStore.CheckInUser`: the joined `user` of the new record (`mockUsers.find(...) || mockUsers[0]`, lib/mocks/checkinData.js:111, 120) is not part of the record. The mock user table is seed data, which is not modelled.
- `CheckIn.CheckInStore.GetCheckedInUsers`: the stability of the sort among equal timestamps is not stated.
- `mockCheckInUser` checks only the `user-` prefix of the code, not that it names the user and event. The model follows the code. The binding of the code to the user and the event is checked only by `ValidateUserQRCode`.
- `requestLocationPermission` (components/GeolocationTracker.js:113-168) is a user-click path through the same permission handlers. Its browser prompt is not modelled.
- `watchIdRef` is never assigned in the component. The model keeps the field, and it stays empty.
- React's asynchronous state updates and stale closures are not modelled. Each event handler runs to completion on the current state.
- `Geofence.GeofenceMonitor.StartTracking` and `Geofence.GeofenceMonitor.IntervalFired`: the mount effect (components/GeolocationTracker.js:171-200) lists `startTracking` among its dependencies, and `startTracking` changes identity with `isTracking` (lines 98-110). So each start re-runs the effect. Its cleanup calls `stopTracking`, which clears the 45-second interval, and its permission query may start tracking again. The model runs the mount effect once and keeps the interval installed until a stop. It does not capture this start/stop cycle, in which the interval plausibly never fires.
- `Geofence.GeofenceMonitor.IntervalFired` requires an installed interval, because the browser only calls it then.
- `mockGetFraternity`, `mockGetMembers`, `mockGetMemberRole` and `mockReportFraternity` (lib/mocks/fraternityData.js:109-114, 287-302, 318-324, 442-458) are lookups and a report stub outside the membership rules.
- `Fraternity.ApplyPatch` (and so `Fraternity.FraternityStore.UpdateFraternity`): the spread `{ ...mockFraternities[index], ...updates }` (lib/mocks/fraternityData.js:134) also copies keys outside the twelve modelled ones, and a key present with the value `undefined` overwrites the field with `undefined` (a `quality_member_count: undefined`, for example, makes `undefined >= 7` false, so the group can no longer create events). The patch type has neither unknown keys nor a present-but-undefined value, so the model does not capture them.
- `mockGetUserFraternities` iterates over `Object.entries(mockMembers)`. The model keeps the insertion order of group keys but not JavaScript's ordering of integer-like keys first.
- The query parts of `getEventRequests` and `getGuestList`, `searchUsers` and `getFraternityEvents` (lib/supabase/guests.js:233-280, 413-452, 494-578) are reads with joins and filters. Only their safety-tier attachment is modelled.
- `checkIsAdmin` answers a boolean. An error from it counts as "not admin", which is how every caller treats it.
- Concurrent deliveries of the same Stripe event race between the lookup and the insert. The model is sequential; the unique `stripe_session_id` is what `RevenueLedger.Insert` enforces.
- `Webhook.HandleCheckoutCompleted`: a failed idempotency lookup (`lookupFails`) falls through to the insert, which the unique constraint refuses for a recorded session.
- `Schools.ValidDomainOfParts` states the regex for strings split at their dots. `Schools.ValidDomain` is defined on that split.
- Schools are found by the unique lower-case domain. A failed lookup after a unique violation is not modelled separately: the model's violation is an id clash, for which the lookup finds nothing.
- `app/actions/*` wrappers and all other components and pages are outside the core.

## Findings

| source | as written | input that shows it | evidently intended | confidence | as-written member | corrected member |
|---|---|---|---|---|---|---|
| lib/mocks/checkinData.js:205-216 | the lazy `(.+?)` group stops at the first dash after one character, so a user id with dashes (every UUID) is split inside the id and compared against a fragment | userId `123e4567-e89b-12d3-a456-426614174000`, eventId `E1`, code `user-123e4567-e89b-12d3-a456-426614174000-E2`: reported as "QR code does not match user" | a code for the right user and another event is reported as "QR code does not match event" | not executed | `CheckIn.QrWrongEventReportedAsWrongUser` | `CheckIn.ValidateUserQRCodeIntended` |
