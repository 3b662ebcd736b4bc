/** The in-memory fraternity store: a list of fraternities and, per group,
    its member list, mutated in place by create, update, add, remove and
    change-role; plus the event-creation and verification rules read off a
    fraternity's counters. */
module Fraternity {
  import opened Base

  const RoleAdmin: string := "admin"
  const RoleMember: string := "member"
  const DefaultSearchLimit: int := 20
  const MemberVerifiedAt: int := 7
  const VerifiedAt: int := 10
  const EmailVerifiedMinimum: int := 5

  const ErrFraternityNotFound: string := "Fraternity not found"
  const ErrOnlyAdminsUpdate: string := "Only admins can update fraternity"
  const ErrAlreadyMember: string := "User is already a member"
  const ErrOnlyAdminsAdd: string := "Only admins can add members"
  const ErrOnlyAdminsRemove: string := "Only admins can remove other members"
  const ErrOnlyAdminsRoles: string := "Only admins can update roles"
  const ErrLastAdmin: string := "Cannot remove last admin. Promote another member first."
  const ErrMemberNotFound: string := "Member not found"

  datatype Fraternity = Fraternity(
    id: Id,
    name: string,
    kind: string,
    photoUrl: Option<string>,
    verified: bool,
    emailVerified: bool,
    memberVerified: bool,
    memberCount: int,
    qualityMemberCount: int,
    flaggedForReview: bool,
    verificationEmail: Option<string>,
    verificationRequestedAt: Option<string>)

  datatype Member = Member(id: string, userId: Id, role: string, joinedAt: int)

  /** The keys an update object may carry; `None` is an absent key. */
  datatype FraternityPatch = FraternityPatch(
    id: Option<Id>,
    name: Option<string>,
    kind: Option<string>,
    photoUrl: Option<Option<string>>,
    verified: Option<bool>,
    emailVerified: Option<bool>,
    memberVerified: Option<bool>,
    memberCount: Option<int>,
    qualityMemberCount: Option<int>,
    flaggedForReview: Option<bool>,
    verificationEmail: Option<Option<string>>,
    verificationRequestedAt: Option<Option<string>>)

  /** The value of a key after a spread: the update's when present. */
  function Pick<T>(patch: Option<T>, current: T): (v: T)
    ensures patch.Some? ==> v == patch.value
    ensures patch.None? ==> v == current
  {
    if patch.Some? then patch.value else current
  }

  /** `{ ...fraternity, ...updates }`. */
  function ApplyPatch(f: Fraternity, p: FraternityPatch): (g: Fraternity)
    ensures p == FraternityPatch(None, None, None, None, None, None, None, None, None, None, None, None) ==> g == f
    ensures p.verified.Some? ==> g.verified == p.verified.value
    ensures p.verified.None? ==> g.verified == f.verified
    ensures p.qualityMemberCount.None? ==> g.qualityMemberCount == f.qualityMemberCount
    // every key: present in the update replaces, absent keeps
    ensures g.id == Pick(p.id, f.id) && g.name == Pick(p.name, f.name) && g.kind == Pick(p.kind, f.kind)
    ensures g.photoUrl == Pick(p.photoUrl, f.photoUrl)
    ensures g.emailVerified == Pick(p.emailVerified, f.emailVerified) && g.memberVerified == Pick(p.memberVerified, f.memberVerified)
    ensures g.memberCount == Pick(p.memberCount, f.memberCount) && g.qualityMemberCount == Pick(p.qualityMemberCount, f.qualityMemberCount)
    ensures g.flaggedForReview == Pick(p.flaggedForReview, f.flaggedForReview)
    ensures g.verificationEmail == Pick(p.verificationEmail, f.verificationEmail)
    ensures g.verificationRequestedAt == Pick(p.verificationRequestedAt, f.verificationRequestedAt)
  {
    Fraternity(
      Pick(p.id, f.id), Pick(p.name, f.name), Pick(p.kind, f.kind), Pick(p.photoUrl, f.photoUrl),
      Pick(p.verified, f.verified), Pick(p.emailVerified, f.emailVerified), Pick(p.memberVerified, f.memberVerified),
      Pick(p.memberCount, f.memberCount), Pick(p.qualityMemberCount, f.qualityMemberCount),
      Pick(p.flaggedForReview, f.flaggedForReview), Pick(p.verificationEmail, f.verificationEmail),
      Pick(p.verificationRequestedAt, f.verificationRequestedAt))
  }

  // ---------------------------------------------------------------------------
  // Lookups

  /** `fraternities.findIndex(f => f.id === id)`, as an option. */
  function FindFraternity(fs: seq<Fraternity>, id: Id): (k: Option<nat>)
    ensures k.Some? ==> k.value < |fs| && fs[k.value].id == id
    ensures k.Some? ==> forall i :: 0 <= i < k.value ==> fs[i].id != id
    ensures k.None? ==> forall i :: 0 <= i < |fs| ==> fs[i].id != id
  {
    if fs == [] then None
    else if fs[0].id == id then Some(0)
    else
      match FindFraternity(fs[1..], id)
      case None => None
      case Some(k) => Some(k + 1)
  }

  /** `mockMembers[groupId] || []`. */
  function MembersOf(members: map<Id, seq<Member>>, groupId: Id): seq<Member> {
    if groupId in members then members[groupId] else []
  }

  /** `members.findIndex(m => m.user_id === userId)`, as an option. */
  function FindMember(ms: seq<Member>, userId: Id): (k: Option<nat>)
    ensures k.Some? ==> k.value < |ms| && ms[k.value].userId == userId
    ensures k.Some? ==> forall i :: 0 <= i < k.value ==> ms[i].userId != userId
    ensures k.None? <==> forall i :: 0 <= i < |ms| ==> ms[i].userId != userId
  {
    if ms == [] then None
    else if ms[0].userId == userId then Some(0)
    else
      match FindMember(ms[1..], userId)
      case None => None
      case Some(k) => Some(k + 1)
  }

  predicate IsAdminIn(ms: seq<Member>, userId: Id) {
    exists i :: 0 <= i < |ms| && ms[i].userId == userId && ms[i].role == RoleAdmin
  }

  /** No user appears twice in a member list. */
  predicate DistinctUsers(ms: seq<Member>) {
    forall i, j :: 0 <= i < j < |ms| ==> ms[i].userId != ms[j].userId
  }

  /** `members.filter(m => m.role === 'admin')`. */
  function Admins(ms: seq<Member>): (r: seq<Member>)
    ensures |r| <= |ms|
    ensures forall m :: m in r <==> m in ms && m.role == RoleAdmin
  {
    if ms == [] then []
    else (if ms[0].role == RoleAdmin then [ms[0]] else []) + Admins(ms[1..])
  }

  /** `members.filter(m => m.user_id !== userId)`. */
  function WithoutUser(ms: seq<Member>, userId: Id): (r: seq<Member>)
    ensures |r| <= |ms|
    ensures forall m :: m in r <==> m in ms && m.userId != userId
    ensures DistinctUsers(ms) ==> DistinctUsers(r)
  {
    if ms == [] then []
    else
      var rest := WithoutUser(ms[1..], userId);
      if ms[0].userId == userId then rest
      else
        assert forall m :: m in rest ==> m in ms[1..];
        [ms[0]] + rest
  }

  /** Replacing one member's role changes the number of admins by what
      that member loses or gains. */
  lemma {:induction false} AdminsAfterRoleChange(ms: seq<Member>, k: nat, role: string)
    requires k < |ms|
    ensures |Admins(ms[k := ms[k].(role := role)])|
      == |Admins(ms)| - (if ms[k].role == RoleAdmin then 1 else 0) + (if role == RoleAdmin then 1 else 0)
  {
    var ms' := ms[k := ms[k].(role := role)];
    if k == 0 {
      assert ms'[1..] == ms[1..];
    } else {
      assert ms'[1..] == ms[1..][k - 1 := ms[k].(role := role)];
      AdminsAfterRoleChange(ms[1..], k - 1, role);
    }
  }

  lemma AdminsNonEmpty(ms: seq<Member>, userId: Id)
    requires IsAdminIn(ms, userId)
    ensures |Admins(ms)| >= 1
  {
    var i :| 0 <= i < |ms| && ms[i].userId == userId && ms[i].role == RoleAdmin;
    assert ms[i] in Admins(ms);
  }

  // ---------------------------------------------------------------------------
  // Counters and rules

  /** The counter update after an add: both counts become the list length,
      and the two verification flags are raised at 7 and 10, never cleared. */
  function WithAddedCount(f: Fraternity, n: int): (g: Fraternity)
    ensures g.memberCount == n && g.qualityMemberCount == n
    ensures g.memberVerified <==> f.memberVerified || n >= MemberVerifiedAt
    ensures g.verified <==> f.verified || n >= VerifiedAt
    ensures g.(memberCount := f.memberCount, qualityMemberCount := f.qualityMemberCount,
               memberVerified := f.memberVerified, verified := f.verified) == f
  {
    var counted := f.(memberCount := n, qualityMemberCount := n);
    var memberChecked := if n >= MemberVerifiedAt then counted.(memberVerified := true) else counted;
    if n >= VerifiedAt then memberChecked.(verified := true) else memberChecked
  }

  /** The counter update after a removal: counts only. */
  function WithRemovedCount(f: Fraternity, n: int): (g: Fraternity)
    ensures g.memberCount == n && g.qualityMemberCount == n
    ensures g.(memberCount := f.memberCount, qualityMemberCount := f.qualityMemberCount) == f
  {
    f.(memberCount := n, qualityMemberCount := n)
  }

  datatype EventEligibility = EventEligibility(
    canCreate: bool, reason: Option<string>, membersNeeded: int, qualityMemberCount: int)

  function UnlockReason(membersNeeded: int): string {
    "Add " + IntToString(membersNeeded) + " more verified members to unlock events"
  }

  /** The event-creation rule of `mockCanCreateEvents` for a found (or
      missing) fraternity. */
  function Eligibility(f: Option<Fraternity>): (e: EventEligibility)
    ensures f.None? ==> e == EventEligibility(false, Some(ErrFraternityNotFound), 7, 0)
    ensures f.Some? ==> e.qualityMemberCount == f.value.qualityMemberCount
    // seven quality members, or five with a verified email, or a verified group
    ensures f.Some? ==>
      (e.canCreate <==>
        f.value.qualityMemberCount >= MemberVerifiedAt
        || (f.value.emailVerified && f.value.qualityMemberCount >= EmailVerifiedMinimum)
        || f.value.verified)
    ensures e.canCreate ==> e.membersNeeded == 0 && e.reason.None?
    // otherwise: how many more are needed to reach seven, and why
    ensures f.Some? && !e.canCreate ==>
      && e.membersNeeded == MemberVerifiedAt - f.value.qualityMemberCount
      && e.membersNeeded >= 1
      && e.reason == Some(UnlockReason(e.membersNeeded))
  {
    if f.None? then EventEligibility(false, Some(ErrFraternityNotFound), 7, 0)
    else
      var q := f.value.qualityMemberCount;
      var canCreate := q >= 7 || (f.value.emailVerified && q >= 5) || f.value.verified;
      if canCreate then EventEligibility(true, None, 0, q)
      else
        var needed := if 7 - q > 0 then 7 - q else 0;
        EventEligibility(false, Some(UnlockReason(needed)), needed, q)
  }

  datatype VerificationStatus = VerificationStatus(
    emailVerified: bool,
    memberVerified: bool,
    verified: bool,
    memberCount: int,
    qualityMemberCount: int,
    membersNeeded: int,
    requirements: string)

  const ReadyText: string := "Ready to create events! \U{2713}"

  /** The progress text of a group whose email is verified. */
  function EmailProgressText(membersNeeded: int): string {
    "Email verified \U{2713} | Add " + IntToString(membersNeeded) + " more verified members (or 5+ with email)"
  }

  /** The status report of `mockCheckVerificationStatus` for a found fraternity. */
  function StatusOf(f: Fraternity): (s: VerificationStatus)
    ensures s.membersNeeded >= 0
    ensures s.membersNeeded == 0 <==> f.qualityMemberCount >= MemberVerifiedAt
    ensures s.membersNeeded > 0 ==> s.membersNeeded + f.qualityMemberCount == MemberVerifiedAt
    ensures f.qualityMemberCount >= MemberVerifiedAt ==> s.requirements == ReadyText
    // below the threshold: the email-progress text once the email is verified, else the unlock reason
    ensures f.qualityMemberCount < MemberVerifiedAt && f.emailVerified && Truthy(f.verificationEmail) ==>
      s.requirements == EmailProgressText(MemberVerifiedAt - f.qualityMemberCount)
    ensures f.qualityMemberCount < MemberVerifiedAt && !(f.emailVerified && Truthy(f.verificationEmail)) ==>
      s.requirements == UnlockReason(MemberVerifiedAt - f.qualityMemberCount)
    ensures s.emailVerified == f.emailVerified && s.memberVerified == f.memberVerified && s.verified == f.verified
    ensures s.memberCount == f.memberCount && s.qualityMemberCount == f.qualityMemberCount
  {
    var q := f.qualityMemberCount;
    if q >= 7 then
      VerificationStatus(f.emailVerified, f.memberVerified, f.verified, f.memberCount, q, 0, ReadyText)
    else
      var needed := 7 - q;
      var text :=
        if f.emailVerified && Truthy(f.verificationEmail) then EmailProgressText(needed)
        else UnlockReason(needed);
      VerificationStatus(f.emailVerified, f.memberVerified, f.verified, f.memberCount, q, needed, text)
  }

  /** The two reports agree on how many members are missing whenever the
      group cannot yet create events. */
  lemma StatusAgreesWithEligibility(f: Fraternity)
    ensures !Eligibility(Some(f)).canCreate ==> Eligibility(Some(f)).membersNeeded == StatusOf(f).membersNeeded
    ensures StatusOf(f).membersNeeded == 0 ==> Eligibility(Some(f)).canCreate
  {
  }

  /** Verifying the email lowers the bar to five quality members. */
  lemma EmailVerificationLowersBar(f: Fraternity)
    requires f.qualityMemberCount >= EmailVerifiedMinimum
    ensures Eligibility(Some(f.(emailVerified := true))).canCreate
  {
  }

  /** Adding members never takes event creation away: the flags only rise,
      and a count of seven or more is itself enough. */
  lemma AddKeepsEligibility(f: Fraternity, n: int)
    requires n >= f.qualityMemberCount
    ensures Eligibility(Some(f)).canCreate ==> Eligibility(Some(WithAddedCount(f, n))).canCreate
  {
  }

  // ---------------------------------------------------------------------------
  // Search

  predicate SearchMatch(f: Fraternity, query: string) {
    Includes(ToLower(f.name), ToLower(query)) && (f.verified || f.memberVerified)
  }

  /** The two `filter` calls, in stored order. */
  function Matching(fs: seq<Fraternity>, query: string): (r: seq<Fraternity>)
    ensures |r| <= |fs|
    ensures forall f :: f in r <==> f in fs && SearchMatch(f, query)
  {
    if fs == [] then []
    else (if SearchMatch(fs[0], query) then [fs[0]] else []) + Matching(fs[1..], query)
  }

  /** `r` is `s` with some elements dropped, the rest kept in order. */
  predicate IsSubsequence<T(==)>(r: seq<T>, s: seq<T>)
    decreases |s|
  {
    r == [] || (s != [] && ((r[0] == s[0] && IsSubsequence(r[1..], s[1..])) || IsSubsequence(r, s[1..])))
  }

  /** `filter` keeps the matches in stored order ... */
  lemma {:induction false} MatchingKeepsOrder(fs: seq<Fraternity>, query: string)
    ensures IsSubsequence(Matching(fs, query), fs)
  {
    if fs != [] {
      var r := Matching(fs, query);
      var rest := Matching(fs[1..], query);
      MatchingKeepsOrder(fs[1..], query);
      if SearchMatch(fs[0], query) {
        assert r == [fs[0]] + rest;
        assert r[0] == fs[0] && r[1..] == rest;
      } else {
        assert r == rest;
      }
    }
  }

  /** ... each as often as it is stored. */
  lemma {:induction false} MatchingKeepsCount(fs: seq<Fraternity>, query: string, f: Fraternity)
    requires SearchMatch(f, query)
    ensures multiset(Matching(fs, query))[f] == multiset(fs)[f]
  {
    if fs != [] {
      var rest := Matching(fs[1..], query);
      MatchingKeepsCount(fs[1..], query, f);
      assert fs == [fs[0]] + fs[1..];
      if SearchMatch(fs[0], query) {
        assert Matching(fs, query) == [fs[0]] + rest;
      } else {
        assert Matching(fs, query) == rest;
      }
    }
  }

  /** `Array.prototype.slice(0, limit)` for an integer limit. */
  function SliceTo<T>(s: seq<T>, limit: int): (r: seq<T>)
    ensures limit >= 0 ==> |r| == (if limit < |s| then limit else |s|)
    ensures limit < 0 ==> |r| == (if |s| + limit > 0 then |s| + limit else 0)
    ensures r == s[..|r|]
  {
    if limit >= 0 then (if limit < |s| then s[..limit] else s)
    else if |s| + limit > 0 then s[..|s| + limit] else []
  }

  // ---------------------------------------------------------------------------
  // Listing the groups of a user

  /** What `mockGetUserFraternities` collects from the groups in `order`. */
  function UserFraternities(order: seq<Id>, members: map<Id, seq<Member>>, fs: seq<Fraternity>, userId: Id)
    : (r: seq<(Fraternity, string)>)
    ensures |r| <= |order|
    // every entry is a group the user belongs to, with the user's role there
    ensures forall e :: e in r ==>
      && e.0.id in order && e.0 in fs
      && FindMember(MembersOf(members, e.0.id), userId).Some?
      && e.1 == MembersOf(members, e.0.id)[FindMember(MembersOf(members, e.0.id), userId).value].role
  {
    if order == [] then []
    else
      var rest := UserFraternities(order[..|order| - 1], members, fs, userId);
      var g := order[|order| - 1];
      var ms := MembersOf(members, g);
      var membership := FindMember(ms, userId);
      var found := FindFraternity(fs, g);
      if membership.Some? && found.Some? then rest + [(fs[found.value], ms[membership.value].role)]
      else rest
  }

  /** Conversely, every listed group the user belongs to and that has a
      fraternity record is in the answer. */
  lemma {:induction false} UserFraternitiesComplete(order: seq<Id>, members: map<Id, seq<Member>>, fs: seq<Fraternity>,
                                                     userId: Id, i: nat)
    requires i < |order|
    requires FindMember(MembersOf(members, order[i]), userId).Some?
    requires FindFraternity(fs, order[i]).Some?
    ensures (fs[FindFraternity(fs, order[i]).value],
             MembersOf(members, order[i])[FindMember(MembersOf(members, order[i]), userId).value].role)
            in UserFraternities(order, members, fs, userId)
  {
    if i < |order| - 1 {
      var prefix := order[..|order| - 1];
      assert prefix[i] == order[i];
      UserFraternitiesComplete(prefix, members, fs, userId, i);
    }
  }

  // ---------------------------------------------------------------------------
  // The store

  /** The member map's keys are exactly the ordered group ids, listed once,
      and no group lists a user twice. */
  ghost predicate StoreShape(members: map<Id, seq<Member>>, order: seq<Id>) {
    && (forall g :: g in members <==> g in order)
    && (forall i, j :: 0 <= i < j < |order| ==> order[i] != order[j])
    && (forall g :: g in members ==> DistinctUsers(members[g]))
  }

  /** Adds a group key, keeping the insertion order. */
  function WithKey(order: seq<Id>, g: Id): (r: seq<Id>)
    ensures forall h :: h in r <==> h in order || h == g
    ensures (forall i, j :: 0 <= i < j < |order| ==> order[i] != order[j]) ==>
      forall i, j :: 0 <= i < j < |r| ==> r[i] != r[j]
  {
    if g in order then order else order + [g]
  }

  lemma SetGroupKeepsShape(members: map<Id, seq<Member>>, order: seq<Id>, g: Id, ms: seq<Member>)
    requires StoreShape(members, order) && DistinctUsers(ms)
    ensures StoreShape(members[g := ms], WithKey(order, g))
  {
  }

  lemma RoleChangeKeepsDistinct(ms: seq<Member>, k: nat, role: string)
    requires DistinctUsers(ms) && k < |ms|
    ensures DistinctUsers(ms[k := ms[k].(role := role)])
  {
    var ms' := ms[k := ms[k].(role := role)];
    assert forall j :: 0 <= j < |ms'| ==> ms'[j].userId == ms[j].userId;
  }

  /** The last-admin guard at work: a role change it lets through leaves
      the group with an admin. */
  lemma RoleChangeKeepsAdmin(ms: seq<Member>, k: nat, role: string, updatedBy: Id)
    requires IsAdminIn(ms, updatedBy) && k < |ms|
    requires !(role != RoleAdmin && |Admins(ms)| == 1 && Admins(ms)[0].userId == ms[k].userId)
    ensures |Admins(ms[k := ms[k].(role := role)])| >= 1
  {
    var before := |Admins(ms)|;
    AdminsNonEmpty(ms, updatedBy);
    AdminsAfterRoleChange(ms, k, role);
    if role != RoleAdmin && ms[k].role == RoleAdmin {
      if before == 1 {
        OnlyAdminIsFirst(ms, k);
      }
    }
  }

  lemma OnlyAdminIsFirst(ms: seq<Member>, k: nat)
    requires k < |ms| && ms[k].role == RoleAdmin && |Admins(ms)| == 1
    ensures Admins(ms)[0] == ms[k]
  {
    assert ms[k] in Admins(ms);
  }

  datatype AddedMember = AddedMember(member: Member, verificationUpdated: bool, qualityMemberCount: int)

  class FraternityStore {
    /** `mockFraternities`. */
    var fraternities: seq<Fraternity>
    /** `mockMembers`, keyed by group id. */
    var members: map<Id, seq<Member>>
    /** The keys of `mockMembers` in insertion order (`Object.entries`). */
    var groupOrder: seq<Id>

    ghost predicate Valid()
      reads this
    {
      StoreShape(members, groupOrder)
    }

    constructor ()
      ensures Valid() && fraternities == [] && members == map[] && groupOrder == []
    {
      fraternities := [];
      members := map[];
      groupOrder := [];
    }

    /** `mockCheckIsAdmin(userId, groupId)`. */
    function IsAdmin(userId: Id, groupId: Id): (b: bool)
      reads this
      ensures b <==> groupId in members && IsAdminIn(members[groupId], userId)
    {
      IsAdminIn(MembersOf(members, groupId), userId)
    }

    /** `mockCreateFraternity(fraternityData, creatorUserId)`, with `now`
        standing for `Date.now()`. */
    method CreateFraternity(name: string, kind: string, photoUrl: Option<string>, verificationEmail: Option<string>,
                            creatorUserId: Id, now: int)
      returns (f: Fraternity)
      requires Valid()
      modifies this
      ensures Valid()
      // a new unverified group with counts 1 ...
      ensures f.id == "mock-frat-" + IntToString(now) && f.name == name && f.kind == kind
      ensures !f.verified && !f.emailVerified && !f.memberVerified && !f.flaggedForReview
      ensures f.memberCount == 1 && f.qualityMemberCount == 1
      ensures f.photoUrl == OrNull(photoUrl) && f.verificationEmail == OrNull(verificationEmail)
      ensures fraternities == old(fraternities) + [f]
      // ... whose only member is its creator, as admin
      ensures members == old(members)[f.id := [Member("member-" + IntToString(now), creatorUserId, RoleAdmin, now)]]
      ensures groupOrder == WithKey(old(groupOrder), f.id)
      ensures IsAdmin(creatorUserId, f.id)
    {
      f := Fraternity("mock-frat-" + IntToString(now), name, kind, OrNull(photoUrl), false, false, false, 1, 1, false,
                      OrNull(verificationEmail), None);
      fraternities := fraternities + [f];
      var creator := Member("member-" + IntToString(now), creatorUserId, RoleAdmin, now);
      SetGroupKeepsShape(members, groupOrder, f.id, [creator]);
      members := members[f.id := [creator]];
      groupOrder := WithKey(groupOrder, f.id);
      assert members[f.id][0] == creator;
    }

    /** `mockUpdateFraternity(fraternityId, updates, userId)`. */
    method UpdateFraternity(fraternityId: Id, patch: FraternityPatch, userId: Id) returns (r: Result<Fraternity>)
      requires Valid()
      modifies this
      ensures Valid() && members == old(members) && groupOrder == old(groupOrder)
      ensures FindFraternity(old(fraternities), fraternityId).None? ==>
        r == Err(ErrFraternityNotFound) && fraternities == old(fraternities)
      ensures FindFraternity(old(fraternities), fraternityId).Some? && !IsAdmin(userId, fraternityId) ==>
        r == Err(ErrOnlyAdminsUpdate) && fraternities == old(fraternities)
      // an admin's update replaces the record by the merged one
      ensures FindFraternity(old(fraternities), fraternityId).Some? && IsAdmin(userId, fraternityId) ==>
        var k := FindFraternity(old(fraternities), fraternityId).value;
        && fraternities == old(fraternities)[k := ApplyPatch(old(fraternities)[k], patch)]
        && r == Ok(fraternities[k])
    {
      var k := FindFraternity(fraternities, fraternityId);
      if k.None? {
        return Err(ErrFraternityNotFound);
      }
      if !IsAdminIn(MembersOf(members, fraternityId), userId) {
        return Err(ErrOnlyAdminsUpdate);
      }
      fraternities := fraternities[k.value := ApplyPatch(fraternities[k.value], patch)];
      r := Ok(fraternities[k.value]);
    }

    /** `mockGetUserFraternities(userId)`. */
    method GetUserFraternities(userId: Id) returns (r: seq<(Fraternity, string)>)
      requires Valid()
      ensures r == UserFraternities(groupOrder, members, fraternities, userId)
    {
      r := [];
      var i := 0;
      while i < |groupOrder|
        invariant i <= |groupOrder|
        invariant r == UserFraternities(groupOrder[..i], members, fraternities, userId)
      {
        assert groupOrder[..i + 1][..i] == groupOrder[..i];
        var g := groupOrder[i];
        var ms := members[g];
        var membership := FindMember(ms, userId);
        if membership.Some? {
          var found := FindFraternity(fraternities, g);
          if found.Some? {
            r := r + [(fraternities[found.value], ms[membership.value].role)];
          }
        }
        i := i + 1;
      }
      assert groupOrder[..i] == groupOrder;
    }

    /** `mockSearchFraternities(query, schoolId, limit)`; `schoolId` is not
        consulted, a missing limit is 20. */
    function SearchFraternities(query: string, schoolId: Option<Id>, limit: Option<int>): (r: seq<Fraternity>)
      reads this
      // only matching, visible groups, in stored order ...
      ensures forall f :: f in r ==> f in fraternities && SearchMatch(f, query)
      ensures |r| <= |Matching(fraternities, query)| && r == Matching(fraternities, query)[..|r|]
      // ... and no more than the limit
      ensures Pick(limit, DefaultSearchLimit) >= 0 ==> |r| <= Pick(limit, DefaultSearchLimit)
      ensures Pick(limit, DefaultSearchLimit) >= |Matching(fraternities, query)| ==> r == Matching(fraternities, query)
      // exactly `slice(0, limit)` of the matches
      ensures r == SliceTo(Matching(fraternities, query), Pick(limit, DefaultSearchLimit))
    {
      var matching := Matching(fraternities, query);
      var r := SliceTo(matching, Pick(limit, DefaultSearchLimit));
      assert forall f :: f in r ==> f in matching;
      r
    }

    /** `mockAddMember(groupId, userId, role, addedByUserId)`; a missing
        role is 'member'. */
    method AddMember(groupId: Id, userId: Id, role: Option<string>, addedByUserId: Id, now: int)
      returns (r: Result<AddedMember>)
      requires Valid()
      modifies this
      ensures Valid() && groupOrder == old(groupOrder)
      ensures FindMember(MembersOf(old(members), groupId), userId).Some? ==>
        r == Err(ErrAlreadyMember) && members == old(members) && fraternities == old(fraternities)
      ensures FindMember(MembersOf(old(members), groupId), userId).None? && !IsAdminIn(MembersOf(old(members), groupId), addedByUserId) ==>
        r == Err(ErrOnlyAdminsAdd) && members == old(members) && fraternities == old(fraternities)
      // a successful add appends exactly one member ...
      ensures r.Ok? ==>
        && groupId in old(members)
        && r.value.member == Member("member-" + IntToString(now), userId, Pick(role, RoleMember), now)
        && members == old(members)[groupId := old(members)[groupId] + [r.value.member]]
      // ... and recounts the group's record, if it has one
      ensures r.Ok? ==>
        var n := |members[groupId]|;
        match FindFraternity(old(fraternities), groupId)
        case None => fraternities == old(fraternities) && r.value.qualityMemberCount == 0 && !r.value.verificationUpdated
        case Some(k) =>
          && fraternities == old(fraternities)[k := WithAddedCount(old(fraternities)[k], n)]
          && r.value.qualityMemberCount == n
          && r.value.verificationUpdated == fraternities[k].memberVerified
      ensures r.Ok? <==>
        FindMember(MembersOf(old(members), groupId), userId).None? && IsAdminIn(MembersOf(old(members), groupId), addedByUserId)
    {
      var existing := MembersOf(members, groupId);
      if FindMember(existing, userId).Some? {
        return Err(ErrAlreadyMember);
      }
      if !IsAdminIn(existing, addedByUserId) {
        return Err(ErrOnlyAdminsAdd);
      }
      var member := Member("member-" + IntToString(now), userId, Pick(role, RoleMember), now);
      var updated := existing + [member];
      assert groupId in members;
      SetGroupKeepsShape(members, groupOrder, groupId, updated);
      members := members[groupId := updated];
      var k := FindFraternity(fraternities, groupId);
      if k.None? {
        return Ok(AddedMember(member, false, 0));
      }
      var f := WithAddedCount(fraternities[k.value], |updated|);
      fraternities := fraternities[k.value := f];
      r := Ok(AddedMember(member, f.memberVerified, |updated|));
    }

    /** `mockRemoveMember(groupId, userId, removedByUserId)`: an admin may
        remove anyone, anybody may remove themselves. */
    method RemoveMember(groupId: Id, userId: Id, removedByUserId: Id) returns (r: Result<()>)
      requires Valid()
      modifies this
      ensures Valid()
      ensures !IsAdminIn(MembersOf(old(members), groupId), removedByUserId) && userId != removedByUserId ==>
        && r == Err(ErrOnlyAdminsRemove)
        && members == old(members) && fraternities == old(fraternities) && groupOrder == old(groupOrder)
      // otherwise every entry of the user goes, the others stay in order,
      // and the group's record is recounted
      ensures IsAdminIn(MembersOf(old(members), groupId), removedByUserId) || userId == removedByUserId ==>
        && r == Ok(())
        && members == old(members)[groupId := WithoutUser(MembersOf(old(members), groupId), userId)]
        && groupOrder == WithKey(old(groupOrder), groupId)
        && FindMember(members[groupId], userId).None?
        && match FindFraternity(old(fraternities), groupId)
           case None => fraternities == old(fraternities)
           case Some(k) => fraternities == old(fraternities)[k := WithRemovedCount(old(fraternities)[k], |members[groupId]|)]
    {
      var current := MembersOf(members, groupId);
      if !IsAdminIn(current, removedByUserId) && userId != removedByUserId {
        return Err(ErrOnlyAdminsRemove);
      }
      var remaining := WithoutUser(current, userId);
      SetGroupKeepsShape(members, groupOrder, groupId, remaining);
      members := members[groupId := remaining];
      groupOrder := WithKey(groupOrder, groupId);
      var k := FindFraternity(fraternities, groupId);
      if k.Some? {
        fraternities := fraternities[k.value := WithRemovedCount(fraternities[k.value], |remaining|)];
      }
      r := Ok(());
      assert forall i :: 0 <= i < |remaining| ==> remaining[i] in remaining;
    }

    /** `mockUpdateMemberRole(groupId, userId, newRole, updatedByUserId)`. */
    method UpdateMemberRole(groupId: Id, userId: Id, newRole: string, updatedByUserId: Id) returns (r: Result<Member>)
      requires Valid()
      modifies this
      ensures Valid() && fraternities == old(fraternities) && groupOrder == old(groupOrder)
      ensures r.Err? ==> members == old(members)
      ensures !IsAdminIn(MembersOf(old(members), groupId), updatedByUserId) ==> r == Err(ErrOnlyAdminsRoles)
      // the sole admin cannot be demoted
      ensures (&& IsAdminIn(MembersOf(old(members), groupId), updatedByUserId)
               && newRole != RoleAdmin
               && |Admins(MembersOf(old(members), groupId))| == 1
               && Admins(MembersOf(old(members), groupId))[0].userId == userId) ==>
        r == Err(ErrLastAdmin)
      ensures r.Ok? ==>
        && groupId in old(members)
        && FindMember(old(members)[groupId], userId).Some?
        && var k := FindMember(old(members)[groupId], userId).value;
           && members == old(members)[groupId := old(members)[groupId][k := old(members)[groupId][k].(role := newRole)]]
           && r.value == members[groupId][k]
      // a group that had an admin still has one
      ensures r.Ok? ==> |Admins(members[groupId])| >= 1
      ensures IsAdminIn(MembersOf(old(members), groupId), updatedByUserId) && r.Err? && r != Err(ErrLastAdmin) ==>
        r == Err(ErrMemberNotFound) && FindMember(MembersOf(old(members), groupId), userId).None?
      // the change goes through exactly when no guard refuses it
      ensures r.Ok? <==>
        && IsAdminIn(MembersOf(old(members), groupId), updatedByUserId)
        && !(&& newRole != RoleAdmin
             && |Admins(MembersOf(old(members), groupId))| == 1
             && Admins(MembersOf(old(members), groupId))[0].userId == userId)
        && FindMember(MembersOf(old(members), groupId), userId).Some?
      ensures r == Err(ErrLastAdmin) <==>
        && IsAdminIn(MembersOf(old(members), groupId), updatedByUserId)
        && newRole != RoleAdmin
        && |Admins(MembersOf(old(members), groupId))| == 1
        && Admins(MembersOf(old(members), groupId))[0].userId == userId
    {
      var current := MembersOf(members, groupId);
      if !IsAdminIn(current, updatedByUserId) {
        return Err(ErrOnlyAdminsRoles);
      }
      var admins := Admins(current);
      if newRole != RoleAdmin && |admins| == 1 && admins[0].userId == userId {
        return Err(ErrLastAdmin);
      }
      var k := FindMember(current, userId);
      if k.None? {
        return Err(ErrMemberNotFound);
      }
      var i := k.value;
      var updated := current[i := current[i].(role := newRole)];
      RoleChangeKeepsAdmin(current, i, newRole, updatedByUserId);
      RoleChangeKeepsDistinct(current, i, newRole);
      assert groupId in members;
      SetGroupKeepsShape(members, groupOrder, groupId, updated);
      members := members[groupId := updated];
      r := Ok(updated[i]);
    }

    /** `mockCanCreateEvents(fraternityId)`. */
    function CanCreateEvents(fraternityId: Id): (e: EventEligibility)
      reads this
      ensures FindFraternity(fraternities, fraternityId).None? ==> !e.canCreate && e.membersNeeded == 7
      ensures FindFraternity(fraternities, fraternityId).Some? ==>
        e == Eligibility(Some(fraternities[FindFraternity(fraternities, fraternityId).value]))
    {
      match FindFraternity(fraternities, fraternityId)
      case None => Eligibility(None)
      case Some(k) => Eligibility(Some(fraternities[k]))
    }

    /** `mockCheckVerificationStatus(fraternityId)`. */
    function CheckVerificationStatus(fraternityId: Id): (r: Result<VerificationStatus>)
      reads this
      ensures r.Err? <==> FindFraternity(fraternities, fraternityId).None?
      ensures r.Err? ==> r.message == ErrFraternityNotFound
      ensures r.Ok? ==> r.value == StatusOf(fraternities[FindFraternity(fraternities, fraternityId).value])
    {
      match FindFraternity(fraternities, fraternityId)
      case None => Err(ErrFraternityNotFound)
      case Some(k) => Ok(StatusOf(fraternities[k]))
    }

    /** `mockVerifyFraternityEmail(fraternityId, verificationToken)`: the
        token is not consulted. */
    method VerifyFraternityEmail(fraternityId: Id, verificationToken: string) returns (r: Result<Fraternity>)
      requires Valid()
      modifies this
      ensures Valid() && members == old(members) && groupOrder == old(groupOrder)
      ensures FindFraternity(old(fraternities), fraternityId).None? ==>
        r == Err(ErrFraternityNotFound) && fraternities == old(fraternities)
      ensures FindFraternity(old(fraternities), fraternityId).Some? ==>
        var k := FindFraternity(old(fraternities), fraternityId).value;
        && fraternities == old(fraternities)[k := old(fraternities)[k].(emailVerified := true)]
        && r == Ok(fraternities[k])
    {
      var k := FindFraternity(fraternities, fraternityId);
      if k.None? {
        return Err(ErrFraternityNotFound);
      }
      fraternities := fraternities[k.value := fraternities[k.value].(emailVerified := true)];
      r := Ok(fraternities[k.value]);
    }
  }
}
