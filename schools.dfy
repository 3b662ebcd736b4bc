/** Schools: domain normalisation and the domain-format rule of
    `createSchool`, lookup by domain, the duplicate-domain fallback, the
    search-limit clamp, and linking a user to a school. The `school` and
    `User` tables are fields of a `SchoolDirectory`; `randomUUID()` is the
    `freshId` argument. */
module Schools {
  import opened Base

  const ErrDomainRequired: string := "Domain is required"
  const ErrNameAndDomainRequired: string := "School name and domain are required"
  const ErrInvalidDomain: string := "Invalid domain format"
  const ErrQueryRequired: string := "Search query is required"
  const ErrUserAndSchoolRequired: string := "User ID and School ID are required"
  const ErrUserNotFound: string := "User not found"
  const ErrSchoolNotFound: string := "School not found"
  const ErrUserIdRequired: string := "User ID is required"
  /** The database error of an insert that breaks a unique constraint
      (code '23505') and has no existing school to fall back on. */
  const ErrUniqueViolation: string := "duplicate key value violates unique constraint"

  const DefaultSearchLimit: int := 20
  const MaxSearchLimit: int := 50

  /** `domain.toLowerCase().trim()`. */
  function NormalizeDomain(domain: string): (r: string)
    ensures forall i :: 0 <= i < |r| ==> !('A' <= r[i] <= 'Z')
    ensures ToLower(r) == r
    ensures r == [] || (!IsJsSpace(r[0]) && !IsJsSpace(r[|r| - 1]))
  {
    TrimLowerCommute(domain);
    LowerTwice(Trim(domain));
    Trim(ToLower(domain))
  }

  lemma LowerTwice(s: string)
    ensures ToLower(ToLower(s)) == ToLower(s)
  {
  }

  /** Normalising a normalised domain changes nothing, so `createSchool`'s
      fallback lookup of its already normalised domain uses the same key. */
  lemma NormalizeIdempotent(domain: string)
    ensures NormalizeDomain(NormalizeDomain(domain)) == NormalizeDomain(domain)
  {
    TrimIdempotent(ToLower(domain));
  }

  // ---------------------------------------------------------------------------
  // The domain format
  // /^[a-z0-9]([a-z0-9-]{0,61}[a-z0-9])?(\.[a-z0-9]([a-z0-9-]{0,61}[a-z0-9])?)*\.[a-z]{2,}$/i

  /** `[a-z]` under the `i` flag. */
  predicate IsLetter(c: char) {
    'a' <= c <= 'z' || 'A' <= c <= 'Z'
  }

  /** `[a-z0-9]` under the `i` flag. */
  predicate IsAlnum(c: char) {
    IsLetter(c) || '0' <= c <= '9'
  }

  /** `[a-z0-9]([a-z0-9-]{0,61}[a-z0-9])?`: 1 to 63 alphanumerics and
      hyphens, neither starting nor ending with a hyphen. */
  predicate IsLabel(s: string) {
    && 1 <= |s| <= 63
    && IsAlnum(s[0]) && IsAlnum(s[|s| - 1])
    && forall i :: 0 <= i < |s| ==> IsAlnum(s[i]) || s[i] == '-'
  }

  /** `[a-z]{2,}`: the final label. */
  predicate IsTld(s: string) {
    |s| >= 2 && forall i :: 0 <= i < |s| ==> IsLetter(s[i])
  }

  predicate NoDot(s: string) {
    forall i :: 0 <= i < |s| ==> s[i] != '.'
  }

  /** Joins the parts with dots. */
  function JoinDots(parts: seq<string>): (r: string)
    requires |parts| >= 1
  {
    if |parts| == 1 then parts[0] else parts[0] + "." + JoinDots(parts[1..])
  }

  /** `s.split('.')`: the dot-free pieces that join back to `s`. */
  function SplitDots(s: string): (parts: seq<string>)
    ensures |parts| >= 1
    ensures forall k :: 0 <= k < |parts| ==> NoDot(parts[k])
    ensures JoinDots(parts) == s
    decreases |s|
  {
    if s == [] then [""]
    else
      var rest := SplitDots(s[1..]);
      if s[0] == '.' then
        assert ([""] + rest)[1..] == rest;
        [""] + rest
      else
        var parts := [[s[0]] + rest[0]] + rest[1..];
        assert |rest| > 1 ==> parts[1..] == rest[1..] && JoinDots(rest) == rest[0] + "." + JoinDots(rest[1..]);
        assert s == [s[0]] + s[1..];
        parts
  }

  /** Splitting a dot-free word followed by more text: the word is glued to
      the first piece of the rest. */
  lemma {:induction false} SplitAfterWord(w: string, s: string)
    requires NoDot(w)
    ensures SplitDots(w + s) == [w + SplitDots(s)[0]] + SplitDots(s)[1..]
    decreases |w|
  {
    var rs := SplitDots(s);
    if w != [] {
      assert (w + s)[0] == w[0] && (w + s)[1..] == w[1..] + s;
      var rest := SplitDots(w[1..] + s);
      assert SplitDots(w + s) == [[w[0]] + rest[0]] + rest[1..];
      SplitAfterWord(w[1..], s);
      assert rest[0] == w[1..] + rs[0] && rest[1..] == rs[1..];
      assert [w[0]] + (w[1..] + rs[0]) == w + rs[0];
    } else {
      assert w + s == s && w + rs[0] == rs[0];
      assert rs == [rs[0]] + rs[1..];
    }
  }

  /** Splitting undoes joining, so every string has exactly one reading as
      dot-free parts joined by dots. */
  lemma {:induction false} SplitJoin(parts: seq<string>)
    requires |parts| >= 1
    requires forall k :: 0 <= k < |parts| ==> NoDot(parts[k])
    ensures SplitDots(JoinDots(parts)) == parts
    decreases |parts|
  {
    if |parts| == 1 {
      SplitAfterWord(parts[0], "");
      assert SplitDots("") == [""];
      assert parts[0] + "" == parts[0];
      assert parts == [parts[0]];
    } else {
      var rest := JoinDots(parts[1..]);
      SplitJoin(parts[1..]);
      assert JoinDots(parts) == parts[0] + ("." + rest);
      SplitAfterWord(parts[0], "." + rest);
      assert ("." + rest)[0] == '.' && ("." + rest)[1..] == rest;
      assert SplitDots("." + rest) == [""] + parts[1..];
      assert parts[0] + "" == parts[0];
      assert parts == [parts[0]] + parts[1..];
    }
  }

  /** The domain-format test of `createSchool`: labels, then a final run of
      at least two letters, all separated by dots. */
  predicate ValidDomain(d: string) {
    var parts := SplitDots(d);
    && |parts| >= 2
    && (forall k :: 0 <= k < |parts| - 1 ==> IsLabel(parts[k]))
    && IsTld(parts[|parts| - 1])
  }

  /** The accepted domains are exactly the labels and final letters joined
      by dots. */
  lemma ValidDomainOfParts(labels: seq<string>, tld: string)
    requires |labels| >= 1
    requires forall k :: 0 <= k < |labels| ==> NoDot(labels[k])
    requires NoDot(tld)
    ensures ValidDomain(JoinDots(labels + [tld])) <==>
      (forall k :: 0 <= k < |labels| ==> IsLabel(labels[k])) && IsTld(tld)
  {
    var parts := labels + [tld];
    assert forall k :: 0 <= k < |labels| ==> parts[k] == labels[k];
    assert parts[|parts| - 1] == tld;
    assert forall k :: 0 <= k < |parts| ==> NoDot(parts[k]);
    SplitJoin(parts);
  }

  /** The characters of a join: each comes from a part or is a dot. */
  lemma {:induction false} JoinCharacters(parts: seq<string>, allowed: char -> bool)
    requires |parts| >= 1
    requires forall k, i :: 0 <= k < |parts| && 0 <= i < |parts[k]| ==> allowed(parts[k][i])
    ensures forall i :: 0 <= i < |JoinDots(parts)| ==> allowed(JoinDots(parts)[i]) || JoinDots(parts)[i] == '.'
    decreases |parts|
  {
    if |parts| > 1 {
      JoinCharacters(parts[1..], allowed);
      var rest := JoinDots(parts[1..]);
      assert JoinDots(parts) == parts[0] + ("." + rest);
      forall i | 0 <= i < |JoinDots(parts)|
        ensures allowed(JoinDots(parts)[i]) || JoinDots(parts)[i] == '.'
      {
        if i < |parts[0]| {
          assert JoinDots(parts)[i] == parts[0][i];
        } else if i > |parts[0]| {
          assert JoinDots(parts)[i] == rest[i - |parts[0]| - 1];
        }
      }
    }
  }

  /** The last part ends a join. */
  lemma {:induction false} JoinEndsWithLast(parts: seq<string>)
    requires |parts| >= 1
    ensures |JoinDots(parts)| >= |parts[|parts| - 1]|
    ensures JoinDots(parts)[|JoinDots(parts)| - |parts[|parts| - 1]|..] == parts[|parts| - 1]
    decreases |parts|
  {
    if |parts| > 1 {
      JoinEndsWithLast(parts[1..]);
      assert JoinDots(parts) == (parts[0] + ".") + JoinDots(parts[1..]);
    }
  }

  /** What a valid domain looks like character by character: it starts
      with an alphanumeric, ends with a letter, contains a dot, and holds
      nothing but alphanumerics, hyphens and dots. */
  lemma ValidDomainShape(d: string)
    requires ValidDomain(d)
    ensures |d| >= 4
    ensures IsAlnum(d[0]) && IsLetter(d[|d| - 1])
    ensures exists i :: 0 <= i < |d| && d[i] == '.'
    ensures forall i :: 0 <= i < |d| ==> IsAlnum(d[i]) || d[i] == '-' || d[i] == '.'
  {
    var parts := SplitDots(d);
    var last := parts[|parts| - 1];
    assert IsLabel(parts[0]);
    assert d == parts[0] + "." + JoinDots(parts[1..]);
    assert d[|parts[0]|] == '.';
    JoinEndsWithLast(parts);
    assert d[|d| - 1] == last[|last| - 1];
    forall k, i | 0 <= k < |parts| && 0 <= i < |parts[k]|
      ensures IsAlnum(parts[k][i]) || parts[k][i] == '-'
    {
      if k < |parts| - 1 {
        assert IsLabel(parts[k]);
      }
    }
    JoinCharacters(parts, c => IsAlnum(c) || c == '-');
  }

  // ---------------------------------------------------------------------------
  // Rows

  /** A `school` row. */
  datatype School = School(id: Id, name: string, domain: string)

  /** A school as the functions return it: the stored columns plus
      `abbreviation`, `created_at` and `updated_at`, which are always set
      to null. */
  datatype SchoolRow = SchoolRow(school: School, abbreviation: Option<string>, createdAt: Option<string>, updatedAt: Option<string>)

  function WithNullExtras(s: School): (r: SchoolRow)
    ensures r.school == s && r.abbreviation.None? && r.createdAt.None? && r.updatedAt.None?
  {
    SchoolRow(s, None, None, None)
  }

  /** The `User` columns this module writes. */
  datatype UserRow = UserRow(schoolId: Option<Id>, school: Option<string>)

  /** `school.name || school.domain`. */
  function SchoolLabel(s: School): (l: string)
    ensures s.name != "" ==> l == s.name
    ensures s.name == "" ==> l == s.domain
  {
    if s.name != "" then s.name else s.domain
  }

  /** `Math.min(Math.max(1, limit), 50)`. */
  function ClampLimit(limit: int): (n: int)
    ensures 1 <= n <= MaxSearchLimit
    ensures 1 <= limit <= MaxSearchLimit ==> n == limit
    ensures limit < 1 ==> n == 1
    ensures limit > MaxSearchLimit ==> n == MaxSearchLimit
  {
    if limit < 1 then 1 else if limit > MaxSearchLimit then MaxSearchLimit else limit
  }

  /** `.ilike('domain', d)` without wildcards: the first school whose domain
      equals `d` ignoring case. */
  function FindDomain(schools: seq<School>, d: string): (k: Option<nat>)
    ensures k.Some? ==> k.value < |schools| && ToLower(schools[k.value].domain) == ToLower(d)
    ensures k.None? <==> forall i :: 0 <= i < |schools| ==> ToLower(schools[i].domain) != ToLower(d)
  {
    if schools == [] then None
    else if ToLower(schools[0].domain) == ToLower(d) then Some(0)
    else
      match FindDomain(schools[1..], d)
      case None => None
      case Some(k) => Some(k + 1)
  }

  function FindSchool(schools: seq<School>, id: Id): (k: Option<nat>)
    ensures k.Some? ==> k.value < |schools| && schools[k.value].id == id
    ensures k.None? <==> forall i :: 0 <= i < |schools| ==> schools[i].id != id
  {
    if schools == [] then None
    else if schools[0].id == id then Some(0)
    else
      match FindSchool(schools[1..], id)
      case None => None
      case Some(k) => Some(k + 1)
  }

  /** The search filter: name or domain contains the lower-cased query
      (`ilike '%q%'`, case-insensitive). */
  predicate SearchMatch(s: School, q: string) {
    Includes(ToLower(s.name), q) || Includes(ToLower(s.domain), q)
  }

  function Matching(schools: seq<School>, q: string): (r: seq<School>)
    ensures |r| <= |schools|
  {
    if schools == [] then []
    else
      var rest := Matching(schools[..|schools| - 1], q);
      var last := schools[|schools| - 1];
      if SearchMatch(last, q) then rest + [last] else rest
  }

  /** The search keeps exactly the matching schools. */
  lemma {:induction false} MatchingMembers(schools: seq<School>, q: string)
    ensures forall s :: s in Matching(schools, q) <==> s in schools && SearchMatch(s, q)
    decreases |schools|
  {
    if schools != [] {
      var init := schools[..|schools| - 1];
      MatchingMembers(init, q);
      assert schools == init + [schools[|schools| - 1]];
    }
  }

  lemma MatchingStep(schools: seq<School>, i: nat, q: string)
    requires i < |schools|
    ensures Matching(schools[..i + 1], q) ==
      Matching(schools[..i], q) + (if SearchMatch(schools[i], q) then [schools[i]] else [])
  {
    assert schools[..i + 1][..i] == schools[..i];
  }

  /** The rows returned for a list of schools. */
  function RowsOf(ss: seq<School>): (r: seq<SchoolRow>)
    ensures |r| == |ss|
    ensures forall j :: 0 <= j < |ss| ==> r[j] == WithNullExtras(ss[j])
  {
    seq(|ss|, j requires 0 <= j < |ss| => WithNullExtras(ss[j]))
  }

  lemma RowsOfAppend(ss: seq<School>, s: School)
    ensures RowsOf(ss + [s]) == RowsOf(ss) + [WithNullExtras(s)]
  {
  }

  /** The query of `searchSchools` with its null extras: the first `n`
      matching schools, scanning the table once. */
  method FirstMatches(schools: seq<School>, q: string, n: nat) returns (data: seq<SchoolRow>)
    ensures var found := Matching(schools, q);
      data == RowsOf(found[..if |found| < n then |found| else n])
  {
    data := [];
    var i := 0;
    while i < |schools| && |data| < n
      invariant i <= |schools|
      invariant |data| <= n
      invariant data == RowsOf(Matching(schools[..i], q))
    {
      MatchingStep(schools, i, q);
      if SearchMatch(schools[i], q) {
        RowsOfAppend(Matching(schools[..i], q), schools[i]);
        data := data + [WithNullExtras(schools[i])];
      }
      i := i + 1;
    }
    MatchingPrefix(schools, i, q);
    var found := Matching(schools, q);
    var m := Matching(schools[..i], q);
    if i == |schools| {
      assert schools[..i] == schools;
      assert found[..|found|] == found;
    } else {
      assert |m| == n && found[..n] == m;
    }
  }

  // ---------------------------------------------------------------------------
  // The directory

  class SchoolDirectory {
    /** The `school` table. */
    var schools: seq<School>
    /** The `User` table: user id to its school columns. */
    var users: map<Id, UserRow>

    /** Ids are unique, and so are domains, which are stored lower-cased. */
    ghost predicate Valid()
      reads this
    {
      && (forall i, j :: 0 <= i < j < |schools| ==> schools[i].id != schools[j].id)
      && (forall i, j :: 0 <= i < j < |schools| ==> schools[i].domain != schools[j].domain)
      && (forall i :: 0 <= i < |schools| ==> ToLower(schools[i].domain) == schools[i].domain)
    }

    constructor (users: map<Id, UserRow>)
      ensures Valid() && schools == [] && this.users == users
    {
      schools := [];
      this.users := users;
    }

    /** `getSchoolByDomain(domain)`: `Ok(None)` when no school has it. */
    function GetSchoolByDomain(domain: Option<string>): (r: Result<Option<SchoolRow>>)
      reads this
      ensures !Truthy(domain) ==> r == Err(ErrDomainRequired)
      ensures Truthy(domain) ==> r.Ok?
      // found exactly when a stored domain equals the normalised one ignoring case
      ensures r.Ok? ==> (r.value.Some? <==>
        exists i :: 0 <= i < |schools| && ToLower(schools[i].domain) == NormalizeDomain(domain.value))
      ensures r.Ok? && r.value.Some? ==>
        && r.value.value.school in schools
        && ToLower(r.value.value.school.domain) == NormalizeDomain(domain.value)
        && r.value.value == WithNullExtras(r.value.value.school)
    {
      if !Truthy(domain) then Err(ErrDomainRequired)
      else
        var n := NormalizeDomain(domain.value);
        assert ToLower(n) == n;
        match FindDomain(schools, n)
        case None => Ok(None)
        case Some(k) => Ok(Some(WithNullExtras(schools[k])))
    }

    /** `createSchool({ name, domain })`, `freshId` standing for `randomUUID()`. */
    method CreateSchool(name: Option<string>, domain: Option<string>, freshId: Id) returns (r: Result<SchoolRow>)
      requires Valid()
      modifies this
      ensures Valid() && users == old(users)
      ensures !Truthy(name) || !Truthy(domain) ==> r == Err(ErrNameAndDomainRequired) && schools == old(schools)
      ensures Truthy(name) && Truthy(domain) && !ValidDomain(NormalizeDomain(domain.value)) ==>
        r == Err(ErrInvalidDomain) && schools == old(schools)
      // a domain already present: the insert breaks the unique constraint and
      // the existing school is returned unchanged
      ensures (&& Truthy(name) && Truthy(domain) && ValidDomain(NormalizeDomain(domain.value))
               && FindDomain(old(schools), NormalizeDomain(domain.value)).Some?) ==>
        && schools == old(schools)
        && r == Ok(WithNullExtras(old(schools)[FindDomain(old(schools), NormalizeDomain(domain.value)).value]))
      // a new domain under an id already taken: the error is returned
      ensures (&& Truthy(name) && Truthy(domain) && ValidDomain(NormalizeDomain(domain.value))
               && FindDomain(old(schools), NormalizeDomain(domain.value)).None?
               && FindSchool(old(schools), freshId).Some?) ==>
        r == Err(ErrUniqueViolation) && schools == old(schools)
      // otherwise the trimmed name and the normalised domain are stored
      ensures (&& Truthy(name) && Truthy(domain) && ValidDomain(NormalizeDomain(domain.value))
               && FindDomain(old(schools), NormalizeDomain(domain.value)).None?
               && FindSchool(old(schools), freshId).None?) ==>
        && r == Ok(WithNullExtras(School(freshId, Trim(name.value), NormalizeDomain(domain.value))))
        && schools == old(schools) + [r.value.school]
      // whatever is returned is what a lookup of the same domain now finds
      ensures r.Ok? ==> GetSchoolByDomain(domain) == Ok(Some(r.value))
    {
      if !Truthy(name) || !Truthy(domain) {
        return Err(ErrNameAndDomainRequired);
      }
      var normalized := NormalizeDomain(domain.value);
      if !ValidDomain(normalized) {
        return Err(ErrInvalidDomain);
      }
      NormalizeIdempotent(domain.value);
      var found := FindDomain(schools, normalized);
      if found.Some? || FindSchool(schools, freshId).Some? {
        // unique violation (23505): fall back on the school with that domain
        var existing := GetSchoolByDomain(Some(normalized));
        if existing.Ok? && existing.value.Some? {
          return Ok(existing.value.value);
        }
        return Err(ErrUniqueViolation);
      }
      var school := School(freshId, Trim(name.value), normalized);
      Insert(school);
      r := Ok(WithNullExtras(school));
    }

    /** The insert of `createSchool` when neither the id nor the domain is taken. */
    method Insert(school: School)
      requires Valid()
      requires FindDomain(schools, school.domain).None? && FindSchool(schools, school.id).None?
      requires ToLower(school.domain) == school.domain
      modifies this
      ensures Valid() && users == old(users)
      ensures schools == old(schools) + [school]
      ensures FindDomain(schools, school.domain) == Some(|schools| - 1)
    {
      FindDomainAppend(schools, school, school.domain);
      schools := schools + [school];
    }

    /** `searchSchools(query, limit)`, `limit` being `None` when omitted.
        Rows come in table order (see README on ordering). */
    method SearchSchools(query: Option<string>, limit: Option<int>) returns (data: seq<SchoolRow>, error: Option<string>)
      // a missing or blank query: an empty list and an error
      ensures !Truthy(query) || Trim(query.value) == [] ==> data == [] && error == Some(ErrQueryRequired)
      // otherwise the first matches, as many as the clamped limit allows
      ensures Truthy(query) && Trim(query.value) != [] ==>
        var found := Matching(schools, Trim(ToLower(query.value)));
        var n := ClampLimit(if limit.Some? then limit.value else DefaultSearchLimit);
        && error.None?
        && data == RowsOf(found[..if |found| < n then |found| else n])
      ensures |data| <= MaxSearchLimit
    {
      if !Truthy(query) || Trim(query.value) == [] {
        return [], Some(ErrQueryRequired);
      }
      var n := ClampLimit(if limit.Some? then limit.value else DefaultSearchLimit);
      data := FirstMatches(schools, Trim(ToLower(query.value)), n);
      error := None;
    }

    /** `linkUserToSchool(userId, schoolId)`. */
    method LinkUserToSchool(userId: Option<string>, schoolId: Option<string>) returns (r: Result<UserRow>)
      requires Valid()
      modifies this
      ensures Valid() && schools == old(schools)
      ensures !Truthy(userId) || !Truthy(schoolId) ==> r == Err(ErrUserAndSchoolRequired) && users == old(users)
      ensures Truthy(userId) && Truthy(schoolId) && userId.value !in old(users) ==>
        r == Err(ErrUserNotFound) && users == old(users)
      ensures (&& Truthy(userId) && Truthy(schoolId) && userId.value in old(users)
               && FindSchool(schools, schoolId.value).None?) ==>
        r == Err(ErrSchoolNotFound) && users == old(users)
      // with both rows present only that user's school columns change
      ensures (&& Truthy(userId) && Truthy(schoolId) && userId.value in old(users)
               && FindSchool(schools, schoolId.value).Some?) ==>
        && r == Ok(UserRow(schoolId, Some(SchoolLabel(schools[FindSchool(schools, schoolId.value).value]))))
        && users == old(users)[userId.value := r.value]
      // afterwards the user's school is the linked one
      ensures r.Ok? ==>
        GetUserSchool(userId) == Ok(Some(WithNullExtras(schools[FindSchool(schools, schoolId.value).value])))
    {
      if !Truthy(userId) || !Truthy(schoolId) {
        return Err(ErrUserAndSchoolRequired);
      }
      if userId.value !in users {
        return Err(ErrUserNotFound);
      }
      var k := FindSchool(schools, schoolId.value);
      if k.None? {
        return Err(ErrSchoolNotFound);
      }
      var row := UserRow(schoolId, Some(SchoolLabel(schools[k.value])));
      users := users[userId.value := row];
      r := Ok(row);
    }

    /** `getUserSchool(userId)`: `Ok(None)` for an unknown user, a user
        without a school, or a school id that no longer resolves. */
    function GetUserSchool(userId: Option<string>): (r: Result<Option<SchoolRow>>)
      reads this
      ensures !Truthy(userId) ==> r == Err(ErrUserIdRequired)
      ensures Truthy(userId) ==> r.Ok?
      ensures r.Ok? && r.value.Some? ==>
        && userId.value in users && users[userId.value].schoolId.Some?
        && r.value.value.school in schools
        && r.value.value.school.id == users[userId.value].schoolId.value
        && r.value.value == WithNullExtras(r.value.value.school)
      ensures (&& Truthy(userId) && userId.value in users && Truthy(users[userId.value].schoolId)
               && FindSchool(schools, users[userId.value].schoolId.value).Some?) ==>
        r.Ok? && r.value.Some?
    {
      if !Truthy(userId) then Err(ErrUserIdRequired)
      else if userId.value !in users || !Truthy(users[userId.value].schoolId) then Ok(None)
      else
        match FindSchool(schools, users[userId.value].schoolId.value)
        case None => Ok(None)
        case Some(k) => Ok(Some(WithNullExtras(schools[k])))
    }
  }

  /** A school appended after no match is the one a lookup finds. */
  lemma {:induction false} FindDomainAppend(schools: seq<School>, s: School, d: string)
    requires FindDomain(schools, d).None? && ToLower(s.domain) == ToLower(d)
    ensures FindDomain(schools + [s], d) == Some(|schools|)
    decreases |schools|
  {
    if schools != [] {
      assert ToLower(schools[0].domain) != ToLower(d);
      assert (schools + [s])[0] == schools[0] && (schools + [s])[1..] == schools[1..] + [s];
      FindDomainAppend(schools[1..], s, d);
    } else {
      assert [] + [s] == [s];
    }
  }

  /** The matches among a prefix of the table are a prefix of all matches. */
  lemma {:induction false} MatchingPrefix(schools: seq<School>, i: nat, q: string)
    requires i <= |schools|
    ensures |Matching(schools[..i], q)| <= |Matching(schools, q)|
    ensures Matching(schools, q)[..|Matching(schools[..i], q)|] == Matching(schools[..i], q)
    decreases |schools| - i
  {
    if i < |schools| {
      var a := Matching(schools[..i], q);
      var b := Matching(schools[..i + 1], q);
      var m := Matching(schools, q);
      MatchingStep(schools, i, q);
      assert b[..|a|] == a;
      MatchingPrefix(schools, i + 1, q);
      assert m[..|b|] == b;
      assert m[..|a|] == m[..|b|][..|a|];
    } else {
      assert schools[..i] == schools;
    }
  }
}
