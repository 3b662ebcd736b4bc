/** Shared vocabulary of the model: optional values, `{data, error}` results,
    JavaScript truthiness of strings, `String.prototype.trim`, lower-casing,
    the UUID shape that the server actions accept, decimal rendering of
    integers, JavaScript numbers as received by a server action, and
    geographic coordinates. */
module Base {

  datatype Option<+T> = None | Some(value: T)

  /** The `{ data, error }` pair every server function returns: `Ok` carries
      `data` (with `error: null`), `Err` carries `error.message` (with `data: null`). */
  datatype Result<+T> = Ok(value: T) | Err(message: string)

  /** Row identifiers and user identifiers are opaque strings. */
  type Id = string

  /** A string-valued argument is truthy in JavaScript unless it is
      null/undefined (`None`) or the empty string. */
  predicate Truthy(s: Option<string>) {
    s.Some? && s.value != ""
  }

  /** `x || null` for a string. */
  function OrNull(s: Option<string>): (r: Option<string>)
    ensures r.Some? <==> Truthy(s)
    ensures r.Some? ==> r == s
  {
    if Truthy(s) then s else None
  }

  /** `n || null` for a number: 0 is falsy. */
  function NumOrNull(n: Option<int>): (r: Option<int>)
    ensures r.Some? <==> n.Some? && n.value != 0
    ensures r.Some? ==> r == n
  {
    if n.Some? && n.value != 0 then n else None
  }

  // ---------------------------------------------------------------------------
  // String.prototype.trim

  /** The characters `trim` removes: ECMAScript WhiteSpace and LineTerminator. */
  predicate IsJsSpace(c: char) {
    || c == '\t' || c == '\n' || c == '\U{000B}' || c == '\U{000C}' || c == '\r'
    || c == ' ' || c == '\U{00A0}' || c == '\U{1680}'
    || ('\U{2000}' <= c <= '\U{200A}')
    || c == '\U{2028}' || c == '\U{2029}' || c == '\U{202F}' || c == '\U{205F}'
    || c == '\U{3000}' || c == '\U{FEFF}'
  }

  predicate AllSpace(s: string) {
    forall i :: 0 <= i < |s| ==> IsJsSpace(s[i])
  }

  /** Drops the leading white space: what remains is a suffix of `s` that is
      empty or starts with a non-space, and everything dropped is space. */
  function TrimStart(s: string): (r: string)
    ensures |r| <= |s| && r == s[|s| - |r|..]
    ensures r == [] || !IsJsSpace(r[0])
    ensures AllSpace(s[..|s| - |r|])
  {
    if s != [] && IsJsSpace(s[0]) then
      var t := TrimStart(s[1..]);
      assert s[..|s| - |t|] == [s[0]] + s[1..][..|s| - 1 - |t|];
      t
    else s
  }

  /** Drops the trailing white space: what remains is a prefix of `s` that is
      empty or ends with a non-space, and everything dropped is space. */
  function TrimEnd(s: string): (r: string)
    ensures |r| <= |s| && r == s[..|r|]
    ensures r == [] || !IsJsSpace(r[|r| - 1])
    ensures AllSpace(s[|r|..])
  {
    if s != [] && IsJsSpace(s[|s| - 1]) then
      var t := TrimEnd(s[..|s| - 1]);
      assert s[|t|..] == s[..|s| - 1][|t|..] + [s[|s| - 1]];
      t
    else s
  }

  /** `s.trim()`. */
  function Trim(s: string): (r: string)
    ensures |r| <= |s|
    ensures r == [] || (!IsJsSpace(r[0]) && !IsJsSpace(r[|r| - 1]))
  {
    TrimEnd(TrimStart(s))
  }

  /** A string trims to the empty string exactly when it is all white space;
      this is what `!s.trim()` tests. */
  lemma {:induction false} TrimEmptyIffBlank(s: string)
    ensures Trim(s) == [] <==> AllSpace(s)
  {
    var a := TrimStart(s);
    if Trim(s) == [] {
      assert a == [] by {
        assert AllSpace(a[0..]);
      }
      assert s[..|s|] == s;
    } else {
      var r := Trim(s);
      assert r == a[..|r|] && a == s[|s| - |a|..];
      assert r[0] == s[|s| - |a|];
    }
  }

  /** Trimming twice is trimming once. */
  lemma TrimIdempotent(s: string)
    ensures Trim(Trim(s)) == Trim(s)
  {
    var r := Trim(s);
    assert TrimStart(r) == r;
    assert TrimEnd(r) == r;
  }

  // ---------------------------------------------------------------------------
  // Case

  function LowerChar(c: char): (d: char)
    ensures !('A' <= d <= 'Z')
    ensures 'a' <= c <= 'z' || '0' <= c <= '9' || c == '-' || c == '.' ==> d == c
  {
    if 'A' <= c <= 'Z' then (c as int + 32) as char else c
  }

  /** `s.toLowerCase()` restricted to ASCII letters (see README, Left out). */
  function ToLower(s: string): (r: string)
    ensures |r| == |s|
    ensures forall i :: 0 <= i < |s| ==> r[i] == LowerChar(s[i])
  {
    seq(|s|, i requires 0 <= i < |s| => LowerChar(s[i]))
  }

  /** Lower-casing commutes with trimming: none of the characters `trim`
      removes is an ASCII letter. */
  lemma {:induction false} TrimLowerCommute(s: string)
    ensures Trim(ToLower(s)) == ToLower(Trim(s))
  {
    TrimStartLower(s);
    TrimEndLower(TrimStart(s));
  }

  lemma {:induction false} TrimStartLower(s: string)
    ensures TrimStart(ToLower(s)) == ToLower(TrimStart(s))
    decreases |s|
  {
    if s != [] {
      var lower := ToLower(s);
      assert lower[0] == LowerChar(s[0]);
      assert IsJsSpace(lower[0]) == IsJsSpace(s[0]);
      if IsJsSpace(s[0]) {
        assert lower[1..] == ToLower(s[1..]);
        assert TrimStart(lower) == TrimStart(lower[1..]);
        TrimStartLower(s[1..]);
      } else {
        assert TrimStart(lower) == lower;
        assert TrimStart(s) == s;
      }
    }
  }

  lemma {:induction false} TrimEndLower(s: string)
    ensures TrimEnd(ToLower(s)) == ToLower(TrimEnd(s))
    decreases |s|
  {
    if s != [] {
      var lower := ToLower(s);
      assert lower[|s| - 1] == LowerChar(s[|s| - 1]);
      assert IsJsSpace(lower[|s| - 1]) == IsJsSpace(s[|s| - 1]);
      if IsJsSpace(s[|s| - 1]) {
        assert lower[..|s| - 1] == ToLower(s[..|s| - 1]);
        assert TrimEnd(lower) == TrimEnd(lower[..|s| - 1]);
        TrimEndLower(s[..|s| - 1]);
      } else {
        assert TrimEnd(lower) == lower;
        assert TrimEnd(s) == s;
      }
    }
  }

  /** `haystack.includes(needle)`. */
  predicate Includes(haystack: string, needle: string)
    decreases |haystack|
  {
    || (|needle| <= |haystack| && haystack[..|needle|] == needle)
    || (haystack != [] && Includes(haystack[1..], needle))
  }

  // ---------------------------------------------------------------------------
  // Identifiers

  predicate IsHexDigit(c: char) {
    '0' <= c <= '9' || 'a' <= c <= 'f' || 'A' <= c <= 'F'
  }

  /** `/^[0-9a-f]{8}-[0-9a-f]{4}-[0-9a-f]{4}-[0-9a-f]{4}-[0-9a-f]{12}$/i`. */
  predicate IsUuid(s: string) {
    && |s| == 36
    && forall i :: 0 <= i < 36 ==>
         if i == 8 || i == 13 || i == 18 || i == 23 then s[i] == '-' else IsHexDigit(s[i])
  }

  predicate AllHex(s: string) {
    forall i :: 0 <= i < |s| ==> IsHexDigit(s[i])
  }

  /** Five hex groups of 8, 4, 4, 4 and 12 digits joined by dashes form a UUID. */
  lemma UuidOfGroups(a: string, b: string, c: string, d: string, e: string)
    requires |a| == 8 && |b| == 4 && |c| == 4 && |d| == 4 && |e| == 12
    requires AllHex(a) && AllHex(b) && AllHex(c) && AllHex(d) && AllHex(e)
    ensures IsUuid(a + "-" + b + "-" + c + "-" + d + "-" + e)
  {
    var s := a + "-" + b + "-" + c + "-" + d + "-" + e;
    forall i | 0 <= i < 36
      ensures if i == 8 || i == 13 || i == 18 || i == 23 then s[i] == '-' else IsHexDigit(s[i])
    {
      if i < 8 {
        assert s[i] == a[i];
      } else if 8 < i < 13 {
        assert s[i] == b[i - 9];
      } else if 13 < i < 18 {
        assert s[i] == c[i - 14];
      } else if 18 < i < 23 {
        assert s[i] == d[i - 19];
      } else if 23 < i {
        assert s[i] == e[i - 24];
      }
    }
  }

  /** Every UUID is five such groups joined by dashes. */
  lemma UuidGroups(s: string)
    requires IsUuid(s)
    ensures s == s[..8] + "-" + s[9..13] + "-" + s[14..18] + "-" + s[19..23] + "-" + s[24..]
    ensures AllHex(s[..8]) && AllHex(s[9..13]) && AllHex(s[14..18]) && AllHex(s[19..23]) && AllHex(s[24..])
  {
    assert s[8] == '-' && s[13] == '-' && s[18] == '-' && s[23] == '-';
    assert s == s[..8] + [s[8]] + s[9..13] + [s[13]] + s[14..18] + [s[18]] + s[19..23] + [s[23]] + s[24..];
    assert forall i :: 0 <= i < 4 ==> s[9..13][i] == s[9 + i] && s[14..18][i] == s[14 + i] && s[19..23][i] == s[19 + i];
    assert forall i :: 0 <= i < 12 ==> s[24..][i] == s[24 + i];
  }

  // ---------------------------------------------------------------------------
  // Numbers

  predicate IsDigit(c: char) {
    '0' <= c <= '9'
  }

  function DigitChar(d: nat): (c: char)
    requires d < 10
    ensures IsDigit(c) && c as int - '0' as int == d
  {
    ('0' as int + d) as char
  }

  /** Decimal rendering of a natural number, as template literals print it. */
  function NatToString(n: nat): (r: string)
    ensures r != [] && forall i :: 0 <= i < |r| ==> IsDigit(r[i])
  {
    if n < 10 then [DigitChar(n)] else NatToString(n / 10) + [DigitChar(n % 10)]
  }

  /** Decimal rendering of an integer. */
  function IntToString(n: int): (r: string)
    ensures r != []
    ensures forall i :: 0 <= i < |r| ==> r[i] == '-' || IsDigit(r[i])
    ensures n >= 0 ==> r == NatToString(n)
    ensures n < 0 <==> r[0] == '-'
  {
    if n < 0 then "-" + NatToString(-n) else NatToString(n)
  }

  /** A JavaScript number other than an infinity. */
  datatype Num = NaN | Finite(value: real)

  /** A numeric argument of a server action as it arrives: `undefined`,
      a number, or a value of another type (`typeof x !== 'number'`). */
  datatype NumArg = Undefined | Number(n: Num) | NotANumber

  // ---------------------------------------------------------------------------
  // Coordinates

  datatype Coordinates = Coordinates(lat: real, lng: real)

  predicate ValidLat(x: real) {
    -90.0 <= x <= 90.0
  }

  predicate ValidLng(x: real) {
    -180.0 <= x <= 180.0
  }

  predicate ValidCoordinates(c: Coordinates) {
    ValidLat(c.lat) && ValidLng(c.lng)
  }
}
