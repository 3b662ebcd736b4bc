/** Server-side location tracking for automatic check-out: resolving an
    event's free-text location to coordinates (literal "lat,lng" or through
    the geocoder, cached on the event row), recording a guest's last known
    position on their active check-in, the radius test, and the automatic
    check-out that re-checks the last position before acting.

    The great-circle distance is the parameter `dist`; the check-in table is
    the `CheckInStore` of module CheckIn. */
module Tracker {
  import opened Base
  import opened Geocoding
  import opened CheckIn

  const DefaultRadius: real := 150.0

  const ErrAllRequired: string := "All parameters are required"
  const ErrInvalidId: string := "Invalid ID format"
  const ErrInvalidLatLng: string := "Invalid latitude/longitude values"
  const ErrEventLocationRequired: string := "Event location is required for automatic check-out"
  const ErrBackInRadius: string := "User is back in radius"

  // ---------------------------------------------------------------------------
  // Literal coordinates: /^-?\d+\.?\d*,-?\d+\.?\d*$/ followed by Number()

  function IndexOf(s: string, c: char): (k: Option<nat>)
    ensures k.Some? ==> k.value < |s| && s[k.value] == c && forall j :: 0 <= j < k.value ==> s[j] != c
    ensures k.None? ==> forall j :: 0 <= j < |s| ==> s[j] != c
  {
    if s == [] then None
    else if s[0] == c then Some(0)
    else
      match IndexOf(s[1..], c)
      case None => None
      case Some(k) => Some(k + 1)
  }

  lemma {:induction false} IndexOfAfter(p: string, c: char, q: string)
    requires forall j :: 0 <= j < |p| ==> p[j] != c
    requires q != [] && q[0] == c
    ensures IndexOf(p + q, c) == Some(|p|)
  {
    if p != [] {
      assert (p + q)[1..] == p[1..] + q;
      IndexOfAfter(p[1..], c, q);
    } else {
      assert p + q == q;
    }
  }

  predicate AllDigits(s: string) {
    forall i :: 0 <= i < |s| ==> IsDigit(s[i])
  }

  /** The value of a string of decimal digits. */
  function DigitsValue(s: string): nat
    requires AllDigits(s)
  {
    if s == [] then 0 else DigitsValue(s[..|s| - 1]) * 10 + (s[|s| - 1] as int - '0' as int)
  }

  function Pow10(k: nat): (p: nat)
    ensures p >= 1
  {
    if k == 0 then 1 else 10 * Pow10(k - 1)
  }

  function Signed(negative: bool, v: real): real {
    if negative then -v else v
  }

  /** The body of a numeral: the text after an optional leading minus. */
  function NumeralBody(s: string): (b: string)
    ensures b == s || (s != [] && s[0] == '-' && b == s[1..])
  {
    if s != [] && s[0] == '-' then s[1..] else s
  }

  /** The language of `-?\d+\.?\d*`: after an optional minus, a digit first,
      then only digits and at most one dot. */
  predicate IsNumeral(s: string) {
    var b := NumeralBody(s);
    && b != [] && IsDigit(b[0])
    && (forall i :: 0 <= i < |b| ==> IsDigit(b[i]) || b[i] == '.')
    && (forall i, j :: 0 <= i < j < |b| && b[i] == '.' ==> b[j] != '.')
  }

  /** The test against `-?\d+\.?\d*` followed by `Number`: an optional minus,
      one or more digits, and optionally a dot followed by any number of
      digits. `Number` alone accepts more (exponents, hexadecimal, padding,
      the empty string); only strings that pass the pattern reach it. */
  function ParseNumeral(s: string): (r: Option<real>)
    ensures r.Some? ==> s != [] && forall i :: 0 <= i < |s| ==> s[i] == '-' || s[i] == '.' || IsDigit(s[i])
  {
    var negative := s != [] && s[0] == '-';
    var body := NumeralBody(s);
    match IndexOf(body, '.')
    case None =>
      if body != [] && AllDigits(body) then Some(Signed(negative, DigitsValue(body) as real)) else None
    case Some(p) =>
      var whole := body[..p];
      var fraction := body[p + 1..];
      if whole != [] && AllDigits(whole) && AllDigits(fraction) then
        Some(DecimalValue(negative, whole, fraction))
      else None
  }

  /** The value of a numeral with whole digits and fraction digits. */
  function DecimalValue(negative: bool, whole: string, fraction: string): real
    requires AllDigits(whole) && AllDigits(fraction)
  {
    Signed(negative, DigitsValue(whole) as real + DigitsValue(fraction) as real / Pow10(|fraction|) as real)
  }

  /** The coordinate pattern and `split(',').map(Number)`: two numerals
      separated by the only comma. */
  function LiteralCoordinates(t: string): (r: Option<Coordinates>)
  {
    match IndexOf(t, ',')
    case None => None
    case Some(c) =>
      match (ParseNumeral(t[..c]), ParseNumeral(t[c + 1..]))
      case (Some(lat), Some(lng)) => Some(Coordinates(lat, lng))
      case _ => None
  }

  /** `/^-?\d+\.?\d*,-?\d+\.?\d*$/.test(t)`: two numerals around a comma. */
  predicate LatLngPattern(t: string) {
    exists c :: 0 <= c < |t| && t[c] == ',' && IsNumeral(t[..c]) && IsNumeral(t[c + 1..])
  }

  /** `ParseNumeral` (the pattern test followed by `Number`) succeeds exactly
      when the string is in the language of `-?\d+\.?\d*`. */
  lemma {:induction false} ParseNumeralLanguage(s: string)
    ensures ParseNumeral(s).Some? <==> IsNumeral(s)
  {
    var b := NumeralBody(s);
    match IndexOf(b, '.')
    case None =>
    case Some(p) =>
      var whole := b[..p];
      var fraction := b[p + 1..];
      if ParseNumeral(s).Some? {
        assert whole != [] && AllDigits(whole) && AllDigits(fraction);
        forall i | 0 <= i < |b| && i != p
          ensures IsDigit(b[i])
        {
          if i < p {
            assert b[i] == whole[i];
          } else {
            assert b[i] == fraction[i - p - 1];
          }
        }
        assert b[0] == whole[0];
      }
      if IsNumeral(s) {
        assert p > 0;
        assert AllDigits(whole) by {
          forall i | 0 <= i < |whole|
            ensures IsDigit(whole[i])
          {
            assert whole[i] == b[i];
          }
        }
        assert AllDigits(fraction) by {
          forall i | 0 <= i < |fraction|
            ensures IsDigit(fraction[i])
          {
            assert fraction[i] == b[p + 1 + i];
          }
        }
      }
  }

  /** The value `ParseNumeral` gives a numeral with a fractional part: the sign,
      the whole digits, and the fraction digits scaled by their count. */
  lemma {:induction false} DecimalNumeralValue(negative: bool, w: string, f: string)
    requires w != [] && AllDigits(w) && AllDigits(f)
    ensures ParseNumeral((if negative then "-" else "") + w + "." + f)
      == Some(Signed(negative, DigitsValue(w) as real + DigitsValue(f) as real / Pow10(|f|) as real))
  {
    var s := (if negative then "-" else "") + w + "." + f;
    var body := w + "." + f;
    assert (s != [] && s[0] == '-') == negative && NumeralBody(s) == body by {
      if negative {
        assert s == "-" + body;
      } else {
        assert s == body && s[0] == w[0];
      }
    }
    DecimalBodyValue(s, negative, w, f);
    assert DecimalValue(negative, w, f)
      == Signed(negative, DigitsValue(w) as real + DigitsValue(f) as real / Pow10(|f|) as real);
  }

  lemma DecimalBodyValue(s: string, negative: bool, w: string, f: string)
    requires w != [] && AllDigits(w) && AllDigits(f)
    requires (s != [] && s[0] == '-') == negative && NumeralBody(s) == w + "." + f
    ensures ParseNumeral(s) == Some(DecimalValue(negative, w, f))
  {
    SplitAtDot(w, f);
  }

  lemma SplitAtDot(w: string, f: string)
    requires AllDigits(w)
    ensures var body := w + "." + f;
      IndexOf(body, '.') == Some(|w|) && body[..|w|] == w && body[|w| + 1..] == f
  {
    var body := w + "." + f;
    assert forall i :: 0 <= i < |w| ==> w[i] != '.';
    assert body == w + ("." + f);
    IndexOfAfter(w, '.', "." + f);
    assert body[..|w|] == w && body[|w| + 1..] == f;
  }

  /** The value `ParseNumeral` gives a numeral without a dot. */
  lemma {:induction false} WholeNumeralValue(negative: bool, w: string)
    requires w != [] && AllDigits(w)
    ensures ParseNumeral((if negative then "-" else "") + w) == Some(Signed(negative, DigitsValue(w) as real))
  {
    var s := (if negative then "-" else "") + w;
    assert (s != [] && s[0] == '-') == negative && NumeralBody(s) == w by {
      if negative {
        assert s[1..] == w;
      } else {
        assert s[0] == w[0];
      }
    }
    assert forall i :: 0 <= i < |w| ==> w[i] != '.';
    IndexOfNone(w, '.');
  }

  lemma {:induction false} IndexOfNone(s: string, c: char)
    requires forall i :: 0 <= i < |s| ==> s[i] != c
    ensures IndexOf(s, c).None?
  {
    if s != [] {
      IndexOfNone(s[1..], c);
    }
  }

  lemma NumeralHasNoComma(a: string)
    requires IsNumeral(a)
    ensures forall i :: 0 <= i < |a| ==> a[i] != ','
  {
    var b := NumeralBody(a);
    forall i | 0 <= i < |a|
      ensures a[i] != ','
    {
      if b != a && i > 0 {
        assert a[i] == b[i - 1];
      } else if b == a {
        assert a[i] == b[i];
      }
    }
  }

  /** The literal reading succeeds exactly when the location matches the
      coordinate pattern. */
  lemma LiteralCoordinatesMatchPattern(t: string)
    ensures LiteralCoordinates(t).Some? <==> LatLngPattern(t)
  {
    if LiteralCoordinates(t).Some? {
      LiteralMatches(t);
    }
    if LatLngPattern(t) {
      var c :| 0 <= c < |t| && t[c] == ',' && IsNumeral(t[..c]) && IsNumeral(t[c + 1..]);
      PatternIsLiteral(t, c);
    }
  }

  lemma LiteralMatches(t: string)
    requires LiteralCoordinates(t).Some?
    ensures LatLngPattern(t)
  {
    var c := IndexOf(t, ',').value;
    ParseNumeralLanguage(t[..c]);
    ParseNumeralLanguage(t[c + 1..]);
    assert t[c] == ',' && IsNumeral(t[..c]) && IsNumeral(t[c + 1..]);
  }

  lemma PatternIsLiteral(t: string, c: nat)
    requires c < |t| && t[c] == ',' && IsNumeral(t[..c]) && IsNumeral(t[c + 1..])
    ensures LiteralCoordinates(t).Some?
  {
    NumeralHasNoComma(t[..c]);
    assert t == t[..c] + t[c..];
    IndexOfAfter(t[..c], ',', t[c..]);
    ParseNumeralLanguage(t[..c]);
    ParseNumeralLanguage(t[c + 1..]);
  }

  /** What `parseLocationToCoordinates` does with a location string. */
  datatype ParseOutcome = NoLocation | Literal(coordinates: Coordinates) | Geocode(query: string)

  function ClassifyLocation(location: Option<string>): (r: ParseOutcome)
    // nothing to resolve exactly when the location is missing or blank
    ensures r.NoLocation? <==> !Truthy(location) || AllSpace(location.value)
    // literal coordinates are taken only when both are in range
    ensures r.Literal? ==> ValidCoordinates(r.coordinates) && LiteralCoordinates(Trim(location.value)) == Some(r.coordinates)
    // anything else goes to the geocoder, trimmed and non-empty
    ensures r.Geocode? ==>
      && r.query == Trim(location.value) && r.query != []
      && (LiteralCoordinates(r.query).None? || !ValidCoordinates(LiteralCoordinates(r.query).value))
  {
    if !Truthy(location) then NoLocation
    else
      TrimEmptyIffBlank(location.value);
      var t := Trim(location.value);
      if t == [] then NoLocation
      else
        var literal := LiteralCoordinates(t);
        if literal.Some? && ValidCoordinates(literal.value) then Literal(literal.value)
        else Geocode(t)
  }

  /** The coordinates a location resolves to, given the geocoder's answer. */
  function LocationResult(location: Option<string>, response: Response): (r: Option<Coordinates>)
    ensures r.Some? ==> ValidCoordinates(r.value)
    ensures ClassifyLocation(location).NoLocation? ==> r.None?
  {
    match ClassifyLocation(location)
    case NoLocation => None
    case Literal(c) => Some(c)
    case Geocode(_) => ReadResponse(response)
  }

  lemma {:induction false} NatToStringValue(n: nat)
    ensures DigitsValue(NatToString(n)) == n
  {
    if n >= 10 {
      var s := NatToString(n);
      assert s[..|s| - 1] == NatToString(n / 10);
      NatToStringValue(n / 10);
    }
  }

  lemma IntToStringParses(n: int)
    ensures ParseNumeral(IntToString(n)) == Some(n as real)
  {
    var s := IntToString(n);
    var body := if n < 0 then NatToString(-n) else NatToString(n);
    assert (if |s| > 0 && s[0] == '-' then s[1..] else s) == body;
    assert IndexOf(body, '.').None?;
    if n < 0 {
      NatToStringValue(-n);
    } else {
      NatToStringValue(n);
    }
  }

  lemma TrimOfUnspaced(s: string)
    requires s != [] && !IsJsSpace(s[0]) && !IsJsSpace(s[|s| - 1])
    ensures Trim(s) == s
  {
  }

  /** A pair of integers, as "lat,lng", resolves to itself when in range. */
  lemma IntegerPairIsLiteral(lat: int, lng: int)
    requires ValidCoordinates(Coordinates(lat as real, lng as real))
    ensures ClassifyLocation(Some(IntToString(lat) + "," + IntToString(lng)))
      == Literal(Coordinates(lat as real, lng as real))
  {
    IntegerPairTrimmed(lat, lng);
    IntegerPairLiteral(lat, lng);
  }

  /** Out of range, the same string is handed to the geocoder as it is. */
  lemma IntegerPairOutOfRangeIsGeocoded(lat: int, lng: int)
    requires !ValidCoordinates(Coordinates(lat as real, lng as real))
    ensures ClassifyLocation(Some(IntToString(lat) + "," + IntToString(lng)))
      == Geocode(IntToString(lat) + "," + IntToString(lng))
  {
    IntegerPairTrimmed(lat, lng);
    IntegerPairLiteral(lat, lng);
  }

  lemma IntegerPairTrimmed(lat: int, lng: int)
    ensures Trim(IntToString(lat) + "," + IntToString(lng)) == IntToString(lat) + "," + IntToString(lng)
  {
    PairTrimmed(IntToString(lat), IntToString(lng));
  }

  lemma IntegerPairLiteral(lat: int, lng: int)
    ensures LiteralCoordinates(IntToString(lat) + "," + IntToString(lng)) == Some(Coordinates(lat as real, lng as real))
  {
    IntToStringParses(lat);
    IntToStringParses(lng);
    LiteralPair(IntToString(lat), IntToString(lng));
  }

  /** Two numerals around a comma, padded with blanks, are read as literal
      coordinates when in range. */
  lemma PaddedPairIsLiteral(a: string, b: string)
    requires ParseNumeral(a).Some? && ParseNumeral(b).Some?
    requires ValidCoordinates(Coordinates(ParseNumeral(a).value, ParseNumeral(b).value))
    ensures ClassifyLocation(Some(" " + (a + "," + b) + " "))
      == Literal(Coordinates(ParseNumeral(a).value, ParseNumeral(b).value))
  {
    var t := a + "," + b;
    assert !IsJsSpace(t[0]) by { assert t[0] == a[0]; }
    assert !IsJsSpace(t[|t| - 1]) by { assert t[|t| - 1] == b[|b| - 1]; }
    TrimPadded(t);
    LiteralPair(a, b);
  }

  lemma TrimPadded(t: string)
    requires t != [] && !IsJsSpace(t[0]) && !IsJsSpace(t[|t| - 1])
    ensures Trim(" " + t + " ") == t
  {
    assert (" " + t + " ")[1..] == t + " ";
    assert TrimStart(t + " ") == t + " ";
    assert (t + " ")[..|t|] == t;
  }

  /** For instance " 37.8719,-122.2585 ". */
  lemma DecimalPairIsLiteral()
    ensures ClassifyLocation(Some(" " + ("37.8719" + "," + "-122.2585") + " "))
      == Literal(Coordinates(37.8719, -122.2585))
  {
    LatNumeral();
    LngNumeral();
    PaddedPairIsLiteral("37.8719", "-122.2585");
  }

  lemma LatNumeral()
    ensures ParseNumeral("37.8719") == Some(37.8719)
  {
    assert IndexOf("37.8719", '.') == Some(2);
    assert "37.8719"[..2] == "37" && "37.8719"[3..] == "8719";
    assert DigitsValue("37") == 37 by {
      assert "37"[..1] == "3";
    }
    assert DigitsValue("8719") == 8719 by {
      assert "8719"[..3] == "871";
      assert "871"[..2] == "87";
      assert "87"[..1] == "8";
    }
    assert Pow10(4) == 10000;
    assert 37 as real + 8719 as real / 10000 as real == 37.8719;
  }

  lemma LngNumeral()
    ensures ParseNumeral("-122.2585") == Some(-122.2585)
  {
    var body := "122.2585";
    assert "-122.2585"[1..] == body;
    assert IndexOf(body, '.') == Some(3);
    assert body[..3] == "122" && body[4..] == "2585";
    assert DigitsValue("122") == 122 by {
      assert "122"[..2] == "12";
      assert "12"[..1] == "1";
    }
    assert DigitsValue("2585") == 2585 by {
      assert "2585"[..3] == "258";
      assert "258"[..2] == "25";
      assert "25"[..1] == "2";
    }
    assert Pow10(4) == 10000;
    assert -(122 as real + 2585 as real / 10000 as real) == -122.2585;
  }

  lemma LiteralPair(a: string, b: string)
    requires ParseNumeral(a).Some? && ParseNumeral(b).Some?
    ensures LiteralCoordinates(a + "," + b) == Some(Coordinates(ParseNumeral(a).value, ParseNumeral(b).value))
  {
    var s := a + "," + b;
    assert forall i :: 0 <= i < |a| ==> a[i] != ',';
    PairSplits(a, b);
    assert ParseNumeral(s[..|a|]) == ParseNumeral(a);
    assert ParseNumeral(s[|a| + 1..]) == ParseNumeral(b);
  }

  lemma PairTrimmed(a: string, b: string)
    requires a != [] && b != []
    requires forall i :: 0 <= i < |a| ==> a[i] == '-' || IsDigit(a[i])
    requires forall i :: 0 <= i < |b| ==> b[i] == '-' || IsDigit(b[i])
    ensures Trim(a + "," + b) == a + "," + b
  {
    var s := a + "," + b;
    assert s[0] == a[0];
    assert s[|s| - 1] == b[|b| - 1];
    TrimOfUnspaced(s);
  }

  lemma PairSplits(a: string, b: string)
    requires forall i :: 0 <= i < |a| ==> a[i] != ','
    ensures var s := a + "," + b;
      IndexOf(s, ',') == Some(|a|) && s[..|a|] == a && s[|a| + 1..] == b
  {
    var s := a + "," + b;
    assert s == a + ("," + b);
    IndexOfAfter(a, ',', "," + b);
    assert s[..|a|] == a;
    assert s[|a| + 1..] == b;
  }

  // ---------------------------------------------------------------------------
  // Event coordinates with caching

  /** The columns of an `event` row that are read here. */
  datatype EventRow = EventRow(location: Option<string>, locationLat: Option<real>, locationLng: Option<real>)

  function CachedCoordinates(row: EventRow): (r: Option<Coordinates>)
    ensures r.Some? <==> row.locationLat.Some? && row.locationLng.Some?
  {
    if row.locationLat.Some? && row.locationLng.Some? then
      Some(Coordinates(row.locationLat.value, row.locationLng.value))
    else None
  }

  function WithCache(row: EventRow, c: Coordinates): (r: EventRow)
    ensures CachedCoordinates(r) == Some(c) && r.location == row.location
  {
    row.(locationLat := Some(c.lat), locationLng := Some(c.lng))
  }

  /** What `getEventCoordinates(eventId)` answers on the table `rows`: nothing
      for an unknown event, the cached pair when both columns are set, and
      otherwise what the location text resolves to. */
  function EventCoordinates(rows: map<Id, EventRow>, eventId: Id, response: Response): (r: Option<Coordinates>)
    ensures eventId !in rows ==> r.None?
    ensures eventId in rows && CachedCoordinates(rows[eventId]).Some? ==> r == CachedCoordinates(rows[eventId])
    // a freshly resolved pair is always in range
    ensures eventId in rows && CachedCoordinates(rows[eventId]).None? && r.Some? ==> ValidCoordinates(r.value)
  {
    if eventId !in rows then None
    else if CachedCoordinates(rows[eventId]).Some? then CachedCoordinates(rows[eventId])
    else LocationResult(rows[eventId].location, response)
  }

  /** The `event` table after that lookup: a resolved miss is written back
      when the write lands; nothing else changes. */
  function RowsAfterLookup(rows: map<Id, EventRow>, eventId: Id, response: Response, cacheWriteLands: bool)
    : (after: map<Id, EventRow>)
    ensures after.Keys == rows.Keys
    ensures forall id :: id in rows && id != eventId ==> after[id] == rows[id]
    ensures eventId in rows ==> after[eventId].location == rows[eventId].location
  {
    if && eventId in rows && CachedCoordinates(rows[eventId]).None? && cacheWriteLands
       && LocationResult(rows[eventId].location, response).Some?
    then rows[eventId := WithCache(rows[eventId], LocationResult(rows[eventId].location, response).value)]
    else rows
  }

  /** A lookup never changes its own answer, and once a resolved answer is
      written back every later lookup returns it, whatever the geocoder says. */
  lemma LookupThenHit(rows: map<Id, EventRow>, eventId: Id, response: Response, cacheWriteLands: bool, later: Response)
    ensures EventCoordinates(RowsAfterLookup(rows, eventId, response, cacheWriteLands), eventId, response)
      == EventCoordinates(rows, eventId, response)
    ensures cacheWriteLands && EventCoordinates(rows, eventId, response).Some? ==>
      EventCoordinates(RowsAfterLookup(rows, eventId, response, cacheWriteLands), eventId, later)
      == EventCoordinates(rows, eventId, response)
  {
  }

  /** `parseLocationToCoordinates(location)`. */
  method ParseLocationToCoordinates(location: Option<string>, geo: Geocoder, now: int, lateness: nat, response: Response)
    returns (r: Option<Coordinates>)
    requires geo.Valid()
    modifies geo
    ensures geo.Valid()
    ensures r == LocationResult(location, response)
    // only a location that is not literal coordinates costs a geocoder request
    ensures !ClassifyLocation(location).Geocode? ==> unchanged(geo)
    ensures ClassifyLocation(location).Geocode? ==>
      && geo.lastRequestTime >= old(geo.lastRequestTime) + MinRequestInterval
      && geo.requestTimes == old(geo.requestTimes) + [geo.lastRequestTime]
  {
    var outcome := ClassifyLocation(location);
    match outcome
    case NoLocation =>
      r := None;
    case Literal(c) =>
      r := Some(c);
    case Geocode(query) =>
      var delay;
      r, delay := geo.GeocodeAddress(Some(query), now, lateness, response);
  }

  /** The `event` table, as far as location is concerned. */
  class EventTable {
    var rows: map<Id, EventRow>

    constructor (initial: map<Id, EventRow>)
      ensures rows == initial
    {
      rows := initial;
    }

    /** `getEventCoordinates(eventId)`. `cacheWriteLands` says whether the
        caching update (whose outcome the code ignores) succeeds. */
    method GetEventCoordinates(eventId: Id, geo: Geocoder, now: int, lateness: nat, response: Response, cacheWriteLands: bool)
      returns (r: Option<Coordinates>)
      requires geo.Valid()
      modifies this, geo
      ensures geo.Valid()
      // an unknown event has no coordinates
      ensures eventId !in old(rows) ==> r == None && rows == old(rows) && unchanged(geo)
      // a cache hit is returned as stored, with no geocoding and no write
      ensures eventId in old(rows) && CachedCoordinates(old(rows)[eventId]).Some? ==>
        r == CachedCoordinates(old(rows)[eventId]) && rows == old(rows) && unchanged(geo)
      // a miss resolves the location text and writes back only a success
      ensures eventId in old(rows) && CachedCoordinates(old(rows)[eventId]).None? ==>
        && r == LocationResult(old(rows)[eventId].location, response)
        && rows == (if r.Some? && cacheWriteLands then old(rows)[eventId := WithCache(old(rows)[eventId], r.value)]
                    else old(rows))
        && (!ClassifyLocation(old(rows)[eventId].location).Geocode? ==> unchanged(geo))
      // once written, the next lookup is a hit with the same value
      ensures r.Some? && cacheWriteLands ==> eventId in rows && CachedCoordinates(rows[eventId]) == r
      ensures r == EventCoordinates(old(rows), eventId, response)
      ensures rows == RowsAfterLookup(old(rows), eventId, response, cacheWriteLands)
    {
      if eventId !in rows {
        return None;
      }
      var row := rows[eventId];
      var cached := CachedCoordinates(row);
      if cached.Some? {
        return cached;
      }
      if !Truthy(row.location) {
        return None;
      }
      r := ParseLocationToCoordinates(row.location, geo, now, lateness, response);
      if r.Some? && cacheWriteLands {
        rows := rows[eventId := WithCache(row, r.value)];
      }
    }
  }

  // ---------------------------------------------------------------------------
  // Argument validation shared by trackUserLocation and checkUserInRadius

  predicate ValidPoint(latitude: NumArg, longitude: NumArg) {
    && latitude.Number? && latitude.n.Finite? && ValidLat(latitude.n.value)
    && longitude.Number? && longitude.n.Finite? && ValidLng(longitude.n.value)
  }

  function PointOf(latitude: NumArg, longitude: NumArg): (c: Coordinates)
    requires ValidPoint(latitude, longitude)
    ensures ValidCoordinates(c)
  {
    Coordinates(latitude.n.value, longitude.n.value)
  }

  /** The three validation steps, in order; `None` when all pass. */
  function ValidateLocationArgs(userId: Option<string>, eventId: Option<string>, latitude: NumArg, longitude: NumArg)
    : (e: Option<string>)
    ensures e.None? <==>
      Truthy(userId) && Truthy(eventId) && IsUuid(userId.value) && IsUuid(eventId.value) && ValidPoint(latitude, longitude)
    ensures !Truthy(userId) || !Truthy(eventId) || latitude.Undefined? || longitude.Undefined? ==>
      e == Some(ErrAllRequired)
    ensures e.Some? ==> e.value in {ErrAllRequired, ErrInvalidId, ErrInvalidLatLng}
  {
    if !Truthy(userId) || !Truthy(eventId) || latitude.Undefined? || longitude.Undefined? then Some(ErrAllRequired)
    else if !IsUuid(userId.value) || !IsUuid(eventId.value) then Some(ErrInvalidId)
    else if !ValidPoint(latitude, longitude) then Some(ErrInvalidLatLng)
    else None
  }

  /** The radius actually used: a missing, non-numeric, NaN or non-positive
      radius falls back to 150 metres. */
  function EffectiveRadius(radius: NumArg): (m: real)
    ensures m > 0.0
    ensures radius.Number? && radius.n.Finite? && radius.n.value > 0.0 ==> m == radius.n.value
    ensures !(radius.Number? && radius.n.Finite? && radius.n.value > 0.0) ==> m == DefaultRadius
  {
    if radius.Number? && radius.n.Finite? && radius.n.value > 0.0 then radius.n.value else DefaultRadius
  }

  /** The last-known-location update applied to a check-in record. */
  function WithLastLocation(r: CheckInRecord, c: Coordinates, now: int): (s: CheckInRecord)
    ensures s.lastLocationLat == Some(c.lat) && s.lastLocationLng == Some(c.lng) && s.lastLocationAt == Some(now)
    ensures s.(lastLocationLat := r.lastLocationLat, lastLocationLng := r.lastLocationLng, lastLocationAt := r.lastLocationAt) == r
  {
    r.(lastLocationLat := Some(c.lat), lastLocationLng := Some(c.lng), lastLocationAt := Some(now))
  }

  /** `trackUserLocation(userId, eventId, latitude, longitude)`. */
  method TrackUserLocation(store: CheckInStore, userId: Option<string>, eventId: Option<string>,
                           latitude: NumArg, longitude: NumArg, now: int)
    returns (r: Result<CheckInRecord>)
    requires store.Valid()
    modifies store
    ensures store.Valid() && store.nextId == old(store.nextId)
    // invalid arguments are refused with the validator's message, nothing written
    ensures ValidateLocationArgs(userId, eventId, latitude, longitude).Some? ==>
      && r == Err(ValidateLocationArgs(userId, eventId, latitude, longitude).value)
      && store.records == old(store.records)
    ensures ValidateLocationArgs(userId, eventId, latitude, longitude).None? ==>
      var k := FindActive(old(store.records), eventId.value, userId.value);
      && (k.None? ==> r == Err(ErrNotCheckedIn) && store.records == old(store.records))
      // only the active record's last-location columns change
      && (k.Some? ==>
            && store.records == old(store.records)[k.value := WithLastLocation(old(store.records)[k.value], PointOf(latitude, longitude), now)]
            && r == Ok(store.records[k.value]))
  {
    var invalid := ValidateLocationArgs(userId, eventId, latitude, longitude);
    if invalid.Some? {
      return Err(invalid.value);
    }
    var k := FindActive(store.records, eventId.value, userId.value);
    if k.None? {
      return Err(ErrNotCheckedIn);
    }
    var updated := WithLastLocation(store.records[k.value], PointOf(latitude, longitude), now);
    store.records := store.records[k.value := updated];
    r := Ok(updated);
  }

  datatype RadiusReport = RadiusReport(inRadius: bool, distance: real)

  /** `checkUserInRadius(eventId, userId, latitude, longitude, radius)`. */
  method CheckUserInRadius(events: EventTable, geo: Geocoder, dist: (Coordinates, Coordinates) -> real,
                           eventId: Option<string>, userId: Option<string>,
                           latitude: NumArg, longitude: NumArg, radius: NumArg,
                           now: int, lateness: nat, response: Response, cacheWriteLands: bool)
    returns (r: Result<RadiusReport>)
    requires geo.Valid()
    modifies events, geo
    ensures geo.Valid()
    ensures ValidateLocationArgs(userId, eventId, latitude, longitude).Some? ==>
      && r == Err(ValidateLocationArgs(userId, eventId, latitude, longitude).value)
      && events.rows == old(events.rows) && unchanged(geo)
    // with no resolvable event location there is no answer
    ensures r.Err? && ValidateLocationArgs(userId, eventId, latitude, longitude).None? ==>
      r == Err(ErrEventLocationRequired)
    // the answer: inside exactly when the distance to the event is within the radius
    ensures r.Ok? ==>
      && ValidateLocationArgs(userId, eventId, latitude, longitude).None?
      && (r.value.inRadius <==> r.value.distance <= EffectiveRadius(radius))
    // with cached event coordinates the distance is measured to them
    ensures (&& ValidateLocationArgs(userId, eventId, latitude, longitude).None?
             && eventId.value in old(events.rows)
             && CachedCoordinates(old(events.rows)[eventId.value]).Some?) ==>
      && r.Ok?
      && r.value.distance == dist(PointOf(latitude, longitude), CachedCoordinates(old(events.rows)[eventId.value]).value)
      && events.rows == old(events.rows) && unchanged(geo)
    // in general: no answer exactly when the event has no coordinates, else
    // the distance to them, with a resolved miss written back
    ensures ValidateLocationArgs(userId, eventId, latitude, longitude).None? ==>
      var c := EventCoordinates(old(events.rows), eventId.value, response);
      && (r.Err? <==> c.None?)
      && (r.Ok? ==> r.value.distance == dist(PointOf(latitude, longitude), c.value))
      && events.rows == RowsAfterLookup(old(events.rows), eventId.value, response, cacheWriteLands)
  {
    var invalid := ValidateLocationArgs(userId, eventId, latitude, longitude);
    if invalid.Some? {
      return Err(invalid.value);
    }
    var limit := EffectiveRadius(radius);
    var eventCoords := events.GetEventCoordinates(eventId.value, geo, now, lateness, response, cacheWriteLands);
    if eventCoords.None? {
      return Err(ErrEventLocationRequired);
    }
    var distance := dist(PointOf(latitude, longitude), eventCoords.value);
    r := Ok(RadiusReport(distance <= limit, distance));
  }

  predicate HasLastLocation(r: CheckInRecord) {
    r.lastLocationLat.Some? && r.lastLocationLng.Some?
  }

  function LastLocation(r: CheckInRecord): Coordinates
    requires HasLastLocation(r)
  {
    Coordinates(r.lastLocationLat.value, r.lastLocationLng.value)
  }

  /** `autoCheckOut(userId, eventId)`: re-checks the last tracked position
      (with the default radius) and checks the guest out unless they are back
      inside or the check fails. */
  method AutoCheckOut(store: CheckInStore, events: EventTable, geo: Geocoder, dist: (Coordinates, Coordinates) -> real,
                      userId: Id, eventId: Id, now: int, lateness: nat, response: Response, cacheWriteLands: bool)
    returns (r: Result<CheckInRecord>)
    requires store.Valid() && geo.Valid()
    modifies store, events, geo
    ensures store.Valid() && geo.Valid()
    ensures FindActive(old(store.records), eventId, userId).None? ==>
      r == Err(ErrNotCheckedIn) && store.records == old(store.records)
    // a failed or refused auto check-out writes nothing to the check-in table
    ensures r.Err? ==> store.records == old(store.records)
    // a successful one closes exactly the active record
    ensures r.Ok? ==>
      && FindActive(old(store.records), eventId, userId).Some?
      && var k := FindActive(old(store.records), eventId, userId).value;
         store.records == old(store.records)[k := CheckedOut(old(store.records)[k], now)]
    ensures r.Ok? ==> !store.IsUserCheckedIn(eventId, userId)
    // without a tracked position the guest is checked out unconditionally
    ensures (&& FindActive(old(store.records), eventId, userId).Some?
             && !HasLastLocation(old(store.records)[FindActive(old(store.records), eventId, userId).value])) ==>
      r.Ok?
    // with a valid tracked position and cached event coordinates: checked out
    // exactly when the position is more than 150 metres away
    ensures
      var k := FindActive(old(store.records), eventId, userId);
      && k.Some? && HasLastLocation(old(store.records)[k.value])
      && ValidCoordinates(LastLocation(old(store.records)[k.value]))
      && IsUuid(userId) && IsUuid(eventId)
      && eventId in old(events.rows) && CachedCoordinates(old(events.rows)[eventId]).Some?
      ==>
      (r.Ok? <==> dist(LastLocation(old(store.records)[k.value]), CachedCoordinates(old(events.rows)[eventId]).value) > DefaultRadius)
    // without a tracked position the venue is not looked up
    ensures
      var k := FindActive(old(store.records), eventId, userId);
      k.Some? && !HasLastLocation(old(store.records)[k.value]) ==> events.rows == old(events.rows) && unchanged(geo)
    // with one, the outcome follows the radius check of that position
    ensures
      var k := FindActive(old(store.records), eventId, userId);
      k.Some? && HasLastLocation(old(store.records)[k.value]) ==>
        var last := LastLocation(old(store.records)[k.value]);
        var invalid := ValidateLocationArgs(Some(userId), Some(eventId), Number(Finite(last.lat)), Number(Finite(last.lng)));
        var c := EventCoordinates(old(events.rows), eventId, response);
        && (invalid.Some? ==> r == Err(invalid.value) && events.rows == old(events.rows))
        && (invalid.None? ==> events.rows == RowsAfterLookup(old(events.rows), eventId, response, cacheWriteLands))
        && (invalid.None? && c.None? ==> r == Err(ErrEventLocationRequired))
        // back inside the default radius: refused, and nobody is checked out
        && (invalid.None? && c.Some? && dist(last, c.value) <= DefaultRadius ==> r == Err(ErrBackInRadius))
        && (invalid.None? && c.Some? && dist(last, c.value) > DefaultRadius ==> r.Ok?)
  {
    var k := FindActive(store.records, eventId, userId);
    if k.None? {
      return Err(ErrNotCheckedIn);
    }
    var rec := store.records[k.value];
    if HasLastLocation(rec) {
      var check := CheckUserInRadius(events, geo, dist, Some(eventId), Some(userId),
                                     Number(Finite(rec.lastLocationLat.value)), Number(Finite(rec.lastLocationLng.value)),
                                     Undefined, now, lateness, response, cacheWriteLands);
      if check.Err? {
        return Err(check.message);
      }
      if check.value.inRadius {
        return Err(ErrBackInRadius);
      }
    }
    r := store.CheckOutUser(eventId, userId, None, now);
  }
}
