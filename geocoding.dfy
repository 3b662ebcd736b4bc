/** The Nominatim geocoder: a free-text address becomes coordinates, with
    at most one outbound request per second across the whole process.
    The HTTP exchange is an input (a `Response`); the clock is the `now`
    argument together with the lateness of the timer that ends the wait. */
module Geocoding {
  import opened Base

  /** Minimum gap between two outbound requests, in milliseconds. */
  const MinRequestInterval: int := 1000

  /** The first search result as the code reads it: `lat`/`lon` are `None`
      when missing or empty (falsy), else the value `parseFloat` gives. */
  datatype Place = Place(lat: Option<Num>, lon: Option<Num>)

  /** The decoded JSON body. */
  datatype Body = NotAnArray | Places(items: seq<Place>)

  /** What the request produced: a thrown error (network failure, invalid
      JSON), a non-2xx status, or a 2xx response with its body. */
  datatype Response = Threw | NotOk(status: int) | OkResponse(body: Body)

  /** How long the call sleeps before sending, given the time of the last
      request and the current time. */
  function ThrottleDelay(lastRequestTime: int, now: int): (d: int)
    ensures d >= 0
    // after the delay the gap to the previous request is at least the minimum
    ensures now + d >= lastRequestTime + MinRequestInterval
    // a delay is taken only when needed, and is exactly the remaining gap
    ensures now - lastRequestTime >= MinRequestInterval ==> d == 0
    ensures d > 0 ==> now + d == lastRequestTime + MinRequestInterval
  {
    var elapsed := now - lastRequestTime;
    if elapsed < MinRequestInterval then MinRequestInterval - elapsed else 0
  }

  /** The coordinates of a usable first result. */
  predicate UsableFirst(items: seq<Place>) {
    && |items| > 0
    && items[0].lat.Some? && items[0].lat.value.Finite? && ValidLat(items[0].lat.value.value)
    && items[0].lon.Some? && items[0].lon.value.Finite? && ValidLng(items[0].lon.value.value)
  }

  /** Result validation: only a 2xx array response whose first result has
      two finite in-range coordinates yields a value, `{ lat, lng: lon }`. */
  function ReadResponse(response: Response): (r: Option<Coordinates>)
    ensures r.Some? <==> response.OkResponse? && response.body.Places? && UsableFirst(response.body.items)
    ensures r.Some? ==>
      && ValidCoordinates(r.value)
      && r.value == Coordinates(response.body.items[0].lat.value.value, response.body.items[0].lon.value.value)
  {
    match response
    case Threw => None
    case NotOk(_) => None
    case OkResponse(body) =>
      match body
      case NotAnArray => None
      case Places(items) =>
        if |items| == 0 then None
        else
          var first := items[0];
          if first.lat.None? || first.lon.None? then None
          else if first.lat.value.NaN? || first.lon.value.NaN? then None
          else
            var lat := first.lat.value.value;
            var lon := first.lon.value.value;
            if lat < -90.0 || lat > 90.0 || lon < -180.0 || lon > 180.0 then None
            else Some(Coordinates(lat, lon))
  }

  /** Consecutive entries are at least the minimum interval apart. */
  ghost predicate Spaced(times: seq<int>) {
    forall i :: 0 < i < |times| ==> times[i - 1] + MinRequestInterval <= times[i]
  }

  /** Any two requests of a spaced history are separated by the minimum
      interval once for every request between them. */
  lemma {:induction false} SpacedApart(times: seq<int>, i: nat, j: nat)
    requires Spaced(times)
    requires i <= j < |times|
    ensures times[i] + (j - i) * MinRequestInterval <= times[j]
    decreases j - i
  {
    if i < j {
      SpacedApart(times, i, j - 1);
      assert times[j - 1] + MinRequestInterval <= times[j];
    }
  }

  class Geocoder {
    /** `lastRequestTime`, module-level state in the source. */
    var lastRequestTime: int
    /** The send times of every outbound request so far. */
    ghost var requestTimes: seq<int>

    ghost predicate Valid()
      reads this
    {
      && Spaced(requestTimes)
      && (requestTimes != [] ==> requestTimes[|requestTimes| - 1] == lastRequestTime)
    }

    constructor ()
      ensures Valid() && lastRequestTime == 0 && requestTimes == []
    {
      lastRequestTime := 0;
      requestTimes := [];
    }

    /** `geocodeAddress(address)`. `now` is the time on entry; `lateness`
        is how much later than asked the wait ends (plus the time until
        `Date.now()` is read again). Returns the coordinates and the delay
        the call asked for. */
    method GeocodeAddress(address: Option<string>, now: int, lateness: nat, response: Response)
      returns (r: Option<Coordinates>, delay: int)
      requires Valid()
      modifies this
      ensures Valid()
      // a missing or blank address: null, before the clock or the network is touched
      ensures !Truthy(address) || Trim(address.value) == [] ==>
        r == None && delay == 0 && unchanged(this)
      // otherwise: throttle, record the send time, then validate the result
      ensures Truthy(address) && Trim(address.value) != [] ==>
        && delay == ThrottleDelay(old(lastRequestTime), now)
        && lastRequestTime == now + delay + lateness
        && lastRequestTime >= old(lastRequestTime) + MinRequestInterval
        && requestTimes == old(requestTimes) + [lastRequestTime]
        && r == ReadResponse(response)
    {
      if !Truthy(address) || Trim(address.value) == [] {
        return None, 0;
      }
      delay := ThrottleDelay(lastRequestTime, now);
      lastRequestTime := now + delay + lateness;
      requestTimes := requestTimes + [lastRequestTime];
      r := ReadResponse(response);
    }
  }
}
