/**
 * Values shared by the tracking and meeting stores: optional fields,
 * handler outcomes, location samples, and JavaScript truthiness of the
 * request fields the handlers test with `!x` and `x || default`.
 */
module Common {

  /** A field that a request body or a record may or may not carry. */
  datatype Option<+T> = None | Some(value: T) {
    function GetOr(default: T): T {
      if Some? then value else default
    }
  }

  /**
   * What a handler answers: the record it produced or found (2xx),
   * an unknown id (404), or a request it refuses (400, with its message).
   */
  datatype Result<+T> = Ok(value: T) | NotFound | Invalid(message: string)

  /** The status an update sets to close a session or a meeting. */
  const CompletedStatus := "completed"

  /** A timestamp, in milliseconds. */
  type Millis = int

  /**
   * One GPS sample. `timestamp` is optional on samples a client sends;
   * `accuracy` is carried along untouched.
   */
  datatype Location = Location(
    lat: real,
    lng: real,
    address: string,
    timestamp: Option<Millis>,
    accuracy: Option<real>)

  /** The client-supplied lead descriptor, passed through as it is. */
  type LeadInfo = map<string, string>

  /** `x` is truthy: a string field that is present and not empty. */
  predicate Truthy(s: Option<string>) {
    s.Some? && s.value != ""
  }

  /** `x || undefined`: a falsy string field is dropped. */
  function OrAbsent(s: Option<string>): (r: Option<string>)
    ensures r.Some? <==> Truthy(s)
    ensures r.Some? ==> r == s
  {
    if Truthy(s) then s else None
  }

  /** `x || ""`: a falsy string field becomes the empty string. */
  function OrEmpty(s: Option<string>): (r: string)
    ensures r == "" || (s.Some? && r == s.value)
    ensures Truthy(s) <==> r != ""
  {
    if Truthy(s) then s.value else ""
  }

  /** `{...loc, timestamp: now}`: the sample re-stamped at `now`. */
  function StampedAt(loc: Location, now: Millis): (r: Location)
    ensures r.timestamp == Some(now)
    ensures r.(timestamp := loc.timestamp) == loc
  {
    loc.(timestamp := Some(now))
  }
}
