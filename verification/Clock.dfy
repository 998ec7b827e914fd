/**
 Instants and durations. An instant is a number of nanoseconds since the Unix epoch, unbounded as far as the model
 is concerned; a duration is a signed 64-bit number of nanoseconds, with the wrap-around and the saturation of the
 operator's language written out. A time written as text keeps whole seconds only.
 */
module Clock {
  import opened Common

  const SECOND := 1_000_000_000
  const HOUR := 3600 * SECOND
  const DAY := 24 * HOUR
  const DAY_IN_SECONDS := 86400

  const MIN64 := -0x8000_0000_0000_0000
  const MAX64 := 0x7fff_ffff_ffff_ffff
  const TWO64 := 0x1_0000_0000_0000_0000

  predicate Int64(x: int) {
    MIN64 <= x <= MAX64
  }

  /** The 64-bit value an integer operation leaves behind when its exact result is `x`. */
  function Wrap(x: int): (r: int)
    ensures Int64(r)
    ensures exists q :: r == x + q * TWO64
    ensures Int64(x) ==> r == x
  {
    var m := x % TWO64;
    assert x == (x / TWO64) * TWO64 + m;
    var r := if m <= MAX64 then m else m - TWO64;
    assert r == x + (if m <= MAX64 then -(x / TWO64) else -(x / TWO64) - 1) * TWO64;
    r
  }

  /** Difference of two instants, saturating at the ends of the 64-bit range. */
  function Sub(t: int, u: int): int {
    if t - u > MAX64 then MAX64 else if t - u < MIN64 then MIN64 else t - u
  }

  /** Absolute value of a duration; the least duration has no opposite and maps to the greatest one. */
  function Abs(d: int): int {
    if d >= 0 then d else if d == MIN64 then MAX64 else -d
  }

  function Magnitude(x: int): nat {
    if x < 0 then -x else x
  }

  /** A timestamp as stored: either unreadable text or a whole second. */
  datatype TimeText = Unreadable | Second(second: int)

  function Format(t: int): TimeText {
    Second(t / SECOND)
  }

  function Parse(text: TimeText): Option<int> {
    match text
    case Unreadable => None
    case Second(s) => Some(s * SECOND)
  }

  /** Formatting then parsing loses less than one second and never moves an instant forward. */
  lemma FormatParse(t: int)
    ensures Parse(Format(t)).Some?
    ensures t - SECOND < Parse(Format(t)).value <= t
  {
    assert t == (t / SECOND) * SECOND + t % SECOND;
  }

  /** Hour of the day, in UTC. */
  function HourOf(t: int): int {
    t / HOUR % 24
  }
}
