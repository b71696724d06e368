/**
 * `parse_duration`: "<integer><unit>" with the unit one of h, m, s, d or
 * w. Durations are whole seconds here.
 */
module Duration {
  import opened Wrappers
  import opened Numbers

  datatype DurationError = InvalidFormat | ParseError

  /** Seconds per unit, for the five units the parser knows. */
  function UnitSeconds(u: char): (r: Option<int>)
    ensures r.Some? <==> u in "hmsdw"
  {
    match u
    case 'h' => Some(3600)
    case 'm' => Some(60)
    case 's' => Some(1)
    case 'd' => Some(86400)
    case 'w' => Some(604800)
    case _ => None
  }

  /**
   * The largest magnitude, in seconds, of a chrono `Duration` built from
   * whole seconds: chrono keeps at most `i64::MAX` milliseconds, and
   * `Duration::hours`, `minutes`, `seconds`, `days` and `weeks` panic
   * ("out of bounds") beyond it, as they do when the multiplication
   * overflows.
   */
  const MaxDurationSeconds: int := I64Max / 1000

  /** The number and the unit, when both are read, give a duration chrono can hold. */
  predicate InChronoRange(s: string)
    requires |s| > 0
  {
    var num := ParseSigned(s[..|s| - 1]);
    var unit := UnitSeconds(s[|s| - 1]);
    num.Some? && unit.Some? ==> -MaxDurationSeconds <= num.value * unit.value <= MaxDurationSeconds
  }

  /**
   * The input is cut before its last character, which must be a single
   * byte (`split_at` panics otherwise), and the scaled duration must be
   * one chrono can hold (its constructors panic otherwise).
   */
  function ParseDuration(s: string): (r: Result<int, DurationError>)
    requires |s| > 0 && s[|s| - 1] as int < 128
    requires InChronoRange(s)
    ensures r.Ok? <==> ParseSigned(s[..|s| - 1]).Some? && UnitSeconds(s[|s| - 1]).Some?
    ensures r.Ok? ==> r.value == ParseSigned(s[..|s| - 1]).value * UnitSeconds(s[|s| - 1]).value
    ensures r == Err(ParseError) <==> ParseSigned(s[..|s| - 1]).None?
    ensures r == Err(InvalidFormat) <==> ParseSigned(s[..|s| - 1]).Some? && UnitSeconds(s[|s| - 1]).None?
  {
    var num := ParseSigned(s[..|s| - 1]);
    if num.None? then Err(ParseError)
    else
      match UnitSeconds(s[|s| - 1])
      case None => Err(InvalidFormat)
      case Some(k) => Ok(num.value * k)
  }

  /** Writing a number and a unit and parsing the text gives the number scaled by the unit, within chrono's range. */
  lemma ParseDurationRoundTrip(n: int, u: char)
    requires I64Min <= n <= I64Max && u in "hmsdw"
    requires -MaxDurationSeconds <= n * UnitSeconds(u).value <= MaxDurationSeconds
    ensures InChronoRange(IntToString(n) + [u])
    ensures ParseDuration(IntToString(n) + [u]) == Ok(n * UnitSeconds(u).value)
  {
    var s := IntToString(n) + [u];
    assert s[..|s| - 1] == IntToString(n);
    ParseSignedRoundTrip(n);
  }

  /** A number that parses but scales past chrono's range is a panic, not a result: 3000000000000 hours is one. */
  lemma OutOfChronoRange(n: int, u: char)
    requires I64Min <= n <= I64Max && u in "hmsdw"
    requires n * UnitSeconds(u).value > MaxDurationSeconds
    ensures !InChronoRange(IntToString(n) + [u])
  {
    var s := IntToString(n) + [u];
    assert s[..|s| - 1] == IntToString(n);
    ParseSignedRoundTrip(n);
  }

  /** The example: 3000000000000 hours is about 1.08e16 seconds, over the 9.22e15 chrono holds. */
  lemma HoursOutOfChronoRange()
    ensures !InChronoRange(IntToString(3000000000000) + "h")
  {
    OutOfChronoRange(3000000000000, 'h');
  }

  /** A valid number with an unknown unit is a format error, not a parse error. */
  lemma UnknownUnit(n: int)
    requires I64Min <= n <= I64Max
    ensures InChronoRange(IntToString(n) + "x")
    ensures ParseDuration(IntToString(n) + "x") == Err(InvalidFormat)
  {
    var s := IntToString(n) + "x";
    assert s[..|s| - 1] == IntToString(n);
    ParseSignedRoundTrip(n);
  }

  /** A lone unit has no number before it. */
  lemma BareUnit(u: char)
    requires u as int < 128
    ensures InChronoRange([u])
    ensures ParseDuration([u]) == Err(ParseError)
  {
    assert [u][..0] == "";
  }
}
