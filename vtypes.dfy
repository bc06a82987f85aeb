/** The metadata the decoded values carry (org.epics.vtype Alarm, Time,
    Display and the Range and Instant they are built from). */
module VTypes {
  import opened Wrappers
  import opened PvaData
  import opened PrintfFormats

  /** AlarmSeverity, in the order of its `values()`. */
  datatype AlarmSeverity = NONE | MINOR | MAJOR | INVALID | UNDEFINED

  /** AlarmStatus, in the order of its `values()`. */
  datatype AlarmStatus = NONE | DEVICE | DRIVER | RECORD | DB | CONF | UNDEFINED | CLIENT

  const Severities: seq<AlarmSeverity> :=
    [AlarmSeverity.NONE, MINOR, MAJOR, INVALID, AlarmSeverity.UNDEFINED]

  const Statuses: seq<AlarmStatus> :=
    [AlarmStatus.NONE, DEVICE, DRIVER, RECORD, DB, CONF, AlarmStatus.UNDEFINED, CLIENT]

  /** `ordinal()`: the position of a severity in `values()`. */
  function SeverityOrdinal(s: AlarmSeverity): (k: nat)
    ensures k < |Severities| && Severities[k] == s
  {
    match s
    case NONE => 0
    case MINOR => 1
    case MAJOR => 2
    case INVALID => 3
    case UNDEFINED => 4
  }

  function StatusOrdinal(s: AlarmStatus): (k: nat)
    ensures k < |Statuses| && Statuses[k] == s
  {
    match s
    case NONE => 0
    case DEVICE => 1
    case DRIVER => 2
    case RECORD => 3
    case DB => 4
    case CONF => 5
    case UNDEFINED => 6
    case CLIENT => 7
  }

  /** `AlarmSeverity.values()[code]`, None where Java throws
      ArrayIndexOutOfBoundsException. */
  function SeverityOf(code: int): (r: Option<AlarmSeverity>)
    ensures r.Some? <==> 0 <= code < |Severities|
    ensures r.Some? ==> SeverityOrdinal(r.value) == code
  {
    if 0 <= code < |Severities| then Some(Severities[code]) else None
  }

  function StatusOf(code: int): (r: Option<AlarmStatus>)
    ensures r.Some? <==> 0 <= code < |Statuses|
    ensures r.Some? ==> StatusOrdinal(r.value) == code
  {
    if 0 <= code < |Statuses| then Some(Statuses[code]) else None
  }

  /** `AlarmStatus.name()`. */
  function StatusName(s: AlarmStatus): string {
    match s
    case NONE => "NONE"
    case DEVICE => "DEVICE"
    case DRIVER => "DRIVER"
    case RECORD => "RECORD"
    case DB => "DB"
    case CONF => "CONF"
    case UNDEFINED => "UNDEFINED"
    case CLIENT => "CLIENT"
  }

  datatype Alarm = Alarm(severity: AlarmSeverity, status: AlarmStatus, message: string)

  /** A java.time.Instant: seconds since the epoch and 0 <= nanos < 10^9. */
  datatype Instant = Instant(seconds: int, nanos: int)

  const NanosPerSecond: int := 1_000_000_000
  const MinSecond: int := -31557014167219200
  const MaxSecond: int := 31556889864403199

  /** `Instant.ofEpochSecond(seconds, nanoAdjustment)`: carries whole seconds
      out of the nanosecond adjustment (floorDiv/floorMod, which agree with
      Dafny's `/` and `%` for a positive divisor); None where Java throws
      because the instant is outside Instant's range. */
  function OfEpochSecond(seconds: int, nanoAdjustment: int): (r: Option<Instant>)
    ensures r.Some? <==>
      MinSecond * NanosPerSecond <= seconds * NanosPerSecond + nanoAdjustment < (MaxSecond + 1) * NanosPerSecond
    ensures r.Some? ==> 0 <= r.value.nanos < NanosPerSecond
    ensures r.Some? ==> r.value.seconds * NanosPerSecond + r.value.nanos == seconds * NanosPerSecond + nanoAdjustment
  {
    var secs := seconds + nanoAdjustment / NanosPerSecond;
    var nos := nanoAdjustment % NanosPerSecond;
    assert secs * NanosPerSecond + nos == seconds * NanosPerSecond + nanoAdjustment;
    if MinSecond <= secs <= MaxSecond then Some(Instant(secs, nos)) else None
  }

  /** `Time.of(timestamp, userTag, valid)`. */
  datatype Time = Time(timestamp: Instant, userTag: int, valid: bool)

  /** A Range; None for a NaN bound. */
  datatype Range = Range(low: Option<Number>, high: Option<Number>)

  const UndefinedRange: Range := Range(None, None)

  /** `Display.of(display, alarm, warning, control, units, format)`. */
  datatype Display = Display(display: Range, alarm: Range, warning: Range, control: Range,
                             units: string, format: Formatter)

  /** `Display.none()`: empty units, the default format, every range undefined. */
  const NoDisplay: Display :=
    Display(UndefinedRange, UndefinedRange, UndefinedRange, UndefinedRange, "", Default)

  /** `VDouble.of(value, alarm, time, display)`. */
  datatype VDouble = VDouble(value: Number, alarm: Alarm, time: Time, display: Display)
}
