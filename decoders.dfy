/** `Decoders`: the alarm, time and display metadata read from the optional
    `alarm`, `timeStamp`, `display`, `control` and `valueAlarm` sections of a
    structure, and `decodeDouble`, the one payload decoder whose body the
    model has. */
module Decoders {
  import opened Wrappers
  import opened PvaData
  import opened PrintfFormats
  import opened VTypes

  // ---------------------------------------------------------------- alarm

  /** A severity or status code that decodes: absent, or a valid ordinal. */
  predicate CodeDecodes(code: Lookup<int>, count: nat) {
    code.Absent? || (code.Found? && 0 <= code.value < count)
  }

  function SeverityField(alarm: Structure): Result<AlarmSeverity, DecodeError> {
    match GetInt(alarm, "severity")
    case Absent => Ok(AlarmSeverity.UNDEFINED)
    case WrongType => Err(ClassCast("severity"))
    case Found(code) =>
      match SeverityOf(code)
      case Some(sev) => Ok(sev)
      case None => Err(NoSuchOrdinal(code))
  }

  function StatusField(alarm: Structure): Result<AlarmStatus, DecodeError> {
    match GetInt(alarm, "status")
    case Absent => Ok(AlarmStatus.UNDEFINED)
    case WrongType => Err(ClassCast("status"))
    case Found(code) =>
      match StatusOf(code)
      case Some(st) => Ok(st)
      case None => Err(NoSuchOrdinal(code))
  }

  function MessageField(alarm: Structure): Result<string, DecodeError> {
    match GetString(alarm, "message")
    case Absent => Ok("<null>")
    case WrongType => Err(ClassCast("message"))
    case Found(msg) => Ok(msg)
  }

  /** `decodeAlarm`. Without an `alarm` section: NONE / NONE / "NONE". With
      one: a missing code is UNDEFINED, a present one is mapped by ordinal
      (and the decode fails when it is out of range), a missing message is
      "<null>". */
  function DecodeAlarm(s: Structure): (r: Result<Alarm, DecodeError>)
    ensures GetStructure(s, "alarm").Absent? ==>
      r == Ok(Alarm(AlarmSeverity.NONE, AlarmStatus.NONE, "NONE"))
    ensures GetStructure(s, "alarm").WrongType? ==> r == Err(ClassCast("alarm"))
    ensures GetStructure(s, "alarm").Found? ==>
      var a := GetStructure(s, "alarm").value;
      && (r.Ok? <==> CodeDecodes(GetInt(a, "severity"), |Severities|)
                     && CodeDecodes(GetInt(a, "status"), |Statuses|)
                     && !GetString(a, "message").WrongType?)
      && (r.Ok? ==>
           && (GetInt(a, "severity").Absent? ==> r.value.severity == AlarmSeverity.UNDEFINED)
           && (GetInt(a, "severity").Found? ==> SeverityOrdinal(r.value.severity) == GetInt(a, "severity").value)
           && (GetInt(a, "status").Absent? ==> r.value.status == AlarmStatus.UNDEFINED)
           && (GetInt(a, "status").Found? ==> StatusOrdinal(r.value.status) == GetInt(a, "status").value)
           && r.value.message == (if GetString(a, "message").Found? then GetString(a, "message").value else "<null>"))
  {
    match GetStructure(s, "alarm")
    case WrongType => Err(ClassCast("alarm"))
    case Absent => Ok(Alarm(AlarmSeverity.NONE, AlarmStatus.NONE, StatusName(AlarmStatus.NONE)))
    case Found(alarm) =>
      match SeverityField(alarm)
      case Err(e) => Err(e)
      case Ok(severity) =>
        match StatusField(alarm)
        case Err(e) => Err(e)
        case Ok(status) =>
          match MessageField(alarm)
          case Err(e) => Err(e)
          case Ok(message) => Ok(Alarm(severity, status, message))
  }

  /** Every in-range pair of codes decodes to the severity and status at
      those positions, with the message unchanged. */
  lemma AlarmOrdinals(s: Structure, alarm: Structure, sev: nat, st: nat, msg: string)
    requires GetStructure(s, "alarm") == Found(alarm)
    requires sev < |Severities| && st < |Statuses|
    requires GetInt(alarm, "severity") == Found(sev)
    requires GetInt(alarm, "status") == Found(st)
    requires GetString(alarm, "message") == Found(msg)
    ensures DecodeAlarm(s) == Ok(Alarm(Severities[sev], Statuses[st], msg))
  {
  }

  // ---------------------------------------------------------------- time

  const NoTime: Instant := Instant(0, 0)

  /** The instant read from a present `timeStamp` section: epoch 0 unless
      both `secondsPastEpoch` and `nanoseconds` are there. */
  function TimestampField(time: Structure): Result<Instant, DecodeError> {
    var sec := GetLong(time, "secondsPastEpoch");
    var nano := GetInt(time, "nanoseconds");
    if sec.WrongType? then Err(ClassCast("secondsPastEpoch"))
    else if nano.WrongType? then Err(ClassCast("nanoseconds"))
    else if sec.Absent? || nano.Absent? then Ok(NoTime)
    else
      match OfEpochSecond(sec.value, nano.value)
      case Some(instant) => Ok(instant)
      case None => Err(InstantOutOfRange(sec.value))
  }

  /** `decodeTime`. A present seconds/nanoseconds pair decodes exactly when
      `Instant.ofEpochSecond` accepts it, to that instant. Validity is the
      heuristic "seconds after the epoch > 0". */
  function DecodeTime(s: Structure): (r: Result<Time, DecodeError>)
    ensures r.Ok? ==> (r.value.valid <==> r.value.timestamp.seconds > 0)
    ensures GetStructure(s, "timeStamp").Absent? ==> r == Ok(Time(Instant(0, 0), 0, false))
    ensures GetStructure(s, "timeStamp").WrongType? ==> r == Err(ClassCast("timeStamp"))
    ensures GetStructure(s, "timeStamp").Found? ==>
      var t := GetStructure(s, "timeStamp").value;
      var sec := GetLong(t, "secondsPastEpoch");
      var nano := GetInt(t, "nanoseconds");
      var user := GetInt(t, "userTag");
      && ((sec.WrongType? || nano.WrongType?) ==> r.Err? && r.error.ClassCast?)
      && (user.WrongType? ==> r.Err?)
      && (r.Ok? ==> r.value.userTag == if user.Found? then user.value else 0)
      && ((sec.Absent? || nano.Absent?) && !sec.WrongType? && !nano.WrongType? && !user.WrongType? ==>
            r.Ok? && r.value.timestamp == Instant(0, 0) && !r.value.valid)
      && (sec.Found? && nano.Found? && !user.WrongType? ==>
            && (r.Ok? <==> OfEpochSecond(sec.value, nano.value).Some?)
            && (r.Ok? ==> r.value.timestamp == OfEpochSecond(sec.value, nano.value).value)
            && (r.Err? ==> r.error == InstantOutOfRange(sec.value)))
      && (sec.Found? && nano.Found? && r.Ok? ==>
            && 0 <= r.value.timestamp.nanos < NanosPerSecond
            && r.value.timestamp.seconds * NanosPerSecond + r.value.timestamp.nanos
               == sec.value * NanosPerSecond + nano.value)
  {
    match GetStructure(s, "timeStamp")
    case WrongType => Err(ClassCast("timeStamp"))
    case Absent => Ok(Time(NoTime, 0, NoTime.seconds > 0))
    case Found(time) =>
      match TimestampField(time)
      case Err(e) => Err(e)
      case Ok(timestamp) =>
        match GetInt(time, "userTag")
        case WrongType => Err(ClassCast("userTag"))
        case Absent => Ok(Time(timestamp, 0, timestamp.seconds > 0))
        case Found(tag) => Ok(Time(timestamp, tag, timestamp.seconds > 0))
  }

  /** Read on the raw fields, "valid" means that the seconds and the
      nanosecond adjustment add up to at least one second after the epoch:
      a negative adjustment can make 1 s invalid, a large one can make 0 s
      valid. */
  lemma TimeValidity(s: Structure, t: Structure, sec: int, nano: int)
    requires GetStructure(s, "timeStamp") == Found(t)
    requires GetLong(t, "secondsPastEpoch") == Found(sec)
    requires GetInt(t, "nanoseconds") == Found(nano)
    requires DecodeTime(s).Ok?
    ensures DecodeTime(s).value.valid <==> sec * NanosPerSecond + nano >= NanosPerSecond
  {
  }

  /** A well-formed time stamp of a second after the epoch or later is kept
      exactly and is valid. */
  lemma TimeExact(s: Structure, t: Structure, sec: int, nano: int, tag: int)
    requires GetStructure(s, "timeStamp") == Found(t)
    requires GetLong(t, "secondsPastEpoch") == Found(sec)
    requires GetInt(t, "nanoseconds") == Found(nano)
    requires GetInt(t, "userTag") == Found(tag)
    requires 0 < sec <= MaxSecond && 0 <= nano < NanosPerSecond
    ensures DecodeTime(s) == Ok(Time(Instant(sec, nano), tag, true))
  {
  }

  // ---------------------------------------------------------------- display

  /** Which formatter the display section asks for, before any compilation:
      the default, `precisionFormat(digits)`, or a pattern for
      `createNumberFormat`. */
  datatype FormatRequest = NoFormat | PrecisionFormat(digits: int) | Compile(pattern: string)

  const HexPattern: string := "0x%X"

  function ExponentialPattern(precision: int): string {
    "%." + IntToString(precision) + "E"
  }

  /** Java's `Integer.toString`. */
  function IntToString(n: int): string {
    if n < 0 then "-" + NatToString(-n) else NatToString(n)
  }

  function NatToString(n: nat): string {
    if n < 10 then ["0123456789"[n]] else NatToString(n / 10) + ["0123456789"[n % 10]]
  }

  /** The `form` switch: "Hex" (4) and "Exponential"/"Engineering" (5, 6)
      get printf patterns, every other index the precision format. */
  function FormFormat(index: int, precision: int): FormatRequest {
    if index == 4 then Compile(HexPattern)
    else if index == 5 || index == 6 then Compile(ExponentialPattern(precision))
    else PrecisionFormat(precision)
  }

  /** The choice once `precision` is known to be present. */
  function PrecisionRequest(precision: int, form: Lookup<Structure>): Result<FormatRequest, DecodeError> {
    match form
    case WrongType => Err(ClassCast("form"))
    case Absent => Ok(PrecisionFormat(precision))
    case Found(f) =>
      match GetInt(f, "index")
      case WrongType => Err(ClassCast("index"))
      case Absent => Ok(FormFormat(0, precision))
      case Found(index) => Ok(FormFormat(index, precision))
  }

  /** The formatter choice inside a present `display` section: `precision`
      (refined by `form`) first, else the legacy `format` string, else the
      default. */
  function FormatRequestOf(section: Structure): (r: Result<FormatRequest, DecodeError>)
    ensures r.Err? ==> r.error.ClassCast?
    ensures GetInt(section, "precision").Absent? ==>
      match GetString(section, "format")
      case Absent => r == Ok(NoFormat)
      case Found(pattern) => r == Ok(Compile(pattern))
      case WrongType => r.Err?
    ensures GetInt(section, "precision").Found? && r.Ok? ==>
      var p := GetInt(section, "precision").value;
      r.value in {PrecisionFormat(p), Compile(HexPattern), Compile(ExponentialPattern(p))}
  {
    match GetInt(section, "precision")
    case WrongType => Err(ClassCast("precision"))
    case Found(precision) => PrecisionRequest(precision, GetStructure(section, "form"))
    case Absent =>
      match GetString(section, "format")
      case WrongType => Err(ClassCast("format"))
      case Absent => Ok(NoFormat)
      case Found(pattern) => Ok(Compile(pattern))
  }

  /** The order of the `form` cases: index 4 is hexadecimal whatever the
      precision, 5 and 6 exponential at that precision, a missing index
      counts as 0, and any other index, or no `form`, is the precision
      format. */
  lemma FormPriority(section: Structure, precision: int)
    requires GetInt(section, "precision") == Found(precision)
    ensures GetStructure(section, "form").Absent? ==> FormatRequestOf(section) == Ok(PrecisionFormat(precision))
    ensures GetStructure(section, "form").Found? ==>
      var index := GetInt(GetStructure(section, "form").value, "index");
      && (index == Found(4) ==> FormatRequestOf(section) == Ok(Compile(HexPattern)))
      && (index == Found(5) || index == Found(6) ==>
            FormatRequestOf(section) == Ok(Compile(ExponentialPattern(precision))))
      && (index.Absent? ==> FormatRequestOf(section) == Ok(PrecisionFormat(precision)))
      && (index.Found? && index.value !in {4, 5, 6} ==>
            FormatRequestOf(section) == Ok(PrecisionFormat(precision)))
  {
  }

  /** When `precision` is present the legacy `format` string is ignored:
      two sections that differ only in their `format` field choose alike. */
  lemma PrecisionIgnoresFormat(a: Structure, b: Structure)
    requires Without(a, "format") == Without(b, "format")
    requires GetInt(a, "precision").Found?
    ensures FormatRequestOf(a) == FormatRequestOf(b)
  {
    GetWithout(a, "format", "precision");
    GetWithout(b, "format", "precision");
    GetWithout(a, "format", "form");
    GetWithout(b, "format", "form");
    assert Get(a, "precision") == Get(b, "precision");
    assert Get(a, "form") == Get(b, "form");
    assert GetInt(a, "precision") == GetInt(b, "precision");
    assert GetStructure(a, "form") == GetStructure(b, "form");
  }

  /** The compiled formatter for a request. */
  function FormatOf(request: FormatRequest, probe: string -> bool): Formatter {
    match request
    case NoFormat => NoDisplay.format
    case PrecisionFormat(digits) => Precision(digits)
    case Compile(pattern) => Resolve(Some(pattern), probe)
  }

  /** What the `display` section contributes: units, formatter request and
      the display range. */
  datatype DisplaySection = DisplaySection(units: string, format: FormatRequest, range: Range)

  function LimitsOf(section: Structure, low: string, high: string): Range {
    Range(GetNumber(section, low), GetNumber(section, high))
  }

  function DisplaySectionOf(s: Structure): Result<DisplaySection, DecodeError> {
    match GetStructure(s, "display")
    case WrongType => Err(ClassCast("display"))
    case Absent => Ok(DisplaySection(NoDisplay.units, NoFormat, UndefinedRange))
    case Found(section) =>
      match GetString(section, "units")
      case WrongType => Err(ClassCast("units"))
      case units =>
        match FormatRequestOf(section)
        case Err(e) => Err(e)
        case Ok(request) =>
          Ok(DisplaySection(if units.Found? then units.value else NoDisplay.units, request,
                            LimitsOf(section, "limitLow", "limitHigh")))
  }

  /** The range of an optional section: undefined when the section is absent. */
  function SectionRange(section: Lookup<Structure>, low: string, high: string): Range
    requires !section.WrongType?
  {
    if section.Found? then LimitsOf(section.value, low, high) else UndefinedRange
  }

  /** `decodeDisplay`, with the cache abstracted away (it never changes the
      formatter chosen). It fails exactly when a section or a field it reads
      has the wrong class; absent sections give default units, default format and
      undefined ranges, and a bound that is not a number is undefined. */
  function DisplayOf(s: Structure, probe: string -> bool): (r: Result<Display, DecodeError>)
    ensures r.Err? ==> r.error.ClassCast?
    ensures r.Ok? <==>
      && !GetStructure(s, "display").WrongType?
      && (GetStructure(s, "display").Found? ==>
            var d := GetStructure(s, "display").value;
            !GetString(d, "units").WrongType? && FormatRequestOf(d).Ok?)
      && !GetStructure(s, "control").WrongType?
      && !GetStructure(s, "valueAlarm").WrongType?
    ensures r.Ok? && GetStructure(s, "display").Absent? ==>
      r.value.units == "" && r.value.format == Default && r.value.display == UndefinedRange
    ensures r.Ok? && GetStructure(s, "control").Absent? ==> r.value.control == UndefinedRange
    ensures r.Ok? && GetStructure(s, "valueAlarm").Absent? ==>
      r.value.alarm == UndefinedRange && r.value.warning == UndefinedRange
    ensures r.Ok? && GetStructure(s, "control").Found? ==>
      var c := GetStructure(s, "control").value;
      r.value.control == Range(GetNumber(c, "limitLow"), GetNumber(c, "limitHigh"))
    ensures r.Ok? && GetStructure(s, "valueAlarm").Found? ==>
      var v := GetStructure(s, "valueAlarm").value;
      && r.value.alarm == Range(GetNumber(v, "lowAlarmLimit"), GetNumber(v, "highAlarmLimit"))
      && r.value.warning == Range(GetNumber(v, "lowWarningLimit"), GetNumber(v, "highWarningLimit"))
    ensures r.Ok? && GetStructure(s, "display").Found? ==>
      var d := GetStructure(s, "display").value;
      && r.value.display == Range(GetNumber(d, "limitLow"), GetNumber(d, "limitHigh"))
      && r.value.units == (if GetString(d, "units").Found? then GetString(d, "units").value else "")
      && FormatRequestOf(d).Ok?
      && r.value.format == FormatOf(FormatRequestOf(d).value, probe)
      && (GetInt(d, "precision").Absent? && GetString(d, "format").Absent? ==> r.value.format == Default)
  {
    match DisplaySectionOf(s)
    case Err(e) => Err(e)
    case Ok(part) =>
      var control := GetStructure(s, "control");
      if control.WrongType? then Err(ClassCast("control"))
      else
        var valueAlarm := GetStructure(s, "valueAlarm");
        if valueAlarm.WrongType? then Err(ClassCast("valueAlarm"))
        else
          Ok(Display(part.range,
                     SectionRange(valueAlarm, "lowAlarmLimit", "highAlarmLimit"),
                     SectionRange(valueAlarm, "lowWarningLimit", "highWarningLimit"),
                     SectionRange(control, "limitLow", "limitHigh"),
                     part.units,
                     FormatOf(part.format, probe)))
  }

  /** A well-typed display section with a precision and no `form` decodes,
      and its values are formatted at that precision whatever `format` says. */
  lemma PrecisionDisplay(s: Structure, d: Structure, precision: int, probe: string -> bool)
    requires GetStructure(s, "display") == Found(d)
    requires GetInt(d, "precision") == Found(precision)
    requires GetStructure(d, "form").Absent? && !GetString(d, "units").WrongType?
    requires !GetStructure(s, "control").WrongType? && !GetStructure(s, "valueAlarm").WrongType?
    ensures DisplayOf(s, probe).Ok? && DisplayOf(s, probe).value.format == Precision(precision)
  {
  }

  /** The cache after `decodeDisplay`: the pattern the display section asked
      to compile, if any, has been entered. */
  ghost function CacheAfterDisplay(entries: map<string, Formatter>, s: Structure,
                                   probe: string -> bool): map<string, Formatter>
  {
    match DisplaySectionOf(s)
    case Ok(DisplaySection(_, Compile(pattern), _)) =>
      if UsesDefault(Some(pattern)) then entries
      else entries[pattern := Printf(NewPrintfFormat(pattern, probe))]
    case _ => entries
  }

  /** `decodeDisplay` against the shared formatter cache. */
  method DecodeDisplay(cache: FormatCache, s: Structure) returns (r: Result<Display, DecodeError>)
    requires cache.Valid()
    modifies cache
    ensures cache.Valid()
    ensures r == DisplayOf(s, cache.probe)
    ensures cache.entries == CacheAfterDisplay(old(cache.entries), s, cache.probe)
  {
    var part := DisplaySectionOf(s);
    if part.Err? {
      return Err(part.error);
    }
    var format: Formatter;
    match part.value.format {
      case NoFormat => format := NoDisplay.format;
      case PrecisionFormat(digits) => format := Precision(digits);
      case Compile(pattern) => format := cache.CreateNumberFormat(Some(pattern));
    }
    var control := GetStructure(s, "control");
    if control.WrongType? {
      return Err(ClassCast("control"));
    }
    var valueAlarm := GetStructure(s, "valueAlarm");
    if valueAlarm.WrongType? {
      return Err(ClassCast("valueAlarm"));
    }
    r := Ok(Display(part.value.range,
                    SectionRange(valueAlarm, "lowAlarmLimit", "highAlarmLimit"),
                    SectionRange(valueAlarm, "lowWarningLimit", "highWarningLimit"),
                    SectionRange(control, "limitLow", "limitHigh"),
                    part.value.units,
                    format));
  }

  /** With no metadata sections at all, a value carries the "no alarm"
      alarm, the invalid epoch-zero time and the "no display" display. */
  lemma NoMetadata(s: Structure, probe: string -> bool)
    requires forall i :: 0 <= i < |s.members| ==>
      s.members[i].name !in {"alarm", "timeStamp", "display", "control", "valueAlarm"}
    ensures DecodeAlarm(s) == Ok(Alarm(AlarmSeverity.NONE, AlarmStatus.NONE, "NONE"))
    ensures DecodeTime(s) == Ok(Time(Instant(0, 0), 0, false))
    ensures DisplayOf(s, probe) == Ok(NoDisplay)
  {
    FindFirst(s.members, "alarm");
    FindFirst(s.members, "timeStamp");
    FindFirst(s.members, "display");
    FindFirst(s.members, "control");
    FindFirst(s.members, "valueAlarm");
  }

  // ---------------------------------------------------------------- payload

  /** `decodeDouble`: the double payload with alarm, time and display taken
      from the enclosing structure, decoded in that order; a failure stops
      the decode (so a failing alarm or time leaves the cache untouched). */
  method DecodeDouble(cache: FormatCache, s: Structure, field: Number) returns (r: Result<VDouble, DecodeError>)
    requires cache.Valid() && field.kind == Double
    modifies cache
    ensures cache.Valid()
    ensures r.Ok? <==> DecodeAlarm(s).Ok? && DecodeTime(s).Ok? && DisplayOf(s, cache.probe).Ok?
    ensures r.Ok? ==>
      r.value == VDouble(field, DecodeAlarm(s).value, DecodeTime(s).value, DisplayOf(s, cache.probe).value)
    ensures r.Err? ==> r.error == (if DecodeAlarm(s).Err? then DecodeAlarm(s).error
                                   else if DecodeTime(s).Err? then DecodeTime(s).error
                                   else DisplayOf(s, cache.probe).error)
    ensures cache.entries == if DecodeAlarm(s).Ok? && DecodeTime(s).Ok?
                             then CacheAfterDisplay(old(cache.entries), s, cache.probe)
                             else old(cache.entries)
  {
    var alarm := DecodeAlarm(s);
    if alarm.Err? {
      return Err(alarm.error);
    }
    var time := DecodeTime(s);
    if time.Err? {
      return Err(time.error);
    }
    var display := DecodeDisplay(cache, s);
    if display.Err? {
      return Err(display.error);
    }
    return Ok(VDouble(field, alarm.value, time.value, display.value));
  }
}
