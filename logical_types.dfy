/**
 * The logical-type registry of fastavro_gen/logical_types.py: a fixed table
 * from an Avro logical-type tag to the name of the Python type it produces,
 * the module that type is imported from, and the parser that builds it.
 *
 * Only the two time-of-day parsers are given concrete semantics; the others
 * are named by a `ParserKind` and interpreted by the converter's runtime.
 */
module LogicalTypes {

  const MillisPerDay: nat := 86_400_000
  const MicrosPerDay: nat := 86_400_000_000
  const MicrosPerHour: nat := 3_600_000_000
  const MicrosPerMinute: nat := 60_000_000
  const MicrosPerSecond: nat := 1_000_000

  /** Number of days from datetime.min (0001-01-01) to datetime.max (9999-12-31), inclusive. */
  const DatetimeDays: nat := 3_652_059

  /** Microsecond offsets from datetime.min that stay within datetime's range. */
  const DatetimeSpanMicros: nat := DatetimeDays * MicrosPerDay

  /** A Python `datetime.time` without tzinfo. */
  datatype TimeOfDay = TimeOfDay(hour: nat, minute: nat, second: nat, microsecond: nat)

  predicate ValidTime(t: TimeOfDay) {
    t.hour < 24 && t.minute < 60 && t.second < 60 && t.microsecond < MicrosPerSecond
  }

  /** Microseconds since midnight denoted by a time of day. */
  function MicrosOfDay(t: TimeOfDay): nat {
    t.hour * MicrosPerHour + t.minute * MicrosPerMinute + t.second * MicrosPerSecond + t.microsecond
  }

  /** A naive Python `datetime`, as whole days after datetime.min plus a time of day. */
  datatype DateTime = DateTime(daysAfterMin: nat, time: TimeOfDay)

  /** Offsets (in microseconds) for which `datetime.min + timedelta(...)` does not overflow. */
  predicate InDatetimeRange(us: int) {
    0 <= us < DatetimeSpanMicros
  }

  /** `datetime.min + timedelta(microseconds=us)`. */
  function DatetimeMinPlus(us: int): (d: DateTime)
    requires InDatetimeRange(us)
    ensures ValidTime(d.time) && d.daysAfterMin < DatetimeDays
    ensures d.daysAfterMin * MicrosPerDay + MicrosOfDay(d.time) == us
  {
    var days := us / MicrosPerDay;
    var t := SplitDay(us % MicrosPerDay);
    assert days * MicrosPerDay + us % MicrosPerDay == us;
    DateTime(days, t)
  }

  /** The time of day an offset below one day denotes. */
  function SplitDay(rest: nat): (t: TimeOfDay)
    requires rest < MicrosPerDay
    ensures ValidTime(t) && MicrosOfDay(t) == rest
  {
    var inHour := rest % MicrosPerHour;
    var inMinute := inHour % MicrosPerMinute;
    assert rest == rest / MicrosPerHour * MicrosPerHour + inHour;
    assert inHour == inHour / MicrosPerMinute * MicrosPerMinute + inMinute;
    assert inMinute == inMinute / MicrosPerSecond * MicrosPerSecond + inMinute % MicrosPerSecond;
    TimeOfDay(rest / MicrosPerHour, inHour / MicrosPerMinute, inMinute / MicrosPerSecond, inMinute % MicrosPerSecond)
  }

  /** `_parse_time_micros`: microseconds since midnight to a time of day. */
  function ParseTimeMicros(us: int): (t: TimeOfDay)
    requires InDatetimeRange(us)
    ensures ValidTime(t)
    ensures MicrosOfDay(t) == us % MicrosPerDay
  {
    var d := DatetimeMinPlus(us);
    DayPart(d.daysAfterMin, MicrosOfDay(d.time), us);
    d.time
  }

  /** `_parse_time_millis`: milliseconds since midnight to a time of day. */
  function ParseTimeMillis(ms: int): (t: TimeOfDay)
    requires InDatetimeRange(1000 * ms)
    ensures ValidTime(t)
    ensures t.hour * 3_600_000 + t.minute * 60_000 + t.second * 1000 + t.microsecond / 1000
            == ms % MillisPerDay
    ensures t.microsecond % 1000 == 0
  {
    var d := DatetimeMinPlus(1000 * ms);
    DayPart(d.daysAfterMin, MicrosOfDay(d.time), 1000 * ms);
    MillisOfDay(ms, d.time);
    d.time
  }

  /** Splitting an offset into whole days and a remainder below one day is unique. */
  lemma DayPart(days: nat, rest: nat, us: int)
    requires rest < MicrosPerDay && days * MicrosPerDay + rest == us
    ensures us % MicrosPerDay == rest
  {
  }

  lemma MillisOfDay(ms: int, t: TimeOfDay)
    requires ValidTime(t) && 0 <= ms
    requires MicrosOfDay(t) == (1000 * ms) % MicrosPerDay
    ensures t.hour * 3_600_000 + t.minute * 60_000 + t.second * 1000 + t.microsecond / 1000
            == ms % MillisPerDay
    ensures t.microsecond % 1000 == 0
  {
  }

  /** Which parser a registry entry carries. */
  datatype ParserKind =
    | DateFromIsoFormat        // date.fromisoformat
    | TimeMillis               // _parse_time_millis
    | TimeMicros               // _parse_time_micros
    | TimestampMillis          // _parse_timestamp_millis
    | TimestampMicros          // _parse_timestamp_micros
    | LocalTimestampMillis     // _parse_local_timestamp_millis
    | LocalTimestampMicros     // _parse_local_timestamp_micros
    | DecimalConstructor       // decimal.Decimal

  /** One row of LOGICAL_TYPE_MAP: (typename, import-module, parser). */
  datatype Entry = Entry(typeName: string, importModule: string, parser: ParserKind)

  const LogicalTypeMap: map<string, Entry> := map[
    "date" := Entry("date", "datetime", DateFromIsoFormat),
    "time-millis" := Entry("time", "datetime", TimeMillis),
    "time-micros" := Entry("time", "datetime", TimeMicros),
    "timestamp-millis" := Entry("datetime", "datetime", TimestampMillis),
    "timestamp-micros" := Entry("datetime", "datetime", TimestampMicros),
    "local-timestamp-millis" := Entry("datetime", "datetime", LocalTimestampMillis),
    "local-timestamp-micros" := Entry("datetime", "datetime", LocalTimestampMicros),
    "decimal" := Entry("Decimal", "decimal", DecimalConstructor)
  ]

  // ---------------------------------------------------------------- registry properties

  /** The registry recognises exactly the eight Avro logical types. */
  lemma RegistryTags()
    ensures LogicalTypeMap.Keys == {"date", "time-millis", "time-micros", "timestamp-millis", "timestamp-micros",
                                    "local-timestamp-millis", "local-timestamp-micros", "decimal"}
  {
  }

  /** The Python type each tag produces, and the module it is imported from. */
  lemma RegistryMetadata(tag: string)
    requires tag in LogicalTypeMap
    ensures LogicalTypeMap[tag].typeName ==
              if tag == "date" then "date"
              else if tag in {"time-millis", "time-micros"} then "time"
              else if tag == "decimal" then "Decimal"
              else "datetime"
    ensures LogicalTypeMap[tag].importModule == if tag == "decimal" then "decimal" else "datetime"
  {
  }

  /** No two tags share a parser. */
  lemma RegistryParsersDistinct(tag1: string, tag2: string)
    requires tag1 in LogicalTypeMap && tag2 in LogicalTypeMap && tag1 != tag2
    ensures LogicalTypeMap[tag1].parser != LogicalTypeMap[tag2].parser
  {
  }

  // ---------------------------------------------------------------- time parsers

  /** A valid time of day is determined by its offset from midnight. */
  lemma TimeOfDayFromOffset(t: TimeOfDay)
    requires ValidTime(t)
    ensures t.hour == MicrosOfDay(t) / MicrosPerHour
    ensures t.minute == MicrosOfDay(t) % MicrosPerHour / MicrosPerMinute
    ensures t.second == MicrosOfDay(t) % MicrosPerMinute / MicrosPerSecond
    ensures t.microsecond == MicrosOfDay(t) % MicrosPerSecond
  {
    var a := t.minute * MicrosPerMinute + t.second * MicrosPerSecond + t.microsecond;
    assert a < MicrosPerHour;
    assert MicrosOfDay(t) == t.hour * MicrosPerHour + a;
    var b := t.second * MicrosPerSecond + t.microsecond;
    assert b < MicrosPerMinute;
    assert MicrosOfDay(t) == (t.hour * 60 + t.minute) * MicrosPerMinute + b;
    assert MicrosOfDay(t) == ((t.hour * 60 + t.minute) * 60 + t.second) * MicrosPerSecond + t.microsecond;
  }

  lemma TimeOfDayInjective(t1: TimeOfDay, t2: TimeOfDay)
    requires ValidTime(t1) && ValidTime(t2) && MicrosOfDay(t1) == MicrosOfDay(t2)
    ensures t1 == t2
  {
    TimeOfDayFromOffset(t1);
    TimeOfDayFromOffset(t2);
  }

  /** Parsing the offset of a time of day gives that time back. */
  lemma TimeMicrosRoundTrip(t: TimeOfDay)
    requires ValidTime(t)
    ensures InDatetimeRange(MicrosOfDay(t)) && ParseTimeMicros(MicrosOfDay(t)) == t
  {
    var us := MicrosOfDay(t);
    assert us < MicrosPerDay;
    TimeOfDayInjective(ParseTimeMicros(us), t);
  }

  /** `.time()` drops the date: the time parsers see the offset only modulo one day. */
  lemma TimeMicrosModuloDay(us1: int, us2: int)
    requires InDatetimeRange(us1) && InDatetimeRange(us2) && us1 % MicrosPerDay == us2 % MicrosPerDay
    ensures ParseTimeMicros(us1) == ParseTimeMicros(us2)
  {
    TimeOfDayInjective(ParseTimeMicros(us1), ParseTimeMicros(us2));
  }

  lemma TimeMillisModuloDay(ms1: int, ms2: int)
    requires InDatetimeRange(1000 * ms1) && InDatetimeRange(1000 * ms2) && ms1 % MillisPerDay == ms2 % MillisPerDay
    ensures ParseTimeMillis(ms1) == ParseTimeMillis(ms2)
  {
    TimeMillisIsTimeMicros(ms1);
    TimeMillisIsTimeMicros(ms2);
    assert (1000 * ms1) % MicrosPerDay == 1000 * (ms1 % MillisPerDay);
    assert (1000 * ms2) % MicrosPerDay == 1000 * (ms2 % MillisPerDay);
    TimeMicrosModuloDay(1000 * ms1, 1000 * ms2);
  }

  /** Milliseconds and microseconds are offsets from the same midnight at different scales. */
  lemma TimeMillisIsTimeMicros(ms: int)
    requires InDatetimeRange(1000 * ms)
    ensures ParseTimeMillis(ms) == ParseTimeMicros(1000 * ms)
  {
  }

  /** 3661000 ms after midnight is 01:01:01.000. */
  lemma TimeMillisExample()
    ensures ParseTimeMillis(3_661_000) == TimeOfDay(1, 1, 1, 0)
  {
    TimeOfDayInjective(ParseTimeMillis(3_661_000), TimeOfDay(1, 1, 1, 0));
  }
}
