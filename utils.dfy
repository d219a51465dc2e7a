/**
 Timestamp arithmetic of geode/utils.py. A timestamp is a whole number of
 seconds; its text form is a `TimeText`. Parsing (`strptime`) and formatting
 (`strftime`) are the two directions of one bijection between well-formed
 text and seconds.
 */
module TimeUtils {
  import opened Values

  const SecondsPerDay := 86400

  /** `string_to_dto`: the seconds a well-formed timestamp text denotes. */
  function StringToDto(s: TimeText): (t: int)
    ensures s.date * SecondsPerDay <= t < (s.date + 1) * SecondsPerDay
  {
    s.date * SecondsPerDay + s.hour * 3600 + s.minute * 60 + s.second
  }

  /** `strftime(_, '%Y-%m-%dT%H:%M:%S')`: the text of a timestamp. */
  function DtoToString(t: int): (s: TimeText)
    ensures StringToDto(s) == t
  {
    var r := t % SecondsPerDay;
    var s := Civil(t / SecondsPerDay, r / 3600, r % 3600 / 60, r % 60);
    DayRemainder(r);
    s
  }

  /** Splitting a second-of-day into hours, minutes and seconds loses nothing. */
  lemma DayRemainder(r: int)
    requires 0 <= r < SecondsPerDay
    ensures 0 <= r / 3600 < 24 && 0 <= r % 3600 / 60 < 60
    ensures r / 3600 * 3600 + r % 3600 / 60 * 60 + r % 60 == r
  {
    var h, q := r / 3600, r % 3600;
    assert r == h * 3600 + q;
    var m := q / 60;
    assert q == m * 60 + q % 60;
    assert q % 60 == r % 60;
  }

  /** Parsing then formatting a well-formed text gives the same text back. */
  lemma {:induction false} FormatParse(s: TimeText)
    ensures DtoToString(StringToDto(s)) == s
  {
    var t := StringToDto(s);
    var r := s.hour * 3600 + s.minute * 60 + s.second;
    assert 0 <= r < SecondsPerDay;
    assert t == s.date * SecondsPerDay + r;
    assert t / SecondsPerDay == s.date && t % SecondsPerDay == r;
    assert r / 3600 == s.hour;
    assert r % 3600 == s.minute * 60 + s.second;
    assert (s.minute * 60 + s.second) / 60 == s.minute;
  }

  /** Formatting is injective, and parsing is injective on well-formed text. */
  lemma ParseInjective(a: TimeText, b: TimeText)
    ensures StringToDto(a) == StringToDto(b) <==> a == b
  {
    if StringToDto(a) == StringToDto(b) {
      FormatParse(a);
      FormatParse(b);
    }
  }

  /** A `datetime.timedelta` with no microseconds, in the normal form Python
      keeps it: whole `days` (rounded down) and `0 <= seconds < 86400`. */
  datatype Timedelta = Timedelta(days: int, seconds: int)

  predicate Normal(d: Timedelta) {
    0 <= d.seconds < SecondsPerDay
  }

  /** `latest - earliest` on two datetimes. */
  function Subtract(latest: int, earliest: int): (d: Timedelta)
    ensures Normal(d)
    ensures d.days <= 0 <==> latest - earliest < SecondsPerDay
  {
    var diff := latest - earliest;
    Timedelta(diff / SecondsPerDay, diff % SecondsPerDay)
  }

  /** `return_difference`: `days*24*60*60 + seconds` of `latest - earliest`,
      which is exactly the signed difference in seconds. */
  function ReturnDifference(earliest: TimeText, latest: TimeText): (n: int)
    ensures n == StringToDto(latest) - StringToDto(earliest)
  {
    var diff := Subtract(StringToDto(latest), StringToDto(earliest));
    diff.days * 24 * 60 * 60 + diff.seconds
  }

  /** `calc_time_diff_string`: `None` for an argument that is not a string,
      a `ValueError` for text that is not in the format, and otherwise the
      text of the timestamp shifted by `duration` seconds (back in time when
      `duration` is negative). */
  function CalcTimeDiffString(v: Value, duration: int): (r: Result<Value>)
    ensures !IsText(v) <==> r == Ok(Null)
    ensures v.Str? <==> r == Err(ValueError)
    ensures v.TimeStr? ==>
              r.Ok? && r.value.TimeStr? &&
              StringToDto(r.value.text) == StringToDto(v.text) + duration
  {
    match v
    case TimeStr(s) => Ok(TimeStr(DtoToString(StringToDto(s) + duration)))
    case Str(_) => Err(ValueError)
    case _ => Ok(Null)
  }

  /** `time_diff_string(s, n)` (geode/utils.py does not define it) on
      well-formed text: `calc_time_diff_string` without the type check. */
  function TimeDiffString(s: TimeText, n: int): (r: TimeText)
    ensures CalcTimeDiffString(TimeStr(s), n) == Ok(TimeStr(r))
    ensures ReturnDifference(s, r) == n
  {
    DtoToString(StringToDto(s) + n)
  }

  /** `time_diff(t, n)` (geode/utils.py does not define it): `t` shifted by
      `n` seconds; adding a timedelta to anything but a datetime raises. */
  function TimeDiff(v: Value, n: int): (r: Result<Value>)
    ensures v.Stamp? <==> r.Ok?
    ensures r.Ok? ==> r.value == Stamp(v.t + n)
  {
    if v.Stamp? then Ok(Stamp(v.t + n)) else Err(TypeError)
  }

  /** Shifting a text by `d` and measuring from the original gives `d` back. */
  lemma ShiftThenDifference(a: TimeText, d: int)
    ensures CalcTimeDiffString(TimeStr(a), d).Ok?
    ensures ReturnDifference(a, CalcTimeDiffString(TimeStr(a), d).value.text) == d
  {
  }

  /** Shifts compose: shifting by `d1` and then by `d2` is shifting by `d1 + d2`. */
  lemma {:induction false} ShiftsCompose(a: TimeText, d1: int, d2: int)
    ensures CalcTimeDiffString(TimeStr(DtoToString(StringToDto(a) + d1)), d2)
         == CalcTimeDiffString(TimeStr(a), d1 + d2)
  {
    var b := DtoToString(StringToDto(a) + d1);
    assert StringToDto(b) + d2 == StringToDto(a) + (d1 + d2);
  }

  /** The difference of a text from itself is zero, and swapping the
      arguments negates it. */
  lemma DifferenceAntisymmetric(a: TimeText, b: TimeText)
    ensures ReturnDifference(a, a) == 0
    ensures ReturnDifference(a, b) == -ReturnDifference(b, a)
  {
  }
}
