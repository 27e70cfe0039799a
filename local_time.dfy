/** Local calendar arithmetic on millisecond timestamps, the part of dayjs that
    app/services/api.ts uses (`startOf('d')`, `endOf('d')`, `isBefore`,
    `get('h')`), for a time zone with a fixed offset from UTC, and `isDayTime`
    (app/services/api.ts:35-45). */
module LocalTime {
  import opened JsValues

  const MsPerHour := 3_600_000
  const MsPerDay := 86_400_000

  /** The local day number of a timestamp, for a zone `offset` milliseconds
      ahead of UTC. */
  function DayOf(ms: int, offset: int): int {
    (ms + offset) / MsPerDay
  }

  /** `dayjs(ms).startOf('d')`: local midnight of the same day. */
  function StartOfDay(ms: int, offset: int): (start: int)
    ensures start <= ms < start + MsPerDay
    ensures DayOf(start, offset) == DayOf(ms, offset)
    ensures (start + offset) % MsPerDay == 0
    ensures DayOf(start - 1, offset) == DayOf(ms, offset) - 1
  {
    DayOf(ms, offset) * MsPerDay - offset
  }

  /** `dayjs(ms).endOf('d')`: the last millisecond of the same local day. */
  function EndOfDay(ms: int, offset: int): (end: int)
    ensures ms <= end < ms + MsPerDay
    ensures DayOf(end, offset) == DayOf(ms, offset)
    ensures DayOf(end + 1, offset) == DayOf(ms, offset) + 1
  {
    StartOfDay(ms, offset) + MsPerDay - 1
  }

  /** `dayjs(ms).get('h')`: the local hour, 0 to 23. */
  function HourOf(ms: int, offset: int): (h: int)
    ensures 0 <= h < 24
    ensures StartOfDay(ms, offset) + h * MsPerHour <= ms < StartOfDay(ms, offset) + (h + 1) * MsPerHour
  {
    var local := ms + offset;
    assert local == DayOf(ms, offset) * MsPerDay + local % MsPerDay;
    assert ms - StartOfDay(ms, offset) == local % MsPerDay;
    (local % MsPerDay) / MsPerHour
  }

  /** The forecast loop's test `!dayjs(h).startOf('d').isBefore(dayEnd)`, with
      `dayEnd` the end of the current daily record's day, holds exactly when
      the hourly timestamp falls on a later local day. */
  lemma StartsLaterDay(hour: int, day: int, offset: int)
    ensures !(StartOfDay(hour, offset) < EndOfDay(day, offset)) <==> DayOf(hour, offset) > DayOf(day, offset)
  {
    var a := DayOf(hour, offset);
    var b := DayOf(day, offset);
    assert StartOfDay(hour, offset) == a * MsPerDay - offset;
    assert EndOfDay(day, offset) == b * MsPerDay - offset + MsPerDay - 1;
    if a > b {
      assert a * MsPerDay >= (b + 1) * MsPerDay;
    } else {
      assert a * MsPerDay <= b * MsPerDay;
    }
  }

  /** `isDayTime(sunrise, sunset, time)`: strictly between sunrise and sunset
      when both are known (truthy); otherwise the local hour is 7 to 19, that
      is, the local window from 07:00:00.000 up to but excluding 20:00:00.000. */
  function IsDayTime(sunrise: Option<int>, sunset: Option<int>, time: int, offset: int): (day: bool)
    ensures sunrise.Some? && sunset.Some? ==> (day <==> sunrise.value < time < sunset.value)
    ensures sunrise.None? || sunset.None? ==>
      (day <==> StartOfDay(time, offset) + 7 * MsPerHour <= time < StartOfDay(time, offset) + 20 * MsPerHour)
  {
    var local := time + offset;
    assert local == DayOf(time, offset) * MsPerDay + local % MsPerDay;
    assert time - StartOfDay(time, offset) == local % MsPerDay;
    if sunrise.Some? && sunset.Some? then sunrise.value < time < sunset.value
    else
      var hourOfDay := HourOf(time, offset);
      hourOfDay >= 7 && hourOfDay < 20
  }
}
