/** The reshaping `getDarkSkyWeather` applies to a Dark Sky forecast
    (app/services/api.ts:469-514): timestamps go from seconds to
    milliseconds, every record gets its wind icon, and the hourly records,
    in order, are distributed over the daily records, each getting its
    position in its day as `index`. */
module Forecast {
  import opened JsValues
  import opened LocalTime
  import opened WindIcons

  /** An hourly record; `windBearing` is None when the field is absent. */
  datatype Hourly = Hourly(time: int, windBearing: Option<int>, icon: string,
                           windIcon: Option<string>, index: Option<nat>)

  datatype HourlySummary = HourlySummary(icon: string, summary: string)

  /** A daily record together with the fields the reshaping adds to it. */
  datatype Daily = Daily(time: int, sunriseTime: int, sunsetTime: int, windBearing: Option<int>,
                         windIcon: Option<string>, hourly: seq<Hourly>, hourlyData: Option<HourlySummary>)

  /** The payload's `hourly` block. */
  datatype HourlyBlock = HourlyBlock(icon: string, summary: string, data: seq<Hourly>)

  datatype Currently = Currently(time: int, summary: string)

  /** `windIcon(x.windBearing)`: a missing bearing gives `undefined`. */
  function BearingIcon(bearing: Option<int>): Option<string> {
    if bearing.Some? then WindIcon(bearing.value) else None
  }

  /** The per-day preparation of the `daily.data.forEach`. */
  function PrepareDaily(d: Daily): Daily {
    d.(time := d.time * 1000, sunriseTime := d.sunriseTime * 1000, sunsetTime := d.sunsetTime * 1000,
       windIcon := BearingIcon(d.windBearing), hourly := [])
  }

  /** The per-hour preparation at the head of the `hourly.data.forEach`. */
  function PrepareHourly(h: Hourly): Hourly {
    h.(time := h.time * 1000, windIcon := BearingIcon(h.windBearing))
  }

  function PrepareDays(daily: seq<Daily>): (ds: seq<Daily>)
    ensures |ds| == |daily|
    ensures forall j :: 0 <= j < |daily| ==> ds[j] == PrepareDaily(daily[j])
  {
    seq(|daily|, j requires 0 <= j < |daily| => PrepareDaily(daily[j]))
  }

  function PrepareHours(data: seq<Hourly>): (hs: seq<Hourly>)
    ensures |hs| == |data|
    ensures forall i :: 0 <= i < |data| ==> hs[i] == PrepareHourly(data[i])
  {
    seq(|data|, i requires 0 <= i < |data| => PrepareHourly(data[i]))
  }

  function DayTimes(ds: seq<Daily>): (times: seq<int>)
    ensures |times| == |ds|
    ensures forall j :: 0 <= j < |ds| ==> times[j] == ds[j].time
  {
    seq(|ds|, j requires 0 <= j < |ds| => ds[j].time)
  }

  // ---------------------------------------------------------------------
  // The distribution of the hourly records, as a function of the prefix of
  // hourly records handled so far.

  /** The per-day lists built so far and the cursor `dailyIndex`. */
  datatype Buckets = Buckets(lists: seq<seq<Hourly>>, cursor: nat)

  /** Lists exist for every day, the cursor names one, and nothing lies after it. */
  predicate WellFormed(st: Buckets, days: nat) {
    |st.lists| == days && st.cursor < days
    && forall j :: st.cursor < j < days ==> st.lists[j] == []
  }

  function EmptyLists(n: nat): (lists: seq<seq<Hourly>>)
    ensures |lists| == n
    ensures forall j :: 0 <= j < n ==> lists[j] == []
  {
    if n == 0 then [] else EmptyLists(n - 1) + [[]]
  }

  /** One iteration: move to the next day when the record falls on a later
      local day than the current daily record (the source's test
      `!dateStart.isBefore(dayEnd)`, see LocalTime.StartsLaterDay), fail when there is no next day, and append
      the record with its position in the list. */
  function Step(dayTimes: seq<int>, st: Buckets, h: Hourly, offset: int): (r: Option<Buckets>)
    requires WellFormed(st, |dayTimes|)
    ensures r.Some? ==> WellFormed(r.value, |dayTimes|)
  {
    var c := if DayOf(h.time, offset) > DayOf(dayTimes[st.cursor], offset) then st.cursor + 1 else st.cursor;
    if c >= |dayTimes| then None
    else
      var list := st.lists[c];
      Some(Buckets(st.lists[c := list + [h.(index := Some(|list|))]], c))
  }

  /** The state after the given hourly records, or None once a record had no
      daily record left to go to. */
  function Bucket(dayTimes: seq<int>, hs: seq<Hourly>, offset: int): (r: Option<Buckets>)
    requires |dayTimes| > 0
    ensures r.Some? ==> WellFormed(r.value, |dayTimes|)
    decreases |hs|
  {
    if hs == [] then Some(Buckets(EmptyLists(|dayTimes|), 0))
    else
      match Bucket(dayTimes, hs[..|hs| - 1], offset)
      case None => None
      case Some(st) => Step(dayTimes, st, hs[|hs| - 1], offset)
  }

  /** Handling one more record is one more step. */
  lemma BucketSnoc(dayTimes: seq<int>, hs: seq<Hourly>, n: nat, st: Buckets, offset: int)
    requires |dayTimes| > 0 && n < |hs|
    requires Bucket(dayTimes, hs[..n], offset) == Some(st)
    ensures Bucket(dayTimes, hs[..n + 1], offset) == Step(dayTimes, st, hs[n], offset)
  {
    assert hs[..n + 1][..n] == hs[..n];
  }

  /** The whole reshaping, or None where the source throws a TypeError: no
      daily record (`currentDateData` is undefined), no hourly block, or an
      hourly record past the last day. */
  function ReshapeSpec(daily: seq<Daily>, hourly: Option<HourlyBlock>, offset: int): (r: Option<seq<Daily>>)
    ensures r.Some? ==> |daily| > 0 && hourly.Some? && |r.value| == |daily|
  {
    if |daily| == 0 || hourly.None? then None
    else
      var ds := PrepareDays(daily);
      match Bucket(DayTimes(ds), PrepareHours(hourly.value.data), offset)
      case None => None
      case Some(st) => Some(seq(|ds|, j requires 0 <= j < |ds| => Attach(ds[j], j, st.lists[j], hourly.value)))
  }

  /** A prepared day with its list of hours; the first day also receives the
      block's icon and summary. */
  function Attach(d: Daily, j: nat, list: seq<Hourly>, block: HourlyBlock): Daily {
    d.(hourly := list, hourlyData := if j == 0 then Some(HourlySummary(block.icon, block.summary)) else d.hourlyData)
  }

  // ---------------------------------------------------------------------
  // The in-place algorithm.

  /** The parsed payload; its `daily.data` array is updated in place. */
  class DarkSkyResult {
    var currently: Option<Currently>
    var daily: array<Daily>
    var hourly: Option<HourlyBlock>

    constructor (currently: Option<Currently>, daily: array<Daily>, hourly: Option<HourlyBlock>)
      ensures this.currently == currently && this.daily == daily && this.hourly == hourly
    {
      this.currently := currently;
      this.daily := daily;
      this.hourly := hourly;
    }
  }

  /** The body of `getDarkSkyWeather` after the request: `ok` is false where
      the source throws. */
  method ReshapeForecast(result: DarkSkyResult, offset: int) returns (ok: bool)
    modifies result, result.daily
    ensures result.daily == old(result.daily)
    ensures ok <==> ReshapeSpec(old(result.daily[..]), old(result.hourly), offset).Some?
    ensures ok ==> result.daily[..] == ReshapeSpec(old(result.daily[..]), old(result.hourly), offset).value
    ensures ok ==> result.hourly.None?
    ensures ok ==> result.currently == if old(result.currently).Some?
                                       then Some(old(result.currently).value.(time := old(result.currently).value.time * 1000))
                                       else None
  {
    var daily := result.daily;
    ghost var original := daily[..];
    if result.currently.Some? {
      result.currently := Some(result.currently.value.(time := result.currently.value.time * 1000));
    }
    PrepareDailyRecords(daily);
    if daily.Length == 0 || result.hourly.None? {
      return false;
    }
    var block := result.hourly.value;
    ghost var ds := daily[..];
    daily[0] := daily[0].(hourlyData := Some(HourlySummary(block.icon, block.summary)));
    assert DayTimes(daily[..]) == DayTimes(ds);
    ghost var attached := daily[..];
    assert forall j :: 0 <= j < daily.Length ==> attached[j] == Attach(ds[j], j, [], block);
    ok := DistributeHours(daily, block.data, offset);
    if !ok {
      return;
    }
    result.hourly := None;
    ghost var st := Bucket(DayTimes(ds), PrepareHours(block.data), offset).value;
    assert forall j :: 0 <= j < daily.Length ==> daily[j] == Attach(ds[j], j, st.lists[j], block);
  }

  /** The `daily.data.forEach`: every daily record prepared in place. */
  method PrepareDailyRecords(daily: array<Daily>)
    modifies daily
    ensures daily[..] == PrepareDays(old(daily[..]))
  {
    var i := 0;
    while i < daily.Length
      invariant 0 <= i <= daily.Length
      invariant forall k :: 0 <= k < i ==> daily[k] == PrepareDaily(old(daily[k]))
      invariant forall k :: i <= k < daily.Length ==> daily[k] == old(daily[k])
    {
      daily[i] := PrepareDaily(daily[i]);
      i := i + 1;
    }
  }

  /** The `hourly.data.forEach`: every hourly record prepared and appended to
      the list of the current daily record, moving on to the next daily record
      at each change of local day; false when there is no next daily record. */
  method DistributeHours(daily: array<Daily>, data: seq<Hourly>, offset: int) returns (ok: bool)
    requires daily.Length > 0
    requires forall j :: 0 <= j < daily.Length ==> daily[j].hourly == []
    modifies daily
    ensures ok <==> Bucket(DayTimes(old(daily[..])), PrepareHours(data), offset).Some?
    ensures ok ==> forall j :: 0 <= j < daily.Length ==>
      daily[j] == old(daily[j]).(hourly := Bucket(DayTimes(old(daily[..])), PrepareHours(data), offset).value.lists[j])
  {
    ghost var times := DayTimes(daily[..]);
    ghost var hs := PrepareHours(data);
    var dailyIndex := 0;
    var dayEnd := EndOfDay(daily[0].time, offset);
    ghost var lists := EmptyLists(daily.Length);
    var n := 0;
    while n < |data|
      invariant 0 <= n <= |data| && 0 <= dailyIndex < daily.Length
      invariant Bucket(times, hs[..n], offset) == Some(Buckets(lists, dailyIndex))
      invariant forall j :: 0 <= j < daily.Length ==> daily[j] == old(daily[j]).(hourly := lists[j])
      invariant dayEnd == EndOfDay(times[dailyIndex], offset)
    {
      BucketSnoc(times, hs, n, Buckets(lists, dailyIndex), offset);
      ghost var before := daily[..];
      assert DayTimes(before) == times;
      ok, dailyIndex, dayEnd := PlaceHour(daily, data[n], dailyIndex, dayEnd, lists, offset);
      if !ok {
        BucketStaysFailed(times, hs, n + 1, offset);
        return;
      }
      lists := Bucket(times, hs[..n + 1], offset).value.lists;
      n := n + 1;
    }
    assert hs[..n] == hs;
    return true;
  }

  /** The callback of that `forEach` for one record; `lists` are the lists
      built so far, and the outcome is the model's Step. */
  method PlaceHour(daily: array<Daily>, record: Hourly, dailyIndex: nat, dayEnd: int, ghost lists: seq<seq<Hourly>>, offset: int)
    returns (ok: bool, newIndex: nat, newDayEnd: int)
    requires WellFormed(Buckets(lists, dailyIndex), daily.Length)
    requires forall j :: 0 <= j < daily.Length ==> daily[j].hourly == lists[j]
    requires dayEnd == EndOfDay(daily[dailyIndex].time, offset)
    modifies daily
    ensures var next := Step(DayTimes(old(daily[..])), Buckets(lists, dailyIndex), PrepareHourly(record), offset);
            && (ok <==> next.Some?)
            && (ok ==> newIndex == next.value.cursor && newDayEnd == EndOfDay(daily[newIndex].time, offset))
            && (ok ==> forall j :: 0 <= j < daily.Length ==> daily[j] == old(daily[j]).(hourly := next.value.lists[j]))
  {
    ghost var times := DayTimes(daily[..]);
    var h := PrepareHourly(record);
    StartsLaterDay(h.time, times[dailyIndex], offset);
    newIndex, newDayEnd := dailyIndex, dayEnd;
    if !(StartOfDay(h.time, offset) < dayEnd) {
      newIndex := dailyIndex + 1;
      if newIndex >= daily.Length {
        return false, newIndex, newDayEnd;
      }
      newDayEnd := EndOfDay(daily[newIndex].time, offset);
    }
    var list := daily[newIndex].hourly;
    daily[newIndex] := daily[newIndex].(hourly := list + [h.(index := Some(|list|))]);
    ok := true;
  }

  // ---------------------------------------------------------------------
  // Properties of the distribution.

  /** Once a record overran the daily records, the whole run fails. */
  lemma {:induction false} BucketStaysFailed(dayTimes: seq<int>, hs: seq<Hourly>, n: nat, offset: int)
    requires |dayTimes| > 0 && n <= |hs|
    requires Bucket(dayTimes, hs[..n], offset).None?
    ensures Bucket(dayTimes, hs, offset).None?
    decreases |hs| - n
  {
    if n < |hs| {
      assert hs[..n + 1][..n] == hs[..n];
      BucketStaysFailed(dayTimes, hs, n + 1, offset);
    } else {
      assert hs[..n] == hs;
    }
  }

  /** How the cursor moves on one record: it stays or advances by exactly one,
      it advances exactly when the record's local day is later than the
      current daily record's, and advancing from the last daily record fails. */
  lemma CursorStep(dayTimes: seq<int>, hs: seq<Hourly>, offset: int)
    requires |dayTimes| > 0 && |hs| > 0
    requires Bucket(dayTimes, hs[..|hs| - 1], offset).Some?
    ensures var c := Bucket(dayTimes, hs[..|hs| - 1], offset).value.cursor;
            var h := hs[|hs| - 1];
            var advances := !(StartOfDay(h.time, offset) < EndOfDay(dayTimes[c], offset));
            && (advances <==> DayOf(h.time, offset) > DayOf(dayTimes[c], offset))
            && (Bucket(dayTimes, hs, offset).Some? <==> !advances || c + 1 < |dayTimes|)
            && (Bucket(dayTimes, hs, offset).Some? ==>
                  Bucket(dayTimes, hs, offset).value.cursor == if advances then c + 1 else c)
  {
    var c := Bucket(dayTimes, hs[..|hs| - 1], offset).value.cursor;
    StartsLaterDay(hs[|hs| - 1].time, dayTimes[c], offset);
  }


  /** Concatenating the lists in `seq` order, the `flat` of the days' `hourly`. */
  function Flatten(lists: seq<seq<Hourly>>): (all: seq<Hourly>)
    ensures lists == [] ==> all == []
  {
    if lists == [] then [] else lists[0] + Flatten(lists[1..])
  }

  /** A record with its `index` cleared, to compare records before and after. */
  function Forget(s: seq<Hourly>): (r: seq<Hourly>)
    ensures |r| == |s|
  {
    seq(|s|, i requires 0 <= i < |s| => s[i].(index := None))
  }

  lemma {:induction false} FlattenEmpty(lists: seq<seq<Hourly>>)
    requires forall j :: 0 <= j < |lists| ==> lists[j] == []
    ensures Flatten(lists) == []
  {
    if lists != [] {
      FlattenEmpty(lists[1..]);
    }
  }

  lemma {:induction false} FlattenAppendAt(lists: seq<seq<Hourly>>, c: nat, x: Hourly)
    requires c < |lists|
    requires forall j :: c < j < |lists| ==> lists[j] == []
    ensures Flatten(lists[c := lists[c] + [x]]) == Flatten(lists) + [x]
  {
    var updated := lists[c := lists[c] + [x]];
    if c == 0 {
      FlattenEmpty(lists[1..]);
      assert updated[1..] == lists[1..];
    } else {
      assert updated[1..] == lists[1..][c - 1 := lists[c] + [x]];
      FlattenAppendAt(lists[1..], c - 1, x);
    }
  }

  lemma ForgetSnoc(s: seq<Hourly>, x: Hourly)
    ensures Forget(s + [x]) == Forget(s) + [x.(index := None)]
  {
  }

  /** One step keeps the concatenated lists equal to the records handled. */
  lemma StepPartition(dayTimes: seq<int>, st: Buckets, prefix: seq<Hourly>, h: Hourly, offset: int)
    requires WellFormed(st, |dayTimes|) && Step(dayTimes, st, h, offset).Some?
    requires Forget(Flatten(st.lists)) == Forget(prefix)
    ensures Forget(Flatten(Step(dayTimes, st, h, offset).value.lists)) == Forget(prefix + [h])
  {
    StepAppends(dayTimes, st, h, offset);
    var c := Step(dayTimes, st, h, offset).value.cursor;
    var x := h.(index := Some(|st.lists[c]|));
    FlattenAppendAt(st.lists, c, x);
    ForgetSnoc(Flatten(st.lists), x);
    ForgetSnoc(prefix, h);
  }

  /** Every hourly record ends up in exactly one day, in the original order:
      the days' lists, concatenated, are the input records. */
  lemma {:induction false} BucketPartition(dayTimes: seq<int>, hs: seq<Hourly>, offset: int)
    requires |dayTimes| > 0
    requires Bucket(dayTimes, hs, offset).Some?
    ensures Forget(Flatten(Bucket(dayTimes, hs, offset).value.lists)) == Forget(hs)
    decreases |hs|
  {
    if hs == [] {
      FlattenEmpty(EmptyLists(|dayTimes|));
    } else {
      var n := |hs| - 1;
      var prefix := hs[..n];
      assert Bucket(dayTimes, prefix, offset).Some?;
      BucketPartition(dayTimes, prefix, offset);
      var st := Bucket(dayTimes, prefix, offset).value;
      BucketSnoc(dayTimes, hs, n, st, offset);
      assert hs[..n + 1] == hs == prefix + [hs[n]];
      StepPartition(dayTimes, st, prefix, hs[n], offset);
    }
  }


  /** Every record's `index` is its position within its day's list. */
  predicate IndexedLists(lists: seq<seq<Hourly>>) {
    forall j, k :: 0 <= j < |lists| && 0 <= k < |lists[j]| ==> lists[j][k].index == Some(k)
  }

  lemma {:induction false} BucketIndices(dayTimes: seq<int>, hs: seq<Hourly>, offset: int)
    requires |dayTimes| > 0
    requires Bucket(dayTimes, hs, offset).Some?
    ensures IndexedLists(Bucket(dayTimes, hs, offset).value.lists)
    decreases |hs|
  {
    if hs != [] {
      BucketIndices(dayTimes, hs[..|hs| - 1], offset);
    }
  }

  // ---------------------------------------------------------------------
  // Under the shape a forecast normally has, each day receives exactly the
  // hours of that local day.

  /** Daily records on consecutive local days. */
  predicate ConsecutiveDays(dayTimes: seq<int>, offset: int)
    requires |dayTimes| > 0
  {
    forall j :: 0 <= j < |dayTimes| ==> DayOf(dayTimes[j], offset) == DayOf(dayTimes[0], offset) + j
  }

  /** Hourly records in time order that never skip a local day. */
  predicate SteadyHours(hs: seq<Hourly>, offset: int) {
    forall i :: 0 < i < |hs| ==> SteadyAt(hs, i, offset)
  }

  /** Record i is on the day of record i - 1 or on the next one. */
  predicate SteadyAt(hs: seq<Hourly>, i: int, offset: int)
    requires 0 < i < |hs|
  {
    DayOf(hs[i - 1].time, offset) <= DayOf(hs[i].time, offset) <= DayOf(hs[i - 1].time, offset) + 1
  }

  /** The hourly records of one local day, in order. */
  function OnDay(hs: seq<Hourly>, day: int, offset: int): (r: seq<Hourly>)
    ensures |r| <= |hs|
  {
    if hs == [] then []
    else OnDay(hs[..|hs| - 1], day, offset) + if DayOf(hs[|hs| - 1].time, offset) == day then [hs[|hs| - 1]] else []
  }

  /** The records, each with its position as `index`. */
  function Numbered(s: seq<Hourly>): (r: seq<Hourly>)
    ensures |r| == |s|
    ensures forall k :: 0 <= k < |s| ==> r[k] == s[k].(index := Some(k))
  {
    seq(|s|, k requires 0 <= k < |s| => s[k].(index := Some(k)))
  }

  lemma NumberedSnoc(s: seq<Hourly>, h: Hourly)
    ensures Numbered(s + [h]) == Numbered(s) + [h.(index := Some(|s|))]
  {
  }

  lemma OnDaySnoc(prefix: seq<Hourly>, h: Hourly, day: int, offset: int)
    ensures OnDay(prefix + [h], day, offset) == OnDay(prefix, day, offset) + if DayOf(h.time, offset) == day then [h] else []
  {
    assert (prefix + [h])[..|prefix|] == prefix;
  }

  /** On a steady run the cursor follows the day of the record. */
  lemma StepCursorByDay(dayTimes: seq<int>, st: Buckets, h: Hourly, offset: int)
    requires |dayTimes| > 0 && WellFormed(st, |dayTimes|) && ConsecutiveDays(dayTimes, offset)
    requires DayOf(dayTimes[st.cursor], offset) <= DayOf(h.time, offset) <= DayOf(dayTimes[st.cursor], offset) + 1
    requires DayOf(h.time, offset) < DayOf(dayTimes[0], offset) + |dayTimes|
    ensures Step(dayTimes, st, h, offset).Some?
    ensures Step(dayTimes, st, h, offset).value.cursor == DayOf(h.time, offset) - DayOf(dayTimes[0], offset)
  {
  }

  /** List j holds, numbered, the records of local day d0 + j. */
  predicate DayLists(lists: seq<seq<Hourly>>, hs: seq<Hourly>, d0: int, offset: int) {
    forall j :: 0 <= j < |lists| ==> lists[j] == Numbered(OnDay(hs, d0 + j, offset))
  }

  /** Appending a record of day d0 + c to list c keeps every list equal to
      the numbered records of its day. */
  lemma ListsByDay(lists: seq<seq<Hourly>>, updated: seq<seq<Hourly>>, prefix: seq<Hourly>, h: Hourly, c: nat, d0: int, offset: int)
    requires DayLists(lists, prefix, d0, offset)
    requires c < |lists| && DayOf(h.time, offset) == d0 + c
    requires updated == lists[c := lists[c] + [h.(index := Some(|lists[c]|))]]
    ensures DayLists(updated, prefix + [h], d0, offset)
  {
    forall j | 0 <= j < |updated|
      ensures updated[j] == Numbered(OnDay(prefix + [h], d0 + j, offset))
    {
      OnDaySnoc(prefix, h, d0 + j, offset);
      if j == c {
        NumberedSnoc(OnDay(prefix, d0 + j, offset), h);
      } else {
        assert OnDay(prefix + [h], d0 + j, offset) == OnDay(prefix, d0 + j, offset) + [];
      }
    }
  }

  /** A successful step appends to the list at the new cursor and changes no other list. */
  lemma StepAppends(dayTimes: seq<int>, st: Buckets, h: Hourly, offset: int)
    requires WellFormed(st, |dayTimes|) && Step(dayTimes, st, h, offset).Some?
    ensures var c := Step(dayTimes, st, h, offset).value.cursor;
            Step(dayTimes, st, h, offset).value.lists == st.lists[c := st.lists[c] + [h.(index := Some(|st.lists[c]|))]]
  {
  }

  /** One more record of a steady run lands in the list of its own day. */
  lemma ByDayExtend(dayTimes: seq<int>, d0: int, prefix: seq<Hourly>, st: Buckets, h: Hourly, offset: int)
    requires |dayTimes| > 0 && ConsecutiveDays(dayTimes, offset) && d0 == DayOf(dayTimes[0], offset)
    requires Bucket(dayTimes, prefix, offset) == Some(st)
    requires DayLists(st.lists, prefix, d0, offset)
    requires st.cursor == if prefix == [] then 0 else DayOf(prefix[|prefix| - 1].time, offset) - d0
    requires var last := if prefix == [] then d0 else DayOf(prefix[|prefix| - 1].time, offset);
      last <= DayOf(h.time, offset) <= last + 1
    requires DayOf(h.time, offset) < d0 + |dayTimes|
    ensures Bucket(dayTimes, prefix + [h], offset).Some?
    ensures DayLists(Bucket(dayTimes, prefix + [h], offset).value.lists, prefix + [h], d0, offset)
    ensures Bucket(dayTimes, prefix + [h], offset).value.cursor == DayOf(h.time, offset) - d0
  {
    assert (prefix + [h])[..|prefix|] == prefix;
    assert Bucket(dayTimes, prefix + [h], offset) == Step(dayTimes, st, h, offset);
    assert DayOf(dayTimes[st.cursor], offset) == d0 + st.cursor;
    StepCursorByDay(dayTimes, st, h, offset);
    StepAppends(dayTimes, st, h, offset);
    var st' := Step(dayTimes, st, h, offset).value;
    ListsByDay(st.lists, st'.lists, prefix, h, st'.cursor, d0, offset);
  }

  /** With daily records on consecutive days and hourly records that start on
      the first day (or the next) and never skip a day, the distribution
      succeeds as long as the last record falls on a day that has a daily
      record, and each day's list holds exactly that local day's records,
      numbered from 0. */
  lemma {:induction false} BucketsByDay(dayTimes: seq<int>, hs: seq<Hourly>, offset: int)
    requires |dayTimes| > 0 && ConsecutiveDays(dayTimes, offset) && SteadyHours(hs, offset)
    requires |hs| > 0 ==> DayOf(dayTimes[0], offset) <= DayOf(hs[0].time, offset) <= DayOf(dayTimes[0], offset) + 1
    requires |hs| > 0 ==> DayOf(hs[|hs| - 1].time, offset) < DayOf(dayTimes[0], offset) + |dayTimes|
    ensures Bucket(dayTimes, hs, offset).Some?
    ensures DayLists(Bucket(dayTimes, hs, offset).value.lists, hs, DayOf(dayTimes[0], offset), offset)
    ensures Bucket(dayTimes, hs, offset).value.cursor ==
      if hs == [] then 0 else DayOf(hs[|hs| - 1].time, offset) - DayOf(dayTimes[0], offset)
    decreases |hs|
  {
    if hs != [] {
      var prefix := hs[..|hs| - 1];
      var h := hs[|hs| - 1];
      assert SteadyHours(prefix, offset) by {
        forall i | 0 < i < |prefix| ensures SteadyAt(prefix, i, offset) {
          assert SteadyAt(hs, i, offset);
        }
      }
      if prefix != [] {
        assert prefix[|prefix| - 1] == hs[|hs| - 2];
        assert SteadyAt(hs, |hs| - 1, offset);
      }
      BucketsByDay(dayTimes, prefix, offset);
      ByDayExtend(dayTimes, DayOf(dayTimes[0], offset), prefix, Bucket(dayTimes, prefix, offset).value, h, offset);
      assert hs == prefix + [h];
    }
  }

  /** The reshaped days, flattened, hold the prepared hourly records. */
  lemma ReshapeKeepsEveryHour(daily: seq<Daily>, block: HourlyBlock, offset: int)
    requires ReshapeSpec(daily, Some(block), offset).Some?
    ensures var r := ReshapeSpec(daily, Some(block), offset).value;
            Forget(Flatten(seq(|r|, j requires 0 <= j < |r| => r[j].hourly))) == Forget(PrepareHours(block.data))
  {
    var ds := PrepareDays(daily);
    var st := Bucket(DayTimes(ds), PrepareHours(block.data), offset).value;
    var r := ReshapeSpec(daily, Some(block), offset).value;
    BucketPartition(DayTimes(ds), PrepareHours(block.data), offset);
    assert seq(|r|, j requires 0 <= j < |r| => r[j].hourly) == st.lists;
  }
}
