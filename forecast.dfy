/**
  The six-hour forecast window of `setWeather` (src/main.ts:189-200): six
  consecutive hourly entries starting at the reference hour, continuing into
  the next day's hours when the window runs past midnight.
*/
module Forecast {
  import opened WeatherTypes

  function Min(a: int, b: int): int { if a <= b then a else b }

  /**
    `Array.prototype.slice(start, end)` for non-negative bounds: both bounds
    are clamped to the length, and an empty range gives the empty array.
  */
  function Slice<T>(s: seq<T>, start: nat, end: nat): (r: seq<T>)
    ensures start <= end <= |s| ==> r == s[start..end]
    ensures |s| <= start || end <= start ==> r == []
    ensures start <= |s| <= end ==> r == s[start..]
  {
    var lo := Min(start, |s|);
    var hi := Min(end, |s|);
    if lo < hi then s[lo..hi] else []
  }

  /** Whether the window starting at `time` stays within the first day (23 - time >= 5). */
  predicate SameDay(time: nat)
  {
    23 - time >= 5
  }

  /**
    The window as the source builds it: hours [time, time + 6) of the first
    day, or, past midnight, hours [time, 24) of the first day followed by
    the first 5 - (23 - time) hours of the second.
  */
  function Window(time: nat, days: seq<Days>): (hours: seq<Hours>)
    requires |days| >= 1
    requires !SameDay(time) ==> |days| >= 2
    ensures time <= 23 ==> |hours| <= 6
    ensures time <= 23 && |days[0].hours| >= 24 && (!SameDay(time) ==> |days[1].hours| >= time - 18)
      ==> |hours| == 6
  {
    if SameDay(time) then
      Slice(days[0].hours, time, time + 6)
    else
      var difference := 23 - time;
      var requiredNumberOfDays := 5 - difference;
      Slice(days[0].hours, time, time + difference + 1) + Slice(days[1].hours, 0, requiredNumberOfDays)
  }

  /** Preconditions under which the window has its full six entries: 24 hours a day, time an hour. */
  predicate FullDays(time: nat, days: seq<Days>)
  {
    time <= 23 && |days| >= 2 && |days[0].hours| == 24 && |days[1].hours| == 24
  }

  /** The first two days' hours end to end: hour t of this timeline is t hours after midnight. */
  function Timeline(days: seq<Days>): seq<Hours>
    requires |days| >= 2
  {
    days[0].hours + days[1].hours
  }

  /** Before 19:00 the window is hours [time, time + 6) of the first day, verbatim. */
  lemma WindowSameDay(time: nat, days: seq<Days>)
    requires |days| >= 1 && time <= 18 && |days[0].hours| == 24
    ensures Window(time, days) == days[0].hours[time..time + 6]
  {
  }

  /**
    From 19:00 on the window is the first day's hours from `time` to midnight,
    then the second day's first time - 18 hours; together six entries.
  */
  lemma WindowCrossesMidnight(time: nat, days: seq<Days>)
    requires FullDays(time, days) && time >= 19
    ensures Window(time, days) == days[0].hours[time..] + days[1].hours[..time - 18]
    ensures |Window(time, days)| == 6
  {
  }

  /** At 23:00 the window is the last hour of today and the first five of tomorrow. */
  lemma WindowAtElevenPm(days: seq<Days>)
    requires FullDays(23, days)
    ensures Window(23, days) == [days[0].hours[23]] + days[1].hours[..5]
  {
    WindowCrossesMidnight(23, days);
    assert days[0].hours[23..] == [days[0].hours[23]];
  }

  /**
    For every reference hour the window is the six consecutive entries of the
    two-day timeline starting at that hour: entry k is the forecast for
    time + k hours after today's midnight, from whichever day it falls in.
  */
  lemma {:induction false} WindowIsConsecutive(time: nat, days: seq<Days>)
    requires FullDays(time, days)
    ensures Window(time, days) == Timeline(days)[time..time + 6]
    ensures forall k :: 0 <= k < 6 ==>
      Window(time, days)[k] == if time + k < 24 then days[0].hours[time + k] else days[1].hours[time + k - 24]
  {
    var w := Window(time, days);
    var t := Timeline(days);
    if time <= 18 {
      WindowSameDay(time, days);
      assert t[time..time + 6] == days[0].hours[time..time + 6];
    } else {
      WindowCrossesMidnight(time, days);
      assert t[time..time + 6] == days[0].hours[time..] + days[1].hours[..time - 18];
    }
    assert w == t[time..time + 6];
    forall k | 0 <= k < 6
      ensures w[k] == if time + k < 24 then days[0].hours[time + k] else days[1].hours[time + k - 24]
    {
      assert w[k] == t[time + k];
    }
  }

  /** The window never reads days[1] before 19:00, so a one-day payload suffices then. */
  lemma WindowIgnoresLaterDays(time: nat, days: seq<Days>, other: seq<Days>)
    requires |days| >= 1 && |other| >= 1 && time <= 18 && days[0] == other[0]
    ensures Window(time, days) == Window(time, other)
  {
  }
}
