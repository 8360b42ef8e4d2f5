/**
 The integer-minute arithmetic of the hour sidebar (`ScheduleSidebar`): how
 many hour labels it shows, the spacer in minutes above the first label, and
 the label times. `BasicSchedule` counts its grid hours with the same formula.

 `LocalTime.plusHours` wraps at midnight, so for a `minTime` after 23:00 that
 is not on the hour the source's spacer is negative and its first label is
 00:00, before `minTime`. `SidebarAsWritten` is the code as written;
 `Sidebar` computes the next hour without the wrap, which is what the rest of
 the code expects.
 */
module Sidebar {
  import opened ScheduleTypes

  /** `LocalTime.truncatedTo(ChronoUnit.HOURS)`: the hour `t` falls in. */
  function TruncateToHour(t: TimeOfDay): (h: TimeOfDay)
    ensures h % NanosPerHour == 0
    ensures h <= t < h + NanosPerHour
  {
    t - t % NanosPerHour
  }

  /** `LocalTime.plusHours(n)`: `n` hours later on a 24-hour clock face. */
  function PlusHours(t: TimeOfDay, n: int): (r: TimeOfDay)
    ensures (t + n * NanosPerHour - r) % NanosPerDay == 0
    ensures 0 <= t + n * NanosPerHour < NanosPerDay ==> r == t + n * NanosPerHour
  {
    (t + n * NanosPerHour) % NanosPerDay
  }

  /**
   `numHours = (MINUTES.between(minTime, maxTime) + 1) / 60` with Kotlin's
   truncating `/`: the number of whole hours in the span from `minTime` to
   one minute past `maxTime`.
   */
  function HourCount(minTime: TimeOfDay, maxTime: TimeOfDay): (n: int)
    ensures minTime <= maxTime ==>
      0 <= n <= 24 &&
      n * NanosPerHour <= maxTime - minTime + NanosPerMinute < (n + 1) * NanosPerHour
    ensures maxTime < minTime ==> n <= 0
  {
    TruncDiv(MinutesBetween(minTime, maxTime) + 1, 60)
  }

  /** The `repeat(numHours)` loop: label `i` shows `start` plus `i` hours. */
  function HourLabels(start: TimeOfDay, n: int): (r: seq<TimeOfDay>)
    ensures |r| == if n > 0 then n else 0
    ensures forall i :: 0 <= i < |r| ==> (start + i * NanosPerHour - r[i]) % NanosPerDay == 0
    ensures start % NanosPerHour == 0 ==> forall i :: 0 <= i < |r| ==> r[i] % NanosPerHour == 0
  {
    var r := seq(if n > 0 then n else 0, i requires 0 <= i => PlusHours(start, i));
    assert start % NanosPerHour == 0 ==> forall i :: 0 <= i < |r| ==> r[i] % NanosPerHour == 0 by {
      if start % NanosPerHour == 0 {
        forall i | 0 <= i < |r| ensures r[i] % NanosPerHour == 0 {
          PlusHoursAligned(start, i);
        }
      }
    }
    r
  }

  /** An hour-aligned time stays hour-aligned however many hours are added. */
  lemma PlusHoursAligned(t: TimeOfDay, n: int)
    requires t % NanosPerHour == 0
    ensures PlusHours(t, n) % NanosPerHour == 0
  {
    var a := t / NanosPerHour;
    var k := (a + n) / 24;
    var m := (a + n) % 24;
    assert t == a * NanosPerHour;
    assert t + n * NanosPerHour == k * NanosPerDay + m * NanosPerHour;
    assert PlusHours(t, n) == m * NanosPerHour;
  }

  /** The sidebar: the spacer height in minutes and the label times from top to bottom. */
  datatype SidebarLayout = SidebarLayout(spacerMinutes: int, labels: seq<TimeOfDay>)

  /** `ScheduleSidebar` as written, with the wrap of `plusHours(1)`. */
  function SidebarAsWritten(minTime: TimeOfDay, maxTime: TimeOfDay): (s: SidebarLayout)
    ensures |s.labels| == if HourCount(minTime, maxTime) > 0 then HourCount(minTime, maxTime) else 0
    ensures forall i :: 0 <= i < |s.labels| ==> s.labels[i] % NanosPerHour == 0
  {
    var firstHour := TruncateToHour(minTime);
    var offset := if firstHour == minTime then 0 else MinutesBetween(minTime, PlusHours(firstHour, 1));
    var startTime := if firstHour == minTime then firstHour else PlusHours(firstHour, 1);
    SidebarLayout(offset, HourLabels(startTime, HourCount(minTime, maxTime)))
  }

  /**
   The first label's instant: `minTime` itself when it is on the hour, the
   next full hour otherwise, counted on from `minTime`'s midnight (24:00 when
   `minTime` is after 23:00).
   */
  function FirstLabel(minTime: TimeOfDay): (h: int)
    ensures h % NanosPerHour == 0
    ensures minTime <= h < minTime + NanosPerHour
    ensures h == minTime <==> minTime % NanosPerHour == 0
  {
    var firstHour := TruncateToHour(minTime);
    if firstHour == minTime then firstHour else firstHour + NanosPerHour
  }

  /**
   The sidebar as evidently intended: the spacer is the whole minutes from
   `minTime` to the first label, never negative and at most 59, and the labels
   show the first label's hour and the hours after it.
   */
  function Sidebar(minTime: TimeOfDay, maxTime: TimeOfDay): (s: SidebarLayout)
    ensures 0 <= s.spacerMinutes <= 59
    ensures s.spacerMinutes * NanosPerMinute <= FirstLabel(minTime) - minTime < (s.spacerMinutes + 1) * NanosPerMinute
    ensures |s.labels| == if HourCount(minTime, maxTime) > 0 then HourCount(minTime, maxTime) else 0
    ensures forall i :: 0 <= i < |s.labels| ==>
      s.labels[i] % NanosPerHour == 0 && (FirstLabel(minTime) + i * NanosPerHour - s.labels[i]) % NanosPerDay == 0
  {
    var first := FirstLabel(minTime);
    var start := first % NanosPerDay;
    assert (first - start) % NanosPerDay == 0;
    SidebarLayout(TruncDiv(first - minTime, NanosPerMinute), HourLabels(start, HourCount(minTime, maxTime)))
  }

  /** Up to 23:00, or on the hour, the code as written computes the intended sidebar. */
  lemma SidebarAgrees(minTime: TimeOfDay, maxTime: TimeOfDay)
    requires minTime <= 23 * NanosPerHour || minTime % NanosPerHour == 0
    ensures SidebarAsWritten(minTime, maxTime) == Sidebar(minTime, maxTime)
  {
    var firstHour := TruncateToHour(minTime);
    if firstHour != minTime {
      assert firstHour + NanosPerHour <= 23 * NanosPerHour;
      assert PlusHours(firstHour, 1) == firstHour + NanosPerHour == FirstLabel(minTime);
    }
  }

  /**
   After 23:00, off the hour, the code as written makes the spacer at least
   23 hours negative, and its first label, when there is one, is 00:00.
   */
  lemma SidebarWrapsAfterEleven(minTime: TimeOfDay, maxTime: TimeOfDay)
    requires 23 * NanosPerHour < minTime && minTime % NanosPerHour != 0
    ensures SidebarAsWritten(minTime, maxTime).spacerMinutes <= -1380
    ensures Sidebar(minTime, maxTime).spacerMinutes >= 0
    ensures |SidebarAsWritten(minTime, maxTime).labels| > 0 ==>
      SidebarAsWritten(minTime, maxTime).labels[0] == 0 < minTime
  {
  }

  /** The concrete case `minTime` = 23:00:01 with the default `maxTime`: spacer -1380 minutes instead of 59. */
  lemma SidebarAtElevenPlusOneSecond()
    ensures var minTime := 23 * NanosPerHour + 1_000_000_000;
      SidebarAsWritten(minTime, MaxTime) == SidebarLayout(-1380, [0]) &&
      Sidebar(minTime, MaxTime) == SidebarLayout(59, [0])
  {
  }
}
