/**
 The integer-minute part of how `BasicSchedule` places a segment: how far
 below `minTime` its box starts (`taskOffsetMinutes`) and how tall it is
 (`taskDurationMinutes`). The conversion of minutes to pixels is left out.

 The offset clips the segment's start at `minTime`, but the duration is
 measured from the unclipped start, so a segment that starts before
 `minTime` is drawn as if it ended later than it does. `BoxAsWritten` is the
 code as written; `PlacedBox` measures the duration from the clipped start.
 */
module Placement {
  import opened ScheduleTypes

  function Min(a: TimeOfDay, b: TimeOfDay): TimeOfDay
  {
    if a <= b then a else b
  }

  function Max(a: TimeOfDay, b: TimeOfDay): TimeOfDay
  {
    if a <= b then b else a
  }

  /** A segment's box on the grid, in whole minutes below `minTime`. */
  datatype TaskBox = TaskBox(offsetMinutes: int, durationMinutes: int)

  /**
   `taskOffsetMinutes`: the whole minutes from `minTime` to the segment's
   start, or 0 when the segment starts at or before `minTime`.
   */
  function OffsetMinutes(p: PositionedTask, minTime: TimeOfDay): (m: int)
    ensures m >= 0
    ensures m * NanosPerMinute <= Max(p.start, minTime) - minTime < (m + 1) * NanosPerMinute
  {
    if p.start > minTime then MinutesBetween(minTime, p.start) else 0
  }

  /** The box as written: the duration runs from the segment's own start to its end clipped at `maxTime`. */
  function BoxAsWritten(p: PositionedTask, minTime: TimeOfDay, maxTime: TimeOfDay): (b: TaskBox)
    ensures p.start <= Min(p.end, maxTime) ==>
      b.durationMinutes * NanosPerMinute <= Min(p.end, maxTime) - p.start < (b.durationMinutes + 1) * NanosPerMinute
  {
    TaskBox(OffsetMinutes(p, minTime), MinutesBetween(p.start, Min(p.end, maxTime)))
  }

  /**
   The box as evidently intended: the duration runs from the start clipped at
   `minTime` to the end clipped at `maxTime`. For a segment that reaches into
   the window, the box's bottom is within two minutes above the clipped end.
   */
  function PlacedBox(p: PositionedTask, minTime: TimeOfDay, maxTime: TimeOfDay): (b: TaskBox)
    ensures b.offsetMinutes >= 0
    ensures p.start <= p.end && p.end > minTime && p.start < maxTime && minTime <= maxTime ==>
      && b.durationMinutes >= 0
      && (b.offsetMinutes + b.durationMinutes) * NanosPerMinute <= Min(p.end, maxTime) - minTime
      && Min(p.end, maxTime) - minTime < (b.offsetMinutes + b.durationMinutes + 2) * NanosPerMinute
  {
    TaskBox(OffsetMinutes(p, minTime), MinutesBetween(Max(p.start, minTime), Min(p.end, maxTime)))
  }

  /** A segment that starts at or after `minTime` gets the same box either way. */
  lemma BoxAgrees(p: PositionedTask, minTime: TimeOfDay, maxTime: TimeOfDay)
    requires minTime <= p.start
    ensures BoxAsWritten(p, minTime, maxTime) == PlacedBox(p, minTime, maxTime)
  {
  }

  /**
   A segment that starts a minute or more before `minTime` is drawn, as
   written, with its bottom past its clipped end.
   */
  lemma BoxAsWrittenOvershoots(p: PositionedTask, minTime: TimeOfDay, maxTime: TimeOfDay)
    requires p.start <= p.end && p.end > minTime && p.start < maxTime && minTime <= maxTime
    requires p.start + NanosPerMinute <= minTime
    ensures var b := BoxAsWritten(p, minTime, maxTime);
      b.offsetMinutes == 0 &&
      (b.offsetMinutes + b.durationMinutes) * NanosPerMinute > Min(p.end, maxTime) - minTime
  {
  }

  /** With `minTime` 8:00, a 7:00-9:00 segment is drawn from 8:00 for 120 minutes instead of 60. */
  lemma BoxSevenToNine()
    ensures var task := Task("t", DateTime(0, 7 * NanosPerHour), DateTime(0, 9 * NanosPerHour));
      var p := PositionedTask(task, None, 0, 7 * NanosPerHour, 9 * NanosPerHour, 0, 1, 1);
      BoxAsWritten(p, 8 * NanosPerHour, MaxTime) == TaskBox(0, 120) &&
      PlacedBox(p, 8 * NanosPerHour, MaxTime) == TaskBox(0, 60)
  {
  }
}
