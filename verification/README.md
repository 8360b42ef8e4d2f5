# FocusBloom day-schedule layout, modelled in Dafny

FocusBloom's calendar screen lays out a day's tasks in the `ScheduleSidebar` /
`BasicSchedule` composables of `CalendarScreen.kt`. The layout engine at the
bottom of that file has three parts:

- `splitTasks` cuts every task into one `PositionedTask` per calendar day it touches.
- `overlapsWith` and `timesOverlapWith` test half-open time ranges on one date.
- `arrangeTasks` packs the segments greedily into columns. It flushes each group of
  columns with `resetGroup`, which sets `col` and `colTotal`.

`BasicSchedule` runs them as
`arrangeTasks(splitTasks(tasks.sortedBy(Task::start)))`. It then keeps only
the segments that reach into the window from `minTime` to `maxTime`.

The model also covers two pieces of integer-minute arithmetic:

- the hour sidebar: the label count, the first label and the spacer above it;
- the offset and height, in minutes, of each segment's box.

Data model (`schedule_types.dfy`):

- A `LocalDate` is its epoch day (`int`).
- A `LocalTime` is its nanosecond of the day (`TimeOfDay`, from 0 to `MaxTime` = 86 399 999 999 999).
- A `LocalDateTime` is a `DateTime(date, time)`.
- A `Task` keeps its name, start and end.
- A `PositionedTask` has the source's eight fields.
- `SplitType` is a datatype with the source's four values. Their integer encoding in the inline class is not modelled, because the layout only compares them.

Every operation is a pure function. Compose's `remember` cache is not modelled (see "## Left out").

- `arrangeTasks`, which mutates a local list of columns, is a left fold of `Step` over a `Packing`.
  - A `Packing` holds the groups flushed so far and the columns of the open group.
  - `Arrange` concatenates one flushed group per `resetGroup` call.
- "Same segment up to column data" is `Unplaced`, which resets `col`, `colSpan` and `colTotal` to the defaults.
  - `Keys` applies `Unplaced` to a whole sequence.

Modules, one per part:

- `ScheduleTypes`: the data, plus `MinutesBetween` (`ChronoUnit.MINUTES.between`, truncating toward zero).
- `Split`: `splitTasks`.
- `Overlap`: `overlapsWith`, `timesOverlapWith`.
- `Columns`: column lists and `resetGroup`.
- `Packer`: the scan for `firstFreeCol`/`numFreeCol`, the three branches of the `when`, the fold, and the invariants of the fold.
- `NoCollision`: the same-`col` no-collision theorem for one sorted day, and examples of where it stops.
- `Schedule`: the stable sort, the visible-window filter and the whole pipeline.
- `Sidebar` and `Placement`: the minute arithmetic.
- `LayoutExamples`: worked examples of grouping and of widening.

With an empty group the `when` tests `firstFreeCol < 0` first, so the
new-column branch runs; the state is the same as a reset would give.
`Packer.StepOpensColumn` states this: its precondition holds vacuously for an
empty group.

## Model

| member | source | states |
|---|---|---|
| ScheduleTypes.TruncDiv | android/src/main/java/com/joelkanyi/focusbloom/android/ui/screens/calendar/CalendarScreen.kt:223-224 | Kotlin's `/` truncates toward zero: for `a >= 0` the remainder `a - q*b` lies in `[0, b)`, for `a < 0` in `(-b, 0]`. |
| ScheduleTypes.MinutesBetween | android/src/main/java/com/joelkanyi/focusbloom/android/ui/screens/calendar/CalendarScreen.kt:223 | `ChronoUnit.MINUTES.between(a, b)` (also at lines 227, 420 and 437) is the whole minutes from `a` to `b`, truncated toward zero: non-negative with `m` minutes at most `b - a` and `m + 1` more when `a <= b`, and the mirror image when `b < a`. |
| Split.DayPiece | android/src/main/java/com/joelkanyi/focusbloom/android/ui/screens/calendar/CalendarScreen.kt:531-539 | Day `i` of a multi-day task is dated start date + `i`. The first day is tagged `End` with bounds [task start time, MAX]. The last day is tagged `Start` with [MIN, task end time]. Any other day is tagged `Both` with [MIN, MAX]. The column fields keep their defaults. |
| Split.DayPieces | android/src/main/java/com/joelkanyi/focusbloom/android/ui/screens/calendar/CalendarScreen.kt:531-540 | The loop `for (i in from..days)` yields `days - from + 1` pieces (none when `from > days`). Piece `k` is day `from + k`. |
| Split.SplitTask | android/src/main/java/com/joelkanyi/focusbloom/android/ui/screens/calendar/CalendarScreen.kt:515-543 | A single-day task yields exactly one `None` segment with the task's own times. A task over `d > 0` days yields `d + 1` segments, dated start date + 0 … + d. The first is `End` [start time, MAX], the last `Start` [MIN, end time], interior ones `Both` [MIN, MAX]. Every date lies between the task's start and end dates. A task ending on an earlier date yields none. |
| Split.SplitTasks | android/src/main/java/com/joelkanyi/focusbloom/android/ui/screens/calendar/CalendarScreen.kt:513-545 | A segment is in the output iff it is a segment of some input task. Every output segment has col 0, span 1, total 1. |
| Split.SplitTasksSingle | android/src/main/java/com/joelkanyi/focusbloom/android/ui/screens/calendar/CalendarScreen.kt:514-544 | `map` then `flatten` gives a one-task list exactly that task's segments. |
| Split.SplitTasksAppend | android/src/main/java/com/joelkanyi/focusbloom/android/ui/screens/calendar/CalendarScreen.kt:514-544 | `flatten` keeps task order and multiplicity: the segments of `a + b` are those of `a` followed by those of `b`. |
| Split.SplitCoversTask | android/src/main/java/com/joelkanyi/focusbloom/android/ui/screens/calendar/CalendarScreen.kt:515-543 | Splitting loses and adds no time. A date-time is held by some segment of the task iff it lies between the task's start and end. |
| Split.SplitRejoins | android/src/main/java/com/joelkanyi/focusbloom/android/ui/screens/calendar/CalendarScreen.kt:518-540 | When the task does not end on an earlier date, the first segment starts at the task's start and the last ends at the task's end. |
| Split.SplitContiguous | android/src/main/java/com/joelkanyi/focusbloom/android/ui/screens/calendar/CalendarScreen.kt:531-539 | Consecutive segments are on consecutive days and meet at midnight: one ends at MAX, the next starts at MIN. |
| Split.SplitThreeDays | android/src/main/java/com/joelkanyi/focusbloom/android/ui/screens/calendar/CalendarScreen.kt:529-540 | A task from day 0 14:00 to day 2 10:00 gives `End` [14:00, MAX], `Both` [MIN, MAX], `Start` [MIN, 10:00]. |
| Overlap.Overlaps | android/src/main/java/com/joelkanyi/focusbloom/android/ui/screens/calendar/CalendarScreen.kt:547-549 | Segments on different dates never overlap. Segments that only touch (`a.end <= b.start`, either way round) do not overlap. |
| Overlap.OverlapsSymmetric | android/src/main/java/com/joelkanyi/focusbloom/android/ui/screens/calendar/CalendarScreen.kt:548 | `overlapsWith` is symmetric. |
| Overlap.OverlapsSelf | android/src/main/java/com/joelkanyi/focusbloom/android/ui/screens/calendar/CalendarScreen.kt:548 | A segment overlaps itself iff its start is before its end. |
| Overlap.OverlapsIgnoresColumns | android/src/main/java/com/joelkanyi/focusbloom/android/ui/screens/calendar/CalendarScreen.kt:548 | The overlap test ignores `col`, `colSpan` and `colTotal`, so packing never changes it. |
| Overlap.OverlapsIffSharedInstant | android/src/main/java/com/joelkanyi/focusbloom/android/ui/screens/calendar/CalendarScreen.kt:547-549 | For segments of positive length, they overlap iff they are on one date and some instant lies in both half-open ranges. |
| Overlap.AnyOverlaps | android/src/main/java/com/joelkanyi/focusbloom/android/ui/screens/calendar/CalendarScreen.kt:551-553 | `timesOverlapWith` is true iff some segment of the column overlaps the task. |
| Columns.Label | android/src/main/java/com/joelkanyi/focusbloom/android/ui/screens/calendar/CalendarScreen.kt:560-563 | Relabelling a column keeps each segment up to column data and keeps its span. It sets `col` to the column index and `colTotal` to the group size. |
| Columns.FlushFrom | android/src/main/java/com/joelkanyi/focusbloom/android/ui/screens/calendar/CalendarScreen.kt:559-566 | Columns `i` onward come out with the same segments in column order. Every `col` lies between `i` and the column count, and `colTotal` is the group size. |
| Columns.FlushFromHolds | android/src/main/java/com/joelkanyi/focusbloom/android/ui/screens/calendar/CalendarScreen.kt:559-562 | Segment `k` of column `c` (for `c >= i`) comes out as itself with `col = c` and `colTotal` the group size, its span and everything else kept. |
| Columns.FlushFromSpans | android/src/main/java/com/joelkanyi/focusbloom/android/ui/screens/calendar/CalendarScreen.kt:559-566 | If every segment of column `c` has span at least 1 and `c + span` at most the column count, then each flushed segment has `1 <= colSpan` and `col + colSpan <= colTotal`. |
| Columns.FlushFromClear | android/src/main/java/com/joelkanyi/focusbloom/android/ui/screens/calendar/CalendarScreen.kt:559-566 | If no column holds two overlapping segments, no two flushed segments with the same `col` overlap. |
| Columns.Flush | android/src/main/java/com/joelkanyi/focusbloom/android/ui/screens/calendar/CalendarScreen.kt:559-566 | `resetGroup` emits exactly the group's segments, up to column data. Each has `0 <= col < colTotal` and `colTotal` equal to the column count. Clear columns give a flushed group with no same-`col` overlap. Fitting spans give `col + colSpan <= colTotal`. |
| Columns.FlushHolds | android/src/main/java/com/joelkanyi/focusbloom/android/ui/screens/calendar/CalendarScreen.kt:559-562 | `resetGroup` numbers columns left to right. Segment `k` of column `c` comes out as itself with `col = c` and `colTotal` the column count, its span and all other fields kept. |
| Columns.FlushSingle | android/src/main/java/com/joelkanyi/focusbloom/android/ui/screens/calendar/CalendarScreen.kt:559-566 | A group of one column holding one segment flushes to that segment in column 0 of 1. |
| Packer.Scan | android/src/main/java/com/joelkanyi/focusbloom/android/ui/screens/calendar/CalendarScreen.kt:571-578 | From any point of the column loop, the scan ends with the run `RunSpec` describes. Either no column is free (`firstFreeCol = -1`), or the run is the leftmost free column and the unbroken count of free columns from it. |
| Packer.FreeRun | android/src/main/java/com/joelkanyi/focusbloom/android/ui/screens/calendar/CalendarScreen.kt:568-578 | The scan's `firstFreeCol` and `numFreeCol` meet `RunSpec`. The free run is contiguous and stays below `groupTasks.size`. |
| Packer.RunSpecUnique | android/src/main/java/com/joelkanyi/focusbloom/android/ui/screens/calendar/CalendarScreen.kt:568-578 | At most one run meets `RunSpec`, so that description determines the scan's result. |
| Packer.WidenColumn | android/src/main/java/com/joelkanyi/focusbloom/android/ui/screens/calendar/CalendarScreen.kt:587-590 | Widening one column keeps its segments, their `col` and their `colTotal`. A span grows by exactly one if and only if the segment has `ci + colSpan == size - 1` and does not overlap the new task; otherwise it is kept. |
| Packer.Widen | android/src/main/java/com/joelkanyi/focusbloom/android/ui/screens/calendar/CalendarScreen.kt:583-592 | After a column is appended, the new last column is untouched and every column keeps its segments. In every earlier column a span grows by one if and only if the test at line 588 holds, and is kept otherwise. |
| Packer.StepOpensColumn | android/src/main/java/com/joelkanyi/focusbloom/android/ui/screens/calendar/CalendarScreen.kt:580-593 | A segment that overlaps every column opens a new last column holding just itself, and the flushed groups stay as they were. This includes an empty group. |
| Packer.StepStartsGroup | android/src/main/java/com/joelkanyi/focusbloom/android/ui/screens/calendar/CalendarScreen.kt:595-598 | A segment that overlaps no column of a non-empty group flushes the group (colTotal = its column count). It then starts a group of one column holding just the segment. |
| Packer.StepJoinsColumn | android/src/main/java/com/joelkanyi/focusbloom/android/ui/screens/calendar/CalendarScreen.kt:600-602 | Otherwise the segment is appended to column `firstFreeCol` with `colSpan = numFreeCol`, and nothing else changes. |
| Packer.StepHolds | android/src/main/java/com/joelkanyi/focusbloom/android/ui/screens/calendar/CalendarScreen.kt:580-603 | Each step either adds its segment to the open columns and keeps the flushed groups, or flushes the open group and leaves only the segment open. |
| Packer.StepKeepsSegments | android/src/main/java/com/joelkanyi/focusbloom/android/ui/screens/calendar/CalendarScreen.kt:580-603 | A step adds exactly its segment, up to column data, to what the packer holds. |
| Packer.PackKeepsSegments | android/src/main/java/com/joelkanyi/focusbloom/android/ui/screens/calendar/CalendarScreen.kt:568-604 | After the loop, the packer holds exactly what it held before plus the input segments, counted with multiplicity and up to column data. |
| Packer.ArrangePermutes | android/src/main/java/com/joelkanyi/focusbloom/android/ui/screens/calendar/CalendarScreen.kt:555-607 | `arrangeTasks` outputs a permutation of its input up to column data. Every segment appears exactly once with task, split type, date, start and end unchanged, and the output is as long as the input. |
| Packer.StepKeepsColumnsClear | android/src/main/java/com/joelkanyi/focusbloom/android/ui/screens/calendar/CalendarScreen.kt:571-602 | A segment is only added to a column holding nothing it overlaps, so no open column ever holds two overlapping segments. |
| Packer.StepKeepsSpans | android/src/main/java/com/joelkanyi/focusbloom/android/ui/screens/calendar/CalendarScreen.kt:576-601 | For a segment of span 1, every open segment in column `c` keeps `1 <= colSpan` and `c + colSpan <= size`. |
| Packer.PackKeepsPlaced | android/src/main/java/com/joelkanyi/focusbloom/android/ui/screens/calendar/CalendarScreen.kt:568-604 | Through the loop, open columns stay clear and every flushed group stays placed. |
| Packer.PackKeepsSpans | android/src/main/java/com/joelkanyi/focusbloom/android/ui/screens/calendar/CalendarScreen.kt:568-604 | For input segments of span 1, spans stay within their group through the loop. |
| Packer.ArrangeGroupsPlaced | android/src/main/java/com/joelkanyi/focusbloom/android/ui/screens/calendar/CalendarScreen.kt:555-607 | Every `resetGroup` call emits segments with `0 <= col < colTotal` and one shared `colTotal`. No two of its segments with the same `col` overlap. |
| Packer.ArrangeColumnBounds | android/src/main/java/com/joelkanyi/focusbloom/android/ui/screens/calendar/CalendarScreen.kt:559-566 | Every output segment has `0 <= col < colTotal`, hence `colTotal >= 1`. |
| Packer.ArrangeSpanBounds | android/src/main/java/com/joelkanyi/focusbloom/android/ui/screens/calendar/CalendarScreen.kt:555-607 | When every input segment has `colSpan = 1`, every output segment has `1 <= colSpan` and `col + colSpan <= colTotal`. |
| NoCollision.StepKeepsFrontier | android/src/main/java/com/joelkanyi/focusbloom/android/ui/screens/calendar/CalendarScreen.kt:580-603 | On one date, for a segment of positive length starting no earlier than any open segment, a step keeps the invariant. The output so far is collision-free, open columns are clear, and flushed segments end before open ones start. |
| NoCollision.PackKeepsFrontier | android/src/main/java/com/joelkanyi/focusbloom/android/ui/screens/calendar/CalendarScreen.kt:568-604 | The same invariant holds through the loop over one date's segments sorted by start. |
| NoCollision.ArrangeNoCollision | android/src/main/java/com/joelkanyi/focusbloom/android/ui/screens/calendar/CalendarScreen.kt:555-607 | For segments that share one date, have positive length and are sorted by start, no two output segments with the same `col` overlap, across groups as well as within one. |
| NoCollision.ZeroLengthCollides | android/src/main/java/com/joelkanyi/focusbloom/android/ui/screens/calendar/CalendarScreen.kt:555-607 | The positive-length condition is needed. Take 9:00-10:00, a zero-length 9:00, then 9:00-10:00 again. Each segment starts a new group, and both 9:00-10:00 segments come out in column 0. |
| NoCollision.MultiDayCollides | android/src/main/java/com/joelkanyi/focusbloom/android/ui/screens/calendar/CalendarScreen.kt:513-607 | The one-date condition is needed. For tasks A (day 0 10:00 to day 1 12:00) and B (day 0 11:00-13:00), sorted by start, `splitTasks` yields A's two pieces and then B. A's day-1 piece flushes A's day-0 piece, and B flushes the day-1 piece. A's day-0 piece and B both come out in column 0 and overlap. |
| NoCollision.IsolatedPack | android/src/main/java/com/joelkanyi/focusbloom/android/ui/screens/calendar/CalendarScreen.kt:568-603 | Three segments where neither neighbouring pair overlaps: the second flushes the first and the third flushes the second. |
| NoCollision.IsolatedArrange | android/src/main/java/com/joelkanyi/focusbloom/android/ui/screens/calendar/CalendarScreen.kt:555-607 | Such three segments, each in column 0 of 1 already, come out unchanged and in order. |
| NoCollision.ThirdColumn | android/src/main/java/com/joelkanyi/focusbloom/android/ui/screens/calendar/CalendarScreen.kt:580-592 | A segment overlapping both of two one-segment columns opens a third column, and neither earlier segment widens: the first ends its span at column 0, not the old last column, and the second overlaps the new segment. |
| NoCollision.JoinWide | android/src/main/java/com/joelkanyi/focusbloom/android/ui/screens/calendar/CalendarScreen.kt:571-602 | A segment overlapping only column 0 of three finds the free run columns 1-2 and is appended to column 1 with `colSpan = numFreeCol = 2`. |
| NoCollision.JoinUnderSpan | android/src/main/java/com/joelkanyi/focusbloom/android/ui/screens/calendar/CalendarScreen.kt:571-602 | A segment overlapping columns 0 and 1 (the latter through its widened segment) but not column 2 is appended to column 2 with span 1, beneath the reserved half of the wide segment. |
| NoCollision.SpanPack | android/src/main/java/com/joelkanyi/focusbloom/android/ui/screens/calendar/CalendarScreen.kt:568-603 | For same-day 9:00-13:00 (A), 9:00-10:00 (B), 9:00-10:00 (C), 10:00-11:00 (t) and 10:30-11:30 (s) the loop ends with one open group `[[A], [B, t with span 2], [C, s]]`. |
| NoCollision.SpanArrange | android/src/main/java/com/joelkanyi/focusbloom/android/ui/screens/calendar/CalendarScreen.kt:555-607 | Those five segments come out as that single group flushed. |
| NoCollision.SpanCollides | android/src/main/java/com/joelkanyi/focusbloom/android/ui/screens/calendar/CalendarScreen.kt:555-607 | The no-collision theorem speaks of equal `col` only. On the five segments above, which are of one date, positive length and sorted, the output satisfies `GroupClear`, yet two output segments overlap where the second's `col` lies strictly inside the first's span `[col, col + colSpan)`. With x at `col / colTotal` and width `colSpan / colTotal` of the day (lines 423 and 446), t's box covers s's from 10:30 to 11:00. |
| Schedule.InsertPermutes | android/src/main/java/com/joelkanyi/focusbloom/android/ui/screens/calendar/CalendarScreen.kt:393 | Inserting a task adds exactly that task to the multiset of tasks. |
| Schedule.InsertSorted | android/src/main/java/com/joelkanyi/focusbloom/android/ui/screens/calendar/CalendarScreen.kt:393 | Inserting into a list sorted by start keeps it sorted. |
| Schedule.SortByStart | android/src/main/java/com/joelkanyi/focusbloom/android/ui/screens/calendar/CalendarScreen.kt:393 | `sortedBy(Task::start)` returns a permutation of its input. |
| Schedule.SortByStartSorted | android/src/main/java/com/joelkanyi/focusbloom/android/ui/screens/calendar/CalendarScreen.kt:393 | The result of `sortedBy(Task::start)` is in chronological order of start. |
| Schedule.InsertStable | android/src/main/java/com/joelkanyi/focusbloom/android/ui/screens/calendar/CalendarScreen.kt:393 | An inserted task goes after every task with the same start. |
| Schedule.SortStable | android/src/main/java/com/joelkanyi/focusbloom/android/ui/screens/calendar/CalendarScreen.kt:393 | The sort is stable: tasks starting at the same instant come out in their input order. |
| Schedule.VisibleOnly | android/src/main/java/com/joelkanyi/focusbloom/android/ui/screens/calendar/CalendarScreen.kt:393 | The filter keeps only segments with `end > minTime` and `start < maxTime`, and never lengthens the list. |
| Schedule.VisibleOnlyAppend | android/src/main/java/com/joelkanyi/focusbloom/android/ui/screens/calendar/CalendarScreen.kt:393 | `filter` keeps the order of the segments it keeps: filtering `a + b` gives the kept segments of `a` followed by those of `b`. |
| Schedule.VisibleOnlySingle | android/src/main/java/com/joelkanyi/focusbloom/android/ui/screens/calendar/CalendarScreen.kt:393 | A single segment is kept if and only if `end > minTime && start < maxTime`. |
| Schedule.VisibleOnlyCount | android/src/main/java/com/joelkanyi/focusbloom/android/ui/screens/calendar/CalendarScreen.kt:393 | The filter keeps every occurrence of a visible segment and none of an invisible one. |
| Schedule.VisibleOnlyKeys | android/src/main/java/com/joelkanyi/focusbloom/android/ui/screens/calendar/CalendarScreen.kt:393 | Filtering commutes with dropping column data, because visibility looks only at the times. |
| Schedule.PositionedExactlyOnce | android/src/main/java/com/joelkanyi/focusbloom/android/ui/screens/calendar/CalendarScreen.kt:393 | Up to column data, the schedule shows each visible segment of each task exactly as often as the split produces it. |
| Schedule.PositionedSound | android/src/main/java/com/joelkanyi/focusbloom/android/ui/screens/calendar/CalendarScreen.kt:393 | Every segment shown is visible and is a segment of one of the tasks. It has `0 <= col`, `1 <= colSpan` and `col + colSpan <= colTotal`. |
| Schedule.PositionedComplete | android/src/main/java/com/joelkanyi/focusbloom/android/ui/screens/calendar/CalendarScreen.kt:393 | Every visible segment of every task is shown. |
| Sidebar.TruncateToHour | android/src/main/java/com/joelkanyi/focusbloom/android/ui/screens/calendar/CalendarScreen.kt:225 | `truncatedTo(HOURS)` is hour-aligned, at or before the time, and less than an hour before it. |
| Sidebar.PlusHours | android/src/main/java/com/joelkanyi/focusbloom/android/ui/screens/calendar/CalendarScreen.kt:227-229 | `plusHours(n)` equals `t + n` hours modulo a day, and is exactly `t + n` hours when that stays within the day. |
| Sidebar.HourCount | android/src/main/java/com/joelkanyi/focusbloom/android/ui/screens/calendar/CalendarScreen.kt:223-224 | The label count is the number of whole hours from `minTime` to one minute past `maxTime`, between 0 and 24. It is at most 0 when `maxTime < minTime`. |
| Sidebar.HourLabels | android/src/main/java/com/joelkanyi/focusbloom/android/ui/screens/calendar/CalendarScreen.kt:232-236 | `repeat(numHours)` shows `numHours` labels (none when negative). Label `i` is the start plus `i` hours on the clock, and labels are hour-aligned when the start is. |
| Sidebar.SidebarAsWritten | android/src/main/java/com/joelkanyi/focusbloom/android/ui/screens/calendar/CalendarScreen.kt:223-236 | The sidebar as written shows `numHours` hour-aligned labels. |
| Sidebar.FirstLabel | android/src/main/java/com/joelkanyi/focusbloom/android/ui/screens/calendar/CalendarScreen.kt:225-229 | The first label's instant is hour-aligned, at or after `minTime` and within an hour of it. It equals `minTime` iff `minTime` is on the hour. |
| Sidebar.Sidebar | android/src/main/java/com/joelkanyi/focusbloom/android/ui/screens/calendar/CalendarScreen.kt:223-236 | The spacer is between 0 and 59 minutes: the whole minutes from `minTime` to the first label. Label `i` is hour-aligned and shows the first label plus `i` hours. |
| Sidebar.SidebarAgrees | android/src/main/java/com/joelkanyi/focusbloom/android/ui/screens/calendar/CalendarScreen.kt:225-229 | Up to 23:00, or on the hour, the code as written gives the intended sidebar. |
| Sidebar.SidebarWrapsAfterEleven | android/src/main/java/com/joelkanyi/focusbloom/android/ui/screens/calendar/CalendarScreen.kt:226-229 | After 23:00 and off the hour, the spacer as written is -1380 minutes or less, and its first label is 00:00, before `minTime`. |
| Sidebar.SidebarAtElevenPlusOneSecond | android/src/main/java/com/joelkanyi/focusbloom/android/ui/screens/calendar/CalendarScreen.kt:226-229 | At `minTime` 23:00:01 with the default `maxTime`, the spacer as written is -1380 minutes instead of 59. |
| Placement.OffsetMinutes | android/src/main/java/com/joelkanyi/focusbloom/android/ui/screens/calendar/CalendarScreen.kt:436-442 | A box's offset is the whole minutes from `minTime` to the segment's start clipped at `minTime`, so it is never negative. |
| Placement.BoxAsWritten | android/src/main/java/com/joelkanyi/focusbloom/android/ui/screens/calendar/CalendarScreen.kt:419-420 | The height as written is the whole minutes from the segment's own start to its end clipped at `maxTime`. |
| Placement.PlacedBox | android/src/main/java/com/joelkanyi/focusbloom/android/ui/screens/calendar/CalendarScreen.kt:419-442 | For a visible segment, the box's bottom, offset plus height, is within two minutes above the segment's end clipped at `maxTime`. |
| Placement.BoxAgrees | android/src/main/java/com/joelkanyi/focusbloom/android/ui/screens/calendar/CalendarScreen.kt:419-442 | A segment starting at or after `minTime` gets the same box as written and as intended. |
| Placement.BoxAsWrittenOvershoots | android/src/main/java/com/joelkanyi/focusbloom/android/ui/screens/calendar/CalendarScreen.kt:419-442 | A visible segment starting a minute or more before `minTime` is drawn, as written, from offset 0 with its bottom past its clipped end. |
| Placement.BoxSevenToNine | android/src/main/java/com/joelkanyi/focusbloom/android/ui/screens/calendar/CalendarScreen.kt:419-442 | With `minTime` 8:00, a 7:00-9:00 segment is drawn 120 minutes tall instead of 60. |
| LayoutExamples.MorningPack | android/src/main/java/com/joelkanyi/focusbloom/android/ui/screens/calendar/CalendarScreen.kt:568-603 | For 9:00-10:00, 9:30-10:30 and 11:00-12:00, the first two open columns 0 and 1, and the third flushes them and opens a group of its own. |
| LayoutExamples.FlushTwo | android/src/main/java/com/joelkanyi/focusbloom/android/ui/screens/calendar/CalendarScreen.kt:559-566 | Two one-segment columns flush to column 0 of 2 and column 1 of 2. |
| LayoutExamples.ArrangeMorning | android/src/main/java/com/joelkanyi/focusbloom/android/ui/screens/calendar/CalendarScreen.kt:555-607 | Same-day 9:00-10:00, 9:30-10:30 and 11:00-12:00 come out as (col 0, total 2), (col 1, total 2) and (col 0, total 1). |
| LayoutExamples.WidenPack | android/src/main/java/com/joelkanyi/focusbloom/android/ui/screens/calendar/CalendarScreen.kt:580-603 | Widening is exercised on same-day 9:00-12:00 (a), 9:00-10:00 (b1), 10:00-11:00 (b2) and 10:30-11:30 (d). b1 opens column 1, and b2 joins column 1 because touching is not overlapping. d opens column 2, and b1 widens to span 2 while b2, which overlaps d, keeps span 1. |
| LayoutExamples.WidenOpen | android/src/main/java/com/joelkanyi/focusbloom/android/ui/screens/calendar/CalendarScreen.kt:580-592 | The step where d opens column 2: b1, whose span ends at column 1 and which d does not overlap, widens; a and b2 do not. |

## Left out

- Schedule.Positioned: recomputes the pipeline and its filter on every call. The source caches the filtered list in `remember(tasks)` at line 393, keyed on the tasks only. If `minTime` or `maxTime` change while the tasks stay the same, the source keeps the list filtered with the old window. That cache is Compose runtime state across recompositions, which a pure function does not have.
- The composables and everything about pixels: `Dp`/px conversion, float division, `roundToInt`, box widths and x offsets, divider lines, the initial scroll-to-first-task animation, `dpToPx`/`pxToDp`. These are floating-point rendering and animation, and only their integer-minute inputs are modelled (`Sidebar`, `Placement`).
- `BasicSchedule`'s `numDays` and its `minDate`/`maxDate` defaults. They read the clock (`LocalDate.now()`) and only size the canvas.
- The `DateTimeFormatter` patterns and `String.localDate()`. These are `java.time` formatting and parsing.
- The sample-data day filter and `StatisticsScreen.kt`. They are screen glue with no layout logic.
- A task's description and color. The layout never reads them.
- Kotlin's 32-bit `Int` for `col`, `colSpan`, `colTotal` and the minute counts is modelled as unbounded `int`. The values stay far below 2^31: at most one column per segment, and at most 1440 minutes.
- The packer's collision freedom across groups is proved only for one date's segments of positive length sorted by start (`NoCollision.ArrangeNoCollision`). The whole pipeline feeds segments of several dates ordered by task start, so there only the per-group statement (`Packer.ArrangeGroupsPlaced`) is claimed.
- NoCollision.ArrangeNoCollision: claims only that segments with the same `col` do not overlap. A segment widened to `colSpan > 1` can overlap a later segment placed in one of the extra columns it spans, so drawn boxes can still intersect (`NoCollision.SpanCollides`). A box-level theorem would be false for the code.
- Sidebar.SidebarAsWritten: states only the label count and alignment, because its spacer is the subject of a finding (see below).
- `colTotal` equalling the largest number of mutually overlapping segments of its group is not modelled. The code never computes or checks that number.
- Re-running the packer on its own output is not modelled. The output comes in column order rather than input order, and the code never does it.

## Findings

| source | as written | input that shows it | evidently intended | confidence | as-written member | corrected member |
|---|---|---|---|---|---|---|
| android/src/main/java/com/joelkanyi/focusbloom/android/ui/screens/calendar/CalendarScreen.kt:226-229 | The next full hour is `firstHour.plusHours(1)`, which wraps to 00:00 after 23:00. The spacer is then measured backwards across the day. | `minTime` = 23:00:01, `maxTime` = MAX: spacer -1380 minutes, one label at 00:00 | Spacer of 59 minutes down to midnight, the whole minutes to the next full hour | medium; not executed (the callers pass the default `minTime` 00:00) | Sidebar.SidebarWrapsAfterEleven | Sidebar.Sidebar |
| android/src/main/java/com/joelkanyi/focusbloom/android/ui/screens/calendar/CalendarScreen.kt:419-420 | The box height is measured from the segment's own start, while its offset clips the start at `minTime` (lines 436-442). | `minTime` = 8:00, segment 7:00-9:00: box from 8:00, 120 minutes tall | Height measured from the start clipped at `minTime`: 60 minutes, ending at 9:00 | medium; not executed (the callers pass the default `minTime` 00:00) | Placement.BoxAsWrittenOvershoots | Placement.PlacedBox |
