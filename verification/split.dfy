/**
 `splitTasks`: cut every task into one segment per calendar day it touches.
 */
module Split {
  import opened ScheduleTypes

  /** Number of days from `t`'s start date to its end date (`ChronoUnit.DAYS.between`). */
  function Days(t: Task): int
  {
    t.end.date - t.start.date
  }

  /**
   The segment for the `i`-th day of a task whose start and end dates differ:
   the first day runs from the task's start time to `MAX`, the last day from
   `MIN` to the task's end time, a day in between from `MIN` to `MAX`.
   */
  function DayPiece(t: Task, i: int): (p: PositionedTask)
    requires t.start.date != t.end.date
    ensures p.task == t && p.date == t.start.date + i
    ensures p.col == 0 && p.colSpan == 1 && p.colTotal == 1
    ensures i == 0 ==> p.splitType == End && p.start == t.start.time && p.end == MaxTime
    ensures i == Days(t) ==> p.splitType == Start && p.start == MinTime && p.end == t.end.time
    ensures i != 0 && i != Days(t) ==> p.splitType == Both && p.start == MinTime && p.end == MaxTime
  {
    var startDate := t.start.date;
    var endDate := t.end.date;
    var date := startDate + i;
    PositionedTask(
      t,
      if date == startDate then End else if date == endDate then Start else Both,
      date,
      if date == startDate then t.start.time else MinTime,
      if date == endDate then t.end.time else MaxTime,
      0, 1, 1)
  }

  /** The loop `for (i in from..days)`: the pieces `from`, `from + 1`, ..., `days`. */
  function DayPieces(t: Task, from: int, days: int): (r: seq<PositionedTask>)
    requires t.start.date != t.end.date
    ensures |r| == if from <= days then days - from + 1 else 0
    ensures forall k :: 0 <= k < |r| ==> r[k] == DayPiece(t, from + k)
    decreases days - from
  {
    if from > days then []
    else [DayPiece(t, from)] + DayPieces(t, from + 1, days)
  }

  /**
   The segments of one task. A single-day task gives one `None` segment with
   the task's own times; a task over `d > 0` days gives `d + 1` segments dated
   start date, start date + 1, ..., end date, tagged `End`, `Both`, ...,
   `Start`, that meet at midnight. A task ending on an earlier date than it
   starts gives none.
   */
  function SplitTask(t: Task): (r: seq<PositionedTask>)
    ensures t.start.date == t.end.date ==>
      |r| == 1 && r[0].splitType == None && r[0].date == t.start.date &&
      r[0].start == t.start.time && r[0].end == t.end.time
    ensures t.start.date != t.end.date ==> |r| == if Days(t) > 0 then Days(t) + 1 else 0
    ensures forall k :: 0 <= k < |r| ==>
      r[k].task == t && r[k].date == t.start.date + k && t.start.date <= r[k].date <= t.end.date
    ensures forall k :: 0 <= k < |r| ==> r[k].col == 0 && r[k].colSpan == 1 && r[k].colTotal == 1
    ensures Days(t) > 0 ==>
      r[0].splitType == End && r[0].start == t.start.time && r[0].end == MaxTime &&
      r[|r| - 1].splitType == Start && r[|r| - 1].start == MinTime && r[|r| - 1].end == t.end.time
    ensures Days(t) > 0 ==> forall k :: 0 < k < |r| - 1 ==>
      r[k].splitType == Both && r[k].start == MinTime && r[k].end == MaxTime
  {
    if t.start.date == t.end.date then
      [PositionedTask(t, None, t.start.date, t.start.time, t.end.time, 0, 1, 1)]
    else
      DayPieces(t, 0, Days(t))
  }

  /** `splitTasks`: the segments of every task, task by task, in input order. */
  function SplitTasks(ts: seq<Task>): (r: seq<PositionedTask>)
    ensures forall p :: p in r ==> exists t :: t in ts && p in SplitTask(t)
    ensures forall t, p :: t in ts && p in SplitTask(t) ==> p in r
    ensures forall k :: 0 <= k < |r| ==> r[k].col == 0 && r[k].colSpan == 1 && r[k].colTotal == 1
  {
    if ts == [] then []
    else SplitTask(ts[0]) + SplitTasks(ts[1..])
  }

  /** One task's segments are exactly what `splitTask` gives it. */
  lemma SplitTasksSingle(t: Task)
    ensures SplitTasks([t]) == SplitTask(t)
  {
    assert [t][1..] == [];
  }

  /**
   `flatten` keeps the order of the tasks: the segments of `a + b` are those
   of `a` followed by those of `b`, each as often as it is produced.
   */
  lemma {:induction false} SplitTasksAppend(a: seq<Task>, b: seq<Task>)
    ensures SplitTasks(a + b) == SplitTasks(a) + SplitTasks(b)
  {
    if a == [] {
      assert a + b == b;
    } else {
      assert (a + b)[0] == a[0] && (a + b)[1..] == a[1..] + b;
      SplitTasksAppend(a[1..], b);
    }
  }

  /** The segment of `pieces` that holds instant `dt`, with its end inclusive since `MAX` ends a day. */
  predicate Holds(pieces: seq<PositionedTask>, k: int, dt: DateTime)
  {
    0 <= k < |pieces| && pieces[k].date == dt.date && pieces[k].start <= dt.time <= pieces[k].end
  }

  /**
   Splitting loses and adds no time: an instant is held by some segment of
   `t` exactly when it lies between the task's start and end.
   */
  lemma {:induction false} SplitCoversTask(t: Task, dt: DateTime)
    ensures (exists k :: Holds(SplitTask(t), k, dt)) <==> NotAfter(t.start, dt) && NotAfter(dt, t.end)
  {
    var r := SplitTask(t);
    if NotAfter(t.start, dt) && NotAfter(dt, t.end) {
      var k := dt.date - t.start.date;
      assert Holds(r, k, dt);
    }
  }

  /** The first segment starts where the task starts and the last ends where it ends. */
  lemma SplitRejoins(t: Task)
    requires t.start.date <= t.end.date
    ensures var r := SplitTask(t);
      |r| >= 1 &&
      DateTime(r[0].date, r[0].start) == t.start &&
      DateTime(r[|r| - 1].date, r[|r| - 1].end) == t.end
  {
  }

  /** Consecutive segments of a multi-day task are on consecutive days and meet at midnight. */
  lemma SplitContiguous(t: Task, k: int)
    requires 0 <= k < |SplitTask(t)| - 1
    ensures var r := SplitTask(t);
      r[k + 1].date == r[k].date + 1 && r[k].end == MaxTime && r[k + 1].start == MinTime
  {
  }

  /** The example of a task from Jan 1 14:00 to Jan 3 10:00 (days 0 to 2). */
  lemma SplitThreeDays()
    ensures var t := Task("trip", DateTime(0, 14 * NanosPerHour), DateTime(2, 10 * NanosPerHour));
      SplitTask(t) == [
        PositionedTask(t, End, 0, 14 * NanosPerHour, MaxTime, 0, 1, 1),
        PositionedTask(t, Both, 1, MinTime, MaxTime, 0, 1, 1),
        PositionedTask(t, Start, 2, MinTime, 10 * NanosPerHour, 0, 1, 1)]
  {
  }
}
