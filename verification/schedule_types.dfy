/**
 The data of the day-schedule layout engine: dates, times of day, tasks and
 the per-day positioned segments the engine produces.

 A `LocalDate` is modelled as its epoch day (an `int`), a `LocalTime` as its
 nanosecond of the day, so `LocalTime.MIN` is 0 and `LocalTime.MAX` is
 23:59:59.999999999.
 */
module ScheduleTypes {

  const NanosPerMinute: int := 60_000_000_000
  const NanosPerHour: int := 3_600_000_000_000
  const NanosPerDay: int := 86_400_000_000_000

  /** `LocalTime.MIN` */
  const MinTime: int := 0
  /** `LocalTime.MAX` */
  const MaxTime: int := 86_399_999_999_999

  /** A `LocalTime`, as nanoseconds since midnight. */
  type TimeOfDay = t: int | MinTime <= t <= MaxTime

  /** A `LocalDate`, as days since the epoch. */
  type Date = int

  /** A `LocalDateTime`. */
  datatype DateTime = DateTime(date: Date, time: TimeOfDay)

  /** Chronological order of date-times: `a` is not later than `b`. */
  predicate NotAfter(a: DateTime, b: DateTime)
  {
    a.date < b.date || (a.date == b.date && a.time <= b.time)
  }

  /** The task the schedule shows; only its name and time range matter to the layout. */
  datatype Task = Task(name: string, start: DateTime, end: DateTime)

  /**
   How a segment relates to the task it was cut from:
   `None` is a whole single-day task, `End` the first day of a multi-day task
   (it is cut at its end), `Start` the last day (cut at its start), `Both` a
   day in between.
   */
  datatype SplitType = None | Start | End | Both

  /** One calendar day of a task, with its layout column data. */
  datatype PositionedTask = PositionedTask(
    task: Task,
    splitType: SplitType,
    date: Date,
    start: TimeOfDay,
    end: TimeOfDay,
    col: int,
    colSpan: int,
    colTotal: int)

  /** A segment with the column fields at their defaults (col 0, span 1, total 1). */
  function Unplaced(p: PositionedTask): (u: PositionedTask)
    ensures u.task == p.task && u.splitType == p.splitType && u.date == p.date
    ensures u.start == p.start && u.end == p.end
    ensures u.col == 0 && u.colSpan == 1 && u.colTotal == 1
  {
    p.(col := 0, colSpan := 1, colTotal := 1)
  }

  /** The segments of `s` with their column data dropped: what packing must not change. */
  function Keys(s: seq<PositionedTask>): (r: seq<PositionedTask>)
    ensures |r| == |s|
    ensures forall i :: 0 <= i < |s| ==> r[i] == Unplaced(s[i])
  {
    seq(|s|, i requires 0 <= i < |s| => Unplaced(s[i]))
  }

  lemma KeysAppend(a: seq<PositionedTask>, b: seq<PositionedTask>)
    ensures Keys(a + b) == Keys(a) + Keys(b)
  {
  }

  lemma KeysMember(s: seq<PositionedTask>, x: PositionedTask)
    requires x in s
    ensures Unplaced(x) in Keys(s)
  {
    var i :| 0 <= i < |s| && s[i] == x;
    assert Keys(s)[i] == Unplaced(x);
  }

  /** Integer division truncating toward zero, as Kotlin's and Java's `/`. */
  function TruncDiv(a: int, b: int): (q: int)
    requires b > 0
    ensures a >= 0 ==> 0 <= a - q * b < b
    ensures a < 0 ==> -b < a - q * b <= 0
  {
    if a >= 0 then a / b else -((-a) / b)
  }

  /** `ChronoUnit.MINUTES.between(a, b)` on two `LocalTime`s: whole minutes from `a` to `b`, truncated toward zero. */
  function MinutesBetween(a: TimeOfDay, b: TimeOfDay): (m: int)
    ensures a <= b ==> 0 <= m && m * NanosPerMinute <= b - a < (m + 1) * NanosPerMinute
    ensures b < a ==> m <= 0 && (-m) * NanosPerMinute <= a - b < (1 - m) * NanosPerMinute
  {
    TruncDiv(b - a, NanosPerMinute)
  }
}
