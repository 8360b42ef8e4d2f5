/**
 No two segments of the whole `arrangeTasks` output with the same `col`
 overlap, provided every segment lies on one date, has positive length, and
 the segments are sorted by start time. `MultiDayCollides` shows that the one-date condition is needed,
 and `ZeroLengthCollides` that the positive-length condition is needed.
 The theorem is about `col` alone: `SpanCollides` shows a segment widened to
 span two columns overlapping a later segment placed in the second of them.
 */
module NoCollision {
  import opened ScheduleTypes
  import opened Overlap
  import opened Columns
  import opened Packer
  import opened Split
  import opened LayoutExamples

  /** Every segment lies on date `d` and ends after it starts. */
  predicate OneDay(ts: seq<PositionedTask>, d: Date)
  {
    forall k :: 0 <= k < |ts| ==> ts[k].date == d && ts[k].start < ts[k].end
  }

  /** Segments in ascending order of start time. */
  predicate SegmentsSortedByStart(ts: seq<PositionedTask>)
  {
    forall i, j :: 0 <= i < j < |ts| ==> ts[i].start <= ts[j].start
  }

  /** Segments already flushed, in output order. */
  function Done(p: Packing): seq<PositionedTask>
  {
    Concat(p.groups)
  }

  /** Two placed lists, the first ending before the second starts, can be joined. */
  lemma AppendClear(a: seq<PositionedTask>, b: seq<PositionedTask>)
    requires GroupClear(a) && GroupClear(b)
    requires forall x, y :: x in a && y in b ==> x.end <= y.start
    ensures GroupClear(a + b)
  {
    var r := a + b;
    forall i, j | 0 <= i < j < |r|
      ensures r[i].col == r[j].col ==> !Overlaps(r[i], r[j])
    {
      if j < |a| {
        assert r[i] == a[i] && r[j] == a[j];
      } else if i >= |a| {
        assert r[i] == b[i - |a|] && r[j] == b[j - |a|];
      } else {
        assert r[i] in a && r[j] in b;
      }
    }
  }

  /** When every column is free of `t`, no open segment overlaps `t`. */
  lemma FreeOfAll(cs: seq<seq<PositionedTask>>, t: PositionedTask)
    requires forall c :: 0 <= c < |cs| ==> Free(cs, c, t)
    ensures forall y :: y in Keys(Concat(cs)) ==> !Overlaps(y, t)
  {
    forall y | y in Keys(Concat(cs))
      ensures !Overlaps(y, t)
    {
      var i :| 0 <= i < |Keys(Concat(cs))| && Keys(Concat(cs))[i] == y;
      var x := Concat(cs)[i];
      ConcatMember(cs, x);
      var c :| 0 <= c < |cs| && x in cs[c];
      assert Free(cs, c, t);
      var k :| 0 <= k < |cs[c]| && cs[c][k] == x;
      assert !Overlaps(cs[c][k], t);
    }
  }

  /**
   The loop invariant for one day's input: open columns are clear, the
   output so far has no same-column overlap, and every flushed segment ends
   before any open segment starts.
   */
  ghost predicate Frontier(p: Packing, d: Date)
  {
    && ColumnsClear(p.columns)
    && GroupClear(Done(p))
    && (forall y :: y in Open(p) ==> y.date == d && y.start < y.end)
    && (forall x, y :: x in Done(p) && y in Open(p) ==> x.end <= y.start)
  }

  /** Every flushed segment ends, and every open segment starts, by `next`. */
  ghost predicate Before(p: Packing, next: int)
  {
    && (forall x :: x in Done(p) ==> x.end <= next)
    && (forall y :: y in Open(p) ==> y.start <= next)
  }

  /** Flushing the open columns keeps the output clear. */
  lemma FlushClear(p: Packing, d: Date)
    requires Frontier(p, d)
    ensures GroupClear(Done(p) + Flush(p.columns))
  {
    var f := Flush(p.columns);
    forall x, y | x in Done(p) && y in f
      ensures x.end <= y.start
    {
      KeysMember(f, y);
      assert Unplaced(y) in Open(p);
    }
    AppendClear(Done(p), f);
  }

  /** A step that keeps the group: the segment joins the open columns. */
  lemma GrowKeepsFrontier(p: Packing, q: Packing, t: PositionedTask, d: Date)
    requires Frontier(p, d) && Before(p, t.start)
    requires t.date == d && t.start < t.end
    requires q.groups == p.groups && Open(q) == Open(p) + multiset{Unplaced(t)}
    requires ColumnsClear(q.columns)
    ensures Frontier(q, d) && Before(q, t.start)
  {
  }

  /** Every open segment ends by the start of a later segment it does not overlap. */
  lemma FlushEndsBefore(p: Packing, t: PositionedTask, d: Date)
    requires Frontier(p, d) && Before(p, t.start)
    requires t.date == d && t.start < t.end
    requires forall c :: 0 <= c < |p.columns| ==> Free(p.columns, c, t)
    ensures forall x :: x in Flush(p.columns) ==> x.end <= t.start
  {
    var f := Flush(p.columns);
    FreeOfAll(p.columns, t);
    forall x | x in f
      ensures x.end <= t.start
    {
      KeysMember(f, x);
      var y := Unplaced(x);
      assert y in Open(p);
      assert !Overlaps(y, t);
    }
  }

  /** The done and open segments after a flush. */
  lemma NewGroupParts(p: Packing, t: PositionedTask)
    ensures Done(NewGroup(p, t)) == Done(p) + Flush(p.columns)
    ensures Open(NewGroup(p, t)) == multiset{Unplaced(t)}
  {
    var f := Flush(p.columns);
    ConcatAppend(p.groups, [f]);
    assert Concat([f]) == f;
    assert Concat([[t]]) == [t];
  }

  /** A step that flushes the group: it ends before the segment starts. */
  lemma ResetKeepsFrontier(p: Packing, t: PositionedTask, d: Date)
    requires Frontier(p, d) && Before(p, t.start)
    requires t.date == d && t.start < t.end
    requires forall c :: 0 <= c < |p.columns| ==> Free(p.columns, c, t)
    ensures Frontier(NewGroup(p, t), d) && Before(NewGroup(p, t), t.start)
  {
    var q := NewGroup(p, t);
    FlushEndsBefore(p, t, d);
    FlushClear(p, d);
    NewGroupParts(p, t);
  }

  lemma StepKeepsFrontier(p: Packing, t: PositionedTask, d: Date)
    requires Frontier(p, d) && Before(p, t.start)
    requires t.date == d && t.start < t.end
    ensures Frontier(Step(p, t), d) && Before(Step(p, t), t.start)
  {
    var cs := p.columns;
    var run := FreeRun(cs, t);
    StepKeepsColumnsClear(p, t);
    StepHolds(p, t);
    if run.first >= 0 && run.count == |cs| {
      assert forall c :: 0 <= c < |cs| ==> Free(cs, c, t);
      ResetKeepsFrontier(p, t, d);
    } else {
      GrowKeepsFrontier(p, Step(p, t), t, d);
    }
  }

  lemma BeforeLater(p: Packing, a: int, b: int)
    requires Before(p, a) && a <= b
    ensures Before(p, b)
  {
  }

  lemma SortedTail(ts: seq<PositionedTask>, d: Date)
    requires |ts| >= 2 && OneDay(ts, d) && SegmentsSortedByStart(ts)
    ensures OneDay(ts[1..], d) && SegmentsSortedByStart(ts[1..]) && ts[0].start <= ts[1].start
  {
    assert forall k :: 0 <= k < |ts[1..]| ==> ts[1..][k] == ts[k + 1];
  }

  lemma {:induction false} PackKeepsFrontier(p: Packing, ts: seq<PositionedTask>, d: Date)
    requires Frontier(p, d)
    requires OneDay(ts, d) && SegmentsSortedByStart(ts)
    requires ts != [] ==> Before(p, ts[0].start)
    ensures Frontier(Pack(p, ts), d)
    decreases |ts|
  {
    if ts != [] {
      var t := ts[0];
      var q := Step(p, t);
      assert t.date == d && t.start < t.end;
      StepKeepsFrontier(p, t, d);
      if |ts| >= 2 {
        SortedTail(ts, d);
        BeforeLater(q, t.start, ts[1].start);
      }
      assert Pack(p, ts) == Pack(q, ts[1..]);
      PackKeepsFrontier(q, ts[1..], d);
    }
  }

  /**
   For the segments of one day, of positive length and sorted by start, no
   two output segments with the same `col` overlap, across groups as well as
   within one.
   */
  lemma ArrangeNoCollision(ts: seq<PositionedTask>, d: Date)
    requires OneDay(ts, d) && SegmentsSortedByStart(ts)
    ensures GroupClear(Arrange(ts))
  {
    var p0 := Packing([], []);
    assert Done(p0) == [] && Open(p0) == multiset{};
    PackKeepsFrontier(p0, ts, d);
    var p := Pack(p0, ts);
    FlushClear(p, d);
    ConcatAppend(p.groups, [Flush(p.columns)]);
    assert Concat([Flush(p.columns)]) == Flush(p.columns);
  }

  /**
   Without the positive-length condition the same-`col` property fails: a
   zero-length segment at 9:00 overlaps nothing, so it flushes the group
   holding 9:00-10:00, and a second 9:00-10:00 segment then flushes it in
   turn. Both 9:00-10:00 segments come out in column 0.
   */
  lemma ZeroLengthCollides()
    ensures var task := Task("t", DateTime(0, 9 * NanosPerHour), DateTime(0, 10 * NanosPerHour));
      var a := PositionedTask(task, None, 0, 9 * NanosPerHour, 10 * NanosPerHour, 0, 1, 1);
      var z := PositionedTask(task, None, 0, 9 * NanosPerHour, 9 * NanosPerHour, 0, 1, 1);
      var out := Arrange([a, z, a]);
      SegmentsSortedByStart([a, z, a]) &&
      |out| == 3 && out[0].col == out[2].col && Overlaps(out[0], out[2]) &&
      !GroupClear(out)
  {
    var task := Task("t", DateTime(0, 9 * NanosPerHour), DateTime(0, 10 * NanosPerHour));
    var a := PositionedTask(task, None, 0, 9 * NanosPerHour, 10 * NanosPerHour, 0, 1, 1);
    var z := PositionedTask(task, None, 0, 9 * NanosPerHour, 9 * NanosPerHour, 0, 1, 1);
    IsolatedArrange(a, z, a);
    var out := Arrange([a, z, a]);
    assert 0 < 2 < |out| && out[0].col == out[2].col && Overlaps(out[0], out[2]);
  }

  /**
   Without the one-date condition the same-`col` property fails on what
   `splitTasks` makes of two sorted tasks: A from day 0 10:00 to day 1 12:00
   and B on day 0 from 11:00 to 13:00. A's day-1 piece overlaps nothing open,
   so it flushes A's day-0 piece, and B then flushes it in turn. A's day-0
   piece and B both come out in column 0 and overlap.
   */
  lemma MultiDayCollides()
    ensures var a := Task("A", DateTime(0, 10 * NanosPerHour), DateTime(1, 12 * NanosPerHour));
      var b := Task("B", DateTime(0, 11 * NanosPerHour), DateTime(0, 13 * NanosPerHour));
      var out := Arrange(SplitTasks([a, b]));
      NotAfter(a.start, b.start) &&
      |out| == 3 && out[0].col == out[2].col && Overlaps(out[0], out[2]) &&
      !GroupClear(out)
  {
    var a := Task("A", DateTime(0, 10 * NanosPerHour), DateTime(1, 12 * NanosPerHour));
    var b := Task("B", DateTime(0, 11 * NanosPerHour), DateTime(0, 13 * NanosPerHour));
    var a0 := PositionedTask(a, End, 0, 10 * NanosPerHour, MaxTime, 0, 1, 1);
    var a1 := PositionedTask(a, Start, 1, MinTime, 12 * NanosPerHour, 0, 1, 1);
    var b0 := PositionedTask(b, None, 0, 11 * NanosPerHour, 13 * NanosPerHour, 0, 1, 1);
    assert SplitTask(a) == [a0, a1];
    assert SplitTask(b) == [b0];
    assert [a] + [b] == [a, b];
    SplitTasksAppend([a], [b]);
    SplitTasksSingle(a);
    SplitTasksSingle(b);
    assert SplitTasks([a, b]) == [a0, a1, b0];
    IsolatedArrange(a0, a1, b0);
    var out := Arrange([a0, a1, b0]);
    assert 0 < 2 < |out| && out[0].col == out[2].col && Overlaps(out[0], out[2]);
  }

  /** Each of three segments, neither neighbouring pair overlapping, comes out alone in column 0 of 1. */
  lemma IsolatedArrange(x: PositionedTask, y: PositionedTask, w: PositionedTask)
    requires !Overlaps(x, y) && !Overlaps(y, w)
    requires x.col == y.col == w.col == 0 && x.colTotal == y.colTotal == w.colTotal == 1
    ensures Arrange([x, y, w]) == [x, y, w]
  {
    IsolatedPack(x, y, w);
    assert ArrangeGroups([x, y, w]) == [Flush([[x]]), Flush([[y]]), Flush([[w]])];
    FlushSingle(x);
    FlushSingle(y);
    FlushSingle(w);
    assert Concat([[x], [y], [w]]) == [x] + Concat([[y], [w]]);
    assert Concat([[y], [w]]) == [y] + Concat([[w]]);
    assert Concat([[w]]) == [w] + Concat([]);
  }

  /** The packer's walk over three segments, neither neighbouring pair overlapping: every step after the first starts a new group. */
  lemma IsolatedPack(x: PositionedTask, y: PositionedTask, w: PositionedTask)
    requires !Overlaps(x, y) && !Overlaps(y, w)
    ensures Pack(Packing([], []), [x, y, w]) == Packing([Flush([[x]]), Flush([[y]])], [[w]])
  {
    var p0 := Packing([], []);
    StepOpensColumn(p0, x);
    var p1 := Step(p0, x);
    assert p1 == Packing([], [[x]]);
    assert !AnyOverlaps([x], y);
    StepStartsGroup(p1, y);
    var p2 := Step(p1, y);
    assert !AnyOverlaps([y], w);
    StepStartsGroup(p2, w);
    assert [x, y, w][1..] == [y, w];
    assert [y, w][1..] == [w];
    assert Pack(p0, [x, y, w]) == Pack(p1, [y, w]);
    assert Pack(p1, [y, w]) == Pack(p2, [w]);
    assert Pack(p2, [w]) == Pack(Step(p2, w), []);
  }

  /** A third segment that overlaps both one-segment columns opens a third column, and neither widens. */
  lemma ThirdColumn(a: PositionedTask, b: PositionedTask, c: PositionedTask)
    requires Overlaps(a, c) && Overlaps(b, c) && a.colSpan == 1 && b.colSpan == 1
    ensures Step(Packing([], [[a], [b]]), c) == Packing([], [[a], [b], [c]])
  {
    var p := Packing([], [[a], [b]]);
    assert AnyOverlaps([a], c) && AnyOverlaps([b], c);
    StepOpensColumn(p, c);
    assert WidenColumn([a], 0, 2, c) == [a];
    assert WidenColumn([b], 1, 2, c) == [b];
    assert Widen([[a], [b], [c]], c) == [[a], [b], [c]];
  }

  /** t overlaps only column 0, so it joins column 1 with span 2, reserving column 2. */
  lemma JoinWide(a: PositionedTask, b: PositionedTask, c: PositionedTask, t: PositionedTask)
    requires Overlaps(a, t) && !Overlaps(b, t) && !Overlaps(c, t)
    ensures Step(Packing([], [[a], [b], [c]]), t) == Packing([], [[a], [b, t.(colSpan := 2)], [c]])
  {
    var p := Packing([], [[a], [b], [c]]);
    assert AnyOverlaps([a], t) && !AnyOverlaps([b], t) && !AnyOverlaps([c], t);
    assert RunSpec(p.columns, t, Run(1, 2));
    StepJoinsColumn(p, t, 1, 2);
    assert [b] + [t.(colSpan := 2)] == [b, t.(colSpan := 2)];
  }

  /** s overlaps columns 0 and 1 but not column 2, so it joins column 2 with span 1. */
  lemma JoinUnderSpan(a: PositionedTask, b: PositionedTask, w: PositionedTask, c: PositionedTask, s: PositionedTask)
    requires Overlaps(a, s) && Overlaps(w, s) && !Overlaps(c, s) && s.colSpan == 1
    ensures Step(Packing([], [[a], [b, w], [c]]), s) == Packing([], [[a], [b, w], [c, s]])
  {
    var p := Packing([], [[a], [b, w], [c]]);
    assert AnyOverlaps([a], s) && !AnyOverlaps([c], s);
    assert AnyOverlaps([b, w], s) by {
      assert Overlaps([b, w][1], s);
    }
    assert RunSpec(p.columns, s, Run(2, 1));
    StepJoinsColumn(p, s, 2, 1);
    assert s.(colSpan := 1) == s;
    assert [c] + [s] == [c, s];
  }

  /** The packer's walk over the five segments of `SpanCollides`. */
  lemma SpanPack(a: PositionedTask, b: PositionedTask, c: PositionedTask, t: PositionedTask, s: PositionedTask)
    requires a == Segment("A", 9 * NanosPerHour, 13 * NanosPerHour)
    requires b == Segment("B", 9 * NanosPerHour, 10 * NanosPerHour)
    requires c == Segment("C", 9 * NanosPerHour, 10 * NanosPerHour)
    requires t == Segment("t", 10 * NanosPerHour, 11 * NanosPerHour)
    requires s == Segment("s", 10 * NanosPerHour + 30 * NanosPerMinute, 11 * NanosPerHour + 30 * NanosPerMinute)
    ensures Pack(Packing([], []), [a, b, c, t, s]) == Packing([], [[a], [b, t.(colSpan := 2)], [c, s]])
  {
    var p0 := Packing([], []);
    assert [a, b, c, t, s][1..] == [b, c, t, s];
    assert Pack(p0, [a, b, c, t, s]) == Pack(Step(p0, a), [b, c, t, s]);
    PackFour(Step(p0, a), b, c, t, s);
    FirstStep(a);
    SecondColumn(a, b);
    ThirdColumn(a, b, c);
    JoinWide(a, b, c, t);
    JoinUnderSpan(a, b, t.(colSpan := 2), c, s);
  }

  /** The five segments form one group, so the output is that group flushed. */
  lemma SpanArrange(a: PositionedTask, b: PositionedTask, c: PositionedTask, t: PositionedTask, s: PositionedTask)
    requires a == Segment("A", 9 * NanosPerHour, 13 * NanosPerHour)
    requires b == Segment("B", 9 * NanosPerHour, 10 * NanosPerHour)
    requires c == Segment("C", 9 * NanosPerHour, 10 * NanosPerHour)
    requires t == Segment("t", 10 * NanosPerHour, 11 * NanosPerHour)
    requires s == Segment("s", 10 * NanosPerHour + 30 * NanosPerMinute, 11 * NanosPerHour + 30 * NanosPerMinute)
    ensures Arrange([a, b, c, t, s]) == Flush([[a], [b, t.(colSpan := 2)], [c, s]])
  {
    SpanPack(a, b, c, t, s);
    var g := Flush([[a], [b, t.(colSpan := 2)], [c, s]]);
    assert ArrangeGroups([a, b, c, t, s]) == [g];
    assert [g][1..] == [];
    assert Concat([g]) == g + Concat([]);
  }

  /**
   The no-collision theorem speaks of equal `col` only. For 9:00-13:00 (A),
   9:00-10:00 (B), 9:00-10:00 (C), 10:00-11:00 (t) and 10:30-11:30 (s):
   A, B and C open columns 0, 1 and 2; t overlaps only A, so it joins column 1
   with span 2; s overlaps A and t but not C, so it joins column 2. The
   output satisfies `GroupClear`, yet t's box, spanning columns 1 and 2,
   overlaps s in column 2 from 10:30 to 11:00.
   */
  lemma SpanCollides()
    ensures var ts := [Segment("A", 9 * NanosPerHour, 13 * NanosPerHour),
                       Segment("B", 9 * NanosPerHour, 10 * NanosPerHour),
                       Segment("C", 9 * NanosPerHour, 10 * NanosPerHour),
                       Segment("t", 10 * NanosPerHour, 11 * NanosPerHour),
                       Segment("s", 10 * NanosPerHour + 30 * NanosPerMinute, 11 * NanosPerHour + 30 * NanosPerMinute)];
      var out := Arrange(ts);
      OneDay(ts, 0) && SegmentsSortedByStart(ts) && GroupClear(out) &&
      exists i, j :: 0 <= i < |out| && 0 <= j < |out| && Overlaps(out[i], out[j]) &&
        out[i].col < out[j].col < out[i].col + out[i].colSpan
  {
    var a := Segment("A", 9 * NanosPerHour, 13 * NanosPerHour);
    var b := Segment("B", 9 * NanosPerHour, 10 * NanosPerHour);
    var c := Segment("C", 9 * NanosPerHour, 10 * NanosPerHour);
    var t := Segment("t", 10 * NanosPerHour, 11 * NanosPerHour);
    var s := Segment("s", 10 * NanosPerHour + 30 * NanosPerMinute, 11 * NanosPerHour + 30 * NanosPerMinute);
    var ts := [a, b, c, t, s];
    assert OneDay(ts, 0) && SegmentsSortedByStart(ts);
    ArrangeNoCollision(ts, 0);
    SpanArrange(a, b, c, t, s);
    var cols := [[a], [b, t.(colSpan := 2)], [c, s]];
    var out := Arrange(ts);
    FlushHolds(cols);
    var x := cols[1][1].(col := 1, colTotal := 3);
    var y := cols[2][1].(col := 2, colTotal := 3);
    assert x in out && y in out;
    var i :| 0 <= i < |out| && out[i] == x;
    var j :| 0 <= j < |out| && out[j] == y;
    assert Overlaps(out[i], out[j]) && out[i].col < out[j].col < out[i].col + out[i].colSpan;
  }
}
