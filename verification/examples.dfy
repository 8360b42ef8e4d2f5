/**
 A worked layout: 9:00-10:00 and 9:30-10:30 overlap and share a group of two
 columns; 11:00-12:00 overlaps neither, so it flushes that group and gets a
 group of its own.
 */
module LayoutExamples {
  import opened ScheduleTypes
  import opened Overlap
  import opened Columns
  import opened Packer

  function Segment(name: string, start: TimeOfDay, end: TimeOfDay): PositionedTask
  {
    PositionedTask(Task(name, DateTime(0, start), DateTime(0, end)), None, 0, start, end, 0, 1, 1)
  }

  /** A fold over three or four segments is that many steps. */
  lemma PackThree(p: Packing, a: PositionedTask, b: PositionedTask, c: PositionedTask)
    ensures Pack(p, [a, b, c]) == Step(Step(Step(p, a), b), c)
  {
    var p1 := Step(p, a);
    var p2 := Step(p1, b);
    assert [a, b, c][1..] == [b, c];
    assert [b, c][1..] == [c];
    assert [c][1..] == [];
    assert Pack(p, [a, b, c]) == Pack(p1, [b, c]);
    assert Pack(p1, [b, c]) == Pack(p2, [c]);
    assert Pack(p2, [c]) == Pack(Step(p2, c), []);
  }

  lemma PackFour(p: Packing, a: PositionedTask, b: PositionedTask, c: PositionedTask, d: PositionedTask)
    ensures Pack(p, [a, b, c, d]) == Step(Step(Step(Step(p, a), b), c), d)
  {
    assert [a, b, c, d][1..] == [b, c, d];
    PackThree(Step(p, a), b, c, d);
  }

  /** The first segment opens the first column. */
  lemma FirstStep(a: PositionedTask)
    ensures Step(Packing([], []), a) == Packing([], [[a]])
  {
    StepOpensColumn(Packing([], []), a);
  }

  /** A second segment that overlaps the first opens a second column, and the first does not widen. */
  lemma SecondColumn(a: PositionedTask, b: PositionedTask)
    requires Overlaps(a, b)
    ensures Step(Packing([], [[a]]), b) == Packing([], [[a], [b]])
  {
    assert AnyOverlaps([a], b);
    StepOpensColumn(Packing([], [[a]]), b);
    assert WidenColumn([a], 0, 1, b) == [a];
    assert Widen([[a], [b]], b) == [[a], [b]];
  }

  /** The packer's walk over the three segments. */
  lemma MorningPack(a: PositionedTask, b: PositionedTask, c: PositionedTask)
    requires a == Segment("a", 9 * NanosPerHour, 10 * NanosPerHour)
    requires b == Segment("b", 9 * NanosPerHour + 30 * NanosPerMinute, 10 * NanosPerHour + 30 * NanosPerMinute)
    requires c == Segment("c", 11 * NanosPerHour, 12 * NanosPerHour)
    ensures Pack(Packing([], []), [a, b, c]) == Packing([Flush([[a], [b]])], [[c]])
  {
    PackThree(Packing([], []), a, b, c);
    FirstStep(a);
    SecondColumn(a, b);
    var p2 := Packing([], [[a], [b]]);
    assert !AnyOverlaps([a], c) && !AnyOverlaps([b], c);
    assert Free(p2.columns, 0, c) && Free(p2.columns, 1, c);
    StepStartsGroup(p2, c);
  }

  lemma FlushTwo(x: PositionedTask, y: PositionedTask)
    ensures Flush([[x], [y]]) == [x.(col := 0, colTotal := 2), y.(col := 1, colTotal := 2)]
  {
    var cs := [[x], [y]];
    assert cs[2..] == [];
    assert FlushFrom(cs, 2, 2) == [];
    assert FlushFrom(cs, 1, 2) == Label([y], 1, 2) + FlushFrom(cs, 2, 2);
    assert FlushFrom(cs, 0, 2) == Label([x], 0, 2) + FlushFrom(cs, 1, 2);
  }

  /**
   The output: 9:00-10:00 in column 0 of 2, 9:30-10:30 in column 1 of 2, and
   11:00-12:00 in column 0 of 1, each spanning one column.
   */
  lemma ArrangeMorning()
    ensures var a := Segment("a", 9 * NanosPerHour, 10 * NanosPerHour);
      var b := Segment("b", 9 * NanosPerHour + 30 * NanosPerMinute, 10 * NanosPerHour + 30 * NanosPerMinute);
      var c := Segment("c", 11 * NanosPerHour, 12 * NanosPerHour);
      Arrange([a, b, c]) == [a.(col := 0, colTotal := 2), b.(col := 1, colTotal := 2), c.(col := 0, colTotal := 1)]
  {
    var a := Segment("a", 9 * NanosPerHour, 10 * NanosPerHour);
    var b := Segment("b", 9 * NanosPerHour + 30 * NanosPerMinute, 10 * NanosPerHour + 30 * NanosPerMinute);
    var c := Segment("c", 11 * NanosPerHour, 12 * NanosPerHour);
    MorningPack(a, b, c);
    FlushTwo(a, b);
    FlushSingle(c);
    var g1 := [a.(col := 0, colTotal := 2), b.(col := 1, colTotal := 2)];
    var g2 := [c.(col := 0, colTotal := 1)];
    assert ArrangeGroups([a, b, c]) == [g1, g2];
    assert Concat([g1, g2]) == g1 + Concat([g2]);
    assert Concat([g2]) == g2 + Concat([]);
  }

  /** b2 touches b1 without overlapping it and joins column 1 with span 1. */
  lemma WidenJoin(a: PositionedTask, b1: PositionedTask, b2: PositionedTask)
    requires Overlaps(a, b2) && !Overlaps(b1, b2) && b2.colSpan == 1
    ensures Step(Packing([], [[a], [b1]]), b2) == Packing([], [[a], [b1, b2]])
  {
    var p := Packing([], [[a], [b1]]);
    assert AnyOverlaps([a], b2) && !AnyOverlaps([b1], b2);
    assert RunSpec(p.columns, b2, Run(1, 1));
    StepJoinsColumn(p, b2, 1, 1);
    assert b2.(colSpan := 1) == b2;
    assert [b1] + [b2] == [b1, b2];
    assert [[a], [b1]][1 := [b1, b2]] == [[a], [b1, b2]];
  }

  /** d overlaps a and b2, so it opens column 2, and b1 widens into it. */
  lemma WidenOpen(a: PositionedTask, b1: PositionedTask, b2: PositionedTask, d: PositionedTask)
    requires Overlaps(a, d) && !Overlaps(b1, d) && Overlaps(b2, d)
    requires a.colSpan == 1 && b1.colSpan == 1 && b2.colSpan == 1
    ensures Step(Packing([], [[a], [b1, b2]]), d) == Packing([], [[a], [b1.(colSpan := 2), b2], [d]])
  {
    var p := Packing([], [[a], [b1, b2]]);
    assert AnyOverlaps([a], d);
    assert AnyOverlaps([b1, b2], d) by {
      assert Overlaps([b1, b2][1], d);
    }
    StepOpensColumn(p, d);
    assert WidenColumn([a], 0, 2, d) == [a];
    assert WidenColumn([b1, b2], 1, 2, d) == [b1.(colSpan := 2), b2];
    assert Widen([[a], [b1, b2], [d]], d) == [[a], [b1.(colSpan := 2), b2], [d]];
  }

  /**
   Widening: 9:00-12:00 (a), 9:00-10:00 (b1), 10:00-11:00 (b2) and
   10:30-11:30 (d). b1 overlaps a and opens column 1; b2 touches b1 without
   overlapping it and joins column 1; d overlaps a and b2 and opens column 2.
   Then b1, whose span ended at column 1 and which d does not overlap, widens
   into column 2; b2 overlaps d and keeps its span.
   */
  lemma WidenPack(a: PositionedTask, b1: PositionedTask, b2: PositionedTask, d: PositionedTask)
    requires a == Segment("a", 9 * NanosPerHour, 12 * NanosPerHour)
    requires b1 == Segment("b1", 9 * NanosPerHour, 10 * NanosPerHour)
    requires b2 == Segment("b2", 10 * NanosPerHour, 11 * NanosPerHour)
    requires d == Segment("d", 10 * NanosPerHour + 30 * NanosPerMinute, 11 * NanosPerHour + 30 * NanosPerMinute)
    ensures Pack(Packing([], []), [a, b1, b2, d]) == Packing([], [[a], [b1.(colSpan := 2), b2], [d]])
  {
    PackFour(Packing([], []), a, b1, b2, d);
    FirstStep(a);
    SecondColumn(a, b1);
    WidenJoin(a, b1, b2);
    WidenOpen(a, b1, b2, d);
  }
}
