/**
 The overlap test of the packer: `overlapsWith` on two segments and
 `timesOverlapWith` on a column of segments.
 */
module Overlap {
  import opened ScheduleTypes

  /**
   Two segments overlap when they lie on the same date and their half-open
   ranges `[start, end)` intersect.
   */
  function Overlaps(a: PositionedTask, b: PositionedTask): (r: bool)
    ensures r ==> a.date == b.date
    ensures a.end <= b.start ==> !r
    ensures b.end <= a.start ==> !r
  {
    a.date == b.date && a.start < b.end && a.end > b.start
  }

  lemma OverlapsSymmetric(a: PositionedTask, b: PositionedTask)
    ensures Overlaps(a, b) == Overlaps(b, a)
  {
  }

  lemma OverlapsSelf(a: PositionedTask)
    ensures Overlaps(a, a) <==> a.start < a.end
  {
  }

  /** Overlap looks only at date and time range, never at the column data. */
  lemma OverlapsIgnoresColumns(a: PositionedTask, b: PositionedTask)
    ensures Overlaps(a, b) == Overlaps(Unplaced(a), Unplaced(b))
  {
  }

  /** The instant `x` (nanoseconds of the day) lies in the half-open range of `p`. */
  predicate During(p: PositionedTask, x: int)
  {
    p.start <= x < p.end
  }

  /**
   Reference definition: for segments of positive length, overlap means some
   instant lies in both ranges on the same date. (A zero-length segment
   strictly inside another still overlaps it, though it holds no instant.)
   */
  lemma OverlapsIffSharedInstant(a: PositionedTask, b: PositionedTask)
    requires a.start < a.end && b.start < b.end
    ensures Overlaps(a, b) <==> a.date == b.date && exists x :: During(a, x) && During(b, x)
  {
    if Overlaps(a, b) {
      var x := if a.start < b.start then b.start else a.start;
      assert During(a, x) && During(b, x);
    }
  }

  /** `timesOverlapWith`: some segment of the column overlaps `t`. */
  function AnyOverlaps(column: seq<PositionedTask>, t: PositionedTask): (r: bool)
    ensures r <==> exists k :: 0 <= k < |column| && Overlaps(column[k], t)
  {
    if column == [] then false
    else
      var rest := AnyOverlaps(column[1..], t);
      assert rest <==> exists k :: 1 <= k < |column| && Overlaps(column[k], t) by {
        forall k | 1 <= k < |column| ensures column[k] == column[1..][k - 1] { }
      }
      Overlaps(column[0], t) || rest
  }
}
