/**
 `arrangeTasks`: greedy column packing of the day segments.

 The packer walks the segments in order, keeping the columns of the current
 group (`groupTasks`). Each segment either opens a new column (it overlaps
 every column), flushes the group and starts a new one (it overlaps no
 column), or joins the first free column spanning the run of free columns
 from there. Here the walk is a left fold of `Step` over a `Packing`; the
 source appends every flushed group to one output list, and this model keeps
 the flushed groups apart and concatenates them at the end.
 */
module Packer {
  import opened ScheduleTypes
  import opened Overlap
  import opened Columns

  /** The scan's `firstFreeCol` (-1 when none) and `numFreeCol`. */
  datatype Run = Run(first: int, count: nat)

  /** Column `c` holds no segment that overlaps `t`. */
  predicate Free(cs: seq<seq<PositionedTask>>, c: int, t: PositionedTask)
    requires 0 <= c < |cs|
  {
    !AnyOverlaps(cs[c], t)
  }

  /**
   What the scan finds: either no column is free (`first = -1`), or `first`
   is the leftmost free column and `count` the length of the unbroken run of
   free columns starting there.
   */
  predicate RunSpec(cs: seq<seq<PositionedTask>>, t: PositionedTask, r: Run)
  {
    && (r.first == -1 ==> r.count == 0 && forall c :: 0 <= c < |cs| ==> !Free(cs, c, t))
    && (r.first != -1 ==>
          && 0 <= r.first
          && 1 <= r.count
          && r.first + r.count <= |cs|
          && (forall c :: 0 <= c < r.first ==> !Free(cs, c, t))
          && (forall c :: r.first <= c < r.first + r.count ==> Free(cs, c, t))
          && (r.first + r.count < |cs| ==> !Free(cs, r.first + r.count, t)))
  }

  lemma RunFreeAt(cs: seq<seq<PositionedTask>>, t: PositionedTask, r: Run, c: int)
    requires RunSpec(cs, t, r) && r.first != -1 && r.first <= c < r.first + r.count
    ensures Free(cs, c, t)
  {
  }

  /** At most one run meets the description. */
  lemma RunSpecUnique(cs: seq<seq<PositionedTask>>, t: PositionedTask, r1: Run, r2: Run)
    requires RunSpec(cs, t, r1) && RunSpec(cs, t, r2)
    ensures r1 == r2
  {
    if r1.first != -1 && r2.first != -1 {
      assert Free(cs, r1.first, t) && Free(cs, r2.first, t);
      assert r1.first == r2.first;
      if r1.count < r2.count {
        RunFreeAt(cs, t, r2, r1.first + r1.count);
        assert false;
      } else if r2.count < r1.count {
        RunFreeAt(cs, t, r1, r2.first + r2.count);
        assert false;
      }
    } else if r1.first != -1 {
      RunFreeAt(cs, t, r1, r1.first);
      assert false;
    } else if r2.first != -1 {
      RunFreeAt(cs, t, r2, r2.first);
      assert false;
    }
  }

  /** The loop over columns `i` onward, given the run found in columns before `i`. */
  function Scan(cs: seq<seq<PositionedTask>>, t: PositionedTask, i: nat, run: Run): (r: Run)
    requires i <= |cs|
    requires run.first == -1 ==> run.count == 0 && forall c :: 0 <= c < i ==> !Free(cs, c, t)
    requires run.first != -1 ==>
      && 0 <= run.first
      && 1 <= run.count
      && run.first + run.count == i
      && (forall c :: 0 <= c < run.first ==> !Free(cs, c, t))
      && (forall c :: run.first <= c < i ==> Free(cs, c, t))
    ensures RunSpec(cs, t, r)
    decreases |cs| - i
  {
    if i == |cs| then run
    else if AnyOverlaps(cs[i], t) then
      if run.first < 0 then Scan(cs, t, i + 1, run) else run
    else
      Scan(cs, t, i + 1, Run(if run.first < 0 then i else run.first, run.count + 1))
  }

  /** The scan for `firstFreeCol` and `numFreeCol` over all columns. */
  function FreeRun(cs: seq<seq<PositionedTask>>, t: PositionedTask): (r: Run)
    ensures RunSpec(cs, t, r)
  {
    Scan(cs, t, 0, Run(-1, 0))
  }

  /** Widen the segments of column `ci` that reach column `last - 1` and do not overlap `t`. */
  function WidenColumn(column: seq<PositionedTask>, ci: int, last: int, t: PositionedTask): (r: seq<PositionedTask>)
    ensures |r| == |column| && Keys(r) == Keys(column)
    ensures forall k :: 0 <= k < |r| ==>
      r[k].col == column[k].col && r[k].colTotal == column[k].colTotal &&
      (r[k].colSpan == column[k].colSpan ||
       (r[k].colSpan == column[k].colSpan + 1 && ci + column[k].colSpan == last && !Overlaps(column[k], t)))
    ensures forall k :: 0 <= k < |r| ==>
      (r[k].colSpan == column[k].colSpan + 1 <==> ci + column[k].colSpan == last && !Overlaps(column[k], t))
  {
    seq(|column|, k requires 0 <= k < |column| =>
      var e := column[k];
      if ci + e.colSpan == last && !Overlaps(e, t) then e.(colSpan := e.colSpan + 1) else e)
  }

  /**
   The widening pass after a new column was appended (`cs` includes it): in
   every earlier column, a segment whose span ends at the old last column and
   that does not overlap `t` grows by one column.
   */
  function Widen(cs: seq<seq<PositionedTask>>, t: PositionedTask): (r: seq<seq<PositionedTask>>)
    requires |cs| >= 1
    ensures |r| == |cs| && r[|cs| - 1] == cs[|cs| - 1]
    ensures forall ci :: 0 <= ci < |cs| ==> |r[ci]| == |cs[ci]| && Keys(r[ci]) == Keys(cs[ci])
    ensures forall ci, k :: 0 <= ci < |cs| - 1 && 0 <= k < |cs[ci]| ==>
      r[ci][k].colSpan == cs[ci][k].colSpan ||
      (r[ci][k].colSpan == cs[ci][k].colSpan + 1 && ci + cs[ci][k].colSpan == |cs| - 1 &&
       !Overlaps(cs[ci][k], t))
    ensures forall ci, k :: 0 <= ci < |cs| - 1 && 0 <= k < |cs[ci]| ==>
      (r[ci][k].colSpan == cs[ci][k].colSpan + 1 <==> ci + cs[ci][k].colSpan == |cs| - 1 && !Overlaps(cs[ci][k], t))
  {
    seq(|cs|, ci requires 0 <= ci < |cs| =>
      if ci < |cs| - 1 then WidenColumn(cs[ci], ci, |cs| - 1, t) else cs[ci])
  }

  /** The packer's state: the groups flushed so far, and the columns of the open group. */
  datatype Packing = Packing(groups: seq<seq<PositionedTask>>, columns: seq<seq<PositionedTask>>)

  /** The first branch: append a column holding `t`, then widen. */
  function OpenColumn(p: Packing, t: PositionedTask): Packing
  {
    Packing(p.groups, Widen(p.columns + [[t]], t))
  }

  /** The second branch: `resetGroup`, then a new group with one column holding `t`. */
  function NewGroup(p: Packing, t: PositionedTask): Packing
  {
    Packing(p.groups + [Flush(p.columns)], [[t]])
  }

  /** The third branch: add `t` to column `f` with span `n`. */
  function JoinColumn(p: Packing, t: PositionedTask, f: int, n: int): Packing
    requires 0 <= f < |p.columns|
  {
    Packing(p.groups, p.columns[f := p.columns[f] + [t.(colSpan := n)]])
  }

  /** One turn of the `tasks.forEach` loop: the `when` with its three branches, in source order. */
  function Step(p: Packing, t: PositionedTask): Packing
  {
    var run := FreeRun(p.columns, t);
    if run.first < 0 then OpenColumn(p, t)
    else if run.count == |p.columns| then NewGroup(p, t)
    else JoinColumn(p, t, run.first, run.count)
  }

  /** The loop over all segments. */
  function Pack(p: Packing, ts: seq<PositionedTask>): Packing
    decreases |ts|
  {
    if ts == [] then p else Pack(Step(p, ts[0]), ts[1..])
  }

  /** The output of `arrangeTasks`, one entry per `resetGroup` call (the last one flushes the open group). */
  function ArrangeGroups(ts: seq<PositionedTask>): seq<seq<PositionedTask>>
  {
    var p := Pack(Packing([], []), ts);
    p.groups + [Flush(p.columns)]
  }

  /** `arrangeTasks`. */
  function Arrange(ts: seq<PositionedTask>): seq<PositionedTask>
  {
    Concat(ArrangeGroups(ts))
  }

  // ---------------------------------------------------------------------------
  // The three branches of a step

  /** A segment that overlaps every column, or meets an empty group, opens a new column holding just itself. */
  lemma StepOpensColumn(p: Packing, t: PositionedTask)
    requires forall c :: 0 <= c < |p.columns| ==> !Free(p.columns, c, t)
    ensures Step(p, t) == OpenColumn(p, t)
    ensures Step(p, t).groups == p.groups
    ensures |Step(p, t).columns| == |p.columns| + 1 && Step(p, t).columns[|p.columns|] == [t]
  {
    RunSpecUnique(p.columns, t, FreeRun(p.columns, t), Run(-1, 0));
  }

  /**
   A segment that overlaps no column of a non-empty group flushes the group
   and starts a new group whose one column holds just the segment.
   */
  lemma StepStartsGroup(p: Packing, t: PositionedTask)
    requires |p.columns| > 0
    requires forall c :: 0 <= c < |p.columns| ==> Free(p.columns, c, t)
    ensures Step(p, t) == Packing(p.groups + [Flush(p.columns)], [[t]])
  {
    RunSpecUnique(p.columns, t, FreeRun(p.columns, t), Run(0, |p.columns|));
  }

  /**
   Any other segment joins the leftmost free column `f`, with its span set to
   the length `n` of the run of free columns there.
   */
  lemma StepJoinsColumn(p: Packing, t: PositionedTask, f: int, n: nat)
    requires RunSpec(p.columns, t, Run(f, n)) && 0 <= f && n < |p.columns|
    ensures Step(p, t) == Packing(p.groups, p.columns[f := p.columns[f] + [t.(colSpan := n)]])
  {
    RunSpecUnique(p.columns, t, FreeRun(p.columns, t), Run(f, n));
  }

  // ---------------------------------------------------------------------------
  // Every segment comes out exactly once

  /** Two column lists with the same segments up to column data. */
  lemma ConcatSameKeys(a: seq<seq<PositionedTask>>, b: seq<seq<PositionedTask>>)
    requires |a| == |b|
    requires forall i :: 0 <= i < |a| ==> Keys(a[i]) == Keys(b[i])
    ensures Keys(Concat(a)) == Keys(Concat(b))
  {
    if a != [] {
      ConcatSameKeys(a[1..], b[1..]);
      KeysAppend(a[0], Concat(a[1..]));
      KeysAppend(b[0], Concat(b[1..]));
    }
  }

  /** The segments held by the packer: flushed or in open columns, up to column data. */
  ghost function Held(p: Packing): multiset<PositionedTask>
  {
    multiset(Keys(Concat(p.groups))) + multiset(Keys(Concat(p.columns)))
  }

  /** The segments in the open columns, up to column data. */
  ghost function Open(p: Packing): multiset<PositionedTask>
  {
    multiset(Keys(Concat(p.columns)))
  }

  lemma OpenColumnHolds(p: Packing, t: PositionedTask)
    ensures OpenColumn(p, t).groups == p.groups
    ensures Keys(Concat(OpenColumn(p, t).columns)) == Keys(Concat(p.columns)) + [Unplaced(t)]
  {
    var cs := p.columns;
    assert Concat([[t]]) == [t];
    ConcatAppend(cs, [[t]]);
    ConcatSameKeys(OpenColumn(p, t).columns, cs + [[t]]);
    KeysAppend(Concat(cs), [t]);
  }

  lemma JoinColumnHolds(p: Packing, t: PositionedTask, f: int, n: int)
    requires 0 <= f < |p.columns|
    ensures Open(JoinColumn(p, t, f, n)) == Open(p) + multiset{Unplaced(t)}
  {
    var cs := p.columns;
    var u := t.(colSpan := n);
    ConcatUpdate(cs, f, cs[f] + [u]);
    KeysAppend(cs[f], [u]);
    assert Keys([u]) == [Unplaced(t)];
    assert multiset(Keys(cs[f] + [u])) == multiset(Keys(cs[f])) + multiset{Unplaced(t)};
    var q := JoinColumn(p, t, f, n);
    MultisetCancel(Open(q), Open(p) + multiset{Unplaced(t)}, multiset(Keys(cs[f])));
  }

  lemma MultisetCancel<T>(a: multiset<T>, b: multiset<T>, x: multiset<T>)
    requires a + x == b + x
    ensures a == b
  {
    forall e ensures a[e] == b[e] {
      assert (a + x)[e] == (b + x)[e];
    }
  }

  /** A step adds its segment to the open columns, or flushes them and keeps the segment open. */
  lemma StepHolds(p: Packing, t: PositionedTask)
    ensures var q := Step(p, t);
      (q.groups == p.groups && Open(q) == Open(p) + multiset{Unplaced(t)}) ||
      (q.groups == p.groups + [Flush(p.columns)] && Open(q) == multiset{Unplaced(t)})
  {
    var run := FreeRun(p.columns, t);
    if run.first < 0 {
      OpenColumnHolds(p, t);
    } else if run.count == |p.columns| {
      assert Concat([[t]]) == [t];
    } else {
      JoinColumnHolds(p, t, run.first, run.count);
    }
  }

  lemma StepKeepsSegments(p: Packing, t: PositionedTask)
    ensures Held(Step(p, t)) == Held(p) + multiset{Unplaced(t)}
  {
    StepHolds(p, t);
    var q := Step(p, t);
    if q.groups != p.groups {
      ConcatAppend(p.groups, [Flush(p.columns)]);
      assert Concat([Flush(p.columns)]) == Flush(p.columns);
      KeysAppend(Concat(p.groups), Flush(p.columns));
    }
  }

  lemma KeysCons(ts: seq<PositionedTask>)
    requires ts != []
    ensures multiset(Keys(ts)) == multiset{Unplaced(ts[0])} + multiset(Keys(ts[1..]))
  {
    var k := Keys(ts);
    assert k == [k[0]] + k[1..];
    assert k[1..] == Keys(ts[1..]);
  }

  lemma {:induction false} PackKeepsSegments(p: Packing, ts: seq<PositionedTask>)
    ensures Held(Pack(p, ts)) == Held(p) + multiset(Keys(ts))
    decreases |ts|
  {
    if ts != [] {
      var q := Step(p, ts[0]);
      StepKeepsSegments(p, ts[0]);
      PackKeepsSegments(q, ts[1..]);
      KeysCons(ts);
    }
  }

  /**
   The output is a permutation of the input up to the column fields: every
   segment appears exactly once, with task, split type, date, start and end
   unchanged.
   */
  lemma ArrangePermutes(ts: seq<PositionedTask>)
    ensures multiset(Keys(Arrange(ts))) == multiset(Keys(ts))
    ensures |Arrange(ts)| == |ts|
  {
    var p := Pack(Packing([], []), ts);
    PackKeepsSegments(Packing([], []), ts);
    assert Held(Packing([], [])) == multiset{};
    ConcatAppend(p.groups, [Flush(p.columns)]);
    assert Concat([Flush(p.columns)]) == Flush(p.columns);
    KeysAppend(Concat(p.groups), Flush(p.columns));
    assert |multiset(Keys(Arrange(ts)))| == |Keys(Arrange(ts))|;
  }

  // ---------------------------------------------------------------------------
  // No collision inside a group, and the column bounds

  /** No column of the open group holds two overlapping segments. */
  predicate ColumnsClear(cs: seq<seq<PositionedTask>>)
  {
    forall c :: 0 <= c < |cs| ==> ColumnClear(cs[c])
  }

  /**
   What `resetGroup` promises of one flushed group: every segment has
   `0 <= col < colTotal`, all share one `colTotal`, and segments with the
   same `col` do not overlap.
   */
  predicate GroupPlaced(g: seq<PositionedTask>)
  {
    && GroupClear(g)
    && forall k :: 0 <= k < |g| ==> 0 <= g[k].col < g[k].colTotal && g[k].colTotal == g[0].colTotal
  }

  /** Every segment of the group spans at least one column and ends by the last one. */
  predicate SpansPlaced(g: seq<PositionedTask>)
  {
    forall k :: 0 <= k < |g| ==> 1 <= g[k].colSpan && g[k].col + g[k].colSpan <= g[k].colTotal
  }

  lemma ColumnClearKeys(a: seq<PositionedTask>, b: seq<PositionedTask>)
    requires Keys(a) == Keys(b) && ColumnClear(a)
    ensures ColumnClear(b)
  {
    forall i, j | 0 <= i < j < |b|
      ensures !Overlaps(b[i], b[j])
    {
      assert Keys(a)[i] == Keys(b)[i] && Keys(a)[j] == Keys(b)[j];
      OverlapsIgnoresColumns(a[i], a[j]);
      OverlapsIgnoresColumns(b[i], b[j]);
    }
  }

  lemma StepKeepsColumnsClear(p: Packing, t: PositionedTask)
    requires ColumnsClear(p.columns)
    ensures ColumnsClear(Step(p, t).columns)
  {
    var cs := p.columns;
    var run := FreeRun(cs, t);
    var q := Step(p, t);
    if run.first < 0 {
      var ext := cs + [[t]];
      forall c | 0 <= c < |q.columns|
        ensures ColumnClear(q.columns[c])
      {
        if c < |cs| {
          assert ext[c] == cs[c];
          ColumnClearKeys(cs[c], q.columns[c]);
        }
      }
    } else if run.count < |cs| {
      var f := run.first;
      var u := t.(colSpan := run.count);
      var col := cs[f] + [u];
      assert Free(cs, f, t);
      forall i, j | 0 <= i < j < |col|
        ensures !Overlaps(col[i], col[j])
      {
        if j < |cs[f]| {
          assert ColumnClear(cs[f]);
        } else {
          assert !Overlaps(cs[f][i], t);
        }
      }
    }
  }

  lemma StepKeepsSpans(p: Packing, t: PositionedTask)
    requires SpansFit(p.columns) && t.colSpan == 1
    ensures SpansFit(Step(p, t).columns)
  {
    var cs := p.columns;
    var run := FreeRun(cs, t);
    var q := Step(p, t);
    if run.first < 0 {
      var ext := cs + [[t]];
      forall c, k | 0 <= c < |q.columns| && 0 <= k < |q.columns[c]|
        ensures 1 <= q.columns[c][k].colSpan && c + q.columns[c][k].colSpan <= |q.columns|
      {
        if c < |cs| {
          assert ext[c] == cs[c];
          assert 1 <= cs[c][k].colSpan && c + cs[c][k].colSpan <= |cs|;
        }
      }
    } else if run.count < |cs| {
      var f := run.first;
      forall c, k | 0 <= c < |q.columns| && 0 <= k < |q.columns[c]|
        ensures 1 <= q.columns[c][k].colSpan && c + q.columns[c][k].colSpan <= |q.columns|
      {
        if c != f || k < |cs[f]| {
          assert q.columns[c][k] == cs[c][k];
        }
      }
    }
  }

  /** The invariant of the loop: flushed groups are placed, open columns are clear. */
  ghost predicate PackPlaced(p: Packing)
  {
    && ColumnsClear(p.columns)
    && forall g :: g in p.groups ==> GroupPlaced(g)
  }

  lemma {:induction false} PackKeepsPlaced(p: Packing, ts: seq<PositionedTask>)
    requires PackPlaced(p)
    ensures PackPlaced(Pack(p, ts))
    decreases |ts|
  {
    if ts != [] {
      var q := Step(p, ts[0]);
      StepKeepsColumnsClear(p, ts[0]);
      StepHolds(p, ts[0]);
      if q.groups != p.groups {
        assert q.groups == p.groups + [Flush(p.columns)];
        assert GroupPlaced(Flush(p.columns));
      }
      PackKeepsPlaced(q, ts[1..]);
    }
  }

  /** The invariant of the loop when every input segment has span 1. */
  ghost predicate PackSpans(p: Packing)
  {
    && SpansFit(p.columns)
    && forall g :: g in p.groups ==> SpansPlaced(g)
  }

  lemma {:induction false} PackKeepsSpans(p: Packing, ts: seq<PositionedTask>)
    requires PackSpans(p)
    requires forall k :: 0 <= k < |ts| ==> ts[k].colSpan == 1
    ensures PackSpans(Pack(p, ts))
    decreases |ts|
  {
    if ts != [] {
      var q := Step(p, ts[0]);
      StepKeepsSpans(p, ts[0]);
      StepHolds(p, ts[0]);
      if q.groups != p.groups {
        assert q.groups == p.groups + [Flush(p.columns)];
        assert SpansPlaced(Flush(p.columns));
      }
      PackKeepsSpans(q, ts[1..]);
    }
  }

  /**
   Every `resetGroup` output is placed: `0 <= col < colTotal`, one
   `colTotal` per group, and no two segments with the same `col` overlap.
   */
  lemma ArrangeGroupsPlaced(ts: seq<PositionedTask>)
    ensures forall g :: g in ArrangeGroups(ts) ==> GroupPlaced(g)
  {
    var p := Pack(Packing([], []), ts);
    PackKeepsPlaced(Packing([], []), ts);
    assert GroupPlaced(Flush(p.columns));
  }

  /** Every output segment has `0 <= col < colTotal`, so `colTotal >= 1`. */
  lemma ArrangeColumnBounds(ts: seq<PositionedTask>)
    ensures forall x :: x in Arrange(ts) ==> 0 <= x.col < x.colTotal
  {
    var gs := ArrangeGroups(ts);
    ArrangeGroupsPlaced(ts);
    forall x | x in Concat(gs)
      ensures 0 <= x.col < x.colTotal
    {
      ConcatMember(gs, x);
      var c :| 0 <= c < |gs| && x in gs[c];
      assert GroupPlaced(gs[c]);
      var k :| 0 <= k < |gs[c]| && gs[c][k] == x;
    }
  }

  /**
   When every input segment has span 1 (as `splitTasks` makes them), every
   output segment spans at least one column and ends by the group's last
   column: `1 <= colSpan` and `col + colSpan <= colTotal`.
   */
  lemma ArrangeSpanBounds(ts: seq<PositionedTask>)
    requires forall k :: 0 <= k < |ts| ==> ts[k].colSpan == 1
    ensures forall x :: x in Arrange(ts) ==> 1 <= x.colSpan && x.col + x.colSpan <= x.colTotal
  {
    var p := Pack(Packing([], []), ts);
    PackKeepsSpans(Packing([], []), ts);
    assert SpansPlaced(Flush(p.columns));
    forall x | x in Arrange(ts)
      ensures 1 <= x.colSpan && x.col + x.colSpan <= x.colTotal
    {
      ConcatMember(ArrangeGroups(ts), x);
      var c :| 0 <= c < |ArrangeGroups(ts)| && x in ArrangeGroups(ts)[c];
      assert SpansPlaced(ArrangeGroups(ts)[c]);
    }
  }
}
