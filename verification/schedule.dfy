/**
 What `BasicSchedule` lays out: the tasks sorted by start (`sortedBy`, which
 is stable), split into day segments, packed into columns, and kept only when
 they reach into the visible window from `minTime` to `maxTime`.
 */
module Schedule {
  import opened ScheduleTypes
  import opened Split
  import opened Packer

  // ---------------------------------------------------------------------------
  // `tasks.sortedBy(Task::start)`

  /** Tasks in chronological order of their start. */
  predicate SortedByStart(ts: seq<Task>)
  {
    forall i, j :: 0 <= i < j < |ts| ==> NotAfter(ts[i].start, ts[j].start)
  }

  /** Put `x` after every task of the sorted `s` that does not start after it. */
  function Insert(x: Task, s: seq<Task>): seq<Task>
  {
    if s == [] then [x]
    else if !NotAfter(s[0].start, x.start) then [x] + s
    else [s[0]] + Insert(x, s[1..])
  }

  /** Inserting a task adds exactly that task. */
  lemma {:induction false} InsertPermutes(x: Task, s: seq<Task>)
    ensures multiset(Insert(x, s)) == multiset(s) + multiset{x}
  {
    if s != [] && NotAfter(s[0].start, x.start) {
      InsertPermutes(x, s[1..]);
      assert s == [s[0]] + s[1..];
    }
  }

  /** No task of `s` starts before `a`. */
  predicate NoneBefore(a: DateTime, s: seq<Task>)
  {
    forall i :: 0 <= i < |s| ==> NotAfter(a, s[i].start)
  }

  lemma SortedCons(s: seq<Task>)
    requires s != []
    ensures SortedByStart(s) <==> NoneBefore(s[0].start, s[1..]) && SortedByStart(s[1..])
  {
    if NoneBefore(s[0].start, s[1..]) && SortedByStart(s[1..]) {
      forall i, j | 0 <= i < j < |s| ensures NotAfter(s[i].start, s[j].start) {
        assert s[j] == s[1..][j - 1];
        if i > 0 {
          assert s[i] == s[1..][i - 1];
        }
      }
    }
    if SortedByStart(s) {
      forall i | 0 <= i < |s[1..]| ensures NotAfter(s[0].start, s[1..][i].start) {
        assert s[1..][i] == s[i + 1];
      }
      forall i, j | 0 <= i < j < |s[1..]| ensures NotAfter(s[1..][i].start, s[1..][j].start) {
        assert s[1..][i] == s[i + 1] && s[1..][j] == s[j + 1];
      }
    }
  }

  lemma {:induction false} InsertNoneBefore(a: DateTime, x: Task, s: seq<Task>)
    requires NoneBefore(a, s) && NotAfter(a, x.start)
    ensures NoneBefore(a, Insert(x, s))
  {
    if s != [] && NotAfter(s[0].start, x.start) {
      assert NoneBefore(a, s[1..]) by {
        forall i | 0 <= i < |s[1..]| ensures NotAfter(a, s[1..][i].start) {
          assert s[1..][i] == s[i + 1];
        }
      }
      InsertNoneBefore(a, x, s[1..]);
      var r := Insert(x, s);
      assert r == [s[0]] + Insert(x, s[1..]);
      forall i | 0 <= i < |r| ensures NotAfter(a, r[i].start) {
        if i > 0 {
          assert r[i] == Insert(x, s[1..])[i - 1];
        }
      }
    }
  }

  /** Inserting into a sorted sequence keeps it sorted. */
  lemma {:induction false} InsertSorted(x: Task, s: seq<Task>)
    requires SortedByStart(s)
    ensures SortedByStart(Insert(x, s))
  {
    var r := Insert(x, s);
    if s == [] {
    } else if !NotAfter(s[0].start, x.start) {
      SortedCons(s);
      assert r[1..] == s;
      forall i | 0 <= i < |s| ensures NotAfter(x.start, s[i].start) {
        if i > 0 {
          assert s[i] == s[1..][i - 1];
        }
      }
      SortedCons(r);
    } else {
      SortedCons(s);
      InsertSorted(x, s[1..]);
      InsertNoneBefore(s[0].start, x, s[1..]);
      assert r[1..] == Insert(x, s[1..]);
      SortedCons(r);
    }
  }

  /** Insertion sort, taking the tasks from the back so that equal starts keep their order. */
  function SortByStart(ts: seq<Task>): (r: seq<Task>)
    ensures multiset(r) == multiset(ts)
  {
    if ts == [] then []
    else
      assert ts == ts[..|ts| - 1] + [ts[|ts| - 1]];
      InsertPermutes(ts[|ts| - 1], SortByStart(ts[..|ts| - 1]));
      Insert(ts[|ts| - 1], SortByStart(ts[..|ts| - 1]))
  }

  /** The sort puts the tasks in chronological order of their start. */
  lemma {:induction false} SortByStartSorted(ts: seq<Task>)
    ensures SortedByStart(SortByStart(ts))
  {
    if ts != [] {
      SortByStartSorted(ts[..|ts| - 1]);
      InsertSorted(ts[|ts| - 1], SortByStart(ts[..|ts| - 1]));
    }
  }

  /** The tasks of `s` that start at `k`, in the order of `s`. */
  function StartingAt(s: seq<Task>, k: DateTime): seq<Task>
  {
    if s == [] then []
    else (if s[0].start == k then [s[0]] else []) + StartingAt(s[1..], k)
  }

  lemma {:induction false} StartingAtAppend(a: seq<Task>, b: seq<Task>, k: DateTime)
    ensures StartingAt(a + b, k) == StartingAt(a, k) + StartingAt(b, k)
  {
    if a == [] {
      assert a + b == b;
    } else {
      assert (a + b)[1..] == a[1..] + b;
      StartingAtAppend(a[1..], b, k);
    }
  }

  lemma {:induction false} StartingAtNone(s: seq<Task>, k: DateTime)
    requires forall i :: 0 <= i < |s| ==> s[i].start != k
    ensures StartingAt(s, k) == []
  {
    if s != [] {
      StartingAtNone(s[1..], k);
    }
  }

  /** `x` starts strictly before every task of the sorted `s`, so none of them starts when it does. */
  lemma InsertFrontStable(x: Task, s: seq<Task>, k: DateTime)
    requires s != [] && SortedByStart(s) && !NotAfter(s[0].start, x.start)
    ensures StartingAt([x] + s, k) == StartingAt(s, k) + (if x.start == k then [x] else [])
  {
    var r := [x] + s;
    assert r[1..] == s;
    if x.start == k {
      forall i | 0 <= i < |s| ensures s[i].start != k {
        if i > 0 {
          assert NotAfter(s[0].start, s[i].start);
        }
      }
      StartingAtNone(s, k);
    }
  }

  /** Inserting `x` puts it after every task of `s` with the same start. */
  lemma {:induction false} InsertStable(x: Task, s: seq<Task>, k: DateTime)
    requires SortedByStart(s)
    ensures StartingAt(Insert(x, s), k) == StartingAt(s, k) + (if x.start == k then [x] else [])
  {
    if s == [] {
      assert Insert(x, s) == [x];
      assert [x][1..] == [];
    } else if !NotAfter(s[0].start, x.start) {
      assert Insert(x, s) == [x] + s;
      InsertFrontStable(x, s, k);
    } else {
      SortedCons(s);
      InsertStable(x, s[1..], k);
      InsertStableStep(x, s, k);
    }
  }

  /** The step of `InsertStable` where `x` goes past the first task of `s`. */
  lemma InsertStableStep(x: Task, s: seq<Task>, k: DateTime)
    requires s != [] && NotAfter(s[0].start, x.start)
    requires StartingAt(Insert(x, s[1..]), k) == StartingAt(s[1..], k) + (if x.start == k then [x] else [])
    ensures StartingAt(Insert(x, s), k) == StartingAt(s, k) + (if x.start == k then [x] else [])
  {
    var tail := Insert(x, s[1..]);
    var h: seq<Task> := if s[0].start == k then [s[0]] else [];
    var e: seq<Task> := if x.start == k then [x] else [];
    var rest := StartingAt(s[1..], k);
    assert s == [s[0]] + s[1..];
    assert Insert(x, s) == [s[0]] + tail;
    StartingAtPrepend(s[0], tail, k);
    assert StartingAt(Insert(x, s), k) == h + StartingAt(tail, k);
    assert StartingAt(s, k) == h + rest;
    AppendAssoc(h, rest, e);
  }

  lemma AppendAssoc(a: seq<Task>, b: seq<Task>, c: seq<Task>)
    ensures a + (b + c) == (a + b) + c
  {
  }

  lemma StartingAtPrepend(y: Task, t: seq<Task>, k: DateTime)
    ensures StartingAt([y] + t, k) == (if y.start == k then [y] else []) + StartingAt(t, k)
  {
    assert ([y] + t)[1..] == t;
  }

  /**
   The sort is stable: the tasks that start at any one instant come out in
   the order they came in.
   */
  lemma {:induction false} SortStable(ts: seq<Task>, k: DateTime)
    ensures StartingAt(SortByStart(ts), k) == StartingAt(ts, k)
  {
    if ts != [] {
      var init := ts[..|ts| - 1];
      var x := ts[|ts| - 1];
      SortByStartLast(ts);
      SortStable(init, k);
      InsertStable(x, SortByStart(init), k);
      StartingAtLast(ts, k);
    }
  }

  lemma SortByStartLast(ts: seq<Task>)
    requires ts != []
    ensures SortByStart(ts) == Insert(ts[|ts| - 1], SortByStart(ts[..|ts| - 1]))
    ensures SortedByStart(SortByStart(ts[..|ts| - 1]))
  {
    SortByStartSorted(ts[..|ts| - 1]);
  }

  lemma StartingAtLast(ts: seq<Task>, k: DateTime)
    requires ts != []
    ensures StartingAt(ts, k) ==
      StartingAt(ts[..|ts| - 1], k) + (if ts[|ts| - 1].start == k then [ts[|ts| - 1]] else [])
  {
    var x := ts[|ts| - 1];
    assert ts == ts[..|ts| - 1] + [x];
    StartingAtAppend(ts[..|ts| - 1], [x], k);
    assert [x][1..] == [];
  }

  // ---------------------------------------------------------------------------
  // The visible-window filter `it.end > minTime && it.start < maxTime`

  /** The segment reaches into the window from `minTime` to `maxTime`. */
  predicate Visible(p: PositionedTask, minTime: TimeOfDay, maxTime: TimeOfDay)
  {
    p.end > minTime && p.start < maxTime
  }

  /** The segments of `ps` that reach into the window, in order. */
  function VisibleOnly(ps: seq<PositionedTask>, minTime: TimeOfDay, maxTime: TimeOfDay): (r: seq<PositionedTask>)
    ensures |r| <= |ps|
    ensures forall i :: 0 <= i < |r| ==> Visible(r[i], minTime, maxTime)
  {
    if ps == [] then []
    else
      var rest := VisibleOnly(ps[1..], minTime, maxTime);
      if Visible(ps[0], minTime, maxTime) then [ps[0]] + rest else rest
  }

  /** `filter` keeps order: filtering `a + b` is filtering `a`, then filtering `b`. */
  lemma {:induction false} VisibleOnlyAppend(a: seq<PositionedTask>, b: seq<PositionedTask>, minTime: TimeOfDay, maxTime: TimeOfDay)
    ensures VisibleOnly(a + b, minTime, maxTime) == VisibleOnly(a, minTime, maxTime) + VisibleOnly(b, minTime, maxTime)
  {
    if a == [] {
      assert a + b == b;
    } else {
      assert (a + b)[0] == a[0] && (a + b)[1..] == a[1..] + b;
      VisibleOnlyAppend(a[1..], b, minTime, maxTime);
    }
  }

  /** One segment is kept exactly when it is visible. */
  lemma VisibleOnlySingle(x: PositionedTask, minTime: TimeOfDay, maxTime: TimeOfDay)
    ensures VisibleOnly([x], minTime, maxTime) == if Visible(x, minTime, maxTime) then [x] else []
  {
    assert [x][1..] == [];
  }

  /** The filter keeps every occurrence of a visible segment and none of any other. */
  lemma {:induction false} VisibleOnlyCount(ps: seq<PositionedTask>, minTime: TimeOfDay, maxTime: TimeOfDay, x: PositionedTask)
    ensures multiset(VisibleOnly(ps, minTime, maxTime))[x] ==
            if Visible(x, minTime, maxTime) then multiset(ps)[x] else 0
  {
    if ps != [] {
      VisibleOnlyCount(ps[1..], minTime, maxTime, x);
      assert ps == [ps[0]] + ps[1..];
    }
  }

  /** Dropping column data and filtering commute: visibility looks only at the times. */
  lemma {:induction false} VisibleOnlyKeys(ps: seq<PositionedTask>, minTime: TimeOfDay, maxTime: TimeOfDay)
    ensures Keys(VisibleOnly(ps, minTime, maxTime)) == VisibleOnly(Keys(ps), minTime, maxTime)
  {
    if ps != [] {
      var ks := Keys(ps);
      VisibleOnlyKeys(ps[1..], minTime, maxTime);
      assert ks[1..] == Keys(ps[1..]);
      assert ks[0] == Unplaced(ps[0]);
      assert Visible(ks[0], minTime, maxTime) == Visible(ps[0], minTime, maxTime);
      var rest := VisibleOnly(ps[1..], minTime, maxTime);
      if Visible(ps[0], minTime, maxTime) {
        assert VisibleOnly(ps, minTime, maxTime) == [ps[0]] + rest;
        KeysAppend([ps[0]], rest);
      }
    }
  }

  /** Filtering depends only on how often each segment occurs. */
  lemma VisibleOnlyMultiset(a: seq<PositionedTask>, b: seq<PositionedTask>, minTime: TimeOfDay, maxTime: TimeOfDay)
    requires multiset(a) == multiset(b)
    ensures multiset(VisibleOnly(a, minTime, maxTime)) == multiset(VisibleOnly(b, minTime, maxTime))
  {
    var ra := VisibleOnly(a, minTime, maxTime);
    var rb := VisibleOnly(b, minTime, maxTime);
    forall x ensures multiset(ra)[x] == multiset(rb)[x] {
      VisibleOnlyCount(a, minTime, maxTime, x);
      VisibleOnlyCount(b, minTime, maxTime, x);
    }
  }

  // ---------------------------------------------------------------------------
  // The whole pipeline

  /** `arrangeTasks(splitTasks(tasks.sortedBy(Task::start))).filter { … }` */
  function Positioned(tasks: seq<Task>, minTime: TimeOfDay, maxTime: TimeOfDay): seq<PositionedTask>
  {
    VisibleOnly(Arrange(SplitTasks(SortByStart(tasks))), minTime, maxTime)
  }

  /** Fresh segments carry the default column data, so dropping it changes nothing. */
  lemma KeysOfSplit(ps: seq<PositionedTask>)
    requires forall k :: 0 <= k < |ps| ==> ps[k].col == 0 && ps[k].colSpan == 1 && ps[k].colTotal == 1
    ensures Keys(ps) == ps
  {
  }

  /**
   Up to column data, the schedule shows every visible day segment of every
   task exactly once: its segments are the visible segments of the split
   tasks, each as often as it occurs there.
   */
  lemma PositionedExactlyOnce(tasks: seq<Task>, minTime: TimeOfDay, maxTime: TimeOfDay)
    ensures multiset(Keys(Positioned(tasks, minTime, maxTime))) ==
            multiset(VisibleOnly(SplitTasks(SortByStart(tasks)), minTime, maxTime))
  {
    var split := SplitTasks(SortByStart(tasks));
    var out := Arrange(split);
    ArrangePermutes(split);
    KeysOfSplit(split);
    VisibleOnlyKeys(out, minTime, maxTime);
    VisibleOnlyMultiset(Keys(out), split, minTime, maxTime);
  }

  /**
   Every segment shown belongs to one of the tasks, is visible, and has its
   column data in range: `0 <= col`, `1 <= colSpan` and `col + colSpan <= colTotal`.
   */
  lemma PositionedSound(tasks: seq<Task>, minTime: TimeOfDay, maxTime: TimeOfDay, x: PositionedTask)
    requires x in Positioned(tasks, minTime, maxTime)
    ensures Visible(x, minTime, maxTime)
    ensures 0 <= x.col && 1 <= x.colSpan && x.col + x.colSpan <= x.colTotal
    ensures exists t :: t in tasks && Unplaced(x) in SplitTask(t)
  {
    var sorted := SortByStart(tasks);
    var split := SplitTasks(sorted);
    var out := Arrange(split);
    assert multiset(Positioned(tasks, minTime, maxTime))[x] > 0;
    VisibleOnlyCount(out, minTime, maxTime, x);
    assert x in out;
    ArrangeColumnBounds(split);
    ArrangeSpanBounds(split);
    PositionedExactlyOnce(tasks, minTime, maxTime);
    KeysMember(Positioned(tasks, minTime, maxTime), x);
    var u := Unplaced(x);
    assert u in VisibleOnly(split, minTime, maxTime);
    assert multiset(VisibleOnly(split, minTime, maxTime))[u] > 0;
    VisibleOnlyCount(split, minTime, maxTime, u);
    assert u in split;
    var t :| t in sorted && u in SplitTask(t);
    assert t in multiset(sorted);
  }

  /** Every visible segment of every task is shown, with some column data. */
  lemma PositionedComplete(tasks: seq<Task>, minTime: TimeOfDay, maxTime: TimeOfDay, t: Task, p: PositionedTask)
    requires t in tasks && p in SplitTask(t) && Visible(p, minTime, maxTime)
    ensures exists x :: x in Positioned(tasks, minTime, maxTime) && Unplaced(x) == p
  {
    var sorted := SortByStart(tasks);
    var split := SplitTasks(sorted);
    assert t in multiset(tasks);
    assert t in sorted;
    assert p in split;
    VisibleOnlyCount(split, minTime, maxTime, p);
    assert multiset(VisibleOnly(split, minTime, maxTime))[p] > 0;
    PositionedExactlyOnce(tasks, minTime, maxTime);
    var keys := Keys(Positioned(tasks, minTime, maxTime));
    assert p in multiset(keys);
    var i :| 0 <= i < |keys| && keys[i] == p;
    assert Positioned(tasks, minTime, maxTime)[i] in Positioned(tasks, minTime, maxTime);
  }
}
