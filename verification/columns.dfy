/**
 Columns of segments, as the packer keeps them (`groupTasks`), and
 `resetGroup`, which turns a group of columns into output segments.
 */
module Columns {
  import opened ScheduleTypes
  import opened Overlap

  /** The segments of all columns, column by column. */
  function Concat(cs: seq<seq<PositionedTask>>): seq<PositionedTask>
  {
    if cs == [] then [] else cs[0] + Concat(cs[1..])
  }

  lemma ConcatAppend(cs: seq<seq<PositionedTask>>, ds: seq<seq<PositionedTask>>)
    ensures Concat(cs + ds) == Concat(cs) + Concat(ds)
  {
    if cs != [] {
      assert (cs + ds)[1..] == cs[1..] + ds;
      ConcatAppend(cs[1..], ds);
    } else {
      assert cs + ds == ds;
    }
  }

  /** Every segment of the concatenation sits in one of the columns. */
  lemma ConcatMember(cs: seq<seq<PositionedTask>>, x: PositionedTask)
    requires x in Concat(cs)
    ensures exists c :: 0 <= c < |cs| && x in cs[c]
  {
    if x !in cs[0] {
      ConcatMember(cs[1..], x);
      var c :| 0 <= c < |cs[1..]| && x in cs[1..][c];
      assert x in cs[c + 1];
    }
  }

  /** Replacing a column replaces its segments in the multiset of the columns' segments. */
  lemma ConcatUpdate(cs: seq<seq<PositionedTask>>, f: int, col: seq<PositionedTask>)
    requires 0 <= f < |cs|
    ensures multiset(Keys(Concat(cs[f := col]))) + multiset(Keys(cs[f])) ==
            multiset(Keys(Concat(cs))) + multiset(Keys(col))
  {
    var ds := cs[f := col];
    KeysAppend(cs[0], Concat(cs[1..]));
    KeysAppend(ds[0], Concat(ds[1..]));
    assert Concat(cs) == cs[0] + Concat(cs[1..]);
    assert Concat(ds) == ds[0] + Concat(ds[1..]);
    assert multiset(Keys(Concat(cs))) == multiset(Keys(cs[0])) + multiset(Keys(Concat(cs[1..])));
    assert multiset(Keys(Concat(ds))) == multiset(Keys(ds[0])) + multiset(Keys(Concat(ds[1..])));
    if f > 0 {
      assert ds[0] == cs[0];
      assert ds[1..] == cs[1..][f - 1 := col];
      assert cs[1..][f - 1] == cs[f];
      ConcatUpdate(cs[1..], f - 1, col);
      assert multiset(Keys(Concat(ds[1..]))) + multiset(Keys(cs[f])) ==
             multiset(Keys(Concat(cs[1..]))) + multiset(Keys(col));
      assert multiset(Keys(ds[0])) == multiset(Keys(cs[0]));
      assert multiset(Keys(Concat(ds))) + multiset(Keys(cs[f])) ==
             multiset(Keys(cs[0])) + (multiset(Keys(Concat(ds[1..]))) + multiset(Keys(cs[f])));
    } else {
      assert ds[1..] == cs[1..];
    }
  }

  /** No two segments of the column overlap. */
  predicate ColumnClear(column: seq<PositionedTask>)
  {
    forall i, j :: 0 <= i < j < |column| ==> !Overlaps(column[i], column[j])
  }

  /** No two segments of a flushed group that got the same `col` overlap. */
  predicate GroupClear(g: seq<PositionedTask>)
  {
    forall i, j :: 0 <= i < j < |g| && g[i].col == g[j].col ==> !Overlaps(g[i], g[j])
  }

  /** Each segment of column `c` spans at least one column and stays left of column `n`. */
  predicate SpansFit(cs: seq<seq<PositionedTask>>)
  {
    forall c, k :: 0 <= c < |cs| && 0 <= k < |cs[c]| ==>
      1 <= cs[c][k].colSpan && c + cs[c][k].colSpan <= |cs|
  }

  /** Column `i` with every segment's `col` and `colTotal` overwritten. */
  function Label(column: seq<PositionedTask>, i: int, total: int): (r: seq<PositionedTask>)
    ensures |r| == |column|
    ensures Keys(r) == Keys(column)
    ensures forall k :: 0 <= k < |r| ==>
      r[k].col == i && r[k].colTotal == total && r[k].colSpan == column[k].colSpan
  {
    seq(|column|, k requires 0 <= k < |column| => column[k].(col := i, colTotal := total))
  }

  /** The output of `resetGroup` for columns `i` onward of a group of `total` columns. */
  function FlushFrom(cs: seq<seq<PositionedTask>>, i: nat, total: int): (r: seq<PositionedTask>)
    requires i <= |cs|
    ensures Keys(r) == Keys(Concat(cs[i..]))
    ensures forall k :: 0 <= k < |r| ==> i <= r[k].col < |cs| && r[k].colTotal == total
    decreases |cs| - i
  {
    if i == |cs| then
      assert cs[i..] == [];
      []
    else
      var head := Label(cs[i], i, total);
      var rest := FlushFrom(cs, i + 1, total);
      assert cs[i..] == [cs[i]] + cs[i + 1..];
      assert Concat(cs[i..]) == cs[i] + Concat(cs[i + 1..]);
      KeysAppend(head, rest);
      KeysAppend(cs[i], Concat(cs[i + 1..]));
      head + rest
  }

  /** Segment `k` of column `c` comes out with `col = c` and the group's `colTotal`, everything else kept. */
  lemma {:induction false} FlushFromHolds(cs: seq<seq<PositionedTask>>, i: nat, total: int)
    requires i <= |cs|
    ensures forall c, k :: i <= c < |cs| && 0 <= k < |cs[c]| ==>
      cs[c][k].(col := c, colTotal := total) in FlushFrom(cs, i, total)
    decreases |cs| - i
  {
    if i < |cs| {
      var head := Label(cs[i], i, total);
      var rest := FlushFrom(cs, i + 1, total);
      assert FlushFrom(cs, i, total) == head + rest;
      FlushFromHolds(cs, i + 1, total);
      forall c, k | i <= c < |cs| && 0 <= k < |cs[c]|
        ensures cs[c][k].(col := c, colTotal := total) in head + rest
      {
        if c == i {
          assert (head + rest)[k] == head[k];
        } else {
          assert cs[c][k].(col := c, colTotal := total) in rest;
        }
      }
    }
  }

  lemma {:induction false} FlushFromSpans(cs: seq<seq<PositionedTask>>, i: nat)
    requires i <= |cs|
    requires SpansFit(cs)
    ensures forall k :: 0 <= k < |FlushFrom(cs, i, |cs|)| ==>
      1 <= FlushFrom(cs, i, |cs|)[k].colSpan && FlushFrom(cs, i, |cs|)[k].col + FlushFrom(cs, i, |cs|)[k].colSpan <= |cs|
    decreases |cs| - i
  {
    if i < |cs| {
      var head := Label(cs[i], i, |cs|);
      var rest := FlushFrom(cs, i + 1, |cs|);
      var r := FlushFrom(cs, i, |cs|);
      assert r == head + rest;
      FlushFromSpans(cs, i + 1);
      forall k | 0 <= k < |r|
        ensures 1 <= r[k].colSpan && r[k].col + r[k].colSpan <= |cs|
      {
        if k < |head| {
          assert r[k].colSpan == cs[i][k].colSpan && r[k].col == i;
          assert 1 <= cs[i][k].colSpan && i + cs[i][k].colSpan <= |cs|;
        } else {
          assert r[k] == rest[k - |head|];
          assert 1 <= rest[k - |head|].colSpan && rest[k - |head|].col + rest[k - |head|].colSpan <= |cs|;
        }
      }
    }
  }

  lemma {:induction false} FlushFromClear(cs: seq<seq<PositionedTask>>, i: nat, total: int)
    requires i <= |cs|
    requires forall c :: i <= c < |cs| ==> ColumnClear(cs[c])
    ensures GroupClear(FlushFrom(cs, i, total))
    decreases |cs| - i
  {
    if i < |cs| {
      var head := Label(cs[i], i, total);
      var rest := FlushFrom(cs, i + 1, total);
      var r := FlushFrom(cs, i, total);
      assert r == head + rest;
      FlushFromClear(cs, i + 1, total);
      forall a, b | 0 <= a < b < |r|
        ensures r[a].col == r[b].col ==> !Overlaps(r[a], r[b])
      {
        if b < |head| {
          assert ColumnClear(cs[i]);
          assert !Overlaps(cs[i][a], cs[i][b]);
        } else if a >= |head| {
          assert r[a] == rest[a - |head|] && r[b] == rest[b - |head|];
        } else {
          assert r[b] == rest[b - |head|];
          assert r[a].col < r[b].col;
        }
      }
    }
  }

  /**
   `resetGroup`: every segment of column `i`, in column order, with `col = i`
   and `colTotal` the group's column count; the column span is kept.
   */
  function Flush(cs: seq<seq<PositionedTask>>): (r: seq<PositionedTask>)
    ensures Keys(r) == Keys(Concat(cs))
    ensures forall k :: 0 <= k < |r| ==> 0 <= r[k].col < r[k].colTotal && r[k].colTotal == |cs|
    ensures (forall c :: 0 <= c < |cs| ==> ColumnClear(cs[c])) ==> GroupClear(r)
    ensures SpansFit(cs) ==>
      forall k :: 0 <= k < |r| ==> 1 <= r[k].colSpan && r[k].col + r[k].colSpan <= r[k].colTotal
  {
    assert cs[0..] == cs;
    var r := FlushFrom(cs, 0, |cs|);
    assert (forall c :: 0 <= c < |cs| ==> ColumnClear(cs[c])) ==> GroupClear(r) by {
      if forall c :: 0 <= c < |cs| ==> ColumnClear(cs[c]) {
        FlushFromClear(cs, 0, |cs|);
      }
    }
    assert SpansFit(cs) ==>
      forall k :: 0 <= k < |r| ==> 1 <= r[k].colSpan && r[k].col + r[k].colSpan <= r[k].colTotal by {
      if SpansFit(cs) {
        FlushFromSpans(cs, 0);
      }
    }
    r
  }

  /**
   `resetGroup` numbers the columns left to right: segment `k` of column `c`
   comes out as itself with `col = c` and `colTotal` the column count, its
   span kept.
   */
  lemma FlushHolds(cs: seq<seq<PositionedTask>>)
    ensures forall c, k :: 0 <= c < |cs| && 0 <= k < |cs[c]| ==> cs[c][k].(col := c, colTotal := |cs|) in Flush(cs)
  {
    FlushFromHolds(cs, 0, |cs|);
  }

  /** One segment in one column flushes to itself in column 0 of 1. */
  lemma FlushSingle(x: PositionedTask)
    ensures Flush([[x]]) == [x.(col := 0, colTotal := 1)]
  {
    assert Concat([[x]]) == [x];
  }
}
