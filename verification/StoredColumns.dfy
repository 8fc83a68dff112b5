/** What is stored of a trajectory that a pattern builds: the cells of each slice are
    merged into stretches of chunks, which have no gaps. */
module StoredColumns {

  import opened Status
  import opened Patterns
  import C = Chunker
  import K = ChunkerSpec
  import M = MergeSlices

  /** Where the chunkers put the cells. */
  type Layout = Cell -> M.Cell

  function Places(cells: seq<Cell>, layout: Layout): seq<M.Cell> {
    seq(|cells|, i requires 0 <= i < |cells| => layout(cells[i]))
  }

  /** The number of values in `column` after position `i` and up to `k`. */
  function Values(column: Column, i: int, k: int): nat
    requires k < |column|
    decreases k - i
  {
    if k <= i || k < 0 then 0 else Values(column, i, k - 1) + if column[k].Some? then 1 else 0
  }

  /** A chunk holds successive values of the column, in order. */
  ghost predicate LaidOut(column: Column, layout: Layout) {
    forall i, k :: 0 <= i < k < |column| && column[i].Some? && column[k].Some? ==>
      var a, b := layout(column[i].value), layout(column[k].value);
      a.chunkKey == b.chunkKey ==> b.offset == a.offset + Values(column, i, k)
  }

  /** The chunker of the column handed out `refs`, and the values of the column are its
      cells from `base` on, one after the other. */
  ghost predicate AreCells(column: Column, layout: Layout, refs: seq<K.Ref>, base: nat) {
    forall i :: 0 <= i < |column| && column[i].Some? ==>
      var n := base + Values(column, -1, i) - 1;
      0 <= n < |refs| && layout(column[i].value) == M.Cell(refs[n].chunkKey, refs[n].offset)
  }

  lemma {:induction false} ValuesAdd(column: Column, h: int, i: int, k: int)
    requires h <= i <= k < |column|
    ensures Values(column, h, k) == Values(column, h, i) + Values(column, i, k)
    decreases k - i
  {
    if i < k {
      if k >= 0 {
        ValuesAdd(column, h, i, k - 1);
      }
    }
  }

  lemma {:induction false} ValuesPositive(column: Column, i: int, k: int)
    requires i < k && 0 <= k < |column| && column[k].Some?
    ensures Values(column, i, k) >= 1
  {
  }

  lemma OffsetsLayOut(column: Column, layout: Layout, refs: seq<K.Ref>, nextKey: nat, offset: nat, base: nat)
    requires K.OffsetsOk(refs, nextKey, offset) && AreCells(column, layout, refs, base)
    ensures LaidOut(column, layout)
  {
    forall i, k | 0 <= i < k < |column| && column[i].Some? && column[k].Some?
      && layout(column[i].value).chunkKey == layout(column[k].value).chunkKey
      ensures layout(column[k].value).offset == layout(column[i].value).offset + Values(column, i, k)
    {
      ValuesAdd(column, -1, i, k);
      ValuesPositive(column, i, k);
      var m, n := base + Values(column, -1, i) - 1, base + Values(column, -1, k) - 1;
      assert refs[n].offset - refs[m].offset == n - m;
    }
  }

  /** Whatever was appended to a chunker, flushed, reset or reconfigured: a column whose
      values are its successive cells is laid out this way. */
  lemma ChunkerLaysOut(c: C.Chunker, column: Column, layout: Layout, base: nat)
    requires c.Valid() && AreCells(column, layout, c.h.refs, base)
    ensures LaidOut(column, layout)
  {
    OffsetsLayOut(column, layout, c.h.refs, c.s.nextKey, c.s.offset, base);
  }

  /** The position of the `j`-th pick. */
  function Position(start: int, step: int, j: int): int {
    start + j * step
  }

  /** Two picks, one after the other, that share a chunk have no value between them. */
  ghost predicate Adjoin(column: Column, cells: seq<Cell>, layout: Layout, start: int, step: int, j: nat)
    requires 0 < j < |cells| && Position(start, step, j) < |column|
  {
    layout(cells[j - 1]).chunkKey == layout(cells[j]).chunkKey ==>
      Values(column, Position(start, step, j - 1), Position(start, step, j)) == 1
  }

  ghost predicate AllAdjoin(column: Column, cells: seq<Cell>, layout: Layout, start: int, step: int) {
    forall j {:trigger Adjoin(column, cells, layout, start, step, j)} :: 0 < j < |cells| ==>
      Position(start, step, j) < |column| && Adjoin(column, cells, layout, start, step, j)
  }

  lemma PickAt(column: Column, start: int, left: int, step: int, j: nat)
    requires step > 0 && left > 0 && Collect(column, start, left, step).Cells?
    requires j < |Collect(column, start, left, step).cells|
    ensures 0 <= Position(start, step, j) < |column|
    ensures column[Position(start, step, j)] == Some(Collect(column, start, left, step).cells[j])
  {
    CollectIsSlice(column, start, left, step);
    var cells := Collect(column, start, left, step).cells;
    assert cells[j] == cells[j];
  }

  lemma NextPosition(start: int, step: int, j: int)
    ensures Position(start, step, j) == Position(start, step, j - 1) + step
  {
  }

  /** Neighbouring picks in one chunk have consecutive offsets exactly when no value
      lies between them. */
  lemma ConsecutiveIff(column: Column, start: int, left: int, step: int, layout: Layout, j: nat)
    requires step > 0 && left > 0 && Collect(column, start, left, step).Cells? && LaidOut(column, layout)
    requires 0 < j < |Collect(column, start, left, step).cells|
    ensures var cells := Collect(column, start, left, step).cells;
      && Position(start, step, j) < |column|
      && (Adjoin(column, cells, layout, start, step, j) <==>
            (layout(cells[j - 1]).chunkKey == layout(cells[j]).chunkKey ==>
               layout(cells[j]).offset == layout(cells[j - 1]).offset + 1))
  {
    PickAt(column, start, left, step, j - 1);
    PickAt(column, start, left, step, j);
    NextPosition(start, step, j);
  }

  /** A slice is stored exactly as it was built if and only if no two neighbouring
      picks that share a chunk have a value between them. */
  lemma SliceStoredIff(column: Column, start: int, left: int, step: int, layout: Layout)
    requires step > 0 && left > 0 && Collect(column, start, left, step).Cells? && LaidOut(column, layout)
    ensures var cells := Collect(column, start, left, step).cells;
      M.Expand(M.Merge(Places(cells, layout))) == Places(cells, layout) <==>
      AllAdjoin(column, cells, layout, start, step)
  {
    var cells := Collect(column, start, left, step).cells;
    M.MergeExactIffConsecutive(Places(cells, layout));
    if M.Consecutive(Places(cells, layout)) {
      ConsecutiveAdjoin(column, start, left, step, layout);
    }
    if AllAdjoin(column, cells, layout, start, step) {
      AdjoinConsecutive(column, start, left, step, layout);
    }
  }

  lemma ConsecutiveAdjoin(column: Column, start: int, left: int, step: int, layout: Layout)
    requires step > 0 && left > 0 && Collect(column, start, left, step).Cells? && LaidOut(column, layout)
    requires M.Consecutive(Places(Collect(column, start, left, step).cells, layout))
    ensures AllAdjoin(column, Collect(column, start, left, step).cells, layout, start, step)
  {
    var cells := Collect(column, start, left, step).cells;
    var places := Places(cells, layout);
    forall j | 0 < j < |cells|
      ensures Position(start, step, j) < |column| && Adjoin(column, cells, layout, start, step, j)
    {
      ConsecutiveIff(column, start, left, step, layout, j);
      assert places[j] == layout(cells[j]) && places[j - 1] == layout(cells[j - 1]);
    }
  }

  lemma AdjoinConsecutive(column: Column, start: int, left: int, step: int, layout: Layout)
    requires step > 0 && left > 0 && Collect(column, start, left, step).Cells? && LaidOut(column, layout)
    requires AllAdjoin(column, Collect(column, start, left, step).cells, layout, start, step)
    ensures M.Consecutive(Places(Collect(column, start, left, step).cells, layout))
  {
    var cells := Collect(column, start, left, step).cells;
    var places := Places(cells, layout);
    forall j | 0 < j < |places| && places[j - 1].chunkKey == places[j].chunkKey
      ensures places[j].offset == places[j - 1].offset + 1
    {
      ConsecutiveIff(column, start, left, step, layout, j);
      assert Adjoin(column, cells, layout, start, step, j);
    }
  }

  /** Every slice without a step, or with step one, is stored as it was built. */
  lemma StepOneIsExact(column: Column, start: int, left: int, layout: Layout)
    requires left > 0 && Collect(column, start, left, 1).Cells? && LaidOut(column, layout)
    ensures var cells := Collect(column, start, left, 1).cells;
      M.Expand(M.Merge(Places(cells, layout))) == Places(cells, layout)
  {
    var cells := Collect(column, start, left, 1).cells;
    forall j | 0 < j < |cells|
      ensures Position(start, 1, j) < |column| && Adjoin(column, cells, layout, start, 1, j)
    {
      PickAt(column, start, left, 1, j);
      NextPosition(start, 1, j);
      var p := Position(start, 1, j);
      assert Values(column, p - 1, p) == Values(column, p - 1, p - 1) + 1;
    }
    SliceStoredIff(column, start, left, 1, layout);
  }

  lemma {:induction false} ValuesOfFull(column: Column, i: int, k: int)
    requires 0 <= i <= k < |column| && forall p :: 0 <= p < |column| ==> column[p].Some?
    ensures Values(column, i, k) == k - i
    decreases k - i
  {
    if i < k {
      ValuesOfFull(column, i, k - 1);
    }
  }

  /** In a column without gaps, a slice with a larger step is stored as it was built if
      and only if no two neighbouring picks share a chunk. */
  lemma LargerStepIsExactIff(column: Column, start: int, left: int, step: int, layout: Layout)
    requires step > 1 && left > 0 && Collect(column, start, left, step).Cells? && LaidOut(column, layout)
    requires forall p :: 0 <= p < |column| ==> column[p].Some?
    ensures var cells := Collect(column, start, left, step).cells;
      M.Expand(M.Merge(Places(cells, layout))) == Places(cells, layout) <==>
      forall j :: 0 < j < |cells| ==> layout(cells[j - 1]).chunkKey != layout(cells[j]).chunkKey
  {
    var cells := Collect(column, start, left, step).cells;
    SliceStoredIff(column, start, left, step, layout);
    forall j | 0 < j < |cells|
      ensures Position(start, step, j) < |column|
      ensures Adjoin(column, cells, layout, start, step, j) <==>
        layout(cells[j - 1]).chunkKey != layout(cells[j]).chunkKey
    {
      PickAt(column, start, left, step, j - 1);
      PickAt(column, start, left, step, j);
      NextPosition(start, step, j);
      ValuesOfFull(column, Position(start, step, j - 1), Position(start, step, j));
    }
  }

  /** A trajectory consists of what its nodes read. */
  lemma {:induction false} BuildIsPerNode(nodes: seq<Node>, columns: seq<Column>, i: nat)
    requires Build(nodes, columns).Trajectory? && i < |nodes|
    ensures i < |Build(nodes, columns).columns| && FromNode(nodes[i], columns) == Cells(Build(nodes, columns).columns[i].cells)
  {
    if i > 0 {
      BuildIsPerNode(nodes[1..], columns, i - 1);
    }
  }

  /** The stored column of every node of a trajectory is the built one if and only if no
      two neighbouring picks that share a chunk have a value between them. */
  lemma TrajectoryStoredIff(nodes: seq<Node>, columns: seq<Column>, layout: Layout, i: nat)
    requires Build(nodes, columns).Trajectory? && i < |nodes| && ValidNode(nodes[i])
    requires forall k :: 0 <= k < |columns| ==> LaidOut(columns[k], layout)
    ensures i < |Build(nodes, columns).columns| && 0 <= nodes[i].source < |columns|
    ensures var n, cells := nodes[i], Build(nodes, columns).columns[i].cells;
      var column := columns[n.source];
      M.Expand(M.Merge(Places(cells, layout))) == Places(cells, layout) <==>
      AllAdjoin(column, cells, layout, |column| + From(n), StepOf(n))
  {
    BuildIsPerNode(nodes, columns, i);
    var n := nodes[i];
    var column := columns[n.source];
    SliceStoredIff(column, |column| + From(n), LengthOf(n), StepOf(n), layout);
  }
}
