/** Merging neighbouring cell references into slices, as done for each column of a
    trajectory when an item is created. */
module MergeSlices {

  /** The cell at `offset` of a chunk. */
  datatype Cell = Cell(chunkKey: nat, offset: nat)

  datatype Slice = Slice(chunkKey: nat, offset: nat, length: nat)

  function Cells(s: Slice): seq<Cell> {
    seq(s.length, k requires 0 <= k => Cell(s.chunkKey, s.offset + k))
  }

  /** The cells that a list of slices stands for. */
  function Expand(slices: seq<Slice>): seq<Cell> {
    if slices == [] then []
    else Expand(slices[..|slices| - 1]) + Cells(slices[|slices| - 1])
  }

  /** A cell of the chunk that the last slice refers to makes that slice longer,
      whatever its offset; any other cell starts a new slice. */
  function AddCell(slices: seq<Slice>, c: Cell): seq<Slice> {
    var n := |slices|;
    if n == 0 || slices[n - 1].chunkKey != c.chunkKey then slices + [Slice(c.chunkKey, c.offset, 1)]
    else slices[n - 1 := slices[n - 1].(length := slices[n - 1].length + 1)]
  }

  function Merge(cells: seq<Cell>): seq<Slice> {
    if cells == [] then [] else AddCell(Merge(cells[..|cells| - 1]), cells[|cells| - 1])
  }

  method MergeAdjacent(cells: seq<Cell>) returns (slices: seq<Slice>)
    ensures slices == Merge(cells)
  {
    slices := [];
    for i := 0 to |cells|
      invariant slices == Merge(cells[..i])
    {
      var c := cells[i];
      assert cells[..i + 1][..i] == cells[..i];
      var n := |slices|;
      if n == 0 || slices[n - 1].chunkKey != c.chunkKey {
        slices := slices + [Slice(c.chunkKey, c.offset, 1)];
      } else {
        slices := slices[n - 1 := slices[n - 1].(length := slices[n - 1].length + 1)];
      }
    }
    assert cells[..|cells|] == cells;
  }

  /** The cell by which the expansion grows: its offset follows on from the cell
      before it when both are in the same chunk. */
  function Followed(before: seq<Cell>, c: Cell): Cell {
    var n := |before|;
    if n > 0 && before[n - 1].chunkKey == c.chunkKey then Cell(c.chunkKey, before[n - 1].offset + 1) else c
  }

  /** The last slice ends where the expansion ends. */
  ghost predicate EndsTogether(slices: seq<Slice>, cells: seq<Cell>) {
    && (slices == [] <==> cells == [])
    && (slices != [] ==>
          var s, c := slices[|slices| - 1], cells[|cells| - 1];
          s.length > 0 && c == Cell(s.chunkKey, s.offset + s.length - 1))
  }

  lemma AddCellExpands(slices: seq<Slice>, c: Cell)
    requires EndsTogether(slices, Expand(slices))
    ensures Expand(AddCell(slices, c)) == Expand(slices) + [Followed(Expand(slices), c)]
    ensures EndsTogether(AddCell(slices, c), Expand(AddCell(slices, c)))
  {
    var n, all := |slices|, AddCell(slices, c);
    if n == 0 || slices[n - 1].chunkKey != c.chunkKey {
      assert all[..n] == slices;
      assert Cells(all[n]) == [c];
    } else {
      assert all[..n - 1] == slices[..n - 1];
      assert Cells(all[n - 1]) == Cells(slices[n - 1]) + [Followed(Expand(slices), c)];
    }
  }

  lemma {:induction false} MergeEndsTogether(cells: seq<Cell>)
    ensures EndsTogether(Merge(cells), Expand(Merge(cells)))
  {
    if cells != [] {
      var n := |cells| - 1;
      MergeEndsTogether(cells[..n]);
      AddCellExpands(Merge(cells[..n]), cells[n]);
    }
  }

  lemma MergeStep(cells: seq<Cell>)
    requires cells != []
    ensures var before := Expand(Merge(cells[..|cells| - 1]));
      Expand(Merge(cells)) == before + [Followed(before, cells[|cells| - 1])]
  {
    var n := |cells| - 1;
    MergeEndsTogether(cells[..n]);
    AddCellExpands(Merge(cells[..n]), cells[n]);
  }

  /** The merged column always has the right length and the right chunks. */
  lemma {:induction false} MergeKeepsChunks(cells: seq<Cell>)
    ensures |Expand(Merge(cells))| == |cells|
    ensures forall i :: 0 <= i < |cells| ==> Expand(Merge(cells))[i].chunkKey == cells[i].chunkKey
  {
    if cells != [] {
      MergeKeepsChunks(cells[..|cells| - 1]);
      MergeStep(cells);
    }
  }

  /** No slice is empty, and neighbouring slices are of different chunks: as few slices as
      there are stretches of cells of one chunk. */
  ghost predicate Apart(slices: seq<Slice>) {
    && (forall i :: 0 <= i < |slices| ==> slices[i].length > 0)
    && forall i :: 0 < i < |slices| ==> slices[i - 1].chunkKey != slices[i].chunkKey
  }

  lemma {:induction false} MergedAreApart(cells: seq<Cell>)
    ensures Apart(Merge(cells))
  {
    if cells != [] {
      MergedAreApart(cells[..|cells| - 1]);
    }
  }

  /** The first cell of a stretch is kept, and each further one follows its predecessor. */
  ghost predicate Continues(cells: seq<Cell>, all: seq<Cell>, i: nat)
    requires i < |cells| <= |all|
  {
    if i > 0 && cells[i - 1].chunkKey == cells[i].chunkKey
    then all[i] == Cell(cells[i].chunkKey, all[i - 1].offset + 1)
    else all[i] == cells[i]
  }

  ghost predicate AllContinue(cells: seq<Cell>, all: seq<Cell>) {
    |all| == |cells| && forall i :: 0 <= i < |cells| ==> Continues(cells, all, i)
  }

  lemma OneMoreContinues(cells: seq<Cell>, all: seq<Cell>, c: Cell)
    requires AllContinue(cells, all) && forall i :: 0 <= i < |cells| ==> all[i].chunkKey == cells[i].chunkKey
    ensures AllContinue(cells + [c], all + [Followed(all, c)])
  {
    var cells', all' := cells + [c], all + [Followed(all, c)];
    forall i | 0 <= i < |cells'| ensures Continues(cells', all', i) {
      if i < |cells| {
        assert Continues(cells, all, i);
      }
    }
  }

  /** Which cells the slices stand for. */
  lemma {:induction false} MergedCells(cells: seq<Cell>)
    ensures AllContinue(cells, Expand(Merge(cells)))
  {
    if cells != [] {
      var n := |cells| - 1;
      MergedCells(cells[..n]);
      MergeKeepsChunks(cells[..n]);
      MergeStep(cells);
      OneMoreContinues(cells[..n], Expand(Merge(cells[..n])), cells[n]);
      assert cells == cells[..n] + [cells[n]];
    }
  }

  /** Neighbours in the same chunk have consecutive offsets. */
  ghost predicate Consecutive(cells: seq<Cell>) {
    forall i :: 0 < i < |cells| && cells[i - 1].chunkKey == cells[i].chunkKey ==>
      cells[i].offset == cells[i - 1].offset + 1
  }

  lemma ConsecutiveSnoc(init: seq<Cell>, last: Cell)
    ensures Consecutive(init + [last]) <==> Consecutive(init) && Followed(init, last) == last
  {
    var n, cells := |init|, init + [last];
    assert cells[n] == last && forall i :: 0 <= i < n ==> cells[i] == init[i];
    if Consecutive(cells) {
      forall i | 0 < i < n && init[i - 1].chunkKey == init[i].chunkKey
        ensures init[i].offset == init[i - 1].offset + 1
      {
        assert cells[i].offset == cells[i - 1].offset + 1;
      }
    }
  }

  lemma SameSnoc(a: seq<Cell>, x: Cell, b: seq<Cell>, y: Cell)
    ensures a + [x] == b + [y] <==> a == b && x == y
  {
    if a + [x] == b + [y] {
      assert |a + [x]| == |b + [y]|;
      assert (a + [x])[..|a|] == a && (b + [y])[..|b|] == b;
      assert (a + [x])[|a|] == x && (b + [y])[|b|] == y;
    }
  }

  lemma OneMoreExact(init: seq<Cell>, last: Cell)
    requires Expand(Merge(init)) == init <==> Consecutive(init)
    ensures Expand(Merge(init + [last])) == init + [last] <==> Consecutive(init + [last])
  {
    assert (init + [last])[..|init|] == init;
    MergeStep(init + [last]);
    ConsecutiveSnoc(init, last);
    SameSnoc(Expand(Merge(init)), Followed(Expand(Merge(init)), last), init, last);
  }

  /** The slices stand for exactly the original cells if and only if neighbouring
      references into one chunk are consecutive. */
  lemma {:induction false} MergeExactIffConsecutive(cells: seq<Cell>)
    ensures Expand(Merge(cells)) == cells <==> Consecutive(cells)
  {
    if cells != [] {
      var n := |cells| - 1;
      MergeExactIffConsecutive(cells[..n]);
      OneMoreExact(cells[..n], cells[n]);
      assert cells == cells[..n] + [cells[n]];
    }
  }
}
