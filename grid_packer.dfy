/**
  The packer as the application runs it: a fresh grid per attempt, checked
  and written in place, items pushed onto a placement list as they land.
  Each operation is proved against the value-level definition in `Packing`.
 */
module GridPacker {
  import opened Types
  import opened Packing

  /** A truck floor grid that is filled in place. */
  class TruckGrid {
    const size: nat
    const cells: array2<string>
    /** The grid's cells as a value. */
    ghost var Contents: Grid

    ghost predicate Valid()
      reads this, cells
    {
      && cells.Length0 == size && cells.Length1 == size
      && IsGrid(Contents, size)
      && forall i, j :: 0 <= i < size && 0 <= j < size ==> cells[i, j] == Contents[i][j]
    }

    /** A `n` by `n` grid with every cell empty. */
    constructor (n: nat)
      ensures Valid() && size == n && fresh(cells)
      ensures Contents == EmptyGrid(n)
    {
      size := n;
      cells := new string[n, n]((i, j) => "");
      Contents := EmptyGrid(n);
    }

    /** Whether the shape may stand with its top-left corner at
        (startX, startY): every cell equal to 1 must land inside the grid on
        an empty cell. Changes nothing. */
    method CanPlaceItem(shape: Shape, startX: nat, startY: nat) returns (ok: bool)
      requires Valid()
      ensures ok == Fits(Contents, shape, startX, startY, size)
    {
      var row := 0;
      while row < |shape|
        invariant 0 <= row <= |shape|
        invariant forall r, c :: 0 <= r < row && 0 <= c < |shape[r]| && Occupies(shape, r, c) ==>
          startY + r < size && startX + c < size && Contents[startY + r][startX + c] == ""
      {
        var col := 0;
        while col < |shape[row]|
          invariant 0 <= col <= |shape[row]|
          invariant forall r, c :: 0 <= r < row && 0 <= c < |shape[r]| && Occupies(shape, r, c) ==>
            startY + r < size && startX + c < size && Contents[startY + r][startX + c] == ""
          invariant forall c :: 0 <= c < col && Occupies(shape, row, c) ==>
            startY + row < size && startX + c < size && Contents[startY + row][startX + c] == ""
        {
          if shape[row][col] == 1 {
            var targetY := startY + row;
            var targetX := startX + col;
            if targetY >= size || targetX >= size {
              assert Occupies(shape, row, col);
              return false;
            }
            if cells[targetY, targetX] != "" {
              assert Occupies(shape, row, col);
              return false;
            }
          }
          col := col + 1;
        }
        row := row + 1;
      }
      return true;
    }

    /** Writes `id` into every cell the shape covers from (startX, startY);
        every other cell keeps its value. No check of its own: callers have
        established that the covered cells are inside the grid. */
    method PlaceItemOnGrid(shape: Shape, startX: nat, startY: nat, id: string)
      requires Valid() && InBounds(shape, startX, startY, size)
      modifies this, cells
      ensures Valid()
      ensures Contents == Place(old(Contents), shape, startX, startY, id)
      ensures forall i, j :: 0 <= i < size && 0 <= j < size ==>
        cells[i, j] == if Covers(shape, startX, startY, j, i) then id else old(cells[i, j])
    {
      ghost var g := Contents;
      var row := 0;
      while row < |shape|
        invariant 0 <= row <= |shape|
        invariant forall i, j :: 0 <= i < size && 0 <= j < size ==>
          cells[i, j] == if Covers(shape, startX, startY, j, i) && i - startY < row then id else g[i][j]
      {
        var col := 0;
        while col < |shape[row]|
          invariant 0 <= col <= |shape[row]|
          invariant forall i, j :: 0 <= i < size && 0 <= j < size ==>
            cells[i, j] ==
              if Covers(shape, startX, startY, j, i) &&
                 (i - startY < row || (i - startY == row && j - startX < col))
              then id else g[i][j]
        {
          if shape[row][col] == 1 {
            assert Occupies(shape, row, col);
            cells[startY + row, startX + col] := id;
          }
          col := col + 1;
        }
        row := row + 1;
      }
      Contents := Place(g, shape, startX, startY, id);
    }
  }

  /** The scan for one item: rows outer, columns inner, stopping at the
      first origin where the item fits and writing it there. Reports whether
      it was placed and, if so, the item with its position. */
  method PlaceAtFirstOrigin(grid: TruckGrid, item: SelectedItem) returns (placed: bool, positioned: SelectedItem)
    requires grid.Valid()
    modifies grid, grid.cells
    ensures grid.Valid()
    ensures var first := FirstOrigin(old(grid.Contents), item.item.shape, grid.size, 0, 0);
      && placed == first.Some?
      && (placed ==> positioned == item.(position := first) &&
                     grid.Contents == Place(old(grid.Contents), item.item.shape, first.value.x, first.value.y, item.instanceId))
      && (!placed ==> grid.Contents == old(grid.Contents))
  {
    var dimension := grid.size;
    var shape := item.item.shape;
    placed := false;
    positioned := item;
    ghost var g0 := grid.Contents;
    ghost var first := FirstOrigin(g0, shape, dimension, 0, 0);
    var y := 0;
    while y < dimension
      invariant 0 <= y <= dimension
      invariant grid.Valid()
      invariant !placed ==> grid.Contents == g0 && FirstOrigin(g0, shape, dimension, 0, y) == first
      invariant placed ==>
        first.Some? && positioned == item.(position := first) &&
        grid.Contents == Place(g0, shape, first.value.x, first.value.y, item.instanceId)
    {
      if placed {
        break;
      }
      var x := 0;
      while x < dimension
        invariant 0 <= x <= dimension
        invariant grid.Valid()
        invariant !placed && grid.Contents == g0
        invariant FirstOrigin(g0, shape, dimension, x, y) == first
      {
        var ok := grid.CanPlaceItem(shape, x, y);
        if ok {
          grid.PlaceItemOnGrid(shape, x, y, item.instanceId);
          positioned := item.(position := Some(Position(x, y)));
          placed := true;
          break;
        }
        x := x + 1;
      }
      y := y + 1;
    }
  }

  /** Places the items in list order, each at the first origin in row-major
      order (y outer, x inner) where it fits, on a fresh grid for the truck
      size. If one item finds no origin, the attempt fails with no
      placements. */
  method FitItemsInTruck(items: seq<SelectedItem>, size: TruckSize) returns (r: FitResult)
    ensures r == Fit(items, size)
  {
    var dimension := Dimension(size);
    var grid := new TruckGrid(dimension);
    var placedItems: seq<SelectedItem> := [];
    var i := 0;
    while i < |items|
      invariant 0 <= i <= |items|
      invariant fresh(grid) && fresh(grid.cells)
      invariant grid.Valid() && grid.size == dimension
      invariant Pack(items[..i], dimension) == Some(PackState(grid.Contents, placedItems))
    {
      ghost var before := grid.Contents;
      var placed, positioned := PlaceAtFirstOrigin(grid, items[i]);
      ScanExtendsPack(items, dimension, i, before, placedItems, placed, positioned, grid.Contents);
      if !placed {
        FitOfPack(items, size);
        return FitResult(false, []);
      }
      placedItems := placedItems + [positioned];
      i := i + 1;
    }
    assert items[..i] == items;
    FitOfPack(items, size);
    return FitResult(true, placedItems);
  }
}
