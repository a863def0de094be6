/**
  Rules of the load-assistant screen: the route-distance heuristic, the
  guard in front of adding an item, and the grid rendered from the
  selected items' positions.
 */
module LoadAssistant {
  import opened Types
  import opened Packing

  /** Heuristic route length in kilometres between two communes: zero when
      either is unset or both are the same, otherwise derived from the
      lengths of their names. The seed is never negative, so `%` here agrees
      with JavaScript's. */
  function Distance(origin: string, destination: string): (d: int)
    ensures d == 0 <==> origin == "" || destination == "" || origin == destination
    ensures d == 0 || 5 <= d <= 44
  {
    if origin != "" && destination != "" then
      if origin == destination then 0
      else
        var seed := Utf16Length(origin) + Utf16Length(destination);
        5 + (seed * 7 % 40)
    else 0
  }

  /** The distance does not depend on the direction of travel. */
  lemma DistanceIsSymmetric(origin: string, destination: string)
    ensures Distance(origin, destination) == Distance(destination, origin)
  {
  }

  /** Between two different communes of the list the distance lies in
      [5, 44]. */
  lemma DistanceBetweenCommunes(i: nat, j: nat)
    requires i < |Comunas| && j < |Comunas| && i != j
    ensures 5 <= Distance(Comunas[i], Comunas[j]) <= 44
  {
    ComunasDistinct();
  }

  /** What a click on a catalog item does. */
  datatype ClickOutcome = AlertMissingRoute | AlertSameRoute | AddItem(item: FurnitureItem)

  /** The guard in front of adding an item: both communes must be chosen
      and differ. */
  function AddItemClick(origin: string, destination: string, item: FurnitureItem): (r: ClickOutcome)
    ensures r == AddItem(item) <==> origin != "" && destination != "" && origin != destination
    ensures r.AlertMissingRoute? <==> origin == "" || destination == ""
  {
    if origin == "" || destination == "" then AlertMissingRoute
    else if origin == destination then AlertSameRoute
    else AddItem(item)
  }

  /** An item is only ever added while the route has a positive distance. */
  lemma AddedItemsHaveRoute(origin: string, destination: string, item: FurnitureItem)
    requires AddItemClick(origin, destination, item).AddItem?
    ensures 5 <= Distance(origin, destination) <= 44
  {
  }

  /** The item drawn in cell (`col`, `row`): the last positioned item of the
      list whose shape covers the cell, or none. */
  function CellOwner(items: seq<SelectedItem>, col: int, row: int): Option<SelectedItem>
  {
    if |items| == 0 then None
    else
      var it := items[|items| - 1];
      if PlacedCovers(it, col, row) then Some(it) else CellOwner(items[..|items| - 1], col, row)
  }

  /** A drawn item is in the list, is positioned and covers the cell; a cell
      covered by no item is drawn empty. */
  lemma {:induction false} CellOwnerIsCovering(items: seq<SelectedItem>, col: int, row: int)
    ensures CellOwner(items, col, row).Some? ==>
      CellOwner(items, col, row).value in items && PlacedCovers(CellOwner(items, col, row).value, col, row)
    ensures CellOwner(items, col, row).None? <==>
      forall k :: 0 <= k < |items| ==> !PlacedCovers(items[k], col, row)
  {
    if |items| > 0 {
      var init := items[..|items| - 1];
      CellOwnerIsCovering(init, col, row);
      assert forall k :: 0 <= k < |init| ==> init[k] == items[k];
    }
  }

  /** Where several items cover a cell, the one latest in the list is drawn. */
  lemma {:induction false} LaterItemWins(items: seq<SelectedItem>, k: nat, col: int, row: int)
    requires k < |items| && PlacedCovers(items[k], col, row)
    requires forall k' :: k < k' < |items| ==> !PlacedCovers(items[k'], col, row)
    ensures CellOwner(items, col, row) == Some(items[k])
  {
    if k < |items| - 1 {
      LaterItemWins(items[..|items| - 1], k, col, row);
    }
  }

  /** For a list the packer produced, every covered cell shows its own
      item: the rendering draws each item exactly where it was placed. */
  lemma RenderShowsPackedItems(items: seq<SelectedItem>, size: TruckSize, k: nat, col: int, row: int)
    requires NonEmptyIds(items) && Fit(items, size) == FitResult(true, items)
    requires k < |items| && PlacedCovers(items[k], col, row)
    ensures CellOwner(items, col, row) == Some(items[k])
  {
    FitNoOverlap(items, size);
    LaterItemWins(items, k, col, row);
  }

  /** Draws one positioned item over `grid`, skipping cells outside it. */
  method PaintItem(grid: array2<Option<SelectedItem>>, it: SelectedItem)
    requires it.position.Some?
    modifies grid
    ensures forall i, j :: 0 <= i < grid.Length0 && 0 <= j < grid.Length1 ==>
      grid[i, j] == if PlacedCovers(it, j, i) then Some(it) else old(grid[i, j])
  {
    var x, y := it.position.value.x, it.position.value.y;
    var shape := it.item.shape;
    var rIndex := 0;
    while rIndex < |shape|
      invariant 0 <= rIndex <= |shape|
      invariant forall i, j :: 0 <= i < grid.Length0 && 0 <= j < grid.Length1 ==>
        grid[i, j] == if PlacedCovers(it, j, i) && i - y < rIndex then Some(it) else old(grid[i, j])
    {
      var cIndex := 0;
      while cIndex < |shape[rIndex]|
        invariant 0 <= cIndex <= |shape[rIndex]|
        invariant forall i, j :: 0 <= i < grid.Length0 && 0 <= j < grid.Length1 ==>
          grid[i, j] ==
            if PlacedCovers(it, j, i) && (i - y < rIndex || (i - y == rIndex && j - x < cIndex))
            then Some(it) else old(grid[i, j])
      {
        if shape[rIndex][cIndex] == 1 {
          if y + rIndex < grid.Length0 && x + cIndex < grid.Length1 {
            grid[y + rIndex, x + cIndex] := Some(it);
          }
        }
        cIndex := cIndex + 1;
      }
      rIndex := rIndex + 1;
    }
  }

  /** The grid shown for the selected items: a `gridSize` square whose
      cells hold the item drawn there. */
  method RenderGrid(selectedItems: seq<SelectedItem>, gridSize: nat) returns (grid: array2<Option<SelectedItem>>)
    ensures fresh(grid) && grid.Length0 == gridSize && grid.Length1 == gridSize
    ensures forall i, j :: 0 <= i < gridSize && 0 <= j < gridSize ==> grid[i, j] == CellOwner(selectedItems, j, i)
  {
    grid := new Option<SelectedItem>[gridSize, gridSize]((i, j) => None);
    var k := 0;
    while k < |selectedItems|
      invariant 0 <= k <= |selectedItems|
      invariant forall i, j :: 0 <= i < gridSize && 0 <= j < gridSize ==>
        grid[i, j] == CellOwner(selectedItems[..k], j, i)
    {
      var item := selectedItems[k];
      assert selectedItems[..k + 1][..k] == selectedItems[..k];
      if item.position.Some? {
        PaintItem(grid, item);
      }
      k := k + 1;
    }
    assert selectedItems[..k] == selectedItems;
  }
}
