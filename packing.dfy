/**
  The truck-packing engine, as a specification over values.

  A truck floor is a square grid of `n` by `n` cells. Each cell holds the
  empty string or the instance id of the item standing on it. Items are
  placed one after another, in list order, each at the first top-left
  origin in row-major order (rows outer, columns inner) where its shape
  fits. If one item finds no origin, the whole attempt fails and nothing
  is reported.
 */
module Packing {
  import opened Types

  /** A 0/1 footprint matrix. Rows may differ in length; only cells equal
      to 1 are part of the footprint. */
  type Shape = seq<seq<int>>

  /** Grid rows indexed by `y`, cells within a row by `x`. The empty string
      marks a free cell. */
  type Grid = seq<seq<string>>

  datatype Position = Position(x: nat, y: nat)

  /** A furniture type as the packer receives it: catalog data plus shape. */
  datatype FurnitureItem = FurnitureItem(id: string, name: string, blocks: int, shape: Shape)

  /** One piece in the working list; `position` is set once it is packed. */
  datatype SelectedItem = SelectedItem(item: FurnitureItem, instanceId: string, color: string, position: Option<Position>)

  datatype FitResult = FitResult(success: bool, placements: seq<SelectedItem>)

  /** Grid state and the items placed so far, while a fit is in progress. */
  datatype PackState = PackState(grid: Grid, placed: seq<SelectedItem>)

  /** Shape cell (row, col) exists and is equal to 1. */
  predicate Occupies(shape: Shape, row: int, col: int)
  {
    0 <= row < |shape| && 0 <= col < |shape[row]| && shape[row][col] == 1
  }

  /** A shape whose top-left corner is at (x, y) covers grid cell (col, row). */
  predicate Covers(shape: Shape, x: nat, y: nat, col: int, row: int)
  {
    Occupies(shape, row - y, col - x)
  }

  /** A packed item covers grid cell (col, row). */
  predicate PlacedCovers(it: SelectedItem, col: int, row: int)
  {
    it.position.Some? && Covers(it.item.shape, it.position.value.x, it.position.value.y, col, row)
  }

  predicate IsGrid(g: Grid, n: nat)
  {
    |g| == n && forall i :: 0 <= i < n ==> |g[i]| == n
  }

  /** A fresh `n` by `n` grid with every cell empty. */
  function EmptyGrid(n: nat): (g: Grid)
    ensures IsGrid(g, n)
    ensures forall i, j :: 0 <= i < n && 0 <= j < n ==> g[i][j] == ""
  {
    seq(n, _ => seq(n, _ => ""))
  }

  /** The shape may stand with its top-left corner at (x, y): every cell
      equal to 1 lands inside the grid on an empty cell. */
  predicate Fits(g: Grid, shape: Shape, x: nat, y: nat, n: nat)
    requires IsGrid(g, n)
  {
    forall row, col :: 0 <= row < |shape| && 0 <= col < |shape[row]| && Occupies(shape, row, col) ==>
      y + row < n && x + col < n && g[y + row][x + col] == ""
  }

  /** Every cell equal to 1 lands inside an `n` by `n` grid. */
  predicate InBounds(shape: Shape, x: nat, y: nat, n: nat)
  {
    forall row, col :: 0 <= row < |shape| && 0 <= col < |shape[row]| && Occupies(shape, row, col) ==>
      y + row < n && x + col < n
  }

  /** The grid after writing `id` into every cell the shape covers. */
  function Place(g: Grid, shape: Shape, x: nat, y: nat, id: string): (g': Grid)
    ensures |g'| == |g|
    ensures forall i {:trigger g'[i]} :: 0 <= i < |g| ==> |g'[i]| == |g[i]|
    ensures forall i, j {:trigger g'[i][j]} :: 0 <= i < |g| && 0 <= j < |g[i]| ==>
      g'[i][j] == if Covers(shape, x, y, j, i) then id else g[i][j]
  {
    seq(|g|, i requires 0 <= i < |g| =>
      seq(|g[i]|, j requires 0 <= j < |g[i]| =>
        if Covers(shape, x, y, j, i) then id else g[i][j]))
  }

  /** Cell (qx, qy) comes strictly before cell (x, y) in row-major order. */
  predicate Before(qx: int, qy: int, x: int, y: int)
  {
    qy < y || (qy == y && qx < x)
  }

  /** The first origin, at or after (x, y) in row-major order, where the
      shape fits. */
  function FirstOrigin(g: Grid, shape: Shape, n: nat, x: nat, y: nat): Option<Position>
    requires IsGrid(g, n)
    decreases n - y, n - x
  {
    if y >= n then None
    else if x >= n then FirstOrigin(g, shape, n, 0, y + 1)
    else if Fits(g, shape, x, y, n) then Some(Position(x, y))
    else FirstOrigin(g, shape, n, x + 1, y)
  }

  /** The scan finds an origin inside the grid, at or after (x, y), where the
      shape fits, and the shape fits at no origin the scan passed over; when
      it finds none, the shape fits nowhere at or after (x, y). */
  lemma {:induction false} FirstOriginIsFirst(g: Grid, shape: Shape, n: nat, x: nat, y: nat)
    requires IsGrid(g, n)
    ensures var r := FirstOrigin(g, shape, n, x, y);
      r.Some? ==>
        r.value.x < n && r.value.y < n && !Before(r.value.x, r.value.y, x, y) &&
        Fits(g, shape, r.value.x, r.value.y, n)
    ensures var r := FirstOrigin(g, shape, n, x, y);
      forall qx: nat, qy: nat ::
        qx < n && qy < n && !Before(qx, qy, x, y) &&
        (r.Some? ==> Before(qx, qy, r.value.x, r.value.y)) ==>
        !Fits(g, shape, qx, qy, n)
    decreases n - y, n - x
  {
    if y >= n {
    } else if x >= n {
      FirstOriginIsFirst(g, shape, n, 0, y + 1);
    } else if !Fits(g, shape, x, y, n) {
      FirstOriginIsFirst(g, shape, n, x + 1, y);
    }
  }

  /** Packs `items` in order into an empty `n` by `n` grid; `None` as soon
      as one item has no origin. */
  function Pack(items: seq<SelectedItem>, n: nat): (r: Option<PackState>)
    ensures r.Some? ==> IsGrid(r.value.grid, n) && |r.value.placed| == |items|
    decreases |items|
  {
    if items == [] then Some(PackState(EmptyGrid(n), []))
    else
      match Pack(items[..|items| - 1], n)
      case None => None
      case Some(st) =>
        var it := items[|items| - 1];
        match FirstOrigin(st.grid, it.item.shape, n, 0, 0)
        case None => None
        case Some(p) =>
          Some(PackState(Place(st.grid, it.item.shape, p.x, p.y, it.instanceId),
                         st.placed + [it.(position := Some(p))]))
  }

  /** The outcome of packing `items` into a truck of the given size. */
  function Fit(items: seq<SelectedItem>, size: TruckSize): (r: FitResult)
    ensures !r.success ==> r.placements == []
    ensures r.success ==> |r.placements| == |items|
  {
    match Pack(items, Dimension(size))
    case None => FitResult(false, [])
    case Some(st) => FitResult(true, st.placed)
  }

  /** `Fit` read off a finished packing. */
  lemma FitOfPack(items: seq<SelectedItem>, size: TruckSize)
    ensures Pack(items, Dimension(size)).None? ==> Fit(items, size) == FitResult(false, [])
    ensures Pack(items, Dimension(size)).Some? ==>
      Fit(items, size) == FitResult(true, Pack(items, Dimension(size)).value.placed)
  {
  }

  /** One step of packing: a non-empty list packs when its front packs and
      the scan finds an origin for the last item on the front's grid. */
  lemma PackLastStep(items: seq<SelectedItem>, n: nat)
    requires items != [] && Pack(items, n).Some?
    ensures Pack(items[..|items| - 1], n).Some?
    ensures var st := Pack(items[..|items| - 1], n).value;
            var it := items[|items| - 1];
            var o := FirstOrigin(st.grid, it.item.shape, n, 0, 0);
            o.Some? &&
            Pack(items, n).value ==
              PackState(Place(st.grid, it.item.shape, o.value.x, o.value.y, it.instanceId),
                        st.placed + [it.(position := o)])
  {
  }

  /** Packing one more item of the list: it goes to the first origin the
      scan finds on the grid the earlier items left, or the attempt fails. */
  lemma PackExtend(items: seq<SelectedItem>, n: nat, i: nat)
    requires i < |items| && Pack(items[..i], n).Some?
    ensures var st := Pack(items[..i], n).value;
            var it := items[i];
            var o := FirstOrigin(st.grid, it.item.shape, n, 0, 0);
            Pack(items[..i + 1], n) ==
              if o.None? then None
              else Some(PackState(Place(st.grid, it.item.shape, o.value.x, o.value.y, it.instanceId),
                                  st.placed + [it.(position := o)]))
  {
    var pre := items[..i + 1];
    assert pre[..|pre| - 1] == items[..i];
    assert pre[|pre| - 1] == items[i];
  }

  /** Packing item `i` on the state the earlier items left: the list up to
      and including it packs as the scan says, and a failed scan fails the
      whole list. */
  lemma PackStep(items: seq<SelectedItem>, n: nat, i: nat, st: PackState)
    requires i < |items| && Pack(items[..i], n) == Some(st)
    ensures IsGrid(st.grid, n)
    ensures var it := items[i];
            var o := FirstOrigin(st.grid, it.item.shape, n, 0, 0);
            (o.None? ==> Pack(items, n).None?) &&
            (o.Some? ==>
               Pack(items[..i + 1], n) ==
               Some(PackState(Place(st.grid, it.item.shape, o.value.x, o.value.y, it.instanceId),
                              st.placed + [it.(position := o)])))
  {
    PackExtend(items, n, i);
    if FirstOrigin(st.grid, items[i].item.shape, n, 0, 0).None? {
      PackFailureExtends(items, n, i + 1);
    }
  }

  /** What one run of the scan means for the packing: if it placed item `i`
      on the grid the earlier items left, the packing of the prefix grows by
      that item; if it found no origin, the whole list fails to pack. */
  lemma ScanExtendsPack(items: seq<SelectedItem>, n: nat, i: nat, g: Grid, placed: seq<SelectedItem>,
                        ok: bool, positioned: SelectedItem, g': Grid)
    requires i < |items| && Pack(items[..i], n) == Some(PackState(g, placed))
    requires var o := FirstOrigin(g, items[i].item.shape, n, 0, 0);
             && ok == o.Some?
             && (ok ==> positioned == items[i].(position := o) &&
                        g' == Place(g, items[i].item.shape, o.value.x, o.value.y, items[i].instanceId))
    ensures ok ==> Pack(items[..i + 1], n) == Some(PackState(g', placed + [positioned]))
    ensures !ok ==> Pack(items, n).None?
  {
    PackStep(items, n, i, PackState(g, placed));
  }

  /** Packing keeps every item, in order, and only adds its position. */
  lemma {:induction false} PackKeepsItems(items: seq<SelectedItem>, n: nat)
    requires Pack(items, n).Some?
    ensures forall k :: 0 <= k < |items| ==>
      Pack(items, n).value.placed[k].position.Some? &&
      Pack(items, n).value.placed[k] == items[k].(position := Pack(items, n).value.placed[k].position)
    decreases |items|
  {
    if items != [] {
      var front := items[..|items| - 1];
      PackLastStep(items, n);
      PackKeepsItems(front, n);
      var placed := Pack(items, n).value.placed;
      var before := Pack(front, n).value.placed;
      forall k | 0 <= k < |items|
        ensures placed[k].position.Some? && placed[k] == items[k].(position := placed[k].position)
      {
        if k < |front| {
          assert placed[k] == before[k] && front[k] == items[k];
        }
      }
    }
  }

  /** On success the placements are the items, same length and order, each
      with its position added and nothing else changed. */
  lemma FitKeepsItems(items: seq<SelectedItem>, size: TruckSize)
    requires Fit(items, size).success
    ensures var ps := Fit(items, size).placements;
            |ps| == |items| &&
            forall k :: 0 <= k < |items| ==>
              ps[k].position.Some? && ps[k] == items[k].(position := ps[k].position)
  {
    PackKeepsItems(items, Dimension(size));
  }

  predicate NonEmptyIds(items: seq<SelectedItem>)
  {
    forall k :: 0 <= k < |items| ==> items[k].instanceId != ""
  }

  /** Packing a prefix of the list gives the prefix of the placements. */
  lemma {:induction false} PackPrefix(items: seq<SelectedItem>, n: nat, k: nat)
    requires k <= |items| && Pack(items, n).Some?
    ensures Pack(items[..k], n).Some?
    ensures Pack(items[..k], n).value.placed == Pack(items, n).value.placed[..k]
    decreases |items|
  {
    if k < |items| {
      var front := items[..|items| - 1];
      PackLastStep(items, n);
      PackPrefix(front, n, k);
      assert front[..k] == items[..k];
    } else {
      assert items[..k] == items;
    }
  }

  /** Once one prefix fails to pack, every longer list fails too. */
  lemma {:induction false} PackFailureExtends(items: seq<SelectedItem>, n: nat, k: nat)
    requires k <= |items| && Pack(items[..k], n).None?
    ensures Pack(items, n).None?
    decreases |items| - k
  {
    if k == |items| {
      assert items[..k] == items;
    } else {
      var longer := items[..k + 1];
      assert longer[..|longer| - 1] == items[..k];
      PackFailureExtends(items, n, k + 1);
    }
  }

  /** First fit, on the packing itself: item `k` stands at the first origin
      in row-major order where it fits on the grid left by items `0..k-1`. */
  lemma PackIsFirstFit(items: seq<SelectedItem>, n: nat, k: nat)
    requires k < |items| && Pack(items, n).Some?
    ensures Pack(items[..k], n).Some?
    ensures Pack(items, n).value.placed[k].position.Some?
    ensures var g := Pack(items[..k], n).value.grid;
            var p := Pack(items, n).value.placed[k].position.value;
            var shape := items[k].item.shape;
            p.x < n && p.y < n && Fits(g, shape, p.x, p.y, n) &&
            forall qx: nat, qy: nat :: qx < n && Before(qx, qy, p.x, p.y) ==> !Fits(g, shape, qx, qy, n)
  {
    var full := Pack(items, n).value;
    PackPrefix(items, n, k);
    PackPrefix(items, n, k + 1);
    var st := Pack(items[..k], n).value;
    PackStep(items, n, k, st);
    var o := FirstOrigin(st.grid, items[k].item.shape, n, 0, 0);
    var it' := items[k].(position := o);
    var prePlaced := Pack(items[..k + 1], n).value.placed;
    assert prePlaced == st.placed + [it'];
    assert |st.placed| == k;
    assert prePlaced[k] == it';
    assert prePlaced == full.placed[..k + 1];
    assert full.placed[k] == it';
    FirstOriginIsFirst(st.grid, items[k].item.shape, n, 0, 0);
  }

  /** First fit: on success, item `k` stands at the first origin in
      row-major order where it fits on the grid left by items `0..k-1`. */
  lemma FitIsFirstFit(items: seq<SelectedItem>, size: TruckSize, k: nat)
    requires k < |items| && Fit(items, size).success
    ensures Pack(items[..k], Dimension(size)).Some?
    ensures Fit(items, size).placements[k].position.Some?
    ensures var n := Dimension(size);
            var g := Pack(items[..k], n).value.grid;
            var p := Fit(items, size).placements[k].position.value;
            var shape := items[k].item.shape;
            p.x < n && p.y < n && Fits(g, shape, p.x, p.y, n) &&
            forall qx: nat, qy: nat :: qx < n && Before(qx, qy, p.x, p.y) ==> !Fits(g, shape, qx, qy, n)
  {
    FitOfPack(items, size);
    PackIsFirstFit(items, Dimension(size), k);
  }

  /** All or nothing: if some item finds no origin on the grid its
      predecessors leave, the whole fit fails with no placements. */
  lemma FitFailsWithoutOrigin(items: seq<SelectedItem>, size: TruckSize, k: nat)
    requires k < |items| && Pack(items[..k], Dimension(size)).Some?
    requires var n := Dimension(size);
             forall qx: nat, qy: nat :: qx < n && qy < n ==>
               !Fits(Pack(items[..k], n).value.grid, items[k].item.shape, qx, qy, n)
    ensures Fit(items, size) == FitResult(false, [])
  {
    var n := Dimension(size);
    var st := Pack(items[..k], n).value;
    FirstOriginIsFirst(st.grid, items[k].item.shape, n, 0, 0);
    assert FirstOrigin(st.grid, items[k].item.shape, n, 0, 0).None?;
    PackExtend(items, n, k);
    PackFailureExtends(items, n, k + 1);
  }

  /** Every packed item has a position and lies inside an `n` by `n` grid. */
  ghost predicate AllInBounds(placed: seq<SelectedItem>, n: nat)
  {
    forall k :: 0 <= k < |placed| ==>
      placed[k].position.Some? &&
      InBounds(placed[k].item.shape, placed[k].position.value.x, placed[k].position.value.y, n)
  }

  lemma {:induction false} PackInBounds(items: seq<SelectedItem>, n: nat)
    requires Pack(items, n).Some?
    ensures AllInBounds(Pack(items, n).value.placed, n)
    decreases |items|
  {
    if items != [] {
      var front := items[..|items| - 1];
      PackLastStep(items, n);
      PackInBounds(front, n);
      var st := Pack(front, n).value;
      var it := items[|items| - 1];
      FirstOriginIsFirst(st.grid, it.item.shape, n, 0, 0);
      var placed := Pack(items, n).value.placed;
      forall k | 0 <= k < |placed|
        ensures placed[k].position.Some? &&
          InBounds(placed[k].item.shape, placed[k].position.value.x, placed[k].position.value.y, n)
      {
        if k < |st.placed| {
          assert placed[k] == st.placed[k];
        }
      }
    }
  }

  /** What a successful pack guarantees about its grid and placements when
      every instance id is non-empty: no two items share a cell, each
      covered cell holds its item's id, and every cell no item covers is
      empty. The placements thus describe the grid completely. */
  ghost predicate Consistent(st: PackState, n: nat)
  {
    && IsGrid(st.grid, n)
    && NonEmptyIds(st.placed)
    && AllInBounds(st.placed, n)
    && (forall k1, k2, col, row :: 0 <= k1 < k2 < |st.placed| && PlacedCovers(st.placed[k1], col, row) ==>
          !PlacedCovers(st.placed[k2], col, row))
    && (forall k, row, col ::
          0 <= k < |st.placed| && 0 <= row < n && 0 <= col < n && PlacedCovers(st.placed[k], col, row) ==>
          st.grid[row][col] == st.placed[k].instanceId)
    && (forall row, col ::
          0 <= row < n && 0 <= col < n && (forall k :: 0 <= k < |st.placed| ==> !PlacedCovers(st.placed[k], col, row)) ==>
          st.grid[row][col] == "")
  }

  /** A covered cell of an item that lies inside the grid is inside the grid. */
  lemma CoveredCellInGrid(it: SelectedItem, n: nat, col: int, row: int)
    requires it.position.Some? && InBounds(it.item.shape, it.position.value.x, it.position.value.y, n)
    requires PlacedCovers(it, col, row)
    ensures 0 <= row < n && 0 <= col < n
  {
    var p := it.position.value;
    assert Occupies(it.item.shape, row - p.y, col - p.x);
  }

  /** Placing one more item where it fits keeps a consistent state
      consistent. */
  lemma ConsistentStep(st: PackState, it: SelectedItem, p: Position, n: nat)
    requires Consistent(st, n) && it.instanceId != ""
    requires Fits(st.grid, it.item.shape, p.x, p.y, n)
    ensures var it' := it.(position := Some(p));
            Consistent(PackState(Place(st.grid, it.item.shape, p.x, p.y, it.instanceId), st.placed + [it']), n)
  {
    var shape := it.item.shape;
    var it' := it.(position := Some(p));
    var st' := PackState(Place(st.grid, shape, p.x, p.y, it.instanceId), st.placed + [it']);
    var last := |st.placed|;
    assert NonEmptyIds(st'.placed) by {
      forall k | 0 <= k < |st'.placed| ensures st'.placed[k].instanceId != "" {
        if k < last {
          assert st'.placed[k] == st.placed[k];
        }
      }
    }
    assert AllInBounds(st'.placed, n) by {
      forall k | 0 <= k < |st'.placed|
        ensures st'.placed[k].position.Some? &&
          InBounds(st'.placed[k].item.shape, st'.placed[k].position.value.x, st'.placed[k].position.value.y, n)
      {
        if k < last {
          assert st'.placed[k] == st.placed[k];
        }
      }
    }
    forall k1, k2, col, row | 0 <= k1 < k2 < |st'.placed| && PlacedCovers(st'.placed[k1], col, row)
      ensures !PlacedCovers(st'.placed[k2], col, row)
    {
      assert st'.placed[k1] == st.placed[k1];
      CoveredCellInGrid(st.placed[k1], n, col, row);
      if k2 < last {
        assert st'.placed[k2] == st.placed[k2];
      } else {
        assert st.grid[row][col] != "";
      }
    }
    forall k, row, col | 0 <= k < |st'.placed| && 0 <= row < n && 0 <= col < n &&
        PlacedCovers(st'.placed[k], col, row)
      ensures st'.grid[row][col] == st'.placed[k].instanceId
    {
      if k < last {
        assert st'.placed[k] == st.placed[k];
        assert !PlacedCovers(st'.placed[last], col, row);
      }
    }
    forall row, col | 0 <= row < n && 0 <= col < n &&
        (forall k :: 0 <= k < |st'.placed| ==> !PlacedCovers(st'.placed[k], col, row))
      ensures st'.grid[row][col] == ""
    {
      assert !PlacedCovers(st'.placed[last], col, row);
      forall k | 0 <= k < last ensures !PlacedCovers(st.placed[k], col, row) {
        assert st'.placed[k] == st.placed[k];
      }
    }
  }

  lemma {:induction false} PackConsistent(items: seq<SelectedItem>, n: nat)
    requires NonEmptyIds(items) && Pack(items, n).Some?
    ensures Consistent(Pack(items, n).value, n)
    decreases |items|
  {
    if items != [] {
      var front := items[..|items| - 1];
      assert NonEmptyIds(front) by {
        forall k | 0 <= k < |front| ensures front[k].instanceId != "" {
          assert front[k] == items[k];
        }
      }
      PackLastStep(items, n);
      PackConsistent(front, n);
      var st := Pack(front, n).value;
      var it := items[|items| - 1];
      FirstOriginIsFirst(st.grid, it.item.shape, n, 0, 0);
      var p := FirstOrigin(st.grid, it.item.shape, n, 0, 0).value;
      ConsistentStep(st, it, p, n);
    }
  }

  /** Origin (x, y) is free of the given placements: every cell of the
      shape lands inside the grid on a cell none of them covers. */
  ghost predicate FreeOf(placed: seq<SelectedItem>, shape: Shape, x: nat, y: nat, n: nat)
  {
    forall row, col :: 0 <= row < |shape| && 0 <= col < |shape[row]| && Occupies(shape, row, col) ==>
      && y + row < n && x + col < n
      && forall j :: 0 <= j < |placed| ==> !PlacedCovers(placed[j], x + col, y + row)
  }

  /** On a consistent state, the grid check is the same as asking that no
      placement covers the cells the shape needs. */
  lemma FitsIffFree(st: PackState, shape: Shape, x: nat, y: nat, n: nat)
    requires Consistent(st, n)
    ensures Fits(st.grid, shape, x, y, n) <==> FreeOf(st.placed, shape, x, y, n)
  {
  }

  /** First fit, read off the placements alone: on success, item `k` stands
      at the first origin in row-major order where its shape lies inside
      the truck and meets no cell covered by items `0..k-1`. */
  lemma FitIsFirstFreeOrigin(items: seq<SelectedItem>, size: TruckSize, k: nat)
    requires NonEmptyIds(items) && k < |items| && Fit(items, size).success
    ensures Fit(items, size).placements[k].position.Some?
    ensures var n := Dimension(size);
            var ps := Fit(items, size).placements;
            var p := ps[k].position.value;
            var shape := items[k].item.shape;
            p.x < n && p.y < n && FreeOf(ps[..k], shape, p.x, p.y, n) &&
            forall qx: nat, qy: nat :: qx < n && Before(qx, qy, p.x, p.y) ==> !FreeOf(ps[..k], shape, qx, qy, n)
  {
    var n := Dimension(size);
    var front := items[..k];
    FitIsFirstFit(items, size, k);
    FitOfPack(items, size);
    PackPrefix(items, n, k);
    assert NonEmptyIds(front) by {
      forall j | 0 <= j < |front| ensures front[j].instanceId != "" {
        assert front[j] == items[j];
      }
    }
    PackConsistent(front, n);
    var st := Pack(front, n).value;
    var p := Fit(items, size).placements[k].position.value;
    var shape := items[k].item.shape;
    FitsIffFree(st, shape, p.x, p.y, n);
    forall qx: nat, qy: nat | qx < n && Before(qx, qy, p.x, p.y)
      ensures !FreeOf(Fit(items, size).placements[..k], shape, qx, qy, n)
    {
      FitsIffFree(st, shape, qx, qy, n);
    }
  }

  /** Bounds: on success every occupied cell of every item lies inside the
      truck's grid. */
  lemma FitInBounds(items: seq<SelectedItem>, size: TruckSize)
    requires Fit(items, size).success
    ensures AllInBounds(Fit(items, size).placements, Dimension(size))
  {
    PackInBounds(items, Dimension(size));
  }

  /** No overlap: on success no grid cell is covered by two items. */
  lemma FitNoOverlap(items: seq<SelectedItem>, size: TruckSize)
    requires NonEmptyIds(items) && Fit(items, size).success
    ensures var ps := Fit(items, size).placements;
            forall k1, k2, col, row :: 0 <= k1 < k2 < |ps| && PlacedCovers(ps[k1], col, row) ==>
              !PlacedCovers(ps[k2], col, row)
  {
    PackConsistent(items, Dimension(size));
  }

  /** Two lists with the same shapes and ids in the same order pack alike. */
  predicate SameKeys(a: seq<SelectedItem>, b: seq<SelectedItem>)
  {
    |a| == |b| &&
    forall k :: 0 <= k < |a| ==> a[k].item.shape == b[k].item.shape && a[k].instanceId == b[k].instanceId
  }

  lemma {:induction false} PackReadsOnlyKeys(a: seq<SelectedItem>, b: seq<SelectedItem>, n: nat)
    requires SameKeys(a, b)
    ensures Pack(a, n).Some? <==> Pack(b, n).Some?
    ensures Pack(a, n).Some? ==>
      Pack(a, n).value.grid == Pack(b, n).value.grid &&
      forall k :: 0 <= k < |a| ==> Pack(a, n).value.placed[k].position == Pack(b, n).value.placed[k].position
    decreases |a|
  {
    if a != [] {
      var fa, fb := a[..|a| - 1], b[..|b| - 1];
      assert SameKeys(fa, fb) by {
        forall k | 0 <= k < |fa|
          ensures fa[k].item.shape == fb[k].item.shape && fa[k].instanceId == fb[k].instanceId
        {
          assert fa[k] == a[k] && fb[k] == b[k];
        }
      }
      PackReadsOnlyKeys(fa, fb, n);
      if Pack(a, n).Some? {
        PackLastStep(a, n);
        PackLastStep(b, n);
        var pa, pb := Pack(a, n).value.placed, Pack(b, n).value.placed;
        var qa, qb := Pack(fa, n).value.placed, Pack(fb, n).value.placed;
        forall k | 0 <= k < |a| ensures pa[k].position == pb[k].position {
          if k < |fa| {
            assert pa[k] == qa[k] && pb[k] == qb[k];
          }
        }
      } else if Pack(b, n).Some? {
        PackLastStep(b, n);
      }
    }
  }

  /** Re-fitting the placements a successful fit returned, at the same
      size, reproduces exactly the same result. */
  lemma RefitIsIdempotent(items: seq<SelectedItem>, size: TruckSize)
    requires Fit(items, size).success
    ensures Fit(Fit(items, size).placements, size) == Fit(items, size)
  {
    var n := Dimension(size);
    var ps := Fit(items, size).placements;
    FitKeepsItems(items, size);
    assert SameKeys(items, ps);
    PackReadsOnlyKeys(items, ps, n);
    FitKeepsItems(ps, size);
    var ps' := Fit(ps, size).placements;
    forall k | 0 <= k < |ps| ensures ps'[k] == ps[k] {
      assert Pack(ps, n).value.placed[k].position == Pack(items, n).value.placed[k].position;
    }
    assert ps' == ps;
  }

  /** An item with a cell equal to 1 at row or column 12 or beyond is wider
      than the largest truck: adding it fails at every size, whatever the
      list already holds. */
  lemma OversizedItemNeverFits(items: seq<SelectedItem>, it: SelectedItem, size: TruckSize, row: nat, col: nat)
    requires Occupies(it.item.shape, row, col) && (row >= 12 || col >= 12)
    ensures !Fit(items + [it], size).success
  {
    var n := Dimension(size);
    var all := items + [it];
    assert all[..|items|] == items;
    if Pack(items, n).None? {
      PackFailureExtends(all, n, |items|);
    } else {
      assert all[|items|] == it;
      FitFailsWithoutOrigin(all, size, |items|);
    }
  }
}
