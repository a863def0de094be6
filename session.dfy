/**
  The repacking policy: the working list of selected items and the current
  truck size, updated by adding an item, removing one, or resetting.
  Every add or remove repacks the whole list from scratch; an add tries
  sizes upward from the current one, a remove restarts from S.
 */
module Session {
  import opened Types
  import opened Packing
  import opened GridPacker

  /** A packed list together with the truck size it was packed for. */
  datatype Packed = Packed(items: seq<SelectedItem>, size: TruckSize)

  /** Route data of the quote being prepared. */
  datatype QuoteData = QuoteData(origin: string, destination: string, distance: int)

  /** The first size, from position `from` of the size list upward, at which
      the list fits, with the placements found there. */
  function FirstFittingSize(items: seq<SelectedItem>, from: nat): (r: Option<Packed>)
    ensures r.Some? ==>
      from <= SizeIndex(r.value.size) && Fit(items, r.value.size) == FitResult(true, r.value.items)
    ensures forall j :: from <= j < |Sizes| && (r.Some? ==> j < SizeIndex(r.value.size)) ==>
      !Fit(items, Sizes[j]).success
    decreases |Sizes| - from
  {
    if from >= |Sizes| then None
    else
      var res := Fit(items, Sizes[from]);
      if res.success then Some(Packed(res.placements, Sizes[from]))
      else FirstFittingSize(items, from + 1)
  }

  /** One step of the size scan: a size where the list fits is taken,
      otherwise the scan moves on to the next size. */
  lemma FirstFittingStep(items: seq<SelectedItem>, i: nat)
    requires i < |Sizes|
    ensures Fit(items, Sizes[i]).success ==>
      FirstFittingSize(items, i) == Some(Packed(Fit(items, Sizes[i]).placements, Sizes[i]))
    ensures !Fit(items, Sizes[i]).success ==> FirstFittingSize(items, i) == FirstFittingSize(items, i + 1)
  {
  }

  /** Where an add starts its size scan: S for an empty list, otherwise the
      current size. */
  function StartIndex(items: seq<SelectedItem>, size: TruckSize): (r: nat)
    ensures r < |Sizes|
    ensures |items| == 0 ==> r == 0
    ensures |items| > 0 ==> Sizes[r] == size
  {
    if |items| == 0 then 0 else SizeIndex(size)
  }

  /** The new state after adding `newItem`, or `None` when no size from the
      start index through XL holds the longer list (the add is refused). */
  function AddOutcome(items: seq<SelectedItem>, size: TruckSize, newItem: SelectedItem): Option<Packed>
  {
    FirstFittingSize(items + [newItem], StartIndex(items, size))
  }

  /** The list without the element at `index`; an index outside the list
      removes nothing. */
  function RemoveAt(items: seq<SelectedItem>, index: int): (r: seq<SelectedItem>)
    ensures 0 <= index < |items| ==>
      |r| == |items| - 1 && forall k :: 0 <= k < |r| ==> r[k] == items[if k < index then k else k + 1]
    ensures 0 <= index < |items| ==> multiset(r) + multiset{items[index]} == multiset(items)
    ensures !(0 <= index < |items|) ==> r == items
  {
    if 0 <= index < |items| then
      assert items == items[..index] + [items[index]] + items[index + 1..];
      items[..index] + items[index + 1..]
    else items
  }

  /** Removing an element keeps every remaining instance id non-empty. */
  lemma RemoveAtKeepsIds(items: seq<SelectedItem>, index: int)
    requires NonEmptyIds(items)
    ensures NonEmptyIds(RemoveAt(items, index))
  {
    var rest := RemoveAt(items, index);
    if 0 <= index < |items| {
      forall k | 0 <= k < |rest| ensures rest[k].instanceId != "" {
        if k < index {
          assert rest[k] == items[k];
        } else {
          assert rest[k] == items[k + 1];
        }
      }
    }
  }

  /** The new state after removing the element at `index`: the smallest
      size that holds the rest, or the empty list at S when none does. */
  function RemoveOutcome(items: seq<SelectedItem>, index: int): Packed
  {
    match FirstFittingSize(RemoveAt(items, index), 0)
    case Some(p) => p
    case None => Packed([], S)
  }

  /** An add to a non-empty list never moves to a smaller truck. */
  lemma AddNeverShrinks(items: seq<SelectedItem>, size: TruckSize, newItem: SelectedItem)
    requires items != [] && AddOutcome(items, size, newItem).Some?
    ensures SizeIndex(size) <= SizeIndex(AddOutcome(items, size, newItem).value.size)
  {
  }

  /** An accepted add adopts the first size, from the start index upward,
      at which the longer list fits, with exactly the placements found
      there; every size skipped over failed. */
  lemma AddAdoptsFirstFittingSize(items: seq<SelectedItem>, size: TruckSize, newItem: SelectedItem)
    requires AddOutcome(items, size, newItem).Some?
    ensures var p := AddOutcome(items, size, newItem).value;
            var start := StartIndex(items, size);
            start <= SizeIndex(p.size) &&
            Fit(items + [newItem], p.size) == FitResult(true, p.items) &&
            forall j :: start <= j < SizeIndex(p.size) ==> !Fit(items + [newItem], Sizes[j]).success
  {
  }

  /** A refused add: the longer list fits at no size from the start index
      through XL, in particular not in XL. */
  lemma AddRefusedOnlyWhenNothingFits(items: seq<SelectedItem>, size: TruckSize, newItem: SelectedItem)
    requires AddOutcome(items, size, newItem).None?
    ensures !Fit(items + [newItem], XL).success
    ensures forall j :: StartIndex(items, size) <= j < |Sizes| ==> !Fit(items + [newItem], Sizes[j]).success
  {
    assert Sizes[3] == XL;
  }

  /** A remove adopts the smallest size that holds the remaining items,
      with its placements, or falls back to the empty list at S. */
  lemma RemoveAdoptsSmallestSize(items: seq<SelectedItem>, index: int)
    ensures var rest := RemoveAt(items, index);
            var p := RemoveOutcome(items, index);
            (Fit(rest, p.size) == FitResult(true, p.items) &&
             forall j :: 0 <= j < SizeIndex(p.size) ==> !Fit(rest, Sizes[j]).success) ||
            (p == Packed([], S) && forall j :: 0 <= j < |Sizes| ==> !Fit(rest, Sizes[j]).success)
  {
  }

  /** The empty list always fits, in S, with no placements. */
  lemma EmptyListFitsInS()
    ensures Fit([], S) == FitResult(true, [])
  {
  }

  /** Removing the only item leaves the empty list at size S. */
  lemma RemovingOnlyItemResetsToS(items: seq<SelectedItem>)
    requires |items| == 1
    ensures RemoveOutcome(items, 0) == Packed([], S)
  {
    assert RemoveAt(items, 0) == [];
    EmptyListFitsInS();
  }

  /** An index outside the list leaves the list as it is, yet the list is
      still repacked from S. */
  lemma RemoveOutOfRangeRepacks(items: seq<SelectedItem>, index: int)
    requires !(0 <= index < |items|)
    ensures RemoveOutcome(items, index) ==
      match FirstFittingSize(items, 0) case Some(p) => p case None => Packed([], S)
  {
  }

  /** A state the session can be in: its list is exactly what the packer
      produces for it at the current size, so its items lie inside the
      truck and no two share a cell. */
  lemma SessionStateIsPacked(items: seq<SelectedItem>, size: TruckSize)
    requires NonEmptyIds(items) && Fit(items, size) == FitResult(true, items)
    ensures AllInBounds(items, Dimension(size))
    ensures forall k1, k2, col, row :: 0 <= k1 < k2 < |items| && PlacedCovers(items[k1], col, row) ==>
      !PlacedCovers(items[k2], col, row)
  {
    FitInBounds(items, size);
    FitNoOverlap(items, size);
  }

  /** A packed list keeps being a fixed point of the packer and keeps
      non-empty ids. */
  lemma AdoptedPlacementsAreStable(items: seq<SelectedItem>, size: TruckSize)
    requires NonEmptyIds(items) && Fit(items, size).success
    ensures var ps := Fit(items, size).placements;
            NonEmptyIds(ps) && Fit(ps, size) == FitResult(true, ps)
  {
    FitKeepsItems(items, size);
    RefitIsIdempotent(items, size);
  }

  /** The working state of the application: selected items with their
      positions, the truck size they were packed for, and the route data. */
  class LoadSession {
    var selectedItems: seq<SelectedItem>
    var currentTruckSize: TruckSize
    var quoteData: QuoteData

    /** The list is what the packer produces for it at the current size,
        and every instance id is non-empty. */
    ghost predicate Valid()
      reads this
    {
      NonEmptyIds(selectedItems) && Fit(selectedItems, currentTruckSize) == FitResult(true, selectedItems)
    }

    constructor ()
      ensures Valid()
      ensures selectedItems == [] && currentTruckSize == S && quoteData == QuoteData("", "", 0)
    {
      selectedItems := [];
      currentTruckSize := S;
      quoteData := QuoteData("", "", 0);
      EmptyListFitsInS();
    }

    /** Adds a catalog item with the given instance id and colour. On a
        refusal (`alerted`), nothing changes. */
    method HandleAddItem(item: FurnitureItem, instanceId: string, color: string) returns (alerted: bool)
      requires Valid() && instanceId != ""
      modifies this
      ensures Valid()
      ensures var outcome := AddOutcome(old(selectedItems), old(currentTruckSize), SelectedItem(item, instanceId, color, None));
              && alerted == outcome.None?
              && (outcome.Some? ==> selectedItems == outcome.value.items && currentTruckSize == outcome.value.size)
              && (outcome.None? ==> selectedItems == old(selectedItems) && currentTruckSize == old(currentTruckSize))
      ensures quoteData == old(quoteData)
    {
      var newItem := SelectedItem(item, instanceId, color, None);
      var newProposedList := selectedItems + [newItem];
      assert NonEmptyIds(newProposedList);
      var startIndex := SizeIndex(currentTruckSize);
      if |selectedItems| == 0 {
        startIndex := 0;
      }
      var i := startIndex;
      while i < |Sizes|
        invariant startIndex <= i <= |Sizes|
        invariant FirstFittingSize(newProposedList, i) == AddOutcome(old(selectedItems), old(currentTruckSize), newItem)
        invariant selectedItems == old(selectedItems) && currentTruckSize == old(currentTruckSize)
        invariant quoteData == old(quoteData)
      {
        var sizeToCheck := Sizes[i];
        var result := FitItemsInTruck(newProposedList, sizeToCheck);
        FirstFittingStep(newProposedList, i);
        if result.success {
          AdoptedPlacementsAreStable(newProposedList, sizeToCheck);
          selectedItems := result.placements;
          currentTruckSize := sizeToCheck;
          return false;
        }
        i := i + 1;
      }
      return true;
    }

    /** Removes the item at `index` and repacks the rest from S. */
    method HandleRemoveItem(index: int)
      requires Valid()
      modifies this
      ensures Valid()
      ensures Packed(selectedItems, currentTruckSize) == RemoveOutcome(old(selectedItems), index)
      ensures quoteData == old(quoteData)
    {
      var remainingItems := RemoveAt(selectedItems, index);
      RemoveAtKeepsIds(selectedItems, index);
      var i := 0;
      while i < |Sizes|
        invariant 0 <= i <= |Sizes|
        invariant FirstFittingSize(remainingItems, i) == FirstFittingSize(remainingItems, 0)
        invariant selectedItems == old(selectedItems) && quoteData == old(quoteData)
      {
        var size := Sizes[i];
        var result := FitItemsInTruck(remainingItems, size);
        FirstFittingStep(remainingItems, i);
        if result.success {
          AdoptedPlacementsAreStable(remainingItems, size);
          selectedItems := result.placements;
          currentTruckSize := size;
          return;
        }
        i := i + 1;
      }
      selectedItems := [];
      currentTruckSize := S;
      EmptyListFitsInS();
    }

    /** "Undo last": removes the last item of a non-empty list. */
    method UndoLast()
      requires Valid() && |selectedItems| > 0
      modifies this
      ensures Valid()
      ensures Packed(selectedItems, currentTruckSize) == RemoveOutcome(old(selectedItems), |old(selectedItems)| - 1)
      ensures RemoveAt(old(selectedItems), |old(selectedItems)| - 1) == old(selectedItems)[..|old(selectedItems)| - 1]
      ensures quoteData == old(quoteData)
    {
      HandleRemoveItem(|selectedItems| - 1);
    }

    /** Empties the list, returns to size S and clears the route data. */
    method HandleReset()
      modifies this
      ensures Valid()
      ensures selectedItems == [] && currentTruckSize == S && quoteData == QuoteData("", "", 0)
    {
      selectedItems := [];
      currentTruckSize := S;
      quoteData := QuoteData("", "", 0);
      EmptyListFitsInS();
    }
  }
}
