# Moving-quote truck packer, in Dafny

This is a model of the core of a moving-quote web application. A customer picks furniture from a catalog. The application packs the pieces onto the square floor grid of a truck: S is 6×6, M is 8×8, L is 10×10 and XL is 12×12.

It places items one by one in list order. Each item goes to the first origin, in row-major order, where its 0/1 shape fits on empty cells. If one item finds no origin, the whole attempt fails.

Around the packer sits a repacking policy over the working list and the current truck size:

- an add tries sizes upward from the current one, or from S for an empty list;
- a remove repacks what is left from S;
- a reset empties everything.

The model also covers the smaller rules around the packer:

- the recommendation of a truck by block count, and the price breakdown;
- the saved quote, and the quote-history mapping;
- the route-distance heuristic, and the grid shown on screen;
- the guard in front of adding an item;
- the password-strength rule of the sign-in form and of the registration handler.

Modules:

- `Types` (types.dfy): size tables, price per kilometre, catalog, communes, UTF-16 length and code units.
- `Packing` (packing.dfy): the packer as functions on values (`Fits`, `Place`, `FirstOrigin`, `Pack`, `Fit`). It carries the lemmas for first fit, all-or-nothing failure, bounds, no overlap and refit idempotence.
- `GridPacker` (grid_packer.dfy): the packer as the source runs it. Class `TruckGrid` holds a mutable `array2<string>` grid. Its methods check, write and scan that grid, and each one is proved equal to the `Packing` functions.
- `Session` (session.dfy): the repacking policy. Its specification is `AddOutcome` and `RemoveOutcome`, and class `LoadSession` holds the state and the handlers.
- `Pricing` (pricing.dfy): recommendation, pricing, save payload, history mapping.
- `LoadAssistant` (load_assistant.dfy): distance, add guard, grid rendering.
- `Auth` (auth.dfy): password strength, submit dispatch, registration gate.

## Model

| member | source | states |
|---|---|---|
| Types.SizeIndex | App.tsx:322-323 | the position of a size in the list S, M, L, XL is in range and names that size |
| Types.Dimension | types.ts:30-35 | the side of every truck grid lies between 6 and 12 |
| Types.Capacity | types.ts:30-35 | each capacity is the square of the truck's grid side |
| Types.BasePrice | types.ts:37-42 | base prices lie between 45000 and 180000 |
| Types.TablesIncrease | types.ts:30-42 | side, capacity and base price all strictly increase from S to XL |
| Types.CatalogWellFormed | types.ts:14-28 | the catalog has 13 entries with distinct ids and at least one block each |
| Types.ComunasDistinct | types.ts:46-51 | the commune list holds 20 distinct names |
| Types.Utf16Length | components/Auth.tsx:22 | a string's JavaScript length is between its character count and twice that, and equals the count when every character is in the Basic Multilingual Plane |
| Types.Utf16Encode | components/Auth.tsx:22-26 | a character inside the Basic Multilingual Plane is one code unit equal to itself; any other is a high and a low surrogate from which the character is recovered |
| Types.Utf16Units | components/Auth.tsx:22-26 | the code units JavaScript sees in a string, exactly as many as its `.length` |
| Packing.EmptyGrid | App.tsx:248-250 | the new grid is n by n with every cell empty |
| Packing.Fits | App.tsx:253-269 | every 1 of the shape lands inside the grid on an empty cell; `FitsIffFree` reads it off the placements |
| Packing.Place | App.tsx:272-280 | exactly the cells under a 1 of the shape take the id; every other cell keeps its value |
| Packing.FirstOrigin | App.tsx:292-302 | the row-major scan for an origin; its contract is `FirstOriginIsFirst` |
| Packing.Pack | App.tsx:288-307 | packing in list order succeeds with an n by n grid and one placement per item; `None` as soon as an item has no origin |
| Packing.Fit | App.tsx:283-310 | a failed fit has no placements; a successful one has one placement per item |
| Packing.FirstOriginIsFirst | App.tsx:292-302 | the scan returns an in-range origin where the shape fits; no origin scanned before it fits; when the scan finds nothing, no origin from the start onward fits |
| Packing.FitKeepsItems | App.tsx:297 | placements keep the items' order and fields and add a position to each |
| Packing.FitIsFirstFit | App.tsx:288-302 | each item sits at the first row-major origin where it fits on the grid left by the items before it |
| Packing.FitsIffFree | App.tsx:253-269 | on a packed state, the grid check passes exactly when the shape stays in bounds and meets no cell an earlier placement covers |
| Packing.FitIsFirstFreeOrigin | App.tsx:288-302 | each item sits at the first row-major origin where its shape stays inside the truck and meets no cell covered by the items before it, read from the placements alone |
| Packing.FitFailsWithoutOrigin | App.tsx:304-306 | if some item has no origin on the grid left by the earlier items, the whole fit fails with no placements |
| Packing.PackFailureExtends | App.tsx:304-306 | once a prefix cannot be packed, no longer list can be |
| Packing.PackPrefix | App.tsx:288-307 | packing a prefix gives the same placements as the prefix of the whole packing |
| Packing.FitInBounds | App.tsx:261 | on success every occupied cell lies inside the truck grid |
| Packing.FitNoOverlap | App.tsx:264 | on success, with non-empty instance ids, no cell is covered by two items |
| Packing.PackConsistent | App.tsx:264-276 | with non-empty ids, items lie within bounds and are disjoint, every covered cell holds its item's id, and every cell no item covers is empty |
| Packing.RefitIsIdempotent | App.tsx:283-310 | packing the returned placements again at the same size gives the same result |
| Packing.PackReadsOnlyKeys | App.tsx:295-297 | two lists with equal shapes and ids pack to the same grid and positions |
| Packing.OversizedItemNeverFits | App.tsx:261 | an item with a shape cell at row or column 12 or beyond makes every fit fail |
| GridPacker.TruckGrid.constructor | App.tsx:248-250 | the grid array is n by n and empty |
| GridPacker.TruckGrid.CanPlaceItem | App.tsx:253-269 | returns true exactly when every 1 of the shape lands in bounds on an empty cell; the grid is unchanged |
| GridPacker.TruckGrid.PlaceItemOnGrid | App.tsx:272-280 | writes the id into exactly the covered cells and leaves all others unchanged |
| GridPacker.PlaceAtFirstOrigin | App.tsx:289-302 | the row-major scan with its `placed` flag places the item at the first fitting origin, or leaves the grid unchanged |
| GridPacker.FitItemsInTruck | App.tsx:283-310 | the imperative packer returns exactly `Packing.Fit` for the same items and size |
| Session.FirstFittingSize | App.tsx:328-337 | the chosen size is at or after the start, the list fits there with the returned placements, and every size skipped fails |
| Session.StartIndex | App.tsx:323-326 | the scan starts at S for an empty list and at the current size otherwise |
| Session.AddOutcome | App.tsx:319-340 | the first size from the start index where the longer list fits; its properties are the `Add…` lemmas below |
| Session.RemoveAt | App.tsx:346 | an in-range index drops exactly that element and keeps the others in order; any other index keeps the list |
| Session.RemoveOutcome | App.tsx:346-361 | the smallest size holding the rest, or the empty list at S; its properties are the `Remove…` lemmas below |
| Session.AddNeverShrinks | App.tsx:323-326 | an add to a non-empty list never moves to a smaller truck |
| Session.AddAdoptsFirstFittingSize | App.tsx:319-336 | an accepted add adopts the first size from the start index where the longer list fits, with its placements |
| Session.AddRefusedOnlyWhenNothingFits | App.tsx:328-340 | a refused add means the longer list fits at no size from the start index through XL |
| Session.RemoveAdoptsSmallestSize | App.tsx:346-361 | a remove adopts the smallest size that holds the rest, or the empty list at S when none does |
| Session.EmptyListFitsInS | App.tsx:359 | the empty list fits in S |
| Session.RemovingOnlyItemResetsToS | App.tsx:346-361 | removing the only item leaves the empty list at S |
| Session.RemoveOutOfRangeRepacks | App.tsx:346-357 | an out-of-range index keeps the list but still repacks it from S |
| Session.SessionStateIsPacked | App.tsx:333-334 | any adopted state lies inside the truck, with no two items sharing a cell |
| Session.AdoptedPlacementsAreStable | App.tsx:333 | adopted placements have non-empty ids and are a fixed point of the packer |
| Session.LoadSession.constructor | App.tsx:49-57 | the session starts empty at S with empty route data |
| Session.LoadSession.HandleAddItem | App.tsx:312-341 | the new state is `AddOutcome`; on refusal the alert flag is set and nothing changes; the invariant is kept |
| Session.LoadSession.HandleRemoveItem | App.tsx:343-362 | the new state is `RemoveOutcome`; the invariant is kept |
| Session.LoadSession.UndoLast | components/LoadAssistant.tsx:273-275 | removes index length - 1, which drops exactly the last item |
| Session.LoadSession.HandleReset | App.tsx:364-368 | empty list, size S, empty route data |
| Pricing.RecommendedSize | components/Recommendation.tsx:24-31 | the smallest size whose capacity holds the blocks; overflow exactly when blocks exceed XL's capacity |
| Pricing.GetPrice | components/Recommendation.tsx:34-38 | base from the table, distance cost at the per-kilometre rate, total their sum |
| Pricing.CurrentPricing | components/Recommendation.tsx:40 | zeros on overflow, otherwise the price of the recommended size |
| Pricing.SavePayload | components/Recommendation.tsx:42-53 | the payload carries the route, the blocks, the truck label "Camión " + recommendation, and exactly the base, distance and total prices shown for the load |
| Pricing.OrZero | App.tsx:78-81 | the zero default on a stored number: a missing value reads as zero |
| Pricing.HistoryTruck | App.tsx:79 | the history's literal threshold chain; `HistoryTruckAgreesWithRecommendation` relates it to the capacities |
| Pricing.HistoryBasePrice | App.tsx:80 | the history's literal price chain; `HistoryPricesAgreeWithTables` relates it to the price table |
| Pricing.MapHistoryRow | App.tsx:78-82 | missing fields read as zero; total is base plus distance price |
| Pricing.HistoryTruckAgreesWithRecommendation | App.tsx:79 | history and recommendation agree on the truck up to 144 blocks; past that history shows XL where the recommendation shows overflow |
| Pricing.HistoryPricesAgreeWithTables | App.tsx:80-82 | the history's literal prices equal the price tables at the per-kilometre rate |
| Pricing.SavedQuoteReloadsUnchanged | App.tsx:78-82 | a saved quote read back from history has the same truck and prices |
| Pricing.RecommendationIsMonotone | components/Recommendation.tsx:24-29 | more blocks never get a smaller recommended truck |
| Pricing.PriceGrowsWithSize | types.ts:37-44 | at the same distance a larger truck costs strictly more |
| Pricing.PricingIsMonotoneInBlocks | components/Recommendation.tsx:24-40 | up to 144 blocks the quoted total never falls as the block count grows; past XL's capacity it drops to zero |
| Pricing.TotalBlocks | App.tsx:485 | the block total handed to the recommendation screen; `TotalBlocksOfPlacements` shows it ignores positions |
| Pricing.TotalBlocksOfPlacements | App.tsx:485 | the block total is unchanged by adding positions |
| Pricing.RecommendationIgnoresPacking | App.tsx:485 | recommendation and price depend on the selection, not on the packer's placements |
| LoadAssistant.Distance | components/LoadAssistant.tsx:29-41 | zero exactly when a commune is unset or both are equal; otherwise between 5 and 44 |
| LoadAssistant.DistanceIsSymmetric | components/LoadAssistant.tsx:34-35 | swapping origin and destination keeps the distance |
| LoadAssistant.DistanceBetweenCommunes | components/LoadAssistant.tsx:34-36 | two different communes of the list are between 5 and 44 apart |
| LoadAssistant.AddItemClick | components/LoadAssistant.tsx:71-81 | the item is added exactly when both communes are set and differ; a missing commune alerts first |
| LoadAssistant.AddedItemsHaveRoute | components/LoadAssistant.tsx:71-81 | whenever an item is added, the route distance is between 5 and 44 |
| LoadAssistant.CellOwner | components/LoadAssistant.tsx:51-58 | the item drawn in a cell; its contract is `CellOwnerIsCovering` and `LaterItemWins` |
| LoadAssistant.CellOwnerIsCovering | components/LoadAssistant.tsx:51-58 | a drawn item is in the list and covers the cell; a cell is empty exactly when no item covers it |
| LoadAssistant.LaterItemWins | components/LoadAssistant.tsx:51-58 | of several items covering a cell, the last in the list is drawn |
| LoadAssistant.RenderShowsPackedItems | components/LoadAssistant.tsx:47-67 | for a packed list every covered cell shows the item placed there |
| LoadAssistant.PaintItem | components/LoadAssistant.tsx:52-62 | the item is written into exactly the in-range cells its shape covers |
| LoadAssistant.RenderGrid | components/LoadAssistant.tsx:47-67 | a gridSize square whose cells hold the item drawn there, or nothing |
| Auth.IsStrong | components/Auth.tsx:20-26 | at least 8 code units, an ASCII capital, an ASCII small letter, a digit and a symbol; `StrongAgreesWithRegexes` ties it to the regular expressions |
| Auth.ClassSurvivesEncoding | components/Auth.tsx:23-26 | a string has a character of a class exactly when some UTF-16 code unit of it matches that class's regular expression |
| Auth.StrongAgreesWithRegexes | App.tsx:123-129 | the character-level rule holds exactly when the code units pass `.length >= 8` and the tests `/[A-Z]/`, `/[a-z]/`, `/[0-9]/` and `/[^A-Za-z0-9]/` |
| Auth.AccentedLetterCountsAsSymbol | components/Auth.tsx:20-26 | a non-ASCII letter such as ñ serves as the symbol |
| Auth.AstralCharactersCountTwice | components/Auth.tsx:22 | length counts UTF-16 code units, so six characters can meet the minimum of eight |
| Auth.NoCapitalIsWeak | components/Auth.tsx:23 | without an ASCII capital a password is weak |
| Auth.HandleSubmit | components/Auth.tsx:18-36 | register mode alerts exactly on a weak password and otherwise forwards the fields unchanged; login mode forwards email and password whatever their strength |
| Auth.RegisterGate | App.tsx:121-133 | the handler rejects exactly the weak passwords before any request |
| Auth.FormAndHandlerAgree | App.tsx:123-133 | the form forwards a registration exactly when the handler would send it |

## Left out

- Network, tokens and the server are not modelled. This covers token refresh, the register, login, save and delete requests, and the history fetch around App.tsx:60-104. Rows the server returns are taken as inputs (`Pricing.QuoteRow`).
- `localStorage` persistence and the user list are not modelled.
- The file-upload screen, the dashboard, the furniture icons and all markup and styling are not part of this model.
- Instance ids and colours come from `Math.random` in the source. Here they are inputs to `Session.LoadSession.HandleAddItem`, which requires a non-empty id. An empty id would make its own cells look free to the overlap check. No-overlap needs non-empty ids, not distinct ones.
- `alert` is a returned flag or outcome constructor, and the alert text for a refused add is not modelled.
- Date and number formatting for display are not modelled.
- Route data is set by the "finish" step of App, which lies outside this model. The session keeps it and only reset clears it.
- `types.ts` declares no shapes, positions, colours or dimension table. The model gives every item a 0/1 shape and defines the sides 6, 8, 10 and 12 from the capacity comments.
- Success at one size does not imply success at a larger size under first-fit. No lemma claims it, and the policy never relies on it.
- Pricing.MapHistoryRow: models the copies at App.tsx:78-82 and App.tsx:408-412. The copy at App.tsx:201-205 multiplies the distance without the `|| 0` default, which the model does not represent. A missing value is `None`, and JavaScript's other falsy values (NaN, empty string) are not modelled.
- `typeof password === 'string'` always holds in the model, since passwords are strings.
- GridPacker.TruckGrid.PlaceItemOnGrid: requires every covered cell to be inside the grid. The source writes without a check, so a row past the grid throws a TypeError and a column past it grows that row. Its only caller checks `canPlaceItem` first, so neither case arises there.
- Each JavaScript `string[][]` grid is a Dafny `array2`, so rows cannot alias. The `gridSize` argument of `canPlaceItem` is the grid's own size.
- No lemma shows that 36 one-cell items fill S exactly and that a 37th moves the list to M.
- Distance: JavaScript's `.length` is modelled as `Types.Utf16Length`. The lemma about communes proves only the range, not the closed form over the names' lengths.
