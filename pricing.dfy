/**
  Truck recommendation by block count and quote pricing: the threshold
  chain and price breakdown of the recommendation screen, the payload it
  saves, and the mapping that rebuilds a quote-history entry from a stored
  row (which repeats the same thresholds and prices as literals).
 */
module Pricing {
  import opened Types
  import opened Packing

  /** A recommended truck, or the overflow verdict past XL's capacity. */
  datatype Recommendation = Truck(size: TruckSize) | Overflow

  /** Price breakdown of a quote. */
  datatype PriceBreakdown = PriceBreakdown(base: int, distanceCost: int, total: int)

  /** Quote fields handed to the save callback. */
  datatype QuoteDraft = QuoteDraft(
    origin: string, destination: string, distance: int, truck: string,
    blocks: int, basePrice: int, distancePrice: int, totalPrice: int)

  /** A stored quote row; `None` stands for a missing or null field. */
  datatype QuoteRow = QuoteRow(totalBlocks: Option<int>, distance: Option<int>)

  /** A quote-history entry rebuilt from a stored row. */
  datatype HistoryEntry = HistoryEntry(
    truck: TruckSize, blocks: int, distance: int,
    basePrice: int, distancePrice: int, totalPrice: int)

  function SizeLabel(s: TruckSize): string
  {
    match s
    case S => "S"
    case M => "M"
    case L => "L"
    case XL => "XL"
  }

  function RecommendationLabel(r: Recommendation): string
  {
    match r
    case Truck(s) => SizeLabel(s)
    case Overflow => "OVERFLOW"
  }

  /** The smallest truck whose capacity holds `totalBlocks`; overflow exactly
      when even XL's capacity is exceeded. */
  function RecommendedSize(totalBlocks: int): (r: Recommendation)
    ensures r.Overflow? <==> totalBlocks > Capacity(XL)
    ensures r.Truck? ==> totalBlocks <= Capacity(r.size)
    ensures r.Truck? ==> forall t :: SizeIndex(t) < SizeIndex(r.size) ==> Capacity(t) < totalBlocks
  {
    if totalBlocks <= Capacity(S) then Truck(S)
    else if totalBlocks <= Capacity(M) then Truck(M)
    else if totalBlocks <= Capacity(L) then Truck(L)
    else if totalBlocks <= Capacity(XL) then Truck(XL)
    else Overflow
  }

  /** The price of a size for a route of `distance` kilometres. */
  function GetPrice(size: TruckSize, distance: int): (p: PriceBreakdown)
    ensures p.total == p.base + p.distanceCost
    ensures p.base == BasePrice(size) && p.distanceCost == distance * PricePerKm
  {
    var base := BasePrice(size);
    var distanceCost := distance * PricePerKm;
    PriceBreakdown(base, distanceCost, base + distanceCost)
  }

  /** The pricing shown for a load: that of the recommended size, or all
      zeros on overflow. */
  function CurrentPricing(totalBlocks: int, distance: int): (p: PriceBreakdown)
    ensures RecommendedSize(totalBlocks).Overflow? ==> p == PriceBreakdown(0, 0, 0)
    ensures RecommendedSize(totalBlocks).Truck? ==> p == GetPrice(RecommendedSize(totalBlocks).size, distance)
  {
    var rec := RecommendedSize(totalBlocks);
    if rec.Truck? then GetPrice(rec.size, distance) else PriceBreakdown(0, 0, 0)
  }

  /** The quote handed to the save callback. */
  function SavePayload(origin: string, destination: string, distance: int, totalBlocks: int): (q: QuoteDraft)
    ensures q.origin == origin && q.destination == destination && q.distance == distance
    ensures q.blocks == totalBlocks
    ensures q.truck == "Camión " + RecommendationLabel(RecommendedSize(totalBlocks))
    ensures var p := CurrentPricing(totalBlocks, distance);
            q.basePrice == p.base && q.distancePrice == p.distanceCost && q.totalPrice == p.total
    ensures q.totalPrice == q.basePrice + q.distancePrice
  {
    var pricing := CurrentPricing(totalBlocks, distance);
    QuoteDraft(origin, destination, distance, "Camión " + RecommendationLabel(RecommendedSize(totalBlocks)),
               totalBlocks, pricing.base, pricing.distanceCost, pricing.total)
  }

  /** Sum of the block counts of the selected items: what the recommendation
      screen receives. */
  function TotalBlocks(items: seq<SelectedItem>): int
  {
    if |items| == 0 then 0 else TotalBlocks(items[..|items| - 1]) + items[|items| - 1].item.blocks
  }

  /** `x || 0` on a numeric field: a missing value reads as zero. */
  function OrZero(v: Option<int>): int
  {
    match v
    case Some(x) => x
    case None => 0
  }

  /** The history mapping's threshold chain, written with literals. */
  function HistoryTruck(blocks: int): TruckSize
  {
    if blocks <= 36 then S else if blocks <= 64 then M else if blocks <= 100 then L else XL
  }

  /** The history mapping's base price, written with literals. */
  function HistoryBasePrice(truck: TruckSize): int
  {
    match truck
    case S => 45000
    case M => 85000
    case L => 130000
    case XL => 180000
  }

  /** A history entry rebuilt from a stored row. */
  function MapHistoryRow(row: QuoteRow): (h: HistoryEntry)
    ensures h.blocks == OrZero(row.totalBlocks) && h.distance == OrZero(row.distance)
    ensures h.totalPrice == h.basePrice + h.distancePrice
  {
    var blocks := OrZero(row.totalBlocks);
    var truck := HistoryTruck(blocks);
    var basePrice := HistoryBasePrice(truck);
    var distancePrice := OrZero(row.distance) * 1500;
    HistoryEntry(truck, blocks, OrZero(row.distance), basePrice, distancePrice, basePrice + distancePrice)
  }

  /** Recommendation and history agree on the truck up to XL's capacity;
      past it the history shows XL where the recommendation shows overflow. */
  lemma HistoryTruckAgreesWithRecommendation(blocks: int)
    ensures blocks <= Capacity(XL) ==> RecommendedSize(blocks) == Truck(HistoryTruck(blocks))
    ensures blocks > Capacity(XL) ==> RecommendedSize(blocks) == Overflow && HistoryTruck(blocks) == XL
  {
  }

  /** The history mapping prices a row exactly as the recommendation screen
      prices its size and distance. */
  lemma HistoryPricesAgreeWithTables(row: QuoteRow)
    ensures var h := MapHistoryRow(row);
            GetPrice(h.truck, h.distance) == PriceBreakdown(h.basePrice, h.distancePrice, h.totalPrice)
  {
  }

  /** A saved quote, read back from a row holding its blocks and distance,
      yields the same truck and the same prices. */
  lemma SavedQuoteReloadsUnchanged(origin: string, destination: string, distance: int, totalBlocks: int)
    requires totalBlocks <= Capacity(XL)
    ensures var q := SavePayload(origin, destination, distance, totalBlocks);
            var h := MapHistoryRow(QuoteRow(Some(q.blocks), Some(q.distance)));
            q.truck == "Camión " + SizeLabel(h.truck) &&
            h.blocks == q.blocks && h.basePrice == q.basePrice &&
            h.distancePrice == q.distancePrice && h.totalPrice == q.totalPrice
  {
    HistoryTruckAgreesWithRecommendation(totalBlocks);
  }

  /** More blocks never get a smaller truck. */
  lemma RecommendationIsMonotone(b1: int, b2: int)
    requires b1 <= b2 && RecommendedSize(b2).Truck?
    ensures RecommendedSize(b1).Truck?
    ensures SizeIndex(RecommendedSize(b1).size) <= SizeIndex(RecommendedSize(b2).size)
  {
  }

  /** At the same distance a larger truck costs strictly more, and the
      quoted total never falls as the load grows. */
  lemma PriceGrowsWithSize(s: TruckSize, t: TruckSize, distance: int)
    requires SizeIndex(s) < SizeIndex(t)
    ensures GetPrice(s, distance).total < GetPrice(t, distance).total
  {
    TablesIncrease(s, t);
  }

  lemma PricingIsMonotoneInBlocks(b1: int, b2: int, distance: int)
    requires b1 <= b2 && RecommendedSize(b2).Truck?
    ensures CurrentPricing(b1, distance).total <= CurrentPricing(b2, distance).total
  {
    RecommendationIsMonotone(b1, b2);
    var s, t := RecommendedSize(b1).size, RecommendedSize(b2).size;
    if s != t {
      PriceGrowsWithSize(s, t, distance);
    }
  }

  /** The packer leaves block counts alone, so the recommendation depends on
      the selection and not on where items were placed. */
  lemma {:induction false} TotalBlocksOfPlacements(items: seq<SelectedItem>, placements: seq<SelectedItem>)
    requires |placements| == |items|
    requires forall k :: 0 <= k < |items| ==> placements[k].item == items[k].item
    ensures TotalBlocks(placements) == TotalBlocks(items)
  {
    if |items| > 0 {
      TotalBlocksOfPlacements(items[..|items| - 1], placements[..|items| - 1]);
    }
  }

  lemma RecommendationIgnoresPacking(items: seq<SelectedItem>, size: TruckSize, distance: int)
    requires Fit(items, size).success
    ensures var ps := Fit(items, size).placements;
            RecommendedSize(TotalBlocks(ps)) == RecommendedSize(TotalBlocks(items)) &&
            CurrentPricing(TotalBlocks(ps), distance) == CurrentPricing(TotalBlocks(items), distance)
  {
    FitKeepsItems(items, size);
    TotalBlocksOfPlacements(items, Fit(items, size).placements);
  }
}
