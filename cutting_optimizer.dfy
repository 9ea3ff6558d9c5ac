/**
 * `optimizeCutting` (src/lib/utils/cuttingOptimizer.ts): the demands of one stock type are
 * expanded to unit demands, sorted longest first and packed first-fit onto bars drawn from the
 * stock catalogue; oversized demands become join groups; the plan ends with its totals.
 */
module CuttingOptimizer {
  import opened Wrappers
  import opened StockTypes
  import opened StockSettings
  import opened Groups
  import opened CuttingTypes
  import opened Demands
  import opened OversizeSplit
  import opened Packing

  /** Sum of the bar lengths (`totalStockLength`). */
  function StockTotal(stocks: seq<OptimizedStock>): int
  {
    if stocks == [] then 0 else StockTotal(stocks[..|stocks| - 1]) + stocks[|stocks| - 1].length
  }

  /** Sum of what each bar has given away (`totalUsed`). */
  function UsedTotal(stocks: seq<OptimizedStock>): int
  {
    if stocks == [] then 0 else UsedTotal(stocks[..|stocks| - 1]) + Used(stocks[|stocks| - 1])
  }

  /** Sum of the remaining lengths of the bars. */
  function Leftover(stocks: seq<OptimizedStock>): int
  {
    if stocks == [] then 0 else Leftover(stocks[..|stocks| - 1]) + stocks[|stocks| - 1].remainingLength
  }

  /** The waste of a plan is exactly what is left on its bars. */
  lemma {:induction false} WasteIsLeftover(stocks: seq<OptimizedStock>)
    ensures StockTotal(stocks) - UsedTotal(stocks) == Leftover(stocks)
  {
    if stocks != [] {
      WasteIsLeftover(stocks[..|stocks| - 1]);
    }
  }

  /** The `forEach` that adds up the bars, and the subtraction that gives the waste. */
  method Totals(stocks: seq<OptimizedStock>) returns (totalWaste: int, totalUsed: int)
    ensures totalUsed == UsedTotal(stocks)
    ensures totalWaste == Leftover(stocks)
    ensures totalUsed + totalWaste == StockTotal(stocks)
  {
    totalUsed := 0;
    var totalStockLength := 0;
    var i := 0;
    while i < |stocks|
      invariant 0 <= i <= |stocks|
      invariant totalUsed == UsedTotal(stocks[..i])
      invariant totalStockLength == StockTotal(stocks[..i])
    {
      assert stocks[..i + 1][..i] == stocks[..i];
      totalStockLength := totalStockLength + stocks[i].length;
      totalUsed := totalUsed + (stocks[i].length - stocks[i].remainingLength);
      i := i + 1;
    }
    assert stocks[..i] == stocks;
    totalWaste := totalStockLength - totalUsed;
    WasteIsLeftover(stocks);
  }

  /** The unit demands of `stockType`, longest first, in the order the main loop takes them. */
  function Sorted(pieces: seq<Piece>, stockType: StockType): seq<Piece>
  {
    SortByLength(Expand(pieces, stockType.id))
  }

  /** A settings record the loops of `optimizeCutting` terminate on. */
  predicate Usable(settings: Settings)
  {
    settings.maxLength > 0 && (settings.increment > 0 || settings.minLength > settings.maxLength)
  }

  /** The plan `optimizeCutting` returns, utilization percentages aside. */
  function Plan(pieces: seq<Piece>, settings: Settings, stockType: StockType): CuttingPlan
    requires Usable(settings)
  {
    var packed := Pack(Sorted(pieces, stockType), settings.maxLength, Catalogue(settings));
    CuttingPlan(packed.stocks, packed.oversized,
                StockTotal(packed.stocks) - UsedTotal(packed.stocks), UsedTotal(packed.stocks))
  }

  /** `optimizeCutting`: expansion, sort, catalogue, the main loop and the totals. */
  method OptimizeCutting(pieces: seq<Piece>, settings: Settings, stockType: StockType) returns (plan: CuttingPlan)
    requires Usable(settings)
    ensures plan == Plan(pieces, settings, stockType)
  {
    var expandedPieces := ExpandDemands(pieces, stockType.id);
    var sortedPieces := SortByLength(expandedPieces);
    var stockLengths := AvailableLengths(settings);
    var maxStockLength := settings.maxLength;
    var stocks: seq<OptimizedStock> := [];
    var oversizedPieces: seq<seq<OptimizedPiece>> := [];
    var k := 0;
    while k < |sortedPieces|
      invariant 0 <= k <= |sortedPieces|
      invariant PackState(stocks, oversizedPieces) == Pack(sortedPieces[..k], maxStockLength, stockLengths)
    {
      var piece := sortedPieces[k];
      PackPrefix(sortedPieces, k, maxStockLength, stockLengths);
      if piece.length > maxStockLength {
        var splitPieces := HandleOversizedPiece(piece, maxStockLength, stockLengths);
        oversizedPieces := oversizedPieces + [splitPieces];
      } else {
        var found := FirstFitIndex(stocks, piece);
        match found {
          case Some(i) =>
            stocks := stocks[i := PlaceInto(stocks[i], piece)];
          case None =>
            var suitableLength := FindAtLeast(stockLengths, piece.length);
            if Found(suitableLength) {
              stocks := stocks + [OpenBar(suitableLength.value, piece)];
            }
        }
      }
      k := k + 1;
    }
    assert sortedPieces[..k] == sortedPieces;
    var totalWaste, totalUsed := Totals(stocks);
    plan := CuttingPlan(stocks, oversizedPieces, totalWaste, totalUsed);
  }

  // ---------------------------------------------------------------------------------------
  // What the plan promises.

  /** The caller's contract: every piece of the type that is asked for at all is well formed. */
  ghost predicate Orders(pieces: seq<Piece>, typeId: string)
  {
    forall k :: 0 <= k < |pieces| && pieces[k].stockType.id == typeId && pieces[k].quantity > 0
      ==> WellFormed(pieces[k])
  }

  lemma SortedDemandable(pieces: seq<Piece>, stockType: StockType)
    requires Orders(pieces, stockType.id)
    ensures Demandable(Sorted(pieces, stockType), stockType.id)
  {
    var e := Expand(pieces, stockType.id);
    var s := Sorted(pieces, stockType);
    ExpandMembers(pieces, stockType.id);
    forall i | 0 <= i < |s|
      ensures WellFormed(s[i]) && s[i].stockType.id == stockType.id
    {
      assert s[i] in multiset(s);
      assert s[i] in e;
    }
  }

  /**
   * Every bar of the plan holds at least one piece, of the plan's stock type and no longer than
   * `maxLength`, laid out from position 0 with its kerf and margin; every bar length comes from
   * the catalogue.
   */
  lemma PlanLayout(pieces: seq<Piece>, settings: Settings, stockType: StockType)
    requires Usable(settings) && Orders(pieces, stockType.id)
    ensures AllWellPacked(Plan(pieces, settings, stockType).stocks, stockType.id, settings.maxLength, Catalogue(settings))
  {
    SortedDemandable(pieces, stockType);
    PackLayout(Sorted(pieces, stockType), stockType.id, settings.maxLength, Catalogue(settings));
  }

  lemma {:induction false} PlaceableCutsConcat(a: seq<Piece>, b: seq<Piece>, maxLength: int, catalogue: seq<int>)
    ensures PlaceableCuts(a + b, maxLength, catalogue)
         == PlaceableCuts(a, maxLength, catalogue) + PlaceableCuts(b, maxLength, catalogue)
  {
    if b == [] {
      assert a + b == a;
    } else {
      var n := |b| - 1;
      assert (a + b)[..|a + b| - 1] == a + b[..n];
      PlaceableCutsConcat(a, b[..n], maxLength, catalogue);
    }
  }

  /** Which demands reach a bar does not depend on the order they come in. */
  lemma {:induction false} PlaceableCutsPermutation(a: seq<Piece>, b: seq<Piece>, maxLength: int, catalogue: seq<int>)
    requires multiset(a) == multiset(b)
    ensures PlaceableCuts(a, maxLength, catalogue) == PlaceableCuts(b, maxLength, catalogue)
    decreases |b|
  {
    if b == [] {
      assert |a| == |multiset(a)| == 0;
    } else {
      var n := |b| - 1;
      var x := b[n];
      assert b == b[..n] + [x];
      assert x in multiset(a);
      var k :| 0 <= k < |a| && a[k] == x;
      var rest := a[..k] + a[k + 1..];
      assert a == a[..k] + [x] + a[k + 1..];
      assert multiset(a) == multiset(a[..k]) + multiset{x} + multiset(a[k + 1..]);
      assert multiset(b) == multiset(b[..n]) + multiset{x};
      assert multiset(rest) == multiset(a[..k]) + multiset(a[k + 1..]);
      assert multiset(rest) == multiset(a) - multiset{x};
      assert multiset(b[..n]) == multiset(b) - multiset{x};
      PlaceableCutsPermutation(rest, b[..n], maxLength, catalogue);
      PlaceableCutsConcat(a[..k] + [x], a[k + 1..], maxLength, catalogue);
      PlaceableCutsConcat(a[..k], [x], maxLength, catalogue);
      PlaceableCutsConcat(a[..k], a[k + 1..], maxLength, catalogue);
      assert [x][..0] == [];
    }
  }

  /**
   * Conservation: the pieces laid out on the bars of the plan are exactly the unit demands of
   * the plan's type that are not oversized and that some catalogue length holds, each once.
   */
  lemma PlanConserves(pieces: seq<Piece>, settings: Settings, stockType: StockType)
    requires Usable(settings) && Orders(pieces, stockType.id)
    ensures PlacedCuts(Plan(pieces, settings, stockType).stocks)
         == PlaceableCuts(Expand(pieces, stockType.id), settings.maxLength, Catalogue(settings))
  {
    var s := Sorted(pieces, stockType);
    SortedDemandable(pieces, stockType);
    PackConserves(s, stockType.id, settings.maxLength, Catalogue(settings));
    PlaceableCutsPermutation(s, Expand(pieces, stockType.id), settings.maxLength, Catalogue(settings));
  }

  /** The join groups of the plan are those of the oversized unit demands, longest first. */
  lemma PlanOversized(pieces: seq<Piece>, settings: Settings, stockType: StockType)
    requires Usable(settings)
    ensures Plan(pieces, settings, stockType).oversizedPieces
         == SplitAll(Sorted(pieces, stockType), settings.maxLength, Catalogue(settings))
  {
    PackOversized(Sorted(pieces, stockType), settings.maxLength, Catalogue(settings));
  }

  /** With no demand of the plan's type there is nothing to cut: no bars, no join groups, no totals. */
  lemma PlanNothingOfType(pieces: seq<Piece>, settings: Settings, stockType: StockType)
    requires Usable(settings)
    requires forall k :: 0 <= k < |pieces| ==> pieces[k].stockType.id != stockType.id
    ensures Plan(pieces, settings, stockType) == CuttingPlan([], [], 0, 0)
  {
    var e := Expand(pieces, stockType.id);
    ExpandMembers(pieces, stockType.id);
    assert e == [];
    assert multiset(Sorted(pieces, stockType)) == multiset{};
  }

  /** The totals: the waste is what is left on the bars, and used plus waste is the stock drawn. */
  lemma PlanTotals(pieces: seq<Piece>, settings: Settings, stockType: StockType)
    requires Usable(settings)
    ensures var plan := Plan(pieces, settings, stockType);
      && plan.totalWaste == Leftover(plan.stocks)
      && plan.totalUsed + plan.totalWaste == StockTotal(plan.stocks)
  {
    WasteIsLeftover(Plan(pieces, settings, stockType).stocks);
  }
}
