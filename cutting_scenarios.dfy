/**
 * Worked cases of `optimizeCutting` and `handleOversizedPiece` on the default catalogue
 * (2700 mm to 5400 mm in steps of 300 mm), each pinning down one rule of the packer.
 */
module Scenarios {
  import opened Wrappers
  import opened StockTypes
  import opened StockSettings
  import opened Groups
  import opened CuttingTypes
  import opened OversizeSplit
  import opened Packing

  const Stock: seq<int> := [2700, 3000, 3300, 3600, 3900, 4200, 4500, 4800, 5100, 5400]

  /** The 45×45 default cross-section. */
  const Batten: StockType := DefaultStockTypes[0]

  lemma DefaultCatalogue()
    ensures Catalogue(DefaultSettings) == Stock
  {
    ResetCatalogue(DefaultSettings);
  }

  /** A demand of exactly 2700 mm takes a 2700 mm bar, which its kerf then overdraws by 3 mm. */
  lemma FlushFirstPieceOverdraws()
    ensures var d := Piece("a", 2700, Batten, 1, 3, 0, 0);
      Pack([d], 5400, Stock) == PackState([OptimizedStock(2700, [Placed(d, 0)], -3, Batten)], [])
  {
    var d := Piece("a", 2700, Batten, 1, 3, 0, 0);
    assert FirstAtLeastFrom(Stock, 2700, 0) == Some(0);
    assert [d][..0] == [];
  }

  /**
   * Three demands of 1200 mm with a 3 mm kerf and a 5 mm margin: the first opens a 2700 mm bar
   * and is charged 1208 mm; the second follows it at 1208 mm and is charged its kerf and margin
   * again; the third no longer fits (1208 mm > 284 mm) and opens a second bar.
   */
  lemma ThreeShortPieces()
    ensures var d := Piece("a", 1200, Batten, 1, 3, 5, 0);
      Pack([d, d, d], 5400, Stock).stocks
        == [OptimizedStock(2700, [Placed(d, 0), Placed(d, 1208)], 284, Batten),
            OptimizedStock(2700, [Placed(d, 0)], 1492, Batten)]
  {
    var d := Piece("a", 1200, Batten, 1, 3, 5, 0);
    assert FirstAtLeastFrom(Stock, 1200, 0) == Some(0);
    var ds := [d, d, d];
    assert [d][..0] == [] && [d, d][..1] == [d] && ds[..2] == [d, d];
    assert FindAtLeast(Stock, 1200) == Some(2700);
    assert Place([], d, Stock) == [OpenBar(2700, d)];
    var one := Pack([d], 5400, Stock);
    assert one == Step(Pack([], 5400, Stock), d, 5400, Stock);
    assert one.stocks == [OptimizedStock(2700, [Placed(d, 0)], 1492, Batten)];
    assert FirstFit(one.stocks, d) == Some(0);
    assert PlaceInto(one.stocks[0], d) == OptimizedStock(2700, [Placed(d, 0), Placed(d, 1208)], 284, Batten);
    var two := Pack([d, d], 5400, Stock);
    assert two == Step(one, d, 5400, Stock);
    assert two.stocks == [OptimizedStock(2700, [Placed(d, 0), Placed(d, 1208)], 284, Batten)];
    assert FirstFit(two.stocks, d) == None;
  }

  /**
   * A 6000 mm demand on a 5400 mm maximum is cut as two parts to be joined: a whole 5400 mm
   * bar carrying the joint's kerf, and 600 mm on the shortest bar, 2700 mm.
   */
  lemma SixMetreDemand()
    ensures var d := Piece("b", 6000, Batten, 1, 3, 10, 0);
      SplitOversized(d, 5400, Stock)
        == [OptimizedPiece("b", 5400, 0, Batten, 1, 3, 10, Some(JoinInfo(1, 2, 5400))),
            OptimizedPiece("b", 600, 0, Batten, 1, 0, 10, Some(JoinInfo(2, 2, 2700)))]
  {
    var d := Piece("b", 6000, Batten, 1, 3, 10, 0);
    assert FirstAtLeastFrom(Stock, 600, 0) == Some(0);
    assert PartsFrom(d, 0, 3, 5400, Stock) == [];
    assert PartsFrom(d, 600, 2, 5400, Stock)
        == [OptimizedPiece("b", 600, 0, Batten, 1, 0, 10, Some(JoinInfo(2, 0, 2700)))];
  }

  /**
   * With a maximum of 5500 mm the catalogue still ends at 5400 mm: a 5450 mm demand is neither
   * oversized nor held by any bar, and the plan leaves it out without a trace.
   */
  lemma UnalignedMaximumDropsDemand()
    ensures var d := Piece("c", 5450, Batten, 1, 3, 10, 0);
      && Catalogue(Settings(2700, 5500, 300, 3, "mm")) == Stock
      && Pack([d], 5500, Stock) == PackState([], [])
  {
    LengthsFromShape(2700, 5500, 300);
    var d := Piece("c", 5450, Batten, 1, 3, 10, 0);
    assert FindAtLeast(Stock, 5450).None?;
    assert [d][..0] == [];
  }
}
