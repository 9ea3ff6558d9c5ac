/**
 * The main loop of `optimizeCutting` (src/lib/utils/cuttingOptimizer.ts): demands are taken in
 * order; an oversized one becomes a join group, any other goes into the first open bar with
 * room for it, or onto a new bar of the smallest catalogue length that holds it.
 */
module Packing {
  import opened Wrappers
  import opened StockTypes
  import opened Groups
  import opened CuttingTypes
  import opened OversizeSplit

  /** The demand's length plus the kerf of the cut that separates it from the previous piece. */
  function EffectiveLength(bar: OptimizedStock, d: Piece): int
  {
    d.length + (if |bar.pieces| > 0 then d.kerf else 0)
  }

  /** The margin is waived for the first piece and for a piece that fills the bar exactly. */
  function MarginToAdd(bar: OptimizedStock, d: Piece): int
  {
    if |bar.pieces| > 0 && bar.remainingLength != EffectiveLength(bar, d) then d.margin else 0
  }

  /** The test of the inner loop: same stock type and room for the piece with its kerf and margin. */
  predicate Accepts(bar: OptimizedStock, d: Piece)
  {
    bar.stockType.id == d.stockType.id
    && bar.remainingLength >= EffectiveLength(bar, d) + MarginToAdd(bar, d)
  }

  /**
   * The room test in plain terms: an empty bar of the right type needs room for the piece
   * alone; a bar that already holds pieces needs room for the piece, its kerf and its margin,
   * unless the piece and its kerf use up the bar exactly.
   */
  lemma AcceptsExactly(bar: OptimizedStock, d: Piece)
    requires d.margin >= 0
    ensures |bar.pieces| == 0 ==>
      (Accepts(bar, d) <==> bar.stockType.id == d.stockType.id && bar.remainingLength >= d.length)
    ensures |bar.pieces| > 0 ==>
      (Accepts(bar, d) <==> bar.stockType.id == d.stockType.id
                            && (|| bar.remainingLength == d.length + d.kerf
                                || bar.remainingLength >= d.length + d.kerf + d.margin))
  {
  }

  /** The `OptimizedPiece` recorded for a demand placed at `position`. */
  function Placed(d: Piece, position: int): OptimizedPiece
  {
    OptimizedPiece(d.id, d.length, position, d.stockType, 1, d.kerf, d.margin, None)
  }

  /** `stock.pieces.push(...)` and `stock.remainingLength -= ...` on a bar that accepts the demand. */
  function PlaceInto(bar: OptimizedStock, d: Piece): (r: OptimizedStock)
    requires Accepts(bar, d)
    ensures r.length == bar.length && r.stockType == bar.stockType
    ensures r.pieces == bar.pieces + [Placed(d, Used(bar))]
    ensures Used(r) == Used(bar) + EffectiveLength(bar, d) + MarginToAdd(bar, d)
    ensures r.remainingLength >= 0
  {
    bar.(pieces := bar.pieces + [Placed(d, bar.length - bar.remainingLength)],
         remainingLength := bar.remainingLength - (EffectiveLength(bar, d) + MarginToAdd(bar, d)))
  }

  /** A new bar of length `len` holding the demand at position 0, charged its length, kerf and margin. */
  function OpenBar(len: int, d: Piece): OptimizedStock
  {
    OptimizedStock(len, [Placed(d, 0)], len - (d.length + d.kerf + d.margin), d.stockType)
  }

  function FirstFitFrom(stocks: seq<OptimizedStock>, d: Piece, k: nat): (r: Option<nat>)
    requires k <= |stocks|
    ensures r.Some? ==> k <= r.value < |stocks| && Accepts(stocks[r.value], d)
                        && forall j :: k <= j < r.value ==> !Accepts(stocks[j], d)
    ensures r.None? ==> forall j :: k <= j < |stocks| ==> !Accepts(stocks[j], d)
    decreases |stocks| - k
  {
    if k == |stocks| then None
    else if Accepts(stocks[k], d) then Some(k)
    else FirstFitFrom(stocks, d, k + 1)
  }

  /** The index of the earliest open bar that accepts the demand, if any. */
  function FirstFit(stocks: seq<OptimizedStock>, d: Piece): (r: Option<nat>)
    ensures r.Some? ==> r.value < |stocks| && Accepts(stocks[r.value], d)
                        && forall j :: 0 <= j < r.value ==> !Accepts(stocks[j], d)
    ensures r.None? ==> forall j :: 0 <= j < |stocks| ==> !Accepts(stocks[j], d)
  {
    FirstFitFrom(stocks, d, 0)
  }

  /** The inner `for (const stock of stocks)` loop with its `continue` and `break`. */
  method FirstFitIndex(stocks: seq<OptimizedStock>, piece: Piece) returns (found: Option<nat>)
    ensures found == FirstFit(stocks, piece)
  {
    found := None;
    var i := 0;
    while i < |stocks|
      invariant 0 <= i <= |stocks|
      invariant forall j :: 0 <= j < i ==> !Accepts(stocks[j], piece)
    {
      var stock := stocks[i];
      if stock.stockType.id != piece.stockType.id {
        i := i + 1;
        continue;
      }
      var effectiveLength := piece.length + (if |stock.pieces| > 0 then piece.kerf else 0);
      var wouldBePerfectFit := stock.remainingLength == effectiveLength;
      var marginToAdd := if |stock.pieces| > 0 && !wouldBePerfectFit then piece.margin else 0;
      if stock.remainingLength >= effectiveLength + marginToAdd {
        found := Some(i);
        break;
      }
      i := i + 1;
    }
  }

  /** One non-oversized demand: into the first bar that accepts it, else onto a new bar, else dropped. */
  function Place(stocks: seq<OptimizedStock>, d: Piece, catalogue: seq<int>): seq<OptimizedStock>
  {
    match FirstFit(stocks, d)
    case Some(i) => stocks[i := PlaceInto(stocks[i], d)]
    case None =>
      var suitable := FindAtLeast(catalogue, d.length);
      if Found(suitable) then stocks + [OpenBar(suitable.value, d)] else stocks
  }

  /** The two lists the loop of `optimizeCutting` pushes into. */
  datatype PackState = PackState(stocks: seq<OptimizedStock>, oversized: seq<seq<OptimizedPiece>>)

  /** One turn of the loop over the sorted demands. */
  function Step(st: PackState, d: Piece, maxLength: int, catalogue: seq<int>): PackState
    requires maxLength > 0
  {
    if d.length > maxLength then st.(oversized := st.oversized + [SplitOversized(d, maxLength, catalogue)])
    else st.(stocks := Place(st.stocks, d, catalogue))
  }

  /** The loop over all demands, from two empty lists. */
  function Pack(demands: seq<Piece>, maxLength: int, catalogue: seq<int>): PackState
    requires maxLength > 0
  {
    if demands == [] then PackState([], [])
    else Step(Pack(demands[..|demands| - 1], maxLength, catalogue), demands[|demands| - 1], maxLength, catalogue)
  }

  lemma PackPrefix(demands: seq<Piece>, k: nat, maxLength: int, catalogue: seq<int>)
    requires maxLength > 0 && k < |demands|
    ensures Pack(demands[..k + 1], maxLength, catalogue)
         == Step(Pack(demands[..k], maxLength, catalogue), demands[k], maxLength, catalogue)
  {
    assert demands[..k + 1][..k] == demands[..k];
  }

  /** The caller's side of the contract on a demand: a positive length, no negative kerf or margin. */
  predicate WellFormed(d: Piece)
  {
    d.length > 0 && d.kerf >= 0 && d.margin >= 0
  }

  /** Demands of one stock type that all keep the caller's contract. */
  ghost predicate Demandable(demands: seq<Piece>, typeId: string)
  {
    forall i :: 0 <= i < |demands| ==> WellFormed(demands[i]) && demands[i].stockType.id == typeId
  }

  /** The length a placed piece takes from its bar when its margin is charged. */
  function Charge(p: OptimizedPiece): int
  {
    p.length + p.kerf + p.margin
  }

  /**
   * The layout of one bar: it holds at least one piece, of its own stock type, none longer
   * than `maxLength`; its length comes from the catalogue; the pieces lie one after another
   * from position 0, each followed by its kerf and margin; only the last piece may do without
   * its margin, and then it fills the bar exactly; only a bar with a single piece can have a
   * negative remaining length (the first piece on a new bar is charged unconditionally).
   */
  ghost predicate WellPacked(bar: OptimizedStock, typeId: string, maxLength: int, catalogue: seq<int>)
  {
    var ps := bar.pieces;
    var n := |ps|;
    && n >= 1
    && bar.length in catalogue && bar.length >= ps[0].length
    && bar.stockType.id == typeId
    && ps[0].position == 0
    && (forall j :: 0 <= j < n ==>
          && ps[j].join.None? && ps[j].quantity == 1 && ps[j].stockType.id == typeId
          && 0 < ps[j].length <= maxLength && ps[j].kerf >= 0 && ps[j].margin >= 0)
    && (forall j :: 0 <= j < n - 1 ==> ps[j + 1].position == ps[j].position + Charge(ps[j]))
    && (|| Used(bar) == ps[n - 1].position + Charge(ps[n - 1])
        || (n >= 2 && bar.remainingLength == 0 && Used(bar) == ps[n - 1].position + ps[n - 1].length + ps[n - 1].kerf))
    && (n >= 2 ==> bar.remainingLength >= 0)
    && bar.remainingLength <= bar.length
  }

  ghost predicate AllWellPacked(stocks: seq<OptimizedStock>, typeId: string, maxLength: int, catalogue: seq<int>)
  {
    forall i :: 0 <= i < |stocks| ==> WellPacked(stocks[i], typeId, maxLength, catalogue)
  }

  /** Placing a demand into an accepting bar keeps its layout. */
  lemma PlaceIntoKeepsLayout(bar: OptimizedStock, d: Piece, typeId: string, maxLength: int, catalogue: seq<int>)
    requires WellPacked(bar, typeId, maxLength, catalogue)
    requires WellFormed(d) && d.stockType.id == typeId && d.length <= maxLength
    requires Accepts(bar, d)
    ensures WellPacked(PlaceInto(bar, d), typeId, maxLength, catalogue)
  {
    var ps := bar.pieces;
    var n := |ps|;
    var r := PlaceInto(bar, d);
    assert EffectiveLength(bar, d) == d.length + d.kerf;
    assert Used(bar) == ps[n - 1].position + Charge(ps[n - 1]);
    assert r.pieces[n] == Placed(d, Used(bar));
    forall j | 0 <= j < n
      ensures r.pieces[j] == ps[j]
    {
    }
  }

  /** A new bar of a catalogue length that holds the demand is laid out correctly. */
  lemma OpenBarLayout(len: int, d: Piece, typeId: string, maxLength: int, catalogue: seq<int>)
    requires len in catalogue && len >= d.length
    requires WellFormed(d) && d.stockType.id == typeId && d.length <= maxLength
    ensures WellPacked(OpenBar(len, d), typeId, maxLength, catalogue)
  {
  }

  /** A bar never accepts a demand longer than any catalogue length. */
  lemma NoRoomBeyondCatalogue(bar: OptimizedStock, d: Piece, typeId: string, maxLength: int, catalogue: seq<int>)
    requires WellPacked(bar, typeId, maxLength, catalogue)
    requires WellFormed(d)
    requires forall j :: 0 <= j < |catalogue| ==> catalogue[j] < d.length
    ensures !Accepts(bar, d)
  {
    assert bar.length in catalogue;
  }

  /** One placement keeps the layout of every bar. */
  lemma PlaceKeepsLayout(stocks: seq<OptimizedStock>, d: Piece, typeId: string, maxLength: int, catalogue: seq<int>)
    requires AllWellPacked(stocks, typeId, maxLength, catalogue)
    requires WellFormed(d) && d.stockType.id == typeId && d.length <= maxLength
    ensures AllWellPacked(Place(stocks, d, catalogue), typeId, maxLength, catalogue)
  {
    match FirstFit(stocks, d)
    case Some(i) =>
      PlaceIntoKeepsLayout(stocks[i], d, typeId, maxLength, catalogue);
    case None =>
      var suitable := FindAtLeast(catalogue, d.length);
      if Found(suitable) {
        OpenBarLayout(suitable.value, d, typeId, maxLength, catalogue);
      }
  }

  /** Every bar the loop opens, after any number of demands, is laid out correctly. */
  lemma {:induction false} PackLayout(demands: seq<Piece>, typeId: string, maxLength: int, catalogue: seq<int>)
    requires maxLength > 0 && Demandable(demands, typeId)
    ensures AllWellPacked(Pack(demands, maxLength, catalogue).stocks, typeId, maxLength, catalogue)
  {
    if demands != [] {
      var n := |demands| - 1;
      PackLayout(demands[..n], typeId, maxLength, catalogue);
      var d := demands[n];
      if d.length <= maxLength {
        PlaceKeepsLayout(Pack(demands[..n], maxLength, catalogue).stocks, d, typeId, maxLength, catalogue);
      }
    }
  }

  /** The join groups of the oversized demands among `demands`, in order. */
  function SplitAll(demands: seq<Piece>, maxLength: int, catalogue: seq<int>): seq<seq<OptimizedPiece>>
    requires maxLength > 0
  {
    if demands == [] then []
    else
      var d := demands[|demands| - 1];
      SplitAll(demands[..|demands| - 1], maxLength, catalogue)
      + (if d.length > maxLength then [SplitOversized(d, maxLength, catalogue)] else [])
  }

  /** Exactly one join group per oversized demand, in demand order, and nothing else. */
  lemma {:induction false} PackOversized(demands: seq<Piece>, maxLength: int, catalogue: seq<int>)
    requires maxLength > 0
    ensures Pack(demands, maxLength, catalogue).oversized == SplitAll(demands, maxLength, catalogue)
  {
    if demands != [] {
      PackOversized(demands[..|demands| - 1], maxLength, catalogue);
    }
  }

  /** What identifies a cut piece: the demand it comes from and how it is cut. */
  datatype Cut = Cut(originalId: string, length: int, stockType: StockType, kerf: int, margin: int)

  function CutOf(p: OptimizedPiece): Cut
  {
    Cut(p.originalId, p.length, p.stockType, p.kerf, p.margin)
  }

  function DemandCut(d: Piece): Cut
  {
    Cut(d.id, d.length, d.stockType, d.kerf, d.margin)
  }

  function BarCuts(ps: seq<OptimizedPiece>): multiset<Cut>
  {
    if ps == [] then multiset{} else BarCuts(ps[..|ps| - 1]) + multiset{CutOf(ps[|ps| - 1])}
  }

  /** All pieces laid out on all bars. */
  function PlacedCuts(stocks: seq<OptimizedStock>): multiset<Cut>
  {
    if stocks == [] then multiset{}
    else PlacedCuts(stocks[..|stocks| - 1]) + BarCuts(stocks[|stocks| - 1].pieces)
  }

  /** A demand that can go on a bar: not oversized, and some catalogue length holds it. */
  predicate Placeable(d: Piece, maxLength: int, catalogue: seq<int>)
  {
    d.length <= maxLength && Found(FindAtLeast(catalogue, d.length))
  }

  function PlaceableCuts(demands: seq<Piece>, maxLength: int, catalogue: seq<int>): multiset<Cut>
  {
    if demands == [] then multiset{}
    else
      var d := demands[|demands| - 1];
      PlaceableCuts(demands[..|demands| - 1], maxLength, catalogue)
      + (if Placeable(d, maxLength, catalogue) then multiset{DemandCut(d)} else multiset{})
  }

  lemma {:induction false} PlacedCutsUpdate(stocks: seq<OptimizedStock>, i: nat, bar: OptimizedStock)
    requires i < |stocks|
    ensures PlacedCuts(stocks[i := bar]) + BarCuts(stocks[i].pieces) == PlacedCuts(stocks) + BarCuts(bar.pieces)
  {
    var n := |stocks| - 1;
    var t := stocks[i := bar];
    var before := PlacedCuts(stocks[..n]);
    assert PlacedCuts(stocks) == before + BarCuts(stocks[n].pieces);
    if i == n {
      assert t[..n] == stocks[..n];
      assert PlacedCuts(t) == before + BarCuts(bar.pieces);
    } else {
      assert t[..n] == stocks[..n][i := bar];
      assert t[n] == stocks[n];
      PlacedCutsUpdate(stocks[..n], i, bar);
      assert PlacedCuts(t) == PlacedCuts(stocks[..n][i := bar]) + BarCuts(stocks[n].pieces);
    }
  }

  lemma PlacedCutsAppend(stocks: seq<OptimizedStock>, bar: OptimizedStock)
    ensures PlacedCuts(stocks + [bar]) == PlacedCuts(stocks) + BarCuts(bar.pieces)
  {
    assert (stocks + [bar])[..|stocks|] == stocks;
  }

  lemma BarCutsAppend(ps: seq<OptimizedPiece>, p: OptimizedPiece)
    ensures BarCuts(ps + [p]) == BarCuts(ps) + multiset{CutOf(p)}
  {
    assert (ps + [p])[..|ps|] == ps;
  }

  /** One placement adds the demand to the laid-out pieces exactly when it is placeable, and nothing else. */
  lemma PlaceConserves(stocks: seq<OptimizedStock>, d: Piece, typeId: string, maxLength: int, catalogue: seq<int>)
    requires AllWellPacked(stocks, typeId, maxLength, catalogue)
    requires WellFormed(d) && d.length <= maxLength
    ensures PlacedCuts(Place(stocks, d, catalogue))
         == PlacedCuts(stocks) + (if Placeable(d, maxLength, catalogue) then multiset{DemandCut(d)} else multiset{})
  {
    var suitable := FindAtLeast(catalogue, d.length);
    match FirstFit(stocks, d)
    case Some(i) =>
      AcceptedIsPlaceable(stocks[i], d, typeId, maxLength, catalogue);
      PlaceIntoConserves(stocks, i, d);
    case None =>
      if Found(suitable) {
        OpenBarConserves(stocks, suitable.value, d);
      }
  }

  lemma OpenBarConserves(stocks: seq<OptimizedStock>, len: int, d: Piece)
    ensures PlacedCuts(stocks + [OpenBar(len, d)]) == PlacedCuts(stocks) + multiset{DemandCut(d)}
  {
    var bar := OpenBar(len, d);
    PlacedCutsAppend(stocks, bar);
    assert bar.pieces == [] + [Placed(d, 0)];
    BarCutsAppend([], Placed(d, 0));
  }

  /** A demand some open bar accepts is one a catalogue length holds. */
  lemma AcceptedIsPlaceable(bar: OptimizedStock, d: Piece, typeId: string, maxLength: int, catalogue: seq<int>)
    requires WellPacked(bar, typeId, maxLength, catalogue)
    requires WellFormed(d) && d.length <= maxLength && Accepts(bar, d)
    ensures Placeable(d, maxLength, catalogue)
  {
    assert bar.length >= d.length;
    assert bar.length in catalogue;
    var suitable := FindAtLeast(catalogue, d.length);
    assert suitable.Some?;
  }

  lemma PlaceIntoConserves(stocks: seq<OptimizedStock>, i: nat, d: Piece)
    requires i < |stocks| && Accepts(stocks[i], d)
    ensures PlacedCuts(stocks[i := PlaceInto(stocks[i], d)]) == PlacedCuts(stocks) + multiset{DemandCut(d)}
  {
    var bar := stocks[i];
    var placed := PlaceInto(bar, d);
    PlacedCutsUpdate(stocks, i, placed);
    BarCutsAppend(bar.pieces, Placed(d, Used(bar)));
    var before, barCuts := PlacedCuts(stocks), BarCuts(bar.pieces);
    var after := PlacedCuts(stocks[i := placed]);
    assert BarCuts(placed.pieces) == barCuts + multiset{DemandCut(d)};
    assert after + barCuts == (before + multiset{DemandCut(d)}) + barCuts;
    assert after == (after + barCuts) - barCuts;
  }

  /**
   * Conservation: the pieces laid out on the bars are exactly the placeable demands, each once.
   * Oversized demands and demands no catalogue length can hold never reach a bar.
   */
  lemma {:induction false} PackConserves(demands: seq<Piece>, typeId: string, maxLength: int, catalogue: seq<int>)
    requires maxLength > 0 && Demandable(demands, typeId)
    ensures PlacedCuts(Pack(demands, maxLength, catalogue).stocks) == PlaceableCuts(demands, maxLength, catalogue)
  {
    if demands != [] {
      var n := |demands| - 1;
      var d := demands[n];
      PackConserves(demands[..n], typeId, maxLength, catalogue);
      if d.length <= maxLength {
        PackLayout(demands[..n], typeId, maxLength, catalogue);
        PlaceConserves(Pack(demands[..n], maxLength, catalogue).stocks, d, typeId, maxLength, catalogue);
      }
    }
  }

  /**
   * A new bar is opened only when no open bar accepts the demand; it gets the smallest
   * catalogue length that holds the demand, which sits at position 0.
   */
  lemma NewBarOnlyWhenNoneFits(stocks: seq<OptimizedStock>, d: Piece, catalogue: seq<int>)
    requires forall i, j :: 0 <= i < j < |catalogue| ==> catalogue[i] < catalogue[j]
    requires |Place(stocks, d, catalogue)| != |stocks|
    ensures forall i :: 0 <= i < |stocks| ==> !Accepts(stocks[i], d)
    ensures var bars := Place(stocks, d, catalogue);
      && bars == stocks + [bars[|stocks|]]
      && bars[|stocks|].pieces == [Placed(d, 0)]
      && bars[|stocks|].length >= d.length && bars[|stocks|].length in catalogue
      && bars[|stocks|].remainingLength == bars[|stocks|].length - (d.length + d.kerf + d.margin)
      && forall j :: 0 <= j < |catalogue| && catalogue[j] >= d.length ==> bars[|stocks|].length <= catalogue[j]
  {
    FindAtLeastSmallest(catalogue, d.length);
  }

  /** Sum of the charges of the pieces on a bar. */
  function Charges(ps: seq<OptimizedPiece>): int
  {
    if ps == [] then 0 else Charges(ps[..|ps| - 1]) + Charge(ps[|ps| - 1])
  }

  lemma {:induction false} PositionsArePrefixSums(bar: OptimizedStock, typeId: string, maxLength: int, catalogue: seq<int>, j: nat)
    requires WellPacked(bar, typeId, maxLength, catalogue) && j < |bar.pieces|
    ensures bar.pieces[j].position == Charges(bar.pieces[..j])
  {
    if j > 0 {
      PositionsArePrefixSums(bar, typeId, maxLength, catalogue, j - 1);
      assert bar.pieces[..j][..j - 1] == bar.pieces[..j - 1];
    }
  }

  /**
   * Conservation of length on one bar: what the bar has given away is the sum of its pieces'
   * lengths, kerfs and margins, less the margin of a last piece that fills the bar exactly.
   */
  lemma BarUsage(bar: OptimizedStock, typeId: string, maxLength: int, catalogue: seq<int>)
    requires WellPacked(bar, typeId, maxLength, catalogue)
    ensures var ps := bar.pieces;
      || Used(bar) == Charges(ps)
      || (|ps| >= 2 && bar.remainingLength == 0 && Used(bar) == Charges(ps) - ps[|ps| - 1].margin)
  {
    var n := |bar.pieces|;
    PositionsArePrefixSums(bar, typeId, maxLength, catalogue, n - 1);
    assert bar.pieces[..n] == bar.pieces;
  }
}
