/**
 * The values the cutting planner (src/lib/utils/cuttingOptimizer.ts) produces. Lengths are
 * whole millimetres. The random ids of placed pieces and bars and the utilisation
 * percentages are not modelled.
 */
module CuttingTypes {
  import opened Wrappers
  import opened StockTypes

  /** What a part of a split (oversized) piece records beyond an ordinary placed piece. */
  datatype JoinInfo = JoinInfo(joinPartNumber: int, totalJoinParts: int, stockLength: int)

  /** A piece laid out on a bar, or one part of a split piece (`join` is then `Some`). */
  datatype OptimizedPiece = OptimizedPiece(
    originalId: string, length: int, position: int, stockType: StockType,
    quantity: int, kerf: int, margin: int, join: Option<JoinInfo>)

  /** One bought bar: its catalogue length, the pieces in placement order, and what is left of it. */
  datatype OptimizedStock = OptimizedStock(
    length: int, pieces: seq<OptimizedPiece>, remainingLength: int, stockType: StockType)

  datatype CuttingPlan = CuttingPlan(
    stocks: seq<OptimizedStock>, oversizedPieces: seq<seq<OptimizedPiece>>,
    totalWaste: int, totalUsed: int)

  /** Length a bar has given away so far. */
  function Used(bar: OptimizedStock): int { bar.length - bar.remainingLength }

  /** The index of the first catalogue length at or after `k` that is at least `x`. */
  function FirstAtLeastFrom(catalogue: seq<int>, x: int, k: nat): (r: Option<nat>)
    requires k <= |catalogue|
    ensures r.Some? ==> k <= r.value < |catalogue| && catalogue[r.value] >= x
                        && forall j :: k <= j < r.value ==> catalogue[j] < x
    ensures r.None? ==> forall j :: k <= j < |catalogue| ==> catalogue[j] < x
    decreases |catalogue| - k
  {
    if k == |catalogue| then None
    else if catalogue[k] >= x then Some(k)
    else FirstAtLeastFrom(catalogue, x, k + 1)
  }

  /** `stockLengths.find(len => len >= x)`. */
  function FindAtLeast(catalogue: seq<int>, x: int): (r: Option<int>)
    ensures r.None? <==> forall j :: 0 <= j < |catalogue| ==> catalogue[j] < x
    ensures r.Some? ==> r.value >= x && r.value in catalogue
    ensures r.Some? ==> exists k :: 0 <= k < |catalogue| && catalogue[k] == r.value
                                    && forall j :: 0 <= j < k ==> catalogue[j] < x
  {
    match FirstAtLeastFrom(catalogue, x, 0)
    case None => None
    case Some(i) => Some(catalogue[i])
  }

  /** `if (suitableLength)`: JavaScript treats a found length of 0 like no length at all. */
  predicate Found(r: Option<int>) { r.Some? && r.value != 0 }

  /** In an ascending catalogue, `find` returns the smallest length that is at least `x`. */
  lemma FindAtLeastSmallest(catalogue: seq<int>, x: int)
    requires forall i, j :: 0 <= i < j < |catalogue| ==> catalogue[i] < catalogue[j]
    requires FindAtLeast(catalogue, x).Some?
    ensures forall j :: 0 <= j < |catalogue| && catalogue[j] >= x ==> FindAtLeast(catalogue, x).value <= catalogue[j]
  {
    var i := FirstAtLeastFrom(catalogue, x, 0).value;
    forall j | 0 <= j < |catalogue| && catalogue[j] >= x
      ensures catalogue[i] <= catalogue[j]
    {
      assert !(j < i);
    }
  }
}
