/**
 * `handleOversizedPiece` (src/lib/utils/cuttingOptimizer.ts): a demand longer than the longest
 * bar is cut as a chain of parts to be joined. Every part but the last takes a whole bar of
 * `maxLength`; the last takes what is left, on the smallest catalogue bar that holds it.
 */
module OversizeSplit {
  import opened Wrappers
  import opened Groups
  import opened CuttingTypes

  /** The length of the part cut while `remaining` is still to be allocated. */
  function PartLength(remaining: int, maxLength: int): int
  {
    if remaining <= maxLength then remaining else maxLength
  }

  /** The bar a part comes from: a whole bar for a full part, else the smallest fitting one (or `maxLength`). */
  function PartStockLength(remaining: int, maxLength: int, catalogue: seq<int>): int
  {
    if remaining <= maxLength then
      var suitable := FindAtLeast(catalogue, remaining);
      if Found(suitable) then suitable.value else maxLength
    else maxLength
  }

  /** Part number `partNumber`, before its `totalJoinParts` is known (it is then 0). */
  function Part(piece: Piece, remaining: int, partNumber: int, maxLength: int, catalogue: seq<int>): OptimizedPiece
  {
    var partLength := PartLength(remaining, maxLength);
    OptimizedPiece(
      piece.id, partLength, 0, piece.stockType, 1,
      if remaining > partLength then piece.kerf else 0,
      piece.margin,
      Some(JoinInfo(partNumber, 0, PartStockLength(remaining, maxLength, catalogue))))
  }

  /** The parts the while loop pushes, from the moment `remaining` is still unallocated. */
  function PartsFrom(piece: Piece, remaining: int, partNumber: int, maxLength: int, catalogue: seq<int>): seq<OptimizedPiece>
    requires maxLength > 0
    decreases remaining
  {
    if remaining <= 0 then []
    else
      [Part(piece, remaining, partNumber, maxLength, catalogue)]
      + PartsFrom(piece, remaining - PartLength(remaining, maxLength), partNumber + 1, maxLength, catalogue)
  }

  /** `part.totalJoinParts = partCount`. */
  function WithTotal(part: OptimizedPiece, total: int): OptimizedPiece
  {
    match part.join
    case Some(j) => part.(join := Some(j.(totalJoinParts := total)))
    case None => part
  }

  /** The `forEach` that stamps the part count on every part. */
  function Stamp(parts: seq<OptimizedPiece>, total: int): (r: seq<OptimizedPiece>)
    ensures |r| == |parts|
  {
    seq(|parts|, i requires 0 <= i < |parts| => WithTotal(parts[i], total))
  }

  /** The join group `handleOversizedPiece` appends for one oversized demand. */
  function SplitOversized(piece: Piece, maxLength: int, catalogue: seq<int>): seq<OptimizedPiece>
    requires maxLength > 0
  {
    var parts := PartsFrom(piece, piece.length, 1, maxLength, catalogue);
    Stamp(parts, |parts|)
  }

  /** The while loop and the `forEach` of `handleOversizedPiece`; the caller appends the group. */
  method HandleOversizedPiece(piece: Piece, maxLength: int, catalogue: seq<int>) returns (splitPieces: seq<OptimizedPiece>)
    requires maxLength > 0
    ensures splitPieces == SplitOversized(piece, maxLength, catalogue)
  {
    var remainingLength := piece.length;
    splitPieces := [];
    var partCount := 0;
    while remainingLength > 0
      invariant partCount == |splitPieces|
      invariant splitPieces + PartsFrom(piece, remainingLength, partCount + 1, maxLength, catalogue)
             == PartsFrom(piece, piece.length, 1, maxLength, catalogue)
      decreases remainingLength
    {
      partCount := partCount + 1;
      var partLength: int;
      var stockLength: int;
      if remainingLength <= maxLength {
        var suitableLength := FindAtLeast(catalogue, remainingLength);
        if Found(suitableLength) {
          stockLength := suitableLength.value;
          partLength := remainingLength;
        } else {
          stockLength := maxLength;
          partLength := remainingLength;
        }
      } else {
        stockLength := maxLength;
        partLength := maxLength;
      }
      var part := OptimizedPiece(
        piece.id, partLength, 0, piece.stockType, 1,
        if remainingLength > partLength then piece.kerf else 0,
        piece.margin, Some(JoinInfo(partCount, 0, stockLength)));
      assert part == Part(piece, remainingLength, partCount, maxLength, catalogue);
      splitPieces := splitPieces + [part];
      remainingLength := remainingLength - partLength;
    }
    assert splitPieces == PartsFrom(piece, piece.length, 1, maxLength, catalogue);
    ghost var parts := splitPieces;
    var i := 0;
    while i < |splitPieces|
      invariant 0 <= i <= |splitPieces| == |parts|
      invariant forall j :: 0 <= j < i ==> splitPieces[j] == WithTotal(parts[j], partCount)
      invariant forall j :: i <= j < |parts| ==> splitPieces[j] == parts[j]
    {
      splitPieces := splitPieces[i := WithTotal(splitPieces[i], partCount)];
      i := i + 1;
    }
  }

  /** Sum of the lengths of a list of parts. */
  function TotalLength(parts: seq<OptimizedPiece>): int
  {
    if parts == [] then 0 else parts[0].length + TotalLength(parts[1..])
  }

  /**
   * The parts cut from `remaining`: there are ceil(remaining / maxLength) of them, numbered on
   * from `partNumber`; every part but the last is a whole `maxLength` bar charged with the
   * piece's kerf for the join cut; the last holds the rest (1 to `maxLength`), carries no kerf
   * and sits on a bar at least as long as itself; the lengths add up to `remaining`.
   */
  lemma {:induction false} PartsFromShape(piece: Piece, remaining: int, partNumber: int, maxLength: int, catalogue: seq<int>)
    requires maxLength > 0 && remaining > 0
    ensures var ps := PartsFrom(piece, remaining, partNumber, maxLength, catalogue);
      && |ps| > 0 && (|ps| - 1) * maxLength < remaining <= |ps| * maxLength
      && TotalLength(ps) == remaining
      && (forall i :: 0 <= i < |ps| ==>
            && ps[i].originalId == piece.id && ps[i].position == 0 && ps[i].quantity == 1
            && ps[i].stockType == piece.stockType && ps[i].margin == piece.margin
            && ps[i].join.Some? && ps[i].join.value.joinPartNumber == partNumber + i
            && ps[i].join.value.totalJoinParts == 0
            && ps[i].join.value.stockLength >= ps[i].length)
      && (forall i :: 0 <= i < |ps| - 1 ==>
            ps[i].length == maxLength && ps[i].kerf == piece.kerf && ps[i].join.value.stockLength == maxLength)
      && 0 < ps[|ps| - 1].length <= maxLength && ps[|ps| - 1].kerf == 0
    decreases remaining
  {
    var ps := PartsFrom(piece, remaining, partNumber, maxLength, catalogue);
    var head := Part(piece, remaining, partNumber, maxLength, catalogue);
    if remaining <= maxLength {
      assert PartsFrom(piece, remaining - PartLength(remaining, maxLength), partNumber + 1, maxLength, catalogue) == [];
      assert ps == [head];
    } else {
      var rest := PartsFrom(piece, remaining - maxLength, partNumber + 1, maxLength, catalogue);
      PartsFromShape(piece, remaining - maxLength, partNumber + 1, maxLength, catalogue);
      assert ps == [head] + rest;
      assert ps[1..] == rest;
      assert (|ps| - 1) * maxLength == (|rest| - 1) * maxLength + maxLength;
      assert |ps| * maxLength == |rest| * maxLength + maxLength;
      forall i | 1 <= i < |ps|
        ensures ps[i] == rest[i - 1]
      {
      }
    }
  }

  /** Stamping changes nothing but `totalJoinParts`. */
  lemma {:induction false} StampLengths(parts: seq<OptimizedPiece>, total: int)
    ensures TotalLength(Stamp(parts, total)) == TotalLength(parts)
  {
    if parts != [] {
      StampLengths(parts[1..], total);
      assert Stamp(parts, total)[1..] == Stamp(parts[1..], total);
    }
  }

  /** The parts of an oversized demand together are exactly as long as the demand. */
  lemma SplitCoversPiece(piece: Piece, maxLength: int, catalogue: seq<int>)
    requires 0 < maxLength < piece.length
    ensures TotalLength(SplitOversized(piece, maxLength, catalogue)) == piece.length
  {
    var parts := PartsFrom(piece, piece.length, 1, maxLength, catalogue);
    PartsFromShape(piece, piece.length, 1, maxLength, catalogue);
    StampLengths(parts, |parts|);
  }

  /**
   * The shape of a join group: at least two parts, numbered 1..n and all stamped with n; every
   * part but the last is a full `maxLength` bar carrying the piece's kerf, the last is at most
   * `maxLength` long and carries no kerf; every part fits on the bar it is taken from.
   */
  lemma SplitShape(piece: Piece, maxLength: int, catalogue: seq<int>)
    requires 0 < maxLength < piece.length
    ensures var g := SplitOversized(piece, maxLength, catalogue);
      && |g| >= 2 && (|g| - 1) * maxLength < piece.length <= |g| * maxLength
      && (forall i :: 0 <= i < |g| ==>
            && g[i].originalId == piece.id && g[i].position == 0 && g[i].margin == piece.margin
            && g[i].join.Some? && g[i].join.value.joinPartNumber == i + 1
            && g[i].join.value.totalJoinParts == |g|
            && g[i].join.value.stockLength >= g[i].length)
      && (forall i :: 0 <= i < |g| - 1 ==> g[i].length == maxLength && g[i].kerf == piece.kerf)
      && 0 < g[|g| - 1].length <= maxLength && g[|g| - 1].kerf == 0
  {
    var parts := PartsFrom(piece, piece.length, 1, maxLength, catalogue);
    PartsFromShape(piece, piece.length, 1, maxLength, catalogue);
    assert |parts| != 1;
  }

  /** The last part lies on the smallest catalogue bar that holds it, when the catalogue has one. */
  lemma SplitLastBar(piece: Piece, maxLength: int, catalogue: seq<int>)
    requires 0 < maxLength < piece.length
    requires forall i, j :: 0 <= i < j < |catalogue| ==> catalogue[i] < catalogue[j]
    ensures var g := SplitOversized(piece, maxLength, catalogue);
      var last := g[|g| - 1];
      && last.join.Some?
      && ((exists j :: 0 <= j < |catalogue| && catalogue[j] >= last.length)
          ==> last.join.value.stockLength in catalogue
              && forall j :: 0 <= j < |catalogue| && catalogue[j] >= last.length ==> last.join.value.stockLength <= catalogue[j])
  {
    var g := SplitOversized(piece, maxLength, catalogue);
    SplitShape(piece, maxLength, catalogue);
    var parts := PartsFrom(piece, piece.length, 1, maxLength, catalogue);
    PartsFromLast(piece, piece.length, 1, maxLength, catalogue);
    var last := g[|g| - 1];
    var f := FindAtLeast(catalogue, last.length);
    if exists j :: 0 <= j < |catalogue| && catalogue[j] >= last.length {
      FindAtLeastSmallest(catalogue, last.length);
    }
  }

  /** The last part is `Part` of its own length, so its bar is the one `find` returns (or `maxLength`). */
  lemma {:induction false} PartsFromLast(piece: Piece, remaining: int, partNumber: int, maxLength: int, catalogue: seq<int>)
    requires maxLength > 0 && remaining > 0
    ensures var ps := PartsFrom(piece, remaining, partNumber, maxLength, catalogue);
      |ps| > 0 && ps[|ps| - 1].join == Some(JoinInfo(partNumber + |ps| - 1, 0,
                   PartStockLength(ps[|ps| - 1].length, maxLength, catalogue)))
    decreases remaining
  {
    var ps := PartsFrom(piece, remaining, partNumber, maxLength, catalogue);
    if remaining > maxLength {
      PartsFromLast(piece, remaining - maxLength, partNumber + 1, maxLength, catalogue);
      var rest := PartsFrom(piece, remaining - maxLength, partNumber + 1, maxLength, catalogue);
      assert ps == [Part(piece, remaining, partNumber, maxLength, catalogue)] + rest;
      assert ps[|ps| - 1] == rest[|rest| - 1];
    }
  }
}
