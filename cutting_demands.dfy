/**
 * The first two steps of `optimizeCutting` (src/lib/utils/cuttingOptimizer.ts): keep the
 * pieces of the requested stock type and expand each into `quantity` unit demands, then
 * order the demands longest first with JavaScript's stable `sort`.
 */
module Demands {
  import opened Groups
  import Seqs

  /** The filter test `p => p.stockType.id === stockType.id`. */
  function OfType(typeId: string): Piece -> bool { (p: Piece) => p.stockType.id == typeId }

  /** How many times `for (let i = 0; i < piece.quantity; i++)` runs. */
  function Count(p: Piece): nat { if p.quantity > 0 then p.quantity else 0 }

  /** The unit demands one piece expands into: copies with quantity 1. */
  function Copies(p: Piece): (r: seq<Piece>)
    ensures |r| == Count(p)
    ensures forall i :: 0 <= i < |r| ==> r[i] == p.(quantity := 1)
  {
    seq(Count(p), _ => p.(quantity := 1))
  }

  /** The unit demands of a list of pieces, piece by piece. */
  function ExpandAll(pieces: seq<Piece>): seq<Piece>
  {
    if pieces == [] then [] else ExpandAll(pieces[..|pieces| - 1]) + Copies(pieces[|pieces| - 1])
  }

  /** The unit demands of the pieces of one stock type. */
  function Expand(pieces: seq<Piece>, typeId: string): seq<Piece>
  {
    ExpandAll(Seqs.Filter(OfType(typeId), pieces))
  }

  /** Total quantity requested for one stock type (non-positive quantities request nothing). */
  function Quantity(pieces: seq<Piece>, typeId: string): nat
  {
    if pieces == [] then 0
    else Quantity(pieces[..|pieces| - 1], typeId)
         + (if pieces[|pieces| - 1].stockType.id == typeId then Count(pieces[|pieces| - 1]) else 0)
  }

  /** The filter-then-expand loops of `optimizeCutting`. */
  method ExpandDemands(pieces: seq<Piece>, typeId: string) returns (expanded: seq<Piece>)
    ensures expanded == Expand(pieces, typeId)
  {
    var filtered := Seqs.Filter(OfType(typeId), pieces);
    expanded := [];
    var k := 0;
    while k < |filtered|
      invariant 0 <= k <= |filtered|
      invariant expanded == ExpandAll(filtered[..k])
    {
      var piece := filtered[k];
      var i := 0;
      ghost var before := expanded;
      while i < piece.quantity
        invariant 0 <= i <= Count(piece)
        invariant expanded == before + Copies(piece)[..i]
      {
        CopiesPrefix(piece, i);
        expanded := expanded + [piece.(quantity := 1)];
        i := i + 1;
      }
      assert Copies(piece)[..i] == Copies(piece);
      ExpandPrefix(filtered, k);
      k := k + 1;
    }
    assert filtered[..k] == filtered;
  }

  lemma CopiesPrefix(p: Piece, i: nat)
    requires i < Count(p)
    ensures Copies(p)[..i + 1] == Copies(p)[..i] + [p.(quantity := 1)]
  {
    assert Copies(p)[..i + 1][i] == p.(quantity := 1);
  }

  lemma ExpandPrefix(pieces: seq<Piece>, k: nat)
    requires k < |pieces|
    ensures ExpandAll(pieces[..k + 1]) == ExpandAll(pieces[..k]) + Copies(pieces[k])
  {
    assert pieces[..k + 1][..k] == pieces[..k];
  }

  lemma {:induction false} ExpandAllConcat(a: seq<Piece>, b: seq<Piece>)
    ensures ExpandAll(a + b) == ExpandAll(a) + ExpandAll(b)
    decreases |b|
  {
    if b == [] {
      assert a + b == a;
    } else {
      var n := |b| - 1;
      assert (a + b)[..|a + b| - 1] == a + b[..n];
      assert (a + b)[|a + b| - 1] == b[n];
      ExpandAllConcat(a, b[..n]);
    }
  }

  /**
   * Expansion piece by piece: a piece of the requested type adds its `quantity` unit copies at
   * the end, a piece of another type adds nothing.
   */
  lemma ExpandSnoc(pieces: seq<Piece>, p: Piece, typeId: string)
    ensures Expand(pieces + [p], typeId)
         == Expand(pieces, typeId) + (if p.stockType.id == typeId then Copies(p) else [])
  {
    var f := OfType(typeId);
    Seqs.FilterConcat(f, pieces, [p]);
    ExpandAllConcat(Seqs.Filter(f, pieces), Seqs.Filter(f, [p]));
    if p.stockType.id == typeId {
      assert ExpandAll([p]) == ExpandAll([]) + Copies(p);
    }
  }

  /** There are as many unit demands as the quantities of the requested type add up to. */
  lemma {:induction false} ExpandCount(pieces: seq<Piece>, typeId: string)
    ensures |Expand(pieces, typeId)| == Quantity(pieces, typeId)
  {
    if pieces != [] {
      var n := |pieces| - 1;
      assert pieces == pieces[..n] + [pieces[n]];
      ExpandSnoc(pieces[..n], pieces[n], typeId);
      ExpandCount(pieces[..n], typeId);
    }
  }

  /**
   * Every unit demand is a piece of the requested type, with quantity 1, copied from a piece
   * of the input whose quantity is positive; and every such piece is represented.
   */
  lemma {:induction false} ExpandMembers(pieces: seq<Piece>, typeId: string)
    ensures forall d :: d in Expand(pieces, typeId) ==>
              d.quantity == 1 && d.stockType.id == typeId
              && exists k :: 0 <= k < |pieces| && pieces[k].quantity > 0 && d == pieces[k].(quantity := 1)
    ensures forall k :: 0 <= k < |pieces| && pieces[k].stockType.id == typeId && pieces[k].quantity > 0
              ==> pieces[k].(quantity := 1) in Expand(pieces, typeId)
  {
    if pieces != [] {
      var n := |pieces| - 1;
      var front := pieces[..n];
      assert pieces == front + [pieces[n]];
      ExpandSnoc(front, pieces[n], typeId);
      ExpandMembers(front, typeId);
      var e := Expand(pieces, typeId);
      forall d | d in e
        ensures d.quantity == 1 && d.stockType.id == typeId
                && exists k :: 0 <= k < |pieces| && pieces[k].quantity > 0 && d == pieces[k].(quantity := 1)
      {
        if d in Expand(front, typeId) {
          var k :| 0 <= k < |front| && front[k].quantity > 0 && d == front[k].(quantity := 1);
          assert pieces[k] == front[k];
        } else {
          assert d == pieces[n].(quantity := 1);
        }
      }
      forall k | 0 <= k < |pieces| && pieces[k].stockType.id == typeId && pieces[k].quantity > 0
        ensures pieces[k].(quantity := 1) in e
      {
        if k < n {
          assert pieces[k] == front[k];
        } else {
          assert Copies(pieces[n])[0] == pieces[n].(quantity := 1);
        }
      }
    }
  }

  /** Demands in non-increasing order of length. */
  ghost predicate LongestFirst(s: seq<Piece>)
  {
    forall i, j :: 0 <= i < j < |s| ==> s[i].length >= s[j].length
  }

  /** Puts `x` in front of the first demand that is not longer than it. */
  function InsertByLength(x: Piece, s: seq<Piece>): (r: seq<Piece>)
    ensures multiset(r) == multiset(s) + multiset{x}
    ensures |r| == |s| + 1 && (r[0] == x || (|s| > 0 && r[0] == s[0]))
  {
    if s == [] || s[0].length <= x.length then [x] + s
    else
      assert s == [s[0]] + s[1..];
      [s[0]] + InsertByLength(x, s[1..])
  }

  lemma {:induction false} InsertSorted(x: Piece, s: seq<Piece>)
    requires LongestFirst(s)
    ensures LongestFirst(InsertByLength(x, s))
  {
    if !(s == [] || s[0].length <= x.length) {
      var rest := InsertByLength(x, s[1..]);
      InsertSorted(x, s[1..]);
      assert s[0].length >= rest[0].length by {
        if rest[0] != x {
          assert rest[0] == s[1];
        }
      }
      var r := [s[0]] + rest;
      forall i, j | 0 <= i < j < |r|
        ensures r[i].length >= r[j].length
      {
        assert r[j] == rest[j - 1];
        if i == 0 {
          assert rest[0].length >= rest[j - 1].length;
        } else {
          assert r[i] == rest[i - 1];
        }
      }
    }
  }

  /**
   * `[...expanded].sort((a, b) => b.length - a.length)`: longest first; JavaScript's sort is
   * stable, so demands of equal length keep their order.
   */
  function SortByLength(s: seq<Piece>): (r: seq<Piece>)
    ensures multiset(r) == multiset(s)
    ensures LongestFirst(r)
  {
    if s == [] then []
    else
      assert s == [s[0]] + s[1..];
      var rest := SortByLength(s[1..]);
      InsertSorted(s[0], rest);
      InsertByLength(s[0], rest)
  }

  /** The filter test `d => d.length === len`. */
  function HasLength(len: int): Piece -> bool { (d: Piece) => d.length == len }

  lemma {:induction false} InsertKeepsTies(x: Piece, s: seq<Piece>, len: int)
    ensures Seqs.Filter(HasLength(len), InsertByLength(x, s)) == Seqs.Filter(HasLength(len), [x] + s)
  {
    var f := HasLength(len);
    if !(s == [] || s[0].length <= x.length) {
      var a, t := s[0], s[1..];
      var ca := if f(a) then [a] else [];
      var cx := if f(x) then [x] else [];
      assert s == [a] + t;
      InsertKeepsTies(x, t, len);
      assert InsertByLength(x, s) == [a] + InsertByLength(x, t);
      Seqs.FilterCons(f, a, InsertByLength(x, t));
      assert Seqs.Filter(f, InsertByLength(x, s)) == ca + Seqs.Filter(f, [x] + t);
      Seqs.FilterCons(f, x, t);
      Seqs.FilterCons(f, x, s);
      Seqs.FilterCons(f, a, t);
      assert ca == [] || cx == [];
      assert ca + (cx + Seqs.Filter(f, t)) == cx + (ca + Seqs.Filter(f, t));
    }
  }

  /** Stability: the demands of any one length appear in the sorted list in their original order. */
  lemma {:induction false} SortKeepsTies(s: seq<Piece>, len: int)
    ensures Seqs.Filter(HasLength(len), SortByLength(s)) == Seqs.Filter(HasLength(len), s)
  {
    if s != [] {
      var f := HasLength(len);
      SortKeepsTies(s[1..], len);
      InsertKeepsTies(s[0], SortByLength(s[1..]), len);
      Seqs.FilterCons(f, s[0], SortByLength(s[1..]));
      Seqs.FilterCons(f, s[0], s[1..]);
      assert s == [s[0]] + s[1..];
    }
  }
}
