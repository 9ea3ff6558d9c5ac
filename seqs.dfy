/** Order-preserving filtering of sequences, the model of JavaScript's `Array.prototype.filter`. */
module Seqs {

  /** The elements of `s` that satisfy `f`, in their original order. */
  function Filter<T>(f: T -> bool, s: seq<T>): (r: seq<T>)
    ensures |r| <= |s|
    ensures forall i :: 0 <= i < |r| ==> f(r[i])
  {
    if s == [] then [] else (if f(s[0]) then [s[0]] else []) + Filter(f, s[1..])
  }

  /** Filtering distributes over concatenation, which is what "keeps the original order" means. */
  lemma {:induction false} FilterConcat<T>(f: T -> bool, a: seq<T>, b: seq<T>)
    ensures Filter(f, a + b) == Filter(f, a) + Filter(f, b)
  {
    if a == [] {
      assert a + b == b;
    } else {
      assert (a + b)[0] == a[0];
      assert (a + b)[1..] == a[1..] + b;
      FilterConcat(f, a[1..], b);
    }
  }

  /** What survives a filter: exactly the elements that pass it. */
  lemma {:induction false} FilterMembers<T>(f: T -> bool, s: seq<T>)
    ensures forall i :: 0 <= i < |Filter(f, s)| ==> Filter(f, s)[i] in s
    ensures forall i :: 0 <= i < |s| && f(s[i]) ==> s[i] in Filter(f, s)
  {
    if s != [] {
      FilterMembers(f, s[1..]);
      var r := Filter(f, s);
      var head := if f(s[0]) then [s[0]] else [];
      assert r == head + Filter(f, s[1..]);
      forall i | 0 <= i < |r|
        ensures r[i] in s
      {
        if i >= |head| {
          assert r[i] == Filter(f, s[1..])[i - |head|];
        }
      }
      forall i | 0 <= i < |s| && f(s[i])
        ensures s[i] in r
      {
        if i > 0 {
          assert s[i] == s[1..][i - 1];
        }
      }
    }
  }

  /** Filtering a list with a known first element. */
  lemma FilterCons<T>(f: T -> bool, a: T, t: seq<T>)
    ensures Filter(f, [a] + t) == (if f(a) then [a] else []) + Filter(f, t)
  {
    assert ([a] + t)[0] == a;
    assert ([a] + t)[1..] == t;
  }

  /** A filter that every element passes changes nothing. */
  lemma {:induction false} FilterAll<T>(f: T -> bool, s: seq<T>)
    requires forall i :: 0 <= i < |s| ==> f(s[i])
    ensures Filter(f, s) == s
  {
    if s != [] {
      FilterAll(f, s[1..]);
    }
  }

  /** A filter that no element passes leaves nothing. */
  lemma {:induction false} FilterNone<T>(f: T -> bool, s: seq<T>)
    requires forall i :: 0 <= i < |s| ==> !f(s[i])
    ensures Filter(f, s) == []
  {
    if s != [] {
      FilterNone(f, s[1..]);
    }
  }

  /** Filtering twice with the same test is filtering once. */
  lemma FilterIdempotent<T>(f: T -> bool, s: seq<T>)
    ensures Filter(f, Filter(f, s)) == Filter(f, s)
  {
    FilterAll(f, Filter(f, s));
  }

  /** The number of distinct values in a sequence is at most its length. */
  lemma {:induction false} CardinalityAtMostLength<T>(s: seq<T>)
    ensures |set x | x in s| <= |s|
  {
    if s != [] {
      CardinalityAtMostLength(s[1..]);
      assert (set x | x in s) == (set x | x in s[1..]) + {s[0]};
    }
  }

  /** A sequence without repetitions has as many distinct values as elements. */
  lemma {:induction false} DistinctCardinality<T>(s: seq<T>)
    requires forall i, j :: 0 <= i < j < |s| ==> s[i] != s[j]
    ensures |set x | x in s| == |s|
  {
    if s != [] {
      DistinctCardinality(s[1..]);
      assert s[0] !in s[1..];
      assert (set x | x in s) == (set x | x in s[1..]) + {s[0]};
    }
  }

  /** Pigeonhole: if the `n` distinct values of `p` all occur in `u`, then `u` has at least `n` elements. */
  lemma Pigeonhole<T>(p: seq<T>, u: seq<T>)
    requires forall i, j :: 0 <= i < j < |p| ==> p[i] != p[j]
    requires forall i :: 0 <= i < |p| ==> p[i] in u
    ensures |p| <= |u|
  {
    DistinctCardinality(p);
    CardinalityAtMostLength(u);
    var sp := set x | x in p;
    var su := set x | x in u;
    assert sp <= su;
    SubsetCardinality(sp, su);
  }

  lemma SubsetCardinality<T>(a: set<T>, b: set<T>)
    requires a <= b
    ensures |a| <= |b|
  {
    assert b == a + (b - a);
  }
}
