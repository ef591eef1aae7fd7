/** The contiguous slices the corpus listing is cut into, `d` entries at a
    time: slice `i` runs from `i * d` up to `min((i + 1) * d, n)`, for `i`
    from 0 to `n / d` inclusive, as `Indexer.constructIndex` and
    `CorpusAnalyzerPagerank.prepare` both cut it. */
module Slices {

  function Min(a: int, b: int): int {
    if a <= b then a else b
  }

  /** The number of slices: `n / d + 1`, the last one possibly empty. */
  function Count(n: nat, d: nat): nat
    requires d > 0
  {
    n / d + 1
  }

  /** Where slice `i` starts. */
  function Start(d: nat, i: nat): nat {
    i * d
  }

  /** Where slice `i` ends (exclusive). */
  function End(n: nat, d: nat, i: nat): nat {
    Min((i + 1) * d, n)
  }

  lemma MulMono(a: nat, b: nat, d: nat)
    requires a <= b
    ensures a * d <= b * d
  {
  }

  /** `(n / d) * d` is at most `n`, and one more slice width passes it. */
  lemma DivBounds(n: nat, d: nat)
    requires d > 0
    ensures (n / d) * d <= n < (n / d + 1) * d
  {
  }

  /** Each slice lies inside the listing and does not run backwards. */
  lemma SliceInside(n: nat, d: nat, i: nat)
    requires d > 0 && i < Count(n, d)
    ensures Start(d, i) <= End(n, d, i) <= n
  {
    DivBounds(n, d);
    MulMono(i, n / d, d);
    assert (i + 1) * d == i * d + d;
  }

  /** Each slice ends where the next one starts. */
  lemma SlicesContiguous(n: nat, d: nat, i: nat)
    requires d > 0 && i + 1 < Count(n, d)
    ensures End(n, d, i) == Start(d, i + 1)
  {
    DivBounds(n, d);
    MulMono(i + 1, n / d, d);
  }

  /** The first slice starts at 0 and the last one ends at `n`. */
  lemma SlicesCover(n: nat, d: nat)
    requires d > 0
    ensures Start(d, 0) == 0 && End(n, d, Count(n, d) - 1) == n
  {
    DivBounds(n, d);
  }

  /** A slice that starts at or before `x` is not past slice `x / d`. */
  lemma StartsBefore(d: nat, x: nat, i: nat)
    requires d > 0 && i * d <= x
    ensures i <= x / d
  {
    if i > x / d {
      DivBounds(x, d);
      MulMono(x / d + 1, i, d);
    }
  }

  /** A slice whose width-`d` end passes `x` is not before slice `x / d`. */
  lemma EndsAfter(d: nat, x: nat, i: nat)
    requires d > 0 && x < (i + 1) * d
    ensures x / d <= i
  {
    if x / d > i {
      DivBounds(x, d);
      MulMono(i + 1, x / d, d);
    }
  }

  /** Every position belongs to slice `x / d` and to no other: the slices
      are disjoint and cover the listing. */
  lemma SliceOf(n: nat, d: nat, x: nat, i: nat)
    requires d > 0 && x < n && i < Count(n, d)
    ensures x / d < Count(n, d) && Start(d, x / d) <= x < End(n, d, x / d)
    ensures Start(d, i) <= x < End(n, d, i) <==> i == x / d
  {
    var q := x / d;
    DivBounds(x, d);
    StartsBefore(d, n, q);
    if Start(d, i) <= x < End(n, d, i) {
      StartsBefore(d, x, i);
      EndsAfter(d, x, i);
    }
  }

  /** The last slice is empty exactly when `d` divides `n`. */
  lemma LastSliceEmpty(n: nat, d: nat)
    requires d > 0
    ensures Start(d, Count(n, d) - 1) == End(n, d, Count(n, d) - 1) <==> n % d == 0
  {
    DivBounds(n, d);
    assert n == (n / d) * d + n % d;
  }

  /** The slices of a listing, in order: `subList(startFile, endFile)` for
      each. */
  function Partition<T>(s: seq<T>, d: nat): (r: seq<seq<T>>)
    requires d > 0
    ensures |r| == Count(|s|, d)
  {
    seq(Count(|s|, d), i requires 0 <= i < Count(|s|, d) =>
      SliceInside(|s|, d, i);
      s[Start(d, i)..End(|s|, d, i)])
  }

  /** The sequences one after the other. */
  function Flatten<T>(ss: seq<seq<T>>): seq<T> {
    if ss == [] then [] else Flatten(ss[..|ss| - 1]) + ss[|ss| - 1]
  }

  /** The first `k` slices, one after the other, are the listing up to the
      end of slice `k - 1`. */
  lemma {:induction false} PartitionPrefix<T>(s: seq<T>, d: nat, k: nat)
    requires d > 0 && 0 < k <= Count(|s|, d)
    ensures End(|s|, d, k - 1) <= |s|
    ensures Flatten(Partition(s, d)[..k]) == s[..End(|s|, d, k - 1)]
  {
    var p := Partition(s, d);
    SliceInside(|s|, d, k - 1);
    assert p[..k][..k - 1] == p[..k - 1];
    if k == 1 {
      assert p[..1][..0] == [];
    } else {
      PartitionPrefix(s, d, k - 1);
      SlicesContiguous(|s|, d, k - 2);
      assert s[..End(|s|, d, k - 1)] == s[..End(|s|, d, k - 2)] + s[Start(d, k - 1)..End(|s|, d, k - 1)];
    }
  }

  /** Cutting the listing into slices loses and reorders nothing: the
      slices put back together are the listing. */
  lemma PartitionFlatten<T>(s: seq<T>, d: nat)
    requires d > 0
    ensures Flatten(Partition(s, d)) == s
  {
    PartitionPrefix(s, d, Count(|s|, d));
    SlicesCover(|s|, d);
    assert Partition(s, d)[..Count(|s|, d)] == Partition(s, d);
  }

  /** No slice is longer than `d`. */
  lemma PartitionSizes<T>(s: seq<T>, d: nat)
    requires d > 0
    ensures forall i :: 0 <= i < |Partition(s, d)| ==> |Partition(s, d)[i]| <= d
  {
    forall i | 0 <= i < |Partition(s, d)| ensures |Partition(s, d)[i]| <= d {
      SliceInside(|s|, d, i);
      assert (i + 1) * d == i * d + d;
    }
  }
}
