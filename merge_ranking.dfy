/**
 * The merge ranking of MergeIncrementingAutoencoder.merge_inc_func
 * (DLModels.py, score_merges): the n x n cosine matrix of a layer's unit
 * weight rows has every entry on or below the diagonal pushed down by the
 * largest float, is flattened row-major, argsorted, and the first n(n+1)/2
 * positions (the masked entries) are dropped. What remains is every
 * upper-triangle flat index r*n+c (r < c) exactly once, least similar pair
 * first.
 *
 * The cosine similarities themselves are an input: score(r, c) stands for
 * the cosine of unit rows r and c.
 */
module MergeRanking {
  import opened Arith
  import opened Sorting

  /** The largest finite float32 value (np.finfo(floatX).max). */
  const FloatMax: real := 340282346638528859811704183484516925440.0

  /** Scores lie where cosine similarities lie. */
  ghost predicate CosineBounded(score: (nat, nat) -> real) {
    forall r, c :: -1.0 <= score(r, c) <= 1.0
  }

  /** The flat index k of an n x n matrix lies strictly above the diagonal: k = r*n + c with r < c. */
  predicate IsUpper(n: nat, k: nat) {
    n > 0 && k < n * n && k / n < k % n
  }

  /** The entries that T.tri marks: on or below the diagonal. */
  function Masked(n: nat): nat -> bool {
    k => n > 0 && k % n <= k / n
  }

  /** (m_cosine - T.tri(n) * finfo.max).flatten() */
  function MaskedScores(score: (nat, nat) -> real, n: nat): (v: seq<real>)
    ensures |v| == n * n
  {
    seq(n * n, k requires 0 <= k < n * n => score(k / n, k % n) - (if k % n <= k / n then FloatMax else 0.0))
  }

  /** The score of the pair that flat index k decodes to (row k / n, column k % n). */
  function PairScore(score: (nat, nat) -> real, n: nat, k: nat): real
    requires n > 0
  {
    score(k / n, k % n)
  }

  /** Number of entries on or below the diagonal among the first r rows. */
  function Triangle(r: nat): nat {
    if r == 0 then 0 else Triangle(r - 1) + r
  }

  lemma {:induction false} TriangleClosedForm(r: nat)
    ensures Triangle(r) == r * (r + 1) / 2
  {
    if r > 0 {
      TriangleClosedForm(r - 1);
      assert r * (r + 1) == (r - 1) * r + 2 * r;
    }
  }

  lemma RangeSnoc(k: nat)
    ensures Range(k + 1) == Range(k) + [k]
  {
  }

  /** Among the flat indices below r*n + c there are Triangle(r) + min(c, r+1) masked ones. */
  lemma {:induction false} CountMaskedPrefix(n: nat, r: nat, c: nat)
    requires n > 0 && r < n && c <= n
    ensures Count(Range(r * n + c), Masked(n)) == Triangle(r) + Min(c, r + 1)
    decreases r, c
  {
    if c == 0 {
      if r == 0 {
        assert Range(0) == [];
      } else {
        assert r * n + 0 == (r - 1) * n + n;
        CountMaskedPrefix(n, r - 1, n);
      }
    } else {
      var k := r * n + c - 1;
      RangeSnoc(k);
      CountAppend(Range(k), [k], Masked(n));
      assert Count([k], Masked(n)) == if Masked(n)(k) then 1 else 0;
      FlatDecode(r, c - 1, n);
      CountMaskedPrefix(n, r, c - 1);
    }
  }

  /** The slice bound of the code, n(n+1)/2, is exactly the number of masked entries. */
  lemma CountMasked(n: nat)
    ensures Count(Range(n * n), Masked(n)) == n * (n + 1) / 2
  {
    if n == 0 {
      assert Range(0) == [];
    } else {
      assert n * n == (n - 1) * n + n;
      CountMaskedPrefix(n, n - 1, n);
      TriangleClosedForm(n);
    }
  }

  /** Masked entries sort strictly below every unmasked one, with -1 as the dividing line. */
  lemma MaskSeparates(score: (nat, nat) -> real, n: nat, k: nat)
    requires CosineBounded(score) && k < n * n
    ensures n > 0 && (Masked(n)(k) <==> MaskedScores(score, n)[k] < -1.0)
  {
    assert score(k / n, k % n) <= 1.0 && score(k / n, k % n) >= -1.0;
  }

  /** Positions of the sorted masked scores: the masked entries fill the prefix of length Count. */
  lemma SortedMaskedSplit(score: (nat, nat) -> real, n: nat)
    requires CosineBounded(score)
    ensures var sorted := ArgSort(MaskedScores(score, n));
      && Count(sorted, Masked(n)) == n * (n + 1) / 2 <= |sorted|
      && (forall i :: 0 <= i < n * (n + 1) / 2 ==> Masked(n)(sorted[i]))
      && (forall i :: n * (n + 1) / 2 <= i < |sorted| ==> !Masked(n)(sorted[i]))
  {
    var v := MaskedScores(score, n);
    var sorted := ArgSort(v);
    CountMasked(n);
    CountSortBy(Range(n * n), v, Masked(n));
    forall i | 0 <= i < |sorted| ensures Masked(n)(sorted[i]) <==> v[sorted[i]] < -1.0 {
      MaskSeparates(score, n, sorted[i]);
    }
    SortedSplit(sorted, v, Masked(n), -1.0);
  }

  /** Among the n * n entries, the unmasked ones are exactly the upper triangle. */
  lemma UnmaskedUpper(n: nat, k: nat)
    requires k < n * n
    ensures !Masked(n)(k) <==> IsUpper(n, k)
  {
  }

  /** Every index left after the slice is an upper-triangle one. */
  lemma RankedOnlyUpper(score: (nat, nat) -> real, n: nat, sorted: seq<nat>, m: nat, k: nat)
    requires CosineBounded(score)
    requires sorted == ArgSort(MaskedScores(score, n)) && m == n * (n + 1) / 2 <= |sorted|
    requires k in sorted[m..]
    ensures IsUpper(n, k)
  {
    var i :| 0 <= i < |sorted| - m && sorted[m..][i] == k;
    assert sorted[m + i] == k;
    assert !Masked(n)(sorted[m + i]) by {
      SortedMaskedSplit(score, n);
    }
    UnmaskedUpper(n, k);
  }

  /** Every upper-triangle index is left after the slice. */
  lemma UpperRanked(score: (nat, nat) -> real, n: nat, sorted: seq<nat>, m: nat, k: nat)
    requires CosineBounded(score)
    requires sorted == ArgSort(MaskedScores(score, n)) && m == n * (n + 1) / 2 <= |sorted|
    requires IsUpper(n, k)
    ensures k in sorted[m..]
  {
    assert k in sorted;
    var i :| 0 <= i < |sorted| && sorted[i] == k;
    UnmaskedUpper(n, k);
    assert m <= i by {
      SortedMaskedSplit(score, n);
    }
    assert sorted[m..][i - m] == k;
  }

  /** What is left after the slice is exactly the upper triangle. */
  lemma RankedMembers(score: (nat, nat) -> real, n: nat, k: nat)
    requires CosineBounded(score)
    ensures var sorted := ArgSort(MaskedScores(score, n));
      n * (n + 1) / 2 <= |sorted| && (k in sorted[n * (n + 1) / 2..] <==> IsUpper(n, k))
  {
    var sorted := ArgSort(MaskedScores(score, n));
    var m := n * (n + 1) / 2;
    assert m <= |sorted| by {
      SortedMaskedSplit(score, n);
    }
    if k in sorted[m..] {
      RankedOnlyUpper(score, n, sorted, m, k);
    }
    if IsUpper(n, k) {
      UpperRanked(score, n, sorted, m, k);
    }
  }

  /** Past the slice every sorted index is an unmasked one. */
  lemma SortedTailUnmasked(score: (nat, nat) -> real, n: nat, v: seq<real>, sorted: seq<nat>, m: nat, a: nat)
    requires CosineBounded(score)
    requires v == MaskedScores(score, n) && sorted == ArgSort(v) && m == n * (n + 1) / 2
    requires n > 0 && m <= a < |sorted|
    ensures sorted[a] < |v| && !Masked(n)(sorted[a])
  {
    SortedMaskedSplit(score, n);
  }

  /** An unmasked entry's sort key is its plain score. */
  lemma UnmaskedKey(score: (nat, nat) -> real, n: nat, v: seq<real>, k: nat)
    requires v == MaskedScores(score, n)
    requires n > 0 && k < |v| && !Masked(n)(k)
    ensures v[k] == PairScore(score, n, k)
  {
  }

  /** Past the slice the sort key is the plain score, so scores ascend there. */
  lemma RankedAscending(score: (nat, nat) -> real, n: nat, v: seq<real>, sorted: seq<nat>, m: nat, a: nat, b: nat)
    requires CosineBounded(score)
    requires v == MaskedScores(score, n) && sorted == ArgSort(v) && m == n * (n + 1) / 2
    requires n > 0 && m <= a < b < |sorted|
    ensures PairScore(score, n, sorted[a]) <= PairScore(score, n, sorted[b])
  {
    SortedTailUnmasked(score, n, v, sorted, m, a);
    SortedTailUnmasked(score, n, v, sorted, m, b);
    UnmaskedKey(score, n, v, sorted[a]);
    UnmaskedKey(score, n, v, sorted[b]);
    assert v[sorted[a]] <= v[sorted[b]];
  }

  /**
   * The sorted masked scores with the masked prefix sliced off: one entry
   * for each of the n * n - n(n+1)/2 pairs r < c.
   */
  function Ranked(score: (nat, nat) -> real, n: nat): (ranked: seq<nat>)
    requires CosineBounded(score)
    ensures |ranked| == n * n - n * (n + 1) / 2
  {
    RankedMembers(score, n, 0);
    ArgSort(MaskedScores(score, n))[n * (n + 1) / 2..]
  }

  lemma RankedDistinct(score: (nat, nat) -> real, n: nat)
    requires CosineBounded(score)
    ensures Distinct(Ranked(score, n))
  {
    var sorted := ArgSort(MaskedScores(score, n));
    var m := n * (n + 1) / 2;
    var ranked := Ranked(score, n);
    assert forall i :: 0 <= i < |ranked| ==> ranked[i] == sorted[m + i];
  }

  lemma RankedUpper(score: (nat, nat) -> real, n: nat)
    requires CosineBounded(score)
    ensures forall k: nat :: k in Ranked(score, n) <==> IsUpper(n, k)
  {
    forall k: nat ensures k in Ranked(score, n) <==> IsUpper(n, k) {
      RankedMembers(score, n, k);
    }
  }

  lemma RankedSorted(score: (nat, nat) -> real, n: nat)
    requires CosineBounded(score)
    ensures var ranked := Ranked(score, n);
      forall i, j :: 0 <= i < j < |ranked| ==>
        n > 0 && PairScore(score, n, ranked[i]) <= PairScore(score, n, ranked[j])
  {
    var v := MaskedScores(score, n);
    var sorted := ArgSort(v);
    var m := n * (n + 1) / 2;
    var ranked := Ranked(score, n);
    assert n == 0 ==> |sorted| == 0;
    forall i, j | 0 <= i < j < |ranked|
      ensures n > 0 && PairScore(score, n, ranked[i]) <= PairScore(score, n, ranked[j])
    {
      assert ranked[i] == sorted[m + i] && ranked[j] == sorted[m + j];
      RankedAscending(score, n, v, sorted, m, m + i, m + j);
    }
  }

  /**
   * score_merges (DLModels.py:333): the upper-triangle flat indices, each
   * exactly once, in ascending order of score, so the least similar pair
   * comes first.
   */
  function RankMerges(score: (nat, nat) -> real, n: nat): (ranked: seq<nat>)
    requires CosineBounded(score)
    ensures |ranked| == n * n - n * (n + 1) / 2
    ensures Distinct(ranked)
    ensures forall k: nat :: k in ranked <==> IsUpper(n, k)
    ensures forall i, j :: 0 <= i < j < |ranked| ==>
      n > 0 && PairScore(score, n, ranked[i]) <= PairScore(score, n, ranked[j])
  {
    RankedDistinct(score, n);
    RankedUpper(score, n);
    RankedSorted(score, n);
    Ranked(score, n)
  }

  /** The first ranked pair is a least similar one: no upper-triangle pair scores lower. */
  lemma RankStartsLeastSimilar(score: (nat, nat) -> real, n: nat, r: nat, c: nat)
    requires CosineBounded(score) && r < c < n
    ensures RankMerges(score, n) != []
    ensures PairScore(score, n, RankMerges(score, n)[0]) <= score(r, c)
  {
    var ranked := RankMerges(score, n);
    RankedDecode(n, r, c);
    var i :| 0 <= i < |ranked| && ranked[i] == r * n + c;
    assert PairScore(score, n, ranked[i]) == score(r, c);
    if i > 0 {
      assert PairScore(score, n, ranked[0]) <= PairScore(score, n, ranked[i]);
    }
  }

  /** Decoding a ranked index the way merge_model does (DLModels.py:408): the survivor x_i is the column c, the freed slot y_i the row r < c. */
  lemma RankedDecode(n: nat, r: nat, c: nat)
    requires r < c < n
    ensures IsUpper(n, r * n + c)
    ensures (r * n + c) % n == c && (r * n + c) / n == r
  {
    FlatDecode(r, c, n);
    FlatInside(r, c, n);
  }
}
