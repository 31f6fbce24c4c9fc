/**
 * The greedy pair matching of merge_model (DLModels.py:402-418). The ranked
 * flat indices are scanned in order; index decodes to the survivor
 * x_i = index % n and the freed slot y_i = index // n; a pair is accepted
 * when neither unit has been used yet, and the scan stops as soon as
 * merge_count pairs have been accepted. An accepted pair averages the
 * freed unit's weight row and bias into the survivor's.
 */
module Matching {
  import opened Matrices
  import opened Sorting
  import opened MergeRanking

  /** An accepted pair: the unit freed is folded into the unit that survives. */
  datatype Merge = Merge(survivor: nat, freed: nat)

  /** The pair a flat index of the n x n score matrix names (DLModels.py:408). */
  function Decode(n: nat, index: nat): (m: Merge)
    requires n > 0
    ensures m.survivor < n
  {
    Merge(index % n, index / n)
  }

  /** Decoding inverts the row-major flattening: freed * n + survivor is the index again. */
  lemma DecodeInverse(n: nat, index: nat)
    requires n > 0
    ensures Decode(n, index).freed * n + Decode(n, index).survivor == index
  {
  }

  /** The units taking part in some merge: the `used` set. */
  function Used(ms: seq<Merge>): set<nat> {
    (set m | m in ms :: m.survivor) + (set m | m in ms :: m.freed)
  }

  /** The survivors of the merges. */
  function Survivors(ms: seq<Merge>): set<nat> {
    set m | m in ms :: m.survivor
  }

  /** empty_slots: the freed units, in the order their merges were accepted. */
  function Freed(ms: seq<Merge>): (slots: seq<nat>)
    ensures |slots| == |ms|
  {
    seq(|ms|, t requires 0 <= t < |ms| => ms[t].freed)
  }

  /**
   * The merges, in the order they were accepted, each pair two units below
   * n, the freed one below the survivor, and neither used by an earlier
   * merge: the acceptance test of DLModels.py:411 held for each.
   */
  predicate IsMatching(ms: seq<Merge>, n: nat)
    decreases |ms|
  {
    ms == [] ||
    var front, m := ms[..|ms| - 1], ms[|ms| - 1];
    IsMatching(front, n) && m.freed < m.survivor < n && m.survivor !in Used(front) && m.freed !in Used(front)
  }

  /**
   * The scan of DLModels.py:402-418 over the ranked indices still to come,
   * with the merges accepted so far.
   */
  function Greedy(rest: seq<nat>, n: nat, mergeCount: nat, acc: seq<Merge>): seq<Merge>
    requires n > 0
    decreases |rest|
  {
    if |acc| == mergeCount || rest == [] then acc
    else
      var m := Decode(n, rest[0]);
      var used := Used(acc);
      Greedy(rest[1..], n, mergeCount, if m.survivor !in used && m.freed !in used then acc + [m] else acc)
  }

  lemma UsedSnoc(ms: seq<Merge>, m: Merge)
    ensures Used(ms + [m]) == Used(ms) + {m.survivor, m.freed}
  {
    assert forall x :: x in ms + [m] <==> x in ms || x == m;
  }

  lemma UsedGrows(ms: seq<Merge>, r: seq<Merge>)
    requires ms <= r
    ensures Used(ms) <= Used(r)
  {
    assert forall x :: x in ms ==> x in r;
  }

  lemma UsedHas(ms: seq<Merge>, t: nat)
    requires t < |ms|
    ensures ms[t].survivor in Used(ms) && ms[t].freed in Used(ms)
  {
    assert ms[t] in ms;
  }

  /** Accepting a pair of two unused units, the freed one below the survivor, keeps a matching a matching. */
  lemma MatchingSnoc(ms: seq<Merge>, n: nat, m: Merge)
    requires IsMatching(ms, n) && m.freed < m.survivor < n
    requires m.survivor !in Used(ms) && m.freed !in Used(ms)
    ensures IsMatching(ms + [m], n)
  {
    assert (ms + [m])[..|ms|] == ms;
  }

  /** Every merge of a matching pairs two units below n, the freed one below the survivor. */
  lemma {:induction false} MatchingBounds(ms: seq<Merge>, n: nat)
    requires IsMatching(ms, n)
    ensures forall t :: 0 <= t < |ms| ==> ms[t].freed < ms[t].survivor < n
    decreases |ms|
  {
    if ms != [] {
      var front := ms[..|ms| - 1];
      MatchingBounds(front, n);
      assert forall t :: 0 <= t < |front| ==> ms[t] == front[t];
    }
  }

  /** No unit takes part in two merges of a matching. */
  lemma {:induction false} MatchingDisjoint(ms: seq<Merge>, n: nat)
    requires IsMatching(ms, n)
    ensures forall s, t :: 0 <= s < t < |ms| ==>
      ms[s].survivor != ms[t].survivor && ms[s].survivor != ms[t].freed &&
      ms[s].freed != ms[t].survivor && ms[s].freed != ms[t].freed
    decreases |ms|
  {
    if ms != [] {
      var front, m := ms[..|ms| - 1], ms[|ms| - 1];
      MatchingDisjoint(front, n);
      forall s, t | 0 <= s < t < |ms|
        ensures ms[s].survivor != ms[t].survivor && ms[s].survivor != ms[t].freed
        ensures ms[s].freed != ms[t].survivor && ms[s].freed != ms[t].freed
      {
        assert ms[s] == front[s];
        if t < |front| {
          assert ms[t] == front[t];
        } else {
          UsedHas(front, s);
        }
      }
    }
  }

  /** The scan only appends to the merges accepted so far, and stops at merge_count. */
  lemma {:induction false} GreedyGrows(rest: seq<nat>, n: nat, mergeCount: nat, acc: seq<Merge>)
    requires n > 0 && |acc| <= mergeCount
    ensures var r := Greedy(rest, n, mergeCount, acc);
      acc <= r && |r| <= mergeCount
    decreases |rest|
  {
    if |acc| != mergeCount && rest != [] {
      var m := Decode(n, rest[0]);
      var used := Used(acc);
      var next := if m.survivor !in used && m.freed !in used then acc + [m] else acc;
      GreedyGrows(rest[1..], n, mergeCount, next);
    }
  }

  /** The scan keeps the merges a matching when every scanned index lies above the diagonal. */
  lemma {:induction false} GreedyMatching(rest: seq<nat>, n: nat, mergeCount: nat, acc: seq<Merge>)
    requires n > 0 && forall k :: k in rest ==> IsUpper(n, k)
    requires IsMatching(acc, n)
    ensures IsMatching(Greedy(rest, n, mergeCount, acc), n)
    decreases |rest|
  {
    if |acc| != mergeCount && rest != [] {
      var m := Decode(n, rest[0]);
      var used := Used(acc);
      var next := if m.survivor !in used && m.freed !in used then acc + [m] else acc;
      if next != acc {
        assert IsUpper(n, rest[0]);
        MatchingSnoc(acc, n, m);
      }
      assert forall k :: k in rest[1..] ==> k in rest;
      GreedyMatching(rest[1..], n, mergeCount, next);
    }
  }

  /** Every merge the scan adds is the decoding of one of the indices it scanned. */
  lemma {:induction false} GreedyFrom(rest: seq<nat>, n: nat, mergeCount: nat, acc: seq<Merge>)
    requires n > 0 && |acc| <= mergeCount
    ensures var r := Greedy(rest, n, mergeCount, acc);
      forall t :: |acc| <= t < |r| ==> exists k :: k in rest && Decode(n, k) == r[t]
    decreases |rest|
  {
    if |acc| != mergeCount && rest != [] {
      var m := Decode(n, rest[0]);
      var used := Used(acc);
      var next := if m.survivor !in used && m.freed !in used then acc + [m] else acc;
      GreedyFrom(rest[1..], n, mergeCount, next);
      GreedyGrows(rest[1..], n, mergeCount, next);
      var r := Greedy(rest[1..], n, mergeCount, next);
      forall t | |acc| <= t < |r| ensures exists k :: k in rest && Decode(n, k) == r[t] {
        if t >= |next| {
          var k :| k in rest[1..] && Decode(n, k) == r[t];
          assert k in rest;
        } else {
          assert r[t] == next[t] == m;
          assert rest[0] in rest;
        }
      }
    }
  }

  /** A scan that ends short of merge_count has rejected every scanned pair for having a unit already used. */
  lemma {:induction false} GreedyMaximal(rest: seq<nat>, n: nat, mergeCount: nat, acc: seq<Merge>)
    requires n > 0 && |acc| <= mergeCount
    ensures var r := Greedy(rest, n, mergeCount, acc);
      |r| < mergeCount ==> forall k :: k in rest ==> Decode(n, k).survivor in Used(r) || Decode(n, k).freed in Used(r)
    decreases |rest|
  {
    if |acc| != mergeCount && rest != [] {
      var m := Decode(n, rest[0]);
      var used := Used(acc);
      var next := if m.survivor !in used && m.freed !in used then acc + [m] else acc;
      GreedyMaximal(rest[1..], n, mergeCount, next);
      GreedyGrows(rest[1..], n, mergeCount, next);
      var r := Greedy(rest[1..], n, mergeCount, next);
      UsedGrows(next, r);
      if next == acc {
      } else {
        UsedSnoc(acc, m);
      }
      if |r| < mergeCount {
        forall k | k in rest ensures Decode(n, k).survivor in Used(r) || Decode(n, k).freed in Used(r) {
          if k != rest[0] {
            assert k in rest[1..];
          }
        }
      }
    }
  }

  /** The pair r < c < n is named by the flat index r * n + c, which lies above the diagonal. */
  lemma UpperDecodes(n: nat, r: nat, c: nat)
    requires r < c < n
    ensures IsUpper(n, r * n + c) && Decode(n, r * n + c) == Merge(c, r)
  {
    RankedDecode(n, r, c);
  }

  /**
   * The scan over any list of exactly the upper-triangle indices: a matching
   * of at most merge_count pairs, each the decoding of a listed index, that
   * leaves no pair of two unused units behind unless merge_count was reached.
   */
  lemma GreedyOnUpper(ranked: seq<nat>, n: nat, mergeCount: nat)
    requires n > 0 && forall k: nat :: k in ranked <==> IsUpper(n, k)
    ensures var ms := Greedy(ranked, n, mergeCount, []);
      && IsMatching(ms, n) && |ms| <= mergeCount
      && (forall t :: 0 <= t < |ms| ==> exists k :: k in ranked && Decode(n, k) == ms[t])
      && (|ms| < mergeCount ==> forall r: nat, c: nat :: r < c < n ==> r in Used(ms) || c in Used(ms))
  {
    GreedyGrows(ranked, n, mergeCount, []);
    GreedyMatching(ranked, n, mergeCount, []);
    GreedyFrom(ranked, n, mergeCount, []);
    GreedyMaximal(ranked, n, mergeCount, []);
    var ms := Greedy(ranked, n, mergeCount, []);
    if |ms| < mergeCount {
      forall r: nat, c: nat | r < c < n ensures r in Used(ms) || c in Used(ms) {
        UpperDecodes(n, r, c);
        var k := r * n + c;
        assert k in ranked;
        assert Decode(n, k).survivor in Used(ms) || Decode(n, k).freed in Used(ms);
      }
    }
  }

  /**
   * The matching merge_model accepts: a matching of at most merge_count
   * pairs, each named by a ranked index, whose freed slots are distinct
   * units, and which leaves no pair of two unused units behind unless
   * merge_count was reached.
   */
  lemma MatchesRanked(score: (nat, nat) -> real, n: nat, mergeCount: nat)
    requires CosineBounded(score) && n > 0
    ensures var ms := Greedy(RankMerges(score, n), n, mergeCount, []);
      && IsMatching(ms, n) && |ms| <= mergeCount
      && Distinct(Freed(ms))
      && (forall t :: 0 <= t < |ms| ==> exists k :: k in RankMerges(score, n) && Decode(n, k) == ms[t])
      && (|ms| < mergeCount ==> forall r: nat, c: nat :: r < c < n ==> r in Used(ms) || c in Used(ms))
  {
    var ranked := RankMerges(score, n);
    GreedyOnUpper(ranked, n, mergeCount);
    FreedDistinct(Greedy(ranked, n, mergeCount, []), n);
  }

  /** The freed slots of a matching are distinct units below n. */
  lemma FreedDistinct(ms: seq<Merge>, n: nat)
    requires IsMatching(ms, n)
    ensures Distinct(Freed(ms)) && forall t :: 0 <= t < |ms| ==> Freed(ms)[t] < n
  {
    MatchingBounds(ms, n);
    MatchingDisjoint(ms, n);
  }

  /** layer_weights after the scan: each accepted merge sets the survivor's row to the average of the pair (:413), in order. */
  function MergeRows(W: Matrix, ms: seq<Merge>, cols: nat): (r: Matrix)
    requires IsMatrix(W, |W|, cols) && IsMatching(ms, |W|)
    ensures IsMatrix(r, |W|, cols)
    decreases |ms|
  {
    if ms == [] then W
    else
      var p := MergeRows(W, ms[..|ms| - 1], cols);
      var m := ms[|ms| - 1];
      p[m.survivor := Average(p[m.survivor], p[m.freed])]
  }

  /** layer_bias after the scan: each accepted merge sets the survivor's bias to the average of the pair (:414), in order. */
  function MergeBias(b: seq<real>, ms: seq<Merge>): (r: seq<real>)
    requires IsMatching(ms, |b|)
    ensures |r| == |b|
    decreases |ms|
  {
    if ms == [] then b
    else
      var p := MergeBias(b, ms[..|ms| - 1]);
      var m := ms[|ms| - 1];
      AverageInto(p, m.survivor, m.freed)
  }

  /** v[s] = (v[s] + v[f]) / 2 */
  function AverageInto(v: seq<real>, s: nat, f: nat): (r: seq<real>)
    requires s < |v| && f < |v|
    ensures |r| == |v| && r[s] == (v[s] + v[f]) / 2.0
    ensures forall j :: 0 <= j < |v| && j != s ==> r[j] == v[j]
  {
    v[s := (v[s] + v[f]) / 2.0]
  }

  /** A row that survives no merge is left as it was (freed rows included). */
  lemma {:induction false} MergeRowsKeeps(W: Matrix, ms: seq<Merge>, cols: nat, i: nat)
    requires IsMatrix(W, |W|, cols) && IsMatching(ms, |W|)
    requires i < |W| && forall t :: 0 <= t < |ms| ==> ms[t].survivor != i
    ensures MergeRows(W, ms, cols)[i] == W[i]
    decreases |ms|
  {
    if ms != [] {
      MergeRowsKeeps(W, ms[..|ms| - 1], cols, i);
    }
  }

  /**
   * Because no unit is in two merges, a survivor's row ends up as the
   * average of the two ORIGINAL rows of its pair.
   */
  lemma {:induction false} MergeRowsAverages(W: Matrix, ms: seq<Merge>, cols: nat, t: nat)
    requires IsMatrix(W, |W|, cols) && IsMatching(ms, |W|) && t < |ms|
    requires ms[t].survivor < |W| && ms[t].freed < |W|
    ensures MergeRows(W, ms, cols)[ms[t].survivor] == Average(W[ms[t].survivor], W[ms[t].freed])
    decreases |ms|
  {
    var front, m := ms[..|ms| - 1], ms[|ms| - 1];
    if t == |ms| - 1 {
      forall s | 0 <= s < |front| ensures front[s].survivor != m.survivor && front[s].survivor != m.freed {
        UsedHas(front, s);
      }
      MergeRowsKeeps(W, front, cols, m.survivor);
      MergeRowsKeeps(W, front, cols, m.freed);
    } else {
      MatchingDisjoint(ms, |W|);
      assert ms[t] == front[t] && ms[t].survivor != m.survivor;
      MatchingBounds(front, |W|);
      MergeRowsAverages(W, front, cols, t);
    }
  }

  /** A bias that survives no merge is left as it was. */
  lemma {:induction false} MergeBiasKeeps(b: seq<real>, ms: seq<Merge>, i: nat)
    requires IsMatching(ms, |b|)
    requires i < |b| && forall t :: 0 <= t < |ms| ==> ms[t].survivor != i
    ensures MergeBias(b, ms)[i] == b[i]
    decreases |ms|
  {
    if ms != [] {
      MergeBiasKeeps(b, ms[..|ms| - 1], i);
    }
  }

  /** A unit outside every merge is neither a survivor nor a freed unit. */
  lemma UnusedUntouched(ms: seq<Merge>, i: nat)
    requires i !in Used(ms)
    ensures i !in Freed(ms) && forall t :: 0 <= t < |ms| ==> ms[t].survivor != i
  {
    forall t | 0 <= t < |ms| ensures ms[t].survivor != i && ms[t].freed != i {
      UsedHas(ms, t);
    }
  }

  /** The survivor of a merge of a matching is a unit below n that no merge frees. */
  lemma SurvivorNotFreed(ms: seq<Merge>, n: nat, t: nat)
    requires IsMatching(ms, n) && t < |ms|
    ensures ms[t].freed < ms[t].survivor < n && ms[t].survivor !in Freed(ms)
  {
    MatchingBounds(ms, n);
    MatchingDisjoint(ms, n);
    forall u | 0 <= u < |ms| ensures Freed(ms)[u] != ms[t].survivor {
      if u != t {
        assert ms[u].freed != ms[t].survivor;
      }
    }
  }

  /** The unit the t-th merge frees keeps its original bias: no merge averages into it. */
  lemma MergeBiasFreed(b: seq<real>, ms: seq<Merge>, t: nat)
    requires IsMatching(ms, |b|) && t < |ms|
    ensures ms[t].freed < |b| && MergeBias(b, ms)[ms[t].freed] == b[ms[t].freed]
  {
    var d := ms[t].freed;
    MatchingBounds(ms, |b|);
    forall u | 0 <= u < |ms| ensures ms[u].survivor != d {
      MatchingDisjoint(ms, |b|);
    }
    MergeBiasKeeps(b, ms, d);
  }

  /** The same, for a unit named by its slot in Freed(ms). */
  lemma MergeBiasFreedSlot(b: seq<real>, ms: seq<Merge>, d: nat)
    requires IsMatching(ms, |b|) && d in Freed(ms)
    ensures d < |b| && MergeBias(b, ms)[d] == b[d]
  {
    var t :| 0 <= t < |ms| && Freed(ms)[t] == d;
    MergeBiasFreed(b, ms, t);
  }

  /** A survivor's bias ends up as the average of the two original biases of its pair. */
  lemma {:induction false} MergeBiasAverages(b: seq<real>, ms: seq<Merge>, t: nat)
    requires IsMatching(ms, |b|) && t < |ms|
    requires ms[t].survivor < |b| && ms[t].freed < |b|
    ensures MergeBias(b, ms)[ms[t].survivor] == (b[ms[t].survivor] + b[ms[t].freed]) / 2.0
    decreases |ms|
  {
    var front, m := ms[..|ms| - 1], ms[|ms| - 1];
    if t == |ms| - 1 {
      forall s | 0 <= s < |front| ensures front[s].survivor != m.survivor && front[s].survivor != m.freed {
        UsedHas(front, s);
      }
      MergeBiasKeeps(b, front, m.survivor);
      MergeBiasKeeps(b, front, m.freed);
    } else {
      MatchingDisjoint(ms, |b|);
      assert ms[t] == front[t] && ms[t].survivor != m.survivor;
      MatchingBounds(front, |b|);
      MergeBiasAverages(b, front, t);
    }
  }

  lemma FreedSnoc(ms: seq<Merge>, m: Merge)
    ensures Freed(ms + [m]) == Freed(ms) + [m.freed]
  {
  }

  lemma MergeRowsSnoc(W: Matrix, ms: seq<Merge>, cols: nat, m: Merge)
    requires IsMatrix(W, |W|, cols) && IsMatching(ms + [m], |W|)
    ensures IsMatching(ms, |W|)
    ensures var p := MergeRows(W, ms, cols);
      MergeRows(W, ms + [m], cols) == p[m.survivor := Average(p[m.survivor], p[m.freed])]
  {
    assert (ms + [m])[..|ms|] == ms;
  }

  lemma MergeBiasSnoc(b: seq<real>, ms: seq<Merge>, m: Merge)
    requires IsMatching(ms + [m], |b|)
    ensures IsMatching(ms, |b|)
    ensures MergeBias(b, ms + [m]) == AverageInto(MergeBias(b, ms), m.survivor, m.freed)
  {
    assert (ms + [m])[..|ms|] == ms;
  }

  /**
   * The matching loop of merge_model (DLModels.py:402-418) over the rows W
   * of the layer's units (each of cols entries) and their biases b: it
   * computes exactly the scan Greedy specifies, the averaged rows and
   * biases, and empty_slots.
   */
  method MatchPairs(ranked: seq<nat>, n: nat, mergeCount: nat, W: Matrix, cols: nat, b: seq<real>)
    returns (rows: Matrix, bias: seq<real>, emptySlots: seq<nat>)
    requires n > 0 && IsMatrix(W, n, cols) && |b| == n
    requires forall k :: k in ranked ==> IsUpper(n, k)
    ensures var ms := Greedy(ranked, n, mergeCount, []);
      && IsMatching(ms, n)
      && rows == MergeRows(W, ms, cols) && bias == MergeBias(b, ms) && emptySlots == Freed(ms)
  {
    rows, bias, emptySlots := W, b, [];
    var used: set<nat> := {};
    ghost var ms: seq<Merge> := [];
    var i := 0;
    while i < |ranked|
      invariant 0 <= i <= |ranked|
      invariant IsMatching(ms, n) && |ms| <= mergeCount
      invariant Greedy(ranked[i..], n, mergeCount, ms) == Greedy(ranked, n, mergeCount, [])
      invariant rows == MergeRows(W, ms, cols) && bias == MergeBias(b, ms)
      invariant used == Used(ms) && emptySlots == Freed(ms)
    {
      if |emptySlots| == mergeCount {
        break;
      }
      var index := ranked[i];
      var x, y := index % n, index / n;
      ghost var next := if x !in used && y !in used then ms + [Merge(x, y)] else ms;
      assert Greedy(ranked[i..], n, mergeCount, ms) == Greedy(ranked[i + 1..], n, mergeCount, next) by {
        assert ranked[i..][1..] == ranked[i + 1..];
      }
      if x !in used && y !in used {
        var m := Merge(x, y);
        assert IsMatching(ms + [m], n) by {
          assert IsUpper(n, index);
          MatchingSnoc(ms, n, m);
        }
        assert rows[x := Average(rows[x], rows[y])] == MergeRows(W, ms + [m], cols) by {
          MergeRowsSnoc(W, ms, cols, m);
        }
        assert AverageInto(bias, x, y) == MergeBias(b, ms + [m]) by {
          MergeBiasSnoc(b, ms, m);
        }
        assert used + {x, y} == Used(ms + [m]) && emptySlots + [y] == Freed(ms + [m]) by {
          UsedSnoc(ms, m);
          FreedSnoc(ms, m);
        }
        rows := rows[x := Average(rows[x], rows[y])];
        bias := AverageInto(bias, x, y);
        used := used + {x, y};
        emptySlots := emptySlots + [y];
      }
      ms := next;
      i := i + 1;
    }
    assert Greedy(ranked[i..], n, mergeCount, ms) == ms;
  }
}
