/**
 * merge_model (DLModels.py:371-472), the closure built inside
 * MergeIncrementingAutoencoder.merge_inc_func (DLModels.py:297, 322): the
 * network surgery that merges disjoint pairs of hidden units of the first
 * layer, taking pairs in ascending order of similarity (the argsort at
 * DLModels.py:333 puts the least similar pair first), grows the layer by
 * inc_count fresh units or, when more units were merged than added,
 * shrinks it by moving the top units into the freed slots, and then
 * resizes every parameter that depends on the hidden layer's size.
 *
 * The network is the first layer's W (inputs x units), b (one per unit)
 * and b_prime (one per input), and the second layer's W (units x outputs)
 * and b_prime (one per unit). The similarity scores, the value init and the
 * random rows are inputs: score(r, c) is the cosine similarity of units r
 * and c, init is the relocation fill value, and draw(t) is the t-th random
 * row the refill takes.
 */
module Surgery {
  import opened Arith
  import opened Matrices
  import opened Sorting
  import opened MergeRanking
  import opened Matching
  import opened Relocation

  /** Python's int() on a float: truncation toward zero. */
  function Trunc(x: real): (r: int)
    ensures 0.0 <= x ==> 0 <= r && r as real <= x < r as real + 1.0
    ensures x < 0.0 ==> r <= 0 && r as real - 1.0 < x <= r as real
  {
    if x >= 0.0 then x.Floor else -((-x).Floor)
  }

  /**
   * merge_count and inc_count (DLModels.py:394-395): int(percentage * units),
   * the largest count not above the requested fraction of the units.
   */
  function UnitCount(pct: real, n: nat): (k: nat)
    requires pct >= 0.0
    ensures k as real <= pct * n as real < k as real + 1.0
  {
    Trunc(pct * n as real)
  }

  /** A layer without units gives no unit to merge or add. */
  lemma UnitCountEmpty(pct: real)
    requires pct >= 0.0
    ensures UnitCount(pct, 0) == 0
  {
  }

  /**
   * A matching of n units leaves at least as many units that are not freed
   * as it has merges (the survivors are such units), so prev_map pairs
   * every freed slot with a source, and the layer never shrinks below zero.
   */
  lemma MatchingFits(ms: seq<Merge>, n: nat)
    requires IsMatching(ms, n)
    ensures |ms| <= |Descending(n, Freed(ms))| <= n
  {
    var survivors := seq(|ms|, t requires 0 <= t < |ms| => ms[t].survivor);
    forall t | 0 <= t < |ms| ensures survivors[t] < n && survivors[t] !in Freed(ms) {
      SurvivorNotFreed(ms, n, t);
    }
    assert Distinct(survivors) by {
      MatchingDisjoint(ms, n);
    }
    DescendingAtLeast(n, Freed(ms), survivors);
  }

  /** The parameters merge_model reads and replaces. */
  datatype Net = Net(W0: Matrix, b0: seq<real>, bPrime0: seq<real>, W1: Matrix, bPrime1: seq<real>)

  /** The shapes agree: W0 is inputs x units, W1 is units x out1, and the second layer has a visible bias per unit. */
  predicate Wired(net: Net, out1: nat) {
    IsMatrix(net.W0, |net.bPrime0|, |net.b0|) && IsMatrix(net.W1, |net.b0|, out1) && |net.bPrime1| == |net.b0|
  }

  /** The first layer's units, one row of input weights each: W0 transposed (DLModels.py:387). */
  function Units(net: Net): (u: Matrix)
    requires IsMatrix(net.W0, |net.bPrime0|, |net.b0|)
    ensures IsMatrix(u, |net.b0|, |net.bPrime0|)
  {
    Transpose(net.W0, |net.bPrime0|, |net.b0|)
  }

  /** new_size (DLModels.py:421): the units after adding incCount and removing the freed ones. */
  function NewSize(n: nat, incCount: nat, ms: seq<Merge>): (size: nat)
    requires IsMatching(ms, n)
    ensures size + |ms| == n + incCount && incCount <= size
  {
    MatchingFits(ms, n);
    n + incCount - |ms|
  }

  /**
   * prev_map (DLModels.py:425-436): when the layer shrinks, the freed slots
   * paired with the largest units not freed; otherwise empty. Either way a
   * plan whose destinations are freed slots.
   */
  function Plan(n: nat, ms: seq<Merge>, newSize: nat): (pm: map<nat, nat>)
    requires IsMatching(ms, n)
    ensures IsPlan(pm, n)
    ensures forall d :: d in pm ==> d in Freed(ms)
  {
    if newSize < n then
      FreedDistinct(ms, n);
      MatchingFits(ms, n);
      PrevMapPlan(n, Freed(ms));
      PrevMap(n, Freed(ms))
    else map[]
  }

  /** When the layer shrinks, the plan is prev_map of the freed slots. */
  lemma PlanShrinks(n: nat, ms: seq<Merge>, newSize: nat)
    requires IsMatching(ms, n) && newSize < n
    ensures Plan(n, ms, newSize) == PrevMap(n, Freed(ms))
  {
  }

  /** When the layer shrinks, every freed slot is a destination of the plan. */
  lemma PlanKeys(n: nat, ms: seq<Merge>, newSize: nat)
    requires IsMatching(ms, n) && newSize < n
    ensures forall d :: d in Freed(ms) ==> d in Plan(n, ms, newSize)
  {
    FreedDistinct(ms, n);
    MatchingFits(ms, n);
    PrevMapPlan(n, Freed(ms));
  }

  /**
   * The slots that take fresh random rows (DLModels.py:441): the freed
   * slots when the layer did not shrink, then the new units n..newSize-1;
   * distinct, and all inside the new layer.
   */
  function Slots(n: nat, ms: seq<Merge>, newSize: nat): (slots: seq<nat>)
    requires IsMatching(ms, n)
    ensures forall t :: 0 <= t < |slots| ==> slots[t] < newSize
    ensures newSize < n ==> slots == []
    ensures n <= newSize ==> slots == Freed(ms) + Span(n, newSize)
  {
    var source: seq<nat> := if newSize < n then [] else Freed(ms);
    assert Distinct(source) && forall t :: 0 <= t < |source| ==> source[t] < n by {
      FreedDistinct(ms, n);
    }
    assert Below(source, newSize) == source by {
      forall x: nat | x in source ensures x < newSize {
        var t :| 0 <= t < |source| && source[t] == x;
      }
    }
    Below(source, newSize) + Span(n, newSize)
  }

  /** When the layer does not shrink, the t-th slot is the unit the t-th merge freed. */
  lemma SlotsFreedAt(n: nat, ms: seq<Merge>, newSize: nat, t: nat)
    requires IsMatching(ms, n) && n <= newSize && t < |ms|
    ensures t < |Slots(n, ms, newSize)| && Slots(n, ms, newSize)[t] == ms[t].freed
  {
    assert Freed(ms)[t] == ms[t].freed;
  }

  /** When the layer does not shrink, the new unit j takes slot k = |ms| + (j - n). */
  lemma SlotsAddedAt(n: nat, ms: seq<Merge>, newSize: nat, j: nat, k: nat)
    requires IsMatching(ms, n) && n <= j < newSize && k == |ms| + (j - n)
    ensures k < |Slots(n, ms, newSize)| && Slots(n, ms, newSize)[k] == j
  {
    assert Span(n, newSize)[j - n] == j;
  }

  /** No slot is refilled twice. */
  lemma SlotsDistinct(n: nat, ms: seq<Merge>, newSize: nat)
    requires IsMatching(ms, n)
    ensures Distinct(Slots(n, ms, newSize))
  {
    FreedDistinct(ms, n);
    var source: seq<nat> := if newSize < n then [] else Freed(ms);
    DistinctThenSpan(source, n, newSize);
  }

  /**
   * The first layer's units after the surgery, one row of prev inputs each
   * (DLModels.py:402-442): merged, relocated, copied into the resized
   * matrix and refilled.
   */
  function NewUnits(U: Matrix, nIn: nat, ms: seq<Merge>, newSize: nat, prev: nat, init: real, draw: nat -> Row): (r: Matrix)
    requires IsMatrix(U, |U|, nIn) && IsMatching(ms, |U|)
    requires forall t :: |draw(t)| == prev
    ensures IsMatrix(r, newSize, prev)
  {
    var n := |U|;
    var moved := Relocated(MergeRows(U, ms, nIn), Plan(n, ms, newSize), Constant(nIn, init));
    var slots := Slots(n, ms, newSize);
    RefillShape(Embed(moved, newSize, prev), newSize, prev, slots, draw);
    Refill(Embed(moved, newSize, prev), slots, draw)
  }

  /** The next layer's input rows: relocated with the same plan, then resized to newSize rows (DLModels.py:461-467). */
  function NewDownstream(W1: Matrix, out1: nat, pm: map<nat, nat>, newSize: nat): (r: Matrix)
    requires IsMatrix(W1, |W1|, out1) && IsPlan(pm, |W1|)
    ensures IsMatrix(r, newSize, out1)
  {
    var moved := Relocated(W1, pm, Zeros(out1));
    assert forall i :: 0 <= i < |moved| ==> |moved[i]| == out1;
    ResizeRows(moved, newSize, out1)
  }

  /**
   * merge_model after the matching has been chosen: the network with ms
   * merged, incCount units added, and every parameter resized to the new
   * layer size, the shapes staying consistent.
   */
  function Resized(net: Net, out1: nat, prev: nat, ms: seq<Merge>, incCount: nat, init: real, draw: nat -> Row): (r: Net)
    requires Wired(net, out1) && IsMatching(ms, |net.b0|)
    requires forall t :: |draw(t)| == prev
    ensures Wired(r, out1)
    ensures |r.b0| == |net.b0| + incCount - |ms| && |r.bPrime0| == prev
  {
    var n := |net.b0|;
    var newSize := NewSize(n, incCount, ms);
    var units := NewUnits(Units(net), |net.bPrime0|, ms, newSize, prev, init, draw);
    Net(Transpose(units, newSize, prev),
        Resize(MergeBias(net.b0, ms), newSize),
        Resize(net.bPrime0, prev),
        NewDownstream(net.W1, out1, Plan(n, ms, newSize), newSize),
        Resize(net.bPrime1, newSize))
  }

  /**
   * merge_model (DLModels.py:371-472) on the parameters: nothing changes
   * when neither count reaches one unit; otherwise the greedy matching over
   * the ranked pairs is merged and the layer resized. The result is wired
   * like the input, with prev inputs and a layer size between n + inc_count
   * - merge_count and n + inc_count.
   */
  function MergeSpec(net: Net, out1: nat, prev: nat, score: (nat, nat) -> real, mergePct: real, incPct: real,
                     init: real, draw: nat -> Row): (r: Net)
    requires Wired(net, out1) && CosineBounded(score) && mergePct >= 0.0 && incPct >= 0.0
    requires forall t :: |draw(t)| == prev
    ensures Wired(r, out1)
  {
    var n := |net.b0|;
    var mergeCount, incCount := UnitCount(mergePct, n), UnitCount(incPct, n);
    if mergeCount == 0 && incCount == 0 then net
    else
      MatchesRanked(score, n, mergeCount);
      Resized(net, out1, prev, Greedy(RankMerges(score, n), n, mergeCount, []), incCount, init, draw)
  }

  /** The units after the surgery are the rows NewUnits builds. */
  lemma UnitsOfResized(net: Net, out1: nat, prev: nat, ms: seq<Merge>, incCount: nat, init: real, draw: nat -> Row)
    requires Wired(net, out1) && IsMatching(ms, |net.b0|) && forall t :: |draw(t)| == prev
    ensures Units(Resized(net, out1, prev, ms, incCount, init, draw))
      == NewUnits(Units(net), |net.bPrime0|, ms, NewSize(|net.b0|, incCount, ms), prev, init, draw)
  {
    var units := NewUnits(Units(net), |net.bPrime0|, ms, NewSize(|net.b0|, incCount, ms), prev, init, draw);
    TransposeTwice(units, NewSize(|net.b0|, incCount, ms), prev);
  }

  /** The hidden biases after the surgery are the merged biases, cut or zero-padded to the new size. */
  lemma BiasOfResized(net: Net, out1: nat, prev: nat, ms: seq<Merge>, incCount: nat, init: real, draw: nat -> Row, i: nat)
    requires Wired(net, out1) && IsMatching(ms, |net.b0|) && forall t :: |draw(t)| == prev
    requires i < |net.b0| && i < NewSize(|net.b0|, incCount, ms)
    ensures Resized(net, out1, prev, ms, incCount, init, draw).b0[i] == MergeBias(net.b0, ms)[i]
  {
  }

  /** A unit that takes no fresh row keeps its merged and relocated row, cut or padded to prev inputs. */
  lemma NewUnitsKept(U: Matrix, nIn: nat, ms: seq<Merge>, newSize: nat, prev: nat, init: real, draw: nat -> Row, i: nat)
    requires IsMatrix(U, |U|, nIn) && IsMatching(ms, |U|) && forall t :: |draw(t)| == prev
    requires i < newSize && i < |U| && i !in Slots(|U|, ms, newSize)
    ensures NewUnits(U, nIn, ms, newSize, prev, init, draw)[i]
      == Resize(Relocated(MergeRows(U, ms, nIn), Plan(|U|, ms, newSize), Constant(nIn, init))[i], prev)
  {
    var moved := Relocated(MergeRows(U, ms, nIn), Plan(|U|, ms, newSize), Constant(nIn, init));
    RefillKeeps(Embed(moved, newSize, prev), Slots(|U|, ms, newSize), draw, i);
  }

  /** When the layer does not shrink, a unit below n that no merge frees keeps its merged row, cut or padded to prev inputs. */
  lemma NewUnitsGrowKept(U: Matrix, nIn: nat, ms: seq<Merge>, newSize: nat, prev: nat, init: real, draw: nat -> Row, i: nat)
    requires IsMatrix(U, |U|, nIn) && IsMatching(ms, |U|) && forall t :: |draw(t)| == prev
    requires |U| <= newSize && i < |U| && i !in Freed(ms)
    ensures NewUnits(U, nIn, ms, newSize, prev, init, draw)[i] == Resize(MergeRows(U, ms, nIn)[i], prev)
  {
    assert i !in Slots(|U|, ms, newSize);
    NewUnitsKept(U, nIn, ms, newSize, prev, init, draw, i);
    RelocatedEmpty(MergeRows(U, ms, nIn), Constant(nIn, init));
  }

  /** The t-th refilled slot holds the t-th draw. */
  lemma NewUnitsSlot(U: Matrix, nIn: nat, ms: seq<Merge>, newSize: nat, prev: nat, init: real, draw: nat -> Row, t: nat)
    requires IsMatrix(U, |U|, nIn) && IsMatching(ms, |U|) && forall t :: |draw(t)| == prev
    requires t < |Slots(|U|, ms, newSize)|
    ensures NewUnits(U, nIn, ms, newSize, prev, init, draw)[Slots(|U|, ms, newSize)[t]] == draw(t)
  {
    var moved := Relocated(MergeRows(U, ms, nIn), Plan(|U|, ms, newSize), Constant(nIn, init));
    SlotsDistinct(|U|, ms, newSize);
    RefillSets(Embed(moved, newSize, prev), Slots(|U|, ms, newSize), draw, t);
  }

  /**
   * Sizes (DLModels.py:394-399, 421, 444-467): with neither count at one
   * unit the network is returned unchanged; otherwise the layer ends with
   * between n + inc_count - merge_count and n + inc_count units, the first
   * layer keeps prev inputs, and the second layer has a visible bias and a
   * weight row per unit.
   */
  lemma MergeSpecSize(net: Net, out1: nat, prev: nat, score: (nat, nat) -> real, mergePct: real, incPct: real,
                      init: real, draw: nat -> Row)
    requires Wired(net, out1) && CosineBounded(score) && mergePct >= 0.0 && incPct >= 0.0
    requires forall t :: |draw(t)| == prev
    ensures var n, r := |net.b0|, MergeSpec(net, out1, prev, score, mergePct, incPct, init, draw);
      var mergeCount, incCount := UnitCount(mergePct, n), UnitCount(incPct, n);
      && (mergeCount == 0 && incCount == 0 ==> r == net)
      && (mergeCount > 0 || incCount > 0 ==>
            && n + incCount - mergeCount <= |r.b0| <= n + incCount
            && |r.bPrime0| == prev && |r.W1| == |r.b0| && |r.bPrime1| == |r.b0|)
  {
    var n := |net.b0|;
    var mergeCount, incCount := UnitCount(mergePct, n), UnitCount(incPct, n);
    if mergeCount > 0 || incCount > 0 {
      if n == 0 {
        UnitCountEmpty(mergePct);
        UnitCountEmpty(incPct);
      }
      MatchesRanked(score, n, mergeCount);
    }
  }

  /**
   * Growing (inc_count >= the number of merges): a unit outside every
   * merge keeps its input weights, cut or padded to prev inputs, and its
   * bias (DLModels.py:438-439, 444).
   */
  lemma GrowKept(net: Net, out1: nat, prev: nat, ms: seq<Merge>, incCount: nat, init: real, draw: nat -> Row, i: nat)
    requires Wired(net, out1) && IsMatching(ms, |net.b0|) && forall t :: |draw(t)| == prev
    requires |ms| <= incCount && i < |net.b0| && i !in Used(ms)
    ensures var r := Resized(net, out1, prev, ms, incCount, init, draw);
      && Units(r)[i] == Resize(Units(net)[i], prev)
      && r.b0[i] == net.b0[i]
  {
    var n, nIn := |net.b0|, |net.bPrime0|;
    var newSize := NewSize(n, incCount, ms);
    var U := Units(net);
    var r := Resized(net, out1, prev, ms, incCount, init, draw);
    UnusedUntouched(ms, i);
    assert MergeRows(U, ms, nIn)[i] == U[i] by {
      MergeRowsKeeps(U, ms, nIn, i);
    }
    assert Units(r)[i] == Resize(MergeRows(U, ms, nIn)[i], prev) by {
      UnitsOfResized(net, out1, prev, ms, incCount, init, draw);
      NewUnitsGrowKept(U, nIn, ms, newSize, prev, init, draw, i);
    }
    assert MergeBias(net.b0, ms)[i] == net.b0[i] by {
      MergeBiasKeeps(net.b0, ms, i);
    }
    assert r.b0[i] == MergeBias(net.b0, ms)[i] by {
      BiasOfResized(net, out1, prev, ms, incCount, init, draw, i);
    }
  }

  /**
   * Growing: the survivor of the t-th merge holds the average of the two
   * merged units' input weights and biases (DLModels.py:413-414).
   */
  lemma GrowSurvivor(net: Net, out1: nat, prev: nat, ms: seq<Merge>, incCount: nat, init: real, draw: nat -> Row, t: nat)
    requires Wired(net, out1) && IsMatching(ms, |net.b0|) && forall t :: |draw(t)| == prev
    requires |ms| <= incCount && t < |ms|
    ensures var r, U, s, f := Resized(net, out1, prev, ms, incCount, init, draw), Units(net), ms[t].survivor, ms[t].freed;
      && s < |U| && f < |U|
      && Units(r)[s] == Resize(Average(U[s], U[f]), prev)
      && r.b0[s] == (net.b0[s] + net.b0[f]) / 2.0
  {
    var n, nIn := |net.b0|, |net.bPrime0|;
    var newSize := NewSize(n, incCount, ms);
    var U := Units(net);
    var s, f := ms[t].survivor, ms[t].freed;
    var units := NewUnits(U, nIn, ms, newSize, prev, init, draw);
    var r := Resized(net, out1, prev, ms, incCount, init, draw);
    assert f < s < n && s !in Freed(ms) by {
      SurvivorNotFreed(ms, n, t);
    }
    assert MergeRows(U, ms, nIn)[s] == Average(U[s], U[f]) by {
      MergeRowsAverages(U, ms, nIn, t);
    }
    assert units[s] == Resize(MergeRows(U, ms, nIn)[s], prev) by {
      NewUnitsGrowKept(U, nIn, ms, newSize, prev, init, draw, s);
    }
    assert Units(r)[s] == units[s] by {
      UnitsOfResized(net, out1, prev, ms, incCount, init, draw);
    }
    assert MergeBias(net.b0, ms)[s] == (net.b0[s] + net.b0[f]) / 2.0 by {
      MergeBiasAverages(net.b0, ms, t);
    }
    assert r.b0[s] == MergeBias(net.b0, ms)[s] by {
      BiasOfResized(net, out1, prev, ms, incCount, init, draw, s);
    }
  }

  /**
   * Growing: the unit freed by the t-th merge takes the t-th fresh row but
   * keeps its old bias (DLModels.py:441-444).
   */
  lemma GrowFreed(net: Net, out1: nat, prev: nat, ms: seq<Merge>, incCount: nat, init: real, draw: nat -> Row, t: nat)
    requires Wired(net, out1) && IsMatching(ms, |net.b0|) && forall t :: |draw(t)| == prev
    requires |ms| <= incCount && t < |ms|
    ensures var r, f := Resized(net, out1, prev, ms, incCount, init, draw), ms[t].freed;
      && f < |net.b0|
      && Units(r)[f] == draw(t)
      && r.b0[f] == net.b0[f]
  {
    var n, nIn := |net.b0|, |net.bPrime0|;
    var newSize := NewSize(n, incCount, ms);
    var f := ms[t].freed;
    var r := Resized(net, out1, prev, ms, incCount, init, draw);
    assert f < n && MergeBias(net.b0, ms)[f] == net.b0[f] by {
      MergeBiasFreed(net.b0, ms, t);
    }
    assert r.b0[f] == MergeBias(net.b0, ms)[f] by {
      BiasOfResized(net, out1, prev, ms, incCount, init, draw, f);
    }
    assert Units(r)[f] == draw(t) by {
      SlotsFreedAt(n, ms, newSize, t);
      NewUnitsSlot(Units(net), nIn, ms, newSize, prev, init, draw, t);
      UnitsOfResized(net, out1, prev, ms, incCount, init, draw);
    }
  }

  /**
   * Growing: the unit at j, from n up to the new size, is new: it takes
   * the k-th fresh row (the freed slots take the first ones) and a zero
   * bias (DLModels.py:438-444).
   */
  lemma GrowAdded(net: Net, out1: nat, prev: nat, ms: seq<Merge>, incCount: nat, init: real, draw: nat -> Row, j: nat, k: nat)
    requires Wired(net, out1) && IsMatching(ms, |net.b0|) && forall t :: |draw(t)| == prev
    requires |ms| <= incCount && |net.b0| <= j < NewSize(|net.b0|, incCount, ms) && k == |ms| + (j - |net.b0|)
    ensures var r := Resized(net, out1, prev, ms, incCount, init, draw);
      && Units(r)[j] == draw(k)
      && r.b0[j] == 0.0
  {
    var n, nIn := |net.b0|, |net.bPrime0|;
    var newSize := NewSize(n, incCount, ms);
    var units := NewUnits(Units(net), nIn, ms, newSize, prev, init, draw);
    assert units[j] == draw(k) by {
      SlotsAddedAt(n, ms, newSize, j, k);
      NewUnitsSlot(Units(net), nIn, ms, newSize, prev, init, draw, k);
    }
    assert Units(Resized(net, out1, prev, ms, incCount, init, draw))[j] == units[j] by {
      UnitsOfResized(net, out1, prev, ms, incCount, init, draw);
    }
  }

  /**
   * Growing: the next layer's weight row and visible bias of each unit
   * below n stay as they were, and those of a new unit are zero
   * (DLModels.py:461-467).
   */
  lemma GrowDownstream(net: Net, out1: nat, prev: nat, ms: seq<Merge>, incCount: nat, init: real, draw: nat -> Row, i: nat)
    requires Wired(net, out1) && IsMatching(ms, |net.b0|) && forall t :: |draw(t)| == prev
    requires |ms| <= incCount && i < NewSize(|net.b0|, incCount, ms)
    ensures var r := Resized(net, out1, prev, ms, incCount, init, draw);
      && (i < |net.b0| ==> r.W1[i] == net.W1[i] && r.bPrime1[i] == net.bPrime1[i])
      && (|net.b0| <= i ==> r.W1[i] == Zeros(out1) && r.bPrime1[i] == 0.0)
  {
    RelocatedEmpty(net.W1, Zeros(out1));
  }

  /**
   * Shrinking (more merges than inc_count): a freed slot that stays in the
   * layer takes the input weights and outgoing weights of the unit prev_map
   * sends into it, but keeps its own old bias (DLModels.py:429-430, 444,
   * 463-464).
   */
  lemma ShrinkFilled(net: Net, out1: nat, prev: nat, ms: seq<Merge>, incCount: nat, init: real, draw: nat -> Row, d: nat)
    requires Wired(net, out1) && IsMatching(ms, |net.b0|) && forall t :: |draw(t)| == prev
    requires incCount < |ms| && d in Freed(ms) && d < NewSize(|net.b0|, incCount, ms)
    ensures var r, pm := Resized(net, out1, prev, ms, incCount, init, draw), Plan(|net.b0|, ms, NewSize(|net.b0|, incCount, ms));
      && d in pm
      && Units(r)[d] == Resize(MergeRows(Units(net), ms, |net.bPrime0|)[pm[d]], prev)
      && r.b0[d] == net.b0[d]
      && r.W1[d] == net.W1[pm[d]]
  {
    var n, nIn := |net.b0|, |net.bPrime0|;
    var newSize := NewSize(n, incCount, ms);
    var pm := Plan(n, ms, newSize);
    var r := Resized(net, out1, prev, ms, incCount, init, draw);
    assert d in pm by {
      PlanKeys(n, ms, newSize);
    }
    assert Units(r)[d] == Resize(MergeRows(Units(net), ms, nIn)[pm[d]], prev) by {
      UnitsOfResized(net, out1, prev, ms, incCount, init, draw);
      NewUnitsKept(Units(net), nIn, ms, newSize, prev, init, draw, d);
    }
    assert MergeBias(net.b0, ms)[d] == net.b0[d] by {
      MergeBiasFreedSlot(net.b0, ms, d);
    }
    assert r.b0[d] == MergeBias(net.b0, ms)[d] by {
      BiasOfResized(net, out1, prev, ms, incCount, init, draw, d);
    }
  }

  /**
   * Shrinking: a unit prev_map moves away and that stays in the layer is
   * overwritten with the constant init row and gets zero outgoing weights,
   * while its bias stays where it was (DLModels.py:431, 444, 465).
   */
  lemma ShrinkEmptied(net: Net, out1: nat, prev: nat, ms: seq<Merge>, incCount: nat, init: real, draw: nat -> Row, src: nat)
    requires Wired(net, out1) && IsMatching(ms, |net.b0|) && forall t :: |draw(t)| == prev
    requires incCount < |ms| && src < NewSize(|net.b0|, incCount, ms)
    requires src in Plan(|net.b0|, ms, NewSize(|net.b0|, incCount, ms)).Values
    ensures var r := Resized(net, out1, prev, ms, incCount, init, draw);
      && Units(r)[src] == Resize(Constant(|net.bPrime0|, init), prev)
      && r.b0[src] == MergeBias(net.b0, ms)[src]
      && r.W1[src] == Zeros(out1)
  {
    var n, nIn := |net.b0|, |net.bPrime0|;
    var newSize := NewSize(n, incCount, ms);
    assert Units(Resized(net, out1, prev, ms, incCount, init, draw))[src] == Resize(Constant(nIn, init), prev) by {
      UnitsOfResized(net, out1, prev, ms, incCount, init, draw);
      NewUnitsKept(Units(net), nIn, ms, newSize, prev, init, draw, src);
    }
  }

  /**
   * Shrinking: a unit that is neither freed nor moved and that stays in the
   * layer keeps its merged input weights, its merged bias and its outgoing
   * weights.
   */
  lemma ShrinkStays(net: Net, out1: nat, prev: nat, ms: seq<Merge>, incCount: nat, init: real, draw: nat -> Row, i: nat)
    requires Wired(net, out1) && IsMatching(ms, |net.b0|) && forall t :: |draw(t)| == prev
    requires incCount < |ms| && i < NewSize(|net.b0|, incCount, ms) && i !in Freed(ms)
    requires i !in Plan(|net.b0|, ms, NewSize(|net.b0|, incCount, ms)).Values
    ensures var r := Resized(net, out1, prev, ms, incCount, init, draw);
      && Units(r)[i] == Resize(MergeRows(Units(net), ms, |net.bPrime0|)[i], prev)
      && r.b0[i] == MergeBias(net.b0, ms)[i]
      && r.W1[i] == net.W1[i]
  {
    var n, nIn := |net.b0|, |net.bPrime0|;
    var newSize := NewSize(n, incCount, ms);
    assert Units(Resized(net, out1, prev, ms, incCount, init, draw))[i] == Resize(MergeRows(Units(net), ms, nIn)[i], prev) by {
      UnitsOfResized(net, out1, prev, ms, incCount, init, draw);
      NewUnitsKept(Units(net), nIn, ms, newSize, prev, init, draw, i);
    }
  }



  /** The merges 1 <- 0 and 3 <- 2 form a matching over four units whose freed slots are 0 and 2. */
  lemma TwoMergeMatching(ms: seq<Merge>)
    requires ms == [Merge(1, 0), Merge(3, 2)]
    ensures IsMatching(ms, 4) && Freed(ms) == [0, 2]
  {
    var first: seq<Merge> := [];
    assert IsMatching(first, 4) && Used(first) == {};
    MatchingSnoc(first, 4, Merge(1, 0));
    UsedSnoc(first, Merge(1, 0));
    assert first + [Merge(1, 0)] == [Merge(1, 0)] && [Merge(1, 0)] + [Merge(3, 2)] == ms;
    MatchingSnoc([Merge(1, 0)], 4, Merge(3, 2));
  }

  /** After the merges 1 <- 0 and 3 <- 2, unit 3 holds the average of the old units 3 and 2. */
  lemma TwoMergeRows(U: Matrix, ms: seq<Merge>, nIn: nat)
    requires IsMatrix(U, 4, nIn) && ms == [Merge(1, 0), Merge(3, 2)]
    ensures IsMatching(ms, 4) && MergeRows(U, ms, nIn)[3] == Average(U[3], U[2])
  {
    TwoMergeMatching(ms);
    assert [] + [Merge(1, 0)] == [Merge(1, 0)] && [Merge(1, 0)] + [Merge(3, 2)] == ms;
    MergeRowsSnoc(U, [], nIn, Merge(1, 0));
    MergeRowsSnoc(U, [Merge(1, 0)], nIn, Merge(3, 2));
  }

  /** The plan for shrinking four units by the merges 1 <- 0 and 3 <- 2: slot 0 takes unit 3, slot 2 takes unit 1. */
  lemma TwoMergePlan(ms: seq<Merge>)
    requires ms == [Merge(1, 0), Merge(3, 2)]
    ensures IsMatching(ms, 4)
    ensures var pm := Plan(4, ms, 2); 0 in pm && pm[0] == 3 && 2 in pm && pm[2] == 1
  {
    TwoMergeMatching(ms);
    assert Plan(4, ms, 2) == PrevMap(4, [0, 2]) by {
      PlanShrinks(4, ms, 2);
    }
    PrevMapZeroTwo();
  }

  /**
   * Shrinking four units by two merges, unit 1 absorbing unit 0 and unit 3
   * absorbing unit 2: prev_map sends unit 3 into slot 0 and unit 1 into
   * slot 2, and the cut to two units then drops slot 2. Slot 1 is left with
   * the constant init row, so the merge of units 0 and 1 is not in the
   * resized layer at all.
   */
  lemma ShrinkScenario(net: Net, out1: nat, prev: nat, ms: seq<Merge>, incCount: nat, init: real, draw: nat -> Row)
    requires Wired(net, out1) && |net.b0| == 4 && forall t :: |draw(t)| == prev
    requires ms == [Merge(1, 0), Merge(3, 2)] && incCount == 0
    ensures IsMatching(ms, 4) && NewSize(4, incCount, ms) == 2
    ensures var pm := Plan(4, ms, 2); 0 in pm && pm[0] == 3 && 2 in pm && pm[2] == 1
    ensures var r, U, nIn := Resized(net, out1, prev, ms, incCount, init, draw), Units(net), |net.bPrime0|;
      && |Units(r)| == 2
      && Units(r)[0] == Resize(Average(U[3], U[2]), prev)
      && Units(r)[1] == Resize(Constant(nIn, init), prev)
  {
    TwoMergePlan(ms);
    var r, U, nIn := Resized(net, out1, prev, ms, incCount, init, draw), Units(net), |net.bPrime0|;
    assert Units(r)[0] == Resize(Average(U[3], U[2]), prev) by {
      assert MergeRows(U, ms, nIn)[3] == Average(U[3], U[2]) by {
        TwoMergeRows(U, ms, nIn);
      }
      assert 0 in Freed(ms) by {
        assert Freed(ms)[0] == 0;
      }
      ShrinkFilled(net, out1, prev, ms, incCount, init, draw, 0);
    }
    assert Units(r)[1] == Resize(Constant(nIn, init), prev) by {
      assert 1 in Plan(4, ms, 2).Values;
      ShrinkEmptied(net, out1, prev, ms, incCount, init, draw, 1);
    }
  }

  /** A layer of the stacked autoencoder: its weights, hidden biases, visible biases and the size it was built with. */
  class Layer {
    var W: Matrix
    var b: seq<real>
    var bPrime: seq<real>
    const initialSize: (nat, nat)

    constructor (W: Matrix, b: seq<real>, bPrime: seq<real>, initialSize: (nat, nat))
      ensures this.W == W && this.b == b && this.bPrime == bPrime && this.initialSize == initialSize
    {
      this.W, this.b, this.bPrime, this.initialSize := W, b, bPrime, initialSize;
    }
  }

  /**
   * The body of merge_model (DLModels.py:371-472) on the parameter values,
   * step by step as the source does it: the result is exactly MergeSpec.
   */
  method MergeNet(net: Net, out1: nat, prev: nat, score: (nat, nat) -> real, mergePct: real, incPct: real,
                  init: real, draw: nat -> Row) returns (r: Net)
    requires Wired(net, out1) && CosineBounded(score) && mergePct >= 0.0 && incPct >= 0.0
    requires forall t :: |draw(t)| == prev
    ensures r == MergeSpec(net, out1, prev, score, mergePct, incPct, init, draw)
  {
    var n, nIn := |net.b0|, |net.bPrime0|;
    var prevDimensions := prev;
    var layerWeights := Transpose(net.W0, nIn, n);
    var layerBias := net.b0;
    var mergeCount := UnitCount(mergePct, n);
    var incCount := UnitCount(incPct, n);
    if mergeCount == 0 && incCount == 0 {
      return net;
    }
    assert n > 0 by {
      if n == 0 {
        UnitCountEmpty(mergePct);
        UnitCountEmpty(incPct);
      }
    }
    var ranked := RankMerges(score, n);
    var emptySlots;
    layerWeights, layerBias, emptySlots := MatchPairs(ranked, n, mergeCount, layerWeights, nIn, layerBias);
    ghost var ms := Greedy(ranked, n, mergeCount, []);
    ghost var merged := layerWeights;
    assert |ms| <= n by {
      MatchingFits(ms, n);
    }
    var newSize := n + incCount - |emptySlots|;
    assert newSize == NewSize(n, incCount, ms);
    var prevMap: map<nat, nat> := map[];
    if newSize < n {
      prevMap := PrevMap(n, emptySlots);
      assert prevMap == Plan(n, ms, newSize);
      layerWeights := MoveRows(layerWeights, prevMap, Constant(nIn, init));
      emptySlots := [];
    } else {
      assert layerWeights == Relocated(merged, map[], Constant(nIn, init)) by {
        RelocatedEmpty(merged, Constant(nIn, init));
      }
    }
    assert prevMap == Plan(n, ms, newSize);
    assert layerWeights == Relocated(merged, prevMap, Constant(nIn, init));
    var newLayerWeights := Embed(layerWeights, newSize, prevDimensions);
    emptySlots := Below(emptySlots, newSize) + Span(n, newSize);
    assert emptySlots == Slots(n, ms, newSize);
    newLayerWeights := Refill(newLayerWeights, emptySlots, draw);
    assert newLayerWeights == NewUnits(Units(net), nIn, ms, newSize, prev, init, draw);
    layerBias := Resize(layerBias, newSize);
    var layerBiasPrime := Resize(net.bPrime0, prevDimensions);
    prevDimensions := newSize;
    var lastLayerWeights := MoveRows(net.W1, prevMap, Zeros(out1));
    assert IsMatrix(lastLayerWeights, n, out1) by {
      RelocatedShape(net.W1, n, out1, prevMap, Zeros(out1));
    }
    var lastLayerPrime := Resize(net.bPrime1, prevDimensions);
    r := Net(Transpose(newLayerWeights, newSize, prev), layerBias, layerBiasPrime,
             ResizeRows(lastLayerWeights, prevDimensions, out1), lastLayerPrime);
    assert r == Resized(net, out1, prev, ms, incCount, init, draw) by {
      assert r.W1 == NewDownstream(net.W1, out1, Plan(n, ms, newSize), newSize);
    }
  }

  /**
   * merge_model (DLModels.py:371-472) on the two layers: the new parameters
   * are exactly those MergeSpec gives for the old ones, and the second
   * layer's hidden biases are left alone.
   */
  method MergeModel(l0: Layer, l1: Layer, score: (nat, nat) -> real, mergePct: real, incPct: real,
                    init: real, draw: nat -> Row)
    requires l0 != l1
    requires Wired(Net(l0.W, l0.b, l0.bPrime, l1.W, l1.bPrime), l1.initialSize.1)
    requires CosineBounded(score) && mergePct >= 0.0 && incPct >= 0.0
    requires forall t :: |draw(t)| == l0.initialSize.0
    modifies l0, l1
    ensures Net(l0.W, l0.b, l0.bPrime, l1.W, l1.bPrime)
      == MergeSpec(old(Net(l0.W, l0.b, l0.bPrime, l1.W, l1.bPrime)), l1.initialSize.1, l0.initialSize.0,
                   score, mergePct, incPct, init, draw)
    ensures l1.b == old(l1.b)
  {
    var r := MergeNet(Net(l0.W, l0.b, l0.bPrime, l1.W, l1.bPrime), l1.initialSize.1, l0.initialSize.0,
                      score, mergePct, incPct, init, draw);
    l0.W, l0.b, l0.bPrime := r.W0, r.b0, r.bPrime0;
    l1.W, l1.bPrime := r.W1, r.bPrime1;
  }
}
