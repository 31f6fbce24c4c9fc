/**
 * The two pieces of DeepAutoencoder (DLModels.py) that are index logic
 * rather than cost formulas:
 *
 *  - get_hard_examples: the examples of a batch whose reconstruction cost
 *    lies in the upper half, found by argsorting the per-example cost
 *    vector and keeping the positions from len // 2 on;
 *  - indexed_train_func: a gradient step that touches only the hidden
 *    units (columns of W, entries of b) listed in the layer's idx vector.
 *
 * Costs and gradients are inputs: the symbolic graph that computes them is
 * not modelled. A layer's W is stored as Theano keeps it, one row per input
 * and one column per hidden unit, so W has |bPrime| rows and |b| columns.
 */
module DeepAutoencoder {
  import opened Matrices
  import opened Sorting

  // ---------------------------------------------------------------------
  // Hard-example selection (DLModels.py:186)
  // ---------------------------------------------------------------------

  /**
   * T.argsort(cost_vector)[cost_vector.shape[0] // 2:]: len - len // 2
   * distinct example indices, in ascending order of cost, and none of the
   * examples left out costs more than any example kept.
   */
  function HardExampleIndexes(cost: seq<real>): (hard: seq<nat>)
    ensures |hard| == |cost| - |cost| / 2
    ensures Distinct(hard) && InBounds(hard, cost) && SortedBy(hard, cost)
    ensures forall i, j :: 0 <= i < |hard| && 0 <= j < |cost| && j !in hard ==> cost[j] <= cost[hard[i]]
  {
    var sorted := ArgSort(cost);
    var h := |cost| / 2;
    var hard := sorted[h..];
    SortedSuffix(sorted, cost, h);
    forall i, j | 0 <= i < |hard| && 0 <= j < |cost| && j !in hard ensures cost[j] <= cost[hard[i]] {
      assert j in sorted;
      var p :| 0 <= p < |sorted| && sorted[p] == j;
      if p >= h {
        assert false;
      }
      assert hard[i] == sorted[h + i];
    }
    hard
  }

  /**
   * Costs 0.1, 0.9, 0.3, 0.7: the sorted order is 0, 2, 3, 1 and the upper
   * half is 3, 1.
   */
  lemma HardExamplesScenario(cost: seq<real>)
    requires cost == [0.1, 0.9, 0.3, 0.7]
    ensures HardExampleIndexes(cost) == [3, 1]
  {
    UpperHalfOfFour(cost, HardExampleIndexes(cost));
  }

  /**
   * The selection is the upper half by rank, not the examples above the
   * mean cost: with costs 0, 0, 0, 10 (mean 2.5) two examples are chosen,
   * at most one of them is example 3, so one chosen example costs 0.
   */
  lemma HardExamplesBelowMean(cost: seq<real>)
    requires cost == [0.0, 0.0, 0.0, 10.0]
    ensures exists i :: 0 <= i < |HardExampleIndexes(cost)| && cost[HardExampleIndexes(cost)[i]] < 2.5
  {
    var hard := HardExampleIndexes(cost);
    assert |hard| == 2 && hard[0] != hard[1];
    var i := if hard[0] != 3 then 0 else 1;
    assert hard[i] < 3;
  }

  /** Any two distinct examples of the four, ordered by cost, that no left-out example outcosts are 3 then 1. */
  lemma UpperHalfOfFour(cost: seq<real>, hard: seq<nat>)
    requires cost == [0.1, 0.9, 0.3, 0.7]
    requires |hard| == 2 && Distinct(hard) && InBounds(hard, cost) && SortedBy(hard, cost)
    requires forall i, j :: 0 <= i < |hard| && 0 <= j < |cost| && j !in hard ==> cost[j] <= cost[hard[i]]
    ensures hard == [3, 1]
  {
    var h0, h1 := hard[0], hard[1];
    assert hard == [h0, h1];
    // were example 1 or 3 left out, it would cost more than a kept example
    if 1 !in hard {
      assert false;
    }
    if 3 !in hard {
      assert false;
    }
    assert cost[h0] <= cost[h1];
  }

  // ---------------------------------------------------------------------
  // Indexed update (DLModels.py:156-171)
  // ---------------------------------------------------------------------

  datatype Error = IndexOutOfRange | ShapeMismatch

  datatype Result<T> = Ok(value: T) | Err(error: Error)

  /** The three tensors of a layer. */
  datatype Params = Params(W: Matrix, b: seq<real>, bPrime: seq<real>)

  /** W has one row per input (|bPrime|) and one column per hidden unit (|b|). */
  predicate WellShaped(p: Params) {
    IsMatrix(p.W, |p.bPrime|, |p.b|)
  }

  /** Two parameter sets of the same shape, such as a layer and its gradient. */
  predicate SameShape(p: Params, q: Params) {
    WellShaped(p) && WellShaped(q) && |p.b| == |q.b| && |p.bPrime| == |q.bPrime|
  }

  /** The sum of the y[t] whose index idx[t] is j: what an advanced-index increment adds at j. */
  function SumAt(idx: seq<nat>, j: nat, y: seq<real>): real
    requires |y| == |idx|
    decreases |idx|
  {
    if idx == [] then 0.0
    else SumAt(idx[..|idx| - 1], j, y[..|y| - 1]) + (if idx[|idx| - 1] == j then y[|y| - 1] else 0.0)
  }

  lemma {:induction false} SumAtAbsent(idx: seq<nat>, j: nat, y: seq<real>)
    requires |y| == |idx| && j !in idx
    ensures SumAt(idx, j, y) == 0.0
    decreases |idx|
  {
    if idx != [] {
      SumAtAbsent(idx[..|idx| - 1], j, y[..|y| - 1]);
    }
  }

  lemma {:induction false} SumAtOnce(idx: seq<nat>, t: nat, y: seq<real>)
    requires |y| == |idx| && t < |idx| && Distinct(idx)
    ensures SumAt(idx, idx[t], y) == y[t]
    decreases |idx|
  {
    var last := |idx| - 1;
    if t == last {
      SumAtAbsent(idx[..last], idx[t], y[..last]);
    } else {
      SumAtOnce(idx[..last], t, y[..last]);
    }
  }

  /** inc_subtensor(v[idx], y): each entry idx[t] of v grows by y[t]; repeated indices add up. */
  function IncEntries(v: seq<real>, idx: seq<nat>, y: seq<real>): (r: seq<real>)
    requires |y| == |idx|
    ensures |r| == |v|
  {
    seq(|v|, j requires 0 <= j < |v| => v[j] + SumAt(idx, j, y))
  }

  /** inc_subtensor(W[:, idx], Y) on a rows x cols matrix, Y having one column per entry of idx. */
  function IncColumns(W: Matrix, rows: nat, cols: nat, idx: seq<nat>, Y: Matrix): (r: Matrix)
    requires IsMatrix(W, rows, cols) && IsMatrix(Y, rows, |idx|)
    ensures IsMatrix(r, rows, cols)
  {
    seq(rows, i requires 0 <= i < rows => IncEntries(W[i], idx, Y[i]))
  }

  /** G[:, idx], the columns idx of G in the order idx lists them. */
  function Gather(G: Matrix, rows: nat, cols: nat, idx: seq<nat>): (r: Matrix)
    requires IsMatrix(G, rows, cols) && forall t :: 0 <= t < |idx| ==> idx[t] < cols
    ensures IsMatrix(r, rows, |idx|)
  {
    seq(rows, i requires 0 <= i < rows => seq(|idx|, t requires 0 <= t < |idx| => G[i][idx[t]]))
  }

  /** c * m entrywise. */
  function ScaleMatrix(c: real, m: Matrix, rows: nat, cols: nat): (r: Matrix)
    requires IsMatrix(m, rows, cols)
    ensures IsMatrix(r, rows, cols)
  {
    seq(rows, i requires 0 <= i < rows => Scale(c, m[i]))
  }

  /** c * v entrywise. */
  function Scale(c: real, v: seq<real>): (r: seq<real>)
    ensures |r| == |v|
  {
    seq(|v|, j requires 0 <= j < |v| => c * v[j])
  }

  /** v - c * g entrywise: a plain gradient step. */
  function Step(v: seq<real>, c: real, g: seq<real>): (r: seq<real>)
    requires |g| == |v|
    ensures |r| == |v|
  {
    seq(|v|, j requires 0 <= j < |v| => v[j] - c * g[j])
  }

  predicate IndexesInRange(idx: seq<nat>, n: nat) {
    forall t :: 0 <= t < |idx| ==> idx[t] < n
  }

  /**
   * indexed_train_func's update of one layer, as evidently intended: the
   * columns idx of W and the entries idx of b take a step against the
   * gradient g (repeated indices step repeatedly, as Theano's increment
   * adds them up), b_prime takes a plain step, and an index past the last
   * hidden unit is an error.
   */
  function IndexedUpdate(p: Params, g: Params, idx: seq<nat>, lr: real): (r: Result<Params>)
    requires SameShape(p, g)
    ensures r.Ok? <==> IndexesInRange(idx, |p.b|)
    ensures r.Ok? ==> SameShape(r.value, p)
    ensures r.Ok? ==> forall i :: 0 <= i < |p.bPrime| ==> r.value.bPrime[i] == p.bPrime[i] - lr * g.bPrime[i]
  {
    var rows, cols := |p.bPrime|, |p.b|;
    if !IndexesInRange(idx, cols) then Err(IndexOutOfRange)
    else
      var delta := ScaleMatrix(-lr, Gather(g.W, rows, cols, idx), rows, |idx|);
      var db := seq(|idx|, t requires 0 <= t < |idx| => -lr * g.b[idx[t]]);
      Ok(Params(IncColumns(p.W, rows, cols, idx, delta), IncEntries(p.b, idx, db), Step(p.bPrime, lr, g.bPrime)))
  }

  /**
   * Only the listed units move: a hidden unit not in idx keeps its column
   * of W and its bias, and a unit listed once takes exactly one gradient
   * step in both.
   */
  lemma IndexedUpdateTouchesOnlyIdx(p: Params, g: Params, idx: seq<nat>, lr: real, j: nat)
    requires SameShape(p, g) && IndexesInRange(idx, |p.b|) && j < |p.b|
    ensures var q := IndexedUpdate(p, g, idx, lr).value;
      && (j !in idx ==> q.b[j] == p.b[j] && forall i :: 0 <= i < |p.bPrime| ==> q.W[i][j] == p.W[i][j])
      && (Distinct(idx) && j in idx ==>
            q.b[j] == p.b[j] - lr * g.b[j] && forall i :: 0 <= i < |p.bPrime| ==> q.W[i][j] == p.W[i][j] - lr * g.W[i][j])
  {
    var rows, cols := |p.bPrime|, |p.b|;
    var delta := ScaleMatrix(-lr, Gather(g.W, rows, cols, idx), rows, |idx|);
    var db := seq(|idx|, t requires 0 <= t < |idx| => -lr * g.b[idx[t]]);
    var q := IndexedUpdate(p, g, idx, lr).value;
    assert q.b[j] == p.b[j] + SumAt(idx, j, db);
    if j !in idx {
      SumAtAbsent(idx, j, db);
      forall i | 0 <= i < rows ensures q.W[i][j] == p.W[i][j] {
        assert q.W[i][j] == p.W[i][j] + SumAt(idx, j, delta[i]);
        SumAtAbsent(idx, j, delta[i]);
      }
    } else if Distinct(idx) {
      var t :| 0 <= t < |idx| && idx[t] == j;
      SumAtOnce(idx, t, db);
      forall i | 0 <= i < rows ensures q.W[i][j] == p.W[i][j] - lr * g.W[i][j] {
        assert q.W[i][j] == p.W[i][j] + SumAt(idx, j, delta[i]);
        SumAtOnce(idx, t, delta[i]);
      }
    }
  }

  /** An empty index list leaves W and b as they are. */
  lemma IndexedUpdateEmpty(p: Params, g: Params, lr: real)
    requires SameShape(p, g)
    ensures IndexedUpdate(p, g, [], lr).Ok?
    ensures IndexedUpdate(p, g, [], lr).value.W == p.W && IndexedUpdate(p, g, [], lr).value.b == p.b
  {
    var q := IndexedUpdate(p, g, [], lr).value;
    forall j | 0 <= j < |p.b| ensures q.b[j] == p.b[j] && forall i :: 0 <= i < |p.bPrime| ==> q.W[i][j] == p.W[i][j] {
      IndexedUpdateTouchesOnlyIdx(p, g, [], lr, j);
    }
    forall i | 0 <= i < |p.bPrime| ensures q.W[i] == p.W[i] {
      assert forall j :: 0 <= j < |p.b| ==> q.W[i][j] == p.W[i][j];
    }
  }

  /**
   * indexed_train_func's update as written (DLModels.py:164-166): the
   * gathered gradient columns are transposed before the increment, which
   * only has the shape of W[:, idx] when idx lists exactly as many units as
   * the layer has inputs, and b_prime is replaced by the step instead of
   * being moved by it.
   */
  function IndexedUpdateAsWritten(p: Params, g: Params, idx: seq<nat>, lr: real): (r: Result<Params>)
    requires SameShape(p, g)
    ensures r.Ok? <==> IndexesInRange(idx, |p.b|) && |idx| == |p.bPrime|
    ensures r.Ok? ==> SameShape(r.value, p) && r.value.bPrime == Scale(-lr, g.bPrime)
  {
    var rows, cols := |p.bPrime|, |p.b|;
    if !IndexesInRange(idx, cols) then Err(IndexOutOfRange)
    else if |idx| != rows then Err(ShapeMismatch)
    else
      var delta := ScaleMatrix(-lr, Transpose(Gather(g.W, rows, cols, idx), rows, |idx|), rows, |idx|);
      var db := seq(|idx|, t requires 0 <= t < |idx| => -lr * g.b[idx[t]]);
      Ok(Params(IncColumns(p.W, rows, cols, idx, delta), IncEntries(p.b, idx, db), Scale(-lr, g.bPrime)))
  }

  /**
   * A layer with two inputs and two hidden units, retraining unit 0 only:
   * the update as written fails on the shape of the transposed gradient,
   * where the intended update succeeds.
   */
  lemma TransposedGradientRejected()
    ensures var p := Params([[1.0, 2.0], [3.0, 4.0]], [0.0, 0.0], [0.0, 0.0]);
      IndexedUpdateAsWritten(p, p, [0], 0.5) == Err(ShapeMismatch) && IndexedUpdate(p, p, [0], 0.5).Ok?
  {
  }

  /**
   * With a zero gradient the intended step leaves b_prime alone, while the
   * update as written overwrites it with zeros.
   */
  lemma BiasPrimeOverwritten()
    ensures var p := Params([[1.0]], [0.0], [1.0]);
      var g := Params([[0.0]], [0.0], [0.0]);
      IndexedUpdateAsWritten(p, g, [0], 0.5).value.bPrime == [0.0]
      && IndexedUpdate(p, g, [0], 0.5).value.bPrime == [1.0]
  {
    var p := Params([[1.0]], [0.0], [1.0]);
    var g := Params([[0.0]], [0.0], [0.0]);
    assert Step(p.bPrime, 0.5, g.bPrime)[0] == 1.0;
    assert Scale(-0.5, g.bPrime)[0] == 0.0;
  }
}
