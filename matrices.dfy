/**
 * Dense real matrices as lists of rows, and the numpy reshaping operations
 * that the network surgery applies to weight and bias tensors.
 */
module Matrices {

  type Row = seq<real>
  type Matrix = seq<Row>

  /** m has the given number of rows, each with the given number of entries. */
  predicate IsMatrix(m: Matrix, rows: nat, cols: nat) {
    |m| == rows && forall i :: 0 <= i < rows ==> |m[i]| == cols
  }

  /** np.zeros(n) */
  function Zeros(n: nat): (r: Row)
    ensures |r| == n && forall j :: 0 <= j < n ==> r[j] == 0.0
  {
    seq(n, _ => 0.0)
  }

  /** A row that holds x in every entry (a uniform draw whose low and high bounds coincide). */
  function Constant(n: nat, x: real): (r: Row)
    ensures |r| == n && forall j :: 0 <= j < n ==> r[j] == x
  {
    seq(n, _ => x)
  }

  /** Elementwise (a + b) / 2. */
  function Average(a: Row, b: Row): (r: Row)
    requires |a| == |b|
    ensures |r| == |a|
  {
    seq(|a|, j requires 0 <= j < |a| => (a[j] + b[j]) / 2.0)
  }

  /** ndarray.resize on a vector: the first entries are kept, missing ones are zero. */
  function Resize(v: seq<real>, n: nat): (r: seq<real>)
    ensures |r| == n
    ensures forall j :: 0 <= j < n && j < |v| ==> r[j] == v[j]
    ensures forall j :: |v| <= j < n ==> r[j] == 0.0
  {
    if n <= |v| then v[..n] else v + Zeros(n - |v|)
  }

  /**
   * ndarray.resize of a matrix to (rows, cols) when its rows already have cols
   * entries: row-major storage keeps the first rows and appends zero rows.
   */
  function ResizeRows(m: Matrix, rows: nat, cols: nat): (r: Matrix)
    requires forall i :: 0 <= i < |m| ==> |m[i]| == cols
    ensures IsMatrix(r, rows, cols)
    ensures forall i :: 0 <= i < rows && i < |m| ==> r[i] == m[i]
    ensures forall i :: |m| <= i < rows ==> r[i] == Zeros(cols)
  {
    var r := seq(rows, i requires 0 <= i < rows => if i < |m| then m[i] else Zeros(cols));
    assert forall i :: 0 <= i < rows ==> |r[i]| == cols by {
      forall i | 0 <= i < rows ensures |r[i]| == cols {
        if i < |m| {
          assert r[i] == m[i];
        } else {
          assert r[i] == Zeros(cols);
        }
      }
    }
    r
  }

  /** The transpose of a rows x cols matrix (numpy's .T). */
  function Transpose(m: Matrix, rows: nat, cols: nat): (r: Matrix)
    requires IsMatrix(m, rows, cols)
    ensures IsMatrix(r, cols, rows)
    ensures forall j, i :: 0 <= j < cols && 0 <= i < rows ==> r[j][i] == m[i][j]
  {
    seq(cols, j requires 0 <= j < cols => seq(rows, i requires 0 <= i < rows => m[i][j]))
  }

  /** Transposing twice gives the matrix back, so the orientation change of the surgery loses nothing. */
  lemma TransposeTwice(m: Matrix, rows: nat, cols: nat)
    requires IsMatrix(m, rows, cols)
    ensures Transpose(Transpose(m, rows, cols), cols, rows) == m
  {
    var t := Transpose(Transpose(m, rows, cols), cols, rows);
    assert forall i :: 0 <= i < rows ==> t[i] == m[i];
  }
}
