/**
 * The two free helpers at the top of DLModels.py that the Transformer
 * classes are built from: chained_output, which pushes an input through a
 * sequence of layers, and iterations_shim, which wraps a compiled training
 * function so that callers can ask for several passes per call.
 *
 * A layer's output is an input here: output(layer, x) stands for
 * layer.output(x), the symbolic expression the layer builds. A compiled
 * training function is modelled by its effect on the parameter state,
 * step: S -> S.
 */
module Transformer {

  /** chained_output(layers, x): functools.reduce of layer.output over layers, starting from x. */
  function ChainedOutput<L, X>(layers: seq<L>, x: X, output: (L, X) -> X): X
    decreases |layers|
  {
    if layers == [] then x else ChainedOutput(layers[1..], output(layers[0], x), output)
  }

  /** The empty chain is the identity, the transform the stacked autoencoder gives its first layer. */
  lemma ChainedOutputEmpty<L, X>(x: X, output: (L, X) -> X)
    ensures ChainedOutput([], x, output) == x
  {
  }

  /**
   * Chaining layers then one more layer applies that layer last: the input
   * of layer arc in StackedAutoencoder.train_func is the output of the
   * layers below it, in order.
   */
  lemma {:induction false} ChainedOutputSnoc<L, X>(layers: seq<L>, l: L, x: X, output: (L, X) -> X)
    ensures ChainedOutput(layers + [l], x, output) == output(l, ChainedOutput(layers, x, output))
    decreases |layers|
  {
    if layers != [] {
      assert (layers + [l])[1..] == layers[1..] + [l];
      ChainedOutputSnoc(layers[1..], l, output(layers[0], x), output);
    }
  }

  /** Chaining two runs of layers is chaining the second on the output of the first. */
  lemma {:induction false} ChainedOutputAppend<L, X>(a: seq<L>, b: seq<L>, x: X, output: (L, X) -> X)
    ensures ChainedOutput(a + b, x, output) == ChainedOutput(b, ChainedOutput(a, x, output), output)
    decreases |a|
  {
    if a == [] {
      assert a + b == b;
    } else {
      assert (a + b)[1..] == a[1..] + b;
      ChainedOutputAppend(a[1..], b, output(a[0], x), output);
    }
  }

  /** The layer-by-layer prefix form: chaining the first k+1 layers is layer k applied to the first k. */
  lemma ChainedOutputPrefix<L, X>(layers: seq<L>, k: nat, x: X, output: (L, X) -> X)
    requires k < |layers|
    ensures ChainedOutput(layers[..k + 1], x, output) == output(layers[k], ChainedOutput(layers[..k], x, output))
  {
    assert layers[..k + 1] == layers[..k] + [layers[k]];
    ChainedOutputSnoc(layers[..k], layers[k], x, output);
  }

  /**
   * iterations_shim(func, iterations) as written: it builds a closure that
   * would call func iterations times, then returns func itself.
   */
  function IterationsShim<S>(func: S -> S, iterations: int): (shim: S -> S)
  {
    func
  }

  /** One call of what the shim returns is one call of func, whatever iterations is. */
  lemma ShimIgnoresIterations<S>(func: S -> S, iterations: int, s: S)
    ensures IterationsShim(func, iterations)(s) == func(s)
  {
  }

  /** The closure the shim builds and drops: func called iterations times in a row (range of a negative count is empty). */
  function RepeatedCalls<S>(func: S -> S, iterations: int, s: S): S
    decreases if iterations < 0 then 0 else iterations
  {
    if iterations <= 0 then s else func(RepeatedCalls(func, iterations - 1, s))
  }

  /** Running the closure for a then b iterations is running it for a + b. */
  lemma {:induction false} RepeatedCallsAdd<S>(func: S -> S, a: nat, b: nat, s: S)
    ensures RepeatedCalls(func, a + b, s) == RepeatedCalls(func, b, RepeatedCalls(func, a, s))
    decreases b
  {
    if b > 0 {
      RepeatedCallsAdd(func, a, b - 1, s);
    }
  }

  /** One iteration of the closure is one call of func, and zero iterations leave the state alone. */
  lemma RepeatedCallsBase<S>(func: S -> S, s: S)
    ensures RepeatedCalls(func, 0, s) == s
    ensures RepeatedCalls(func, 1, s) == func(s)
  {
  }

  /**
   * The shim and the closure differ as soon as iterations is not 1: with a
   * counter as the state, a shim asked for two passes advances it once.
   */
  lemma ShimDropsRepetition()
    ensures var inc := (s: int) => s + 1;
      IterationsShim(inc, 2)(0) == 1 && RepeatedCalls(inc, 2, 0) == 2
  {
    var inc := (s: int) => s + 1;
    assert RepeatedCalls(inc, 1, 0) == 1;
  }
}
