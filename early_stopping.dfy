/**
 * The early-stopping loop of StackedAutoencoder.train_model
 * (com/dl/gpu/StackedAutoencoderGPU.py:230-277): fine-tuning runs epoch by
 * epoch over n minibatches, checks the validation loss every
 * validation_freq minibatches, lowers the best loss when the new one is
 * smaller, raises the patience when it is smaller by more than half a
 * percent, and stops after the first epoch whose last minibatch index has
 * reached the patience.
 *
 * The Theano fine-tuning and validation functions are inputs: loss(iter)
 * is the mean validation loss valid_model() returns when it is called at
 * minibatch index iter. The fine-tuning costs are only printed and are left
 * out.
 */
module EarlyStopping {
  import opened Arith

  /** best_valid_loss: numpy's inf at the start, then the best loss seen. */
  datatype Best = Infinity | Loss(value: real)

  /** curr_valid_loss < best_valid_loss (:262); every finite loss is below inf. */
  predicate Improves(curr: real, best: Best) {
    best.Infinity? || curr < best.value
  }

  /** curr_valid_loss < best_valid_loss * improvement_threshold (:265); inf * 0.995 is still inf. */
  predicate ImprovesEnough(curr: real, best: Best) {
    best.Infinity? || curr < best.value * 0.995
  }

  /** b is no worse than c: c is inf, or both are finite and b <= c. */
  predicate NoWorse(b: Best, c: Best) {
    c.Infinity? || (b.Loss? && b.value <= c.value)
  }

  /** The loop's variables: epoch, iter, patience, best_valid_loss, best_iter and done_looping. */
  datatype Progress = Progress(epoch: nat, iter: nat, patience: nat, best: Best, bestIter: nat, done: bool)

  /**
   * The state before the loop (:230-241): patience 10 * n, no loss seen.
   * iter and best_iter are not bound yet in the source; they start at 0
   * here and are not read before the first minibatch sets them.
   */
  function Start(n: nat): Progress {
    Progress(0, 0, 10 * n, Infinity, 0, false)
  }

  /**
   * validation_freq = min(n_train_batches, patience / 2) with patience
   * = 10 * n_train_batches (:230, :234): always n_train_batches itself, so
   * validation runs once per epoch.
   */
  function ValidationFreq(n: nat): (f: nat)
    requires n >= 1
    ensures f == n && f >= 1
  {
    Min(n, (10 * n) / 2)
  }

  /**
   * One validation at minibatch index iter with loss curr (:258-270): a
   * smaller loss becomes the best one, with iter as its best_iter; the
   * patience moves only for a loss below best * 0.995, and then to at
   * least 2 * iter; a loss that is not smaller changes nothing.
   */
  function Validate(s: Progress, iter: nat, curr: real): (r: Progress)
    ensures r.epoch == s.epoch && r.iter == s.iter && r.done == s.done
    ensures Improves(curr, s.best) ==> r.best == Loss(curr) && r.bestIter == iter
    ensures !Improves(curr, s.best) ==> r == s
    ensures r.patience != s.patience ==> ImprovesEnough(curr, s.best) && r.patience == iter * 2
    ensures Improves(curr, s.best) && ImprovesEnough(curr, s.best) ==> r.patience == Max(s.patience, iter * 2)
  {
    if Improves(curr, s.best) then
      var patience := if ImprovesEnough(curr, s.best) then Max(s.patience, iter * 2) else s.patience;
      s.(patience := patience, best := Loss(curr), bestIter := iter)
    else s
  }

  /** The body of the minibatch loop for minibatch mini of the current epoch (:253-270). */
  function Minibatch(s: Progress, n: nat, mini: nat, loss: nat -> real): (r: Progress)
    requires n >= 1 && s.epoch >= 1
    ensures r.epoch == s.epoch && r.done == s.done && r.iter == (s.epoch - 1) * n + mini
  {
    var iter := (s.epoch - 1) * n + mini;
    var s1 := s.(iter := iter);
    if (iter + 1) % ValidationFreq(n) == 0 then Validate(s1, iter, loss(iter)) else s1
  }

  /** The first k minibatches of the current epoch. */
  function Minibatches(s: Progress, n: nat, k: nat, loss: nat -> real): (r: Progress)
    requires n >= 1 && s.epoch >= 1
    ensures r.epoch == s.epoch && r.done == s.done
    decreases k
  {
    if k == 0 then s else Minibatch(Minibatches(s, n, k - 1, loss), n, k - 1, loss)
  }

  /** One pass of the while loop (:244-277): the next epoch's minibatches, then the patience test. */
  function Epoch(s: Progress, n: nat, loss: nat -> real): (r: Progress)
    requires n >= 1
    ensures r.epoch == s.epoch + 1
  {
    var s1 := Minibatches(s.(epoch := s.epoch + 1), n, n, loss);
    s1.(done := s1.patience <= s1.iter)
  }

  /** The while loop (:243-277) from state s: epochs until fine_epochs or until done_looping. */
  function Run(s: Progress, n: nat, fineEpochs: nat, loss: nat -> real): Progress
    requires n >= 1
    decreases fineEpochs - s.epoch
  {
    if s.epoch < fineEpochs && !s.done then Run(Epoch(s, n, loss), n, fineEpochs, loss) else s
  }

  /** The whole early-stopping phase of train_model. */
  function FineTune(n: nat, fineEpochs: nat, loss: nat -> real): Progress
    requires n >= 1
  {
    Run(Start(n), n, fineEpochs, loss)
  }

  /**
   * The minibatch loop of one epoch (:246-270), with epoch already
   * advanced: it ends in the state Minibatches describes.
   */
  method MinibatchLoop(n: nat, validationFreq: nat, loss: nat -> real, epoch: nat, iter0: nat, patience0: nat, best0: Best, bestIter0: nat, done: bool)
    returns (iter: nat, patience: nat, best: Best, bestIter: nat)
    requires n >= 1 && epoch >= 1 && validationFreq == ValidationFreq(n)
    ensures Progress(epoch, iter, patience, best, bestIter, done)
      == Minibatches(Progress(epoch, iter0, patience0, best0, bestIter0, done), n, n, loss)
  {
    ghost var start := Progress(epoch, iter0, patience0, best0, bestIter0, done);
    iter, patience, best, bestIter := iter0, patience0, best0, bestIter0;
    for mini := 0 to n
      invariant Progress(epoch, iter, patience, best, bestIter, done) == Minibatches(start, n, mini, loss)
    {
      ghost var cur := Progress(epoch, iter, patience, best, bestIter, done);
      iter := (epoch - 1) * n + mini;
      if (iter + 1) % validationFreq == 0 {
        var curr := loss(iter);
        if Improves(curr, best) {
          if ImprovesEnough(curr, best) {
            patience := Max(patience, iter * 2);
          }
          best := Loss(curr);
          bestIter := iter;
        }
      }
      assert Progress(epoch, iter, patience, best, bestIter, done) == Minibatch(cur, n, mini, loss);
    }
  }

  /**
   * One pass of the while loop (:244-277): the epoch is advanced, its
   * minibatches run, and done_looping is set when the patience does not
   * exceed iter; it ends in the state Epoch describes.
   */
  method EpochStep(n: nat, validationFreq: nat, loss: nat -> real, epoch0: nat, iter0: nat, patience0: nat, best0: Best, bestIter0: nat)
    returns (epoch: nat, iter: nat, patience: nat, best: Best, bestIter: nat, done: bool)
    requires n >= 1 && validationFreq == ValidationFreq(n)
    ensures Progress(epoch, iter, patience, best, bestIter, done) == Epoch(Progress(epoch0, iter0, patience0, best0, bestIter0, false), n, loss)
  {
    epoch := epoch0 + 1;
    iter, patience, best, bestIter := MinibatchLoop(n, validationFreq, loss, epoch, iter0, patience0, best0, bestIter0, false);
    // The break after done_looping = True ends the while loop exactly as
    // its condition would.
    done := patience <= iter;
  }

  /**
   * The early-stopping loop as the source runs it (:230-277); it ends in
   * the state FineTune describes.
   */
  method TrainModel(n: nat, fineEpochs: nat, loss: nat -> real)
    returns (epoch: nat, iter: nat, patience: nat, best: Best, bestIter: nat, done: bool)
    requires n >= 1
    ensures Progress(epoch, iter, patience, best, bestIter, done) == FineTune(n, fineEpochs, loss)
  {
    patience := 10 * n;
    var validationFreq := Min(n, patience / 2);
    assert validationFreq == ValidationFreq(n);
    best := Infinity;
    done := false;
    epoch := 0;
    iter, bestIter := 0, 0;
    while epoch < fineEpochs && !done
      invariant Run(Progress(epoch, iter, patience, best, bestIter, done), n, fineEpochs, loss) == FineTune(n, fineEpochs, loss)
      decreases fineEpochs - epoch
    {
      epoch, iter, patience, best, bestIter, done := EpochStep(n, validationFreq, loss, epoch, iter, patience, best, bestIter);
    }
  }

  /** The loss is checked at the last minibatch of each epoch and at no other (:253, :257). */
  lemma ValidatesAtEpochEnd(n: nat, epoch: nat, mini: nat)
    requires n >= 1 && epoch >= 1 && mini < n
    ensures ((epoch - 1) * n + mini + 1) % ValidationFreq(n) == 0 <==> mini == n - 1
  {
    if mini == n - 1 {
      assert (epoch - 1) * n + mini + 1 == epoch * n + 0;
      FlatDecode(epoch, 0, n);
    } else {
      FlatDecode(epoch - 1, mini + 1, n);
    }
  }

  /** The minibatches before the last one of an epoch only set iter. */
  lemma {:induction false} MinibatchesBeforeEnd(s: Progress, n: nat, k: nat, loss: nat -> real)
    requires n >= 1 && s.epoch >= 1 && 1 <= k < n
    ensures Minibatches(s, n, k, loss) == s.(iter := (s.epoch - 1) * n + k - 1)
    decreases k
  {
    ValidatesAtEpochEnd(n, s.epoch, k - 1);
    if k > 1 {
      MinibatchesBeforeEnd(s, n, k - 1, loss);
    }
  }

  /**
   * An epoch in closed form: its last minibatch index is s.epoch * n +
   * n - 1 (the new epoch count times n, minus one), the loss is validated
   * once, there, and the loop is done when the patience does not exceed
   * that index (:253, :257-270, :275-277).
   */
  lemma EpochClosedForm(s: Progress, n: nat, loss: nat -> real)
    requires n >= 1
    ensures var last := s.epoch * n + (n - 1);
      var v := Validate(s.(epoch := s.epoch + 1, iter := last), last, loss(last));
      Epoch(s, n, loss) == v.(done := v.patience <= last)
  {
    var e := s.epoch + 1;
    var s0 := s.(epoch := e);
    var last := s.epoch * n + (n - 1);
    var before := s0.(iter := if n > 1 then last - 1 else s.iter);
    assert Minibatches(s0, n, n - 1, loss) == before by {
      if n > 1 {
        MinibatchesBeforeEnd(s0, n, n - 1, loss);
      }
    }
    assert (last + 1) % ValidationFreq(n) == 0 by {
      ValidatesAtEpochEnd(n, e, n - 1);
    }
    assert Minibatches(s0, n, n, loss) == Minibatch(before, n, n - 1, loss);
  }

  /** One validation never raises the best loss and never lowers the patience. */
  lemma ValidateMonotone(s: Progress, iter: nat, curr: real)
    ensures NoWorse(Validate(s, iter, curr).best, s.best)
    ensures Validate(s, iter, curr).patience >= s.patience
  {
  }

  /**
   * best_valid_loss never increases and patience never decreases over an
   * epoch (:262-269, :264-267).
   */
  lemma EpochMonotone(s: Progress, n: nat, loss: nat -> real)
    requires n >= 1
    ensures NoWorse(Epoch(s, n, loss).best, s.best)
    ensures Epoch(s, n, loss).patience >= s.patience
  {
    EpochClosedForm(s, n, loss);
    var last := s.epoch * n + (n - 1);
    ValidateMonotone(s.(epoch := s.epoch + 1, iter := last), last, loss(last));
  }

  /** NoWorse is transitive. */
  lemma NoWorseTrans(a: Best, b: Best, c: Best)
    requires NoWorse(a, b) && NoWorse(b, c)
    ensures NoWorse(a, c)
  {
  }

  /** Over the whole loop best_valid_loss never increases and patience never decreases. */
  lemma {:induction false} RunMonotone(s: Progress, n: nat, fineEpochs: nat, loss: nat -> real)
    requires n >= 1
    ensures NoWorse(Run(s, n, fineEpochs, loss).best, s.best)
    ensures Run(s, n, fineEpochs, loss).patience >= s.patience
    decreases fineEpochs - s.epoch
  {
    if s.epoch < fineEpochs && !s.done {
      var s1 := Epoch(s, n, loss);
      EpochMonotone(s, n, loss);
      RunMonotone(s1, n, fineEpochs, loss);
      NoWorseTrans(Run(s1, n, fineEpochs, loss).best, s1.best, s.best);
    }
  }

  /**
   * The loop runs at most fine_epochs epochs; when it ends early it is
   * done, and it is done exactly when the last epoch ended with patience
   * at most iter (:243-244, :275-277).
   */
  lemma {:induction false} RunEnds(s: Progress, n: nat, fineEpochs: nat, loss: nat -> real)
    requires n >= 1 && s.epoch <= fineEpochs && (s.done ==> s.patience <= s.iter)
    ensures var r := Run(s, n, fineEpochs, loss);
      && s.epoch <= r.epoch <= fineEpochs
      && (r.epoch < fineEpochs ==> r.done)
      && (r.done ==> r.patience <= r.iter)
    decreases fineEpochs - s.epoch
  {
    if s.epoch < fineEpochs && !s.done {
      RunEnds(Epoch(s, n, loss), n, fineEpochs, loss);
    }
  }

  /** What the loop keeps about epochs: a finished epoch e left iter = e * n - 1, below patience unless done. */
  ghost predicate EpochsInvariant(s: Progress, n: nat) {
    s.epoch == 0 || (s.iter == s.epoch * n - 1 && (s.done <==> s.patience <= s.iter))
  }

  /** Every epoch keeps EpochsInvariant. */
  lemma EpochKeeps(s: Progress, n: nat, loss: nat -> real)
    requires n >= 1
    ensures EpochsInvariant(Epoch(s, n, loss), n)
  {
    EpochClosedForm(s, n, loss);
    assert (s.epoch + 1) * n == s.epoch * n + n;
  }

  /**
   * The loop stops at the first epoch whose end index reaches the patience:
   * every epoch the loop starts follows one that ended with patience above
   * its last index, so the final epoch count e satisfies (e - 1) * n
   * <= patience.
   */
  lemma {:induction false} RunEpochBound(s: Progress, n: nat, fineEpochs: nat, loss: nat -> real)
    requires n >= 1 && EpochsInvariant(s, n) && !s.done
    requires s.epoch * n <= s.patience
    ensures var r := Run(s, n, fineEpochs, loss);
      r.epoch == s.epoch || (r.epoch - 1) * n <= r.patience
    decreases fineEpochs - s.epoch
  {
    if s.epoch < fineEpochs {
      var s1 := Epoch(s, n, loss);
      EpochKeeps(s, n, loss);
      EpochMonotone(s, n, loss);
      if s1.done {
        assert (s1.epoch - 1) * n == s.epoch * n;
      } else {
        assert s1.epoch * n == s1.iter + 1;
        RunMonotone(s1, n, fineEpochs, loss);
        RunEpochBound(s1, n, fineEpochs, loss);
      }
    }
  }

  /** Since the patience never drops below its start 10 * n, training always runs min(fine_epochs, 11) epochs at least. */
  lemma {:induction false} RunAtLeastEleven(s: Progress, n: nat, fineEpochs: nat, loss: nat -> real)
    requires n >= 1 && EpochsInvariant(s, n) && !s.done && s.patience >= 10 * n
    ensures Run(s, n, fineEpochs, loss).epoch >= Min(fineEpochs, 11)
    decreases fineEpochs - s.epoch
  {
    if s.epoch < fineEpochs {
      var s1 := Epoch(s, n, loss);
      EpochKeeps(s, n, loss);
      EpochMonotone(s, n, loss);
      if s1.done {
        assert s1.iter == s1.epoch * n - 1 && s1.patience <= s1.iter;
        if s1.epoch < 11 {
          MulMonotone(s1.epoch, 10, n);
        }
      } else {
        RunAtLeastEleven(s1, n, fineEpochs, loss);
      }
    }
  }

  /**
   * The run's outcome from the start: at most fine_epochs epochs, and
   * at least min(fine_epochs, 11); done exactly when it ended before
   * fine_epochs or the last epoch exhausted the patience; best loss and
   * patience no worse than where they started.
   */
  lemma FineTuneOutcome(n: nat, fineEpochs: nat, loss: nat -> real)
    requires n >= 1
    ensures var r := FineTune(n, fineEpochs, loss);
      && Min(fineEpochs, 11) <= r.epoch <= fineEpochs
      && (r.epoch < fineEpochs ==> r.done)
      && (r.done ==> r.patience <= r.iter)
      && r.patience >= 10 * n
      && (r.epoch >= 1 ==> (r.epoch - 1) * n <= r.patience)
  {
    RunEnds(Start(n), n, fineEpochs, loss);
    RunMonotone(Start(n), n, fineEpochs, loss);
    RunEpochBound(Start(n), n, fineEpochs, loss);
    RunAtLeastEleven(Start(n), n, fineEpochs, loss);
  }

  /**
   * If the patience is never raised above its start 10 * n, training stops
   * after exactly min(fine_epochs, 11) epochs: 11 * n - 1 is the first
   * epoch end index that reaches 10 * n.
   */
  lemma NoRaiseStopsAtEleven(n: nat, fineEpochs: nat, loss: nat -> real)
    requires n >= 1 && FineTune(n, fineEpochs, loss).patience == 10 * n
    ensures FineTune(n, fineEpochs, loss).epoch == Min(fineEpochs, 11)
  {
    var r := FineTune(n, fineEpochs, loss);
    FineTuneOutcome(n, fineEpochs, loss);
    if r.epoch > 11 {
      MulMonotone(11, r.epoch - 1, n);
    }
  }
}
