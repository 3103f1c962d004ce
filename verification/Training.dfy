/** Early stopping over weights that training overwrites in place. */
module Training {
  import opened Common

  /** Validation AUC of given weights; None is the not-a-number of a one-class validation set. */
  type Metric = seq<real> -> Option<real>
  /** The weights after each number of epochs of training. */
  type Trajectory = nat -> seq<real>

  function AucAt(auc: Metric, weights: Trajectory, epoch: nat): Option<real> {
    auc(weights(epoch))
  }

  predicate Beats(a: Option<real>, best: real) {
    a.Some? && a.value > best
  }

  /** The best AUC and its epoch over epochs 1 to `epoch`, from zero and by strict improvement. */
  function Best(auc: Metric, weights: Trajectory, epoch: nat): (real, nat) {
    if epoch == 0 then (0.0, 0)
    else
      var before := Best(auc, weights, epoch - 1);
      if Beats(AucAt(auc, weights, epoch), before.0) then (AucAt(auc, weights, epoch).value, epoch) else before
  }

  /** The first epoch that attains the largest AUC above zero; epoch 0 when there is none. */
  ghost predicate FirstMaximum(auc: Metric, weights: Trajectory, epoch: nat, best: nat) {
    && best <= epoch
    && (best == 0 ==> forall j :: 1 <= j <= epoch ==> !Beats(AucAt(auc, weights, j), 0.0))
    && (best > 0 ==>
          var top := AucAt(auc, weights, best);
          && Beats(top, 0.0)
          && (forall j :: 1 <= j <= epoch ==> !Beats(AucAt(auc, weights, j), top.value))
          && (forall j :: 1 <= j < best && AucAt(auc, weights, j).Some? ==> AucAt(auc, weights, j).value < top.value))
  }

  lemma {:induction false} BestIsFirstMaximum(auc: Metric, weights: Trajectory, epoch: nat)
    ensures FirstMaximum(auc, weights, epoch, Best(auc, weights, epoch).1)
    ensures Best(auc, weights, epoch).0 == if Best(auc, weights, epoch).1 == 0 then 0.0
              else AucAt(auc, weights, Best(auc, weights, epoch).1).GetOr(0.0)
  {
    if epoch > 0 {
      BestIsFirstMaximum(auc, weights, epoch - 1);
    }
  }

  /** Only one epoch is the first maximum. */
  lemma FirstMaximumIsUnique(auc: Metric, weights: Trajectory, epoch: nat, a: nat, b: nat)
    requires FirstMaximum(auc, weights, epoch, a) && FirstMaximum(auc, weights, epoch, b)
    ensures a == b
  {
    if a > 0 && b > 0 {
      assert !Beats(AucAt(auc, weights, a), AucAt(auc, weights, b).value);
      assert !Beats(AucAt(auc, weights, b), AucAt(auc, weights, a).value);
    }
  }

  /** Epochs since the best one. */
  function Gap(auc: Metric, weights: Trajectory, epoch: nat): int {
    epoch - Best(auc, weights, epoch).1
  }

  /** Training ends at `stop`: the first epoch whose gap reaches the patience, or the last one allowed. */
  ghost predicate StopsAt(auc: Metric, weights: Trajectory, maxEpochs: nat, patience: int, stop: nat) {
    && stop <= maxEpochs
    && (forall e :: 1 <= e < stop ==> Gap(auc, weights, e) < Max(1, patience))
    && (stop == maxEpochs || (stop >= 1 && Gap(auc, weights, stop) >= Max(1, patience)))
  }

  /** A parameter tensor: an object whose numbers change in place. */
  class Tensor {
    var data: seq<real>

    constructor (data: seq<real>)
      ensures this.data == data
    {
      this.data := data;
    }

    /** `v.clone()`: a tensor of its own, which later writes to this one do not touch. */
    method Clone() returns (copy: Tensor)
      ensures fresh(copy) && copy.data == data
    {
      copy := new Tensor(data);
    }
  }

  class Model {
    /** The live tensor, overwritten by every epoch. */
    const weights: Tensor

    constructor (initial: seq<real>)
      ensures fresh(weights) && weights.data == initial
    {
      weights := new Tensor(initial);
    }

    method TrainOneEpoch(result: seq<real>)
      modifies weights
      ensures weights.data == result
    {
      weights.data := result;
    }

    method LoadStateDict(state: Tensor)
      modifies weights
      ensures weights.data == old(state.data)
    {
      weights.data := state.data;
    }
  }

  /** The epochs up to the stop: a clone of the weights is taken at each improvement. */
  method RunEpochs(model: Model, weights: Trajectory, auc: Metric, maxEpochs: nat, patience: int)
    returns (bestState: Tensor, bestEpoch: nat, stop: nat)
    requires model.weights.data == weights(0)
    modifies model.weights
    ensures fresh(bestState) && bestState.data == weights(bestEpoch)
    ensures StopsAt(auc, weights, maxEpochs, patience, stop)
    ensures bestEpoch == Best(auc, weights, stop).1
  {
    var bestAuc := 0.0;
    bestState := model.weights.Clone();
    bestEpoch, stop := 0, 0;
    var patienceCounter := 0;
    while stop < maxEpochs
      invariant stop <= maxEpochs && fresh(bestState)
      invariant (bestAuc, bestEpoch) == Best(auc, weights, stop)
      invariant patienceCounter == stop - bestEpoch
      invariant bestState.data == weights(bestEpoch)
      invariant forall e :: 1 <= e <= stop ==> Gap(auc, weights, e) < Max(1, patience)
    {
      stop := stop + 1;
      model.TrainOneEpoch(weights(stop));
      var a := auc(model.weights.data);
      assert a == AucAt(auc, weights, stop);
      if Beats(a, bestAuc) {
        bestAuc, bestEpoch, patienceCounter := a.value, stop, 0;
        bestState := model.weights.Clone();
      } else {
        patienceCounter := patienceCounter + 1;
        if patienceCounter >= patience {
          break;
        }
      }
    }
  }

  /**
   * The model ends up holding the weights it had at the best epoch, whatever the epochs after that
   * one did to the live tensors.
   */
  method TrainWithEarlyStop(model: Model, weights: Trajectory, auc: Metric, maxEpochs: nat, patience: int)
    returns (bestEpoch: nat, stop: nat, finalAuc: Option<real>)
    requires model.weights.data == weights(0)
    modifies model.weights
    ensures StopsAt(auc, weights, maxEpochs, patience, stop)
    ensures FirstMaximum(auc, weights, stop, bestEpoch)
    ensures model.weights.data == weights(bestEpoch) && finalAuc == auc(weights(bestEpoch))
  {
    var bestState;
    bestState, bestEpoch, stop := RunEpochs(model, weights, auc, maxEpochs, patience);
    BestIsFirstMaximum(auc, weights, stop);
    model.LoadStateDict(bestState);
    finalAuc := auc(model.weights.data);
  }
}
