/** The bookkeeping of `Train.train_model`: per-epoch losses with NaN dropped, the best validation
    loss so far, and a checkpoint (weights, metadata snapshot, loss plot) on every strict improvement.
    The network, its optimiser and its loss function are outside the model: their losses are inputs. */
module TrainLoop {
  import opened Wrappers
  import opened Text
  import opened Dict

  /** A loss as `np.isnan` sees it: `None` is NaN. */
  type Loss = Option<real>

  /** `[arr for arr in losses if ~np.isnan(arr)]`. */
  function NotNaN(losses: seq<Loss>): (vs: seq<real>)
    ensures |vs| <= |losses|
    ensures |vs| == 0 <==> forall i :: 0 <= i < |losses| ==> losses[i].None?
  {
    if |losses| == 0 then []
    else
      var init := losses[..|losses| - 1];
      var last := losses[|losses| - 1];
      assert losses == init + [last];
      NotNaN(init) + (if last.Some? then [last.value] else [])
  }

  /** The numbers kept are exactly the losses that are not NaN. */
  lemma {:induction false} NotNaNMembers(losses: seq<Loss>, v: real)
    ensures v in NotNaN(losses) <==> Some(v) in losses
    decreases |losses|
  {
    if |losses| > 0 {
      var init := losses[..|losses| - 1];
      NotNaNMembers(init, v);
      assert losses == init + [losses[|losses| - 1]];
    }
  }

  lemma {:induction false} NotNaNAppend(a: seq<Loss>, b: seq<Loss>)
    ensures NotNaN(a + b) == NotNaN(a) + NotNaN(b)
    decreases |b|
  {
    if |b| == 0 {
      assert a + b == a;
    } else {
      var b' := b[..|b| - 1];
      assert (a + b)[..|a + b| - 1] == a + b';
      NotNaNAppend(a, b');
    }
  }

  function Sum(vs: seq<real>): real {
    if |vs| == 0 then 0.0 else Sum(vs[..|vs| - 1]) + vs[|vs| - 1]
  }

  /** `np.mean`: NaN for an empty list. */
  function Mean(vs: seq<real>): (m: Loss)
    ensures m.None? <==> |vs| == 0
  {
    if |vs| == 0 then None else Some(Sum(vs) / |vs| as real)
  }

  lemma {:induction false} SumBounds(vs: seq<real>, lo: real, hi: real)
    requires forall i :: 0 <= i < |vs| ==> lo <= vs[i] <= hi
    ensures |vs| as real * lo <= Sum(vs) <= |vs| as real * hi
    decreases |vs|
  {
    if |vs| > 0 {
      var init := vs[..|vs| - 1];
      assert forall i :: 0 <= i < |init| ==> init[i] == vs[i];
      SumBounds(init, lo, hi);
      var n := |init| as real;
      assert |vs| as real * lo == n * lo + lo;
      assert |vs| as real * hi == n * hi + hi;
    }
  }

  /** The mean of values lies between any bounds of the values. */
  lemma MeanBounds(vs: seq<real>, lo: real, hi: real)
    requires |vs| > 0
    requires forall i :: 0 <= i < |vs| ==> lo <= vs[i] <= hi
    ensures lo <= Mean(vs).value <= hi
  {
    SumBounds(vs, lo, hi);
    var n := |vs| as real;
    var m := Sum(vs) / n;
    assert m * n == Sum(vs);
    assert (m - lo) * n >= 0.0;
    assert (hi - m) * n >= 0.0;
  }

  /** `np.mean(batch_losses_not_nan)`: the mean over the losses that are not NaN; NaN when there are
      none. */
  function EpochLoss(losses: seq<Loss>): (m: Loss)
    ensures m.None? <==> forall i :: 0 <= i < |losses| ==> losses[i].None?
  {
    Mean(NotNaN(losses))
  }

  /** A NaN anywhere in the list changes nothing. */
  lemma NaNNeverContributes(a: seq<Loss>, b: seq<Loss>)
    ensures EpochLoss(a + [None] + b) == EpochLoss(a + b)
  {
    var none: seq<Loss> := [None];
    assert NotNaN(none) == NotNaN([]) + [];
    NotNaNAppend(a + none, b);
    NotNaNAppend(a, none);
    NotNaNAppend(a, b);
    assert NotNaN(a + none + b) == NotNaN(a + b);
  }

  /** An epoch loss that is a number lies between the smallest and the largest non-NaN loss. */
  lemma EpochLossBounds(losses: seq<Loss>, lo: real, hi: real)
    requires forall i :: 0 <= i < |losses| && losses[i].Some? ==> lo <= losses[i].value <= hi
    requires exists i :: 0 <= i < |losses| && losses[i].Some?
    ensures EpochLoss(losses).Some? && lo <= EpochLoss(losses).value <= hi
  {
    var vs := NotNaN(losses);
    forall i | 0 <= i < |vs| ensures lo <= vs[i] <= hi {
      assert vs[i] in vs;
      NotNaNMembers(losses, vs[i]);
      var j :| 0 <= j < |losses| && losses[j] == Some(vs[i]);
    }
    MeanBounds(vs, lo, hi);
  }

  /** `compute_val_loss`: `val_losses_not_nan` is assigned only inside the loop over the tasks, so
      an empty task list leaves it unbound. */
  function ComputeValLoss(taskLosses: seq<Loss>): (r: Outcome<Loss>)
    ensures r.Failure? <==> |taskLosses| == 0
    ensures r.Failure? ==> r.error == UnboundLocal("val_losses_not_nan")
    ensures r.Success? ==> r.value == EpochLoss(taskLosses)
  {
    if |taskLosses| == 0 then Failure(UnboundLocal("val_losses_not_nan"))
    else Success(EpochLoss(taskLosses))
  }

  /** `val_loss_best`: `np.inf` at first, then the last improving loss. */
  datatype Best = Infinity | Finite(value: real)

  /** `val_loss < val_loss_best`; a NaN loss compares false. */
  predicate Improves(v: Loss, best: Best) {
    v.Some? && (best.Infinity? || v.value < best.value)
  }

  /** `date_info` as the data pipeline records it. */
  datatype DateInfo = DateInfo(startYear: int, endYear: int, valStartYear: int)

  /** Keyword arguments by name, in the order given. */
  type Kwargs = seq<Entry<string, string>>

  /** The entries of `processed_output_dict` that reach the metadata. */
  datatype Processed = Processed(dataSettings: Kwargs, dateInfo: DateInfo)

  /** `metadata_dict` as `_construct_metadata_dict` builds it. */
  datatype Metadata = Metadata(dataSettings: Kwargs, dateInfo: DateInfo, convnpKwargs: Kwargs,
                               trainLosses: seq<Loss>, valLosses: seq<Loss>)

  /** The files written at an improving epoch. */
  datatype Checkpoint = Checkpoint(epoch: nat, weightsPath: string, metadataPath: string,
                                   plotPath: Option<string>, metadata: Metadata)

  /** What one epoch yields: `train_epoch`'s batch losses and `model.loss_fn` on each validation task. */
  datatype EpochInput = EpochInput(batchLosses: seq<Loss>, valTaskLosses: seq<Loss>)

  /** The loop state: the two histories, `val_loss_best`, and the checkpoints written so far. */
  datatype Run = Run(trainLosses: seq<Loss>, valLosses: seq<Loss>, best: Best, checkpoints: seq<Checkpoint>)

  /** What the loop reads but never changes. */
  datatype TrainSetup = TrainSetup(savePath: string, modelName: string, plotLosses: bool,
                                   processed: Processed, convnpKwargs: Kwargs)

  /** `f"{save_model_path}/{model_name}.pt"`, the metadata pickle and the loss plot. */
  function WeightsPath(s: TrainSetup): string {
    s.savePath + "/" + s.modelName + ".pt"
  }

  function MetadataPath(s: TrainSetup): string {
    (s.savePath + "/metadata") + "/" + s.modelName + ".pkl"
  }

  function PlotPath(s: TrainSetup): string {
    (s.savePath + "/losses") + "/" + s.modelName + ".png"
  }

  /** One pass of the epoch loop. */
  function Step(s: TrainSetup, r: Run, x: EpochInput): (r': Outcome<Run>)
    ensures r'.Failure? <==> |x.valTaskLosses| == 0
  {
    var valLoss :- ComputeValLoss(x.valTaskLosses);
    var trainLosses := r.trainLosses + [EpochLoss(x.batchLosses)];
    var valLosses := r.valLosses + [valLoss];
    if Improves(valLoss, r.best) then
      var meta := Metadata(s.processed.dataSettings, s.processed.dateInfo, s.convnpKwargs, trainLosses, valLosses);
      var plot := if s.plotLosses then Some(PlotPath(s)) else None;
      var c := Checkpoint(|r.valLosses|, WeightsPath(s), MetadataPath(s), plot, meta);
      Success(Run(trainLosses, valLosses, Finite(valLoss.value), r.checkpoints + [c]))
    else
      Success(Run(trainLosses, valLosses, r.best, r.checkpoints))
  }

  /** Each epoch appends its training and validation loss to the histories. */
  lemma StepHistories(s: TrainSetup, r: Run, x: EpochInput)
    requires |x.valTaskLosses| > 0
    ensures Step(s, r, x).value.trainLosses == r.trainLosses + [EpochLoss(x.batchLosses)]
    ensures Step(s, r, x).value.valLosses == r.valLosses + [EpochLoss(x.valTaskLosses)]
  {
  }

  /** The loop over `range(n_epochs)`, one input per epoch; the first epoch without validation tasks
      ends it. */
  function Epochs(s: TrainSetup, xs: seq<EpochInput>): (r: Outcome<Run>)
    ensures r.Failure? <==> exists k :: 0 <= k < |xs| && |xs[k].valTaskLosses| == 0
  {
    if |xs| == 0 then Success(Run([], [], Infinity, []))
    else
      var init := xs[..|xs| - 1];
      var r :- Epochs(s, init);
      assert forall k :: 0 <= k < |init| ==> init[k] == xs[k];
      Step(s, r, xs[|xs| - 1])
  }

  /** The histories hold one entry per epoch: the mean of its non-NaN batch losses and the mean of
      its non-NaN validation losses. */
  lemma {:induction false} EpochsHistories(s: TrainSetup, xs: seq<EpochInput>)
    requires Epochs(s, xs).Success?
    ensures var r := Epochs(s, xs).value;
            && |r.trainLosses| == |xs| && |r.valLosses| == |xs|
            && forall k :: 0 <= k < |xs| ==>
                 r.trainLosses[k] == EpochLoss(xs[k].batchLosses) && r.valLosses[k] == EpochLoss(xs[k].valTaskLosses)
    decreases |xs|
  {
    if |xs| > 0 {
      var init := xs[..|xs| - 1];
      var x := xs[|xs| - 1];
      EpochsHistories(s, init);
      var r0 := Epochs(s, init).value;
      StepHistories(s, r0, x);
      var r := Epochs(s, xs).value;
      assert r == Step(s, r0, x).value;
      forall k | 0 <= k < |xs|
        ensures r.trainLosses[k] == EpochLoss(xs[k].batchLosses) && r.valLosses[k] == EpochLoss(xs[k].valTaskLosses)
      {
        if k < |init| {
          assert xs[k] == init[k];
          assert r.trainLosses[k] == r0.trainLosses[k] && r.valLosses[k] == r0.valLosses[k];
        }
      }
    }
  }

  /** Epoch `k` beats every earlier number: the reference for when a checkpoint is due. */
  predicate IsRecord(vs: seq<Loss>, k: int) {
    0 <= k < |vs| && vs[k].Some? && forall j :: 0 <= j < k && vs[j].Some? ==> vs[k].value < vs[j].value
  }

  /** `b` is the least number among `vs`, or infinity when all are NaN. */
  predicate IsMinimum(b: Best, vs: seq<Loss>) {
    && (b.Infinity? <==> forall k :: 0 <= k < |vs| ==> vs[k].None?)
    && (b.Finite? ==> (exists k :: 0 <= k < |vs| && vs[k] == Some(b.value))
                      && forall k :: 0 <= k < |vs| && vs[k].Some? ==> b.value <= vs[k].value)
  }

  /** The update `val_loss_best = val_loss` on improvement keeps the best the minimum. */
  lemma MinimumSnoc(b: Best, vs: seq<Loss>, v: Loss)
    requires IsMinimum(b, vs)
    ensures IsMinimum(if Improves(v, b) then Finite(v.value) else b, vs + [v])
  {
    var ws := vs + [v];
    assert forall k :: 0 <= k < |vs| ==> ws[k] == vs[k];
    assert ws[|vs|] == v;
    if b.Finite? {
      var k :| 0 <= k < |vs| && vs[k] == Some(b.value);
      assert ws[k] == Some(b.value);
    }
  }

  /** One epoch keeps `val_loss_best` the minimum of the validation history. */
  lemma StepMinimum(s: TrainSetup, r: Run, x: EpochInput)
    requires IsMinimum(r.best, r.valLosses)
    requires Step(s, r, x).Success?
    ensures IsMinimum(Step(s, r, x).value.best, Step(s, r, x).value.valLosses)
  {
    var v := EpochLoss(x.valTaskLosses);
    var r' := Step(s, r, x).value;
    assert r'.valLosses == r.valLosses + [v];
    assert r'.best == if Improves(v, r.best) then Finite(v.value) else r.best;
    MinimumSnoc(r.best, r.valLosses, v);
  }

  /** `val_loss_best` is always the minimum of the validation losses seen so far. */
  lemma {:induction false} BestIsMinimum(s: TrainSetup, xs: seq<EpochInput>)
    requires Epochs(s, xs).Success?
    ensures IsMinimum(Epochs(s, xs).value.best, Epochs(s, xs).value.valLosses)
    decreases |xs|
  {
    if |xs| > 0 {
      var init := xs[..|xs| - 1];
      BestIsMinimum(s, init);
      StepMinimum(s, Epochs(s, init).value, xs[|xs| - 1]);
    }
  }

  /** The improvement test at epoch `k` against the minimum of the earlier losses is exactly the
      record test. */
  lemma ImprovesIffRecord(b: Best, vs: seq<Loss>, v: Loss)
    requires IsMinimum(b, vs)
    ensures Improves(v, b) <==> IsRecord(vs + [v], |vs|)
  {
    var ws := vs + [v];
    assert forall j :: 0 <= j < |vs| ==> ws[j] == vs[j];
    if Improves(v, b) && b.Finite? {
      forall j | 0 <= j < |vs| && ws[j].Some? ensures v.value < ws[j].value {
        assert b.value <= vs[j].value;
      }
    }
    if IsRecord(ws, |vs|) && b.Finite? {
      var k :| 0 <= k < |vs| && vs[k] == Some(b.value);
      assert ws[k] == vs[k];
    }
  }

  /** The epochs of the checkpoints, in the order written. */
  function CheckpointEpochs(cs: seq<Checkpoint>): (es: seq<nat>)
    ensures |es| == |cs|
    ensures forall i :: 0 <= i < |cs| ==> es[i] == cs[i].epoch
  {
    if |cs| == 0 then [] else CheckpointEpochs(cs[..|cs| - 1]) + [cs[|cs| - 1].epoch]
  }

  /** `es` lists the record epochs of `vs`, each once, in increasing order. */
  predicate AtRecords(es: seq<nat>, vs: seq<Loss>) {
    && (forall i, j :: 0 <= i < j < |es| ==> es[i] < es[j])
    && (forall i :: 0 <= i < |es| ==> IsRecord(vs, es[i]))
    && (forall k :: 0 <= k < |vs| && IsRecord(vs, k) ==> k in es)
  }

  /** The checkpoints are in epoch order and sit exactly at the record epochs. */
  predicate CheckpointsAtRecords(r: Run) {
    AtRecords(CheckpointEpochs(r.checkpoints), r.valLosses)
  }

  /** Appending a loss leaves the record status of earlier epochs unchanged. */
  lemma RecordOfPrefix(vs: seq<Loss>, v: Loss)
    ensures forall k :: 0 <= k < |vs| ==> (IsRecord(vs + [v], k) <==> IsRecord(vs, k))
  {
    var ws := vs + [v];
    assert forall j :: 0 <= j < |vs| ==> ws[j] == vs[j];
  }

  /** The record epochs of `vs` below `n`, in increasing order. */
  function RecordsBelow(vs: seq<Loss>, n: nat): seq<nat>
    requires n <= |vs|
  {
    if n == 0 then []
    else RecordsBelow(vs, n - 1) + (if IsRecord(vs, n - 1) then [n - 1] else [])
  }

  /** The records below `n` are listed once each, in increasing order, and nothing else is. */
  lemma {:induction false} RecordsBelowAreRecords(vs: seq<Loss>, n: nat)
    requires n <= |vs|
    ensures forall i, j :: 0 <= i < j < |RecordsBelow(vs, n)| ==> RecordsBelow(vs, n)[i] < RecordsBelow(vs, n)[j]
    ensures forall i :: 0 <= i < |RecordsBelow(vs, n)| ==> RecordsBelow(vs, n)[i] < n && IsRecord(vs, RecordsBelow(vs, n)[i])
    ensures forall k :: 0 <= k < n && IsRecord(vs, k) ==> k in RecordsBelow(vs, n)
    decreases n
  {
    if n > 0 {
      var m: nat := n - 1;
      RecordsBelowAreRecords(vs, m);
      var es', es := RecordsBelow(vs, m), RecordsBelow(vs, n);
      assert es == es' + (if IsRecord(vs, m) then [m] else []);
      assert forall i :: 0 <= i < |es'| ==> es[i] == es'[i];
      forall i | 0 <= i < |es| ensures es[i] < n && IsRecord(vs, es[i]) {
        if i < |es'| {
          assert es'[i] < m && IsRecord(vs, es'[i]);
        }
      }
      forall i, j | 0 <= i < j < |es| ensures es[i] < es[j] {
        if j == |es'| {
          assert es'[i] < m;
        }
      }
      forall k | 0 <= k < n && IsRecord(vs, k) ensures k in es {
        if k < m {
          var i :| 0 <= i < |es'| && es'[i] == k;
          assert es[i] == k;
        } else {
          assert es[|es'|] == k;
        }
      }
    }
  }

  /** The reference list of checkpoint epochs: the record epochs of the whole history. */
  function RecordEpochs(vs: seq<Loss>): (es: seq<nat>)
    ensures AtRecords(es, vs)
  {
    RecordsBelowAreRecords(vs, |vs|);
    var es := RecordsBelow(vs, |vs|);
    assert forall k :: 0 <= k < |vs| && IsRecord(vs, k) ==> k in es;
    es
  }

  /** Appending a loss leaves the records below the old length unchanged. */
  lemma {:induction false} RecordsBelowSnoc(vs: seq<Loss>, v: Loss, n: nat)
    requires n <= |vs|
    ensures RecordsBelow(vs + [v], n) == RecordsBelow(vs, n)
    decreases n
  {
    if n > 0 {
      RecordsBelowSnoc(vs, v, n - 1);
      RecordOfPrefix(vs, v);
    }
  }

  /** One epoch appends its own index to the record epochs exactly when it improves on the minimum. */
  lemma RecordEpochsSnoc(b: Best, vs: seq<Loss>, v: Loss)
    requires IsMinimum(b, vs)
    ensures RecordEpochs(vs + [v]) == RecordEpochs(vs) + (if Improves(v, b) then [|vs|] else [])
  {
    RecordsBelowSnoc(vs, v, |vs|);
    ImprovesIffRecord(b, vs, v);
  }

  /** One epoch keeps the checkpoint epochs equal to the record epochs. */
  lemma StepRecordEpochs(s: TrainSetup, r: Run, x: EpochInput)
    requires IsMinimum(r.best, r.valLosses) && CheckpointEpochs(r.checkpoints) == RecordEpochs(r.valLosses)
    requires Step(s, r, x).Success?
    ensures CheckpointEpochs(Step(s, r, x).value.checkpoints) == RecordEpochs(Step(s, r, x).value.valLosses)
  {
    var v := EpochLoss(x.valTaskLosses);
    var r' := Step(s, r, x).value;
    assert r'.valLosses == r.valLosses + [v];
    RecordEpochsSnoc(r.best, r.valLosses, v);
    if Improves(v, r.best) {
      assert r'.checkpoints[..|r.checkpoints|] == r.checkpoints;
      assert r'.checkpoints[|r.checkpoints|].epoch == |r.valLosses|;
    } else {
      assert r'.checkpoints == r.checkpoints;
    }
  }

  /** The checkpoints are written exactly at the record epochs of the validation history, in order. */
  lemma {:induction false} CheckpointsAreRecordEpochs(s: TrainSetup, xs: seq<EpochInput>)
    requires Epochs(s, xs).Success?
    ensures CheckpointEpochs(Epochs(s, xs).value.checkpoints) == RecordEpochs(Epochs(s, xs).value.valLosses)
    decreases |xs|
  {
    if |xs| > 0 {
      var init := xs[..|xs| - 1];
      CheckpointsAreRecordEpochs(s, init);
      BestIsMinimum(s, init);
      StepRecordEpochs(s, Epochs(s, init).value, xs[|xs| - 1]);
    }
  }

  /** A checkpoint is written at epoch `k` exactly when `k` is a strict record, once, in epoch order. */
  lemma CheckpointIffRecord(s: TrainSetup, xs: seq<EpochInput>)
    requires Epochs(s, xs).Success?
    ensures CheckpointsAtRecords(Epochs(s, xs).value)
  {
    CheckpointsAreRecordEpochs(s, xs);
  }

  /** Each checkpoint records the configured paths and a metadata snapshot whose histories run up to
      and including its epoch. */
  predicate Snapshots(s: TrainSetup, r: Run) {
    && |r.trainLosses| == |r.valLosses|
    && forall i :: 0 <= i < |r.checkpoints| ==>
         var c := r.checkpoints[i];
         && c.epoch < |r.valLosses|
         && c.weightsPath == s.savePath + "/" + s.modelName + ".pt"
         && c.metadataPath == s.savePath + "/metadata/" + s.modelName + ".pkl"
         && c.plotPath == (if s.plotLosses then Some(s.savePath + "/losses/" + s.modelName + ".png") else None)
         && c.metadata.dataSettings == s.processed.dataSettings
         && c.metadata.dateInfo == s.processed.dateInfo
         && c.metadata.convnpKwargs == s.convnpKwargs
         && c.metadata.trainLosses == r.trainLosses[..c.epoch + 1]
         && c.metadata.valLosses == r.valLosses[..c.epoch + 1]
  }

  /** One epoch keeps every snapshot, and a new one holds the histories as they now stand. */
  lemma StepSnapshots(s: TrainSetup, r: Run, x: EpochInput)
    requires Snapshots(s, r)
    requires Step(s, r, x).Success?
    ensures Snapshots(s, Step(s, r, x).value)
  {
    var r' := Step(s, r, x).value;
    assert r'.trainLosses[..|r.trainLosses|] == r.trainLosses;
    assert r'.valLosses[..|r.valLosses|] == r.valLosses;
    assert (s.savePath + "/metadata") + "/" + s.modelName + ".pkl" == s.savePath + "/metadata/" + s.modelName + ".pkl";
    assert (s.savePath + "/losses") + "/" + s.modelName + ".png" == s.savePath + "/losses/" + s.modelName + ".png";
    forall i | 0 <= i < |r.checkpoints|
      ensures r'.trainLosses[..r.checkpoints[i].epoch + 1] == r.trainLosses[..r.checkpoints[i].epoch + 1]
      ensures r'.valLosses[..r.checkpoints[i].epoch + 1] == r.valLosses[..r.checkpoints[i].epoch + 1]
    {
    }
    assert r'.trainLosses[..|r.valLosses| + 1] == r'.trainLosses;
    assert r'.valLosses[..|r.valLosses| + 1] == r'.valLosses;
  }

  /** What an improving epoch writes: the weights, the metadata with both histories up to and
      including that epoch, and the loss plot when plotting is on. */
  lemma {:induction false} CheckpointContents(s: TrainSetup, xs: seq<EpochInput>)
    requires Epochs(s, xs).Success?
    ensures Snapshots(s, Epochs(s, xs).value)
    decreases |xs|
  {
    if |xs| > 0 {
      var init := xs[..|xs| - 1];
      CheckpointContents(s, init);
      StepSnapshots(s, Epochs(s, init).value, xs[|xs| - 1]);
    }
  }

  /** Once the epochs have run, `val_loss_best` never rises from one epoch to the next. */
  lemma BestNeverRises(s: TrainSetup, xs: seq<EpochInput>, x: EpochInput)
    requires Epochs(s, xs + [x]).Success?
    ensures Epochs(s, xs).Success?
    ensures var b := Epochs(s, xs).value.best;
            var b' := Epochs(s, xs + [x]).value.best;
            b.Finite? ==> b'.Finite? && b'.value <= b.value
  {
    assert (xs + [x])[..|xs|] == xs;
  }

  /** `train_model`: after the loop the histories are the full ones; with plotting on, a final loss
      plot is written under the same name. */
  datatype TrainResult = TrainResult(run: Run, finalPlot: Option<string>)

  function TrainModel(s: TrainSetup, xs: seq<EpochInput>): (r: Outcome<TrainResult>)
    ensures r.Success? <==> Epochs(s, xs).Success?
    ensures r.Success? ==> r.value.run == Epochs(s, xs).value
    ensures r.Success? ==> (r.value.finalPlot.Some? <==> s.plotLosses)
  {
    var run :- Epochs(s, xs);
    Success(TrainResult(run, if s.plotLosses then Some(PlotPath(s)) else None))
  }

  /** A loss list holding one number has that number as its mean. */
  lemma SingleLoss(v: real)
    ensures EpochLoss([Some(v)]) == Some(v)
  {
    var one: seq<Loss> := [Some(v)];
    assert one[..0] == [];
    assert NotNaN(one) == [v];
    assert [v][..0] == [];
    assert Sum([v]) == v;
    assert Mean([v]) == Some(v / 1.0);
  }

  /** Losses 1.0, NaN and 3.0 average to 2.0: the NaN is dropped, not counted. */
  lemma ExampleNaNDropped()
    ensures EpochLoss([Some(1.0), None, Some(3.0)]) == Some(2.0)
  {
    var ls: seq<Loss> := [Some(1.0), None, Some(3.0)];
    assert ls[..2][..1] == [Some(1.0)] && ls[..2][..1][..0] == [];
    assert NotNaN(ls) == [1.0, 3.0];
    assert [1.0, 3.0][..1] == [1.0] && [1.0][..0] == [];
    assert Sum([1.0, 3.0]) == 4.0;
  }

  function ValidationOnly(v: real): EpochInput {
    EpochInput([], [Some(v)])
  }

  const ExampleLosses: seq<Loss> := [Some(5.0), Some(4.0), Some(6.0), Some(3.0), Some(3.0), Some(2.0)]

  /** Which epochs of 5, 4, 6, 3, 3, 2 are records: a tie is none. */
  lemma ExampleRecordFlags()
    ensures IsRecord(ExampleLosses, 0) && IsRecord(ExampleLosses, 1) && !IsRecord(ExampleLosses, 2)
    ensures IsRecord(ExampleLosses, 3) && !IsRecord(ExampleLosses, 4) && IsRecord(ExampleLosses, 5)
  {
    var vs := ExampleLosses;
    assert !IsRecord(vs, 2) by { assert vs[1].Some? && !(vs[2].value < vs[1].value); }
    assert !IsRecord(vs, 4) by { assert vs[3].Some? && !(vs[4].value < vs[3].value); }
  }

  /** The records of 5, 4, 6, 3, 3, 2 are epochs 0, 1, 3 and 5. */
  lemma ExampleRecords()
    ensures RecordEpochs(ExampleLosses) == [0, 1, 3, 5]
  {
    var vs := ExampleLosses;
    ExampleRecordFlags();
    assert RecordsBelow(vs, 0) == [];
    assert RecordsBelow(vs, 1) == [0];
    assert RecordsBelow(vs, 2) == [0, 1];
    assert RecordsBelow(vs, 3) == [0, 1];
    assert RecordsBelow(vs, 4) == [0, 1, 3];
    assert RecordsBelow(vs, 5) == [0, 1, 3];
  }

  const ExampleInputs: seq<EpochInput> := [ValidationOnly(5.0), ValidationOnly(4.0), ValidationOnly(6.0),
                                           ValidationOnly(3.0), ValidationOnly(3.0), ValidationOnly(2.0)]

  /** Each of the example epochs has one validation task, scoring the example loss. */
  lemma ExampleHistory(s: TrainSetup)
    ensures Epochs(s, ExampleInputs).Success? && Epochs(s, ExampleInputs).value.valLosses == ExampleLosses
  {
    var xs, vs := ExampleInputs, ExampleLosses;
    assert forall k :: 0 <= k < |xs| ==> xs[k] == ValidationOnly(vs[k].value) && vs[k].Some?;
    EpochsHistories(s, xs);
    var r := Epochs(s, xs).value;
    forall k | 0 <= k < |xs| ensures r.valLosses[k] == vs[k] {
      SingleLoss(vs[k].value);
    }
  }

  /** Validation losses 5, 4, 6, 3, 3, 2 write checkpoints at epochs 0, 1, 3 and 5 only, and end with
      a best loss of 2. */
  lemma ExampleCheckpoints(s: TrainSetup)
    ensures var r := Epochs(s, ExampleInputs);
            && r.Success? && r.value.best == Finite(2.0) && CheckpointEpochs(r.value.checkpoints) == [0, 1, 3, 5]
  {
    ExampleHistory(s);
    CheckpointsAreRecordEpochs(s, ExampleInputs);
    ExampleRecords();
    BestIsMinimum(s, ExampleInputs);
    var r := Epochs(s, ExampleInputs).value;
    assert r.valLosses[5] == Some(2.0);
  }
}
