/** What the pseudo-label engine promises beyond the walk: how padding,
    thresholding, reconciliation with ground truth, weighting and the one-hot
    encoding relate to one another. */
module LabelProperties {
  import opened MilUtils

  // ---------------------------------------------------------------------
  // pad_array
  // ---------------------------------------------------------------------

  /** The padded table is determined by the predictions and their indices:
      two results of pad_array on the same input agree row by row. */
  lemma PaddedUnique(predictions: seq<seq<real>>, predictionIndices: seq<nat>, length: nat, width: nat,
                     a: seq<seq<real>>, b: seq<seq<real>>)
    requires |predictionIndices| == |predictions|
    requires PaddedFrom(predictions, predictionIndices, length, width, a)
    requires PaddedFrom(predictions, predictionIndices, length, width, b)
    ensures a == b
  {
    forall i | 0 <= i < length ensures a[i] == b[i] {
      if i in predictionIndices {
        var j :| 0 <= j < |predictionIndices| && predictionIndices[j] == i;
        assert a[i] == predictions[j] == b[i];
      }
    }
  }

  // ---------------------------------------------------------------------
  // get_ssl_pseudo_labels
  // ---------------------------------------------------------------------

  /** argmax of the thresholded row: when some score clears the threshold it
      is the first such position, otherwise position 0. */
  lemma ThresholdArgmax(scores: seq<real>)
    requires |scores| > 0
    ensures var m := Argmax(AboveThreshold(scores));
      && ((exists j | 0 <= j < |scores| :: scores[j] > ConfidenceThreshold) ==>
            scores[m] > ConfidenceThreshold && forall j | 0 <= j < m :: scores[j] <= ConfidenceThreshold)
      && ((forall j | 0 <= j < |scores| :: scores[j] <= ConfidenceThreshold) ==> m == 0)
  {
    var v := AboveThreshold(scores);
    var m := Argmax(v);
    if exists j | 0 <= j < |scores| :: scores[j] > ConfidenceThreshold {
      var j :| 0 <= j < |scores| && scores[j] > ConfidenceThreshold;
      assert v[j] == 1.0 && v[j] <= v[m];
      forall j' | 0 <= j' < m ensures scores[j'] <= ConfidenceThreshold {
        assert v[j'] < v[m];
      }
    } else {
      assert v[0] == 0.0 && v[m] == 0.0;
    }
  }

  /** An SSL pseudo-label c is the lowest class whose score clears the
      threshold, provided that class is not 0. */
  lemma SslLabelMeaning(scores: seq<real>, c: nat)
    requires 0 < c < |scores|
    ensures SslLabel(scores, |scores|) == c <==>
      scores[c] > ConfidenceThreshold && forall j | 0 <= j < c :: scores[j] <= ConfidenceThreshold
  {
    ThresholdArgmax(scores);
  }

  /** A tile stays unlabeled exactly when class 0 clears the threshold or no
      class does. */
  lemma SslUnlabeledMeaning(scores: seq<real>)
    requires |scores| > 0
    ensures SslLabel(scores, |scores|) == |scores| <==>
      scores[0] > ConfidenceThreshold || forall j | 0 <= j < |scores| :: scores[j] <= ConfidenceThreshold
  {
    ThresholdArgmax(scores);
  }

  /** With two classes above the threshold the lower one is chosen, not the
      more confident one. */
  lemma SslLowestConfidentClassExample()
    ensures SslLabel([0.0, 0.96, 0.99], 3) == 1
  {
    var scores := [0.0, 0.96, 0.99];
    SslLabelMeaning(scores, 1);
  }

  function Sum(s: seq<real>): real {
    if s == [] then 0.0 else Sum(s[..|s| - 1]) + s[|s| - 1]
  }

  /** A row of class probabilities: no negative entry, total at most 1. */
  predicate ProbabilityRow(scores: seq<real>) {
    && (forall j | 0 <= j < |scores| :: 0.0 <= scores[j])
    && Sum(scores) <= 1.0
  }

  lemma {:induction false} SumNonnegative(s: seq<real>)
    requires forall j | 0 <= j < |s| :: 0.0 <= s[j]
    ensures Sum(s) >= 0.0
  {
    if s != [] {
      SumNonnegative(s[..|s| - 1]);
    }
  }

  lemma {:induction false} SumAtLeastOne(s: seq<real>, i: nat)
    requires forall j | 0 <= j < |s| :: 0.0 <= s[j]
    requires i < |s|
    ensures Sum(s) >= s[i]
  {
    var n := |s| - 1;
    if i == n {
      SumNonnegative(s[..n]);
    } else {
      assert s[..n][i] == s[i];
      SumAtLeastOne(s[..n], i);
    }
  }

  lemma {:induction false} SumAtLeastPair(s: seq<real>, i: nat, j: nat)
    requires forall k | 0 <= k < |s| :: 0.0 <= s[k]
    requires i < j < |s|
    ensures Sum(s) >= s[i] + s[j]
  {
    var n := |s| - 1;
    assert s[..n][i] == s[i];
    if j == n {
      SumAtLeastOne(s[..n], i);
    } else {
      assert s[..n][j] == s[j];
      SumAtLeastPair(s[..n], i, j);
    }
  }

  /** On a probability row the SSL rule is the FixMatch rule it is meant to
      be: the most confident class, when its score clears the threshold and
      it is not class 0; otherwise unlabeled. At most one class can clear
      0.95 on such a row, so "lowest" and "most confident" coincide. */
  lemma SslOnProbabilityRow(scores: seq<real>)
    requires |scores| > 0 && ProbabilityRow(scores)
    ensures var a := Argmax(scores);
      SslLabel(scores, |scores|) == if a > 0 && scores[a] > ConfidenceThreshold then a else |scores|
  {
    var a := Argmax(scores);
    var m := Argmax(AboveThreshold(scores));
    ThresholdArgmax(scores);
    if scores[a] > ConfidenceThreshold {
      assert scores[m] > ConfidenceThreshold;
      if m < a {
        SumAtLeastPair(scores, m, a);
      } else if a < m {
        SumAtLeastPair(scores, a, m);
      }
      assert m == a;
    } else {
      assert forall j | 0 <= j < |scores| :: scores[j] <= scores[a];
      assert m == 0;
    }
  }

  // ---------------------------------------------------------------------
  // Reconciliation with ground truth
  // ---------------------------------------------------------------------

  /** A training target is left unresolved exactly when neither the ground
      truth nor the pseudo-label knows the tile's class. */
  lemma ReconcileUnresolved(gt: seq<nat>, pseudo: seq<nat>, numClasses: nat)
    requires |gt| == |pseudo|
    ensures var t := CombineWithGroundTruth(gt, pseudo, numClasses);
      forall i | 0 <= i < |gt| :: t[i] == numClasses <==> gt[i] == numClasses && pseudo[i] == numClasses
  {
  }

  /** Reconciling a second time with the same ground truth changes nothing. */
  lemma ReconcileIdempotent(gt: seq<nat>, pseudo: seq<nat>, numClasses: nat)
    requires |gt| == |pseudo|
    ensures var t := CombineWithGroundTruth(gt, pseudo, numClasses);
      CombineWithGroundTruth(gt, t, numClasses) == t
  {
  }

  // ---------------------------------------------------------------------
  // Sample weights of reconciled targets
  // ---------------------------------------------------------------------

  /** Once the targets are reconciled, a tile's weight category is read off
      its ground truth and pseudo-label: negative ground truth, positive
      ground truth, unknown ground truth with a pseudo-label, or unknown
      ground truth without one. */
  lemma ReconciledProvenance(gt: seq<nat>, pseudo: seq<nat>, numClasses: nat, i: nat)
    requires |gt| == |pseudo| && i < |gt| && numClasses > 0
    ensures var p := WeightRule(gt[i], CombineWithGroundTruth(gt, pseudo, numClasses)[i], numClasses);
      && (p == NegativeGt <==> gt[i] == 0)
      && (p == PositiveGt <==> gt[i] != 0 && gt[i] != numClasses)
      && (p == Pseudo <==> gt[i] == numClasses && pseudo[i] != numClasses)
      && (p == Soft <==> gt[i] == numClasses && pseudo[i] == numClasses)
  {
  }

  /** A tile trained on its soft label (its padded prediction row) is exactly
      a tile weighted with the soft-label weight. */
  lemma SoftTargetsCarrySoftWeight(gt: seq<nat>, pseudo: seq<nat>, padded: seq<seq<real>>, w: LabelWeights,
                                   numClasses: nat, out: TrainingTargets, i: nat)
    requires |gt| == |pseudo| == |padded| && i < |gt|
    requires TargetsFrom(gt, CombineWithGroundTruth(gt, pseudo, numClasses), padded, w, numClasses, out)
    ensures var t := CombineWithGroundTruth(gt, pseudo, numClasses);
      && (t[i] == numClasses <==> WeightRule(gt[i], t[i], numClasses) == Soft)
      && (t[i] == numClasses ==> out.targets[i] == padded[i] && out.sampleWeights[i] == w.softLabels)
  {
  }

  /** get_one_hot_training_targets weights every tile as if its pseudo-label
      were class 0: no tile is ever weighted as soft, a tile without ground
      truth would be weighted as pseudo-labelled, and once every class is
      known the weight is the negative or the positive one by whether the
      class is 0. */
  lemma SupervisedProvenance(gt: nat, numClasses: nat)
    requires numClasses > 0
    ensures WeightRule(gt, 0, numClasses) != Soft
    ensures gt == numClasses ==> WeightRule(gt, 0, numClasses) == Pseudo
    ensures gt < numClasses ==> (WeightRule(gt, 0, numClasses) == NegativeGt <==> gt == 0)
    ensures gt < numClasses ==> (WeightRule(gt, 0, numClasses) == PositiveGt <==> gt != 0)
  {
  }

  // ---------------------------------------------------------------------
  // One-hot targets
  // ---------------------------------------------------------------------

  /** argmax inverts the one-hot encoding. */
  lemma OneHotRoundTrip(target: nat, width: nat)
    requires target < width
    ensures Argmax(OneHotRow(target, width)) == target
  {
    var row := OneHotRow(target, width);
    var m := Argmax(row);
    assert row[target] <= row[m];
  }

  /** Every row get_one_hot produces decodes back to its target. */
  lemma GetOneHotDecodes(targets: seq<nat>, nbClasses: nat)
    requires GetOneHot(targets, nbClasses).Some?
    ensures var rows := GetOneHot(targets, nbClasses).value;
      forall i | 0 <= i < |targets| :: |rows[i]| > 0 && Argmax(rows[i]) == targets[i]
  {
    var rows := GetOneHot(targets, nbClasses).value;
    forall i | 0 <= i < |targets| ensures |rows[i]| > 0 && Argmax(rows[i]) == targets[i] {
      assert rows[i] == OneHotRow(targets[i], nbClasses);
      OneHotRoundTrip(targets[i], nbClasses);
    }
  }

  /** The targets convert_to_one_hot_and_soft_labels builds decode back to the
      training targets wherever those name a class; where they are the
      unlabeled index the row is the tile's own prediction. */
  lemma ConvertDecodes(targets: seq<nat>, predictions: seq<seq<real>>, numClasses: nat)
    requires |targets| == |predictions| && IsMatrix(predictions, numClasses)
    requires ConvertToOneHotAndSoftLabels(targets, predictions, numClasses).Some?
    ensures var rows := ConvertToOneHotAndSoftLabels(targets, predictions, numClasses).value;
      forall i | 0 <= i < |targets| ::
        if targets[i] < numClasses then Argmax(rows[i]) == targets[i] else rows[i] == predictions[i]
  {
    var rows := ConvertToOneHotAndSoftLabels(targets, predictions, numClasses).value;
    forall i | 0 <= i < |targets|
      ensures if targets[i] < numClasses then Argmax(rows[i]) == targets[i] else rows[i] == predictions[i]
    {
      if targets[i] < numClasses {
        OneHotRoundTrip(targets[i], numClasses);
      }
    }
  }
}
