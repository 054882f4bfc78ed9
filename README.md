# Pseudo-labels, sample weights and Gleason grading, in Dafny

This project models the label logic of a weakly supervised prostate-cancer
tile classifier and proves properties of it.

- **Pseudo-label and sample-weight engine** (`src/utils/mil_utils.py`). The
  input is a table of tiles, where each row names its whole-slide image
  (WSI), its ground-truth class (the *unlabeled index*, equal to the number of
  classes, when unknown), the slide's weak labels and the slide's
  `wsi_contains_unlabeled` flag. The engine:
  1. pads the predictions made on some tiles to the whole table
     (`pad_array`);
  2. derives one pseudo-label per tile, either by multiple-instance learning
     (MIL: walk the table slide block by slide block and, in each flagged
     block, give the top-k tiles for each weak label that label) or
     semi-supervised (SSL: threshold each tile's scores at 0.95);
  3. lets ground truth override the pseudo-label;
  4. weights each tile by where its label came from, through four ordered
     overwrites and a final assertion;
  5. builds one-hot targets, or soft targets (the tile's own prediction row)
     where no label is known.
- **Clinical grading** (`src/utils/wsi_prostate_cancer_utils.py`).
  `calc_gleason_grade` maps a four-bin count vector to a (primary,
  secondary) Gleason pattern pair. `get_gleason_score_and_isup_grade` adds
  the Gleason score and the ISUP grade (a ten-entry table, ISUP 2014 grade
  groups) to a slide table, and asserts that every pair was in the table.

Modules:

- `Wrappers` (`wrappers.dfy`): `Option` and `Result`.
- `Ranking` (`ranking.dfy`): the two uses of `np.argsort`. The descending
  top-k is specified relationally by `IsTopK`, because the default sort kind
  does not fix the order of ties. `TopIndices` computes one such list, and
  always the same one for the same scores (`Selected`), as argsort does.
  `Argsort` is an ascending insertion argsort for the three Gleason bins.
- `MilUtils` (`mil_utils.dfy`): the data model and every operation of
  `mil_utils.py` in the core.
  - Loops stay loops: `PadArray`, `GetMilPseudoLabels` (its `while True`
    walk over an array of labels) and `GetSslPseudoLabels`.
  - Imperative steps stay imperative: `CalculateSampleWeights` rebinds its
    weights through four `np.where` overwrites, in the code's order.
  - Single expressions are functions: the reconciliation, `GetOneHot` and
    `ConvertToOneHotAndSoftLabels`.
  - On inputs that meet the `requires` clauses, every Python exception is a
    `Failure` value. The clauses that stand in for a raise or a silent
    numpy behaviour are listed under "Left out".
- `WalkProperties` (`walk_properties.dfy`): how the MIL walk cuts the
  table into blocks.
- `MilProperties` (`mil_properties.dfy`): where MIL pseudo-labels appear,
  how many there are, which tiles get them, and a worked example.
- `LabelProperties` (`label_properties.dfy`): padding, the SSL rule,
  reconciliation, weights and one-hot decoding.
- `ProstateGrading` (`prostate_grading.dfy`): `calc_gleason_grade`, the ISUP
  table, and a `WsiGradeTable` class whose method adds the two columns in
  place.

### Where the code departs from what it is compared with

The model follows the code. In three places the code does not do what one
would expect of it:

- **SSL picks the lowest confident class, not the most confident one.**
  The threshold is the FixMatch one (the comment on
  `src/utils/mil_utils.py:55`), and FixMatch labels a tile with its most
  confident class. Here `np.argmax` is applied to the 0/1 thresholded row, so it returns the
  lowest class above 0.95 (`SslLabelMeaning`,
  `SslLowestConfidentClassExample`). On a row of probabilities at most one
  class can exceed 0.95, and then the two rules agree
  (`SslOnProbabilityRow`).
- **The walk has no partition check: nothing makes the blocks the slides.**
  A block ends at `row + len(wsi_df)`, where `len(wsi_df)` counts the
  slide's rows anywhere in the table. A slide split around another one can
  pass unnoticed (`WalkAcceptsSplitSlide`). Only a block that runs past the
  end of the table raises (`WalkRejectsInterleavedSlide`). When every slide
  is contiguous and every flagged slide's weak labels are below the number
  of classes, the walk never raises and its blocks are exactly the slides
  (`ContiguousWalk`). A weak label with no column still raises an
  IndexError at line 42.
- **Ties in the MIL top-k have no lowest-index tie-break.** The code takes
  `argsort(...)[::-1][:k]` with the default, unstable sort kind. Even a
  stable sort would put the highest index first after the reversal. The
  model therefore states only what holds for every tie order (`IsTopK`).

## Model

| member | source | states |
|---|---|---|
| MilUtils.PadArray | src/utils/mil_utils.py:86-89 | fails exactly when an index lies beyond the table; otherwise row `prediction_indices[j]` holds `predictions[j]` and every other row is zeros |
| LabelProperties.PaddedUnique | src/utils/mil_utils.py:86-89 | the padded table is determined by the predictions and their indices |
| MilUtils.BlockWalk | src/utils/mil_utils.py:30-51 | the walk fails only with a weak label beyond the prediction columns or with a block overshooting the table |
| MilUtils.BlockWalkShape | src/utils/mil_utils.py:30-51 | a successful walk's blocks are consecutive, cover the table exactly, each starts a slide's block at its `row + len(wsi_df)` end, and flagged ones have in-range weak labels |
| WalkProperties.TileInOneBlock | src/utils/mil_utils.py:30-51 | after a successful walk every tile lies in exactly one block |
| WalkProperties.ContiguousBlockEnd | src/utils/mil_utils.py:33-38 | on a contiguous table, `row + len(wsi_df)` from a slide's first row is the end of that slide's run |
| WalkProperties.WalkOfCountedRuns | src/utils/mil_utils.py:30-51 | from a run start, with block ends at run ends and in-range weak labels, the walk succeeds with one run per block |
| WalkProperties.ContiguousWalk | src/utils/mil_utils.py:30-51 | a contiguous table with in-range weak labels never raises and is cut exactly into its slides |
| WalkProperties.WalkAcceptsSplitSlide | src/utils/mil_utils.py:33-51 | the table A,B,B,A is accepted and cut into blocks [0,2) and [2,4) |
| WalkProperties.WalkRejectsInterleavedSlide | src/utils/mil_utils.py:33-51 | the table A,B,A raises the overshoot exception |
| Ranking.TopIndices | src/utils/mil_utils.py:42-43 | returns min(k, n) distinct positions in non-increasing score order, none scoring below a position left out; the list is a function of the scores, so equal columns give equal lists |
| MilUtils.LabelFlaggedBlock | src/utils/mil_utils.py:41-45 | the label array afterwards is the block's default labels overwritten by one top-k pass per weak label, in order, and nothing outside the block changes |
| MilUtils.GetMilPseudoLabels | src/utils/mil_utils.py:27-52 | fails on an empty table, fails exactly when the walk fails and with the walk's error, and otherwise labels every block by its top-k passes (or not at all when the block is not flagged), passes of equal labels taking the same list, every label a class or the unlabeled index |
| MilProperties.MilLabelsComeFromWeakLabels | src/utils/mil_utils.py:35-45 | a MIL label other than the unlabeled index lies in a flagged block holding the tile, and is one of that block's weak labels |
| MilProperties.LabelInBlock | src/utils/mil_utils.py:40-45 | inside a block a tile is unlabeled or, when the block is flagged, carries one of its weak labels |
| MilProperties.OnePass | src/utils/mil_utils.py:42-45 | one top-k pass over an unlabeled block labels exactly min(k, size) tiles, each scoring at least as high as every tile left unlabeled |
| MilProperties.TwoPasses | src/utils/mil_utils.py:41-45 | with two passes the secondary one, run last, holds exactly min(k, size) tiles that score highest in its column, also when the two labels are equal and both passes take the same list; for distinct labels the primary label stays exactly on the primary top-k tiles the secondary missed, and each outscores every unlabeled tile |
| MilProperties.SingleLabelBlock | src/utils/mil_utils.py:41-45 | in a flagged single-label block exactly min(k, size) tiles receive the label, and they outscore every unlabeled tile in that class |
| MilProperties.TwoLabelBlock | src/utils/mil_utils.py:41-45 | in a flagged primary/secondary block the secondary label goes to exactly min(k, size) best tiles for it, equal labels included; for distinct labels the primary label is on exactly the tiles of a primary top-k list that the secondary did not take, each outscoring every unlabeled tile |
| MilProperties.ExampleOutcome | src/utils/mil_utils.py:27-52 | one flagged slide of four tiles, weak label 1, k = 1, class-1 scores 0.1, 0.9, 0.3, 0.2: only the second tile is labelled 1 |
| MilProperties.TiedEqualLabelsOutcome | src/utils/mil_utils.py:27-52 | a flagged slide of two tied tiles with primary and secondary label 0, k = 1: exactly one tile is labelled 0, whichever the tie order picks |
| MilUtils.Argmax | src/utils/mil_utils.py:59 | the first position holding the largest value |
| MilUtils.GetSslPseudoLabels | src/utils/mil_utils.py:54-62 | each tile's label is the argmax of its thresholded row when that is above 0, else the unlabeled index |
| LabelProperties.ThresholdArgmax | src/utils/mil_utils.py:57-59 | argmax of the thresholded row is the first class above 0.95, or 0 when there is none |
| LabelProperties.SslLabelMeaning | src/utils/mil_utils.py:55-61 | a tile gets class c > 0 exactly when c is above 0.95 and no lower class is |
| LabelProperties.SslUnlabeledMeaning | src/utils/mil_utils.py:55-61 | a tile stays unlabeled exactly when class 0 is above 0.95 or no class is |
| LabelProperties.SslLowestConfidentClassExample | src/utils/mil_utils.py:57-61 | scores 0.0, 0.96, 0.99 give class 1, not the more confident class 2 |
| LabelProperties.SslOnProbabilityRow | src/utils/mil_utils.py:55-61 | on a probability row the label is the most confident class when it is above 0.95 and not 0, else unlabeled |
| MilUtils.CombineWithGroundTruth | src/utils/mil_utils.py:20 | the target is the ground truth where it is known and the pseudo-label elsewhere |
| LabelProperties.ReconcileUnresolved | src/utils/mil_utils.py:20 | a target is left unlabeled exactly when both ground truth and pseudo-label are |
| LabelProperties.ReconcileIdempotent | src/utils/mil_utils.py:20 | reconciling again with the same ground truth changes nothing |
| MilUtils.WeightRule | src/utils/mil_utils.py:98-102 | the category the last applicable overwrite selects, as four if-and-only-if conditions on ground truth and pseudo-label; some overwrite always applies |
| MilUtils.CalculateSampleWeights | src/utils/mil_utils.py:91-105 | each weight is the one its category selects; the assertion fails exactly when a weight a tile uses is configured as -1 |
| LabelProperties.ReconciledProvenance | src/utils/mil_utils.py:20-22 | after reconciliation: gt 0 is negative, other known gt positive, unknown gt with a pseudo-label pseudo, unknown gt without one soft |
| LabelProperties.SoftTargetsCarrySoftWeight | src/utils/mil_utils.py:20-23 | a tile trained on its prediction row is exactly a tile weighted as soft, and it gets the soft-label weight |
| LabelProperties.SupervisedProvenance | src/utils/mil_utils.py:5-6 | with all-zero pseudo-labels no tile is weighted as soft, and a known class is weighted negative or positive by whether it is 0 |
| MilUtils.OneHotRow | src/utils/mil_utils.py:72 | row `target` of the identity: 1 at the target, 0 elsewhere |
| MilUtils.GetOneHot | src/utils/mil_utils.py:71-73 | defined exactly when every target is below `nb_classes`; each row then has one 1 at the target and 0 elsewhere |
| LabelProperties.OneHotRoundTrip | src/utils/mil_utils.py:71-73 | argmax inverts the one-hot encoding |
| LabelProperties.GetOneHotDecodes | src/utils/mil_utils.py:71-73 | every row of `get_one_hot` decodes back to its target |
| MilUtils.ConvertToOneHotAndSoftLabels | src/utils/mil_utils.py:64-69 | defined exactly when no target exceeds the unlabeled index; a row is the prediction where the target is unlabeled and the one-hot row of the target elsewhere, width the number of classes |
| LabelProperties.ConvertDecodes | src/utils/mil_utils.py:64-69 | rows of known targets decode back to them; rows of unlabeled targets are the tile's predictions |
| MilUtils.PseudoLabels | src/utils/mil_utils.py:16-19 | SSL mode fails only on rows with no classes, MIL mode exactly when the walk fails and with its error; the labels are the mode's pseudo-labels, each a class or the unlabeled index |
| MilUtils.CombinePseudoLabelsWithInstanceLabels | src/utils/mil_utils.py:11-25 | fails on no predictions and on an index beyond the table; then fails on class-less rows in SSL mode and with the walk's error exactly when the MIL walk fails; succeeds whenever the mode's labelling succeeds, every weight is configured and every ground-truth class is at most the unlabeled index; on success the targets and weights are built from the padded predictions, the mode's pseudo-labels and the ground truth |
| MilUtils.GetOneHotTrainingTargets | src/utils/mil_utils.py:3-9 | succeeds exactly when every used weight is set and every class is known; weights are those of all-zero pseudo-labels and targets are one-hot rows |
| Ranking.Argsort | src/utils/wsi_prostate_cancer_utils.py:74-75 | a permutation of the positions ordering the values from smallest to largest |
| ProstateGrading.CalcGleasonGrade | src/utils/wsi_prostate_cancer_utils.py:53-77 | patterns in {0,3,4,5}; (0,0) exactly without pattern evidence; equal patterns exactly with at most one nonzero bin; otherwise the primary bin is the largest and the secondary the largest of the rest |
| ProstateGrading.TopTwoOfArgsort | src/utils/wsi_prostate_cancer_utils.py:74-75 | the last two argsort entries over three bins are different, the largest bin and the largest of the other two |
| ProstateGrading.DegenerateGrades | src/utils/wsi_prostate_cancer_utils.py:58-70 | no evidence gives (0,0); evidence only in bin 1, 2 or 3 gives (3,3), (4,4) or (5,5) |
| ProstateGrading.TwoPatternGrade | src/utils/wsi_prostate_cancer_utils.py:71-75 | with two or more nonzero non-negative bins the patterns differ, lie in {3,4,5}, the primary count is the maximum and the secondary count is positive and at least the third |
| ProstateGrading.GradeIgnoresBenignBinAndConfidences | src/utils/wsi_prostate_cancer_utils.py:53-75 | the grade depends only on bins 1 to 3 |
| ProstateGrading.RankedExample | src/utils/wsi_prostate_cancer_utils.py:72-75 | counts 1, 2, 5, 3 give (4, 5) |
| ProstateGrading.IsupGrade | src/utils/wsi_prostate_cancer_utils.py:36-45 | the ten-entry table; -1 exactly for a pair outside it |
| ProstateGrading.IsupGrades | src/utils/wsi_prostate_cancer_utils.py:35-45 | the ten overwrites starting from -1 leave each row's table entry |
| ProstateGrading.IsupTableAsymmetry | src/utils/wsi_prostate_cancer_utils.py:37-45 | (3,4) is 2 but (4,3) is 3; (4,4) is 4 but (4,5) is 5 |
| ProstateGrading.IsupAgreesWithGradeGroup | src/utils/wsi_prostate_cancer_utils.py:36-45 | every pair in the table is graded by its Gleason score, with 7 split by the primary pattern |
| ProstateGrading.GradeIsAlwaysInIsupTable | src/utils/wsi_prostate_cancer_utils.py:36-46 | every pair `calc_gleason_grade` returns is in the table; its score is one of 0, 6..10 and its ISUP grade lies in 0..5 |
| ProstateGrading.WsiGradeTable.GetGleasonScoreAndIsupGrade | src/utils/wsi_prostate_cancer_utils.py:31-50 | adds gleason_score as the pattern sum; succeeds exactly when every pair is in the table, and then adds isup_grade in 0..5 from the table |

## Left out

- `src/mlflow_log.py`: experiment tracking, a Keras callback and file I/O.
- `calc_wsi_prostate_cancer_metrics`: a wrapper over scikit-learn's kappa and confusion matrix, which are not part of this model. The kappa values are floating point.
- `get_data_generator_with_targets` and `get_data_generator_without_targets`: generator plumbing over an external data loader.
- pandas mechanics: the table is a sequence of records. `train_df['col'][row]` (by label) and `.iloc[row]` (by position) are taken to agree, as they do with the default index. DataFrame filtering, dtype coercion and `astype(np.int)` are not modelled.
- MilUtils.PadArray: requires as many prediction indices as prediction rows. With other lengths numpy raises a shape-mismatch ValueError, or with a single row broadcasts it to every index. Neither is modelled.
- MilUtils.PadArray: requires distinct prediction indices. With a repeated index numpy keeps one of the rows without saying which, and the model does not choose.
- MilUtils.GetMilPseudoLabels: the weak labels and the flag are read from each block's first row, as the code does. Rows of the same slide that disagree on them are not reconciled.
- MilUtils.GetMilPseudoLabels: the top-k tie order of `argsort` is not modelled. The contract allows every order of tied scores, so it is weaker than any one numpy run. It does keep that argsort gives the same list for the same column, so passes of equal weak labels agree.
- Ranking.Argsort fixes ties in index order. The contracts of ProstateGrading.CalcGleasonGrade hold for any order of tied counts.
- MilUtils.GetSslPseudoLabels takes neither the tile table nor k, because the code does not use them.
- MilUtils.CombinePseudoLabelsWithInstanceLabels: once the labelling succeeds, the success condition is sufficient, not exact. It asks every configured weight to be set, where the code only needs the weights of the categories that occur. Exactly when those fail is stated by `CalculateSampleWeights` and `ConvertToOneHotAndSoftLabels`.
- Class labels, targets and indices are natural numbers. A negative index, which numpy would count from the end, is not modelled.
- Scores and weights are mathematical reals. NaN and float rounding are not modelled; scores are only compared and copied. The -1 starting value of the weights is the real -1.0, and the integer dtype of that starting array is not modelled.
- `get_one_hot` is modelled for one-dimensional targets only; the reshape to higher-dimensional target arrays is left out.
