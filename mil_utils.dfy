/** The pseudo-label and sample-weight engine: from per-tile class scores and a
    tile table it derives one pseudo-label per tile (multiple-instance top-k
    or semi-supervised thresholding), lets ground truth override it, weights
    each tile by where its label came from, and builds one-hot or soft
    training targets. */
module MilUtils {
  import opened Wrappers
  import opened Ranking

  /** The fixed confidence a score must exceed to become an SSL pseudo-label. */
  const ConfidenceThreshold: real := 0.95

  /** The value sample weights start from; none may survive to the output. */
  const UnsetWeight: real := -1.0

  // ---------------------------------------------------------------------
  // Data model
  // ---------------------------------------------------------------------

  /** A slide's weak labels, repeated on each of its rows: either one
      wsi_label column or the wsi_primary_label/wsi_secondary_label pair. */
  datatype WeakLabels = WsiLabel(wsiLabel: nat) | WsiPrimarySecondary(primary: nat, secondary: nat)

  /** One row of the tile table: the slide it belongs to, its ground-truth
      class (the unlabeled index when unknown), the slide's weak labels and
      whether the slide contains unlabeled tiles. */
  datatype Tile = Tile(wsi: string, gtClass: nat, weak: WeakLabels, containsUnlabeled: bool)

  /** The four configured weights, one per label provenance. */
  datatype LabelWeights = LabelWeights(positiveGtLabels: real, negativeGtLabels: real,
                                       pseudoLabels: real, softLabels: real)

  /** What the Python code raises, by the point where it raises it. */
  datatype Failure =
    | EmptyTable                 // train_df['wsi'].iloc[0] on a table with no rows
    | WeakLabelOutOfRange        // predictions[row:end, wsi_label] with no such column
    | BlockOvershoot             // 'Error in pseudo labeling with dataframes'
    | EmptyPredictions           // predictions[0] with no predictions
    | PredictionIndexOutOfRange  // padded_array[prediction_indices] beyond the table
    | EmptyScoreRow              // np.argmax of a row with no classes
    | UnweightedSample           // assert np.all(sample_weights != -1) fails
    | TargetOutOfRange           // np.eye(nb_classes)[targets] beyond the identity

  /** The tiles' weak labels in the order the passes visit them. */
  function WsiLabels(w: WeakLabels): (labels: seq<nat>)
    ensures 1 <= |labels| <= 2
  {
    match w
    case WsiLabel(c) => [c]
    case WsiPrimarySecondary(p, s) => [p, s]
  }

  /** The ground-truth column train_df['class']. */
  function Classes(table: seq<Tile>): (gt: seq<nat>)
    ensures |gt| == |table| && forall i | 0 <= i < |table| :: gt[i] == table[i].gtClass
  {
    seq(|table|, i requires 0 <= i < |table| => table[i].gtClass)
  }

  /** Every row of `m` has `width` scores. */
  predicate IsMatrix(m: seq<seq<real>>, width: nat) {
    forall i | 0 <= i < |m| :: |m[i]| == width
  }

  function Zeros(width: nat): seq<real> { seq(width, _ => 0.0) }

  /** np.full(n, fill_value=v) */
  function Fill(n: nat, v: nat): (s: seq<nat>)
    ensures |s| == n && forall i | 0 <= i < n :: s[i] == v
  {
    seq(n, _ => v)
  }

  // ---------------------------------------------------------------------
  // pad_array
  // ---------------------------------------------------------------------

  /** `padded` holds prediction j at row predictionIndices[j] and zeros in
      every row no prediction is for. */
  predicate PaddedFrom(predictions: seq<seq<real>>, predictionIndices: seq<nat>, length: nat, width: nat,
                       padded: seq<seq<real>>)
    requires |predictionIndices| == |predictions|
  {
    && |padded| == length && IsMatrix(padded, width)
    && (forall j | 0 <= j < |predictions| :: predictionIndices[j] < length && padded[predictionIndices[j]] == predictions[j])
    && (forall i | 0 <= i < length && i !in predictionIndices :: padded[i] == Zeros(width))
  }

  /** pad_array: scatters the predictions made on a subset of the tiles into
      the row space of the whole table. The indices must be distinct (numpy
      leaves the winner of a repeated index unspecified); one beyond the
      table is numpy's IndexError. */
  method PadArray(predictions: seq<seq<real>>, predictionIndices: seq<nat>, length: nat, width: nat)
    returns (r: Result<seq<seq<real>>, Failure>)
    requires IsMatrix(predictions, width)
    requires |predictionIndices| == |predictions| && Distinct(predictionIndices)
    ensures r.Success? <==> forall j | 0 <= j < |predictionIndices| :: predictionIndices[j] < length
    ensures r.Failure? ==> r.error == PredictionIndexOutOfRange
    ensures r.Success? ==> PaddedFrom(predictions, predictionIndices, length, width, r.value)
  {
    if exists j | 0 <= j < |predictionIndices| :: predictionIndices[j] >= length {
      return Failure(PredictionIndexOutOfRange);
    }
    var padded := new seq<real>[length](_ => Zeros(width));
    for j := 0 to |predictions|
      invariant forall j' | 0 <= j' < j :: padded[predictionIndices[j']] == predictions[j']
      invariant forall i | 0 <= i < length && i !in predictionIndices[..j] :: padded[i] == Zeros(width)
    {
      padded[predictionIndices[j]] := predictions[j];
    }
    assert predictionIndices[..|predictions|] == predictionIndices;
    return Success(padded[..]);
  }

  // ---------------------------------------------------------------------
  // The walk over slide blocks (get_mil_pseudo_labels)
  // ---------------------------------------------------------------------

  /** len(train_df[train_df['wsi'] == name]): rows of the whole table, not
      only of the current run, that belong to the slide. */
  function CountWsi(table: seq<Tile>, name: string): (c: nat)
    ensures c <= |table|
  {
    if table == [] then 0
    else CountWsi(table[..|table| - 1], name) + (if table[|table| - 1].wsi == name then 1 else 0)
  }

  lemma {:induction false} CountWsiOfPresent(table: seq<Tile>, row: nat)
    requires row < |table|
    ensures CountWsi(table, table[row].wsi) >= 1
  {
    var n := |table| - 1;
    if row < n {
      assert table[..n][row] == table[row];
      CountWsiOfPresent(table[..n], row);
    }
  }

  /** end_row_wsi = row + len(wsi_df) */
  function BlockEnd(table: seq<Tile>, row: nat): (end: nat)
    requires row < |table|
    ensures end > row
  {
    CountWsiOfPresent(table, row);
    row + CountWsi(table, table[row].wsi)
  }

  predicate LabelsInRange(w: WeakLabels, numClasses: nat) {
    forall j | 0 <= j < |WsiLabels(w)| :: WsiLabels(w)[j] < numClasses
  }

  /** Rows [start, end) handled together as one slide. */
  datatype Block = Block(start: nat, end: nat)

  /** A block the walk produces: it starts at a row, its end is that row's
      BlockEnd, it fits the table, and if its slide is flagged its weak labels
      name columns of the predictions. */
  predicate WalkBlock(table: seq<Tile>, numClasses: nat, b: Block) {
    && b.start < b.end <= |table|
    && b.end == BlockEnd(table, b.start)
    && (table[b.start].containsUnlabeled ==> LabelsInRange(table[b.start].weak, numClasses))
  }

  /** Block b2 starts where block b1 ends. */
  predicate Adjacent(b1: Block, b2: Block) {
    b1.end == b2.start
  }

  /** `blocks` are consecutive and cover [from, to) exactly. */
  predicate Partitions(blocks: seq<Block>, from: nat, to: nat) {
    && |blocks| > 0
    && blocks[0].start == from && blocks[|blocks| - 1].end == to
    && (forall i | 0 <= i < |blocks| :: from <= blocks[i].start < blocks[i].end <= to)
    && (forall i | 0 <= i < |blocks| - 1 :: Adjacent(blocks[i], blocks[i + 1]))
  }

  /** The `while True` walk of get_mil_pseudo_labels from `row`: the blocks it
      visits, or the error that stops it. In a flagged block a weak label with
      no column fails first; then an end past the table is the explicit
      exception; an end exactly at the table's length stops the walk. */
  function BlockWalk(table: seq<Tile>, numClasses: nat, row: nat): (r: Result<seq<Block>, Failure>)
    requires row < |table|
    ensures r.Failure? ==> r.error == WeakLabelOutOfRange || r.error == BlockOvershoot
    decreases |table| - row
  {
    var end := BlockEnd(table, row);
    if table[row].containsUnlabeled && !LabelsInRange(table[row].weak, numClasses) then Failure(WeakLabelOutOfRange)
    else if end == |table| then Success([Block(row, end)])
    else if end > |table| then Failure(BlockOvershoot)
    else
      match BlockWalk(table, numClasses, end)
      case Success(rest) => Success([Block(row, end)] + rest)
      case Failure(e) => Failure(e)
  }

  /** The walk's blocks partition the rest of the table, and each is a block
      the walk would form at its start row. */
  lemma {:induction false} BlockWalkShape(table: seq<Tile>, numClasses: nat, row: nat)
    requires row < |table|
    ensures var r := BlockWalk(table, numClasses, row);
      r.Success? ==> Partitions(r.value, row, |table|) && forall i | 0 <= i < |r.value| :: WalkBlock(table, numClasses, r.value[i])
    decreases |table| - row
  {
    var end := BlockEnd(table, row);
    if end < |table| && !(table[row].containsUnlabeled && !LabelsInRange(table[row].weak, numClasses)) {
      BlockWalkShape(table, numClasses, end);
      var rest := BlockWalk(table, numClasses, end);
      if rest.Success? {
        var b := Block(row, end);
        assert WalkBlock(table, numClasses, b);
        assert BlockWalk(table, numClasses, row) == Success([b] + rest.value);
        PartitionsCons(b, rest.value, |table|);
        ForallCons(table, numClasses, b, rest.value);
      }
    }
  }

  lemma PartitionsCons(b: Block, rest: seq<Block>, to: nat)
    requires b.start < b.end && Partitions(rest, b.end, to)
    ensures Partitions([b] + rest, b.start, to)
  {
    var blocks := [b] + rest;
    assert forall i | 1 <= i < |blocks| :: blocks[i] == rest[i - 1];
    assert Adjacent(blocks[0], blocks[1]);
  }

  lemma ForallCons(table: seq<Tile>, numClasses: nat, b: Block, rest: seq<Block>)
    requires WalkBlock(table, numClasses, b)
    requires forall i | 0 <= i < |rest| :: WalkBlock(table, numClasses, rest[i])
    ensures forall i | 0 <= i < |[b] + rest| :: WalkBlock(table, numClasses, ([b] + rest)[i])
  {
    assert forall i | 1 <= i < |[b] + rest| :: ([b] + rest)[i] == rest[i - 1];
  }

  /** The walk from 0 seen from a later row: blocks already visited, then the
      rest of the walk. */
  function Chain(visited: seq<Block>, rest: Result<seq<Block>, Failure>): Result<seq<Block>, Failure> {
    match rest
    case Success(bs) => Success(visited + bs)
    case Failure(e) => Failure(e)
  }

  // ---------------------------------------------------------------------
  // The top-k passes of a flagged block
  // ---------------------------------------------------------------------

  /** predictions[start:end, c] */
  function ColumnScores(predictions: seq<seq<real>>, b: Block, c: nat): (col: seq<real>)
    requires b.start <= b.end <= |predictions|
    requires forall i | b.start <= i < b.end :: c < |predictions[i]|
    ensures |col| == b.end - b.start
    ensures forall i | 0 <= i < |col| :: col[i] == predictions[b.start + i][c]
  {
    seq(b.end - b.start, i requires 0 <= i < b.end - b.start => predictions[b.start + i][c])
  }

  /** pseudo_labels[top] = c */
  function Scatter(labels: seq<nat>, top: seq<nat>, c: nat): (r: seq<nat>)
    requires forall a | 0 <= a < |top| :: top[a] < |labels|
    ensures |r| == |labels|
    ensures forall i | 0 <= i < |r| :: r[i] == if i in top then c else labels[i]
    decreases |top|
  {
    if top == [] then labels
    else
      var r := Scatter(labels[top[0] := c], top[1..], c);
      assert forall i | 0 <= i < |r| :: (i in top <==> i == top[0] || i in top[1..]);
      r
  }

  predicate IndicesBelow(tops: seq<seq<nat>>, n: nat) {
    forall j, a | 0 <= j < |tops| && 0 <= a < |tops[j]| :: tops[j][a] < n
  }

  /** The passes `for wsi_label in wsi_labels`, in order: each writes its
      label over its top positions, so a later pass wins where they overlap. */
  function ApplyPasses(labels: seq<nat>, ws: seq<nat>, tops: seq<seq<nat>>): (r: seq<nat>)
    requires |ws| == |tops| && IndicesBelow(tops, |labels|)
    ensures |r| == |labels|
    decreases |ws|
  {
    if ws == [] then labels
    else
      var n := |ws| - 1;
      Scatter(ApplyPasses(labels, ws[..n], tops[..n]), tops[n], ws[n])
  }

  /** Each pass's positions are a possible argsort top-k of its label's
      column within the block; the tie order is free, but argsort gives the
      same list for the same column, so passes of equal labels agree. */
  predicate TopKPasses(predictions: seq<seq<real>>, b: Block, ws: seq<nat>, k: nat, tops: seq<seq<nat>>)
    requires b.start <= b.end <= |predictions|
    requires forall j, i | 0 <= j < |ws| && b.start <= i < b.end :: ws[j] < |predictions[i]|
  {
    && |tops| == |ws|
    && (forall j | 0 <= j < |ws| :: IsTopK(ColumnScores(predictions, b, ws[j]), k, tops[j]))
    && forall j, j' | 0 <= j < |ws| && 0 <= j' < |ws| && ws[j] == ws[j'] :: tops[j] == tops[j']
  }

  /** The labels `out` a block ends with: all unlabeled if its slide is not
      flagged, else the default overwritten by one top-k pass per weak label. */
  ghost predicate BlockLabelled(predictions: seq<seq<real>>, table: seq<Tile>, k: nat, numClasses: nat,
                                b: Block, out: seq<nat>)
    requires |predictions| == |table| && IsMatrix(predictions, numClasses)
    requires WalkBlock(table, numClasses, b)
  {
    var len := b.end - b.start;
    var first := table[b.start];
    if !first.containsUnlabeled then out == Fill(len, numClasses)
    else
      var ws := WsiLabels(first.weak);
      exists tops: seq<seq<nat>> ::
        && TopKPasses(predictions, b, ws, k, tops)
        && IndicesBelow(tops, len)
        && out == ApplyPasses(Fill(len, numClasses), ws, tops)
  }

  /** What get_mil_pseudo_labels may return: the walk succeeds, and every
      block's slice of the labels is labelled as BlockLabelled says. */
  ghost predicate MilOutcome(predictions: seq<seq<real>>, table: seq<Tile>, k: nat, numClasses: nat,
                             labels: seq<nat>)
    requires |predictions| == |table| && IsMatrix(predictions, numClasses)
  {
    && |table| > 0
    && BlockWalk(table, numClasses, 0).Success?
    && |labels| == |table|
    && (BlockWalkShape(table, numClasses, 0);
        var blocks := BlockWalk(table, numClasses, 0).value;
        forall bi | 0 <= bi < |blocks| ::
          BlockLabelled(predictions, table, k, numClasses, blocks[bi], labels[blocks[bi].start..blocks[bi].end]))
  }

  lemma FillSplit(a: nat, b: nat, v: nat)
    ensures Fill(a + b, v) == Fill(a, v) + Fill(b, v)
  {
  }

  lemma ScatterSnoc(labels: seq<nat>, top: seq<nat>, t: nat, c: nat)
    requires forall a | 0 <= a < |top| :: top[a] < |labels|
    requires t < |labels|
    ensures Scatter(labels, top + [t], c) == Scatter(labels, top, c)[t := c]
  {
    var l := Scatter(labels, top + [t], c);
    var r := Scatter(labels, top, c)[t := c];
    forall i | 0 <= i < |l| ensures l[i] == r[i] {
      assert i in top + [t] <==> i in top || i == t;
    }
  }

  /** One pass's write pseudo_labels[top_indices + row] = c, on the block that
      starts at `row` (the ghost `before`, `out` and `after` split the array). */
  method WriteTopLabels(labels: array<nat>, row: nat, top: seq<nat>, c: nat,
                        ghost before: seq<nat>, ghost out: seq<nat>, ghost after: seq<nat>)
    requires labels[..] == before + out + after && row == |before|
    requires forall a | 0 <= a < |top| :: top[a] < |out|
    modifies labels
    ensures labels[..] == before + Scatter(out, top, c) + after
  {
    for a := 0 to |top|
      invariant labels[..] == before + Scatter(out, top[..a], c) + after
    {
      ScatterSnoc(out, top[..a], top[a], c);
      assert top[..a + 1] == top[..a] + [top[a]];
      labels[row + top[a]] := c;
    }
    assert top[..|top|] == top;
  }

  /** The passes over a flagged block b, one per weak label in `ws`, each
      taking the argsort top-k of its label's column. */
  method LabelFlaggedBlock(labels: array<nat>, predictions: seq<seq<real>>, b: Block, ws: seq<nat>, k: nat,
                           numClasses: nat, ghost before: seq<nat>, ghost after: seq<nat>)
    returns (ghost out: seq<nat>)
    requires b.start <= b.end <= |predictions| && |before| == b.start
    requires forall j, i | 0 <= j < |ws| && b.start <= i < b.end :: ws[j] < |predictions[i]|
    requires labels[..] == before + Fill(b.end - b.start, numClasses) + after
    requires forall j | 0 <= j < |ws| :: ws[j] < numClasses
    modifies labels
    ensures labels[..] == before + out + after
    ensures forall i | 0 <= i < |out| :: out[i] <= numClasses
    ensures exists tops: seq<seq<nat>> ::
      && TopKPasses(predictions, b, ws, k, tops)
      && IndicesBelow(tops, b.end - b.start)
      && out == ApplyPasses(Fill(b.end - b.start, numClasses), ws, tops)
  {
    var len := b.end - b.start;
    out := Fill(len, numClasses);
    ghost var tops: seq<seq<nat>> := [];
    for j := 0 to |ws|
      invariant |tops| == j
      invariant PassesSoFar(predictions, b, ws, k, numClasses, tops, out)
      invariant labels[..] == before + out + after
    {
      var c := ws[j];
      var top := TopIndices(ColumnScores(predictions, b, c), k);
      PassStep(predictions, b, ws, k, numClasses, tops, out, top);
      WriteTopLabels(labels, b.start, top, c, before, out, after);
      out := Scatter(out, top, c);
      tops := tops + [top];
    }
    assert ws[..|ws|] == ws;
  }

  /** The state of LabelFlaggedBlock after the first |tops| passes: each took
      the list TopIndices selects, a valid top-k list of its column, and
      `out` is their effect on the unlabeled block, every label at most the
      unlabeled index. */
  ghost predicate PassesSoFar(predictions: seq<seq<real>>, b: Block, ws: seq<nat>, k: nat, numClasses: nat,
                              tops: seq<seq<nat>>, out: seq<nat>)
    requires b.start <= b.end <= |predictions|
    requires forall j, i | 0 <= j < |ws| && b.start <= i < b.end :: ws[j] < |predictions[i]|
  {
    var len := b.end - b.start;
    && |tops| <= |ws| && IndicesBelow(tops, len)
    && TopKPasses(predictions, b, ws[..|tops|], k, tops)
    && out == ApplyPasses(Fill(len, numClasses), ws[..|tops|], tops)
    && (forall i | 0 <= i < |out| :: out[i] <= numClasses)
    && SelectedPasses(predictions, b, ws, k, tops)
  }

  /** One more pass keeps PassesSoFar. */
  lemma PassStep(predictions: seq<seq<real>>, b: Block, ws: seq<nat>, k: nat, numClasses: nat,
                 tops: seq<seq<nat>>, out: seq<nat>, top: seq<nat>)
    requires b.start <= b.end <= |predictions|
    requires forall j, i | 0 <= j < |ws| && b.start <= i < b.end :: ws[j] < |predictions[i]|
    requires forall j | 0 <= j < |ws| :: ws[j] < numClasses
    requires PassesSoFar(predictions, b, ws, k, numClasses, tops, out) && |tops| < |ws|
    requires IsTopK(ColumnScores(predictions, b, ws[|tops|]), k, top)
    requires top == Selected(ColumnScores(predictions, b, ws[|tops|]), Min(k, b.end - b.start))
    ensures forall a | 0 <= a < |top| :: top[a] < |out|
    ensures PassesSoFar(predictions, b, ws, k, numClasses, tops + [top], Scatter(out, top, ws[|tops|]))
  {
    var len := b.end - b.start;
    SelectedSnoc(predictions, b, ws, k, tops, top);
    PassesSnoc(predictions, b, ws, k, tops, |tops|, top, Fill(len, numClasses));
    ScatterBounded(out, top, ws[|tops|], numClasses);
  }

  /** A pass writing a label no larger than `bound` keeps every label at
      most `bound`. */
  lemma ScatterBounded(labels: seq<nat>, top: seq<nat>, c: nat, bound: nat)
    requires forall a | 0 <= a < |top| :: top[a] < |labels|
    requires c <= bound && forall i | 0 <= i < |labels| :: labels[i] <= bound
    ensures forall i | 0 <= i < |labels| :: Scatter(labels, top, c)[i] <= bound
  {
  }

  lemma BoundedConcat(a: seq<nat>, b: seq<nat>, bound: nat)
    requires forall i | 0 <= i < |a| :: a[i] <= bound
    requires forall i | 0 <= i < |b| :: b[i] <= bound
    ensures forall i | 0 <= i < |a + b| :: (a + b)[i] <= bound
  {
  }

  /** The passes so far took the lists TopIndices selects for their columns. */
  ghost predicate SelectedPasses(predictions: seq<seq<real>>, b: Block, ws: seq<nat>, k: nat, tops: seq<seq<nat>>)
    requires b.start <= b.end <= |predictions|
    requires forall j, i | 0 <= j < |ws| && b.start <= i < b.end :: ws[j] < |predictions[i]|
  {
    && |tops| <= |ws|
    && forall j | 0 <= j < |tops| :: tops[j] == Selected(ColumnScores(predictions, b, ws[j]), Min(k, b.end - b.start))
  }

  /** The next pass over a column already ranked takes the same list. */
  lemma SelectedSnoc(predictions: seq<seq<real>>, b: Block, ws: seq<nat>, k: nat, tops: seq<seq<nat>>, top: seq<nat>)
    requires b.start <= b.end <= |predictions|
    requires forall j, i | 0 <= j < |ws| && b.start <= i < b.end :: ws[j] < |predictions[i]|
    requires SelectedPasses(predictions, b, ws, k, tops) && |tops| < |ws|
    requires top == Selected(ColumnScores(predictions, b, ws[|tops|]), Min(k, b.end - b.start))
    ensures SelectedPasses(predictions, b, ws, k, tops + [top])
    ensures forall j' | 0 <= j' < |tops| && ws[j'] == ws[|tops|] :: tops[j'] == top
  {
  }

  /** Adding pass j to the passes before it. */
  lemma PassesSnoc(predictions: seq<seq<real>>, b: Block, ws: seq<nat>, k: nat, tops: seq<seq<nat>>,
                   j: nat, top: seq<nat>, unlabeled: seq<nat>)
    requires b.start <= b.end <= |predictions| && j < |ws| && |tops| == j && |unlabeled| == b.end - b.start
    requires forall j, i | 0 <= j < |ws| && b.start <= i < b.end :: ws[j] < |predictions[i]|
    requires TopKPasses(predictions, b, ws[..j], k, tops) && IndicesBelow(tops, b.end - b.start)
    requires IsTopK(ColumnScores(predictions, b, ws[j]), k, top)
    requires forall j' | 0 <= j' < j && ws[j'] == ws[j] :: tops[j'] == top
    ensures forall a | 0 <= a < |top| :: top[a] < b.end - b.start
    ensures TopKPasses(predictions, b, ws[..j + 1], k, tops + [top])
    ensures IndicesBelow(tops + [top], b.end - b.start)
    ensures ApplyPasses(unlabeled, ws[..j + 1], tops + [top]) == Scatter(ApplyPasses(unlabeled, ws[..j], tops), top, ws[j])
  {
    assert ws[..j + 1][..j] == ws[..j] && (tops + [top])[..j] == tops;
  }

  /** The blocks visited so far, each labelled within the labels written so far. */
  ghost predicate LabelledSoFar(predictions: seq<seq<real>>, table: seq<Tile>, k: nat, numClasses: nat,
                                done: seq<Block>, acc: seq<nat>)
    requires |predictions| == |table| && IsMatrix(predictions, numClasses)
  {
    forall bi | 0 <= bi < |done| ::
      && WalkBlock(table, numClasses, done[bi]) && done[bi].end <= |acc|
      && BlockLabelled(predictions, table, k, numClasses, done[bi], acc[done[bi].start..done[bi].end])
  }

  lemma LabelledSoFarExtend(predictions: seq<seq<real>>, table: seq<Tile>, k: nat, numClasses: nat,
                            done: seq<Block>, acc: seq<nat>, b: Block, out: seq<nat>)
    requires |predictions| == |table| && IsMatrix(predictions, numClasses)
    requires LabelledSoFar(predictions, table, k, numClasses, done, acc)
    requires WalkBlock(table, numClasses, b) && b.start == |acc| && |out| == b.end - b.start
    requires BlockLabelled(predictions, table, k, numClasses, b, out)
    ensures LabelledSoFar(predictions, table, k, numClasses, done + [b], acc + out)
  {
    forall bi | 0 <= bi < |done| ensures
      (acc + out)[done[bi].start..done[bi].end] == acc[done[bi].start..done[bi].end]
    {
    }
    assert (acc + out)[b.start..b.end] == out;
  }

  /** One step of the walk: from a row whose block neither fails nor ends
      the table, the walk continues at the block's end. */
  lemma WalkStep(table: seq<Tile>, numClasses: nat, done: seq<Block>, row: nat)
    requires row < |table|
    requires BlockWalk(table, numClasses, 0) == Chain(done, BlockWalk(table, numClasses, row))
    requires !table[row].containsUnlabeled || LabelsInRange(table[row].weak, numClasses)
    requires BlockEnd(table, row) <= |table|
    ensures BlockEnd(table, row) == |table| ==>
      BlockWalk(table, numClasses, 0) == Success(done + [Block(row, BlockEnd(table, row))])
    ensures BlockEnd(table, row) < |table| ==>
      BlockWalk(table, numClasses, 0) == Chain(done + [Block(row, BlockEnd(table, row))],
                                               BlockWalk(table, numClasses, BlockEnd(table, row)))
  {
    var end := BlockEnd(table, row);
    if end < |table| {
      match BlockWalk(table, numClasses, end)
      case Success(rest) =>
        assert done + ([Block(row, end)] + rest) == (done + [Block(row, end)]) + rest;
      case Failure(e) =>
    }
  }

  lemma LabelledSoFarComplete(predictions: seq<seq<real>>, table: seq<Tile>, k: nat, numClasses: nat,
                               done: seq<Block>, labels: seq<nat>)
    requires |predictions| == |table| && IsMatrix(predictions, numClasses)
    requires |table| > 0 && |labels| == |table|
    requires BlockWalk(table, numClasses, 0) == Success(done)
    requires LabelledSoFar(predictions, table, k, numClasses, done, labels)
    ensures MilOutcome(predictions, table, k, numClasses, labels)
  {
  }

  /** get_mil_pseudo_labels: walks the table block by block; in each block
      whose first row is flagged wsi_contains_unlabeled it gives, for each weak
      label in turn, the block's top-k tiles for that label's score that label.
      Every other tile keeps the unlabeled index. */
  method GetMilPseudoLabels(predictions: seq<seq<real>>, table: seq<Tile>, numClasses: nat, k: nat)
    returns (r: Result<seq<nat>, Failure>)
    requires |predictions| == |table| && IsMatrix(predictions, numClasses)
    ensures |table| == 0 ==> r == Failure(EmptyTable)
    ensures |table| > 0 ==> (r.Failure? <==> BlockWalk(table, numClasses, 0).Failure?)
    ensures |table| > 0 && r.Failure? ==> r.error == BlockWalk(table, numClasses, 0).error
    ensures r.Success? ==> MilOutcome(predictions, table, k, numClasses, r.value)
    ensures r.Success? ==> forall i | 0 <= i < |r.value| :: r.value[i] <= numClasses
  {
    if |table| == 0 {
      return Failure(EmptyTable);
    }
    var n := |table|;
    var labels := new nat[n](_ => numClasses);
    var row := 0;
    ghost var done: seq<Block> := [];
    ghost var acc: seq<nat> := [];
    ghost var walk := BlockWalk(table, numClasses, 0);
    assert walk.Success? ==> [] + walk.value == walk.value;
    while true
      invariant row < n && |acc| == row
      invariant labels[..] == acc + Fill(n - row, numClasses)
      invariant BlockWalk(table, numClasses, 0) == Chain(done, BlockWalk(table, numClasses, row))
      invariant LabelledSoFar(predictions, table, k, numClasses, done, acc)
      invariant forall i | 0 <= i < |acc| :: acc[i] <= numClasses
      decreases n - row
    {
      var end := BlockEnd(table, row);
      var first := table[row];
      if first.containsUnlabeled && !LabelsInRange(first.weak, numClasses) {
        return Failure(WeakLabelOutOfRange);
      }
      if end > n {
        return Failure(BlockOvershoot);
      }
      var b := Block(row, end);
      var len := end - row;
      ghost var out := Fill(len, numClasses);
      FillSplit(len, n - end, numClasses);
      if first.containsUnlabeled {
        out := LabelFlaggedBlock(labels, predictions, b, WsiLabels(first.weak), k, numClasses,
                                 acc, Fill(n - end, numClasses));
      }
      LabelledSoFarExtend(predictions, table, k, numClasses, done, acc, b, out);
      WalkStep(table, numClasses, done, row);
      BoundedConcat(acc, out, numClasses);
      acc := acc + out;
      done := done + [b];
      if end == n {
        assert labels[..] == acc by {
          assert Fill(n - end, numClasses) == [];
        }
        break;
      }
      row := end;
    }
    LabelledSoFarComplete(predictions, table, k, numClasses, done, acc);
    return Success(labels[..]);
  }

  // ---------------------------------------------------------------------
  // get_ssl_pseudo_labels
  // ---------------------------------------------------------------------

  /** np.where(scores > 0.95, 1, 0) for one tile. */
  function AboveThreshold(scores: seq<real>): (v: seq<real>)
    ensures |v| == |scores|
    ensures forall j | 0 <= j < |v| :: v[j] == if scores[j] > ConfidenceThreshold then 1.0 else 0.0
  {
    seq(|scores|, j requires 0 <= j < |scores| => if scores[j] > ConfidenceThreshold then 1.0 else 0.0)
  }

  /** np.argmax: the first position holding the largest value. */
  function Argmax(v: seq<real>): (m: nat)
    requires |v| > 0
    ensures m < |v|
    ensures forall j | 0 <= j < |v| :: v[j] <= v[m]
    ensures forall j | 0 <= j < m :: v[j] < v[m]
    decreases |v|
  {
    if |v| == 1 then 0
    else
      var m' := Argmax(v[..|v| - 1]);
      if v[|v| - 1] > v[m'] then |v| - 1 else m'
  }

  /** One tile's SSL pseudo-label: argmax of the thresholded scores when that
      is a class other than 0, else the unlabeled index. */
  function SslLabel(scores: seq<real>, numClasses: nat): nat
    requires |scores| > 0
  {
    var ps := Argmax(AboveThreshold(scores));
    if ps > 0 then ps else numClasses
  }

  /** get_ssl_pseudo_labels: thresholds every tile's scores independently of
      its slide. The table and k it is also given take no part. */
  method GetSslPseudoLabels(predictions: seq<seq<real>>, numClasses: nat) returns (labels: seq<nat>)
    requires IsMatrix(predictions, numClasses) && (|predictions| > 0 ==> numClasses > 0)
    ensures |labels| == |predictions|
    ensures forall i | 0 <= i < |predictions| :: labels[i] == SslLabel(predictions[i], numClasses)
  {
    var n := |predictions|;
    var psOneHot := seq(n, i requires 0 <= i < n => AboveThreshold(predictions[i]));
    var pseudo := new nat[n](_ => numClasses);
    for i := 0 to n
      invariant forall i' | 0 <= i' < i :: pseudo[i'] == SslLabel(predictions[i'], numClasses)
      invariant forall i' | i <= i' < n :: pseudo[i'] == numClasses
    {
      var ps := Argmax(psOneHot[i]);
      if ps > 0 {
        pseudo[i] := ps;
      }
    }
    labels := pseudo[..];
  }

  // ---------------------------------------------------------------------
  // Reconciliation (combine_pseudo_labels_with_instance_labels, line 20)
  // ---------------------------------------------------------------------

  /** np.where(gt_labels == unlabeled_index, pseudo_labels, gt_labels):
      ground truth wins wherever it is known. */
  function CombineWithGroundTruth(gt: seq<nat>, pseudo: seq<nat>, numClasses: nat): (targets: seq<nat>)
    requires |gt| == |pseudo|
    ensures |targets| == |gt|
    ensures forall i | 0 <= i < |gt| && gt[i] != numClasses :: targets[i] == gt[i]
    ensures forall i | 0 <= i < |gt| && gt[i] == numClasses :: targets[i] == pseudo[i]
  {
    seq(|gt|, i requires 0 <= i < |gt| => if gt[i] == numClasses then pseudo[i] else gt[i])
  }

  // ---------------------------------------------------------------------
  // _calculate_sample_weights
  // ---------------------------------------------------------------------

  /** Where a tile's label comes from, as far as its weight is concerned. */
  datatype Provenance = NegativeGt | PositiveGt | Pseudo | Soft

  /** The weight category of a tile: of the four overwrites, the last whose
      condition holds. Some overwrite always holds, so the category is total:
      known positive ground truth, unknown ground truth with a pseudo-label,
      unknown ground truth without one, or negative ground truth. */
  function WeightRule(gt: nat, pseudo: nat, numClasses: nat): (p: Provenance)
    ensures p == PositiveGt <==> gt != 0 && gt != numClasses
    ensures p == Pseudo <==> gt == numClasses && gt != 0 && pseudo != numClasses
    ensures p == Soft <==> gt == numClasses && pseudo == numClasses
    ensures p == NegativeGt <==> gt == 0 && !(gt == numClasses && pseudo == numClasses)
  {
    if pseudo == numClasses && gt == numClasses then Soft
    else if gt != 0 && gt != numClasses then PositiveGt
    else if pseudo != numClasses && gt != 0 then Pseudo
    else NegativeGt
  }

  function WeightOf(w: LabelWeights, p: Provenance): real {
    match p
    case NegativeGt => w.negativeGtLabels
    case PositiveGt => w.positiveGtLabels
    case Pseudo => w.pseudoLabels
    case Soft => w.softLabels
  }

  /** No configured weight is the value the weights start from, so every
      tile ends up weighted whatever its category. */
  predicate WeightsConfigured(w: LabelWeights) {
    forall p: Provenance :: WeightOf(w, p) != UnsetWeight
  }

  /** np.where(cond, weight, weights): one of the four overwrites. */
  function OverwriteWhere(cond: seq<bool>, weight: real, weights: seq<real>): (r: seq<real>)
    requires |cond| == |weights|
    ensures |r| == |weights|
    ensures forall i | 0 <= i < |r| :: r[i] == if cond[i] then weight else weights[i]
  {
    seq(|weights|, i requires 0 <= i < |weights| => if cond[i] then weight else weights[i])
  }

  /** _calculate_sample_weights: starts every weight at -1, applies the four
      overwrites in the source's order, and fails its assertion if a -1
      survives. Every tile falls under some overwrite, so that happens
      exactly when a weight a tile uses is itself configured as -1. */
  method CalculateSampleWeights(gt: seq<nat>, pseudo: seq<nat>, w: LabelWeights, numClasses: nat)
    returns (r: Result<seq<real>, Failure>)
    requires |gt| == |pseudo|
    ensures r.Success? <==> forall i | 0 <= i < |gt| :: WeightOf(w, WeightRule(gt[i], pseudo[i], numClasses)) != UnsetWeight
    ensures r.Failure? ==> r.error == UnweightedSample
    ensures r.Success? ==> |r.value| == |gt|
    ensures r.Success? ==> forall i | 0 <= i < |gt| :: r.value[i] == WeightOf(w, WeightRule(gt[i], pseudo[i], numClasses))
  {
    var n := |gt|;
    var weights := seq(n, _ => UnsetWeight);
    weights := OverwriteWhere(seq(n, i requires 0 <= i < n => gt[i] == 0), w.negativeGtLabels, weights);
    weights := OverwriteWhere(seq(n, i requires 0 <= i < n => pseudo[i] != numClasses && gt[i] != 0), w.pseudoLabels, weights);
    weights := OverwriteWhere(seq(n, i requires 0 <= i < n => gt[i] != 0 && gt[i] != numClasses), w.positiveGtLabels, weights);
    weights := OverwriteWhere(seq(n, i requires 0 <= i < n => pseudo[i] == numClasses && gt[i] == numClasses), w.softLabels, weights);
    assert forall i | 0 <= i < n :: weights[i] == WeightOf(w, WeightRule(gt[i], pseudo[i], numClasses));
    if exists i | 0 <= i < n :: weights[i] == UnsetWeight {
      return Failure(UnweightedSample);
    }
    return Success(weights);
  }

  // ---------------------------------------------------------------------
  // get_one_hot and convert_to_one_hot_and_soft_labels
  // ---------------------------------------------------------------------

  /** Row `target` of np.eye(width). */
  function OneHotRow(target: nat, width: nat): (row: seq<real>)
    ensures |row| == width
    ensures forall j | 0 <= j < width :: row[j] == if j == target then 1.0 else 0.0
  {
    seq(width, j requires 0 <= j < width => if j == target then 1.0 else 0.0)
  }

  /** get_one_hot: np.eye(nb_classes)[targets], which fails on a target with
      no row in the identity. */
  function GetOneHot(targets: seq<nat>, nbClasses: nat): (r: Option<seq<seq<real>>>)
    ensures r.Some? <==> forall i | 0 <= i < |targets| :: targets[i] < nbClasses
    ensures r.Some? ==> |r.value| == |targets| && IsMatrix(r.value, nbClasses)
    ensures r.Some? ==> forall i | 0 <= i < |targets| ::
      r.value[i][targets[i]] == 1.0 && forall j | 0 <= j < nbClasses && j != targets[i] :: r.value[i][j] == 0.0
  {
    if forall i | 0 <= i < |targets| :: targets[i] < nbClasses then
      Some(seq(|targets|, i requires 0 <= i < |targets| => OneHotRow(targets[i], nbClasses)))
    else None
  }

  /** convert_to_one_hot_and_soft_labels: one-hot over the real classes plus
      the unlabeled column; rows hot in the unlabeled column become the
      tile's prediction row (a soft label), every other row keeps its one-hot
      part over the real classes. */
  function ConvertToOneHotAndSoftLabels(targets: seq<nat>, predictions: seq<seq<real>>, numClasses: nat)
    : (r: Option<seq<seq<real>>>)
    requires |targets| == |predictions| && IsMatrix(predictions, numClasses)
    ensures r.Some? <==> forall i | 0 <= i < |targets| :: targets[i] <= numClasses
    ensures r.Some? ==> |r.value| == |targets| && IsMatrix(r.value, numClasses)
    ensures r.Some? ==> forall i | 0 <= i < |targets| ::
      r.value[i] == if targets[i] == numClasses then predictions[i] else OneHotRow(targets[i], numClasses)
  {
    match GetOneHot(targets, numClasses + 1)
    case None => None
    case Some(plusUnlabeled) =>
      var r := seq(|targets|, i requires 0 <= i < |targets| =>
        if plusUnlabeled[i][numClasses] == 1.0 then predictions[i] else plusUnlabeled[i][..numClasses]);
      assert forall i | 0 <= i < |targets| && targets[i] != numClasses ::
        plusUnlabeled[i][..numClasses] == OneHotRow(targets[i], numClasses);
      Some(r)
  }

  // ---------------------------------------------------------------------
  // The two entry points
  // ---------------------------------------------------------------------

  /** The (targets, sample weights) pair handed to the training loop. */
  datatype TrainingTargets = TrainingTargets(targets: seq<seq<real>>, sampleWeights: seq<real>)

  /** `out` is built from the resolved labels: each weight is the one its
      provenance selects, each target row the padded prediction where the
      label is still unresolved and the one-hot row of the label elsewhere. */
  predicate TargetsFrom(gt: seq<nat>, resolved: seq<nat>, padded: seq<seq<real>>, w: LabelWeights,
                        numClasses: nat, out: TrainingTargets)
    requires |gt| == |resolved| == |padded|
  {
    && |out.targets| == |gt| && |out.sampleWeights| == |gt|
    && forall i | 0 <= i < |gt| ::
         && out.sampleWeights[i] == WeightOf(w, WeightRule(gt[i], resolved[i], numClasses))
         && out.targets[i] == if resolved[i] == numClasses then padded[i] else OneHotRow(resolved[i], numClasses)
  }

  /** The pseudo-labels the chosen mode may produce on the padded scores. */
  ghost predicate PseudoLabelsFrom(ssl: bool, padded: seq<seq<real>>, table: seq<Tile>, k: nat,
                                   numClasses: nat, pseudo: seq<nat>)
    requires |padded| == |table| && IsMatrix(padded, numClasses)
  {
    if ssl then
      && (|padded| > 0 ==> numClasses > 0)
      && |pseudo| == |padded|
      && forall i | 0 <= i < |padded| :: pseudo[i] == SslLabel(padded[i], numClasses)
    else MilOutcome(padded, table, k, numClasses, pseudo)
  }

  /** The pseudo-labels of the chosen mode (SSL thresholding or the MIL
      walk) for the padded scores of a non-empty table. SSL mode fails only
      when the rows have no classes, MIL mode exactly when the walk does;
      every label is a class or the unlabeled index. */
  method PseudoLabels(padded: seq<seq<real>>, table: seq<Tile>, k: nat, numClasses: nat, ssl: bool)
    returns (r: Result<seq<nat>, Failure>)
    requires |padded| == |table| > 0 && IsMatrix(padded, numClasses)
    ensures ssl ==> (r.Failure? <==> numClasses == 0) && (r.Failure? ==> r.error == EmptyScoreRow)
    ensures !ssl ==> (r.Failure? <==> BlockWalk(table, numClasses, 0).Failure?)
    ensures !ssl && r.Failure? ==> r.error == BlockWalk(table, numClasses, 0).error
    ensures r.Success? ==> |r.value| == |table| && PseudoLabelsFrom(ssl, padded, table, k, numClasses, r.value)
    ensures r.Success? ==> forall i | 0 <= i < |r.value| :: r.value[i] <= numClasses
  {
    if ssl {
      if numClasses == 0 {
        return Failure(EmptyScoreRow);
      }
      var pseudo := GetSslPseudoLabels(padded, numClasses);
      forall i | 0 <= i < |pseudo| ensures pseudo[i] <= numClasses {
        assert |AboveThreshold(padded[i])| == numClasses;
      }
      return Success(pseudo);
    }
    r := GetMilPseudoLabels(padded, table, numClasses, k);
  }

  /** The predictions can be padded to the table: there is at least one,
      and every index names a row of the (hence non-empty) table. */
  predicate Paddable(predictions: seq<seq<real>>, predictionIndices: seq<nat>, table: seq<Tile>) {
    && |predictions| > 0 && |table| > 0
    && forall j | 0 <= j < |predictionIndices| :: predictionIndices[j] < |table|
  }

  /** combine_pseudo_labels_with_instance_labels: the number of classes is
      the width of the predictions; the predictions are padded to the table,
      pseudo-labelled (SSL or MIL), overridden by ground truth, weighted and
      turned into one-hot or soft targets. Once padding succeeds, SSL mode
      fails only on rows with no classes, MIL mode fails with the walk's
      error exactly when the walk fails, and after that only the weight
      assertion and the one-hot lookup can fail; with every weight
      configured and every ground-truth class at most the unlabeled index,
      neither of those does. */
  method CombinePseudoLabelsWithInstanceLabels(predictions: seq<seq<real>>, predictionIndices: seq<nat>,
                                               table: seq<Tile>, k: nat, w: LabelWeights, ssl: bool)
    returns (r: Result<TrainingTargets, Failure>)
    requires |predictions| > 0 ==> IsMatrix(predictions, |predictions[0]|)
    requires |predictionIndices| == |predictions| && Distinct(predictionIndices)
    ensures |predictions| == 0 ==> r == Failure(EmptyPredictions)
    ensures |predictions| > 0 && (exists j | 0 <= j < |predictionIndices| :: predictionIndices[j] >= |table|) ==>
      r == Failure(PredictionIndexOutOfRange)
    ensures ssl && r.Failure? ==> r.error !in {EmptyTable, WeakLabelOutOfRange, BlockOvershoot}
    ensures r != Failure(EmptyTable)
    ensures Paddable(predictions, predictionIndices, table) && ssl && |predictions[0]| == 0 ==>
      r == Failure(EmptyScoreRow)
    ensures Paddable(predictions, predictionIndices, table) && !ssl ==>
      (BlockWalk(table, |predictions[0]|, 0).Failure? <==>
         r.Failure? && r.error in {WeakLabelOutOfRange, BlockOvershoot})
    ensures Paddable(predictions, predictionIndices, table) && !ssl && BlockWalk(table, |predictions[0]|, 0).Failure? ==>
      r == Failure(BlockWalk(table, |predictions[0]|, 0).error)
    ensures Paddable(predictions, predictionIndices, table) && (ssl ==> |predictions[0]| > 0) && r.Failure? ==>
      r.error in {WeakLabelOutOfRange, BlockOvershoot, UnweightedSample, TargetOutOfRange}
    ensures && Paddable(predictions, predictionIndices, table)
            && (ssl ==> |predictions[0]| > 0)
            && (!ssl ==> BlockWalk(table, |predictions[0]|, 0).Success?)
            && WeightsConfigured(w)
            && (forall i | 0 <= i < |table| :: table[i].gtClass <= |predictions[0]|)
            ==> r.Success?
    ensures r.Success? ==> (
      && |predictions| > 0
      && var numClasses := |predictions[0]|;
         var gt := Classes(table);
         exists padded: seq<seq<real>>, pseudo: seq<nat> ::
           && PaddedFrom(predictions, predictionIndices, |table|, numClasses, padded)
           && PseudoLabelsFrom(ssl, padded, table, k, numClasses, pseudo)
           && |pseudo| == |table|
           && TargetsFrom(gt, CombineWithGroundTruth(gt, pseudo, numClasses), padded, w, numClasses, r.value))
  {
    if |predictions| == 0 {
      return Failure(EmptyPredictions);
    }
    var numClasses := |predictions[0]|;
    var gt := Classes(table);
    var padResult := PadArray(predictions, predictionIndices, |table|, numClasses);
    if padResult.Failure? {
      return Failure(padResult.error);
    }
    var padded := padResult.value;
    assert predictionIndices[0] < |table|;
    var pseudoResult := PseudoLabels(padded, table, k, numClasses, ssl);
    if pseudoResult.Failure? {
      return Failure(pseudoResult.error);
    }
    var pseudo := pseudoResult.value;
    var trainingTargets := CombineWithGroundTruth(gt, pseudo, numClasses);
    assert (forall i | 0 <= i < |table| :: table[i].gtClass <= numClasses) ==>
      forall i | 0 <= i < |trainingTargets| :: trainingTargets[i] <= numClasses;
    var weights := CalculateSampleWeights(gt, trainingTargets, w, numClasses);
    if weights.Failure? {
      return Failure(weights.error);
    }
    var softAndOneHot := ConvertToOneHotAndSoftLabels(trainingTargets, padded, numClasses);
    if softAndOneHot.None? {
      return Failure(TargetOutOfRange);
    }
    r := Success(TrainingTargets(softAndOneHot.value, weights.value));
    assert TargetsFrom(gt, trainingTargets, padded, w, numClasses, r.value);
  }

  /** get_one_hot_training_targets: ground truth only, weighted as if every
      pseudo-label were class 0, one-hot over the real classes. */
  method GetOneHotTrainingTargets(table: seq<Tile>, w: LabelWeights, numClasses: nat)
    returns (r: Result<TrainingTargets, Failure>)
    ensures r.Success? <==>
      && (forall i | 0 <= i < |table| :: WeightOf(w, WeightRule(table[i].gtClass, 0, numClasses)) != UnsetWeight)
      && (forall i | 0 <= i < |table| :: table[i].gtClass < numClasses)
    ensures r.Failure? ==> r.error == UnweightedSample || r.error == TargetOutOfRange
    ensures r.Success? ==> |r.value.targets| == |table| && |r.value.sampleWeights| == |table|
    ensures r.Success? ==> forall i | 0 <= i < |table| ::
      && r.value.sampleWeights[i] == WeightOf(w, WeightRule(table[i].gtClass, 0, numClasses))
      && r.value.targets[i] == OneHotRow(table[i].gtClass, numClasses)
  {
    var gt := Classes(table);
    var weights := CalculateSampleWeights(gt, Fill(|gt|, 0), w, numClasses);
    if weights.Failure? {
      return Failure(weights.error);
    }
    var oneHot := GetOneHot(gt, numClasses);
    if oneHot.None? {
      return Failure(TargetOutOfRange);
    }
    assert forall i | 0 <= i < |table| :: oneHot.value[i] == OneHotRow(table[i].gtClass, numClasses);
    return Success(TrainingTargets(oneHot.value, weights.value));
  }
}
