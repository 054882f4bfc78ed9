/** What get_mil_pseudo_labels promises, proved about the model in MilUtils:
    where MIL pseudo-labels can appear, how many there are and which tiles
    receive them. */
module MilProperties {
  import opened Wrappers
  import opened Ranking
  import opened MilUtils
  import opened WalkProperties

  // ---------------------------------------------------------------------
  // Where MIL pseudo-labels come from
  // ---------------------------------------------------------------------

  /** A pass only ever writes its own label. */
  lemma {:induction false} ApplyPassesValues(labels: seq<nat>, ws: seq<nat>, tops: seq<seq<nat>>, i: nat)
    requires |ws| == |tops| && IndicesBelow(tops, |labels|) && i < |labels|
    ensures ApplyPasses(labels, ws, tops)[i] == labels[i] || ApplyPasses(labels, ws, tops)[i] in ws
    decreases |ws|
  {
    if ws != [] {
      var n := |ws| - 1;
      assert IndicesBelow(tops[..n], |labels|);
      ApplyPassesValues(labels, ws[..n], tops[..n], i);
      assert forall x | x in ws[..n] :: x in ws;
    }
  }

  /** The top-k lists behind the labels of a flagged block. */
  lemma PassesOf(predictions: seq<seq<real>>, table: seq<Tile>, k: nat, numClasses: nat, b: Block, out: seq<nat>)
    returns (tops: seq<seq<nat>>)
    requires |predictions| == |table| && IsMatrix(predictions, numClasses)
    requires WalkBlock(table, numClasses, b) && BlockLabelled(predictions, table, k, numClasses, b, out)
    requires table[b.start].containsUnlabeled
    ensures var ws := WsiLabels(table[b.start].weak);
      && TopKPasses(predictions, b, ws, k, tops)
      && IndicesBelow(tops, b.end - b.start)
      && out == ApplyPasses(Fill(b.end - b.start, numClasses), ws, tops)
  {
    var ws := WsiLabels(table[b.start].weak);
    tops :| TopKPasses(predictions, b, ws, k, tops) && IndicesBelow(tops, b.end - b.start)
      && out == ApplyPasses(Fill(b.end - b.start, numClasses), ws, tops);
  }

  /** Block bi of a MIL outcome is labelled as BlockLabelled says. */
  lemma OutcomeBlock(predictions: seq<seq<real>>, table: seq<Tile>, k: nat, numClasses: nat,
                     labels: seq<nat>, bi: nat)
    requires |predictions| == |table| && IsMatrix(predictions, numClasses)
    requires MilOutcome(predictions, table, k, numClasses, labels)
    requires bi < |BlockWalk(table, numClasses, 0).value|
    ensures var blocks := BlockWalk(table, numClasses, 0).value;
      && Partitions(blocks, 0, |table|)
      && WalkBlock(table, numClasses, blocks[bi])
      && BlockLabelled(predictions, table, k, numClasses, blocks[bi], labels[blocks[bi].start..blocks[bi].end])
  {
    BlockWalkShape(table, numClasses, 0);
  }

  /** Inside one block a tile is either left unlabeled or, when the slide is
      flagged, given one of the slide's weak labels. */
  lemma LabelInBlock(predictions: seq<seq<real>>, table: seq<Tile>, k: nat, numClasses: nat,
                     b: Block, labels: seq<nat>, i: nat)
    requires |predictions| == |table| && IsMatrix(predictions, numClasses)
    requires WalkBlock(table, numClasses, b) && Contains(b, i) && b.end <= |labels|
    requires BlockLabelled(predictions, table, k, numClasses, b, labels[b.start..b.end])
    ensures labels[i] == numClasses
         || (table[b.start].containsUnlabeled && labels[i] in WsiLabels(table[b.start].weak))
  {
    var out := labels[b.start..b.end];
    var j := i - b.start;
    assert out[j] == labels[i];
    if table[b.start].containsUnlabeled {
      var tops := PassesOf(predictions, table, k, numClasses, b, out);
      ApplyPassesValues(Fill(b.end - b.start, numClasses), WsiLabels(table[b.start].weak), tops, j);
    }
  }

  /** A MIL pseudo-label other than the unlabeled index only appears in a
      block whose slide is flagged as containing unlabeled tiles, and it is
      one of that slide's weak labels. */
  lemma MilLabelsComeFromWeakLabels(predictions: seq<seq<real>>, table: seq<Tile>, k: nat, numClasses: nat,
                                    labels: seq<nat>, i: nat)
    requires |predictions| == |table| && IsMatrix(predictions, numClasses)
    requires MilOutcome(predictions, table, k, numClasses, labels)
    requires i < |table| && labels[i] != numClasses
    ensures var blocks := BlockWalk(table, numClasses, 0).value;
      exists bi :: 0 <= bi < |blocks| && Contains(blocks[bi], i)
        && table[blocks[bi].start].containsUnlabeled
        && labels[i] in WsiLabels(table[blocks[bi].start].weak)
  {
    var blocks := BlockWalk(table, numClasses, 0).value;
    TileInOneBlock(table, numClasses, i);
    var bi :| 0 <= bi < |blocks| && Contains(blocks[bi], i);
    OutcomeBlock(predictions, table, k, numClasses, labels, bi);
    LabelInBlock(predictions, table, k, numClasses, blocks[bi], labels, i);
  }

  // ---------------------------------------------------------------------
  // How many tiles a pass labels, and which
  // ---------------------------------------------------------------------

  /** The positions a list names. */
  function Elems(s: seq<nat>): set<nat> {
    set x | x in s
  }

  /** The rows of `out` that hold label c. */
  function Positions(out: seq<nat>, c: nat): set<nat> {
    set i | 0 <= i < |out| && out[i] == c
  }

  /** A list of distinct positions names as many positions as it is long. */
  lemma {:induction false} DistinctCard(s: seq<nat>)
    requires Distinct(s)
    ensures |Elems(s)| == |s|
  {
    if s != [] {
      var n := |s| - 1;
      var front := s[..n];
      assert Distinct(front);
      DistinctCard(front);
      assert s[n] !in Elems(front);
      assert Elems(s) == Elems(front) + {s[n]} by {
        assert s == front + [s[n]];
      }
    }
  }

  /** A position in a top-k list scores at least as high as any left out. */
  lemma TopBeatsRest(col: seq<real>, k: nat, top: seq<nat>, i: nat, j: nat)
    requires IsTopK(col, k, top) && i in top && j < |col| && j !in top
    ensures i < |col| && col[i] >= col[j]
  {
    var a :| 0 <= a < |top| && top[a] == i;
  }

  /** One pass over an unlabeled block writes c on exactly its top-k rows,
      which outscore every row it leaves alone. */
  lemma OnePass(col: seq<real>, k: nat, top: seq<nat>, c: nat, u: nat, out: seq<nat>)
    requires IsTopK(col, k, top) && c != u
    requires out == Scatter(Fill(|col|, u), top, c)
    ensures forall i | 0 <= i < |out| :: out[i] == c || out[i] == u
    ensures |Positions(out, c)| == Min(k, |col|)
    ensures forall i, j | 0 <= i < |out| && 0 <= j < |out| && out[i] == c && out[j] == u :: col[i] >= col[j]
  {
    assert Positions(out, c) == Elems(top) by {
      forall x | x in top ensures 0 <= x < |out| && out[x] == c {
        var a :| 0 <= a < |top| && top[a] == x;
      }
    }
    DistinctCard(top);
    forall i, j | 0 <= i < |out| && 0 <= j < |out| && out[i] == c && out[j] == u
      ensures col[i] >= col[j]
    {
      TopBeatsRest(col, k, top, i, j);
    }
  }

  /** Two passes over an unlabeled block, primary then secondary: the
      secondary writes s on exactly its top-k rows, which outscore in its
      column every other row; p stays exactly on the primary's top-k rows the
      secondary did not reach, and they outscore in the primary column every
      row left unlabeled. */
  lemma TwoPasses(colP: seq<real>, colS: seq<real>, k: nat, topP: seq<nat>, topS: seq<nat>,
                  p: nat, s: nat, u: nat, out: seq<nat>)
    requires |colP| == |colS| && (p == s ==> colP == colS && topP == topS)
    requires IsTopK(colP, k, topP) && IsTopK(colS, k, topS) && p != u && s != u
    requires out == Scatter(Scatter(Fill(|colP|, u), topP, p), topS, s)
    ensures forall i | 0 <= i < |out| :: out[i] == p || out[i] == s || out[i] == u
    ensures |Positions(out, s)| == Min(k, |colS|)
    ensures forall i, j | 0 <= i < |out| && 0 <= j < |out| && out[i] == s && out[j] != s :: colS[i] >= colS[j]
    ensures forall i, j | 0 <= i < |out| && 0 <= j < |out| && out[i] == p && out[j] == u :: colP[i] >= colP[j]
    ensures p != s ==> forall i | 0 <= i < |out| :: (out[i] == p <==> i in topP && i !in topS)
    ensures p != s ==> forall i | 0 <= i < |out| :: (out[i] == p <==> i in topP && out[i] != s)
  {
    assert forall i | 0 <= i < |out| :: out[i] == if i in topS then s else if i in topP then p else u;
    assert Positions(out, s) == Elems(topS) by {
      forall x | x in topS ensures 0 <= x < |out| && out[x] == s {
        var a :| 0 <= a < |topS| && topS[a] == x;
      }
    }
    DistinctCard(topS);
    forall i, j | 0 <= i < |out| && 0 <= j < |out| && out[i] == s && out[j] != s
      ensures colS[i] >= colS[j]
    {
      TopBeatsRest(colS, k, topS, i, j);
    }
    forall i, j | 0 <= i < |out| && 0 <= j < |out| && out[i] == p && out[j] == u
      ensures colP[i] >= colP[j]
    {
      TopBeatsRest(colP, k, topP, i, j);
    }
  }

  /** One weak label: the passes are a single scatter. */
  lemma ApplyOnePass(labels: seq<nat>, ws: seq<nat>, tops: seq<seq<nat>>)
    requires |ws| == |tops| == 1 && IndicesBelow(tops, |labels|)
    ensures ApplyPasses(labels, ws, tops) == Scatter(labels, tops[0], ws[0])
  {
    assert ws[..0] == [] && tops[..0] == [];
  }

  /** Two weak labels: the primary scatter, then the secondary one over it. */
  lemma ApplyTwoPasses(labels: seq<nat>, ws: seq<nat>, tops: seq<seq<nat>>)
    requires |ws| == |tops| == 2 && IndicesBelow(tops, |labels|)
    ensures IndicesBelow([tops[0]], |labels|)
    ensures ApplyPasses(labels, ws, tops) == Scatter(Scatter(labels, tops[0], ws[0]), tops[1], ws[1])
  {
    assert IndicesBelow(tops[..1], |labels|);
    ApplyOnePass(labels, ws[..1], tops[..1]);
  }

  /** The j-th pass ranks the block's column of the j-th weak label. */
  lemma PassTopK(predictions: seq<seq<real>>, b: Block, ws: seq<nat>, k: nat, tops: seq<seq<nat>>, j: nat)
    requires b.start <= b.end <= |predictions|
    requires forall j, i | 0 <= j < |ws| && b.start <= i < b.end :: ws[j] < |predictions[i]|
    requires TopKPasses(predictions, b, ws, k, tops) && j < |ws|
    ensures IsTopK(ColumnScores(predictions, b, ws[j]), k, tops[j])
  {
  }

  /** What a single top-k pass for class c leaves in a block of `out`,
      starting from all-unlabeled u: every tile is c or u, exactly
      min(k, block size) tiles are c, and each of them scores at least as high
      in column c as every tile left u. */
  predicate OnePassOutcome(predictions: seq<seq<real>>, b: Block, c: nat, u: nat, k: nat, out: seq<nat>)
    requires b.start <= b.end <= |predictions|
    requires forall i | b.start <= i < b.end :: c < |predictions[i]|
  {
    var col := ColumnScores(predictions, b, c);
    && |out| == b.end - b.start
    && (forall i | 0 <= i < |out| :: out[i] == c || out[i] == u)
    && |Positions(out, c)| == Min(k, b.end - b.start)
    && forall i, j | 0 <= i < |out| && 0 <= j < |out| && out[i] == c && out[j] == u :: col[i] >= col[j]
  }

  /** What the primary pass p followed by the secondary pass s leaves in a
      block: every tile is p, s or u; the secondary pass labels exactly
      min(k, block size) tiles, also when p and s are equal, and they are the best in
      column s; a tile that keeps p scores in column p at least as high as
      every tile left u; and when p and s differ, the tiles holding p are
      exactly those of some top-k list of column p that s did not take. */
  ghost predicate TwoPassOutcome(predictions: seq<seq<real>>, b: Block, p: nat, s: nat, u: nat, k: nat, out: seq<nat>)
    requires b.start <= b.end <= |predictions|
    requires forall i | b.start <= i < b.end :: p < |predictions[i]| && s < |predictions[i]|
  {
    var colP, colS := ColumnScores(predictions, b, p), ColumnScores(predictions, b, s);
    && |out| == b.end - b.start
    && (forall i | 0 <= i < |out| :: out[i] == p || out[i] == s || out[i] == u)
    && |Positions(out, s)| == Min(k, b.end - b.start)
    && (forall i, j | 0 <= i < |out| && 0 <= j < |out| && out[i] == s && out[j] != s :: colS[i] >= colS[j])
    && (forall i, j | 0 <= i < |out| && 0 <= j < |out| && out[i] == p && out[j] == u :: colP[i] >= colP[j])
    && (p != s ==> exists topP: seq<nat> ::
          && IsTopK(colP, k, topP)
          && forall i | 0 <= i < |out| :: (out[i] == p <==> i in topP && out[i] != s))
  }

  /** The single pass of a one-label block, read off its TopKPasses facts. */
  lemma OnePassOfBlock(predictions: seq<seq<real>>, b: Block, ws: seq<nat>, k: nat, tops: seq<seq<nat>>,
                       u: nat, out: seq<nat>)
    requires b.start <= b.end <= |predictions| && |ws| == 1 && ws[0] != u
    requires forall j, i | 0 <= j < |ws| && b.start <= i < b.end :: ws[j] < |predictions[i]|
    requires TopKPasses(predictions, b, ws, k, tops) && IndicesBelow(tops, b.end - b.start)
    requires out == ApplyPasses(Fill(b.end - b.start, u), ws, tops)
    ensures OnePassOutcome(predictions, b, ws[0], u, k, out)
  {
    PassTopK(predictions, b, ws, k, tops, 0);
    ApplyOnePass(Fill(b.end - b.start, u), ws, tops);
    OnePass(ColumnScores(predictions, b, ws[0]), k, tops[0], ws[0], u, out);
  }

  /** The two passes of a primary/secondary block, read off its TopKPasses facts. */
  lemma TwoPassesOfBlock(predictions: seq<seq<real>>, b: Block, ws: seq<nat>, k: nat, tops: seq<seq<nat>>,
                         u: nat, out: seq<nat>)
    requires b.start <= b.end <= |predictions| && |ws| == 2 && ws[0] != u && ws[1] != u
    requires forall j, i | 0 <= j < |ws| && b.start <= i < b.end :: ws[j] < |predictions[i]|
    requires TopKPasses(predictions, b, ws, k, tops) && IndicesBelow(tops, b.end - b.start)
    requires out == ApplyPasses(Fill(b.end - b.start, u), ws, tops)
    ensures TwoPassOutcome(predictions, b, ws[0], ws[1], u, k, out)
  {
    PassTopK(predictions, b, ws, k, tops, 0);
    PassTopK(predictions, b, ws, k, tops, 1);
    assert ws[0] == ws[1] ==> tops[0] == tops[1];
    ApplyTwoPasses(Fill(b.end - b.start, u), ws, tops);
    TwoPasses(ColumnScores(predictions, b, ws[0]), ColumnScores(predictions, b, ws[1]), k, tops[0], tops[1],
              ws[0], ws[1], u, out);
    if ws[0] != ws[1] {
      var colP := ColumnScores(predictions, b, ws[0]);
      assert IsTopK(colP, k, tops[0]);
      assert forall i | 0 <= i < |out| :: (out[i] == ws[0] <==> i in tops[0] && out[i] != ws[1]);
    }
  }

  /** A flagged slide with a single weak label c: exactly min(k, block size)
      of its tiles are labelled c, and each of them scores at least as high
      in the block's column c as every tile left unlabeled. */
  lemma SingleLabelBlock(predictions: seq<seq<real>>, table: seq<Tile>, k: nat, numClasses: nat,
                         b: Block, out: seq<nat>)
    requires |predictions| == |table| && IsMatrix(predictions, numClasses)
    requires WalkBlock(table, numClasses, b) && BlockLabelled(predictions, table, k, numClasses, b, out)
    requires table[b.start].containsUnlabeled && table[b.start].weak.WsiLabel?
    ensures table[b.start].weak.wsiLabel < numClasses
    ensures OnePassOutcome(predictions, b, table[b.start].weak.wsiLabel, numClasses, k, out)
  {
    var ws := WsiLabels(table[b.start].weak);
    assert ws[0] == table[b.start].weak.wsiLabel && ws[0] < numClasses;
    var tops := PassesOf(predictions, table, k, numClasses, b, out);
    OnePassOfBlock(predictions, b, ws, k, tops, numClasses, out);
  }

  /** A flagged slide with primary p and secondary s: the secondary pass runs
      last, so it labels exactly min(k, block size) tiles (also when p and s
      are equal: both passes then take the same list), the best in column s;
      when they differ, p stays exactly on the tiles of a top-k
      list of column p that the secondary pass did not reach, and each of
      them scores in column p at least as high as every unlabeled tile. */
  lemma TwoLabelBlock(predictions: seq<seq<real>>, table: seq<Tile>, k: nat, numClasses: nat,
                      b: Block, out: seq<nat>)
    requires |predictions| == |table| && IsMatrix(predictions, numClasses)
    requires WalkBlock(table, numClasses, b) && BlockLabelled(predictions, table, k, numClasses, b, out)
    requires table[b.start].containsUnlabeled && table[b.start].weak.WsiPrimarySecondary?
    ensures table[b.start].weak.primary < numClasses && table[b.start].weak.secondary < numClasses
    ensures TwoPassOutcome(predictions, b, table[b.start].weak.primary, table[b.start].weak.secondary,
                           numClasses, k, out)
  {
    var ws := WsiLabels(table[b.start].weak);
    assert ws[0] == table[b.start].weak.primary && ws[0] < numClasses;
    assert ws[1] == table[b.start].weak.secondary && ws[1] < numClasses;
    var tops := PassesOf(predictions, table, k, numClasses, b, out);
    TwoPassesOfBlock(predictions, b, ws, k, tops, numClasses, out);
  }

  // ---------------------------------------------------------------------
  // A worked example: one flagged slide of four tiles, weak label 1, k = 1
  // ---------------------------------------------------------------------

  /** Four tiles of one slide, none with known ground truth (class 2 is the
      unlabeled index for two classes). */
  function ExampleTable(): seq<Tile> {
    var t := Tile("slide", 2, WsiLabel(1), true);
    [t, t, t, t]
  }

  /** Class-1 scores 0.1, 0.9, 0.3, 0.2. */
  function ExamplePredictions(): seq<seq<real>> {
    [[0.9, 0.1], [0.1, 0.9], [0.7, 0.3], [0.8, 0.2]]
  }

  /** The walk treats the four tiles as one block. */
  lemma ExampleWalk()
    ensures BlockWalk(ExampleTable(), 2, 0) == Success([Block(0, 4)])
  {
    CountWsiAll(ExampleTable(), "slide");
  }

  /** The only top-1 list of the example's class-1 column is the second tile. */
  lemma ExampleTopOne(top: seq<nat>)
    requires IsTopK([0.1, 0.9, 0.3, 0.2], 1, top)
    ensures top == [1]
  {
    var col := [0.1, 0.9, 0.3, 0.2];
    assert |top| == 1 && top[0] < 4;
    assert top[0] != 1 ==> 1 !in top;
    assert top == [top[0]];
  }

  /** The example block's class-1 column. */
  lemma ExampleColumn()
    ensures ColumnScores(ExamplePredictions(), Block(0, 4), 1) == [0.1, 0.9, 0.3, 0.2]
  {
  }

  /** Writing label 1 at the second of four unlabeled tiles. */
  lemma ExampleScatter()
    ensures Scatter(Fill(4, 2), [1], 1) == [2, 1, 2, 2]
  {
  }

  /** The one tile with the highest class-1 score, the second, is labelled
      1; every other tile stays unlabeled. */
  lemma ExampleOutcome(labels: seq<nat>)
    requires MilOutcome(ExamplePredictions(), ExampleTable(), 1, 2, labels)
    ensures labels == [2, 1, 2, 2]
  {
    var table := ExampleTable();
    var predictions := ExamplePredictions();
    var b := Block(0, 4);
    ExampleWalk();
    OutcomeBlock(predictions, table, 1, 2, labels, 0);
    assert labels[0..4] == labels;
    var tops := PassesOf(predictions, table, 1, 2, b, labels);
    var ws := WsiLabels(table[0].weak);
    assert ws == [1];
    PassTopK(predictions, b, ws, 1, tops, 0);
    ExampleColumn();
    ExampleTopOne(tops[0]);
    ApplyOnePass(Fill(4, 2), ws, tops);
    ExampleScatter();
  }

  // ---------------------------------------------------------------------
  // Equal weak labels: a flagged 0+0 slide of two tied tiles, k = 1
  // ---------------------------------------------------------------------

  /** Two tiles of one benign slide whose primary and secondary labels are
      both class 0 (class 1 is the unlabeled index for one class). */
  function TiedTable(): seq<Tile> {
    var t := Tile("benign", 1, WsiPrimarySecondary(0, 0), true);
    [t, t]
  }

  function TiedPredictions(): seq<seq<real>> {
    [[0.5], [0.5]]
  }

  /** The walk treats the two tiles as one block. */
  lemma TiedWalk()
    ensures BlockWalk(TiedTable(), 1, 0) == Success([Block(0, 2)])
  {
    CountWsiAll(TiedTable(), "benign");
  }

  /** Two labels, each 0 or 1, exactly one of them 0. */
  lemma OneOfTwo(labels: seq<nat>)
    requires |labels| == 2 && forall i | 0 <= i < 2 :: labels[i] == 0 || labels[i] == 1
    requires |Positions(labels, 0)| == 1
    ensures labels == [0, 1] || labels == [1, 0]
  {
    assert Positions(labels, 0) == (if labels[0] == 0 then {0} else {}) + (if labels[1] == 0 then {1} else {});
  }

  /** Both passes rank the same column, so they take the same tile: exactly
      one of the two tied tiles is labelled 0, whichever the tie order
      picks. */
  lemma TiedEqualLabelsOutcome(labels: seq<nat>)
    requires MilOutcome(TiedPredictions(), TiedTable(), 1, 1, labels)
    ensures labels == [0, 1] || labels == [1, 0]
  {
    var table := TiedTable();
    var predictions := TiedPredictions();
    TiedWalk();
    OutcomeBlock(predictions, table, 1, 1, labels, 0);
    assert labels[0..2] == labels;
    TwoLabelBlock(predictions, table, 1, 1, Block(0, 2), labels);
    OneOfTwo(labels);
  }
}
