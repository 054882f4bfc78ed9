/** How the walk of get_mil_pseudo_labels cuts the tile table into slide
    blocks: the blocks partition the table, each tile lies in exactly one,
    a table whose slides are contiguous is cut into its slides, and what the
    walk does with a table whose slides are not. */
module WalkProperties {
  import opened Wrappers
  import opened MilUtils

  // ---------------------------------------------------------------------
  // The walk's blocks
  // ---------------------------------------------------------------------

  /** Blocks of a partition come in row order. */
  lemma {:induction false} PartitionOrdered(blocks: seq<Block>, from: nat, to: nat, bi: nat, bj: nat)
    requires Partitions(blocks, from, to) && bi < bj < |blocks|
    ensures blocks[bi].end <= blocks[bj].start
    decreases bj - bi
  {
    if bj > bi + 1 {
      PartitionOrdered(blocks, from, to, bi, bj - 1);
    }
  }

  /** Row i is one of the rows of block b. */
  predicate Contains(b: Block, i: nat) {
    b.start <= i < b.end
  }

  /** A row at or after the start of block bi lies in block bi or a later one. */
  lemma {:induction false} PartitionCoversFrom(blocks: seq<Block>, from: nat, to: nat, i: nat, bi: nat)
    requires Partitions(blocks, from, to) && i < to
    requires bi < |blocks| && blocks[bi].start <= i
    ensures exists bj :: bi <= bj < |blocks| && Contains(blocks[bj], i)
    decreases |blocks| - bi
  {
    if i >= blocks[bi].end {
      PartitionCoversFrom(blocks, from, to, i, bi + 1);
    }
  }

  /** When the walk succeeds, each tile is handled in exactly one block. */
  lemma TileInOneBlock(table: seq<Tile>, numClasses: nat, i: nat)
    requires i < |table| && BlockWalk(table, numClasses, 0).Success?
    ensures var blocks := BlockWalk(table, numClasses, 0).value;
      exists bi :: 0 <= bi < |blocks| && Contains(blocks[bi], i)
        && forall bj | 0 <= bj < |blocks| && Contains(blocks[bj], i) :: bj == bi
  {
    BlockWalkShape(table, numClasses, 0);
    var blocks := BlockWalk(table, numClasses, 0).value;
    PartitionCoversFrom(blocks, 0, |table|, i, 0);
    var bi :| 0 <= bi < |blocks| && Contains(blocks[bi], i);
    forall bj | 0 <= bj < |blocks| && Contains(blocks[bj], i)
      ensures bj == bi
    {
      if bi < bj {
        PartitionOrdered(blocks, 0, |table|, bi, bj);
      } else if bj < bi {
        PartitionOrdered(blocks, 0, |table|, bj, bi);
      }
    }
  }

  // ---------------------------------------------------------------------
  // Tables whose slides are contiguous
  // ---------------------------------------------------------------------

  /** Every slide's rows form one contiguous run of the table. */
  predicate Contiguous(table: seq<Tile>) {
    forall i, j, l | 0 <= i < j < l < |table| && table[i].wsi == table[l].wsi :: table[j].wsi == table[i].wsi
  }

  /** Row `row` is the first of its run of equal slide names. */
  predicate RunStart(table: seq<Tile>, row: nat)
    requires row < |table|
  {
    row == 0 || table[row - 1].wsi != table[row].wsi
  }

  /** One past the last row of the run of equal slide names holding `row`. */
  function RunEnd(table: seq<Tile>, row: nat): (e: nat)
    requires row < |table|
    ensures row < e <= |table|
    ensures forall j | row <= j < e :: table[j].wsi == table[row].wsi
    ensures e < |table| ==> table[e].wsi != table[row].wsi
    decreases |table| - row
  {
    if row + 1 < |table| && table[row + 1].wsi == table[row].wsi then RunEnd(table, row + 1) else row + 1
  }

  /** Every flagged slide's weak labels name prediction columns. */
  predicate FlaggedLabelsInRange(table: seq<Tile>, numClasses: nat) {
    forall i | 0 <= i < |table| :: table[i].containsUnlabeled ==> LabelsInRange(table[i].weak, numClasses)
  }

  /** Block b is a whole run of one slide. */
  predicate IsRun(table: seq<Tile>, b: Block) {
    && b.start < b.end <= |table|
    && RunStart(table, b.start)
    && b.end == RunEnd(table, b.start)
  }

  /** No row before the start of a run belongs to the run's slide. */
  lemma NotBeforeRun(table: seq<Tile>, row: nat, i: nat)
    requires Contiguous(table) && row < |table| && RunStart(table, row) && i < row
    ensures table[i].wsi != table[row].wsi
  {
    if i < row - 1 {
      var mine, previous, name := table[i].wsi, table[row - 1].wsi, table[row].wsi;
      assert mine == name ==> previous == name;
    }
  }

  /** No row after the end of a run belongs to the run's slide. */
  lemma NotAfterRun(table: seq<Tile>, row: nat, l: nat)
    requires Contiguous(table) && row < |table| && RunEnd(table, row) <= l < |table|
    ensures table[l].wsi != table[row].wsi
  {
    var e := RunEnd(table, row);
    if e < l {
      var name, next, theirs := table[row].wsi, table[e].wsi, table[l].wsi;
      assert theirs == name ==> next == name;
    }
  }

  /** A slide whose rows are exactly [from, to) has to - from rows. */
  lemma CountOfRun(table: seq<Tile>, name: string, from: nat, to: nat)
    requires from <= to <= |table|
    requires forall i | 0 <= i < from :: table[i].wsi != name
    requires forall i | from <= i < to :: table[i].wsi == name
    requires forall i | to <= i < |table| :: table[i].wsi != name
    ensures CountWsi(table, name) == to - from
  {
    var before, run, after := table[..from], table[from..to], table[to..];
    assert table == before + run + after;
    assert forall i | 0 <= i < |after| :: after[i] == table[to + i];
    CountWsiNone(before, name);
    CountWsiAll(run, name);
    CountWsiNone(after, name);
    CountWsiConcat(before, run, name);
    CountWsiConcat(before + run, after, name);
  }

  /** In a contiguous table, len(wsi_df) counted from the first row of a
      slide ends the block exactly at the end of that slide's run. */
  lemma ContiguousBlockEnd(table: seq<Tile>, row: nat)
    requires Contiguous(table) && row < |table| && RunStart(table, row)
    ensures BlockEnd(table, row) == RunEnd(table, row)
  {
    var e := RunEnd(table, row);
    forall i | 0 <= i < row ensures table[i].wsi != table[row].wsi {
      NotBeforeRun(table, row, i);
    }
    forall l | e <= l < |table| ensures table[l].wsi != table[row].wsi {
      NotAfterRun(table, row, l);
    }
    CountOfRun(table, table[row].wsi, row, e);
  }

  /** At every row that starts a run, len(wsi_df) ends the block at the end
      of the run. */
  predicate RunsCounted(table: seq<Tile>) {
    forall row | 0 <= row < |table| && RunStart(table, row) :: BlockEnd(table, row) == RunEnd(table, row)
  }

  /** A table whose run starts are counted right and whose flagged slides
      carry in-range weak labels is walked from a run start without error,
      one run per block. */
  lemma {:induction false} WalkOfCountedRuns(table: seq<Tile>, numClasses: nat, row: nat)
    requires RunsCounted(table) && FlaggedLabelsInRange(table, numClasses)
    requires row < |table| && RunStart(table, row)
    ensures BlockWalk(table, numClasses, row).Success?
    ensures var blocks := BlockWalk(table, numClasses, row).value;
      forall bi | 0 <= bi < |blocks| :: IsRun(table, blocks[bi])
    decreases |table| - row
  {
    var end := BlockEnd(table, row);
    var b := Block(row, end);
    assert IsRun(table, b);
    if end < |table| {
      assert RunStart(table, end) by {
        assert table[end - 1].wsi == table[row].wsi;
      }
      WalkOfCountedRuns(table, numClasses, end);
      var rest := BlockWalk(table, numClasses, end).value;
      assert BlockWalk(table, numClasses, row).value == [b] + rest;
      RunsCons(table, b, rest);
    }
  }

  lemma RunsCons(table: seq<Tile>, b: Block, rest: seq<Block>)
    requires IsRun(table, b) && forall bi | 0 <= bi < |rest| :: IsRun(table, rest[bi])
    ensures forall bi | 0 <= bi < |[b] + rest| :: IsRun(table, ([b] + rest)[bi])
  {
    assert forall bi | 1 <= bi < |[b] + rest| :: ([b] + rest)[bi] == rest[bi - 1];
  }

  /** A contiguous table whose flagged slides carry in-range weak labels is
      walked without error, and the walk's blocks are exactly its slides'
      runs. */
  lemma ContiguousWalk(table: seq<Tile>, numClasses: nat)
    requires Contiguous(table) && FlaggedLabelsInRange(table, numClasses) && |table| > 0
    ensures BlockWalk(table, numClasses, 0).Success?
    ensures var blocks := BlockWalk(table, numClasses, 0).value;
      forall bi | 0 <= bi < |blocks| :: IsRun(table, blocks[bi])
  {
    forall row | 0 <= row < |table| && RunStart(table, row) ensures BlockEnd(table, row) == RunEnd(table, row) {
      ContiguousBlockEnd(table, row);
    }
    WalkOfCountedRuns(table, numClasses, 0);
  }

  // ---------------------------------------------------------------------
  // Tables whose slides are not contiguous
  // ---------------------------------------------------------------------

  /** An unflagged tile of slide `name`. */
  function Row(name: string): Tile {
    Tile(name, 0, WsiLabel(0), false)
  }

  /** A slide split around another one is not detected: the walk takes the
      first two rows as slide A (A has two rows in the table), then the two
      B rows, and ends exactly at the end of the table. */
  lemma WalkAcceptsSplitSlide()
    ensures BlockWalk([Row("A"), Row("B"), Row("B"), Row("A")], 1, 0) == Success([Block(0, 2), Block(2, 4)])
  {
    var table := [Row("A"), Row("B"), Row("B"), Row("A")];
    assert table == [Row("A")] + [Row("B"), Row("B")] + [Row("A")];
    SplitSlideCounts([Row("B"), Row("B")]);
    assert BlockEnd(table, 0) == 2 && BlockEnd(table, 2) == 4;
    assert BlockWalk(table, 1, 2) == Success([Block(2, 4)]);
    assert [Block(0, 2)] + [Block(2, 4)] == [Block(0, 2), Block(2, 4)];
  }

  /** Here the second A row starts a block of two rows with only one row
      left, which is the walk's error. */
  lemma WalkRejectsInterleavedSlide()
    ensures BlockWalk([Row("A"), Row("B"), Row("A")], 1, 0) == Failure(BlockOvershoot)
  {
    var table := [Row("A"), Row("B"), Row("A")];
    assert table == [Row("A")] + [Row("B")] + [Row("A")];
    SplitSlideCounts([Row("B")]);
    assert BlockEnd(table, 0) == 2 && BlockEnd(table, 2) == 4;
  }

  /** Slide A's two rows around a run of slide B rows. */
  lemma SplitSlideCounts(middle: seq<Tile>)
    requires forall i | 0 <= i < |middle| :: middle[i].wsi == "B"
    ensures CountWsi([Row("A")] + middle + [Row("A")], "A") == 2
    ensures CountWsi([Row("A")] + middle + [Row("A")], "B") == |middle|
  {
    var a := [Row("A")];
    CountWsiNone(middle, "A");
    CountWsiAll(middle, "B");
    CountWsiConcat(a, middle, "A");
    CountWsiConcat(a, middle, "B");
    CountWsiConcat(a + middle, a, "A");
    CountWsiConcat(a + middle, a, "B");
  }

  // ---------------------------------------------------------------------
  // Counting a slide's rows
  // ---------------------------------------------------------------------

  lemma {:induction false} CountWsiConcat(a: seq<Tile>, b: seq<Tile>, name: string)
    ensures CountWsi(a + b, name) == CountWsi(a, name) + CountWsi(b, name)
    decreases |b|
  {
    if b == [] {
      assert a + b == a;
    } else {
      var n := |b| - 1;
      assert (a + b)[..|a + b| - 1] == a + b[..n];
      CountWsiConcat(a, b[..n], name);
    }
  }

  lemma {:induction false} CountWsiAll(s: seq<Tile>, name: string)
    requires forall i | 0 <= i < |s| :: s[i].wsi == name
    ensures CountWsi(s, name) == |s|
  {
    if s != [] {
      CountWsiAll(s[..|s| - 1], name);
    }
  }

  lemma {:induction false} CountWsiNone(s: seq<Tile>, name: string)
    requires forall i | 0 <= i < |s| :: s[i].wsi != name
    ensures CountWsi(s, name) == 0
  {
    if s != [] {
      CountWsiNone(s[..|s| - 1], name);
    }
  }

}
