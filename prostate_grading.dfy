/** Clinical grading of a prostate whole-slide image: the (primary, secondary)
    Gleason pattern pair derived from per-class tile counts, the Gleason score,
    and the ISUP grade looked up from the pair. */
module ProstateGrading {
  import opened Wrappers
  import opened Ranking

  /** A slide's (primary, secondary) Gleason patterns; (0, 0) means no cancer. */
  datatype GleasonGrade = GleasonGrade(primary: int, secondary: int)

  /** Count bins 1, 2, 3 hold the tiles predicted as Gleason patterns 3, 4, 5. */
  function BinOfPattern(pattern: int): int { pattern - 2 }

  /** How many of the pattern bins 1..3 are nonzero. */
  function NonzeroPatternBins(counts: seq<int>): nat
    requires |counts| >= 4
  {
    (if counts[1] != 0 then 1 else 0) + (if counts[2] != 0 then 1 else 0) + (if counts[3] != 0 then 1 else 0)
  }

  /** calc_gleason_grade. Bin 0 (benign), the confidences and the threshold do
      not take part: the outlier filter that would use them is disabled. With
      no pattern evidence the grade is (0, 0); with one pattern it is that
      pattern twice; otherwise the patterns of the largest and second largest
      bins, ranked by argsort. */
  function CalcGleasonGrade(counts: seq<int>, confidences: seq<real>, confidenceThreshold: real): (g: GleasonGrade)
    requires |counts| >= 4
    ensures g.primary in {0, 3, 4, 5} && g.secondary in {0, 3, 4, 5}
    ensures g.primary == 0 <==> NonzeroPatternBins(counts) == 0
    ensures g.secondary == 0 <==> NonzeroPatternBins(counts) == 0
    ensures g.primary == g.secondary <==> NonzeroPatternBins(counts) <= 1
    ensures NonzeroPatternBins(counts) == 1 ==> counts[BinOfPattern(g.primary)] != 0
    ensures NonzeroPatternBins(counts) >= 2 ==>
      forall b | 1 <= b <= 3 :: counts[b] <= counts[BinOfPattern(g.primary)]
    ensures NonzeroPatternBins(counts) >= 2 ==>
      forall b | 1 <= b <= 3 && b != BinOfPattern(g.primary) :: counts[b] <= counts[BinOfPattern(g.secondary)]
  {
    if counts[1] == counts[2] == counts[3] == 0 then GleasonGrade(0, 0)
    else if counts[2] == counts[3] == 0 then GleasonGrade(3, 3)
    else if counts[1] == counts[3] == 0 then GleasonGrade(4, 4)
    else if counts[1] == counts[2] == 0 then GleasonGrade(5, 5)
    else
      var ranks := counts[1..4];
      var order := Argsort(ranks);
      TopTwoOfArgsort(ranks);
      assert forall b | 1 <= b <= 3 :: counts[b] == ranks[b - 1];
      GleasonGrade(order[2] + 3, order[1] + 3)
  }

  /** The last two entries of argsort over three bins: the largest bin, and
      the largest of the other two. */
  lemma TopTwoOfArgsort(ranks: seq<int>)
    requires |ranks| == 3
    ensures var order := Argsort(ranks);
      && order[1] != order[2]
      && forall j | 0 <= j < 3 :: ranks[j] <= ranks[order[2]] && (j != order[2] ==> ranks[j] <= ranks[order[1]])
  {
    var order := Argsort(ranks);
    forall j | 0 <= j < 3 ensures ranks[j] <= ranks[order[2]] && (j != order[2] ==> ranks[j] <= ranks[order[1]]) {
      assert j in order;
      var a :| 0 <= a < 3 && order[a] == j;
    }
  }

  function GleasonScore(g: GleasonGrade): int { g.primary + g.secondary }

  /** The ten-entry ISUP table (ISUP 2014 grade groups); -1 for a pair outside
      it, the value the Python code leaves in place before its assertion. */
  function IsupGrade(primary: int, secondary: int): (isup: int)
    ensures -1 <= isup <= 5
    ensures isup == -1 <==> !(primary == secondary == 0 || (3 <= primary <= 5 && 3 <= secondary <= 5))
  {
    match (primary, secondary)
    case (0, 0) => 0
    case (3, 3) => 1
    case (3, 4) => 2
    case (4, 3) => 3
    case (3, 5) => 4
    case (4, 4) => 4
    case (5, 3) => 4
    case (4, 5) => 5
    case (5, 4) => 5
    case (5, 5) => 5
    case _ => -1
  }

  /** Grade group defined from the Gleason score alone, splitting score 7 by
      the primary pattern: the convention the table encodes. */
  function GradeGroupByScore(primary: int, secondary: int): int {
    var score := primary + secondary;
    if score == 0 then 0
    else if score <= 6 then 1
    else if score == 7 then (if primary == 3 then 2 else 3)
    else if score == 8 then 4
    else 5
  }

  /** np.where(logical_and(primary == p, secondary == s), grade, isup). */
  function OverwriteWherePair(primary: seq<int>, secondary: seq<int>, p: int, s: int, grade: int, isup: seq<int>): (r: seq<int>)
    requires |primary| == |secondary| == |isup|
    ensures |r| == |isup|
    ensures forall i | 0 <= i < |r| :: r[i] == if primary[i] == p && secondary[i] == s then grade else isup[i]
  {
    seq(|isup|, i requires 0 <= i < |isup| => if primary[i] == p && secondary[i] == s then grade else isup[i])
  }

  /** The ten successive overwrites of the isup_grade column, starting from -1. */
  method IsupGrades(primary: seq<int>, secondary: seq<int>) returns (isup: seq<int>)
    requires |primary| == |secondary|
    ensures |isup| == |primary|
    ensures forall i | 0 <= i < |isup| :: isup[i] == IsupGrade(primary[i], secondary[i])
  {
    isup := seq(|primary|, _ => -1);
    isup := OverwriteWherePair(primary, secondary, 0, 0, 0, isup);
    isup := OverwriteWherePair(primary, secondary, 3, 3, 1, isup);
    isup := OverwriteWherePair(primary, secondary, 3, 4, 2, isup);
    isup := OverwriteWherePair(primary, secondary, 4, 3, 3, isup);
    isup := OverwriteWherePair(primary, secondary, 3, 5, 4, isup);
    isup := OverwriteWherePair(primary, secondary, 4, 4, 4, isup);
    isup := OverwriteWherePair(primary, secondary, 5, 3, 4, isup);
    isup := OverwriteWherePair(primary, secondary, 4, 5, 5, isup);
    isup := OverwriteWherePair(primary, secondary, 5, 4, 5, isup);
    isup := OverwriteWherePair(primary, secondary, 5, 5, 5, isup);
  }

  /** A slide table with Gleason_primary and Gleason_secondary columns, to
      which the grading adds the gleason_score and isup_grade columns in place. */
  class WsiGradeTable {
    var gleasonPrimary: seq<int>
    var gleasonSecondary: seq<int>
    var gleasonScore: Option<seq<int>>
    var isupGrade: Option<seq<int>>

    ghost predicate Valid()
      reads this
    {
      |gleasonPrimary| == |gleasonSecondary|
    }

    constructor (primary: seq<int>, secondary: seq<int>)
      requires |primary| == |secondary|
      ensures Valid()
      ensures gleasonPrimary == primary && gleasonSecondary == secondary
      ensures gleasonScore == None && isupGrade == None
    {
      gleasonPrimary := primary;
      gleasonSecondary := secondary;
      gleasonScore := None;
      isupGrade := None;
    }

    /** get_gleason_score_and_isup_grade. Returns false where the Python code
        fails its assertion; the gleason_score column is written before that
        assertion and so is present either way. */
    method GetGleasonScoreAndIsupGrade() returns (ok: bool)
      requires Valid()
      modifies this
      ensures Valid()
      ensures gleasonPrimary == old(gleasonPrimary) && gleasonSecondary == old(gleasonSecondary)
      ensures gleasonScore.Some? && |gleasonScore.value| == |gleasonPrimary|
      ensures forall i | 0 <= i < |gleasonPrimary| ::
        gleasonScore.value[i] == GleasonScore(GleasonGrade(gleasonPrimary[i], gleasonSecondary[i]))
      ensures ok <==> forall i | 0 <= i < |gleasonPrimary| :: IsupGrade(gleasonPrimary[i], gleasonSecondary[i]) >= 0
      ensures ok ==> isupGrade.Some? && |isupGrade.value| == |gleasonPrimary|
      ensures ok ==> forall i | 0 <= i < |gleasonPrimary| ::
        0 <= isupGrade.value[i] <= 5 && isupGrade.value[i] == IsupGrade(gleasonPrimary[i], gleasonSecondary[i])
      ensures !ok ==> isupGrade == old(isupGrade)
    {
      var primary, secondary := gleasonPrimary, gleasonSecondary;
      var n := |primary|;
      gleasonScore := Some(seq(n, i requires 0 <= i < n => primary[i] + secondary[i]));
      var isup := IsupGrades(gleasonPrimary, gleasonSecondary);
      ok := forall i | 0 <= i < n :: isup[i] >= 0;
      if ok {
        isupGrade := Some(isup);
      }
    }
  }

  // ---------------------------------------------------------------------
  // Properties
  // ---------------------------------------------------------------------

  /** The table is order-sensitive: 3+4 and 4+3 share the score 7 but not the
      grade, and 4+4 and 4+5 are different grades. */
  lemma IsupTableAsymmetry()
    ensures IsupGrade(3, 4) == 2 && IsupGrade(4, 3) == 3
    ensures IsupGrade(4, 4) == 4 && IsupGrade(4, 5) == 5
    ensures IsupGrade(3, 5) == IsupGrade(5, 3) == 4
  {
  }

  /** Every pair the table knows is graded as its Gleason score dictates. */
  lemma IsupAgreesWithGradeGroup(primary: int, secondary: int)
    requires IsupGrade(primary, secondary) >= 0
    ensures IsupGrade(primary, secondary) == GradeGroupByScore(primary, secondary)
  {
  }

  /** Composing the two functions never trips the assertion: every pair
      calc_gleason_grade returns is in the table, its Gleason score is one of
      the confusion-matrix labels 0, 6..10, and its ISUP grade lies in 0..5. */
  lemma GradeIsAlwaysInIsupTable(counts: seq<int>, confidences: seq<real>, confidenceThreshold: real)
    requires |counts| >= 4
    ensures var g := CalcGleasonGrade(counts, confidences, confidenceThreshold);
      && 0 <= IsupGrade(g.primary, g.secondary) <= 5
      && GleasonScore(g) in {0, 6, 7, 8, 9, 10}
  {
  }

  /** The degenerate cases: no pattern evidence gives (0, 0), evidence for a
      single pattern gives that pattern twice. */
  lemma DegenerateGrades(counts: seq<int>, confidences: seq<real>, confidenceThreshold: real)
    requires |counts| >= 4
    ensures counts[1] == counts[2] == counts[3] == 0 ==>
      CalcGleasonGrade(counts, confidences, confidenceThreshold) == GleasonGrade(0, 0)
    ensures counts[1] != 0 && counts[2] == counts[3] == 0 ==>
      CalcGleasonGrade(counts, confidences, confidenceThreshold) == GleasonGrade(3, 3)
    ensures counts[2] != 0 && counts[1] == counts[3] == 0 ==>
      CalcGleasonGrade(counts, confidences, confidenceThreshold) == GleasonGrade(4, 4)
    ensures counts[3] != 0 && counts[1] == counts[2] == 0 ==>
      CalcGleasonGrade(counts, confidences, confidenceThreshold) == GleasonGrade(5, 5)
  {
  }

  /** With two or more patterns present and non-negative counts, the grade
      names two different patterns, the primary one has the largest count,
      and the secondary one has a positive count at least that of the third. */
  lemma TwoPatternGrade(counts: seq<int>, confidences: seq<real>, confidenceThreshold: real)
    requires |counts| >= 4 && forall b | 1 <= b <= 3 :: counts[b] >= 0
    requires NonzeroPatternBins(counts) >= 2
    ensures var g := CalcGleasonGrade(counts, confidences, confidenceThreshold);
      && g.primary != g.secondary
      && g.primary in {3, 4, 5} && g.secondary in {3, 4, 5}
      && (forall b | 1 <= b <= 3 :: counts[b] <= counts[BinOfPattern(g.primary)])
      && counts[BinOfPattern(g.secondary)] > 0
      && (forall b | 1 <= b <= 3 && b != BinOfPattern(g.primary) :: counts[b] <= counts[BinOfPattern(g.secondary)])
  {
  }

  /** Only bins 1..3 matter: bin 0, the confidences and the threshold are inert. */
  lemma GradeIgnoresBenignBinAndConfidences(counts: seq<int>, counts': seq<int>,
                                            confidences: seq<real>, confidences': seq<real>,
                                            threshold: real, threshold': real)
    requires |counts| >= 4 && |counts'| >= 4
    requires counts[1..4] == counts'[1..4]
    ensures CalcGleasonGrade(counts, confidences, threshold) == CalcGleasonGrade(counts', confidences', threshold')
  {
    assert counts[1] == counts'[1] && counts[2] == counts'[2] && counts[3] == counts'[3] by {
      assert counts[1..4][0] == counts'[1..4][0];
      assert counts[1..4][1] == counts'[1..4][1];
      assert counts[1..4][2] == counts'[1..4][2];
    }
  }

  /** The worked example: bins 1..3 hold 2, 5, 3 tiles, so pattern 4 leads and
      pattern 5 follows. */
  lemma RankedExample()
    ensures CalcGleasonGrade([1, 2, 5, 3], [], 0.0) == GleasonGrade(4, 5)
  {
  }
}
