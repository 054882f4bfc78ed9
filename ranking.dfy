/** The two uses the code makes of numpy's argsort, stated relationally.
    argsort's default kind is not guaranteed stable, so nothing here fixes the
    order of tied scores: the contracts say only what holds for every order. */
module Ranking {

  function Min(a: nat, b: nat): nat { if a <= b then a else b }

  predicate Distinct(s: seq<nat>) {
    forall a, b | 0 <= a < b < |s| :: s[a] != s[b]
  }

  // ---------------------------------------------------------------------
  // Descending top-k: argsort(scores)[::-1][:k]
  // ---------------------------------------------------------------------

  /** `top` is a possible value of argsort(scores)[::-1][:k]: min(k, |scores|)
      distinct positions of `scores`, listed by non-increasing score, and no
      position left out scores above a position taken. */
  predicate IsTopK(scores: seq<real>, k: nat, top: seq<nat>) {
    && |top| == Min(k, |scores|)
    && (forall a | 0 <= a < |top| :: top[a] < |scores|)
    && Distinct(top)
    && (forall a, b | 0 <= a < b < |top| :: scores[top[a]] >= scores[top[b]])
    && (forall a, j | 0 <= a < |top| && 0 <= j < |scores| && j !in top :: scores[top[a]] >= scores[j])
  }

  function CountTrue(s: seq<bool>): (c: nat)
    ensures c <= |s|
  {
    if s == [] then 0 else CountTrue(s[..|s| - 1]) + (if s[|s| - 1] then 1 else 0)
  }

  /** Setting one unset flag raises the count by exactly one. */
  lemma {:induction false} CountTrueSet(s: seq<bool>, i: nat)
    requires i < |s| && !s[i]
    ensures CountTrue(s[i := true]) == CountTrue(s) + 1
  {
    var n := |s| - 1;
    if i < n {
      assert s[i := true][..n] == s[..n][i := true];
      CountTrueSet(s[..n], i);
    } else {
      assert s[i := true][..n] == s[..n];
    }
  }

  /** A flag vector whose count is below its length has an unset flag. */
  lemma {:induction false} SomeUnset(s: seq<bool>)
    requires CountTrue(s) < |s|
    ensures exists j :: 0 <= j < |s| && !s[j]
  {
    var n := |s| - 1;
    if s[n] {
      SomeUnset(s[..n]);
      var j :| 0 <= j < n && !s[..n][j];
      assert !s[j];
    }
  }

  /** The scan of HighestUntaken over the first j positions: the first
      untaken position of highest score among them, or -1 if all are taken. */
  function BestUntakenPrefix(scores: seq<real>, taken: seq<bool>, j: nat): (found: int)
    requires |taken| == |scores| && j <= |scores|
    ensures -1 <= found < j
    decreases j
  {
    if j == 0 then -1
    else
      var f := BestUntakenPrefix(scores, taken, j - 1);
      if !taken[j - 1] && (f == -1 || scores[j - 1] > scores[f]) then j - 1 else f
  }

  /** The list and the flags of TopIndices after i selections: a function of
      the scores alone. */
  function SelectState(scores: seq<real>, i: nat): (st: (seq<nat>, seq<bool>))
    ensures |st.1| == |scores|
    decreases i
  {
    if i == 0 then ([], seq(|scores|, _ => false))
    else
      var prev := SelectState(scores, i - 1);
      var b := BestUntakenPrefix(scores, prev.1, |scores|);
      if b < 0 then prev else (prev.0 + [b], prev.1[b := true])
  }

  /** The first i positions TopIndices selects, so two rankings of the same
      column select the same list. */
  function Selected(scores: seq<real>, i: nat): seq<nat> {
    SelectState(scores, i).0
  }

  /** Repeatedly takes the highest-scoring position not yet taken, which yields
      one of the lists argsort(scores)[::-1][:k] can produce, and always the
      same one for the same scores. */
  method TopIndices(scores: seq<real>, k: nat) returns (top: seq<nat>)
    ensures IsTopK(scores, k, top)
    ensures top == Selected(scores, Min(k, |scores|))
  {
    var n := |scores|;
    var m := Min(k, n);
    var taken := seq(n, _ => false);
    top := [];
    assert CountTrue(taken) == 0 by { ZeroCount(n); }
    while |top| < m
      invariant |top| <= m
      invariant SelectionSoFar(scores, top, taken)
      invariant (top, taken) == SelectState(scores, |top|)
    {
      SomeUnset(taken);
      var best := HighestUntaken(scores, taken);
      SelectionStep(scores, top, taken, best);
      SelectedStep(scores, top, taken, best);
      taken := taken[best := true];
      top := top + [best];
    }
  }

  /** The state of TopIndices: `top` lists the positions selected so far, in
      non-increasing score order and none below a position left out, and
      `taken` flags them. */
  predicate SelectionSoFar(scores: seq<real>, top: seq<nat>, taken: seq<bool>) {
    && |taken| == |scores|
    && (forall a | 0 <= a < |top| :: top[a] < |scores|)
    && (forall j | 0 <= j < |scores| :: taken[j] <==> j in top)
    && Distinct(top)
    && CountTrue(taken) == |top|
    && (forall a, b | 0 <= a < b < |top| :: scores[top[a]] >= scores[top[b]])
    && (forall a, j | 0 <= a < |top| && 0 <= j < |scores| && !taken[j] :: scores[top[a]] >= scores[j])
  }

  /** Taking the best untaken position keeps SelectionSoFar. */
  lemma SelectionStep(scores: seq<real>, top: seq<nat>, taken: seq<bool>, best: nat)
    requires SelectionSoFar(scores, top, taken)
    requires best < |scores| && !taken[best]
    requires forall i | 0 <= i < |scores| && !taken[i] :: scores[i] <= scores[best]
    ensures SelectionSoFar(scores, top + [best], taken[best := true])
  {
    CountTrueSet(taken, best);
    assert forall a | 0 <= a < |top| :: taken[top[a]];
    ExtendOrder(scores, top, taken, best);
    TakeOne(top, taken, best);
  }

  /** Flagging `best` as taken keeps the flags in step with the list. */
  lemma TakeOne(top: seq<nat>, taken: seq<bool>, best: nat)
    requires best < |taken| && forall j | 0 <= j < |taken| :: taken[j] <==> j in top
    ensures forall j | 0 <= j < |taken| :: taken[best := true][j] <==> j in top + [best]
  {
    forall j | 0 <= j < |taken| ensures taken[best := true][j] <==> j in top + [best] {
      assert j in top + [best] <==> j in top || j == best;
    }
  }

  /** Appending the best untaken position keeps the selected list distinct,
      non-increasing, and above every position still untaken. */
  lemma ExtendOrder(scores: seq<real>, top: seq<nat>, taken: seq<bool>, best: nat)
    requires |taken| == |scores| && best < |scores| && !taken[best]
    requires forall a | 0 <= a < |top| :: top[a] < |scores| && taken[top[a]]
    requires Distinct(top)
    requires forall a, b | 0 <= a < b < |top| :: scores[top[a]] >= scores[top[b]]
    requires forall a, j | 0 <= a < |top| && 0 <= j < |scores| && !taken[j] :: scores[top[a]] >= scores[j]
    requires forall i | 0 <= i < |scores| && !taken[i] :: scores[i] <= scores[best]
    ensures Distinct(top + [best])
    ensures forall a, b | 0 <= a < b < |top + [best]| :: scores[(top + [best])[a]] >= scores[(top + [best])[b]]
    ensures forall a, j | 0 <= a < |top + [best]| && 0 <= j < |scores| && !taken[best := true][j] ::
      scores[(top + [best])[a]] >= scores[j]
  {
  }

  /** One more selection appends the best position the previous ones left. */
  lemma SelectedStep(scores: seq<real>, top: seq<nat>, taken: seq<bool>, best: nat)
    requires (top, taken) == SelectState(scores, |top|)
    requires best == BestUntakenPrefix(scores, taken, |scores|)
    ensures (top + [best], taken[best := true]) == SelectState(scores, |top + [best]|)
  {
  }

  /** A position not yet taken whose score no other untaken position beats. */
  method HighestUntaken(scores: seq<real>, taken: seq<bool>) returns (best: nat)
    requires |taken| == |scores|
    requires exists j :: 0 <= j < |taken| && !taken[j]
    ensures best < |scores| && !taken[best]
    ensures forall i | 0 <= i < |scores| && !taken[i] :: scores[i] <= scores[best]
    ensures best == BestUntakenPrefix(scores, taken, |scores|)
  {
    var n := |scores|;
    var found: int := -1;
    for j := 0 to n
      invariant -1 <= found < n
      invariant found == -1 ==> forall i | 0 <= i < j :: taken[i]
      invariant found != -1 ==> found < j && !taken[found]
      invariant found != -1 ==> forall i | 0 <= i < j && !taken[i] :: scores[i] <= scores[found]
      invariant found == BestUntakenPrefix(scores, taken, j)
    {
      if !taken[j] && (found == -1 || scores[j] > scores[found]) {
        found := j;
      }
    }
    best := found;
  }

  lemma {:induction false} ZeroCount(n: nat)
    ensures CountTrue(seq(n, _ => false)) == 0
  {
    if n > 0 {
      assert seq(n, _ => false)[..n - 1] == seq(n - 1, _ => false);
      ZeroCount(n - 1);
    }
  }

  // ---------------------------------------------------------------------
  // Ascending argsort: argsort(xs)
  // ---------------------------------------------------------------------

  /** `order` lists positions of `xs` by non-decreasing value. */
  predicate SortedBy(xs: seq<int>, order: seq<nat>)
    requires forall a | 0 <= a < |order| :: order[a] < |xs|
  {
    forall a, b | 0 <= a < b < |order| :: xs[order[a]] <= xs[order[b]]
  }

  /** Inserts position `i` into `order`, already sorted by the value at each
      position, after every position of equal or smaller value. */
  function InsertByValue(xs: seq<int>, order: seq<nat>, i: nat): (r: seq<nat>)
    requires i < |xs|
    requires forall a | 0 <= a < |order| :: order[a] < |xs|
    requires SortedBy(xs, order)
    requires Distinct(order) && i !in order
    ensures |r| == |order| + 1
    ensures forall x: nat :: x in r <==> x == i || x in order
    ensures forall a | 0 <= a < |r| :: r[a] < |xs|
    ensures Distinct(r)
    ensures SortedBy(xs, r)
  {
    if order == [] then [i]
    else if xs[i] < xs[order[0]] then [i] + order
    else
      var rest := InsertByValue(xs, order[1..], i);
      HeadBeforeRest(xs, order, i, rest);
      [order[0]] + rest
  }

  /** The head of a sorted order stays ahead of everything the rest of the
      order becomes once `i` (which does not sort before it) is inserted. */
  lemma HeadBeforeRest(xs: seq<int>, order: seq<nat>, i: nat, rest: seq<nat>)
    requires order != [] && i < |xs| && order[0] < |xs|
    requires forall a | 0 <= a < |order| :: order[a] < |xs|
    requires SortedBy(xs, order) && Distinct(order) && i !in order
    requires xs[order[0]] <= xs[i]
    requires forall x: nat :: x in rest <==> x == i || x in order[1..]
    requires forall b | 0 <= b < |rest| :: rest[b] < |xs|
    ensures order[0] !in rest
    ensures forall b | 0 <= b < |rest| :: xs[order[0]] <= xs[rest[b]]
  {
    assert order[0] !in order[1..] by {
      assert forall a | 1 <= a < |order| :: order[a] != order[0];
    }
    forall b | 0 <= b < |rest| ensures xs[order[0]] <= xs[rest[b]] {
      assert rest[b] in rest;
      if rest[b] != i {
        var a :| 0 <= a < |order[1..]| && order[1..][a] == rest[b];
        assert order[a + 1] == rest[b];
      }
    }
  }

  /** argsort of the first `n` values of `xs`, by insertion. */
  function ArgsortPrefix(xs: seq<int>, n: nat): (order: seq<nat>)
    requires n <= |xs|
    ensures |order| == n
    ensures forall x: nat :: x in order <==> x < n
    ensures forall a | 0 <= a < |order| :: order[a] < |xs|
    ensures Distinct(order)
    ensures SortedBy(xs, order)
  {
    if n == 0 then [] else InsertByValue(xs, ArgsortPrefix(xs, n - 1), n - 1)
  }

  /** np.argsort(xs): a permutation of the positions of `xs` ordering the
      values from smallest to largest. */
  function Argsort(xs: seq<int>): (order: seq<nat>)
    ensures |order| == |xs|
    ensures forall x: nat :: x in order <==> x < |xs|
    ensures forall a | 0 <= a < |order| :: order[a] < |xs|
    ensures Distinct(order)
    ensures SortedBy(xs, order)
  {
    ArgsortPrefix(xs, |xs|)
  }
}
