/**
 * Order-preserving alignment of text runs to row anchors (parse_prd_workbook.py, `_align_runs`): the
 * relaxation table holds the least costs and the backtrack returns an alignment of least cost.
 */
module Alignment {
  datatype Cost = Inf | Fin(value: real) {
    function Plus(c: real): Cost {
      if Inf? then Inf else Fin(value + c)
    }

    predicate Less(other: Cost) {
      Fin? && (other.Inf? || value < other.value)
    }
  }

  function Min(a: Cost, b: Cost): Cost {
    if b.Less(a) then b else a
  }

  const SKIP_ANCHOR := 5.0
  const SKIP_RUN := 30.0

  function Distance(run: real, anchor: real): real {
    if run < anchor then anchor - run else run - anchor
  }

  // ----- least costs -----------------------------------------------------------------------------

  /** Least cost of aligning the first `i` runs to the first `j` anchors, by what happens to the last ones. */
  function Least(runs: seq<real>, anchors: seq<real>, i: nat, j: nat): (c: Cost)
    requires i <= |runs| && j <= |anchors|
    ensures c.Fin?
    decreases i + j, 2
  {
    Min(BeforeSkip(runs, anchors, i, j), if j > 0 then Least(runs, anchors, i, j - 1).Plus(SKIP_ANCHOR) else Inf)
  }

  /** The same without the case that the last anchor is skipped. */
  function BeforeSkip(runs: seq<real>, anchors: seq<real>, i: nat, j: nat): (c: Cost)
    requires i <= |runs| && j <= |anchors|
    ensures i > 0 || j == 0 ==> c.Fin?
    decreases i + j, 1
  {
    if i == 0 && j == 0 then Fin(0.0)
    else Min(Match(runs, anchors, i, j), if i > 0 then Least(runs, anchors, i - 1, j).Plus(SKIP_RUN) else Inf)
  }

  /** The case that the last run is matched to the last anchor. */
  function Match(runs: seq<real>, anchors: seq<real>, i: nat, j: nat): Cost
    requires i <= |runs| && j <= |anchors|
    decreases i + j, 0
  {
    if i > 0 && j > 0 then Least(runs, anchors, i - 1, j - 1).Plus(Distance(runs[i - 1], anchors[j - 1])) else Inf
  }

  /** The least cost is one of the three cases and at most each of them. */
  lemma LeastCases(runs: seq<real>, anchors: seq<real>, i: nat, j: nat)
    requires i <= |runs| && j <= |anchors| && (i > 0 || j > 0)
    ensures var c := Least(runs, anchors, i, j);
            && (i > 0 && j > 0 ==>
                c.value <= Least(runs, anchors, i - 1, j - 1).value + Distance(runs[i - 1], anchors[j - 1]))
            && (j > 0 ==> c.value <= Least(runs, anchors, i, j - 1).value + SKIP_ANCHOR)
            && (i > 0 ==> c.value <= Least(runs, anchors, i - 1, j).value + SKIP_RUN)
            && (|| (i > 0 && j > 0 &&
                    c == Least(runs, anchors, i - 1, j - 1).Plus(Distance(runs[i - 1], anchors[j - 1])))
                || (j > 0 && c == Least(runs, anchors, i, j - 1).Plus(SKIP_ANCHOR))
                || (i > 0 && c == Least(runs, anchors, i - 1, j).Plus(SKIP_RUN)))
  {
    var before := BeforeSkip(runs, anchors, i, j);
    assert Least(runs, anchors, i, j) ==
           Min(before, if j > 0 then Least(runs, anchors, i, j - 1).Plus(SKIP_ANCHOR) else Inf);
    assert before ==
           Min(Match(runs, anchors, i, j), if i > 0 then Least(runs, anchors, i - 1, j).Plus(SKIP_RUN) else Inf);
  }

  // ----- alignments ------------------------------------------------------------------------------

  /** Pairs of run and anchor indices below `i` and `j`, strictly falling in both, as the backtrack finds them. */
  predicate Aligns(pairs: seq<(int, int)>, i: int, j: int) {
    && (forall k :: 0 <= k < |pairs| ==> 0 <= pairs[k].0 < i && 0 <= pairs[k].1 < j)
    && (forall k, l :: 0 <= k < l < |pairs| ==> pairs[l].0 < pairs[k].0 && pairs[l].1 < pairs[k].1)
  }

  function MatchSum(runs: seq<real>, anchors: seq<real>, pairs: seq<(int, int)>): real
    requires Aligns(pairs, |runs|, |anchors|)
  {
    if pairs == [] then 0.0
    else
      var run, anchor := runs[pairs[0].0], anchors[pairs[0].1];
      (if run < anchor then anchor - run else run - anchor) + MatchSum(runs, anchors, pairs[1..])
  }

  /** Distances of the matches, 5 for every anchor left out and 30 for every run left out. */
  function CostOf(runs: seq<real>, anchors: seq<real>, pairs: seq<(int, int)>, i: int, j: int): real
    requires Aligns(pairs, |runs|, |anchors|)
  {
    MatchSum(runs, anchors, pairs) + 5.0 * (j - |pairs|) as real + 30.0 * (i - |pairs|) as real
  }

  /** No alignment is cheaper than the least cost. */
  lemma {:induction false} LeastIsLowerBound(runs: seq<real>, anchors: seq<real>, i: nat, j: nat,
                                             pairs: seq<(int, int)>)
    requires i <= |runs| && j <= |anchors| && Aligns(pairs, i, j)
    ensures Aligns(pairs, |runs|, |anchors|) && Least(runs, anchors, i, j).value <= CostOf(runs, anchors, pairs, i, j)
    decreases i + j
  {
    if i > 0 || j > 0 {
      LeastCases(runs, anchors, i, j);
    }
    if pairs != [] && pairs[0] == (i - 1, j - 1) {
      assert (i - 1) - |pairs[1..]| == i - |pairs| && (j - 1) - |pairs[1..]| == j - |pairs|;
      LeastIsLowerBound(runs, anchors, i - 1, j - 1, pairs[1..]);
    } else if j > 0 && (pairs == [] || pairs[0].1 < j - 1) {
      LeastIsLowerBound(runs, anchors, i, j - 1, pairs);
    } else if i > 0 {
      LeastIsLowerBound(runs, anchors, i - 1, j, pairs);
    }
  }

  lemma AlignsParts(pairs: seq<(int, int)>, p: (int, int), n: int, m: int)
    requires Aligns(pairs + [p], n, m)
    ensures Aligns(pairs, n, m) && 0 <= p.0 < n && 0 <= p.1 < m
    ensures pairs != [] ==> (pairs + [p])[0] == pairs[0] && (pairs + [p])[1..] == pairs[1..] + [p] &&
                            Aligns(pairs[1..] + [p], n, m)
  {
    var all := pairs + [p];
    assert all[|pairs|] == p && forall k :: 0 <= k < |pairs| ==> all[k] == pairs[k];
    if pairs != [] {
      assert all[1..] == pairs[1..] + [p];
    }
  }

  lemma {:induction false} MatchSumSnoc(runs: seq<real>, anchors: seq<real>, pairs: seq<(int, int)>, p: (int, int))
    requires Aligns(pairs + [p], |runs|, |anchors|)
    ensures Aligns(pairs, |runs|, |anchors|) && 0 <= p.0 < |runs| && 0 <= p.1 < |anchors|
    ensures MatchSum(runs, anchors, pairs + [p]) == MatchSum(runs, anchors, pairs) + Distance(runs[p.0], anchors[p.1])
    decreases |pairs|
  {
    AlignsParts(pairs, p, |runs|, |anchors|);
    if pairs == [] {
      assert pairs + [p] == [p] && [p][1..] == [];
    } else {
      MatchSumSnoc(runs, anchors, pairs[1..], p);
    }
  }

  /** How far a pair is apart, and what is left of an alignment without it. */
  function Apart(runs: seq<real>, anchors: seq<real>, p: (int, int)): real
    requires 0 <= p.0 < |runs| && 0 <= p.1 < |anchors|
  {
    if runs[p.0] < anchors[p.1] then anchors[p.1] - runs[p.0] else runs[p.0] - anchors[p.1]
  }

  function Without(pairs: seq<(int, int)>, k: nat): seq<(int, int)>
    requires k < |pairs|
  {
    pairs[..k] + pairs[k + 1..]
  }

  lemma StillAligns(pairs: seq<(int, int)>, k: nat, n: int, m: int)
    requires Aligns(pairs, n, m) && k < |pairs|
    ensures Aligns(Without(pairs, k), n, m) && |Without(pairs, k)| == |pairs| - 1
    ensures Aligns(pairs[1..], n, m)
  {
    var rest := Without(pairs, k);
    assert forall i :: 0 <= i < |rest| ==> rest[i] == pairs[if i < k then i else i + 1];
  }

  lemma WithoutLater(pairs: seq<(int, int)>, k: nat)
    requires 0 < k < |pairs|
    ensures var rest := Without(pairs, k);
            rest != [] && rest[0] == pairs[0] && rest[1..] == Without(pairs[1..], k - 1)
  {
  }

  lemma {:induction false} WithoutPair(runs: seq<real>, anchors: seq<real>, pairs: seq<(int, int)>, k: nat)
    requires Aligns(pairs, |runs|, |anchors|) && k < |pairs|
    ensures Aligns(Without(pairs, k), |runs|, |anchors|) && |Without(pairs, k)| == |pairs| - 1
    ensures MatchSum(runs, anchors, pairs) ==
            MatchSum(runs, anchors, Without(pairs, k)) + Apart(runs, anchors, pairs[k])
  {
    StillAligns(pairs, k, |runs|, |anchors|);
    if k == 0 {
      assert Without(pairs, k) == pairs[1..];
    } else {
      WithoutLater(pairs, k);
      hide Aligns, Without;
      WithoutPair(runs, anchors, pairs[1..], k - 1);
    }
  }

  lemma {:induction false} NoNegativeMatch(runs: seq<real>, anchors: seq<real>, pairs: seq<(int, int)>)
    requires Aligns(pairs, |runs|, |anchors|)
    ensures MatchSum(runs, anchors, pairs) >= 0.0
  {
    if pairs != [] {
      NoNegativeMatch(runs, anchors, pairs[1..]);
    }
  }

  /** An alignment has no more pairs than there are runs; with as many, over as many anchors, it is the identity. */
  lemma {:induction false} FallingPairs(pairs: seq<(int, int)>, n: int, m: int)
    requires Aligns(pairs, n, m)
    ensures pairs != [] ==> |pairs| <= pairs[0].0 + 1 <= n && |pairs| <= pairs[0].1 + 1 <= m
    ensures |pairs| == n == m ==> forall k :: 0 <= k < n ==> pairs[k] == (n - 1 - k, n - 1 - k)
  {
    if pairs != [] {
      FallingPairs(pairs[1..], pairs[0].0, pairs[0].1);
    }
  }

  /** No pair of a cheapest alignment is more than 35 apart: leaving its run and its anchor out costs 30 and 5. */
  lemma CheapestIsClose(runs: seq<real>, anchors: seq<real>, pairs: seq<(int, int)>)
    requires Aligns(pairs, |runs|, |anchors|)
    requires forall other :: Aligns(other, |runs|, |anchors|) ==>
               CostOf(runs, anchors, pairs, |runs|, |anchors|) <= CostOf(runs, anchors, other, |runs|, |anchors|)
    ensures forall k :: 0 <= k < |pairs| ==> -35.0 <= runs[pairs[k].0] - anchors[pairs[k].1] <= 35.0
  {
    forall k | 0 <= k < |pairs| ensures -35.0 <= runs[pairs[k].0] - anchors[pairs[k].1] <= 35.0 {
      WithoutPair(runs, anchors, pairs, k);
      assert CostOf(runs, anchors, pairs, |runs|, |anchors|) <=
             CostOf(runs, anchors, Without(pairs, k), |runs|, |anchors|);
    }
  }

  function Identity(n: nat): (pairs: seq<(int, int)>)
    ensures |pairs| == n && forall k :: 0 <= k < n ==> pairs[k] == (n - 1 - k, n - 1 - k)
  {
    seq(n, k => (n - 1 - k, n - 1 - k))
  }

  lemma {:induction false} ExactMatches(runs: seq<real>, pairs: seq<(int, int)>)
    requires Aligns(pairs, |runs|, |runs|) && forall k :: 0 <= k < |pairs| ==> pairs[k].0 == pairs[k].1
    ensures MatchSum(runs, runs, pairs) == 0.0
  {
    if pairs != [] {
      ExactMatches(runs, pairs[1..]);
    }
  }

  /** Runs that sit on the anchors are aligned one to one. */
  lemma ExactRunsStay(runs: seq<real>, pairs: seq<(int, int)>)
    requires Aligns(pairs, |runs|, |runs|)
    requires forall other :: Aligns(other, |runs|, |runs|) ==>
               CostOf(runs, runs, pairs, |runs|, |runs|) <= CostOf(runs, runs, other, |runs|, |runs|)
    ensures |pairs| == |runs| && forall k :: 0 <= k < |runs| ==> pairs[k] == (|runs| - 1 - k, |runs| - 1 - k)
  {
    var n := |runs|;
    var one := Identity(n);
    ExactMatches(runs, one);
    assert CostOf(runs, runs, pairs, n, n) <= CostOf(runs, runs, one, n, n) == 0.0;
    NoNegativeMatch(runs, runs, pairs);
    FallingPairs(pairs, n, n);
  }

  /** Alignments of what lies from run `i` and anchor `j` on. */
  predicate AlignsFrom(pairs: seq<(int, int)>, i: int, j: int, n: int, m: int) {
    Aligns(pairs, n, m) && forall k :: 0 <= k < |pairs| ==> i <= pairs[k].0 && j <= pairs[k].1
  }

  /** One step back: a match joins the alignment, or one more anchor or run is left out of it. */
  lemma StepBack(runs: seq<real>, anchors: seq<real>, pairs: seq<(int, int)>, i: nat, j: nat)
    requires i <= |runs| && j <= |anchors| && AlignsFrom(pairs, i, j, |runs|, |anchors|)
    ensures var a, b := |runs| - i, |anchors| - j;
            var c := CostOf(runs, anchors, pairs, a, b);
            && CostOf(runs, anchors, pairs, a, b + 1) == c + SKIP_ANCHOR
            && CostOf(runs, anchors, pairs, a + 1, b) == c + SKIP_RUN
            && (i > 0 && j > 0 ==>
                  && AlignsFrom(pairs + [(i - 1, j - 1)], i - 1, j - 1, |runs|, |anchors|)
                  && CostOf(runs, anchors, pairs + [(i - 1, j - 1)], a + 1, b + 1) ==
                    c + Distance(runs[i - 1], anchors[j - 1]))
    ensures j > 0 ==> AlignsFrom(pairs, i, j - 1, |runs|, |anchors|)
    ensures i > 0 ==> AlignsFrom(pairs, i - 1, j, |runs|, |anchors|)
  {
    hide MatchSum;
    if i > 0 && j > 0 {
      MatchSumSnoc(runs, anchors, pairs, (i - 1, j - 1));
    }
  }

  // ----- the table -------------------------------------------------------------------------------

  /** The table after all predecessors before row `i` were relaxed: finished rows, a started row, untouched rows. */
  ghost predicate RowsDone(dp: array2<Cost>, runs: seq<real>, anchors: seq<real>, i: int)
    requires dp.Length0 == |runs| + 1 && dp.Length1 == |anchors| + 1
    reads dp
  {
    forall a, b :: 0 <= a <= |runs| && 0 <= b <= |anchors| ==>
      dp[a, b] == if a < i then Least(runs, anchors, a, b) else if a == i then BeforeSkip(runs, anchors, a, b) else Inf
  }

  /** Inside row `i`, about to relax from column `j`. */
  ghost predicate CellsDone(dp: array2<Cost>, runs: seq<real>, anchors: seq<real>, i: int, j: int)
    requires dp.Length0 == |runs| + 1 && dp.Length1 == |anchors| + 1
    reads dp
  {
    forall a, b :: 0 <= a <= |runs| && 0 <= b <= |anchors| ==>
      dp[a, b] == if a < i || (a == i && b <= j) then Least(runs, anchors, a, b)
                  else if a == i || (a == i + 1 && b < j) then BeforeSkip(runs, anchors, a, b)
                  else if a == i + 1 && b == j then Match(runs, anchors, a, b)
                  else Inf
  }

  method FillTable(runs: seq<real>, anchors: seq<real>) returns (dp: array2<Cost>)
    ensures fresh(dp) && dp.Length0 == |runs| + 1 && dp.Length1 == |anchors| + 1
    ensures RowsDone(dp, runs, anchors, |runs| + 1)
  {
    var n, m := |runs|, |anchors|;
    dp := new Cost[n + 1, m + 1]((_, _) => Inf);
    dp[0, 0] := Fin(0.0);
    for i := 0 to n + 1
      invariant RowsDone(dp, runs, anchors, i)
    {
      for j := 0 to m + 1
        invariant CellsDone(dp, runs, anchors, i, j)
      {
        var cur := dp[i, j];
        if cur != Inf {
          if i < n && j < m {
            var cost := Distance(runs[i], anchors[j]);
            if cur.Plus(cost).Less(dp[i + 1, j + 1]) {
              dp[i + 1, j + 1] := cur.Plus(cost);
            }
          }
          if j < m && cur.Plus(SKIP_ANCHOR).Less(dp[i, j + 1]) {
            dp[i, j + 1] := cur.Plus(SKIP_ANCHOR);
          }
          if i < n && cur.Plus(SKIP_RUN).Less(dp[i + 1, j]) {
            dp[i + 1, j] := cur.Plus(SKIP_RUN);
          }
        }
      }
    }
  }

  // ----- the backtrack ---------------------------------------------------------------------------

  /** The alignment returned is in range, order preserving, and costs no more than any other. */
  method AlignRuns(runs: seq<real>, anchors: seq<real>) returns (pairs: seq<(int, int)>)
    ensures Aligns(pairs, |runs|, |anchors|)
    ensures CostOf(runs, anchors, pairs, |runs|, |anchors|) == Least(runs, anchors, |runs|, |anchors|).value
    ensures forall other :: Aligns(other, |runs|, |anchors|) ==>
              CostOf(runs, anchors, pairs, |runs|, |anchors|) <= CostOf(runs, anchors, other, |runs|, |anchors|)
    ensures forall k :: 0 <= k < |pairs| ==> -35.0 <= runs[pairs[k].0] - anchors[pairs[k].1] <= 35.0
    ensures runs == anchors ==>
              |pairs| == |runs| && forall k :: 0 <= k < |runs| ==> pairs[k] == (|runs| - 1 - k, |runs| - 1 - k)
  {
    var n, m := |runs|, |anchors|;
    var dp := FillTable(runs, anchors);
    pairs := [];
    var i, j := n, m;
    while i > 0 || j > 0
      invariant 0 <= i <= n && 0 <= j <= m && RowsDone(dp, runs, anchors, n + 1)
      invariant AlignsFrom(pairs, i, j, n, m)
      invariant Least(runs, anchors, n, m).value ==
                Least(runs, anchors, i, j).value + CostOf(runs, anchors, pairs, n - i, m - j)
      decreases i + j
    {
      hide Least, BeforeSkip, Match, CostOf, AlignsFrom;
      LeastCases(runs, anchors, i, j);
      StepBack(runs, anchors, pairs, i, j);
      assert dp[i, j] == Least(runs, anchors, i, j);
      if i > 0 && j > 0 && dp[i, j] == dp[i - 1, j - 1].Plus(Distance(runs[i - 1], anchors[j - 1])) {
        pairs := pairs + [(i - 1, j - 1)];
        i, j := i - 1, j - 1;
      } else if j > 0 && dp[i, j] == dp[i, j - 1].Plus(SKIP_ANCHOR) {
        j := j - 1;
      } else if i > 0 && dp[i, j] == dp[i - 1, j].Plus(SKIP_RUN) {
        i := i - 1;
      } else {
        // The two fallbacks that drop a run or an anchor regardless of cost are never reached.
        assert false;
      }
    }
    Cheapest(runs, anchors, pairs);
  }

  /** What costs the least is no dearer than any other, close, and exact where runs sit on the anchors. */
  lemma Cheapest(runs: seq<real>, anchors: seq<real>, pairs: seq<(int, int)>)
    requires Aligns(pairs, |runs|, |anchors|)
    requires CostOf(runs, anchors, pairs, |runs|, |anchors|) == Least(runs, anchors, |runs|, |anchors|).value
    ensures forall other :: Aligns(other, |runs|, |anchors|) ==>
              CostOf(runs, anchors, pairs, |runs|, |anchors|) <= CostOf(runs, anchors, other, |runs|, |anchors|)
    ensures forall k :: 0 <= k < |pairs| ==> -35.0 <= runs[pairs[k].0] - anchors[pairs[k].1] <= 35.0
    ensures runs == anchors ==>
              |pairs| == |runs| && forall k :: 0 <= k < |runs| ==> pairs[k] == (|runs| - 1 - k, |runs| - 1 - k)
  {
    hide CostOf, Least;
    forall other | Aligns(other, |runs|, |anchors|)
      ensures CostOf(runs, anchors, pairs, |runs|, |anchors|) <= CostOf(runs, anchors, other, |runs|, |anchors|)
    {
      LeastIsLowerBound(runs, anchors, |runs|, |anchors|, other);
    }
    CheapestIsClose(runs, anchors, pairs);
    if runs == anchors {
      ExactRunsStay(runs, pairs);
    }
  }
}
