/** A reference for the ROC-AUC library call: the area under the ROC curve
    of (labels, scores) equals the pairwise rank statistic, the share of
    (negative, positive) pairs in which the positive scores higher, ties
    counting one half.  With this reference the chance-level and
    perfect-separation cases of the scorer are proved. */
module ReferenceAuc {
  import opened Measures
  import opened Scorer

  /** The scores of one class, in order: label 1 when `positive`, any
      other label otherwise (the `pos_label=1` convention). */
  function ClassScores(labels: seq<int>, scores: seq<real>, positive: bool): (r: seq<real>)
    requires |labels| == |scores|
    ensures |r| <= |scores|
    ensures forall x :: x in r ==> x in scores
  {
    if labels == [] then []
    else
      var n := |labels| - 1;
      ClassScores(labels[..n], scores[..n], positive) + (if (labels[n] == 1) == positive then [scores[n]] else [])
  }

  /** What one (negative, positive) pair contributes. */
  function Credit(neg: real, pos: real): real
  {
    if pos > neg then 1.0 else if pos == neg then 0.5 else 0.0
  }

  /** Credit of one negative score against every positive score. */
  function RowWins(neg: real, pos: seq<real>): (w: real)
    ensures 0.0 <= w <= |pos| as real
  {
    if pos == [] then 0.0 else Credit(neg, pos[0]) + RowWins(neg, pos[1..])
  }

  /** Credit summed over every (negative, positive) pair. */
  function Wins(neg: seq<real>, pos: seq<real>): (w: real)
    ensures 0.0 <= w
  {
    if neg == [] then 0.0 else RowWins(neg[0], pos) + Wins(neg[1..], pos)
  }

  /** No more credit than there are pairs. */
  lemma {:induction false} WinsAtMostPairs(neg: seq<real>, pos: seq<real>)
    ensures Wins(neg, pos) <= (|neg| * |pos|) as real
  {
    if neg != [] {
      WinsAtMostPairs(neg[1..], pos);
      assert |neg| * |pos| == |neg[1..]| * |pos| + |pos|;
    }
  }

  /** Area under the ROC curve; raises when the two sequences differ in
      length or when either class is absent. */
  function RankAuc(labels: seq<int>, scores: seq<real>): (out: AucOutcome)
    ensures out.Area? ==> out.area.Finite?
    ensures out.Raised? <==> (|labels| != |scores|
                              || ClassScores(labels, scores, false) == []
                              || ClassScores(labels, scores, true) == [])
  {
    if |labels| != |scores| then Raised
    else
      var neg, pos := ClassScores(labels, scores, false), ClassScores(labels, scores, true);
      if neg == [] || pos == [] then Raised
      else
        Area(Finite(Wins(neg, pos) / (|neg| * |pos|) as real))
  }

  /** The area is a share: a number in [0, 1]. */
  lemma RankAucInUnitRange(labels: seq<int>, scores: seq<real>)
    ensures RankAuc(labels, scores).Area? ==> 0.0 <= RankAuc(labels, scores).area.value <= 1.0
  {
    if RankAuc(labels, scores).Area? {
      var neg, pos := ClassScores(labels, scores, false), ClassScores(labels, scores, true);
      WinsAtMostPairs(neg, pos);
      ShareAtMostOne(Wins(neg, pos), (|neg| * |pos|) as real);
    }
  }

  lemma ShareAtMostOne(w: real, pairs: real)
    requires 0.0 <= w <= pairs && 0.0 < pairs
    ensures 0.0 <= w / pairs <= 1.0
  {
    assert w / pairs * pairs == w;
  }

  // ---------------------------------------------------------------------
  // Class extraction on the scorer's labelling
  // ---------------------------------------------------------------------

  lemma {:induction false} ClassScoresAppend(l1: seq<int>, s1: seq<real>, l2: seq<int>, s2: seq<real>, positive: bool)
    requires |l1| == |s1| && |l2| == |s2|
    ensures ClassScores(l1 + l2, s1 + s2, positive) == ClassScores(l1, s1, positive) + ClassScores(l2, s2, positive)
    decreases |l2|
  {
    if l2 == [] {
      assert l1 + l2 == l1 && s1 + s2 == s1;
    } else {
      var n := |l2| - 1;
      var li, si := l2[..n], s2[..n];
      assert l2 == li + [l2[n]] && s2 == si + [s2[n]];
      assert l1 + l2 == (l1 + li) + [l2[n]] && s1 + s2 == (s1 + si) + [s2[n]];
      ClassScoresSnoc(l1 + li, s1 + si, l2[n], s2[n], positive);
      ClassScoresSnoc(li, si, l2[n], s2[n], positive);
      ClassScoresAppend(l1, s1, li, si, positive);
    }
  }

  /** One more labelled score joins its class at the end. */
  lemma ClassScoresSnoc(l: seq<int>, s: seq<real>, tag: int, x: real, positive: bool)
    requires |l| == |s|
    ensures ClassScores(l + [tag], s + [x], positive)
         == ClassScores(l, s, positive) + (if (tag == 1) == positive then [x] else [])
  {
    assert (l + [tag])[..|l|] == l && (s + [x])[..|s|] == s;
  }

  /** Under a constant label, one class gets every score and the other none. */
  lemma {:induction false} ClassScoresConstant(tag: int, s: seq<real>, positive: bool)
    ensures ClassScores(seq(|s|, _ => tag), s, positive) == if (tag == 1) == positive then s else []
  {
    if s != [] {
      var n := |s| - 1;
      assert seq(|s|, _ => tag)[..n] == seq(n, _ => tag);
      ClassScoresConstant(tag, s[..n], positive);
      assert s[..n] + [s[n]] == s;
    }
  }

  /** The negatives the ROC computation sees are the sanitised list of the
      lower true value, the positives the sanitised list of the higher. */
  lemma RocInputClasses(d1: seq<Measure>, d2: seq<Measure>, a: real, b: real)
    ensures var (labels, scores) := RocInput(d1, d2, a, b);
      var (lo, hi) := Canonical(d1, d2, a, b);
      && |labels| == |scores|
      && ClassScores(labels, scores, false) == Sanitised(lo)
      && ClassScores(labels, scores, true) == Sanitised(hi)
  {
    var (lo, hi) := Canonical(d1, d2, a, b);
    var s1, s2 := Sanitised(lo), Sanitised(hi);
    ClassScoresAppend(seq(|s1|, _ => 0), s1, seq(|s2|, _ => 1), s2, false);
    ClassScoresAppend(seq(|s1|, _ => 0), s1, seq(|s2|, _ => 1), s2, true);
    ClassScoresConstant(0, s1, false);
    ClassScoresConstant(0, s1, true);
    ClassScoresConstant(1, s2, false);
    ClassScoresConstant(1, s2, true);
  }

  // ---------------------------------------------------------------------
  // The pair statistic on tied and on separated samples
  // ---------------------------------------------------------------------

  lemma {:induction false} RowWinsTied(c: real, pos: seq<real>)
    requires forall j :: 0 <= j < |pos| ==> pos[j] == c
    ensures RowWins(c, pos) == 0.5 * |pos| as real
  {
    if pos != [] {
      RowWinsTied(c, pos[1..]);
    }
  }

  lemma {:induction false} WinsTied(c: real, neg: seq<real>, pos: seq<real>)
    requires forall i :: 0 <= i < |neg| ==> neg[i] == c
    requires forall j :: 0 <= j < |pos| ==> pos[j] == c
    ensures Wins(neg, pos) == 0.5 * (|neg| * |pos|) as real
  {
    if neg != [] {
      RowWinsTied(c, pos);
      WinsTied(c, neg[1..], pos);
    }
  }

  lemma {:induction false} RowWinsAbove(x: real, pos: seq<real>)
    requires forall j :: 0 <= j < |pos| ==> pos[j] > x
    ensures RowWins(x, pos) == |pos| as real
  {
    if pos != [] {
      RowWinsAbove(x, pos[1..]);
    }
  }

  lemma {:induction false} WinsSeparated(neg: seq<real>, pos: seq<real>)
    requires forall i, j :: 0 <= i < |neg| && 0 <= j < |pos| ==> neg[i] < pos[j]
    ensures Wins(neg, pos) == (|neg| * |pos|) as real
  {
    if neg != [] {
      var rest := neg[1..];
      assert forall i, j :: 0 <= i < |rest| && 0 <= j < |pos| ==> rest[i] < pos[j] by {
        assert forall i :: 0 <= i < |rest| ==> rest[i] == neg[i + 1];
      }
      RowWinsAbove(neg[0], pos);
      WinsSeparated(rest, pos);
      assert |neg| * |pos| == |pos| + |rest| * |pos|;
    }
  }

  // ---------------------------------------------------------------------
  // The scorer with the reference area
  // ---------------------------------------------------------------------

  /** With the rank statistic as the area, the score of two lists is the
      pair statistic of the sanitised lower-value list (negatives) against
      the sanitised higher-value list (positives), or 0 when either is empty. */
  lemma RankDiscrimination(d1: seq<Measure>, d2: seq<Measure>, a: real, b: real)
    ensures var (lo, hi) := Canonical(d1, d2, a, b);
      Discrimination(RankAuc, d1, d2, a, b)
        == if lo == [] || hi == [] then Finite(0.0)
           else Finite(Wins(Sanitised(lo), Sanitised(hi)) / ((|lo| * |hi|) as real))
  {
    var (labels, scores) := RocInput(d1, d2, a, b);
    var (lo, hi) := Canonical(d1, d2, a, b);
    RocInputClasses(d1, d2, a, b);
    SanitisedPointwise(lo);
    SanitisedPointwise(hi);
    var neg, pos := ClassScores(labels, scores, false), ClassScores(labels, scores, true);
    assert neg == Sanitised(lo) && pos == Sanitised(hi);
    assert |neg| == |lo| && |pos| == |hi|;
  }

  /** With the rank statistic as the area the score is always a number in
      [0, 1], and it is 0 when either list is empty. */
  lemma DiscriminationInUnitRange(d1: seq<Measure>, d2: seq<Measure>, a: real, b: real)
    ensures Discrimination(RankAuc, d1, d2, a, b).Finite?
    ensures 0.0 <= Discrimination(RankAuc, d1, d2, a, b).value <= 1.0
    ensures d1 == [] || d2 == [] ==> Discrimination(RankAuc, d1, d2, a, b) == Finite(0.0)
  {
    var (labels, scores) := RocInput(d1, d2, a, b);
    RankAucInUnitRange(labels, scores);
    RocInputClasses(d1, d2, a, b);
    var (lo, hi) := Canonical(d1, d2, a, b);
    SanitisedPointwise(lo);
    SanitisedPointwise(hi);
  }

  lemma ShareOfProportion(k: real, pairs: real)
    requires pairs > 0.0
    ensures (k * pairs) / pairs == k
  {
  }

  /** Two non-empty lists whose every entry reads as the same value are
      at chance level. */
  lemma ChanceLevel(d1: seq<Measure>, d2: seq<Measure>, a: real, b: real, c: real)
    requires d1 != [] && d2 != []
    requires forall i :: 0 <= i < |d1| ==> ValueOrZero(d1[i]) == c
    requires forall i :: 0 <= i < |d2| ==> ValueOrZero(d2[i]) == c
    ensures Discrimination(RankAuc, d1, d2, a, b) == Finite(0.5)
  {
    var (lo, hi) := Canonical(d1, d2, a, b);
    SanitisedPointwise(lo);
    SanitisedPointwise(hi);
    var neg, pos := Sanitised(lo), Sanitised(hi);
    assert forall i :: 0 <= i < |neg| ==> neg[i] == c;
    assert forall i :: 0 <= i < |pos| ==> pos[i] == c;
    WinsTied(c, neg, pos);
    var pairs := (|lo| * |hi|) as real;
    ShareOfProportion(0.5, pairs);
    assert Wins(neg, pos) / pairs == 0.5;
    RankDiscrimination(d1, d2, a, b);
  }

  /** When every measure of the higher true value exceeds every measure of
      the lower one, the score is perfect, whichever order they come in. */
  lemma PerfectSeparation(d1: seq<Measure>, d2: seq<Measure>, a: real, b: real)
    requires d1 != [] && d2 != []
    requires a < b
    requires forall i, j :: 0 <= i < |d1| && 0 <= j < |d2| ==> ValueOrZero(d1[i]) < ValueOrZero(d2[j])
    ensures Discrimination(RankAuc, d1, d2, a, b) == Finite(1.0)
    ensures Discrimination(RankAuc, d2, d1, b, a) == Finite(1.0)
  {
    SeparatedInOrder(d1, d2, a, b);
    DiscriminationSymmetric(RankAuc, d1, d2, a, b);
  }

  /** The separated case with the lower list passed first. */
  lemma SeparatedInOrder(d1: seq<Measure>, d2: seq<Measure>, a: real, b: real)
    requires d1 != [] && d2 != []
    requires a < b
    requires forall i, j :: 0 <= i < |d1| && 0 <= j < |d2| ==> ValueOrZero(d1[i]) < ValueOrZero(d2[j])
    ensures Discrimination(RankAuc, d1, d2, a, b) == Finite(1.0)
  {
    var neg, pos := Sanitised(d1), Sanitised(d2);
    assert forall i, j :: 0 <= i < |neg| && 0 <= j < |pos| ==> neg[i] < pos[j] by {
      SanitisedPointwise(d1);
      SanitisedPointwise(d2);
    }
    assert |neg| == |d1| && |pos| == |d2| by {
      SanitisedPointwise(d1);
      SanitisedPointwise(d2);
    }
    WinsSeparated(neg, pos);
    var pairs := (|d1| * |d2|) as real;
    ShareOfProportion(1.0, pairs);
    assert Wins(neg, pos) / pairs == 1.0;
    RankDiscrimination(d1, d2, a, b);
  }

  /** `discriminate([1,1,1], [1,1,1], 0, 1)` is 0.5. */
  lemma IdenticalListsAtChance()
    ensures Discrimination(RankAuc, [Finite(1.0), Finite(1.0), Finite(1.0)],
                                    [Finite(1.0), Finite(1.0), Finite(1.0)], 0.0, 1.0) == Finite(0.5)
  {
    ChanceLevel([Finite(1.0), Finite(1.0), Finite(1.0)], [Finite(1.0), Finite(1.0), Finite(1.0)], 0.0, 1.0, 1.0);
  }

  /** `discriminate([0,0,0], [10,10,10], 0, 1)` is 1.0. */
  lemma SeparatedListsPerfect()
    ensures Discrimination(RankAuc, [Finite(0.0), Finite(0.0), Finite(0.0)],
                                    [Finite(10.0), Finite(10.0), Finite(10.0)], 0.0, 1.0) == Finite(1.0)
  {
    PerfectSeparation([Finite(0.0), Finite(0.0), Finite(0.0)], [Finite(10.0), Finite(10.0), Finite(10.0)], 0.0, 1.0);
  }
}
