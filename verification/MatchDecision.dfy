/** From the scores of a gallery to a decision: the driver's rule and the reference rule in Python.
    A score's geometry is arbitrary; only the thresholds matter here. */
module MatchDecision {

  const MINIMUM_INLIERS: nat := 6
  const STRONG_INLIERS: nat := 8

  datatype Score = Score(matches: nat, inliers: nat, inlierRatio: real, scale: real, coverage: real) {
    predicate Accepted() {
      && inliers >= MINIMUM_INLIERS && inlierRatio >= 0.65
      && 0.70 <= scale <= 1.35 && coverage >= 0.015
    }
  }

  // ---------------------------------------------------------------- the driver's rule

  function AcceptedCount(scores: seq<Score>): nat {
    if scores == [] then 0
    else AcceptedCount(scores[..|scores| - 1]) + (if scores[|scores| - 1].Accepted() then 1 else 0)
  }

  function BestInliers(scores: seq<Score>): nat {
    if scores == [] then 0
    else
      var rest, last := BestInliers(scores[..|scores| - 1]), scores[|scores| - 1].inliers;
      if last > rest then last else rest
  }

  predicate DriverMatches(scores: seq<Score>) {
    var accepted, best := AcceptedCount(scores), BestInliers(scores);
    accepted > 0 && (best >= STRONG_INLIERS || accepted >= 2)
  }

  // ---------------------------------------------------------------- the reference rule

  /** `_score_key(a) < _score_key(b)`. */
  predicate KeyLess(a: Score, b: Score) {
    || a.inliers < b.inliers
    || (a.inliers == b.inliers && a.inlierRatio < b.inlierRatio)
    || (a.inliers == b.inliers && a.inlierRatio == b.inlierRatio && a.coverage < b.coverage)
  }

  /** Python's `max`: the first of the greatest. */
  function Best(scores: seq<Score>): Score
    requires scores != []
  {
    if |scores| == 1 then scores[0]
    else
      var rest, last := Best(scores[..|scores| - 1]), scores[|scores| - 1];
      if KeyLess(rest, last) then last else rest
  }

  predicate ReferenceMatches(scores: seq<Score>)
    requires scores != []
  {
    var best := Best(scores);
    best.Accepted() && (best.inliers >= STRONG_INLIERS || AcceptedCount(scores) >= 2)
  }

  // ---------------------------------------------------------------- what the two rules mean

  ghost predicate SomeStrong(m: multiset<Score>) {
    exists s: Score :: s in m && s.inliers >= STRONG_INLIERS
  }

  ghost predicate SomeAccepted(m: multiset<Score>) {
    exists s: Score :: s in m && s.Accepted()
  }

  ghost predicate TwoAccepted(m: multiset<Score>) {
    exists s: Score, t: Score :: s.Accepted() && t.Accepted() && multiset{s, t} <= m
  }

  lemma FrontAndLast(scores: seq<Score>)
    requires scores != []
    ensures var front, last := scores[..|scores| - 1], scores[|scores| - 1];
      multiset(scores) == multiset(front) + multiset{last}
  {
    assert scores == scores[..|scores| - 1] + [scores[|scores| - 1]];
  }

  lemma {:induction false} SomeAcceptedCounted(scores: seq<Score>)
    ensures AcceptedCount(scores) >= 1 <==> SomeAccepted(multiset(scores))
  {
    if scores == [] {
    } else {
      var front, last := scores[..|scores| - 1], scores[|scores| - 1];
      SomeAcceptedCounted(front);
      FrontAndLast(scores);
      var m, f := multiset(scores), multiset(front);
      assert last in m;
      if SomeAccepted(f) {
        var s: Score :| s in f && s.Accepted();
        assert s in m;
      }
    }
  }

  lemma TwoAcceptedStep(f: multiset<Score>, last: Score)
    ensures TwoAccepted(f + multiset{last}) <==> TwoAccepted(f) || (last.Accepted() && SomeAccepted(f))
  {
    var m := f + multiset{last};
    if TwoAccepted(m) {
      var s: Score, t: Score :| s.Accepted() && t.Accepted() && multiset{s, t} <= m;
      TwoOfFront(f, last, s, t);
      assert t in f || s in f || TwoAccepted(f);
    }
    if TwoAccepted(f) {
      var s: Score, t: Score :| s.Accepted() && t.Accepted() && multiset{s, t} <= f;
      assert multiset{s, t} <= m;
    }
    if last.Accepted() && SomeAccepted(f) {
      var s: Score :| s in f && s.Accepted();
      assert multiset{s, last} <= m;
    }
  }

  lemma {:induction false} TwoAcceptedCounted(scores: seq<Score>)
    ensures AcceptedCount(scores) >= 2 <==> TwoAccepted(multiset(scores))
  {
    if scores == [] {
    } else {
      var front, last := scores[..|scores| - 1], scores[|scores| - 1];
      TwoAcceptedCounted(front);
      SomeAcceptedCounted(front);
      FrontAndLast(scores);
      TwoAcceptedStep(multiset(front), last);
      hide TwoAccepted, SomeAccepted, Score.Accepted;
    }
  }

  lemma AcceptedCountMeaning(scores: seq<Score>)
    ensures AcceptedCount(scores) >= 1 <==> SomeAccepted(multiset(scores))
    ensures AcceptedCount(scores) >= 2 <==> TwoAccepted(multiset(scores))
  {
    hide *;
    SomeAcceptedCounted(scores);
    TwoAcceptedCounted(scores);
  }

  lemma TwoOfFront(f: multiset<Score>, last: Score, s: Score, t: Score)
    requires multiset{s, t} <= f + multiset{last}
    ensures multiset{s, t} <= f || (last == s && t in f) || (last == t && s in f)
  {
    var m := f + multiset{last};
    assert multiset{s, t}[s] <= m[s] && multiset{s, t}[t] <= m[t];
    if last != s && last != t {
      forall x
        ensures multiset{s, t}[x] <= f[x]
      {
        assert multiset{s, t}[x] <= m[x];
      }
    }
  }

  lemma {:induction false} BestInliersMeaning(scores: seq<Score>)
    ensures forall s: Score :: s in multiset(scores) ==> s.inliers <= BestInliers(scores)
    ensures scores != [] ==> exists s: Score :: s in multiset(scores) && s.inliers == BestInliers(scores)
  {
    if scores == [] {
    } else {
      var front, last := scores[..|scores| - 1], scores[|scores| - 1];
      BestInliersMeaning(front);
      assert scores == front + [last];
      assert multiset(scores) == multiset(front) + multiset{last};
      assert last in multiset(scores);
      if last.inliers <= BestInliers(front) && front != [] {
        var s: Score :| s in multiset(front) && s.inliers == BestInliers(front);
        assert s in multiset(scores);
      }
    }
  }

  /** The driver matches when some sample is accepted and, besides, some sample is strong or two samples are
      accepted; in this form the order of the gallery is gone. */
  lemma DriverMeaning(scores: seq<Score>)
    ensures DriverMatches(scores) <==>
              var m := multiset(scores);
              SomeAccepted(m) && (SomeStrong(m) || TwoAccepted(m))
  {
    AcceptedCountMeaning(scores);
    BestInliersMeaning(scores);
  }

  /** A bigger multiset of scores cannot lose a match; equal ones decide alike. */
  lemma DriverMonotone(a: seq<Score>, b: seq<Score>)
    requires multiset(a) <= multiset(b)
    ensures DriverMatches(a) ==> DriverMatches(b)
  {
    DriverMeaning(a);
    DriverMeaning(b);
    var m, n := multiset(a), multiset(b);
    assert forall s: Score :: s in m ==> s in n;
    if TwoAccepted(m) {
      var s: Score, t: Score :| s.Accepted() && t.Accepted() && multiset{s, t} <= m;
      assert multiset{s, t} <= n;
    }
  }

  lemma {:induction false} BestIsGreatest(scores: seq<Score>)
    requires scores != []
    ensures Best(scores) in multiset(scores)
    ensures forall s: Score :: s in multiset(scores) ==> !KeyLess(Best(scores), s)
  {
    if |scores| > 1 {
      var front, last := scores[..|scores| - 1], scores[|scores| - 1];
      BestIsGreatest(front);
      assert scores == front + [last];
      assert multiset(scores) == multiset(front) + multiset{last};
    } else {
      assert scores == [scores[0]];
    }
  }

  lemma BestHasBestInliers(scores: seq<Score>)
    requires scores != []
    ensures Best(scores).inliers == BestInliers(scores)
  {
    BestIsGreatest(scores);
    BestInliersMeaning(scores);
  }

  /** The reference never matches where the driver does not. They agree exactly when the lexicographically
      best score is accepted, or no score is, or the only accepted score stands alone and none is strong. */
  lemma RulesCompared(scores: seq<Score>)
    requires scores != []
    ensures ReferenceMatches(scores) ==> DriverMatches(scores)
    ensures Best(scores).Accepted() ==> (ReferenceMatches(scores) <==> DriverMatches(scores))
    ensures var m := multiset(scores);
      (ReferenceMatches(scores) <==> DriverMatches(scores))
      <==> (Best(scores).Accepted() || !SomeAccepted(m) || (!SomeStrong(m) && !TwoAccepted(m)))
  {
    BestIsGreatest(scores);
    BestHasBestInliers(scores);
    AcceptedCountMeaning(scores);
    DriverMeaning(scores);
    hide SomeStrong, TwoAccepted, Best, AcceptedCount, BestInliers;
  }

  lemma TwoScores(a: Score, b: Score)
    ensures AcceptedCount([a, b]) == (if a.Accepted() then 1 else 0) + (if b.Accepted() then 1 else 0)
    ensures BestInliers([a, b]) == if b.inliers > a.inliers then b.inliers else a.inliers
    ensures Best([a, b]) == if KeyLess(a, b) then b else a
  {
    hide Score.Accepted;
    assert [a, b][..1] == [a];
    assert [a][..0] == [];
    assert AcceptedCount([]) == 0 && BestInliers([]) == 0;
    assert AcceptedCount([a]) == (if a.Accepted() then 1 else 0) && BestInliers([a]) == a.inliers;
  }

  /** They do differ: a wide but inconsistent fit beside one moderate fit. */
  lemma RulesDiffer()
    ensures var scores := [Score(20, 9, 0.45, 1.0, 0.2), Score(9, 6, 0.66, 1.0, 0.1)];
      DriverMatches(scores) && !ReferenceMatches(scores)
  {
    TwoScores(Score(20, 9, 0.45, 1.0, 0.2), Score(9, 6, 0.66, 1.0, 0.1));
    hide AcceptedCount, BestInliers, Best;
  }

  // ---------------------------------------------------------------- the thresholds

  /** The conditions of an accepted score, and the three numbers of the decision. */
  lemma Thresholds(s: Score, m: multiset<Score>)
    ensures s.Accepted() <==>
              s.inliers >= 6 && s.inlierRatio >= 0.65 && 0.70 <= s.scale && s.scale <= 1.35 && s.coverage >= 0.015
    ensures SomeStrong(m) <==> exists t: Score :: t in m && t.inliers >= 8
  {
  }

  /** The reference decides by its best score: it has to be accepted, and strong unless two scores are accepted. */
  lemma ReferenceMeaning(scores: seq<Score>)
    requires scores != []
    ensures ReferenceMatches(scores) <==>
              Best(scores).Accepted() && (Best(scores).inliers >= 8 || TwoAccepted(multiset(scores)))
  {
    AcceptedCountMeaning(scores);
    hide TwoAccepted, Best, AcceptedCount;
  }

  predicate KeyAtMost(a: Score, b: Score) {
    || a.inliers < b.inliers
    || (a.inliers == b.inliers && (a.inlierRatio < b.inlierRatio
                                   || (a.inlierRatio == b.inlierRatio && a.coverage <= b.coverage)))
  }

  /** The best score is the first of the scores with the lexicographically greatest inliers, ratio and coverage. */
  lemma {:induction false} BestIsFirst(scores: seq<Score>) returns (i: nat)
    requires scores != []
    ensures i < |scores| && Best(scores) == scores[i]
    ensures forall j :: 0 <= j < |scores| ==> KeyAtMost(scores[j], scores[i])
    ensures forall j :: 0 <= j < i ==> !KeyAtMost(scores[i], scores[j])
  {
    if |scores| == 1 {
      i := 0;
    } else {
      var front, last := scores[..|scores| - 1], scores[|scores| - 1];
      i := BestIsFirst(front);
      assert forall j :: 0 <= j < |front| ==> scores[j] == front[j];
      if KeyLess(Best(front), last) {
        i := |scores| - 1;
      }
    }
  }

  // ---------------------------------------------------------------- sample by sample

  predicate AcceptedAt(scores: seq<Score>, i: int) {
    0 <= i < |scores| && scores[i].Accepted()
  }

  lemma {:induction false} AcceptedByIndex(scores: seq<Score>)
    ensures AcceptedCount(scores) >= 1 <==> exists i :: AcceptedAt(scores, i)
    ensures AcceptedCount(scores) >= 2 <==> exists i, j :: i < j && AcceptedAt(scores, i) && AcceptedAt(scores, j)
  {
    hide Score.Accepted;
    if scores == [] {
    } else {
      var n := |scores| - 1;
      var front := scores[..n];
      AcceptedByIndex(front);
      assert forall i :: i != n ==> (AcceptedAt(front, i) <==> AcceptedAt(scores, i));
      assert AcceptedAt(scores, n) <==> scores[n].Accepted();
      hide AcceptedAt;
      if AcceptedCount(front) >= 2 {
        var i, j :| i < j && AcceptedAt(front, i) && AcceptedAt(front, j);
        OutOfFront(scores, i);
        OutOfFront(scores, j);
      } else if AcceptedCount(front) >= 1 {
        var i :| AcceptedAt(front, i);
        OutOfFront(scores, i);
      }
      if i, j :| i < j && AcceptedAt(scores, i) && AcceptedAt(scores, j) {
        IndexBound(scores, j);
        assert AcceptedAt(front, i);
      }
    }
  }

  lemma OutOfFront(scores: seq<Score>, i: int)
    requires scores != [] && AcceptedAt(scores[..|scores| - 1], i)
    ensures AcceptedAt(scores, i) && i < |scores| - 1
  {
  }

  lemma IndexBound(scores: seq<Score>, i: int)
    requires AcceptedAt(scores, i)
    ensures i <= |scores| - 1
  {
  }

  /** The driver's rule, sample by sample. */
  lemma DriverByIndex(scores: seq<Score>)
    ensures DriverMatches(scores) <==>
              && (exists i :: AcceptedAt(scores, i))
              && ((exists i :: 0 <= i < |scores| && scores[i].inliers >= 8)
                  || (exists i, j :: i < j && AcceptedAt(scores, i) && AcceptedAt(scores, j)))
  {
    AcceptedByIndex(scores);
    BestInliersMeaning(scores);
    hide AcceptedAt, AcceptedCount, BestInliers;
    if i :| 0 <= i < |scores| && scores[i].inliers >= 8 {
      assert scores[i] in multiset(scores);
    }
    if BestInliers(scores) >= 8 {
      BestIsSome(scores);
    }
  }

  lemma BestIsSome(scores: seq<Score>)
    requires BestInliers(scores) >= 8
    ensures exists i :: 0 <= i < |scores| && scores[i].inliers >= 8
  {
    BestInliersMeaning(scores);
    var s: Score :| s in multiset(scores) && s.inliers == BestInliers(scores);
    var i :| 0 <= i < |scores| && scores[i] == s;
  }
}
