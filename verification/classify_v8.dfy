/** The YOLOv8 classify decoder: every class whose score reaches the
    threshold becomes a [score, class] pair, and the pairs are ranked by
    score. No suppression is applied. */
module ClassifyV8 {
  import opened Wrappers
  import opened YoloData
  import opened YoloHelper
  import opened Sequences

  /** The classification pair of class `i`. */
  function Entry(scores: seq<real>, i: nat): Detection
    requires i < |scores|
  {
    Detection([scores[i], i as real], None, None)
  }

  /** The pairs of the first `n` classes whose score is at least the
      threshold, in class order. */
  function Candidates(scores: seq<real>, n: nat, threshold: real): (r: seq<Detection>)
    requires n <= |scores|
    ensures forall k :: 0 <= k < |r| ==> |r[k].basic| == 2
    ensures forall d :: d in r ==> exists i :: 0 <= i < n && scores[i] >= threshold && d == Entry(scores, i)
    ensures forall i :: 0 <= i < n && scores[i] >= threshold ==> Entry(scores, i) in r
    ensures forall a, b :: 0 <= a < b < |r| ==> r[a].basic[1] < r[b].basic[1]
    ensures forall k :: 0 <= k < |r| ==> r[k].basic[1] < n as real
    decreases n
  {
    if n == 0 then []
    else
      var prev := Candidates(scores, n - 1, threshold);
      if scores[n - 1] >= threshold then prev + [Entry(scores, n - 1)] else prev
  }

  /** The decoder's output: exactly the classes whose score is at least the
      threshold, each once, as [score, class] pairs ordered by descending
      score. */
  function ExecuteTask(scores: seq<real>, confidence: real): (r: seq<Detection>)
    ensures forall d :: d in r ==>
      exists i :: 0 <= i < |scores| && scores[i] >= confidence && d == Entry(scores, i)
    ensures forall i :: 0 <= i < |scores| && scores[i] >= confidence ==> Entry(scores, i) in r
    ensures HasSlot(r, 1) && DistinctAt(r, 1)
    ensures SortedDesc(r, 0)
  {
    var cs := Candidates(scores, |scores|, confidence);
    assert HasSlot(cs, 1) && DistinctAt(cs, 1);
    assert |cs| > 0 ==> ConfidenceSlot(cs) == 0;
    if |cs| > 0 then
      SortDescDistinct(cs, 0, 1);
      SameElements(RankConfidenceDegree(cs), cs);
      RankConfidenceDegree(cs)
    else cs
  }

  /** Raising the threshold only removes pairs: the remaining ones keep
      their payload and their class order. */
  lemma {:induction false} CandidatesMonotone(scores: seq<real>, n: nat, t1: real, t2: real)
    requires n <= |scores| && t1 <= t2
    ensures Subsequence(Candidates(scores, n, t2), Candidates(scores, n, t1))
    ensures multiset(Candidates(scores, n, t2)) <= multiset(Candidates(scores, n, t1))
    decreases n
  {
    if n > 0 {
      CandidatesMonotone(scores, n - 1, t1, t2);
      var p1 := Candidates(scores, n - 1, t1);
      var p2 := Candidates(scores, n - 1, t2);
      var e := Entry(scores, n - 1);
      if scores[n - 1] >= t2 {
        SubsequenceAppend(p2, p1, e);
      } else if scores[n - 1] >= t1 {
        SubsequenceExtend(p2, p1, e);
      }
    }
    SubsequenceMultiset(Candidates(scores, n, t2), Candidates(scores, n, t1));
  }

  /** A concrete run: three classes, two of them at or above 0.5. */
  lemma Example()
    ensures ExecuteTask([0.9, 0.2, 0.6], 0.5) ==
      [Detection([0.9, 0.0], None, None), Detection([0.6, 2.0], None, None)]
  {
    var scores := [0.9, 0.2, 0.6];
    var cs := Candidates(scores, 3, 0.5);
    assert cs == [Entry(scores, 0), Entry(scores, 2)];
  }
}
