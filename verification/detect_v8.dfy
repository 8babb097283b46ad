/** The YOLOv8 detect decoder: one box per position whose best class passes
    the confidence threshold, followed by non-maximum suppression. */
module DetectV8 {
  import opened Wrappers
  import opened Sequences
  import opened YoloData
  import opened Tensors
  import opened YoloHelper

  /** The threshold test: `>=` on the mid-size path, `>` on the flat path. */
  function Test(t: Tensor): Cmp {
    if MidSize(t) then AtLeast else Above
  }

  /** One position: a six-slot box payload for its best class, or nothing
      when no class passes. The class loop skips the mask (`ssw`) and
      keypoint (`aw`) channels at the end of the row. */
  function DecodeAt(row: seq<real>, shrink: nat, threshold: real, cmp: Cmp): (d: Option<Detection>)
    ensures d.None? <==> forall j :: 0 <= j < |row| - 4 - shrink ==> !Candidate(row, j, threshold, cmp)
    ensures d.Some? ==>
      && BoxPayloadOf(d.value.basic, row, shrink, threshold, cmp)
      && |d.value.basic| == 6 && d.value.mask.None? && d.value.keys.None?
  {
    match Winner(row, shrink, threshold, cmp)
    case None => None
    case Some(b) =>
      WinnerPayload(row, shrink, threshold, cmp);
      Some(Detection(BoxPayload(row, b), None, None))
  }

  /** The per-position outcomes in position order. */
  function Decoded(t: Tensor, ssw: nat, aw: nat, threshold: real): (ds: seq<Option<Detection>>)
    requires Valid(t)
    ensures |ds| == |Positions(t)|
    ensures forall i :: 0 <= i < |ds| ==> ds[i] == DecodeAt(Positions(t)[i], ssw + aw, threshold, Test(t))
  {
    var ps := Positions(t);
    seq(|ps|, i requires 0 <= i < |ps| => DecodeAt(ps[i], ssw + aw, threshold, Test(t)))
  }

  /** The list handed to the suppression filter: every detection comes from
      a position whose best class passes, and every such position yields one. */
  function Candidates(t: Tensor, ssw: nat, aw: nat, threshold: real): (r: seq<Detection>)
    requires Valid(t)
    ensures BoxPayloads(r) && |r| <= |Positions(t)|
    ensures forall d :: d in r ==>
      exists i :: 0 <= i < |Positions(t)| && BoxPayloadOf(d.basic, Positions(t)[i], ssw + aw, threshold, Test(t))
    ensures forall i, j ::
      (0 <= i < |Positions(t)| && 0 <= j < |Positions(t)[i]| - 4 - ssw - aw
       && Candidate(Positions(t)[i], j, threshold, Test(t))) ==>
      exists d :: d in r && BoxPayloadOf(d.basic, Positions(t)[i], ssw + aw, threshold, Test(t))
  {
    var ds := Decoded(t, ssw, aw, threshold);
    var r := Somes(ds);
    assert forall d :: d in r ==> Some(d) in ds;
    r
  }

  /** The decoder's output: the candidates after suppression. Each result is
      the box payload of some position, the list is ordered by descending
      score, no kept pair overlaps beyond the threshold, and every dropped
      candidate overlaps a kept one that scores at least as high. */
  function ExecuteTask(t: Tensor, ssw: nat, aw: nat, confidence: real, iouThreshold: real, allIou: bool): (r: seq<Detection>)
    requires Valid(t)
    ensures BoxPayloads(r) && HasSlot(r, 4) && SortedDesc(r, 4)
    ensures forall d :: d in r ==>
      exists i :: 0 <= i < |Positions(t)| && BoxPayloadOf(d.basic, Positions(t)[i], ssw + aw, confidence, Test(t))
    ensures NoOverlappingPair(r, iouThreshold, allIou)
    ensures forall x :: x in Candidates(t, ssw, aw, confidence) && x !in r ==> SuppressedByHigher(x, r, iouThreshold, allIou)
  {
    var cs := Candidates(t, ssw, aw, confidence);
    NmsFilter(cs, iouThreshold, allIou)
  }

  /** Raising the confidence threshold only removes candidates; the rest
      keep their payload and their order. */
  lemma {:induction false} CandidatesMonotone(t: Tensor, ssw: nat, aw: nat, t1: real, t2: real)
    requires Valid(t) && t1 <= t2
    ensures Subsequence(Candidates(t, ssw, aw, t2), Candidates(t, ssw, aw, t1))
    ensures multiset(Candidates(t, ssw, aw, t2)) <= multiset(Candidates(t, ssw, aw, t1))
  {
    var ps := Positions(t);
    var d1 := Decoded(t, ssw, aw, t1);
    var d2 := Decoded(t, ssw, aw, t2);
    forall i | 0 <= i < |d1| ensures d2[i].None? || d2[i] == d1[i] {
      WinnerMonotone(ps[i], ssw + aw, t1, t2, Test(t));
    }
    SomesShrink(d2, d1);
    SubsequenceMultiset(Candidates(t, ssw, aw, t2), Candidates(t, ssw, aw, t1));
  }
}
