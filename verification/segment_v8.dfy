/** The YOLOv8 segment decoder: like the detect decoder, and each detection
    also carries the mask coefficients found in the last `ssw` channels of
    its position. Only the flat path applies non-maximum suppression. */
module SegmentV8 {
  import opened Wrappers
  import opened Sequences
  import opened YoloData
  import opened Tensors
  import opened YoloHelper

  /** The threshold test: `>=` on the mid-size path, `>` on the flat path. */
  function Test(t: Tensor): Cmp {
    if MidSize(t) then AtLeast else Above
  }

  /** `d` is the detection of position `row`: the box payload of its best
      class among the channels before the mask, and as mask the last `ssw`
      channels in order. */
  predicate SegmentOf(d: Detection, row: seq<real>, ssw: nat, threshold: real, cmp: Cmp) {
    && BoxPayloadOf(d.basic, row, ssw, threshold, cmp)
    && |d.basic| == 6
    && d.keys.None?
    && d.mask.Some? && |d.mask.value| == ssw
    && forall k :: 0 <= k < ssw ==> d.mask.value[k] == row[|row| - ssw + k]
  }

  /** One position: its detection, or nothing when no class passes. */
  function DecodeAt(row: seq<real>, ssw: nat, threshold: real, cmp: Cmp): (d: Option<Detection>)
    ensures d.None? <==> forall j :: 0 <= j < |row| - 4 - ssw ==> !Candidate(row, j, threshold, cmp)
    ensures d.Some? ==> SegmentOf(d.value, row, ssw, threshold, cmp)
  {
    match Winner(row, ssw, threshold, cmp)
    case None => None
    case Some(b) =>
      WinnerPayload(row, ssw, threshold, cmp);
      Some(Detection(BoxPayload(row, b), Some(row[|row| - ssw..]), None))
  }

  /** The per-position outcomes in position order. */
  function Decoded(t: Tensor, ssw: nat, threshold: real): (ds: seq<Option<Detection>>)
    requires Valid(t)
    ensures |ds| == |Positions(t)|
    ensures forall i :: 0 <= i < |ds| ==> ds[i] == DecodeAt(Positions(t)[i], ssw, threshold, Test(t))
  {
    var ps := Positions(t);
    seq(|ps|, i requires 0 <= i < |ps| => DecodeAt(ps[i], ssw, threshold, Test(t)))
  }

  /** The decoded positions: every detection is the segment of a position
      whose best class passes, and every such position yields one. */
  function Candidates(t: Tensor, ssw: nat, threshold: real): (r: seq<Detection>)
    requires Valid(t)
    ensures BoxPayloads(r) && |r| <= |Positions(t)|
    ensures forall d :: d in r ==>
      exists i :: 0 <= i < |Positions(t)| && SegmentOf(d, Positions(t)[i], ssw, threshold, Test(t))
    ensures forall i, j ::
      (0 <= i < |Positions(t)| && 0 <= j < |Positions(t)[i]| - 4 - ssw
       && Candidate(Positions(t)[i], j, threshold, Test(t))) ==>
      exists d :: d in r && SegmentOf(d, Positions(t)[i], ssw, threshold, Test(t))
  {
    var ds := Decoded(t, ssw, threshold);
    var r := Somes(ds);
    assert forall d :: d in r ==> Some(d) in ds;
    r
  }

  /** The decoder's output. Every result is the segment of some position.
      On the mid-size path nothing is suppressed: every qualifying position
      yields a detection. On the flat path the list is filtered: ordered by
      descending score, no kept pair overlaps beyond the threshold, and every
      dropped candidate overlaps a kept one that scores at least as high. */
  function ExecuteTask(t: Tensor, ssw: nat, confidence: real, iouThreshold: real, allIou: bool): (r: seq<Detection>)
    requires Valid(t)
    ensures BoxPayloads(r)
    ensures forall d :: d in r ==>
      exists i :: 0 <= i < |Positions(t)| && SegmentOf(d, Positions(t)[i], ssw, confidence, Test(t))
    ensures MidSize(t) ==> forall i, j ::
      (0 <= i < |Positions(t)| && 0 <= j < |Positions(t)[i]| - 4 - ssw
       && Candidate(Positions(t)[i], j, confidence, AtLeast)) ==>
      exists d :: d in r && SegmentOf(d, Positions(t)[i], ssw, confidence, AtLeast)
    ensures !MidSize(t) ==>
      && HasSlot(r, 4) && SortedDesc(r, 4)
      && NoOverlappingPair(r, iouThreshold, allIou)
      && forall x :: x in Candidates(t, ssw, confidence) && x !in r ==> SuppressedByHigher(x, r, iouThreshold, allIou)
  {
    var cs := Candidates(t, ssw, confidence);
    if MidSize(t) then cs else NmsFilter(cs, iouThreshold, allIou)
  }

  /** Raising the confidence threshold only removes candidates; the rest
      keep their payload, their mask and their order. */
  lemma {:induction false} CandidatesMonotone(t: Tensor, ssw: nat, t1: real, t2: real)
    requires Valid(t) && t1 <= t2
    ensures Subsequence(Candidates(t, ssw, t2), Candidates(t, ssw, t1))
    ensures multiset(Candidates(t, ssw, t2)) <= multiset(Candidates(t, ssw, t1))
  {
    var ps := Positions(t);
    var d1 := Decoded(t, ssw, t1);
    var d2 := Decoded(t, ssw, t2);
    forall i | 0 <= i < |d1| ensures d2[i].None? || d2[i] == d1[i] {
      WinnerMonotone(ps[i], ssw, t1, t2, Test(t));
    }
    SomesShrink(d2, d1);
    SubsequenceMultiset(Candidates(t, ssw, t2), Candidates(t, ssw, t1));
  }
}
