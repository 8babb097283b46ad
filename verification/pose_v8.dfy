/** The YOLOv8 pose decoder: like the detect decoder, and each detection also
    carries `aw / 3` keypoints read as (x, y, visibility) triples starting at
    channel 5. Only the flat path applies non-maximum suppression. */
module PoseV8 {
  import opened Wrappers
  import opened Sequences
  import opened YoloData
  import opened Tensors
  import opened YoloHelper
  import opened Exceptions

  /** How many channels the class loop leaves out at the end of a row: the
      mask and keypoint channels on the mid-size path, only the keypoint
      channels on the flat path. */
  function Shrink(t: Tensor, ssw: nat, aw: nat): nat {
    if MidSize(t) then ssw + aw else aw
  }

  /** Keypoint `k` of a row: channels 5 + 3k, 6 + 3k and 7 + 3k. */
  function Keypoint(row: seq<real>, k: nat): Pose
    requires 7 + 3 * k < |row|
  {
    Pose(row[5 + 3 * k], row[6 + 3 * k], row[7 + 3 * k])
  }

  /** `d` is the pose detection of position `row`: the box payload of its
      best class, and the `aw / 3` keypoints of the row in order. */
  predicate PoseOf(d: Detection, row: seq<real>, shrink: nat, aw: nat, threshold: real) {
    && BoxPayloadOf(d.basic, row, shrink, threshold, AtLeast)
    && |d.basic| == 6
    && d.mask.None?
    && aw + 4 < |row|
    && d.keys.Some? && |d.keys.value| == aw / 3
    && forall k :: 0 <= k < aw / 3 ==> d.keys.value[k] == Keypoint(row, k)
  }

  /** One position: its pose detection, or nothing when no class passes. */
  function DecodeAt(row: seq<real>, shrink: nat, aw: nat, threshold: real): (d: Option<Detection>)
    requires aw <= shrink
    ensures d.None? <==> forall j :: 0 <= j < |row| - 4 - shrink ==> !Candidate(row, j, threshold, AtLeast)
    ensures d.Some? ==> PoseOf(d.value, row, shrink, aw, threshold)
  {
    match Winner(row, shrink, threshold, AtLeast)
    case None => None
    case Some(b) =>
      WinnerPayload(row, shrink, threshold, AtLeast);
      var keys := seq(aw / 3, k requires 0 <= k < aw / 3 => Keypoint(row, k));
      Some(Detection(BoxPayload(row, b), None, Some(keys)))
  }

  /** The per-position outcomes in position order. */
  function Decoded(t: Tensor, ssw: nat, aw: nat, threshold: real): (ds: seq<Option<Detection>>)
    requires Valid(t)
    ensures |ds| == |Positions(t)|
    ensures forall i :: 0 <= i < |ds| ==> ds[i] == DecodeAt(Positions(t)[i], Shrink(t, ssw, aw), aw, threshold)
  {
    var ps := Positions(t);
    seq(|ps|, i requires 0 <= i < |ps| => DecodeAt(ps[i], Shrink(t, ssw, aw), aw, threshold))
  }

  /** The decoded positions: every detection is the pose of a position whose
      best class passes, and every such position yields one. */
  function Candidates(t: Tensor, ssw: nat, aw: nat, threshold: real): (r: seq<Detection>)
    requires Valid(t)
    ensures BoxPayloads(r) && |r| <= |Positions(t)|
    ensures forall d :: d in r ==>
      exists i :: 0 <= i < |Positions(t)| && PoseOf(d, Positions(t)[i], Shrink(t, ssw, aw), aw, threshold)
    ensures forall i, j ::
      (0 <= i < |Positions(t)| && 0 <= j < |Positions(t)[i]| - 4 - Shrink(t, ssw, aw)
       && Candidate(Positions(t)[i], j, threshold, AtLeast)) ==>
      exists d :: d in r && PoseOf(d, Positions(t)[i], Shrink(t, ssw, aw), aw, threshold)
  {
    var ds := Decoded(t, ssw, aw, threshold);
    var r := Somes(ds);
    DecodedSound(t, ssw, aw, threshold, ds, r);
    r
  }

  /** Every present outcome is the pose of its position. */
  lemma DecodedSound(t: Tensor, ssw: nat, aw: nat, threshold: real, ds: seq<Option<Detection>>, r: seq<Detection>)
    requires Valid(t) && ds == Decoded(t, ssw, aw, threshold) && r == Somes(ds)
    ensures forall d :: d in r ==>
      exists i :: 0 <= i < |Positions(t)| && PoseOf(d, Positions(t)[i], Shrink(t, ssw, aw), aw, threshold)
  {
    forall d | d in r
      ensures exists i :: 0 <= i < |Positions(t)| && PoseOf(d, Positions(t)[i], Shrink(t, ssw, aw), aw, threshold)
    {
      assert Some(d) in ds;
      var i :| 0 <= i < |ds| && ds[i] == Some(d);
      assert PoseOf(d, Positions(t)[i], Shrink(t, ssw, aw), aw, threshold);
    }
  }

  /** The decoder's output. When the keypoint width is not a multiple of 3
      the keypoint loop writes one entry past the keypoint array, so the run
      fails as soon as one position qualifies. Otherwise every result is the
      pose of some position; on the mid-size path nothing is suppressed, on
      the flat path the list is ordered by descending score, no kept pair
      overlaps beyond the threshold and every dropped candidate overlaps a
      kept one that scores at least as high. */
  function ExecuteTask(t: Tensor, ssw: nat, aw: nat, confidence: real, iouThreshold: real, allIou: bool)
    : (r: Result<seq<Detection>, Exception>)
    requires Valid(t)
    ensures r.Failure? <==> aw % 3 != 0 && |Candidates(t, ssw, aw, confidence)| > 0
    ensures r.Success? ==> BoxPayloads(r.value)
    ensures r.Success? ==> forall d :: d in r.value ==>
      exists i :: 0 <= i < |Positions(t)| && PoseOf(d, Positions(t)[i], Shrink(t, ssw, aw), aw, confidence)
    ensures r.Success? && MidSize(t) ==> forall d :: d in Candidates(t, ssw, aw, confidence) ==> d in r.value
    ensures r.Success? && !MidSize(t) ==>
      && HasSlot(r.value, 4) && SortedDesc(r.value, 4)
      && NoOverlappingPair(r.value, iouThreshold, allIou)
      && forall x :: x in Candidates(t, ssw, aw, confidence) && x !in r.value ==>
           SuppressedByHigher(x, r.value, iouThreshold, allIou)
  {
    var cs := Candidates(t, ssw, aw, confidence);
    if aw % 3 != 0 && |cs| > 0 then Failure(IndexOutOfRange)
    else if MidSize(t) then Success(cs)
    else Success(NmsFilter(cs, iouThreshold, allIou))
  }

  /** Raising the confidence threshold only removes candidates; the rest
      keep their payload, their keypoints and their order. */
  lemma {:induction false} CandidatesMonotone(t: Tensor, ssw: nat, aw: nat, t1: real, t2: real)
    requires Valid(t) && t1 <= t2
    ensures Subsequence(Candidates(t, ssw, aw, t2), Candidates(t, ssw, aw, t1))
    ensures multiset(Candidates(t, ssw, aw, t2)) <= multiset(Candidates(t, ssw, aw, t1))
  {
    var ps := Positions(t);
    var d1 := Decoded(t, ssw, aw, t1);
    var d2 := Decoded(t, ssw, aw, t2);
    forall i | 0 <= i < |d1| ensures d2[i].None? || d2[i] == d1[i] {
      WinnerMonotone(ps[i], Shrink(t, ssw, aw), t1, t2, AtLeast);
    }
    SomesShrink(d2, d1);
    SubsequenceMultiset(Candidates(t, ssw, aw, t2), Candidates(t, ssw, aw, t1));
  }
}
