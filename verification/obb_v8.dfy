/** The oriented-bounding-box decoder: the class loop stops one channel
    before the end of the row, whose last channel is the box's rotation.
    Neither path applies non-maximum suppression. */
module ObbV8 {
  import opened Wrappers
  import opened Sequences
  import opened YoloData
  import opened Tensors

  /** `d` is the oriented box of position `row`: the box payload of its best
      class among all but the last channel, then the last channel. */
  predicate ObbOf(d: Detection, row: seq<real>, threshold: real) {
    && BoxPayloadOf(d.basic, row, 1, threshold, AtLeast)
    && |d.basic| == 7
    && d.basic[6] == row[|row| - 1]
    && d.mask.None? && d.keys.None?
  }

  /** One position: its oriented box, or nothing when no class passes. */
  function DecodeAt(row: seq<real>, threshold: real): (d: Option<Detection>)
    ensures d.None? <==> forall j :: 0 <= j < |row| - 5 ==> !Candidate(row, j, threshold, AtLeast)
    ensures d.Some? ==> ObbOf(d.value, row, threshold)
  {
    match Winner(row, 1, threshold, AtLeast)
    case None => None
    case Some(b) =>
      WinnerPayload(row, 1, threshold, AtLeast);
      Some(Detection(BoxPayload(row, b) + [row[|row| - 1]], None, None))
  }

  /** The per-position outcomes in position order. */
  function Decoded(t: Tensor, threshold: real): (ds: seq<Option<Detection>>)
    requires Valid(t)
    ensures |ds| == |Positions(t)|
    ensures forall i :: 0 <= i < |ds| ==> ds[i] == DecodeAt(Positions(t)[i], threshold)
  {
    var ps := Positions(t);
    seq(|ps|, i requires 0 <= i < |ps| => DecodeAt(ps[i], threshold))
  }

  /** The decoder's output (unfiltered): every detection is the oriented box
      of a position whose best class passes, and every such position yields
      one. */
  function ExecuteTask(t: Tensor, confidence: real): (r: seq<Detection>)
    requires Valid(t)
    ensures BoxPayloads(r) && |r| <= |Positions(t)|
    ensures forall d :: d in r ==>
      exists i :: 0 <= i < |Positions(t)| && ObbOf(d, Positions(t)[i], confidence)
    ensures forall i, j ::
      (0 <= i < |Positions(t)| && 0 <= j < |Positions(t)[i]| - 5
       && Candidate(Positions(t)[i], j, confidence, AtLeast)) ==>
      exists d :: d in r && ObbOf(d, Positions(t)[i], confidence)
  {
    var ds := Decoded(t, confidence);
    var r := Somes(ds);
    DecodedSound(t, confidence, ds, r);
    r
  }

  /** Every present outcome is the oriented box of its position. */
  lemma DecodedSound(t: Tensor, confidence: real, ds: seq<Option<Detection>>, r: seq<Detection>)
    requires Valid(t) && ds == Decoded(t, confidence) && r == Somes(ds)
    ensures forall d :: d in r ==>
      exists i :: 0 <= i < |Positions(t)| && ObbOf(d, Positions(t)[i], confidence)
  {
    forall d | d in r
      ensures exists i :: 0 <= i < |Positions(t)| && ObbOf(d, Positions(t)[i], confidence)
    {
      assert Some(d) in ds;
      var i :| 0 <= i < |ds| && ds[i] == Some(d);
      assert ObbOf(d, Positions(t)[i], confidence);
    }
  }

  /** Raising the confidence threshold only removes boxes; the rest keep
      their payload and their order. */
  lemma {:induction false} ExecuteTaskMonotone(t: Tensor, t1: real, t2: real)
    requires Valid(t) && t1 <= t2
    ensures Subsequence(ExecuteTask(t, t2), ExecuteTask(t, t1))
    ensures multiset(ExecuteTask(t, t2)) <= multiset(ExecuteTask(t, t1))
  {
    var ps := Positions(t);
    var d1 := Decoded(t, t1);
    var d2 := Decoded(t, t2);
    forall i | 0 <= i < |d1| ensures d2[i].None? || d2[i] == d1[i] {
      WinnerMonotone(ps[i], 1, t1, t2, AtLeast);
    }
    SomesShrink(d2, d1);
    SubsequenceMultiset(ExecuteTask(t, t2), ExecuteTask(t, t1));
  }
}
