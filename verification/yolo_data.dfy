/** The result record of one inference call (`YoloData`) and its keypoint
    type (`Pose`). Coordinates and scores are single-precision floats in the
    source; here they are reals. */
module YoloData {
  import opened Wrappers

  /** One keypoint of a pose model: position and visibility score. */
  datatype Pose = Pose(x: real, y: real, v: real)

  /** A detection. `basic` is the fixed-size payload:
      classify: [score, class];
      detect, segment, pose: [cx, cy, w, h, score, class];
      obb: [cx, cy, w, h, score, class, rotation].
      `mask` is the mask-embedding row of a segment candidate and `keys` the
      keypoints of a pose candidate; both are null (None) otherwise. */
  datatype Detection = Detection(basic: seq<real>, mask: Option<seq<real>>, keys: Option<seq<Pose>>)

  /** A payload carrying a box, a score and a class (length at least 6). */
  predicate HasBox(d: Detection) {
    |d.basic| >= 6
  }

  /** All detections of `xs` carry a box payload. */
  predicate BoxPayloads(xs: seq<Detection>) {
    forall d :: d in xs ==> HasBox(d)
  }

  /** All detections of `xs` have a payload slot `slot`. */
  predicate HasSlot(xs: seq<Detection>, slot: nat) {
    forall d :: d in xs ==> slot < |d.basic|
  }

  /** The confidence of a box payload (slot 4). */
  function Score(d: Detection): real
    requires HasBox(d)
  {
    d.basic[4]
  }

  /** The class index of a box payload (slot 5), stored as a float. */
  function ClassOf(d: Detection): real
    requires HasBox(d)
  {
    d.basic[5]
  }
}
