/** The task-mode strategy factory: a decoder for a (task mode, YOLO
    version) pair, no decoder at all, or an error for an unknown mode. The
    YOLOv5 and YOLOv6 strategies are placeholders whose decoding always
    fails. */
module StrategyFactory {
  import opened Wrappers
  import opened Exceptions
  import opened YoloData
  import opened Tensors
  import Yolo
  import ClassifyV8
  import DetectV8
  import SegmentV8
  import PoseV8
  import ObbV8

  /** The strategy classes the factory can create. */
  datatype Strategy =
    | ClassifyV8Strategy
    | DetectV8Strategy
    | DetectV5Strategy
    | DetectV6Strategy
    | SegmentV8Strategy
    | SegmentV5Strategy
    | PoseV8Strategy
    | ObbStrategy

  /** The strategies that decode; the others only throw. */
  predicate Implemented(s: Strategy) {
    !s.DetectV5Strategy? && !s.DetectV6Strategy? && !s.SegmentV5Strategy?
  }

  /** The table the factory follows, written per strategy: the task modes
      it serves and the versions it serves them for. */
  predicate Serves(s: Strategy, taskMode: int, yoloVersion: int) {
    match s
    case ClassifyV8Strategy => taskMode == 0
    case DetectV8Strategy => taskMode == 1 && yoloVersion == 8
    case DetectV5Strategy => taskMode == 1 && yoloVersion == 5
    case DetectV6Strategy => taskMode == 1 && yoloVersion == 6
    case SegmentV8Strategy => taskMode in {2, 3} && yoloVersion == 8
    case SegmentV5Strategy => taskMode in {2, 3} && yoloVersion != 8
    case PoseV8Strategy => taskMode in {4, 5}
    case ObbStrategy => taskMode == 6
  }

  /** `CreateTaskModelStrategy`: a mode outside 0..6 throws; detect mode
      with a version other than 5, 6 or 8 leaves the strategy null
      (`None`). */
  function CreateTaskModelStrategy(taskMode: int, yoloVersion: int): (r: Result<Option<Strategy>, Exception>)
    ensures r.Failure? <==> taskMode < 0 || taskMode > 6
    ensures r.Failure? ==> r.error == UnknownTaskMode
    ensures r == Success(None) <==> taskMode == 1 && yoloVersion != 5 && yoloVersion != 6 && yoloVersion != 8
    ensures taskMode == 0 ==> r == Success(Some(ClassifyV8Strategy))
    ensures taskMode in {4, 5} ==> r == Success(Some(PoseV8Strategy))
    ensures taskMode == 6 ==> r == Success(Some(ObbStrategy))
  {
    match taskMode
    case 0 => Success(Some(ClassifyV8Strategy))
    case 1 =>
      if yoloVersion == 8 then Success(Some(DetectV8Strategy))
      else if yoloVersion == 5 then Success(Some(DetectV5Strategy))
      else if yoloVersion == 6 then Success(Some(DetectV6Strategy))
      else Success(None)
    case 2 => Success(Some(if yoloVersion == 8 then SegmentV8Strategy else SegmentV5Strategy))
    case 3 => Success(Some(if yoloVersion == 8 then SegmentV8Strategy else SegmentV5Strategy))
    case 4 => Success(Some(PoseV8Strategy))
    case 5 => Success(Some(PoseV8Strategy))
    case 6 => Success(Some(ObbStrategy))
    case _ => Failure(UnknownTaskMode)
  }

  /** The factory follows the table: it creates `s` exactly when `s` serves
      the pair. */
  lemma FactoryFollowsTable(taskMode: int, yoloVersion: int, s: Strategy)
    ensures CreateTaskModelStrategy(taskMode, yoloVersion) == Success(Some(s)) <==> Serves(s, taskMode, yoloVersion)
  {
    var r := CreateTaskModelStrategy(taskMode, yoloVersion);
    if Serves(s, taskMode, yoloVersion) {
      match s
      case SegmentV8Strategy => assert taskMode == 2 || taskMode == 3;
      case SegmentV5Strategy => assert taskMode == 2 || taskMode == 3;
      case PoseV8Strategy => assert taskMode == 4 || taskMode == 5;
      case _ =>
    }
  }

  /** Every mode the `TaskMode` setter can produce is handled, and only
      detect mode with an unusual version leaves no strategy. */
  lemma SetterModesDispatch(taskType: string, value: int, yoloVersion: int)
    ensures CreateTaskModelStrategy(Yolo.SetTaskMode(taskType, value), yoloVersion).Success?
    ensures CreateTaskModelStrategy(Yolo.SetTaskMode(taskType, value), yoloVersion).value.None? ==>
      Yolo.SetTaskMode(taskType, value) == 1
  {
  }

  /** A strategy's `ExecuteTask` on a raw output tensor, with the config's
      mask and keypoint widths. The classify tensor [1, n] is passed as
      its n scores. The V5 and V6 placeholders throw. */
  function ExecuteTask(s: Strategy, t: Tensor, ssw: nat, aw: nat, confidence: real, iouThreshold: real, allIou: bool)
    : (r: Result<seq<Detection>, Exception>)
    requires Valid(t)
    ensures r == Failure(NotImplemented) <==> !Implemented(s)
    ensures r.Failure? && Implemented(s) ==> s.PoseV8Strategy? && r.error == IndexOutOfRange
    ensures r.Success? && s.ClassifyV8Strategy? ==> forall d :: d in r.value ==> |d.basic| == 2
    ensures r.Success? && !s.ClassifyV8Strategy? ==> BoxPayloads(r.value)
  {
    match s
    case ClassifyV8Strategy => Success(ClassifyV8.ExecuteTask(t.data, confidence))
    case DetectV8Strategy => Success(DetectV8.ExecuteTask(t, ssw, aw, confidence, iouThreshold, allIou))
    case SegmentV8Strategy => Success(SegmentV8.ExecuteTask(t, ssw, confidence, iouThreshold, allIou))
    case PoseV8Strategy => PoseV8.ExecuteTask(t, ssw, aw, confidence, iouThreshold, allIou)
    case ObbStrategy => Success(ObbV8.ExecuteTask(t, confidence))
    case _ => Failure(NotImplemented)
  }
}
