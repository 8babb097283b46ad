/** The fluent configuration builder: the same metadata, shape and version
    logic as the `Yolo` constructor, split into three steps that the caller
    chains. A builder is modelled from the moment its session is set: the
    steps read the session's shapes and metadata and rewrite the config. */
module YoloConfigBuilder {
  import opened Wrappers
  import opened Exceptions
  import opened Yolo

  /** The builder's state: what the session reports, and the config built
      so far. */
  datatype Builder = Builder(info: ModelInfo, config: Config)

  /** A builder whose session has an output to read. */
  predicate Ready(b: Builder) {
    |b.info.outputShapes| >= 1
  }

  /** `SetModelSession`: the first output's name is taken from the session,
      which fails when the model has no output; the config is kept. */
  function SetModelSession(config: Config, info: ModelInfo): (r: Result<Builder, Exception>)
    ensures r.Failure? <==> |info.outputShapes| == 0
    ensures r.Failure? ==> r.error == InvalidOperation
    ensures r.Success? ==> Ready(r.value) && r.value.info == info && r.value.config == config
  {
    if |info.outputShapes| == 0 then Failure(InvalidOperation)
    else Success(Builder(info, config))
  }

  /** `SetModelMetadata`: the labels are the parse of `names` (none without
      it), the version string is the `version` entry (kept without it), the
      task stage is the constructor's, and finally the tensor width and
      height are read from the input shape [1, 3, height, width] whatever
      the task. */
  function SetModelMetadata(b: Builder): (r: Result<Builder, Exception>)
    requires Ready(b)
    ensures r.Success? <==> NamesReadable(b.info.metadata) && TaskShapesReadable(b.info) && |b.info.inputShape| >= 4
    ensures "names" in b.info.metadata && SplitLabelSignature(b.info.metadata["names"]).Failure? ==> r.Failure?
    ensures r.Success? ==>
      && r.value.info == b.info
      && ("names" in b.info.metadata ==> Success(r.value.config.labelGroup) == SplitLabelSignature(b.info.metadata["names"]))
      && ("names" !in b.info.metadata ==> r.value.config.labelGroup == [])
      && r.value.config.modelVersion ==
         (if "version" in b.info.metadata then b.info.metadata["version"] else b.config.modelVersion)
      && r.value.config.taskType == InferredTaskType(b.info, b.config.taskType)
      && |b.info.inputShape| >= 4
      && r.value.config.tensorWidth == b.info.inputShape[3]
      && r.value.config.tensorHeight == b.info.inputShape[2]
      && r.value.config.taskMode == b.config.taskMode
      && r.value.config.yoloVersion == b.config.yoloVersion
    ensures r.Success? && InferredTaskType(b.info, "") == "segment" ==>
      && |b.info.outputShapes| >= 2 && |b.info.outputShapes[1]| >= 4
      && r.value.config.semanticSegmentationWidth == b.info.outputShapes[1][1]
      && r.value.config.maskScaleRatioW == FloatRatio(b.info.outputShapes[1][3], b.info.inputShape[3])
      && r.value.config.maskScaleRatioH == FloatRatio(b.info.outputShapes[1][2], b.info.inputShape[2])
    ensures r.Success? && InferredTaskType(b.info, "") == "pose" ==>
      && |b.info.outputShapes[0]| >= 3
      && r.value.config.actionWidth == Min(b.info.outputShapes[0][1], b.info.outputShapes[0][2]) - 5
    ensures "task" !in b.info.metadata && |b.info.outputShapes[0]| != 2 && |b.info.outputShapes[0]| != 3
      && NamesReadable(b.info.metadata)
      ==> r == Failure(UnsupportedModel)
  {
    var md := b.info.metadata;
    var labels :- if "names" in md then SplitLabelSignature(md["names"]) else Success([]);
    var c := b.config.(labelGroup := labels,
                       modelVersion := if "version" in md then md["version"] else b.config.modelVersion);
    var c1 :- ReadTask(c, b.info);
    if |b.info.inputShape| < 4 then Failure(IndexOutOfRange)
    else Success(b.(config := c1.(tensorWidth := b.info.inputShape[3], tensorHeight := b.info.inputShape[2])))
  }

  /** `SetInferenceParameters`: the task mode goes through the `TaskMode`
      setter, then the version is chosen by `GetModelVersion` from the
      config as it stands; nothing else changes. */
  function SetInferenceParameters(b: Builder, yoloVersion: int, taskMode: int): (r: Result<Builder, Exception>)
    requires Ready(b)
    ensures r.Success? ==>
      && r.value.info == b.info
      && r.value.config.taskMode in AllowedModes(b.config.taskType)
      && (taskMode in AllowedModes(b.config.taskType) ==> r.value.config.taskMode == taskMode)
      && Success(r.value.config.yoloVersion) == GetModelVersion(b.config, b.info.outputShapes[0], yoloVersion)
      && r.value.config == b.config.(taskMode := r.value.config.taskMode, yoloVersion := r.value.config.yoloVersion)
    ensures r.Failure? <==> GetModelVersion(b.config, b.info.outputShapes[0], yoloVersion).Failure?
  {
    var c := b.config.(taskMode := SetTaskMode(b.config.taskType, taskMode));
    var v :- GetModelVersion(c, b.info.outputShapes[0], yoloVersion);
    Success(b.(config := c.(yoloVersion := v)))
  }

  /** The usual chain on a fresh builder: session, metadata, then the
      inference parameters; the config it yields. */
  function Build(info: ModelInfo, yoloVersion: int, taskMode: int): (r: Result<Config, Exception>)
    ensures |info.outputShapes| == 0 ==> r == Failure(InvalidOperation)
    ensures r.Success? <==>
      && ReadMetadata(info).Success?
      && |info.inputShape| >= 4
      && GetModelVersion(ReadMetadata(info).value, info.outputShapes[0], yoloVersion).Success?
    ensures r.Success? ==>
      && r.value.taskMode == SetTaskMode(r.value.taskType, taskMode)
      && r.value.tensorWidth == info.inputShape[3] && r.value.tensorHeight == info.inputShape[2]
      && Success(r.value.yoloVersion) == GetModelVersion(ReadMetadata(info).value, info.outputShapes[0], yoloVersion)
      && r.value == ReadMetadata(info).value.(taskMode := r.value.taskMode, yoloVersion := r.value.yoloVersion,
                                              tensorWidth := r.value.tensorWidth, tensorHeight := r.value.tensorHeight)
  {
    var b0 :- SetModelSession(Initial, info);
    var b1 :- SetModelMetadata(b0);
    BuildReadsMetadata(info, b1);
    var c := b1.config.(taskMode := SetTaskMode(b1.config.taskType, taskMode));
    VersionIgnoresTensorSize(c, info.outputShapes[0], yoloVersion, info.inputShape[3], info.inputShape[2]);
    var b2 :- SetInferenceParameters(b1, yoloVersion, taskMode);
    Success(b2.config)
  }

  /** On a fresh builder the metadata step agrees with the constructor's
      metadata stage, apart from the tensor size it also sets. */
  lemma BuildReadsMetadata(info: ModelInfo, b1: Builder)
    requires |info.outputShapes| >= 1
    requires SetModelMetadata(Builder(info, Initial)) == Success(b1)
    ensures ReadMetadata(info).Success?
    ensures |info.inputShape| >= 4
    ensures b1.config == ReadMetadata(info).value.(tensorWidth := info.inputShape[3], tensorHeight := info.inputShape[2])
    ensures b1.info == info
  {
  }

  /** The builder yields exactly the configuration the constructor builds,
      apart from the task mode it is given: one succeeds when the other
      does, with the same labels, version string, task type, widths,
      ratios, version and tensor size. With task mode 0 the two agree
      entirely. */
  lemma BuildMatchesConstructor(info: ModelInfo, yoloVersion: int, taskMode: int)
    ensures Build(info, yoloVersion, taskMode).Success? <==> Create(info, yoloVersion).Success?
    ensures Build(info, yoloVersion, taskMode).Success? ==>
      var c := Create(info, yoloVersion).value;
      Build(info, yoloVersion, taskMode).value == c.(taskMode := SetTaskMode(c.taskType, taskMode))
    ensures Build(info, yoloVersion, 0).Success? ==> Build(info, yoloVersion, 0).value == Create(info, yoloVersion).value
  {
    var b := Build(info, yoloVersion, taskMode);
    var k := Create(info, yoloVersion);
    if b.Success? {
      var m := ReadMetadata(info).value;
      assert k.value == m.(taskMode := k.value.taskMode, yoloVersion := k.value.yoloVersion,
                           tensorWidth := k.value.tensorWidth, tensorHeight := k.value.tensorHeight);
      assert b.value.yoloVersion == k.value.yoloVersion;
      assert b.value == m.(taskMode := SetTaskMode(m.taskType, taskMode), yoloVersion := k.value.yoloVersion,
                           tensorWidth := k.value.tensorWidth, tensorHeight := k.value.tensorHeight);
    }
    if Build(info, yoloVersion, 0).Success? {
      var m := ReadMetadata(info).value;
      assert k.value.taskMode == SetTaskMode(m.taskType, 0);
    }
  }

  lemma VersionIgnoresTensorSize(c: Config, out: seq<int>, hint: int, w: int, h: int)
    ensures GetModelVersion(c.(tensorWidth := w, tensorHeight := h), out, hint) == GetModelVersion(c, out, hint)
  {
  }
}
