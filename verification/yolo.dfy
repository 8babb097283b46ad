/** The model-loading logic of the `Yolo` class: reading the label names,
    the version and the task type from the model's custom metadata (or from
    the output shapes when there is no task entry), deriving the mask and
    keypoint widths, normalising the task mode and choosing the YOLO
    version. The ONNX session is replaced by the plain values it reports. */
module Yolo {
  import opened Wrappers
  import opened Exceptions
  import opened Strings

  /** What the session reports about a model: the dimensions of its first
      input, the dimensions of each output (in output-name order), and the
      custom metadata map. */
  datatype ModelInfo = ModelInfo(inputShape: seq<int>, outputShapes: seq<seq<int>>, metadata: map<string, string>)

  /** A single-precision quotient of two integers: finite, or an infinity
      or NaN when the divisor is 0. Rounding is not modelled. */
  datatype Ratio = Finite(value: real) | NonFinite

  function FloatRatio(a: int, b: int): (q: Ratio)
    ensures b == 0 <==> q.NonFinite?
    ensures q.Finite? ==> q.value * (b as real) == a as real
  {
    if b == 0 then NonFinite else Finite((a as real) / (b as real))
  }

  /** The configuration fields the loading code assigns. */
  datatype Config = Config(
    labelGroup: seq<string>,
    modelVersion: string,
    taskType: string,
    semanticSegmentationWidth: int,
    actionWidth: int,
    maskScaleRatioW: Ratio,
    maskScaleRatioH: Ratio,
    taskMode: int,
    yoloVersion: int,
    tensorWidth: int,
    tensorHeight: int)

  /** The field initialisers of the class. */
  const Initial: Config := Config([], "", "", 0, 0, Finite(0.0), Finite(0.0), 0, 0, 0, 0)

  // ---------------------------------------------------------------------
  // Task mode
  // ---------------------------------------------------------------------

  /** The task modes a task type accepts. */
  function AllowedModes(taskType: string): set<int> {
    match taskType
    case "classify" => {0}
    case "detect" => {1}
    case "segment" => {1, 2, 3}
    case "pose" => {1, 4, 5}
    case "obb" => {6}
    case _ => {1}
  }

  /** The mode a task type falls back to for a value it does not accept. */
  function DefaultMode(taskType: string): int {
    match taskType
    case "classify" => 0
    case "detect" => 1
    case "segment" => 3
    case "pose" => 5
    case "obb" => 6
    case _ => 1
  }

  /** The `TaskMode` setter: the assigned value is kept when the task type
      accepts it and replaced by the task type's default otherwise. */
  function SetTaskMode(taskType: string, value: int): (mode: int)
    ensures mode in AllowedModes(taskType)
    ensures value in AllowedModes(taskType) ==> mode == value
    ensures value !in AllowedModes(taskType) ==> mode == DefaultMode(taskType)
  {
    if taskType == "classify" then 0
    else if taskType == "detect" then 1
    else if taskType == "segment" then
      if value == 1 || value == 2 || value == 3 then value else 3
    else if taskType == "pose" then
      if value == 1 || value == 4 || value == 5 then value else 5
    else if taskType == "obb" then
      if value == 6 then value else 6
    else 1
  }

  /** Assigning the mode the setter produced changes nothing. */
  lemma SetTaskModeIdempotent(taskType: string, value: int)
    ensures SetTaskMode(taskType, SetTaskMode(taskType, value)) == SetTaskMode(taskType, value)
  {
  }

  // ---------------------------------------------------------------------
  // Label names
  // ---------------------------------------------------------------------

  /** One label from a piece `<key>: '<label>'`: the text from three
      characters after the first ':' up to, not including, the last
      character. */
  function ExtractLabel(piece: string): (r: Result<string, Exception>)
    ensures r.Failure? <==> |piece| - 1 < IndexOf(piece, ':') + 3
    ensures r.Failure? ==> r.error == ArgumentOutOfRange
    ensures r.Success? ==> r.value == piece[IndexOf(piece, ':') + 3 .. |piece| - 1]
  {
    var start := IndexOf(piece, ':') + 3;
    var end := |piece| - 1;
    var r := Substring(piece, start, end - start);
    assert r.Success? ==> r.value == piece[start..end];
    r
  }

  /** The labels of all pieces; the first piece that cannot be cut fails
      the whole parse. */
  function ExtractLabels(pieces: seq<string>): (r: Result<seq<string>, Exception>)
    ensures r.Failure? <==> exists i :: 0 <= i < |pieces| && ExtractLabel(pieces[i]).Failure?
    ensures r.Failure? ==> r.error == ArgumentOutOfRange
    ensures r.Success? ==>
      && |r.value| == |pieces|
      && forall i :: 0 <= i < |pieces| ==> ExtractLabel(pieces[i]) == Success(r.value[i])
    decreases |pieces|
  {
    if |pieces| == 0 then Success([])
    else
      var init := pieces[..|pieces| - 1];
      assert forall i :: 0 <= i < |init| ==> init[i] == pieces[i];
      var front :- ExtractLabels(init);
      var last :- ExtractLabel(pieces[|pieces| - 1]);
      Success(front + [last])
  }

  /** `SplitlabelSignature`: drop every brace, split at the commas, and cut
      the label out of each piece. */
  function SplitLabelSignature(name: string): (r: Result<seq<string>, Exception>)
    ensures r.Success? ==> |r.value| >= 1
    ensures r.Failure? ==> r.error == ArgumentOutOfRange
  {
    ExtractLabels(Split(Remove(Remove(name, '{'), '}'), ','))
  }

  /** The text of entry `k` of a Python dict literal with integer keys, as
      the `names` metadata writes it: `0: 'person'`, then ` 1: 'car'`, ... */
  function EntryText(k: nat, text: string): string {
    EntryKey(k) + (": '" + text + "'")
  }

  /** The key part of entry `k`, with the space that follows a comma. */
  function EntryKey(k: nat): (key: string)
    ensures forall x :: x in key ==> x == ' ' || IsDigit(x)
  {
    var ds := NatDigits(k);
    assert forall x :: x in ds ==> IsDigit(x) by {
      assert forall i :: 0 <= i < |ds| ==> IsDigit(ds[i]);
    }
    (if k == 0 then "" else " ") + ds
  }

  function Entries(labels: seq<string>): (es: seq<string>)
    ensures |es| == |labels|
    ensures forall k :: 0 <= k < |labels| ==> es[k] == EntryText(k, labels[k])
  {
    seq(|labels|, k requires 0 <= k < |labels| => EntryText(k, labels[k]))
  }

  /** The `names` metadata of a model with these labels. */
  function EncodeNames(labels: seq<string>): string
    requires |labels| >= 1
  {
    "{" + Join(Entries(labels), ',') + "}"
  }

  /** A label that survives the parser: no comma and no brace. */
  predicate PlainLabel(text: string) {
    ',' !in text && '{' !in text && '}' !in text
  }

  /** The parser recovers the labels of a non-empty `names` dict whose labels
      hold no comma and no brace. */
  lemma SplitLabelSignatureRoundTrip(labels: seq<string>)
    requires |labels| >= 1
    requires forall k :: 0 <= k < |labels| ==> PlainLabel(labels[k])
    ensures SplitLabelSignature(EncodeNames(labels)) == Success(labels)
  {
    var es := Entries(labels);
    forall k | 0 <= k < |labels|
      ensures ExtractLabel(es[k]) == Success(labels[k])
      ensures PlainLabel(es[k])
    {
      EntryFacts(k, labels[k]);
    }
    var j := Join(es, ',');
    JoinPlain(es);
    StripBraces(j);
    assert Remove(Remove(EncodeNames(labels), '{'), '}') == j;
    SplitJoin(es, ',');
    assert Split(j, ',') == es;
    ExtractLabelsSucceed(es, labels);
  }

  /** Pieces that can each be cut give their labels in order. */
  lemma {:induction false} ExtractLabelsSucceed(pieces: seq<string>, labels: seq<string>)
    requires |pieces| == |labels|
    requires forall i :: 0 <= i < |pieces| ==> ExtractLabel(pieces[i]) == Success(labels[i])
    ensures ExtractLabels(pieces) == Success(labels)
    decreases |pieces|
  {
    if |pieces| > 0 {
      var n := |pieces| - 1;
      ExtractLabelsSucceed(pieces[..n], labels[..n]);
      assert labels == labels[..n] + [labels[n]];
    }
  }

  /** Deleting the braces of `{j}` leaves `j` when `j` has none. */
  lemma StripBraces(j: string)
    requires '{' !in j && '}' !in j
    ensures Remove(Remove("{" + j + "}", '{'), '}') == j
  {
    RemoveAppend("{", j + "}", '{');
    RemoveAppend(j, "}", '{');
    assert "{" + j + "}" == "{" + (j + "}");
    assert Remove("{", '{') == "";
    assert Remove("}", '{') == "}";
    assert Remove("{" + j + "}", '{') == j + "}";
    RemoveAppend(j, "}", '}');
    assert Remove("}", '}') == "";
  }

  /** Joining brace-free pieces with commas gives brace-free text. */
  lemma JoinPlain(es: seq<string>)
    requires |es| >= 1
    requires forall k :: 0 <= k < |es| ==> PlainLabel(es[k])
    ensures '{' !in Join(es, ',') && '}' !in Join(es, ',')
    ensures forall p :: p in es ==> ',' !in p
  {
    JoinChars(es, ',');
    forall p | p in es ensures ',' !in p {
      var k :| 0 <= k < |es| && es[k] == p;
    }
  }

  /** The characters of a joined string come from the pieces or are the
      separator. */
  lemma {:induction false} JoinChars(parts: seq<string>, sep: char)
    requires |parts| >= 1
    ensures forall x :: x in Join(parts, sep) ==> x == sep || exists k :: 0 <= k < |parts| && x in parts[k]
    decreases |parts|
  {
    if |parts| > 1 {
      JoinChars(parts[1..], sep);
      forall x | x in Join(parts, sep)
        ensures x == sep || exists k :: 0 <= k < |parts| && x in parts[k]
      {
        if x in parts[0] {
        } else if x != sep {
          assert x in Join(parts[1..], sep);
          var k :| 0 <= k < |parts[1..]| && x in parts[1..][k];
          assert x in parts[k + 1];
        }
      }
    }
  }

  /** Cutting entry `k` gives its label back; the entry holds no comma and
      no brace. */
  lemma EntryFacts(k: nat, text: string)
    requires PlainLabel(text)
    ensures ExtractLabel(EntryText(k, text)) == Success(text)
    ensures PlainLabel(EntryText(k, text))
  {
    EntryCut(EntryKey(k), text);
    EntryPlain(EntryKey(k), text);
  }

  lemma EntryCut(key: string, text: string)
    requires ':' !in key
    ensures ExtractLabel(key + (": '" + text + "'")) == Success(text)
  {
    EntryColon(key, text);
    EntryMiddle(key, text);
  }

  /** The first colon of an entry is the one after its key. */
  lemma EntryColon(key: string, text: string)
    requires ':' !in key
    ensures IndexOf(key + (": '" + text + "'"), ':') == |key|
  {
    var tail := ": '" + text + "'";
    assert tail[0] == ':' && IndexOf(tail, ':') == 0;
    IndexOfAppend(key, tail, ':');
  }

  /** Past the key, the colon, the space and the opening quote, and before
      the closing quote, an entry holds its label. */
  lemma EntryMiddle(key: string, text: string)
    ensures var e := key + (": '" + text + "'");
      |e| == |key| + |text| + 4 && e[|key| + 3 .. |e| - 1] == text
  {
    var tail := ": '" + text + "'";
    var e := key + tail;
    forall i | 0 <= i < |text| ensures e[|key| + 3 + i] == text[i] {
      assert e[|key| + 3 + i] == tail[3 + i];
    }
  }

  lemma EntryPlain(key: string, text: string)
    requires PlainLabel(text) && forall x :: x in key ==> x == ' ' || IsDigit(x)
    ensures PlainLabel(key + (": '" + text + "'"))
  {
    var tail := ": '" + text + "'";
    assert forall x :: x in tail ==> x == ':' || x == ' ' || x == '\'' || x in text;
    assert forall x :: x in key + tail ==> x in key || x in tail;
  }

  /** A two-label example of the metadata format. */
  lemma SplitLabelSignatureExample()
    ensures SplitLabelSignature("{0: 'a', 1: 'b'}") == Success(["a", "b"])
  {
    var labels := ["a", "b"];
    assert NatDigits(0) == "0" && NatDigits(1) == "1";
    assert EntryText(0, "a") == "0: 'a'";
    assert EntryText(1, "b") == " 1: 'b'";
    assert Entries(labels) == ["0: 'a'", " 1: 'b'"];
    assert Join(["0: 'a'", " 1: 'b'"], ',') == "0: 'a', 1: 'b'";
    assert EncodeNames(labels) == "{0: 'a', 1: 'b'}";
    SplitLabelSignatureRoundTrip(labels);
  }

  /** An empty `names` dict leaves one empty piece, which cannot be cut. */
  lemma SplitLabelSignatureEmptyDict()
    ensures SplitLabelSignature("{}") == Failure(ArgumentOutOfRange)
  {
    assert Remove("{}", '{') == "}";
    assert Remove("}", '}') == "";
    assert Split("", ',') == [""];
  }

  // ---------------------------------------------------------------------
  // Metadata and shapes
  // ---------------------------------------------------------------------

  function Min(a: int, b: int): int {
    if a < b then a else b
  }

  /** The task type the loading code ends up with: the `task` entry when
      present, otherwise classify for a 2-D output, and for a 3-D output
      detect with one output, segment with two, and the `current` value
      (untouched) with any other number of outputs. */
  function InferredTaskType(info: ModelInfo, current: string): string
    requires |info.outputShapes| >= 1
  {
    if "task" in info.metadata then info.metadata["task"]
    else if |info.outputShapes[0]| == 2 then "classify"
    else if |info.outputShapes[0]| == 3 && |info.outputShapes| == 1 then "detect"
    else if |info.outputShapes[0]| == 3 && |info.outputShapes| == 2 then "segment"
    else current
  }

  /** The segmentation fields, read from the second output's shape
      [1, ssw, maskHeight, maskWidth] and the input shape. */
  function SegmentWidths(c: Config, info: ModelInfo): (r: Result<Config, Exception>)
    ensures r.Failure? <==> |info.outputShapes| < 2 || |info.outputShapes[1]| < 4 || |info.inputShape| < 4
    ensures r.Failure? ==> r.error == (if |info.outputShapes| < 2 then ArgumentOutOfRange else IndexOutOfRange)
    ensures r.Success? ==>
      var out2 := info.outputShapes[1];
      && r.value.semanticSegmentationWidth == out2[1]
      && r.value.maskScaleRatioW == FloatRatio(out2[3], info.inputShape[3])
      && r.value.maskScaleRatioH == FloatRatio(out2[2], info.inputShape[2])
      && r.value == c.(semanticSegmentationWidth := out2[1], maskScaleRatioW := r.value.maskScaleRatioW,
                       maskScaleRatioH := r.value.maskScaleRatioH)
  {
    if |info.outputShapes| < 2 then Failure(ArgumentOutOfRange)
    else
      var out2 := info.outputShapes[1];
      if |out2| < 4 || |info.inputShape| < 4 then Failure(IndexOutOfRange)
      else
        Success(c.(semanticSegmentationWidth := out2[1],
                   maskScaleRatioW := FloatRatio(out2[3], info.inputShape[3]),
                   maskScaleRatioH := FloatRatio(out2[2], info.inputShape[2])))
  }

  /** The keypoint width of a pose model: the smaller of the two trailing
      output dimensions, less the 4 box channels and the score channel. */
  function PoseWidth(c: Config, out: seq<int>): (r: Result<Config, Exception>)
    ensures r.Failure? <==> |out| < 3
    ensures r.Failure? ==> r.error == IndexOutOfRange
    ensures r.Success? ==> r.value == c.(actionWidth := Min(out[1], out[2]) - 5)
  {
    if |out| < 3 then Failure(IndexOutOfRange)
    else if out[1] > out[2] then Success(c.(actionWidth := out[2] - 5))
    else Success(c.(actionWidth := out[1] - 5))
  }

  /** The shapes the task stage reads are there: a task entry or a 2-D or
      3-D first output; for a segment model a second output of rank at
      least 4 and an input of rank at least 4; for a pose model a first
      output of rank at least 3. */
  predicate TaskShapesReadable(info: ModelInfo)
    requires |info.outputShapes| >= 1
  {
    var out := info.outputShapes[0];
    var task := InferredTaskType(info, "");
    && ("task" in info.metadata || |out| == 2 || |out| == 3)
    && (task == "segment" ==> |info.outputShapes| >= 2 && |info.outputShapes[1]| >= 4 && |info.inputShape| >= 4)
    && (task == "pose" ==> |out| >= 3)
  }

  /** The `names` entry is absent or parses. */
  predicate NamesReadable(metadata: map<string, string>) {
    "names" in metadata ==> SplitLabelSignature(metadata["names"]).Success?
  }

  /** The task-type stage, after the labels and the version string: the
      task type is the inferred one (the current one when no rule applies),
      the mask fields (segment) and the keypoint width (pose) are derived
      from the shapes when a rule picks that task, and nothing else
      changes. A first output that is neither 2-D nor 3-D, without a task
      entry, is not supported. */
  function ReadTask(c: Config, info: ModelInfo): (r: Result<Config, Exception>)
    requires |info.outputShapes| >= 1
    ensures r.Success? ==>
      && r.value.taskType == InferredTaskType(info, c.taskType)
      && r.value.labelGroup == c.labelGroup && r.value.modelVersion == c.modelVersion
      && r.value.taskMode == c.taskMode && r.value.yoloVersion == c.yoloVersion
      && r.value.tensorWidth == c.tensorWidth && r.value.tensorHeight == c.tensorHeight
    ensures r.Success? && InferredTaskType(info, "") == "segment" ==>
      && |info.outputShapes| >= 2 && |info.outputShapes[1]| >= 4 && |info.inputShape| >= 4
      && r.value.semanticSegmentationWidth == info.outputShapes[1][1]
      && r.value.maskScaleRatioW == FloatRatio(info.outputShapes[1][3], info.inputShape[3])
      && r.value.maskScaleRatioH == FloatRatio(info.outputShapes[1][2], info.inputShape[2])
      && r.value.actionWidth == c.actionWidth
    ensures r.Success? && InferredTaskType(info, "") == "pose" ==>
      && |info.outputShapes[0]| >= 3
      && r.value.actionWidth == Min(info.outputShapes[0][1], info.outputShapes[0][2]) - 5
      && r.value.semanticSegmentationWidth == c.semanticSegmentationWidth
    ensures r.Success? && InferredTaskType(info, "") != "segment" && InferredTaskType(info, "") != "pose" ==>
      r.value == c.(taskType := r.value.taskType)
    ensures r.Success? <==> TaskShapesReadable(info)
    ensures r.Failure? ==>
      r.error == (if "task" !in info.metadata && |info.outputShapes[0]| != 2 && |info.outputShapes[0]| != 3
                  then UnsupportedModel
                  else if InferredTaskType(info, "") == "segment" && |info.outputShapes| < 2 then ArgumentOutOfRange
                  else IndexOutOfRange)
  {
    var md := info.metadata;
    var out := info.outputShapes[0];
    if "task" in md then
      var c1 := c.(taskType := md["task"]);
      if md["task"] == "segment" then SegmentWidths(c1, info)
      else if md["task"] == "pose" then PoseWidth(c1, out)
      else Success(c1)
    else if |out| == 2 then Success(c.(taskType := "classify"))
    else if |out| == 3 then
      if |info.outputShapes| == 1 then Success(c.(taskType := "detect"))
      else if |info.outputShapes| == 2 then
        var c1 :- SegmentWidths(c, info);
        Success(c1.(taskType := "segment"))
      else Success(c)
    else Failure(UnsupportedModel)
  }

  /** The constructor's metadata and shape stage. On success the labels are
      the parse of `names` (none without it), the version string is the
      `version` entry ("" without it), the task type is the inferred one,
      and the mask fields (segment) and keypoint width (pose) are derived
      from the shapes; nothing else is set. */
  function ReadMetadata(info: ModelInfo): (r: Result<Config, Exception>)
    ensures |info.outputShapes| == 0 ==> r == Failure(InvalidOperation)
    ensures "names" in info.metadata && SplitLabelSignature(info.metadata["names"]).Failure? ==> r.Failure?
    ensures r.Success? ==>
      && |info.outputShapes| >= 1
      && r.value.taskType == InferredTaskType(info, "")
      && ("names" in info.metadata ==> Success(r.value.labelGroup) == SplitLabelSignature(info.metadata["names"]))
      && ("names" !in info.metadata ==> r.value.labelGroup == [])
      && r.value.modelVersion == (if "version" in info.metadata then info.metadata["version"] else "")
      && r.value.taskMode == 0 && r.value.yoloVersion == 0
      && r.value.tensorWidth == 0 && r.value.tensorHeight == 0
    ensures r.Success? && r.value.taskType == "segment" ==>
      && |info.outputShapes| >= 2 && |info.outputShapes[1]| >= 4 && |info.inputShape| >= 4
      && r.value.semanticSegmentationWidth == info.outputShapes[1][1]
      && r.value.maskScaleRatioW == FloatRatio(info.outputShapes[1][3], info.inputShape[3])
      && r.value.maskScaleRatioH == FloatRatio(info.outputShapes[1][2], info.inputShape[2])
    ensures r.Success? && r.value.taskType == "pose" ==>
      && |info.outputShapes[0]| >= 3
      && r.value.actionWidth == Min(info.outputShapes[0][1], info.outputShapes[0][2]) - 5
    ensures r.Success? && r.value.taskType != "segment" ==>
      r.value.semanticSegmentationWidth == 0 && r.value.maskScaleRatioW == Finite(0.0)
    ensures r.Success? && r.value.taskType != "pose" ==> r.value.actionWidth == 0
    ensures r.Success? <==> |info.outputShapes| >= 1 && NamesReadable(info.metadata) && TaskShapesReadable(info)
    ensures |info.outputShapes| >= 1 && "task" !in info.metadata
      && |info.outputShapes[0]| != 2 && |info.outputShapes[0]| != 3
      && NamesReadable(info.metadata)
      ==> r == Failure(UnsupportedModel)
  {
    if |info.outputShapes| == 0 then Failure(InvalidOperation)
    else
      var md := info.metadata;
      var labels :- if "names" in md then SplitLabelSignature(md["names"]) else Success([]);
      ReadTask(Initial.(labelGroup := labels, modelVersion := if "version" in md then md["version"] else ""), info)
  }

  // ---------------------------------------------------------------------
  // Version
  // ---------------------------------------------------------------------

  /** The shape heuristic for a YOLOv8 head: the label count equals the
      smaller trailing output dimension less 4 box channels and the mask
      width, or there are no labels and the channel axis comes first. */
  predicate LooksLikeV8(labelCount: int, ssw: int, mid: int, right: int) {
    labelCount == Min(mid, right) - 4 - ssw || (labelCount == 0 && mid < right)
  }

  /** `GetModelVersion`, in order of precedence: classify models are 5; a
      hint of 8 or more is 8; a hint from 5 to 7 is taken as is; otherwise
      the integer before the first '.' of the metadata version string, when
      there is one; otherwise 8 when the output shape looks like a YOLOv8
      head and 5 when not. */
  function GetModelVersion(c: Config, out: seq<int>, hint: int): (r: Result<int, Exception>)
    ensures c.taskType == "classify" ==> r == Success(5)
    ensures c.taskType != "classify" && hint >= 8 ==> r == Success(8)
    ensures c.taskType != "classify" && 5 <= hint < 8 ==> r == Success(hint)
    ensures c.taskType != "classify" && hint < 5 && c.modelVersion != "" ==>
      r == ParseInt32(Split(c.modelVersion, '.')[0])
    ensures c.taskType != "classify" && hint < 5 && c.modelVersion == "" ==>
      && (|out| < 3 <==> r == Failure(IndexOutOfRange))
      && (|out| >= 3 ==> (r == Success(8) <==> LooksLikeV8(|c.labelGroup|, c.semanticSegmentationWidth, out[1], out[2])))
      && (|out| >= 3 ==> (r == Success(5) <==> !LooksLikeV8(|c.labelGroup|, c.semanticSegmentationWidth, out[1], out[2])))
  {
    if c.taskType == "classify" then Success(5)
    else if hint >= 8 then Success(8)
    else if hint < 8 && hint >= 5 then Success(hint)
    else if c.modelVersion != "" then ParseInt32(Split(c.modelVersion, '.')[0])
    else if |out| < 3 then Failure(IndexOutOfRange)
    else
      var mid := out[1];
      var right := out[2];
      var size := if mid < right then mid else right;
      var labelCount := |c.labelGroup|;
      if labelCount == size - 4 - c.semanticSegmentationWidth then Success(8)
      else if labelCount == 0 && mid < right then Success(8)
      else Success(5)
  }

  /** A metadata version such as "8.1.0" gives its major number. */
  lemma VersionFromMetadata(c: Config, out: seq<int>, major: nat, rest: string)
    requires c.taskType != "classify" && major <= MaxInt32
    requires c.modelVersion == ToDecimal(major) + "." + rest
    ensures forall hint :: hint < 5 ==> GetModelVersion(c, out, hint) == Success(major)
  {
    var d := ToDecimal(major);
    assert '.' !in d by {
      assert forall i :: 0 <= i < |d| ==> IsDigit(d[i]);
    }
    assert c.modelVersion == d + ("." + rest);
    IndexOfAppend(d, "." + rest, '.');
    assert c.modelVersion[..|d|] == d;
    assert Split(c.modelVersion, '.')[0] == d;
    ParseToDecimal(major);
  }

  /** Without a metadata version string, a hint below 5 gives 5 or 8. */
  lemma VersionFromShapeIsFiveOrEight(c: Config, out: seq<int>, hint: int)
    requires c.modelVersion == "" && hint < 5
    requires GetModelVersion(c, out, hint).Success?
    ensures GetModelVersion(c, out, hint).value in {5, 8}
  {
  }

  // ---------------------------------------------------------------------
  // Constructor
  // ---------------------------------------------------------------------

  /** The constructor after the session is open: metadata and shapes, then
      `TaskMode = 0`, then the version, then the input tensor's width and
      height (input shape [1, 3, height, width]). Any exception escapes. */
  function Create(info: ModelInfo, yoloVersion: int): (r: Result<Config, Exception>)
    ensures r.Success? <==>
      && ReadMetadata(info).Success?
      && GetModelVersion(ReadMetadata(info).value, info.outputShapes[0], yoloVersion).Success?
      && |info.inputShape| >= 4
    ensures r.Success? ==>
      && r.value.taskType == InferredTaskType(info, "")
      && r.value.taskMode == SetTaskMode(r.value.taskType, 0)
      && Success(r.value.yoloVersion) ==
         GetModelVersion(ReadMetadata(info).value, info.outputShapes[0], yoloVersion)
      && r.value.tensorWidth == info.inputShape[3]
      && r.value.tensorHeight == info.inputShape[2]
      && r.value == ReadMetadata(info).value.(taskMode := r.value.taskMode, yoloVersion := r.value.yoloVersion,
                                              tensorWidth := r.value.tensorWidth, tensorHeight := r.value.tensorHeight)
    ensures ReadMetadata(info).Failure? ==> r == ReadMetadata(info)
    ensures ReadMetadata(info).Success? && GetModelVersion(ReadMetadata(info).value, info.outputShapes[0], yoloVersion).Failure?
      ==> r.Failure? && r.error == GetModelVersion(ReadMetadata(info).value, info.outputShapes[0], yoloVersion).error
  {
    var c :- ReadMetadata(info);
    var c1 := c.(taskMode := SetTaskMode(c.taskType, 0));
    var v :- GetModelVersion(c1, info.outputShapes[0], yoloVersion);
    if |info.inputShape| < 4 then Failure(IndexOutOfRange)
    else Success(c1.(yoloVersion := v, tensorWidth := info.inputShape[3], tensorHeight := info.inputShape[2]))
  }

  /** Without a task entry, a 2-D first output, or a 3-D one next to any
      number of outputs other than two, loads whenever `names` parses: as
      classify, as detect for a single output, and with the task type left
      empty otherwise. */
  lemma LoadsWithoutTaskEntry(info: ModelInfo)
    requires |info.outputShapes| >= 1 && "task" !in info.metadata && NamesReadable(info.metadata)
    requires |info.outputShapes[0]| == 2 || (|info.outputShapes[0]| == 3 && |info.outputShapes| != 2)
    ensures ReadMetadata(info).Success?
    ensures ReadMetadata(info).value.taskType ==
      if |info.outputShapes[0]| == 2 then "classify" else if |info.outputShapes| == 1 then "detect" else ""
  {
  }
}
