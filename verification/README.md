# YOLO post-processing, modelled in Dafny

This project models the post-processing core of the CanCanNeedJJBong YOLO
library for ONNX models. It covers:

- **YoloHelper**:
  - ranking detections by confidence;
  - intersection over union (IoU) of centre/size boxes;
  - greedy non-maximum suppression (NMS).
- **The YOLOv8 decoders**: classify, detect, segment, pose and oriented box (obb). Each turns the raw `[1, d1, d2]` output tensor into detections. A position is one candidate box. For each position the decoder:
  - runs a thresholded arg-max over its class channels;
  - copies the payload: box, score and class, plus mask coefficients, keypoints or rotation.
- **Configuration inference** in the `Yolo` constructor and in `YoloConfigBuilder`:
  - the task type, read from the metadata or inferred from the output shapes;
  - the mask width and mask scale ratios, and the keypoint width;
  - the `TaskMode` setter;
  - `GetModelVersion`;
  - the parser for the `names` metadata.
- **The strategy factory**. It maps a (task mode, YOLO version) pair to a decoder, to null, or to an error.

Modules:

- `Wrappers`: `Option` and `Result`.
- `Exceptions`: the .NET exceptions the code can raise.
- `Sequences`: subsequences and `Somes`.
- `YoloData`: the `YoloData` and `Pose` payloads as the `Detection` datatype.
- `YoloHelper`.
- `Tensors`: the two tensor layouts and the class scan that every box decoder shares.
- `ClassifyV8`, `DetectV8`, `SegmentV8`, `PoseV8`, `ObbV8`.
- `Strings`: the .NET string operations the parsers use.
- `Yolo`, `YoloConfigBuilder` and `StrategyFactory`.

Modelling choices:

- Coordinates and scores are `real`.
- Every exception becomes a `Failure` of a `Result`.
- Both tensor layouts are position sequences:
  - mid-size (`d1 < d2`): channel `c` of position `i` is element `c*d2+i`;
  - flat: row `r`, channel `c` is element `r*d2+c`.
- The ONNX session is replaced by the values it reports: the input shape, the output shapes in output order, and the custom metadata map.

Where the code and the library's own description differ, the model follows the code:

- **IoU with a zero union is not ruled out.** The division in `CalcCrossMergeRatio` is unguarded. The model makes that quotient `None`, which is the float NaN, and proves that a zero union forces a zero intersection, so an infinity never arises. NaN compares false, so such a pair never suppresses.
- **A malformed `names` entry throws.** For example, the empty dict `{}` makes `Substring` throw `ArgumentOutOfRange`. It does not give an empty label list.
- **A 3-D output with three or more outputs and no `task` entry throws nothing.** The task type keeps its current value, which is `""` on a fresh object.
- **The factory names `ObbInferenceStrategyV8`, but the class is declared as `ObbInferenceStrategy`.** The model treats both names as the one obb decoder.

## Model

| member | source | states |
|---|---|---|
| YoloHelper.CalculateBounds | CanCanNeedJJBong.Yolo.Core/YoloHelper.cs:107-116 | the edges are centred on the box centre and are exactly the box's width and height apart |
| YoloHelper.CalculateIntersectionArea | CanCanNeedJJBong.Yolo.Core/YoloHelper.cs:124-137 | the shared area is never negative. It is positive exactly when the boxes overlap strictly on both axes, and then it equals the product of the overlap extents |
| YoloHelper.AreaOfBox | CanCanNeedJJBong.Yolo.Core/YoloHelper.cs:144-147 | the area computed from a box's edges is its width times its height |
| YoloHelper.IntersectionBelowAreas | CanCanNeedJJBong.Yolo.Core/YoloHelper.cs:124-147 | a positive intersection needs positive extents on both boxes, and it is no larger than either box's area |
| YoloHelper.CalcCrossMergeRatio | CanCanNeedJJBong.Yolo.Core/YoloHelper.cs:81-100 | the IoU is NaN exactly when the union area is zero; otherwise it is the intersection divided by the union |
| YoloHelper.ZeroUnionHasNoIntersection | CanCanNeedJJBong.Yolo.Core/YoloHelper.cs:89-99 | a zero union forces a zero intersection, so the unguarded division yields NaN and never an infinity |
| YoloHelper.IouSymmetric | CanCanNeedJJBong.Yolo.Core/YoloHelper.cs:81-100 | IoU does not depend on argument order |
| YoloHelper.IouInUnitInterval | CanCanNeedJJBong.Yolo.Core/YoloHelper.cs:81-100 | for boxes of positive width and height the IoU is defined and lies in [0, 1] |
| YoloHelper.UnitSquaresExample | CanCanNeedJJBong.Yolo.Core/YoloHelper.cs:81-137 | two unit squares offset by half a side have IoU 1/7 |
| YoloHelper.SortDesc | CanCanNeedJJBong.Yolo.Core/YoloHelper.cs:21-26 | the result is a permutation of the input (same multiset) and is non-increasing in the chosen slot |
| YoloHelper.RankConfidenceDegree | CanCanNeedJJBong.Yolo.Core/YoloHelper.cs:11-28 | an empty list is unchanged. Otherwise the result is a permutation of the input, non-increasing by slot 0 when the first payload has length 2 and by slot 4 otherwise |
| YoloHelper.SortDescKeepsSorted | CanCanNeedJJBong.Yolo.Core/YoloHelper.cs:21-26 | a list already non-increasing in the slot comes back unchanged |
| YoloHelper.SortDescDistinct | CanCanNeedJJBong.Yolo.Core/YoloHelper.cs:21-26 | sorting keeps the values of another slot pairwise distinct when they were |
| YoloHelper.Greedy | CanCanNeedJJBong.Yolo.Core/YoloHelper.cs:43-68 | the suppression loop keeps a subsequence of the ranked candidates |
| YoloHelper.GreedyNoOverlap | CanCanNeedJJBong.Yolo.Core/YoloHelper.cs:49-63 | no two kept detections that are compared (any pair under `allIou`, otherwise a pair of the same class) have IoU above the threshold |
| YoloHelper.GreedyKeep | CanCanNeedJJBong.Yolo.Core/YoloHelper.cs:45-67 | there is a keep/drop marking of the ranked candidates that follows the loop's rule: a candidate is kept exactly when no earlier kept candidate suppresses it |
| YoloHelper.GreedyChoiceUnique | CanCanNeedJJBong.Yolo.Core/YoloHelper.cs:45-67 | at most one marking follows that rule, so the rule alone fixes what is kept |
| YoloHelper.GreedyMatchesChoice | CanCanNeedJJBong.Yolo.Core/YoloHelper.cs:45-67 | the suppression loop keeps exactly the candidates that the rule's marking keeps, in order |
| YoloHelper.GreedyMaximal | CanCanNeedJJBong.Yolo.Core/YoloHelper.cs:45-67 | every dropped candidate is suppressed by a kept candidate ranked before it |
| YoloHelper.DroppedByHigher | CanCanNeedJJBong.Yolo.Core/YoloHelper.cs:45-67 | on a ranked list, every dropped candidate is suppressed by a kept one scoring at least as high |
| YoloHelper.GreedyKeepsFirst | CanCanNeedJJBong.Yolo.Core/YoloHelper.cs:45-67 | the first ranked candidate is always kept, and kept first |
| YoloHelper.GreedyKeepsDistinctClasses | CanCanNeedJJBong.Yolo.Core/YoloHelper.cs:52 | without cross-class suppression and with pairwise distinct classes, nothing is dropped |
| YoloHelper.NmsFilter | CanCanNeedJJBong.Yolo.Core/YoloHelper.cs:37-71 | the result is a subsequence of the input ranked by slot 4, so it is sorted and holds only input detections. No kept pair overlaps beyond the threshold, and every dropped candidate is suppressed by a kept one scoring at least as high. A non-empty input gives a non-empty result whose head has the highest score |
| YoloHelper.NmsFilterFollowsRule | CanCanNeedJJBong.Yolo.Core/YoloHelper.cs:37-71 | NMS returns exactly the ranked candidates that the rule's marking keeps |
| YoloHelper.GreedyFour | CanCanNeedJJBong.Yolo.Core/YoloHelper.cs:45-67 | on four ranked candidates where only the second suppresses the third, the loop keeps the first, second and fourth |
| YoloHelper.NmsEarlierSuppressorExample | CanCanNeedJJBong.Yolo.Core/YoloHelper.cs:37-71 | four unit boxes on a line scoring 0.9, 0.8, 0.7 and 0.6, where only the second and third overlap beyond 0.2, give the first, second and fourth. The fourth overlaps the dropped third and is still kept |
| YoloHelper.NmsKeepsDistinctClasses | CanCanNeedJJBong.Yolo.Core/YoloHelper.cs:52 | with `allIou` false and pairwise distinct classes, NMS equals ranking alone |
| Tensors.Column | CanCanNeedJJBong.Yolo.Core/TaskModelStrategy/YoloV8/DetectInferenceStrategyV8.cs:27-53 | in the mid-size layout, channel `c` of position `i` is tensor element [0, c, i] |
| Tensors.Row | CanCanNeedJJBong.Yolo.Core/TaskModelStrategy/YoloV8/DetectInferenceStrategyV8.cs:66-91 | in the flat layout, channel `c` of row `r` is array element `r*d2+c` |
| Tensors.Positions | CanCanNeedJJBong.Yolo.Core/TaskModelStrategy/YoloV8/DetectInferenceStrategyV8.cs:21-68 | there are `d2` positions (the columns) when `d1 < d2`, and `d1` positions (the rows) otherwise |
| Tensors.ScanClasses | CanCanNeedJJBong.Yolo.Core/TaskModelStrategy/YoloV8/DetectInferenceStrategyV8.cs:29-42 | the scan finds no class exactly when no class qualifies with a positive score; otherwise it finds the lowest-indexed class of maximal qualifying score |
| Tensors.BestClass | CanCanNeedJJBong.Yolo.Core/TaskModelStrategy/YoloV8/DetectInferenceStrategyV8.cs:32-42 | the scan's result under the loop bound the source computes, which may be zero or negative |
| Tensors.BestClassUnique | CanCanNeedJJBong.Yolo.Core/TaskModelStrategy/YoloV8/DetectInferenceStrategyV8.cs:34-41 | at most one class is the best class of a position |
| Tensors.BestClassMonotone | CanCanNeedJJBong.Yolo.Core/TaskModelStrategy/YoloV8/DetectInferenceStrategyV8.cs:70-82 | raising the threshold either removes a position's winner or leaves it unchanged |
| Tensors.Winner | CanCanNeedJJBong.Yolo.Core/TaskModelStrategy/YoloV8/DetectInferenceStrategyV8.cs:29-45 | a position yields nothing exactly when no class before the excluded trailing channels is a candidate; otherwise it yields the best class and its score |
| Tensors.WinnerMonotone | CanCanNeedJJBong.Yolo.Core/TaskModelStrategy/YoloV8/DetectInferenceStrategyV8.cs:70-82 | a higher threshold drops a position or keeps its winner |
| Tensors.BoxPayload | CanCanNeedJJBong.Yolo.Core/TaskModelStrategy/YoloV8/DetectInferenceStrategyV8.cs:86-94 | the payload has exactly six slots |
| Tensors.WinnerPayload | CanCanNeedJJBong.Yolo.Core/TaskModelStrategy/YoloV8/DetectInferenceStrategyV8.cs:84-95 | the payload built from a winner holds the position's box channels, the best class's score and that class's index |
| DetectV8.DecodeAt | CanCanNeedJJBong.Yolo.Core/TaskModelStrategy/YoloV8/DetectInferenceStrategyV8.cs:29-57 | a position yields no detection exactly when no class qualifies. Otherwise it yields the box payload of its best class, with the class loop excluding the mask and keypoint widths |
| DetectV8.Candidates | CanCanNeedJJBong.Yolo.Core/TaskModelStrategy/YoloV8/DetectInferenceStrategyV8.cs:21-98 | at most one detection per position. Every detection is a position's box payload under `>=` (mid-size) or `>` (flat), and every position with a qualifying class contributes one |
| DetectV8.ExecuteTask | CanCanNeedJJBong.Yolo.Core/TaskModelStrategy/YoloV8/DetectInferenceStrategyV8.cs:101 | both layouts go through NMS: the output is sorted by score and sound, no kept pair overlaps, and every dropped candidate overlaps a kept one scoring at least as high |
| DetectV8.CandidatesMonotone | CanCanNeedJJBong.Yolo.Core/TaskModelStrategy/YoloV8/DetectInferenceStrategyV8.cs:70-82 | raising the threshold yields a subsequence of the candidates, with identical payloads, and so a sub-multiset of them |
| SegmentV8.DecodeAt | CanCanNeedJJBong.Yolo.Core/TaskModelStrategy/YoloV8/SegmentInferenceStrategyV8.cs:29-67 | the class loop excludes only the mask width. Mask entry `k` is channel `channels - ssw + k` of the same position |
| SegmentV8.Candidates | CanCanNeedJJBong.Yolo.Core/TaskModelStrategy/YoloV8/SegmentInferenceStrategyV8.cs:22-119 | every detection is a position's segment payload under `>=` (mid-size) or `>` (flat), and every position with a qualifying class contributes one |
| SegmentV8.ExecuteTask | CanCanNeedJJBong.Yolo.Core/TaskModelStrategy/YoloV8/SegmentInferenceStrategyV8.cs:70-124 | the mid-size path returns every candidate unfiltered. The flat path returns the NMS result, which is sorted and overlap-free, with every dropped candidate overlapping a kept one scoring at least as high |
| SegmentV8.CandidatesMonotone | CanCanNeedJJBong.Yolo.Core/TaskModelStrategy/YoloV8/SegmentInferenceStrategyV8.cs:84-92 | a higher threshold yields a subsequence of the candidates, and so a sub-multiset of them |
| PoseV8.DecodeAt | CanCanNeedJJBong.Yolo.Core/TaskModelStrategy/YoloV8/PoseInferenceStrategyV8.cs:26-71 | the class loop qualifies with `>=`. The payload is the box payload of the best class, followed by `aw/3` keypoints; keypoint `k` is channels `5+3k`, `6+3k` and `7+3k` of the same position |
| PoseV8.Candidates | CanCanNeedJJBong.Yolo.Core/TaskModelStrategy/YoloV8/PoseInferenceStrategyV8.cs:19-130 | the scan excludes ssw+aw channels on the mid-size path and only aw on the flat path. Detections are sound, and every qualifying position contributes one |
| PoseV8.ExecuteTask | CanCanNeedJJBong.Yolo.Core/TaskModelStrategy/YoloV8/PoseInferenceStrategyV8.cs:58-135 | the run fails with an index error exactly when `aw` is not a multiple of 3 and some position qualifies. Otherwise the mid-size path keeps every candidate, and the flat path applies NMS, with every dropped candidate overlapping a kept one scoring at least as high |
| PoseV8.CandidatesMonotone | CanCanNeedJJBong.Yolo.Core/TaskModelStrategy/YoloV8/PoseInferenceStrategyV8.cs:88-96 | a higher threshold yields a subsequence of the candidates, and so a sub-multiset of them |
| ObbV8.DecodeAt | CanCanNeedJJBong.Yolo.Core/TaskModelStrategy/YoloV8/ObbInferenceStrategy.cs:69-102 | the class loop stops before the last channel. The payload has seven slots, and slot 6 is the last channel (the rotation) |
| ObbV8.ExecuteTask | CanCanNeedJJBong.Yolo.Core/TaskModelStrategy/YoloV8/ObbInferenceStrategy.cs:16-106 | no suppression on either path. Every result is the oriented box of a position, and every qualifying position contributes one |
| ObbV8.ExecuteTaskMonotone | CanCanNeedJJBong.Yolo.Core/TaskModelStrategy/YoloV8/ObbInferenceStrategy.cs:74-82 | a higher threshold yields a subsequence of the results, and so a sub-multiset of them |
| ClassifyV8.Candidates | CanCanNeedJJBong.Yolo.Core/TaskModelStrategy/YoloV8/ClassifyInferenceStrategyV8.cs:15-31 | one `[score, class]` pair per class scoring at least the threshold, none for the others, in increasing class order |
| ClassifyV8.CandidatesMonotone | CanCanNeedJJBong.Yolo.Core/TaskModelStrategy/YoloV8/ClassifyInferenceStrategyV8.cs:15-31 | a higher threshold yields a subsequence, and so a sub-multiset, of the qualifying classes |
| ClassifyV8.ExecuteTask | CanCanNeedJJBong.Yolo.Core/TaskModelStrategy/YoloV8/ClassifyInferenceStrategyV8.cs:11-36 | exactly the qualifying classes, each once (distinct class slots), sorted non-increasingly by score |
| ClassifyV8.Example | CanCanNeedJJBong.Yolo.Core/TaskModelStrategy/YoloV8/ClassifyInferenceStrategyV8.cs:15-35 | scores [0.9, 0.2, 0.6] with threshold 0.5 give [[0.9, 0], [0.6, 2]] |
| Strings.IndexOf | CanCanNeedJJBong.Yolo.Core/Yolo.cs:354 | the first position of the character, or -1 exactly when it is absent |
| Strings.Remove | CanCanNeedJJBong.Yolo.Core/Yolo.cs:345 | the character no longer occurs, the other characters come from the input, and an input without it is unchanged |
| Strings.Split | CanCanNeedJJBong.Yolo.Core/Yolo.cs:348 | at least one piece, no piece holds the separator, and joining the pieces gives the input back |
| Strings.SplitJoin | CanCanNeedJJBong.Yolo.Core/Yolo.cs:348 | splitting undoes joining separator-free pieces |
| Strings.Substring | CanCanNeedJJBong.Yolo.Core/Yolo.cs:356 | fails with `ArgumentOutOfRange` exactly when the range leaves the string; otherwise it returns the `length` characters from `start` |
| Strings.ParseInt32 | CanCanNeedJJBong.Yolo.Core/Yolo.cs:315 | a success is a 32-bit value. A failure is a format error or an overflow, and blank text is a format error |
| Strings.ParseToDecimal | CanCanNeedJJBong.Yolo.Core/Yolo.cs:315 | parsing the decimal text of an integer gives it back when it fits in 32 bits and overflows otherwise |
| Strings.ParseRejectsStrayCharacter | CanCanNeedJJBong.Yolo.Core/Yolo.cs:315 | any character that is not white space, a sign or a digit makes the parse a format error |
| Strings.ParseIgnoresPadding | CanCanNeedJJBong.Yolo.Core/Yolo.cs:315 | leading and trailing white space do not change the parse |
| Strings.ParseSignedExample | CanCanNeedJJBong.Yolo.Core/Yolo.cs:315 | " -12 " parses to -12 |
| Yolo.SetTaskMode | CanCanNeedJJBong.Yolo.Core/Yolo.cs:116-171 | the mode is always one the task type accepts. An accepted value is kept and any other becomes the task's default: 0 for classify, 1 for detect, 3 for segment, 5 for pose, 6 for obb, 1 for anything else |
| Yolo.SetTaskModeIdempotent | CanCanNeedJJBong.Yolo.Core/Yolo.cs:116-171 | assigning the mode the setter produced changes nothing |
| Yolo.ExtractLabel | CanCanNeedJJBong.Yolo.Core/Yolo.cs:354-356 | the label runs from three characters after the first ':' to just before the last character. A piece too short for that fails with `ArgumentOutOfRange` |
| Yolo.ExtractLabels | CanCanNeedJJBong.Yolo.Core/Yolo.cs:350-357 | one label per piece, in order; any piece that cannot be cut fails the whole parse |
| Yolo.SplitLabelSignature | CanCanNeedJJBong.Yolo.Core/Yolo.cs:342-360 | a successful parse has at least one label; the only failure is `ArgumentOutOfRange` |
| Yolo.SplitLabelSignatureRoundTrip | CanCanNeedJJBong.Yolo.Core/Yolo.cs:342-360 | the parser recovers the labels from the `names` text of any non-empty label list whose labels hold no comma or brace |
| Yolo.SplitLabelSignatureExample | CanCanNeedJJBong.Yolo.Core/Yolo.cs:342-360 | `{0: 'a', 1: 'b'}` parses to ["a", "b"] |
| Yolo.SplitLabelSignatureEmptyDict | CanCanNeedJJBong.Yolo.Core/Yolo.cs:342-360 | `{}` fails with `ArgumentOutOfRange` |
| Yolo.FloatRatio | CanCanNeedJJBong.Yolo.Core/Yolo.cs:228-229 | the mask scale ratio is non-finite exactly when the divisor is 0; otherwise it is the exact quotient |
| Yolo.SegmentWidths | CanCanNeedJJBong.Yolo.Core/Yolo.cs:224-229 | mask width `out2[1]`, ratios `out2[3]/in[3]` and `out2[2]/in[2]`. A missing second output is an `ArgumentOutOfRange`, and a short shape is an `IndexOutOfRange` |
| Yolo.PoseWidth | CanCanNeedJJBong.Yolo.Core/Yolo.cs:231-241 | the keypoint width is the smaller of `out[1]` and `out[2]`, less 5 |
| Yolo.ReadTask | CanCanNeedJJBong.Yolo.Core/Yolo.cs:220-275 | the task type is the `task` entry, otherwise classify, detect or segment by output rank and count, otherwise unchanged. The segment and pose fields are derived and nothing else changes. It succeeds exactly when there is a `task` entry or a 2-D or 3-D output, a segment model has a second output and an input of rank at least 4, and a pose model has an output of rank at least 3. Otherwise it throws the unsupported-model error, `ArgumentOutOfRange` for a missing second output, or `IndexOutOfRange` for a short shape |
| Yolo.ReadMetadata | CanCanNeedJJBong.Yolo.Core/Yolo.cs:199-275 | the labels are the parse of `names` (none without it), the version string is `version` ("" without it), and the widths are derived for segment and pose only. It succeeds exactly when there is an output, `names` (if present) parses, and the task stage succeeds. No outputs is `InvalidOperation` |
| Yolo.LoadsWithoutTaskEntry | CanCanNeedJJBong.Yolo.Core/Yolo.cs:243-275 | without a `task` entry, a 2-D output, or a 3-D output with one or with three or more outputs, loads whenever `names` parses: as classify, as detect, or with the task type left empty |
| Yolo.GetModelVersion | CanCanNeedJJBong.Yolo.Core/Yolo.cs:297-335 | the precedence is: classify gives 5; a hint of 8 or more gives 8; a hint from 5 to 7 is kept; a non-empty version string gives the parse of its part before the first '.'. Otherwise the result is 8 exactly when the shape heuristic holds, and 5 otherwise |
| Yolo.VersionFromMetadata | CanCanNeedJJBong.Yolo.Core/Yolo.cs:313-316 | a version string such as "8.1.0" gives its major number |
| Yolo.VersionFromShapeIsFiveOrEight | CanCanNeedJJBong.Yolo.Core/Yolo.cs:318-334 | without a version string or hint, a successful decision is 5 or 8 |
| Yolo.Create | CanCanNeedJJBong.Yolo.Core/Yolo.cs:181-290 | it succeeds exactly when the metadata stage and `GetModelVersion` succeed and the input has rank at least 4. On success the labels, version string, task type, widths and ratios are the metadata stage's, the task mode is the setter's value for 0, the version is `GetModelVersion`'s, and the tensor size is the input's `[3]` and `[2]`. A metadata or version failure propagates its error |
| YoloConfigBuilder.SetModelSession | CanCanNeedJJBong.Yolo.Core/Builder/YoloConfigBuilder.cs:21-40 | a model with no output fails with `InvalidOperation`; otherwise the session is recorded and the config kept |
| YoloConfigBuilder.SetModelMetadata | CanCanNeedJJBong.Yolo.Core/Builder/YoloConfigBuilder.cs:46-119 | it succeeds exactly when `names` (if present) parses, the task stage succeeds and the input has rank at least 4. The labels, version string, task type, segment and pose fields are derived as in the constructor; the tensor size is set whatever the task; other ranks without a `task` entry throw |
| YoloConfigBuilder.SetInferenceParameters | CanCanNeedJJBong.Yolo.Core/Builder/YoloConfigBuilder.cs:128-133 | the task mode goes through the setter and is accepted by the task type. The version is `GetModelVersion`'s, and nothing else changes |
| YoloConfigBuilder.Build | CanCanNeedJJBong.Yolo.Core/Builder/YoloConfigBuilder.cs:21-133 | the chain succeeds exactly when the metadata stage and `GetModelVersion` succeed and the input has rank at least 4. On success the configuration is the metadata stage's, with the setter's task mode, `GetModelVersion`'s version and the input's tensor size |
| YoloConfigBuilder.BuildMatchesConstructor | CanCanNeedJJBong.Yolo.Core/Builder/YoloConfigBuilder.cs:46-214 | for any task mode the builder succeeds exactly when the constructor does, with the same configuration apart from the task mode, which is the setter's value for the given mode. With task mode 0 the configurations are equal |
| StrategyFactory.CreateTaskModelStrategy | CanCanNeedJJBong.Yolo.Core/TaskModelStrategy/TaskModelInferenceStrategyFactory.cs:19-69 | a mode outside 0..6 throws. Only detect mode with a version other than 5, 6 or 8 gives null. Mode 0 is classify, modes 4 and 5 are pose and mode 6 is obb, for every version |
| StrategyFactory.FactoryFollowsTable | CanCanNeedJJBong.Yolo.Core/TaskModelStrategy/TaskModelInferenceStrategyFactory.cs:23-66 | the factory creates a strategy exactly when the per-strategy table says that strategy serves the pair |
| StrategyFactory.SetterModesDispatch | CanCanNeedJJBong.Yolo.Core/TaskModelStrategy/TaskModelInferenceStrategyFactory.cs:23-66 | every mode the `TaskMode` setter produces is handled, and only detect mode can give null |
| StrategyFactory.ExecuteTask | CanCanNeedJJBong.Yolo.Core/TaskModelStrategy/YoloV5/DetectInferenceStrategyV5.cs:12-15 | the V5 and V6 placeholders fail with `NotImplemented`, and only they do. Among the implemented decoders only pose can fail |

## Left out

- ONNX Runtime: session creation, GPU provider selection and `Run` are left out. The decoders take the output tensor, and the loading code takes the shapes and metadata the session reports. A model with no input at all (where `InputNames.First()` throws) is not represented.
- Concurrency: the mid-size paths fill a `ConcurrentBag` from `Parallel.For`, so their output order is unspecified. The model produces position order. The decoders' contracts are stated by membership, and the NMS output's order comes from the sort, not from the bag. The `CandidatesMonotone` and `ExecuteTaskMonotone` lemmas state a subsequence, which holds for the model's position order only; the sub-multiset they also state does not depend on the order.
- Tie order: `List.Sort` is unstable. `SortDesc` is a stable insertion sort, and its contract states only a permutation and the order. Where equal scores meet, the order in which NMS visits them, and so which of two tied overlapping boxes survives, is the stable sort's; `NmsFilter`'s subsequence clause and `NmsFilterFollowsRule` rest on that choice.
- Floating point: single-precision rounding, infinities from overflow and NaN scores are not modelled. Scores and coordinates are `real`. The one NaN the code can produce (IoU with a zero union) is modelled as `None`, and `Yolo.FloatRatio` models a division by zero as `NonFinite`.
- Negative widths: the decoders take the mask and keypoint widths as natural numbers. A pose model whose output has at most five channels gets a negative keypoint width from `Yolo.PoseWidth`, and the decoders' behaviour with it is not modelled.
- SegmentV8.DecodeAt: the mask coefficients go into a 1×32 OpenCV `Mat`, which is not modelled. The model keeps all `ssw` coefficients as a sequence, so a width above 32 (an out-of-bounds write in the source) is not reported as an error.
- PoseV8.ExecuteTask: when `aw` is not a multiple of 3, the source may raise an index error from the tensor read or from the keypoint array. The model reports `IndexOutOfRange` in both cases. On the mid-size path the error is raised inside `Parallel.For`, so the caller receives it wrapped in an `AggregateException`; the model does not distinguish the wrapper.
- StrategyFactory.ExecuteTask: the model does not restate each decoder's output. The decoders' own contracts cover it, and a null strategy is not executed.
- Exception messages and logging: the constructor's `Console.WriteLine` and the exception texts are left out. The builder's and the setters' partial updates before a throw are also left out, because a `Failure` carries no half-built state.
- `YoloConfig.cs` is not part of this model. The builder is assumed to start from the `Yolo` class's field initialisers and to use the same `TaskMode` setter.
- `YoloService.cs` (drawing, coordinate restoring, orchestration), `KalmanFilterAgent.cs`, `Program.cs` and `YoloTask.cs`: rendering, tracking and console I/O.
- Culture-specific number parsing: `int.Parse` is modelled with the invariant culture (white space, one sign, ASCII digits). Trailing NUL characters, thousands separators and currency symbols are not handled.
