/** Confidence ranking, intersection-over-union and greedy non-maximum
    suppression over box payloads (`YoloHelper`). */
module YoloHelper {
  import opened Wrappers
  import opened Sequences
  import opened YoloData

  // ---------------------------------------------------------------------
  // Box geometry
  // ---------------------------------------------------------------------

  /** The [left, top, right, bottom] edges of a box. */
  datatype Bounds = Bounds(left: real, top: real, right: real, bottom: real)

  function Max(a: real, b: real): real { if a >= b then a else b }
  function Min(a: real, b: real): real { if a <= b then a else b }

  /** Edges of the box whose centre is (rect[0], rect[1]) and whose width and
      height are rect[2] and rect[3]: centre plus or minus half the size. */
  function CalculateBounds(rect: seq<real>): (b: Bounds)
    requires |rect| >= 4
    ensures b.right - b.left == rect[2] && b.bottom - b.top == rect[3]
    ensures b.left + b.right == 2.0 * rect[0] && b.top + b.bottom == 2.0 * rect[1]
  {
    Bounds(rect[0] - rect[2] / 2.0, rect[1] - rect[3] / 2.0,
           rect[0] + rect[2] / 2.0, rect[1] + rect[3] / 2.0)
  }

  /** The boxes overlap with positive extent on both axes. */
  predicate StrictOverlap(b1: Bounds, b2: Bounds) {
    Max(b1.left, b2.left) < Min(b1.right, b2.right) && Max(b1.top, b2.top) < Min(b1.bottom, b2.bottom)
  }

  /** Area shared by two boxes: zero unless they overlap strictly on both
      axes, otherwise the product of the two overlap extents. */
  function CalculateIntersectionArea(b1: Bounds, b2: Bounds): (a: real)
    ensures a >= 0.0
    ensures a > 0.0 <==> StrictOverlap(b1, b2)
    ensures StrictOverlap(b1, b2) ==>
      a == (Min(b1.right, b2.right) - Max(b1.left, b2.left)) * (Min(b1.bottom, b2.bottom) - Max(b1.top, b2.top))
  {
    var leftBoundary := Max(b1.left, b2.left);
    var topBoundary := Max(b1.top, b2.top);
    var rightBoundary := Min(b1.right, b2.right);
    var bottomBoundary := Min(b1.bottom, b2.bottom);
    if leftBoundary < rightBoundary && topBoundary < bottomBoundary then
      (rightBoundary - leftBoundary) * (bottomBoundary - topBoundary)
    else
      0.0
  }

  /** Area enclosed by a set of edges (negative when exactly one extent is). */
  function CalculateArea(b: Bounds): real {
    (b.right - b.left) * (b.bottom - b.top)
  }

  /** The union area used as the IoU denominator. */
  function UnionArea(rect1: seq<real>, rect2: seq<real>): real
    requires |rect1| >= 4 && |rect2| >= 4
  {
    var b1 := CalculateBounds(rect1);
    var b2 := CalculateBounds(rect2);
    CalculateArea(b1) + CalculateArea(b2) - CalculateIntersectionArea(b1, b2)
  }

  /** Intersection over union of two centre/size boxes. The source divides
      without a guard; a zero union can only come with a zero intersection
      (`ZeroUnionHasNoIntersection`), so the float result is then 0/0 = NaN,
      which is `None` here. */
  function CalcCrossMergeRatio(rect1: seq<real>, rect2: seq<real>): (iou: Option<real>)
    requires |rect1| >= 4 && |rect2| >= 4
    ensures iou.None? <==> UnionArea(rect1, rect2) == 0.0
    ensures iou.Some? ==>
      iou.value * UnionArea(rect1, rect2) == CalculateIntersectionArea(CalculateBounds(rect1), CalculateBounds(rect2))
  {
    var rect1Bounds := CalculateBounds(rect1);
    var rect2Bounds := CalculateBounds(rect2);
    var intersectionArea := CalculateIntersectionArea(rect1Bounds, rect2Bounds);
    var unionArea := CalculateArea(rect1Bounds) + CalculateArea(rect2Bounds) - intersectionArea;
    if unionArea == 0.0 then None else Some(intersectionArea / unionArea)
  }

  /** The float comparison `iou > threshold`; any comparison with NaN is false. */
  predicate Exceeds(iou: Option<real>, threshold: real) {
    iou.Some? && iou.value > threshold
  }

  /** The area of a box computed from its edges is width times height. */
  lemma AreaOfBox(rect: seq<real>)
    requires |rect| >= 4
    ensures CalculateArea(CalculateBounds(rect)) == rect[2] * rect[3]
  {
    var b := CalculateBounds(rect);
    assert b.right - b.left == rect[2];
    assert b.bottom - b.top == rect[3];
  }

  lemma MulMono(a: real, b: real, c: real)
    requires 0.0 <= a <= b && 0.0 <= c
    ensures a * c <= b * c
  {
  }

  lemma QuotientAtMostOne(a: real, b: real)
    requires 0.0 <= a <= b && 0.0 < b
    ensures 0.0 <= a / b <= 1.0
  {
    var q := a / b;
    assert q * b == a;
  }

  /** A positive intersection needs both boxes to have positive extents, and
      is at most the area of each. */
  lemma IntersectionBelowAreas(b1: Bounds, b2: Bounds)
    requires StrictOverlap(b1, b2)
    ensures b1.left < b1.right && b1.top < b1.bottom
    ensures b2.left < b2.right && b2.top < b2.bottom
    ensures CalculateIntersectionArea(b1, b2) <= CalculateArea(b1)
    ensures CalculateIntersectionArea(b1, b2) <= CalculateArea(b2)
  {
    var ow := Min(b1.right, b2.right) - Max(b1.left, b2.left);
    var oh := Min(b1.bottom, b2.bottom) - Max(b1.top, b2.top);
    MulMono(ow, b1.right - b1.left, oh);
    MulMono(oh, b1.bottom - b1.top, b1.right - b1.left);
    assert oh * (b1.right - b1.left) == (b1.right - b1.left) * oh;
    MulMono(ow, b2.right - b2.left, oh);
    MulMono(oh, b2.bottom - b2.top, b2.right - b2.left);
    assert oh * (b2.right - b2.left) == (b2.right - b2.left) * oh;
  }

  /** A zero union forces a zero intersection, whatever the signs of the
      sizes: the unguarded division yields NaN, never an infinity. */
  lemma ZeroUnionHasNoIntersection(rect1: seq<real>, rect2: seq<real>)
    requires |rect1| >= 4 && |rect2| >= 4
    requires UnionArea(rect1, rect2) == 0.0
    ensures CalculateIntersectionArea(CalculateBounds(rect1), CalculateBounds(rect2)) == 0.0
  {
    var b1 := CalculateBounds(rect1);
    var b2 := CalculateBounds(rect2);
    if StrictOverlap(b1, b2) {
      IntersectionBelowAreas(b1, b2);
      assert false;
    }
  }

  /** IoU does not depend on the order of its arguments. */
  lemma IouSymmetric(rect1: seq<real>, rect2: seq<real>)
    requires |rect1| >= 4 && |rect2| >= 4
    ensures CalcCrossMergeRatio(rect1, rect2) == CalcCrossMergeRatio(rect2, rect1)
  {
    var b1 := CalculateBounds(rect1);
    var b2 := CalculateBounds(rect2);
    assert CalculateIntersectionArea(b1, b2) == CalculateIntersectionArea(b2, b1);
  }

  /** For boxes with positive width and height the IoU is defined and lies
      in [0, 1]. */
  lemma IouInUnitInterval(rect1: seq<real>, rect2: seq<real>)
    requires |rect1| >= 4 && |rect2| >= 4
    requires rect1[2] > 0.0 && rect1[3] > 0.0 && rect2[2] > 0.0 && rect2[3] > 0.0
    ensures CalcCrossMergeRatio(rect1, rect2).Some?
    ensures 0.0 <= CalcCrossMergeRatio(rect1, rect2).value <= 1.0
  {
    var b1 := CalculateBounds(rect1);
    var b2 := CalculateBounds(rect2);
    var inter := CalculateIntersectionArea(b1, b2);
    AreaOfBox(rect1);
    AreaOfBox(rect2);
    var a1 := CalculateArea(b1);
    var a2 := CalculateArea(b2);
    assert a1 > 0.0 && a2 > 0.0;
    if StrictOverlap(b1, b2) {
      IntersectionBelowAreas(b1, b2);
    }
    assert inter <= a1 && inter <= a2;
    var union := a1 + a2 - inter;
    assert union >= a2 > 0.0;
    assert 0.0 <= inter <= union;
    QuotientAtMostOne(inter, union);
  }

  /** Two unit squares centred at (0,0) and (0.5,0.5) overlap with IoU 1/7. */
  lemma UnitSquaresExample()
    ensures CalcCrossMergeRatio([0.0, 0.0, 1.0, 1.0], [0.5, 0.5, 1.0, 1.0]) == Some(1.0 / 7.0)
  {
    var b1 := CalculateBounds([0.0, 0.0, 1.0, 1.0]);
    var b2 := CalculateBounds([0.5, 0.5, 1.0, 1.0]);
    assert CalculateIntersectionArea(b1, b2) == 0.25;
    assert (0.25 / 1.75) == 1.0 / 7.0;
  }

  // ---------------------------------------------------------------------
  // Confidence ranking
  // ---------------------------------------------------------------------

  /** Non-increasing by payload slot `slot`. */
  predicate SortedDesc(s: seq<Detection>, slot: nat)
    requires HasSlot(s, slot)
  {
    forall i, j :: 0 <= i < j < |s| ==> s[j].basic[slot] <= s[i].basic[slot]
  }

  /** The payload slot `slot` takes pairwise distinct values. */
  predicate DistinctAt(s: seq<Detection>, slot: nat)
    requires HasSlot(s, slot)
  {
    forall i, j :: 0 <= i < j < |s| ==> s[i].basic[slot] != s[j].basic[slot]
  }

  lemma SameElements(a: seq<Detection>, b: seq<Detection>)
    requires multiset(a) == multiset(b)
    ensures forall x :: x in a <==> x in b
  {
    forall x ensures x in a <==> x in b {
      assert x in a <==> x in multiset(a);
      assert x in b <==> x in multiset(b);
    }
  }

  lemma ConsSorted(h: Detection, t: seq<Detection>, slot: nat)
    requires slot < |h.basic| && HasSlot(t, slot) && SortedDesc(t, slot)
    requires forall y :: y in t ==> y.basic[slot] <= h.basic[slot]
    ensures HasSlot([h] + t, slot) && SortedDesc([h] + t, slot)
  {
    var r := [h] + t;
    forall i, j | 0 <= i < j < |r| ensures r[j].basic[slot] <= r[i].basic[slot] {
      assert r[j] == t[j - 1];
      if i > 0 {
        assert r[i] == t[i - 1];
      }
    }
  }

  lemma SortedHeadIsMax(s: seq<Detection>, slot: nat)
    requires HasSlot(s, slot) && SortedDesc(s, slot) && |s| > 0
    ensures forall y :: y in s ==> y.basic[slot] <= s[0].basic[slot]
  {
    forall y | y in s ensures y.basic[slot] <= s[0].basic[slot] {
      var k :| 0 <= k < |s| && s[k] == y;
    }
  }

  /** Places `x` in front of the first element of `s` whose key does not
      exceed its own. */
  function Insert(x: Detection, s: seq<Detection>, slot: nat): (r: seq<Detection>)
    requires slot < |x.basic| && HasSlot(s, slot) && SortedDesc(s, slot)
    ensures multiset(r) == multiset(s) + multiset{x}
    ensures HasSlot(r, slot) && SortedDesc(r, slot)
    decreases |s|
  {
    if |s| == 0 then [x]
    else if s[0].basic[slot] <= x.basic[slot] then
      SortedHeadIsMax(s, slot);
      ConsSorted(x, s, slot);
      [x] + s
    else
      assert s == [s[0]] + s[1..];
      var rest := Insert(x, s[1..], slot);
      InsertBelowHead(x, s, slot, rest);
      ConsSorted(s[0], rest, slot);
      [s[0]] + rest
  }

  lemma InsertBelowHead(x: Detection, s: seq<Detection>, slot: nat, rest: seq<Detection>)
    requires slot < |x.basic| && HasSlot(s, slot) && SortedDesc(s, slot) && |s| > 0
    requires x.basic[slot] < s[0].basic[slot]
    requires multiset(rest) == multiset(s[1..]) + multiset{x} && HasSlot(rest, slot)
    ensures forall y :: y in rest ==> y.basic[slot] <= s[0].basic[slot]
  {
    SortedHeadIsMax(s, slot);
    SameElements(rest, s[1..] + [x]);
    forall y | y in rest ensures y.basic[slot] <= s[0].basic[slot] {
      if y != x {
        assert y in s[1..];
        var k :| 0 <= k < |s[1..]| && s[1..][k] == y;
        assert s[k + 1] == y;
      }
    }
  }

  /** An insertion sort, non-increasing by payload slot `slot`. */
  function SortDesc(xs: seq<Detection>, slot: nat): (r: seq<Detection>)
    requires HasSlot(xs, slot)
    ensures multiset(r) == multiset(xs) && |r| == |xs|
    ensures HasSlot(r, slot) && SortedDesc(r, slot)
    ensures forall d :: d in r <==> d in xs
    decreases |xs|
  {
    if |xs| == 0 then []
    else
      assert xs == [xs[0]] + xs[1..];
      var rest := SortDesc(xs[1..], slot);
      var r := Insert(xs[0], rest, slot);
      assert |multiset(r)| == |xs|;
      SameElements(r, xs);
      r
  }

  /** A list already ranked by `slot` comes back unchanged. */
  lemma {:induction false} SortDescKeepsSorted(xs: seq<Detection>, slot: nat)
    requires HasSlot(xs, slot) && SortedDesc(xs, slot)
    ensures SortDesc(xs, slot) == xs
    decreases |xs|
  {
    if |xs| > 0 {
      var rest := xs[1..];
      assert HasSlot(rest, slot) && SortedDesc(rest, slot);
      SortDescKeepsSorted(rest, slot);
      assert xs == [xs[0]] + rest;
    }
  }

  /** The confidence slot the source reads: slot 0 when the first payload
      is a classification pair, slot 4 otherwise. */
  function ConfidenceSlot(data: seq<Detection>): nat
    requires |data| > 0
  {
    if |data[0].basic| == 2 then 0 else 4
  }

  /** Sorts a list of detections by confidence, highest first. An empty list
      is returned unchanged; the order of equal confidences is not fixed by
      the source (its sort is unstable), this model keeps input order. */
  function RankConfidenceDegree(data: seq<Detection>): (r: seq<Detection>)
    requires |data| == 0 || HasSlot(data, ConfidenceSlot(data))
    ensures multiset(r) == multiset(data) && |r| == |data|
    ensures |data| == 0 ==> r == data
    ensures |data| > 0 ==> HasSlot(r, ConfidenceSlot(data)) && SortedDesc(r, ConfidenceSlot(data))
  {
    if |data| == 0 then data
    else SortDesc(data, ConfidenceSlot(data))
  }

  lemma {:induction false} InsertDistinct(x: Detection, s: seq<Detection>, slot: nat, dslot: nat)
    requires slot < |x.basic| && HasSlot(s, slot) && SortedDesc(s, slot)
    requires dslot < |x.basic| && HasSlot(s, dslot) && DistinctAt(s, dslot)
    requires forall y :: y in s ==> y.basic[dslot] != x.basic[dslot]
    ensures HasSlot(Insert(x, s, slot), dslot) && DistinctAt(Insert(x, s, slot), dslot)
    decreases |s|
  {
    var r := Insert(x, s, slot);
    SameElements(r, s + [x]);
    if |s| == 0 {
    } else if s[0].basic[slot] <= x.basic[slot] {
    } else {
      var rest := Insert(x, s[1..], slot);
      InsertDistinct(x, s[1..], slot, dslot);
      SameElements(rest, s[1..] + [x]);
      assert r == [s[0]] + rest;
      forall y | y in rest ensures y.basic[dslot] != s[0].basic[dslot] {
        if y != x {
          assert y in s[1..];
          var k :| 0 <= k < |s[1..]| && s[1..][k] == y;
          assert s[k + 1] == y;
        }
      }
      ConsDistinct(s[0], rest, dslot);
    }
  }

  /** A head whose slot value differs from every one in a distinct tail
      keeps the list distinct. */
  lemma ConsDistinct(h: Detection, rest: seq<Detection>, dslot: nat)
    requires dslot < |h.basic| && HasSlot(rest, dslot) && DistinctAt(rest, dslot)
    requires forall y :: y in rest ==> y.basic[dslot] != h.basic[dslot]
    ensures HasSlot([h] + rest, dslot) && DistinctAt([h] + rest, dslot)
  {
    var r := [h] + rest;
    forall i, j | 0 <= i < j < |r| ensures r[i].basic[dslot] != r[j].basic[dslot] {
      if i == 0 {
        assert r[j] == rest[j - 1];
        assert r[j] in rest;
      } else {
        assert r[i] == rest[i - 1] && r[j] == rest[j - 1];
      }
    }
  }

  /** Sorting keeps the values of a slot pairwise distinct. */
  lemma {:induction false} SortDescDistinct(xs: seq<Detection>, slot: nat, dslot: nat)
    requires HasSlot(xs, slot) && HasSlot(xs, dslot) && DistinctAt(xs, dslot)
    ensures HasSlot(SortDesc(xs, slot), dslot) && DistinctAt(SortDesc(xs, slot), dslot)
    decreases |xs|
  {
    var r := SortDesc(xs, slot);
    SameElements(r, xs);
    if |xs| > 0 {
      var tail := xs[1..];
      SortDescDistinct(tail, slot, dslot);
      var rest := SortDesc(tail, slot);
      SameElements(rest, tail);
      forall y | y in rest ensures y.basic[dslot] != xs[0].basic[dslot] {
        var k :| 0 <= k < |tail| && tail[k] == y;
        assert xs[k + 1] == y;
      }
      InsertDistinct(xs[0], rest, slot, dslot);
    }
  }

  // ---------------------------------------------------------------------
  // Non-maximum suppression
  // ---------------------------------------------------------------------

  /** Kept detection `k` suppresses candidate `d`: they are compared (every
      pair when `allIou`, otherwise only equal class indices) and the IoU of
      the candidate with the kept box exceeds the threshold. */
  predicate Suppresses(k: Detection, d: Detection, iouThreshold: real, allIou: bool)
    requires HasBox(k) && HasBox(d)
  {
    (allIou || ClassOf(d) == ClassOf(k))
    && Exceeds(CalcCrossMergeRatio(d.basic, k.basic), iouThreshold)
  }

  /** Some already kept detection suppresses `d`. */
  predicate SuppressedBy(d: Detection, kept: seq<Detection>, iouThreshold: real, allIou: bool)
    requires HasBox(d) && BoxPayloads(kept)
  {
    exists k :: k in kept && Suppresses(k, d, iouThreshold, allIou)
  }

  /** A kept detection scoring at least as high as `d` suppresses it: the
      loop visits candidates best first, so only such a detection can have
      been kept before `d`. */
  predicate SuppressedByHigher(d: Detection, kept: seq<Detection>, iouThreshold: real, allIou: bool)
    requires HasBox(d) && BoxPayloads(kept)
  {
    exists k :: k in kept && Score(d) <= Score(k) && Suppresses(k, d, iouThreshold, allIou)
  }

  /** No two distinct positions of `r` suppress one another. */
  predicate NoOverlappingPair(r: seq<Detection>, iouThreshold: real, allIou: bool)
    requires BoxPayloads(r)
  {
    forall i, j :: 0 <= i < |r| && 0 <= j < |r| && i != j ==> !Suppresses(r[i], r[j], iouThreshold, allIou)
  }

  /** The suppression loop over an already ranked list: each candidate in
      turn is kept unless a detection kept before it suppresses it. Written
      as a recursion on prefixes, so `Greedy(xs[..n])` is the result list
      after the loop has seen `n` candidates. */
  function Greedy(xs: seq<Detection>, iouThreshold: real, allIou: bool): (r: seq<Detection>)
    requires BoxPayloads(xs)
    ensures BoxPayloads(r)
    ensures Subsequence(r, xs)
    decreases |xs|
  {
    if |xs| == 0 then []
    else
      var n := |xs| - 1;
      assert xs == xs[..n] + [xs[n]];
      var kept := Greedy(xs[..n], iouThreshold, allIou);
      SubsequenceMembers(kept, xs[..n]);
      var d := xs[n];
      if SuppressedBy(d, kept, iouThreshold, allIou) then
        SubsequenceExtend(kept, xs[..n], d);
        kept
      else
        SubsequenceAppend(kept, xs[..n], d);
        kept + [d]
  }

  lemma SuppressesSymmetric(a: Detection, b: Detection, iouThreshold: real, allIou: bool)
    requires HasBox(a) && HasBox(b)
    ensures Suppresses(a, b, iouThreshold, allIou) <==> Suppresses(b, a, iouThreshold, allIou)
  {
    IouSymmetric(a.basic, b.basic);
  }

  /** Kept detections never suppress one another. */
  lemma {:induction false} GreedyNoOverlap(xs: seq<Detection>, iouThreshold: real, allIou: bool)
    requires BoxPayloads(xs)
    ensures NoOverlappingPair(Greedy(xs, iouThreshold, allIou), iouThreshold, allIou)
    decreases |xs|
  {
    if |xs| > 0 {
      var n := |xs| - 1;
      var kept := Greedy(xs[..n], iouThreshold, allIou);
      GreedyNoOverlap(xs[..n], iouThreshold, allIou);
      var d := xs[n];
      if !SuppressedBy(d, kept, iouThreshold, allIou) {
        var r := kept + [d];
        assert Greedy(xs, iouThreshold, allIou) == r;
        forall i, j | 0 <= i < |r| && 0 <= j < |r| && i != j
          ensures !Suppresses(r[i], r[j], iouThreshold, allIou)
        {
          if j == |kept| {
            assert r[i] in kept;
          } else if i == |kept| {
            assert r[j] in kept;
            SuppressesSymmetric(r[i], r[j], iouThreshold, allIou);
          } else {
            assert r[i] == kept[i] && r[j] == kept[j];
          }
        }
      }
    }
  }

  /** One step of the loop: candidate `xs[n]` is appended to the result
      exactly when no kept detection suppresses it. */
  lemma GreedyStep(xs: seq<Detection>, iouThreshold: real, allIou: bool)
    requires BoxPayloads(xs) && |xs| > 0
    ensures var kept := Greedy(xs[..|xs| - 1], iouThreshold, allIou);
      Greedy(xs, iouThreshold, allIou)
        == if SuppressedBy(xs[|xs| - 1], kept, iouThreshold, allIou) then kept else kept + [xs[|xs| - 1]]
  {
  }

  /** The prefix property of the loop: the result after `n` candidates is
      a prefix of the final result. */
  lemma {:induction false} GreedyPrefix(xs: seq<Detection>, n: nat, iouThreshold: real, allIou: bool)
    requires BoxPayloads(xs) && n <= |xs|
    ensures Greedy(xs[..n], iouThreshold, allIou) <= Greedy(xs, iouThreshold, allIou)
    decreases |xs| - n
  {
    if n == |xs| {
      assert xs[..n] == xs;
    } else {
      var m := |xs| - 1;
      assert xs[..m][..n] == xs[..n];
      GreedyPrefix(xs[..m], n, iouThreshold, allIou);
      GreedyStep(xs, iouThreshold, allIou);
      var kept := Greedy(xs[..m], iouThreshold, allIou);
      assert kept <= kept + [xs[m]];
    }
  }

  /** No marked position before `j` suppresses the candidate at `j`. */
  predicate Survives(xs: seq<Detection>, keep: seq<bool>, j: nat, iouThreshold: real, allIou: bool)
    requires BoxPayloads(xs) && |keep| == |xs| && j < |xs|
  {
    forall i :: 0 <= i < j && keep[i] ==> !Suppresses(xs[i], xs[j], iouThreshold, allIou)
  }

  /** A reference for the suppression loop, written per position: `keep`
      marks the positions of `xs` that survive, and position `j` survives
      exactly when no surviving position before it suppresses it. */
  predicate GreedyChoice(xs: seq<Detection>, keep: seq<bool>, iouThreshold: real, allIou: bool)
    requires BoxPayloads(xs)
  {
    && |keep| == |xs|
    && forall j {:trigger Survives(xs, keep, j, iouThreshold, allIou)} :: 0 <= j < |xs| ==>
         (keep[j] <==> Survives(xs, keep, j, iouThreshold, allIou))
  }

  /** Whether a position survives depends only on the positions before it. */
  lemma SurvivesPrefix(xs: seq<Detection>, keep: seq<bool>, n: nat, j: nat, iouThreshold: real, allIou: bool)
    requires BoxPayloads(xs) && |keep| == |xs| && j < n <= |xs|
    ensures Survives(xs[..n], keep[..n], j, iouThreshold, allIou) <==> Survives(xs, keep, j, iouThreshold, allIou)
  {
    assert forall i :: 0 <= i <= j ==> keep[..n][i] == keep[i] && xs[..n][i] == xs[i];
  }

  /** The entries of `xs` at the marked positions, in order. */
  function Select(xs: seq<Detection>, keep: seq<bool>): (r: seq<Detection>)
    requires |keep| == |xs|
    ensures forall k :: k in r <==> exists i :: 0 <= i < |xs| && keep[i] && xs[i] == k
    decreases |xs|
  {
    if |xs| == 0 then []
    else
      var n := |xs| - 1;
      var r := Select(xs[..n], keep[..n]) + (if keep[n] then [xs[n]] else []);
      assert forall i :: 0 <= i < n ==> xs[..n][i] == xs[i] && keep[..n][i] == keep[i];
      r
  }

  /** The rule on a non-empty list is the rule on all but its last
      position, plus the rule at the last position. */
  lemma GreedyChoiceSnoc(xs: seq<Detection>, keep: seq<bool>, iouThreshold: real, allIou: bool)
    requires BoxPayloads(xs) && |xs| > 0 && |keep| == |xs|
    ensures var n := |xs| - 1;
      GreedyChoice(xs, keep, iouThreshold, allIou) <==>
        GreedyChoice(xs[..n], keep[..n], iouThreshold, allIou)
        && (keep[n] <==> Survives(xs, keep, n, iouThreshold, allIou))
  {
    var n := |xs| - 1;
    if GreedyChoice(xs, keep, iouThreshold, allIou) {
      forall j | 0 <= j < n
        ensures keep[..n][j] <==> Survives(xs[..n], keep[..n], j, iouThreshold, allIou)
      {
        SurvivesPrefix(xs, keep, n, j, iouThreshold, allIou);
        assert keep[j] <==> Survives(xs, keep, j, iouThreshold, allIou);
      }
    }
    if GreedyChoice(xs[..n], keep[..n], iouThreshold, allIou) && (keep[n] <==> Survives(xs, keep, n, iouThreshold, allIou)) {
      forall j | 0 <= j < |xs|
        ensures keep[j] <==> Survives(xs, keep, j, iouThreshold, allIou)
      {
        if j < n {
          SurvivesPrefix(xs, keep, n, j, iouThreshold, allIou);
          assert keep[..n][j] <==> Survives(xs[..n], keep[..n], j, iouThreshold, allIou);
        }
      }
    }
  }

  /** A choice that follows the rule on `xs` follows it on every prefix. */
  lemma {:induction false} GreedyChoicePrefix(xs: seq<Detection>, keep: seq<bool>, n: nat, iouThreshold: real, allIou: bool)
    requires BoxPayloads(xs) && GreedyChoice(xs, keep, iouThreshold, allIou) && n <= |xs|
    ensures GreedyChoice(xs[..n], keep[..n], iouThreshold, allIou)
    decreases |xs| - n
  {
    if n == |xs| {
      assert xs[..n] == xs && keep[..n] == keep;
    } else {
      var m := |xs| - 1;
      GreedyChoiceSnoc(xs, keep, iouThreshold, allIou);
      assert xs[..m][..n] == xs[..n] && keep[..m][..n] == keep[..n];
      GreedyChoicePrefix(xs[..m], keep[..m], n, iouThreshold, allIou);
    }
  }

  /** A choice following the rule exists: the marks the loop makes. */
  function GreedyKeep(xs: seq<Detection>, iouThreshold: real, allIou: bool): (keep: seq<bool>)
    requires BoxPayloads(xs)
    ensures GreedyChoice(xs, keep, iouThreshold, allIou)
    decreases |xs|
  {
    if |xs| == 0 then []
    else
      var n := |xs| - 1;
      var prev := GreedyKeep(xs[..n], iouThreshold, allIou);
      var b := forall i :: 0 <= i < n && prev[i] ==> !Suppresses(xs[i], xs[n], iouThreshold, allIou);
      var keep := prev + [b];
      assert keep[..n] == prev;
      assert b <==> Survives(xs, keep, n, iouThreshold, allIou) by {
        assert forall i :: 0 <= i < n ==> keep[i] == prev[i];
      }
      GreedyChoiceSnoc(xs, keep, iouThreshold, allIou);
      keep
  }

  /** At most one choice follows the rule. */
  lemma {:induction false} GreedyChoiceUnique(xs: seq<Detection>, k1: seq<bool>, k2: seq<bool>,
                                              iouThreshold: real, allIou: bool)
    requires BoxPayloads(xs)
    requires GreedyChoice(xs, k1, iouThreshold, allIou) && GreedyChoice(xs, k2, iouThreshold, allIou)
    ensures k1 == k2
    decreases |xs|
  {
    if |xs| > 0 {
      var n := |xs| - 1;
      var p := xs[..n];
      assert BoxPayloads(p);
      GreedyChoiceSnoc(xs, k1, iouThreshold, allIou);
      GreedyChoiceSnoc(xs, k2, iouThreshold, allIou);
      assert GreedyChoice(p, k1[..n], iouThreshold, allIou) && GreedyChoice(p, k2[..n], iouThreshold, allIou);
      GreedyChoiceUnique(p, k1[..n], k2[..n], iouThreshold, allIou);
      SurvivesSameMarks(xs, k1, k2, n, iouThreshold, allIou);
      assert k1[n] == k2[n];
      assert k1 == k1[..n] + [k1[n]] && k2 == k2[..n] + [k2[n]];
    }
  }

  /** Survival at `j` reads only the marks before `j`. */
  lemma SurvivesSameMarks(xs: seq<Detection>, k1: seq<bool>, k2: seq<bool>, j: nat, iouThreshold: real, allIou: bool)
    requires BoxPayloads(xs) && |k1| == |xs| && |k2| == |xs| && j < |xs| && k1[..j] == k2[..j]
    ensures Survives(xs, k1, j, iouThreshold, allIou) <==> Survives(xs, k2, j, iouThreshold, allIou)
  {
    assert forall i :: 0 <= i < j ==> k1[i] == k1[..j][i] == k2[..j][i] == k2[i];
  }

  /** Selecting from a non-empty list: the selection from all but the last
      position, then the last entry when it is marked. */
  lemma SelectSnoc(xs: seq<Detection>, keep: seq<bool>)
    requires |keep| == |xs| && |xs| > 0
    ensures Select(xs, keep) == Select(xs[..|xs| - 1], keep[..|xs| - 1]) + (if keep[|xs| - 1] then [xs[|xs| - 1]] else [])
  {
  }

  /** The loop keeps exactly the positions the rule marks. */
  lemma {:induction false} GreedyMatchesChoice(xs: seq<Detection>, keep: seq<bool>, iouThreshold: real, allIou: bool)
    requires BoxPayloads(xs) && GreedyChoice(xs, keep, iouThreshold, allIou)
    ensures Greedy(xs, iouThreshold, allIou) == Select(xs, keep)
    decreases |xs|
  {
    if |xs| > 0 {
      var n := |xs| - 1;
      GreedyChoiceSnoc(xs, keep, iouThreshold, allIou);
      GreedyMatchesChoice(xs[..n], keep[..n], iouThreshold, allIou);
      var kept := Greedy(xs[..n], iouThreshold, allIou);
      GreedyStep(xs, iouThreshold, allIou);
      KeptSuppressors(xs, keep, kept, iouThreshold, allIou);
      SelectSnoc(xs, keep);
    }
  }

  /** The last candidate is suppressed by the loop's result on the others
      exactly when the rule does not mark it. */
  lemma KeptSuppressors(xs: seq<Detection>, keep: seq<bool>, kept: seq<Detection>, iouThreshold: real, allIou: bool)
    requires BoxPayloads(xs) && |xs| > 0 && |keep| == |xs|
    requires keep[|xs| - 1] <==> Survives(xs, keep, |xs| - 1, iouThreshold, allIou)
    requires BoxPayloads(kept) && kept == Select(xs[..|xs| - 1], keep[..|xs| - 1])
    ensures keep[|xs| - 1] <==> !SuppressedBy(xs[|xs| - 1], kept, iouThreshold, allIou)
  {
    var n := |xs| - 1;
    assert forall i :: 0 <= i < n ==> keep[..n][i] == keep[i] && xs[..n][i] == xs[i];
    if SuppressedBy(xs[n], kept, iouThreshold, allIou) {
      var k :| k in kept && Suppresses(k, xs[n], iouThreshold, allIou);
      var i :| 0 <= i < n && keep[..n][i] && xs[..n][i] == k;
      assert !Survives(xs, keep, n, iouThreshold, allIou);
    } else {
      forall i | 0 <= i < n && keep[i] ensures !Suppresses(xs[i], xs[n], iouThreshold, allIou) {
        assert xs[i] in kept;
      }
      assert Survives(xs, keep, n, iouThreshold, allIou);
    }
  }

  /** Every dropped candidate is suppressed by a kept candidate that comes
      before it in the ranked input. */
  lemma GreedyMaximal(xs: seq<Detection>, iouThreshold: real, allIou: bool)
    requires BoxPayloads(xs)
    ensures var r := Greedy(xs, iouThreshold, allIou);
      forall j :: 0 <= j < |xs| && xs[j] !in r ==>
        exists i :: 0 <= i < j && xs[i] in r && Suppresses(xs[i], xs[j], iouThreshold, allIou)
  {
    var keep := GreedyKeep(xs, iouThreshold, allIou);
    GreedyMatchesChoice(xs, keep, iouThreshold, allIou);
    var r := Greedy(xs, iouThreshold, allIou);
    forall j | 0 <= j < |xs| && xs[j] !in r
      ensures exists i :: 0 <= i < j && xs[i] in r && Suppresses(xs[i], xs[j], iouThreshold, allIou)
    {
      assert keep[j] <==> Survives(xs, keep, j, iouThreshold, allIou);
      assert !keep[j];
      var i :| 0 <= i < j && keep[i] && Suppresses(xs[i], xs[j], iouThreshold, allIou);
      assert xs[i] in r;
    }
  }

  /** The first candidate is always kept. */
  lemma {:induction false} GreedyKeepsFirst(xs: seq<Detection>, iouThreshold: real, allIou: bool)
    requires BoxPayloads(xs) && |xs| > 0
    ensures |Greedy(xs, iouThreshold, allIou)| > 0 && Greedy(xs, iouThreshold, allIou)[0] == xs[0]
    decreases |xs|
  {
    var n := |xs| - 1;
    if n == 0 {
      assert Greedy(xs[..n], iouThreshold, allIou) == [];
    } else {
      GreedyKeepsFirst(xs[..n], iouThreshold, allIou);
    }
  }

  /** Without cross-class suppression and with pairwise distinct class
      indices, nothing is dropped. */
  lemma {:induction false} GreedyKeepsDistinctClasses(xs: seq<Detection>, iouThreshold: real)
    requires BoxPayloads(xs) && HasSlot(xs, 5) && DistinctAt(xs, 5)
    ensures Greedy(xs, iouThreshold, false) == xs
    decreases |xs|
  {
    if |xs| > 0 {
      var n := |xs| - 1;
      GreedyKeepsDistinctClasses(xs[..n], iouThreshold);
      var d := xs[n];
      forall k | k in xs[..n] ensures !Suppresses(k, d, iouThreshold, false) {
        var i :| 0 <= i < n && xs[..n][i] == k;
        assert xs[i] == k;
      }
      assert xs[..n] + [d] == xs;
    }
  }

  /** Subsequences of a sorted list are sorted. */
  lemma {:induction false} SubsequenceSorted(a: seq<Detection>, b: seq<Detection>, slot: nat)
    requires Subsequence(a, b) && HasSlot(b, slot) && SortedDesc(b, slot)
    ensures HasSlot(a, slot) && SortedDesc(a, slot)
    decreases |b|
  {
    SubsequenceMembers(a, b);
    if |a| > 0 && |b| > 0 {
      var m := |b| - 1;
      assert HasSlot(b[..m], slot) && SortedDesc(b[..m], slot);
      if a[|a| - 1] == b[m] && Subsequence(a[..|a| - 1], b[..m]) {
        var a' := a[..|a| - 1];
        SubsequenceSorted(a', b[..m], slot);
        SubsequenceMembers(a', b[..m]);
        forall i, j | 0 <= i < j < |a| ensures a[j].basic[slot] <= a[i].basic[slot] {
          if j == |a| - 1 {
            assert a[i] == a'[i];
            assert a'[i] in a';
            var k :| 0 <= k < m && b[..m][k] == a[i];
            assert b[k] == a[i];
          } else {
            assert a[i] == a'[i] && a[j] == a'[j];
          }
        }
      } else {
        SubsequenceSorted(a, b[..m], slot);
      }
    }
  }

  /** Ranks the candidates by confidence and suppresses overlapping ones
      greedily. The result keeps the ranked order, is sorted by confidence,
      holds no pair that would suppress one another, drops a candidate only
      when a kept one scoring at least as high suppresses it, and starts
      with a highest-confidence candidate. */
  function NmsFilter(filterDataList: seq<Detection>, iouThreshold: real, allIou: bool): (r: seq<Detection>)
    requires BoxPayloads(filterDataList)
    ensures BoxPayloads(r) && HasSlot(r, 4)
    // The order among equal scores is the stable sort's; the source's
    // sort leaves it unspecified (see "Tie order" in the README).
    ensures Subsequence(r, SortDesc(filterDataList, 4))
    ensures forall d :: d in r ==> d in filterDataList
    ensures SortedDesc(r, 4)
    ensures NoOverlappingPair(r, iouThreshold, allIou)
    ensures forall x :: x in filterDataList && x !in r ==> SuppressedByHigher(x, r, iouThreshold, allIou)
    ensures |filterDataList| > 0 ==>
      |r| > 0 && forall d :: d in filterDataList ==> Score(d) <= Score(r[0])
  {
    var ranked := RankConfidenceDegree(filterDataList);
    assert |filterDataList| > 0 ==> filterDataList[0] in filterDataList;
    assert ranked == SortDesc(filterDataList, 4);
    SameElements(ranked, filterDataList);
    var r := Greedy(ranked, iouThreshold, allIou);
    SubsequenceSorted(r, ranked, 4);
    SubsequenceMembers(r, ranked);
    GreedyNoOverlap(ranked, iouThreshold, allIou);
    DroppedByHigher(filterDataList, ranked, r, iouThreshold, allIou);
    HeadIsHighest(filterDataList, ranked, r, iouThreshold, allIou);
    r
  }

  /** In a list ranked by score, a suppressor that comes earlier scores at
      least as high. */
  lemma DroppedByHigher(xs: seq<Detection>, ranked: seq<Detection>, r: seq<Detection>, iouThreshold: real, allIou: bool)
    requires BoxPayloads(xs) && BoxPayloads(ranked) && ranked == SortDesc(xs, 4)
    requires r == Greedy(ranked, iouThreshold, allIou)
    ensures forall x :: x in xs && x !in r ==> SuppressedByHigher(x, r, iouThreshold, allIou)
  {
    SameElements(ranked, xs);
    GreedyMaximal(ranked, iouThreshold, allIou);
    forall x | x in xs && x !in r ensures SuppressedByHigher(x, r, iouThreshold, allIou) {
      var j :| 0 <= j < |ranked| && ranked[j] == x;
      var i :| 0 <= i < j && ranked[i] in r && Suppresses(ranked[i], ranked[j], iouThreshold, allIou);
      assert Score(x) <= Score(ranked[i]);
    }
  }

  /** The suppression filter keeps exactly the ranked positions the
      per-position rule marks. */
  lemma NmsFilterFollowsRule(xs: seq<Detection>, keep: seq<bool>, iouThreshold: real, allIou: bool)
    requires BoxPayloads(xs)
    requires GreedyChoice(SortDesc(xs, 4), keep, iouThreshold, allIou)
    ensures NmsFilter(xs, iouThreshold, allIou) == Select(SortDesc(xs, 4), keep)
  {
    var ranked := SortDesc(xs, 4);
    assert RankConfidenceDegree(xs) == ranked by {
      assert |xs| > 0 ==> xs[0] in xs;
    }
    GreedyMatchesChoice(ranked, keep, iouThreshold, allIou);
  }

  lemma HeadIsHighest(xs: seq<Detection>, ranked: seq<Detection>, r: seq<Detection>, iouThreshold: real, allIou: bool)
    requires BoxPayloads(xs) && BoxPayloads(ranked) && ranked == SortDesc(xs, 4)
    requires r == Greedy(ranked, iouThreshold, allIou)
    ensures |xs| > 0 ==> |r| > 0 && forall d :: d in xs ==> Score(d) <= Score(r[0])
  {
    if |xs| > 0 {
      SameElements(ranked, xs);
      GreedyKeepsFirst(ranked, iouThreshold, allIou);
      forall d | d in xs ensures Score(d) <= Score(r[0]) {
        var k :| 0 <= k < |ranked| && ranked[k] == d;
      }
    }
  }

  /** Without cross-class suppression, candidates of pairwise distinct
      classes all survive: the result is the ranked input. */
  lemma NmsKeepsDistinctClasses(xs: seq<Detection>, iouThreshold: real)
    requires BoxPayloads(xs) && HasSlot(xs, 5) && DistinctAt(xs, 5)
    ensures NmsFilter(xs, iouThreshold, false) == RankConfidenceDegree(xs)
  {
    SortDescDistinct(xs, 4, 5);
    var ranked := SortDesc(xs, 4);
    SameElements(ranked, xs);
    GreedyKeepsDistinctClasses(ranked, iouThreshold);
  }
  /** The loop on one more candidate. */
  lemma GreedySnoc(xs: seq<Detection>, x: Detection, iouThreshold: real, allIou: bool)
    requires BoxPayloads(xs) && HasBox(x)
    ensures var kept := Greedy(xs, iouThreshold, allIou);
      Greedy(xs + [x], iouThreshold, allIou)
        == if SuppressedBy(x, kept, iouThreshold, allIou) then kept else kept + [x]
  {
    assert (xs + [x])[..|xs|] == xs;
  }

  /** A unit box of class 0 centred at (x, 0) with confidence `score`. */
  function UnitBox(x: real, score: real): (d: Detection)
    ensures HasBox(d)
  {
    Detection([x, 0.0, 1.0, 1.0, score, 0.0], None, None)
  }

  /** IoU of two unit boxes on the x axis: 0.25 at distance 0.6, zero at
      distance 1.2 or more. */
  lemma UnitBoxesOnLine(x1: real, s1: real, x2: real, s2: real)
    requires x2 - x1 == 0.6 || x2 - x1 >= 1.2 || x1 - x2 >= 1.2
    ensures CalcCrossMergeRatio(UnitBox(x2, s2).basic, UnitBox(x1, s1).basic) ==
      if x2 - x1 == 0.6 then Some(0.25) else Some(0.0)
  {
    var b1 := CalculateBounds(UnitBox(x1, s1).basic);
    var b2 := CalculateBounds(UnitBox(x2, s2).basic);
    if x2 - x1 == 0.6 {
      assert CalculateIntersectionArea(b2, b1) == 0.4;
      assert 0.4 / 1.6 == 0.25;
    } else {
      assert CalculateIntersectionArea(b2, b1) == 0.0;
    }
  }

  /** Four ranked candidates where only C overlaps an earlier kept one
      (B): the loop drops C and keeps D, whatever C and D have in common. */
  lemma GreedyFour(a: Detection, b: Detection, c: Detection, d: Detection, iouThreshold: real, allIou: bool)
    requires HasBox(a) && HasBox(b) && HasBox(c) && HasBox(d)
    requires !Suppresses(a, b, iouThreshold, allIou) && Suppresses(b, c, iouThreshold, allIou)
    requires !Suppresses(a, d, iouThreshold, allIou) && !Suppresses(b, d, iouThreshold, allIou)
    ensures Greedy([a, b, c, d], iouThreshold, allIou) == [a, b, d]
  {
    GreedySnoc([], a, iouThreshold, allIou);
    assert [] + [a] == [a];
    GreedySnoc([a], b, iouThreshold, allIou);
    assert [a] + [b] == [a, b];
    GreedySnoc([a, b], c, iouThreshold, allIou);
    assert [a, b] + [c] == [a, b, c];
    GreedySnoc([a, b, c], d, iouThreshold, allIou);
    assert [a, b, c] + [d] == [a, b, c, d];
  }

  /** The four boxes of the example below and their overlaps. */
  lemma LineOfFourOverlaps()
    ensures !Suppresses(UnitBox(100.0, 0.9), UnitBox(0.0, 0.8), 0.2, false)
    ensures Suppresses(UnitBox(0.0, 0.8), UnitBox(0.6, 0.7), 0.2, false)
    ensures !Suppresses(UnitBox(100.0, 0.9), UnitBox(1.2, 0.6), 0.2, false)
    ensures !Suppresses(UnitBox(0.0, 0.8), UnitBox(1.2, 0.6), 0.2, false)
  {
    UnitBoxesOnLine(100.0, 0.9, 0.0, 0.8);
    UnitBoxesOnLine(0.0, 0.8, 0.6, 0.7);
    UnitBoxesOnLine(100.0, 0.9, 1.2, 0.6);
    UnitBoxesOnLine(0.0, 0.8, 1.2, 0.6);
  }

  /** Four unit boxes on a line, ranked A, B, C, D, where C overlaps B and
      D (IoU 0.25 each) and no other pair overlaps. At threshold 0.2 C is
      dropped because the earlier B suppresses it, and D survives although
      the dropped C would have suppressed it. */
  lemma NmsEarlierSuppressorExample()
    ensures NmsFilter([UnitBox(100.0, 0.9), UnitBox(0.0, 0.8), UnitBox(0.6, 0.7), UnitBox(1.2, 0.6)], 0.2, false)
         == [UnitBox(100.0, 0.9), UnitBox(0.0, 0.8), UnitBox(1.2, 0.6)]
  {
    LineOfFourRanked();
    LineOfFourOverlaps();
    GreedyFour(UnitBox(100.0, 0.9), UnitBox(0.0, 0.8), UnitBox(0.6, 0.7), UnitBox(1.2, 0.6), 0.2, false);
  }

  /** The four boxes of the example are already ranked. */
  lemma LineOfFourRanked()
    ensures var xs := [UnitBox(100.0, 0.9), UnitBox(0.0, 0.8), UnitBox(0.6, 0.7), UnitBox(1.2, 0.6)];
      RankConfidenceDegree(xs) == xs
  {
    RankedFour(UnitBox(100.0, 0.9), UnitBox(0.0, 0.8), UnitBox(0.6, 0.7), UnitBox(1.2, 0.6));
  }

  /** Four boxes given in non-increasing score order come back unchanged. */
  lemma RankedFour(a: Detection, b: Detection, c: Detection, d: Detection)
    requires HasBox(a) && HasBox(b) && HasBox(c) && HasBox(d)
    requires Score(b) <= Score(a) && Score(c) <= Score(b) && Score(d) <= Score(c)
    ensures RankConfidenceDegree([a, b, c, d]) == [a, b, c, d]
  {
    var xs := [a, b, c, d];
    assert HasSlot(xs, 4) by {
      forall y | y in xs ensures 4 < |y.basic| {
        assert y == a || y == b || y == c || y == d;
      }
    }
    assert SortedDesc(xs, 4) by {
      forall i, j | 0 <= i < j < 4 ensures xs[j].basic[4] <= xs[i].basic[4] {
        assert Score(xs[j]) <= Score(xs[i]);
      }
    }
    SortDescKeepsSorted(xs, 4);
    assert ConfidenceSlot(xs) == 4;
  }
}
