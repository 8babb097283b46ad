/** The raw output tensor of a YOLOv8 model and the per-position best-class
    scan that every box decoder shares. */
module Tensors {
  import opened Wrappers

  /** A float tensor of shape [1, d1, d2], flattened in row-major order.
      One of the two trailing axes holds the candidate positions and the
      other the channels of each candidate. */
  datatype Tensor = Tensor(d1: nat, d2: nat, data: seq<real>)

  predicate Valid(t: Tensor) {
    |t.data| == t.d1 * t.d2
  }

  /** The "mid-size" layout: d1 < d2, so d1 counts channels and d2 counts
      candidates; otherwise each of the d1 rows of length d2 is a candidate. */
  predicate MidSize(t: Tensor) {
    t.d1 < t.d2
  }

  lemma MulLe(a: nat, b: nat, c: nat)
    requires a <= b
    ensures a * c <= b * c
  {
  }

  /** Element (c, i) of a [d1, d2] tensor lies at c * d2 + i. */
  lemma CellInRange(t: Tensor, c: nat, i: nat)
    requires Valid(t) && c < t.d1 && i < t.d2
    ensures c * t.d2 + i < |t.data|
  {
    MulLe(c + 1, t.d1, t.d2);
  }

  /** The tensor element [0, c, i]. */
  function Cell(t: Tensor, c: nat, i: nat): real
    requires Valid(t) && c < t.d1 && i < t.d2
  {
    CellInRange(t, c, i);
    t.data[c * t.d2 + i]
  }

  /** Mid-size layout: the channels of candidate `i`; channel `c` is the
      tensor element [0, c, i]. */
  function Column(t: Tensor, i: nat): (col: seq<real>)
    requires Valid(t) && i < t.d2
    ensures |col| == t.d1
    ensures forall c :: 0 <= c < t.d1 ==> col[c] == Cell(t, c, i)
  {
    seq(t.d1, c requires 0 <= c < t.d1 => Cell(t, c, i))
  }

  /** Flat layout: the channels of candidate row `r`; channel `c` is the
      array element r * d2 + c. */
  function Row(t: Tensor, r: nat): (row: seq<real>)
    requires Valid(t) && r < t.d1
    ensures |row| == t.d2
    ensures forall c :: 0 <= c < t.d2 ==> r * t.d2 + c < |t.data| && row[c] == t.data[r * t.d2 + c]
  {
    MulLe(r + 1, t.d1, t.d2);
    t.data[r * t.d2 .. r * t.d2 + t.d2]
  }

  /** The candidate positions of a tensor in loop order, each given as its
      sequence of channels. */
  function Positions(t: Tensor): (ps: seq<seq<real>>)
    requires Valid(t)
    ensures MidSize(t) ==> |ps| == t.d2 && forall i :: 0 <= i < t.d2 ==> ps[i] == Column(t, i)
    ensures !MidSize(t) ==> |ps| == t.d1 && forall r :: 0 <= r < t.d1 ==> ps[r] == Row(t, r)
  {
    if MidSize(t) then seq(t.d2, i requires 0 <= i < t.d2 => Column(t, i))
    else seq(t.d1, r requires 0 <= r < t.d1 => Row(t, r))
  }

  /** The two threshold tests found in the decoders: `score >= threshold`
      and `score > threshold`. */
  datatype Cmp = AtLeast | Above

  predicate Qualifies(score: real, threshold: real, cmp: Cmp) {
    match cmp
    case AtLeast => score >= threshold
    case Above => score > threshold
  }

  /** The score of class `j`: channel 4 + j (channels 0..3 hold the box). */
  function ClassScore(row: seq<real>, j: nat): real
    requires 4 + j < |row|
  {
    row[4 + j]
  }

  /** Class `j` can win the scan: it passes the threshold and beats the
      running maximum's initial value 0. */
  predicate Candidate(row: seq<real>, j: nat, threshold: real, cmp: Cmp)
    requires 4 + j < |row|
  {
    Qualifies(ClassScore(row, j), threshold, cmp) && ClassScore(row, j) > 0.0
  }

  /** Class `k` is the lowest-indexed class among the first `n` whose score
      is maximal among the candidate classes. */
  predicate IsBestClass(row: seq<real>, n: nat, threshold: real, cmp: Cmp, k: int)
    requires 4 + n <= |row|
  {
    && 0 <= k < n
    && Candidate(row, k, threshold, cmp)
    && (forall j :: 0 <= j < n && Candidate(row, j, threshold, cmp) ==> ClassScore(row, j) <= ClassScore(row, k))
    && (forall j :: 0 <= j < k && Candidate(row, j, threshold, cmp) ==> ClassScore(row, j) < ClassScore(row, k))
  }

  /** The running maximum of the scan and its index (-1 when none). */
  datatype Best = Best(score: real, index: int)

  /** The class scan of the decoders after its first `n` iterations: the
      running maximum starts at 0 with index -1 and is replaced only by a
      qualifying score strictly above it. */
  function ScanClasses(row: seq<real>, n: nat, threshold: real, cmp: Cmp): (b: Best)
    requires 4 + n <= |row|
    ensures b.index == -1 <==> forall j :: 0 <= j < n ==> !Candidate(row, j, threshold, cmp)
    ensures b.index == -1 ==> b.score == 0.0
    ensures b.index != -1 ==> IsBestClass(row, n, threshold, cmp, b.index) && b.score == ClassScore(row, b.index)
    decreases n
  {
    if n == 0 then Best(0.0, -1)
    else
      var b := ScanClasses(row, n - 1, threshold, cmp);
      var c := row[4 + n - 1];
      if Qualifies(c, threshold, cmp) && b.score < c then
        ScanNewBest(row, n, threshold, cmp, b);
        Best(c, n - 1)
      else
        b
  }

  /** A qualifying score strictly above the running maximum of the first
      n - 1 iterations makes class n - 1 the best of the first n. */
  lemma ScanNewBest(row: seq<real>, n: nat, threshold: real, cmp: Cmp, b: Best)
    requires 1 <= n && 4 + n <= |row|
    requires b.index == -1 ==> b.score == 0.0 && forall j :: 0 <= j < n - 1 ==> !Candidate(row, j, threshold, cmp)
    requires b.index != -1 ==> IsBestClass(row, n - 1, threshold, cmp, b.index) && b.score == ClassScore(row, b.index)
    requires Qualifies(ClassScore(row, n - 1), threshold, cmp) && b.score < ClassScore(row, n - 1)
    ensures IsBestClass(row, n, threshold, cmp, n - 1)
  {
    if b.index != -1 {
      assert 0.0 < ClassScore(row, b.index);
    }
  }

  /** The scan with the loop bound as the source computes it, which may be
      zero or negative (then no iteration runs). */
  function BestClass(row: seq<real>, bound: int, threshold: real, cmp: Cmp): (b: Best)
    requires bound <= 0 || 4 + bound <= |row|
    ensures b.index == -1 <==> forall j :: 0 <= j < bound ==> !Candidate(row, j, threshold, cmp)
    ensures b.index != -1 ==> 0 < bound && IsBestClass(row, bound, threshold, cmp, b.index) && b.score == ClassScore(row, b.index)
  {
    if bound <= 0 then Best(0.0, -1) else ScanClasses(row, bound, threshold, cmp)
  }

  /** At most one class is the best. */
  lemma BestClassUnique(row: seq<real>, n: nat, threshold: real, cmp: Cmp, k1: int, k2: int)
    requires 4 + n <= |row|
    requires IsBestClass(row, n, threshold, cmp, k1) && IsBestClass(row, n, threshold, cmp, k2)
    ensures k1 == k2
  {
  }

  /** Raising the threshold either removes the winner of a position or
      leaves it (class and score) unchanged. */
  lemma BestClassMonotone(row: seq<real>, bound: int, t1: real, t2: real, cmp: Cmp)
    requires bound <= 0 || 4 + bound <= |row|
    requires t1 <= t2
    ensures var b2 := BestClass(row, bound, t2, cmp);
      b2.index == -1 || b2 == BestClass(row, bound, t1, cmp)
  {
    var b1 := BestClass(row, bound, t1, cmp);
    var b2 := BestClass(row, bound, t2, cmp);
    if b2.index != -1 {
      var n: nat := bound;
      var k2 := b2.index;
      assert Candidate(row, k2, t1, cmp);
      assert b1.index != -1;
      var k1 := b1.index;
      assert ClassScore(row, k2) <= ClassScore(row, k1);
      assert Candidate(row, k1, t2, cmp);
      assert IsBestClass(row, n, t2, cmp, k1) by {
        forall j | 0 <= j < n && Candidate(row, j, t2, cmp)
          ensures ClassScore(row, j) <= ClassScore(row, k1)
        {
          assert Candidate(row, j, t1, cmp);
        }
        forall j | 0 <= j < k1 && Candidate(row, j, t2, cmp)
          ensures ClassScore(row, j) < ClassScore(row, k1)
        {
          assert Candidate(row, j, t1, cmp);
        }
      }
      BestClassUnique(row, n, t2, cmp, k1, k2);
    }
  }

  /** The scan of one position as the decoders run it: the class loop stops
      `shrink` channels before the end of the row (mask or keypoint channels,
      or the rotation channel), and the position yields nothing when the
      running index is still -1 afterwards. */
  function Winner(row: seq<real>, shrink: nat, threshold: real, cmp: Cmp): (w: Option<Best>)
    ensures w.None? <==> forall j :: 0 <= j < |row| - 4 - shrink ==> !Candidate(row, j, threshold, cmp)
    ensures w.Some? ==>
      && 4 + shrink < |row|
      && IsBestClass(row, |row| - 4 - shrink, threshold, cmp, w.value.index)
      && w.value.score == ClassScore(row, w.value.index)
  {
    var b := BestClass(row, |row| - 4 - shrink, threshold, cmp);
    if b.index == -1 then None else Some(b)
  }

  /** Raising the threshold either drops a position or leaves its winner
      unchanged. */
  lemma WinnerMonotone(row: seq<real>, shrink: nat, t1: real, t2: real, cmp: Cmp)
    requires t1 <= t2
    ensures Winner(row, shrink, t2, cmp).None? || Winner(row, shrink, t2, cmp) == Winner(row, shrink, t1, cmp)
  {
    BestClassMonotone(row, |row| - 4 - shrink, t1, t2, cmp);
  }

  /** The shared box payload: channels 0..3 of the position, the winning
      score and the winning class index. */
  function BoxPayload(row: seq<real>, b: Best): (p: seq<real>)
    requires 4 <= |row| && b.index >= 0
    ensures |p| == 6
  {
    row[..4] + [b.score, b.index as real]
  }

  /** `p` starts with the box payload of `row` for a class loop stopping
      `shrink` channels early: the box channels, then the score and the
      index of the best class. */
  predicate BoxPayloadOf(p: seq<real>, row: seq<real>, shrink: nat, threshold: real, cmp: Cmp) {
    && 4 + shrink < |row|
    && |p| >= 6
    && p[..4] == row[..4]
    && p[5] == p[5].Floor as real
    && IsBestClass(row, |row| - 4 - shrink, threshold, cmp, p[5].Floor)
    && p[4] == ClassScore(row, p[5].Floor)
  }

  /** The payload built from a winner is the box payload of its position. */
  lemma WinnerPayload(row: seq<real>, shrink: nat, threshold: real, cmp: Cmp)
    requires Winner(row, shrink, threshold, cmp).Some?
    ensures BoxPayloadOf(BoxPayload(row, Winner(row, shrink, threshold, cmp).value), row, shrink, threshold, cmp)
  {
    var b := Winner(row, shrink, threshold, cmp).value;
    assert (b.index as real).Floor == b.index;
  }
}
