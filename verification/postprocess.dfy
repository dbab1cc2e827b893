/** Post-processing of the detector's raw output: keep the columns whose
    confidence reaches the threshold, sort them by confidence (a stable,
    descending sort), run greedy non-max suppression, and return the most
    confident survivor. */
module PostProcess {
  import opened Base
  import opened Geometry

  /** The interpreter's output, shaped [1][5][N]: in `raw[0]`, rows 0 to 3
      hold centre x, centre y, width and height, and row 4 the confidence
      of each of the N candidate columns. */
  type Tensor = seq<seq<seq<real>>>

  // ---------------------------------------------------------------------
  // Reading the candidate columns
  // ---------------------------------------------------------------------

  /** Every column of `rows` that the filter loop visits can be read: its
      confidence exists, and when that passes the threshold so do its four
      box coordinates. */
  predicate Readable(rows: seq<seq<real>>, confThreshold: real) {
    && |rows| >= 5
    && |rows[0]| <= |rows[4]|
    && forall i :: 0 <= i < |rows[0]| && rows[4][i] >= confThreshold ==>
         i < |rows[1]| && i < |rows[2]| && i < |rows[3]|
  }

  /** Column i is visited and passes the confidence threshold. */
  predicate IsCandidate(rows: seq<seq<real>>, confThreshold: real, i: int)
    requires Readable(rows, confThreshold)
  {
    0 <= i < |rows[0]| && rows[4][i] >= confThreshold
  }

  function Column(rows: seq<seq<real>>, confThreshold: real, i: int): DetectionResult
    requires Readable(rows, confThreshold) && IsCandidate(rows, confThreshold, i)
  {
    DetectionResult(rows[0][i], rows[1][i], rows[2][i], rows[3][i], rows[4][i])
  }

  /** The candidates among the first n columns, in column order. */
  function Candidates(rows: seq<seq<real>>, confThreshold: real, n: nat): (c: seq<DetectionResult>)
    requires Readable(rows, confThreshold) && n <= |rows[0]|
    ensures forall k :: 0 <= k < |c| ==> c[k].confidence >= confThreshold
    ensures |c| <= n
    decreases n
  {
    if n == 0 then []
    else
      var c := Candidates(rows, confThreshold, n - 1);
      if rows[4][n - 1] >= confThreshold then c + [Column(rows, confThreshold, n - 1)] else c
  }

  /** The candidates are exactly the passing columns, in column order:
      `idx` lists the passing column numbers in increasing order, and the
      k-th candidate is the column numbered idx[k]. */
  lemma {:induction false} CandidatesInColumnOrder(rows: seq<seq<real>>, confThreshold: real, n: nat)
    returns (idx: seq<int>)
    requires Readable(rows, confThreshold) && n <= |rows[0]|
    ensures |idx| == |Candidates(rows, confThreshold, n)|
    ensures forall k :: 0 <= k < |idx| ==>
      && 0 <= idx[k] < n && IsCandidate(rows, confThreshold, idx[k])
      && Candidates(rows, confThreshold, n)[k] == Column(rows, confThreshold, idx[k])
    ensures forall k, j :: 0 <= k < j < |idx| ==> idx[k] < idx[j]
    ensures forall i :: 0 <= i < n && IsCandidate(rows, confThreshold, i) ==> i in idx
    decreases n
  {
    if n == 0 {
      idx := [];
    } else {
      var prev := CandidatesInColumnOrder(rows, confThreshold, n - 1);
      var before := Candidates(rows, confThreshold, n - 1);
      if IsCandidate(rows, confThreshold, n - 1) {
        idx := prev + [n - 1];
        assert Candidates(rows, confThreshold, n) == before + [Column(rows, confThreshold, n - 1)];
        assert forall k :: 0 <= k < |prev| ==> idx[k] == prev[k];
        forall i | 0 <= i < n && IsCandidate(rows, confThreshold, i)
          ensures i in idx
        {
          if i < n - 1 {
            var k :| 0 <= k < |prev| && prev[k] == i;
            assert idx[k] == i;
          } else {
            assert idx[|prev|] == i;
          }
        }
      } else {
        assert Candidates(rows, confThreshold, n) == before;
        idx := prev;
      }
    }
  }

  // ---------------------------------------------------------------------
  // The most confident column, by a single scan
  // ---------------------------------------------------------------------

  /** Column i is a candidate of greatest confidence among the first n
      columns, and no earlier candidate has that confidence. */
  predicate IsBestColumn(rows: seq<seq<real>>, confThreshold: real, n: nat, i: int)
    requires Readable(rows, confThreshold) && n <= |rows[0]|
  {
    && 0 <= i < n
    && IsCandidate(rows, confThreshold, i)
    && (forall j :: 0 <= j < n && IsCandidate(rows, confThreshold, j) ==> rows[4][j] <= rows[4][i])
    && (forall j :: 0 <= j < i && IsCandidate(rows, confThreshold, j) ==> rows[4][j] < rows[4][i])
  }

  /** Reference definition: scan the first n columns left to right and keep
      the index of the first candidate of greatest confidence. */
  function BestIndex(rows: seq<seq<real>>, confThreshold: real, n: nat): (r: Option<int>)
    requires Readable(rows, confThreshold) && n <= |rows[0]|
    ensures r.Some? ==> 0 <= r.value < n && IsCandidate(rows, confThreshold, r.value)
    decreases n
  {
    if n == 0 then None
    else
      var prev := BestIndex(rows, confThreshold, n - 1);
      if !IsCandidate(rows, confThreshold, n - 1) then prev
      else if prev.None? || rows[4][prev.value] < rows[4][n - 1] then Some(n - 1)
      else prev
  }

  /** The scan finds nothing exactly when no column passes the threshold,
      and otherwise finds the first column of greatest confidence. */
  lemma {:induction false} BestIndexIsBest(rows: seq<seq<real>>, confThreshold: real, n: nat)
    requires Readable(rows, confThreshold) && n <= |rows[0]|
    ensures var r := BestIndex(rows, confThreshold, n);
      && (r.None? <==> forall i :: 0 <= i < n ==> !IsCandidate(rows, confThreshold, i))
      && (r.Some? ==> IsBestColumn(rows, confThreshold, n, r.value))
    decreases n
  {
    if n > 0 {
      BestIndexIsBest(rows, confThreshold, n - 1);
    }
  }

  /** The detection read from the column `BestIndex` picks. */
  function BestColumn(rows: seq<seq<real>>, confThreshold: real, n: nat): Option<DetectionResult>
    requires Readable(rows, confThreshold) && n <= |rows[0]|
  {
    var b := BestIndex(rows, confThreshold, n);
    if b.None? then None else Some(Column(rows, confThreshold, b.value))
  }

  // ---------------------------------------------------------------------
  // Stable descending sort
  // ---------------------------------------------------------------------

  predicate SortedByConfidence(s: seq<DetectionResult>) {
    forall i, j :: 0 <= i < j < |s| ==> s[i].confidence >= s[j].confidence
  }

  /** No element of s is more confident than c. */
  predicate AllAtMost(s: seq<DetectionResult>, c: real) {
    forall k :: 0 <= k < |s| ==> s[k].confidence <= c
  }

  /** Inserts d ahead of every element whose confidence is not greater, so
      that d, which came first in the input, stays ahead of its ties. */
  function InsertByConfidence(d: DetectionResult, s: seq<DetectionResult>): (r: seq<DetectionResult>)
    ensures multiset(r) == multiset(s) + multiset{d}
    ensures |r| == |s| + 1
    decreases |s|
  {
    if |s| == 0 || s[0].confidence <= d.confidence then [d] + s
    else
      assert s == [s[0]] + s[1..];
      [s[0]] + InsertByConfidence(d, s[1..])
  }

  lemma {:induction false} InsertKeepsBound(d: DetectionResult, s: seq<DetectionResult>, c: real)
    requires AllAtMost(s, c) && d.confidence <= c
    ensures AllAtMost(InsertByConfidence(d, s), c)
    decreases |s|
  {
    if |s| > 0 && s[0].confidence > d.confidence {
      InsertKeepsBound(d, s[1..], c);
    }
  }

  lemma {:induction false} InsertKeepsSorted(d: DetectionResult, s: seq<DetectionResult>)
    requires SortedByConfidence(s)
    ensures SortedByConfidence(InsertByConfidence(d, s))
    decreases |s|
  {
    if |s| > 0 && s[0].confidence > d.confidence {
      InsertKeepsSorted(d, s[1..]);
      InsertKeepsBound(d, s[1..], s[0].confidence);
    }
  }

  /** `sortByDescending { it.confidence }`: a stable insertion sort. */
  function SortByConfidence(s: seq<DetectionResult>): (r: seq<DetectionResult>)
    ensures SortedByConfidence(r)
    ensures multiset(r) == multiset(s)
    ensures |r| == |s|
    decreases |s|
  {
    if |s| == 0 then []
    else
      assert s == [s[0]] + s[1..];
      var t := SortByConfidence(s[1..]);
      InsertKeepsSorted(s[0], t);
      InsertByConfidence(s[0], t)
  }

  /** Nothing in a sorted sequence is more confident than its head. */
  lemma BelowSortedHead(t: seq<DetectionResult>, x: DetectionResult)
    requires SortedByConfidence(t) && x in multiset(t)
    ensures x.confidence <= t[0].confidence
  {
    var m :| 0 <= m < |t| && t[m] == x;
    if m > 0 {
      assert t[0].confidence >= t[m].confidence;
    }
  }

  // ---------------------------------------------------------------------
  // maxByOrNull { it.confidence }
  // ---------------------------------------------------------------------

  /** s[k] has the greatest confidence in s, and every element before it
      has a strictly smaller one. */
  predicate IsFirstMaxAt(s: seq<DetectionResult>, k: int) {
    && 0 <= k < |s|
    && (forall j :: 0 <= j < |s| ==> s[j].confidence <= s[k].confidence)
    && (forall j :: 0 <= j < k ==> s[j].confidence < s[k].confidence)
  }

  /** The fold inside `maxByOrNull`: the index of the running maximum,
      replaced only by a strictly greater confidence. */
  function RunningMaxIndex(s: seq<DetectionResult>): (k: int)
    requires |s| > 0
    ensures IsFirstMaxAt(s, k)
    decreases |s|
  {
    if |s| == 1 then 0
    else
      var p := s[..|s| - 1];
      var k := RunningMaxIndex(p);
      assert forall j :: 0 <= j < |p| ==> p[j] == s[j];
      if s[k].confidence < s[|s| - 1].confidence then |s| - 1 else k
  }

  /** `maxByOrNull`: null on an empty list, otherwise the first element of
      greatest confidence. */
  function MaxByConfidence(s: seq<DetectionResult>): (m: Option<DetectionResult>)
    ensures m.None? <==> |s| == 0
    ensures m.Some? ==> exists k :: IsFirstMaxAt(s, k) && s[k] == m.value
  {
    if |s| == 0 then None else Some(s[RunningMaxIndex(s)])
  }

  /** There is only one first maximum. */
  lemma FirstMaxUnique(s: seq<DetectionResult>, k1: int, k2: int)
    requires IsFirstMaxAt(s, k1) && IsFirstMaxAt(s, k2)
    ensures k1 == k2
  {
    assert s[k1].confidence <= s[k2].confidence && s[k2].confidence <= s[k1].confidence;
  }

  /** The head of the stable sort is the first maximum of its input. */
  lemma {:induction false} SortHeadIsFirstMax(s: seq<DetectionResult>) returns (k: int)
    requires |s| > 0
    ensures IsFirstMaxAt(s, k) && s[k] == SortByConfidence(s)[0]
    decreases |s|
  {
    var t := SortByConfidence(s[1..]);
    assert SortByConfidence(s) == InsertByConfidence(s[0], t);
    if |t| == 0 || t[0].confidence <= s[0].confidence {
      k := 0;
      HeadFirstMax(s, t);
    } else {
      var k' := SortHeadIsFirstMax(s[1..]);
      k := k' + 1;
      ShiftFirstMax(s, k');
    }
  }

  /** s[0] is the first maximum when it beats the sorted rest of s. */
  lemma HeadFirstMax(s: seq<DetectionResult>, t: seq<DetectionResult>)
    requires |s| > 0 && SortedByConfidence(t) && multiset(t) == multiset(s[1..])
    requires |t| == 0 || t[0].confidence <= s[0].confidence
    ensures IsFirstMaxAt(s, 0)
  {
    forall j | 1 <= j < |s|
      ensures s[j].confidence <= s[0].confidence
    {
      assert s[j] == s[1..][j - 1];
      assert s[j] in multiset(t);
      BelowSortedHead(t, s[j]);
    }
  }

  /** A first maximum of s[1..] that beats s[0] is the first maximum of s. */
  lemma ShiftFirstMax(s: seq<DetectionResult>, k: int)
    requires |s| > 0 && IsFirstMaxAt(s[1..], k) && s[0].confidence < s[1..][k].confidence
    ensures IsFirstMaxAt(s, k + 1)
  {
    forall j | 1 <= j < |s|
      ensures s[j].confidence <= s[k + 1].confidence
    {
      assert s[j] == s[1..][j - 1];
    }
    forall j | 1 <= j < k + 1
      ensures s[j].confidence < s[k + 1].confidence
    {
      assert s[j] == s[1..][j - 1];
    }
  }

  /** When s[0] is the first maximum, `maxByOrNull` returns it. */
  lemma MaxByIsHead(s: seq<DetectionResult>)
    requires IsFirstMaxAt(s, 0)
    ensures MaxByConfidence(s) == Some(s[0])
  {
    FirstMaxUnique(s, RunningMaxIndex(s), 0);
  }

  // ---------------------------------------------------------------------
  // Greedy non-max suppression
  // ---------------------------------------------------------------------

  /** Which detection a kept detection knocks out of the candidate list. */
  type SuppressionTest = (DetectionResult, DetectionResult) -> bool

  /** `kept` suppresses `d` when their boxes overlap by more than the IoU
      threshold; an overlap exactly at the threshold does not suppress. */
  predicate Suppresses(kept: DetectionResult, d: DetectionResult, iouThreshold: real) {
    ComputeIoU(DetectionToBox(kept), DetectionToBox(d)) > iouThreshold
  }

  /** The test the detector's suppression loop uses. */
  function IoUAbove(iouThreshold: real): SuppressionTest {
    (kept: DetectionResult, d: DetectionResult) => Suppresses(kept, d, iouThreshold)
  }

  /** `boxes.removeAll { suppresses(best, it) }`: keeps, in order, the
      detections that `best` does not suppress. */
  function Suppress(best: DetectionResult, rest: seq<DetectionResult>, suppresses: SuppressionTest)
    : (r: seq<DetectionResult>)
    ensures forall d :: d in r <==> d in rest && !suppresses(best, d)
    ensures |r| <= |rest|
    decreases |rest|
  {
    if |rest| == 0 then []
    else
      var tail := Suppress(best, rest[1..], suppresses);
      assert forall d :: d in rest <==> d == rest[0] || d in rest[1..];
      if suppresses(best, rest[0]) then tail else [rest[0]] + tail
  }

  /** The greedy loop: keep the head, drop what it suppresses, repeat. */
  function Nms(boxes: seq<DetectionResult>, suppresses: SuppressionTest): (kept: seq<DetectionResult>)
    ensures forall d :: d in kept ==> d in boxes
    ensures |boxes| > 0 ==> |kept| > 0 && kept[0] == boxes[0]
    ensures |kept| <= |boxes|
    decreases |boxes|
  {
    if |boxes| == 0 then []
    else [boxes[0]] + Nms(Suppress(boxes[0], boxes[1..], suppresses), suppresses)
  }

  /** No kept detection suppresses one kept after it. */
  predicate NoneSuppressedLater(kept: seq<DetectionResult>, suppresses: SuppressionTest) {
    forall i, j :: 0 <= i < j < |kept| ==> !suppresses(kept[i], kept[j])
  }

  lemma {:induction false} NmsKeepsNoneSuppressed(boxes: seq<DetectionResult>, suppresses: SuppressionTest)
    ensures NoneSuppressedLater(Nms(boxes, suppresses), suppresses)
    decreases |boxes|
  {
    if |boxes| > 0 {
      var rest := Suppress(boxes[0], boxes[1..], suppresses);
      NmsKeepsNoneSuppressed(rest, suppresses);
      var kept := Nms(boxes, suppresses);
      var tail := Nms(rest, suppresses);
      assert kept == [boxes[0]] + tail;
      forall i, j | 0 <= i < j < |kept|
        ensures !suppresses(kept[i], kept[j])
      {
        assert kept[j] == tail[j - 1];
        if i == 0 {
          assert kept[j] in rest;
        } else {
          assert kept[i] == tail[i - 1];
        }
      }
    }
  }

  /** Every input detection is either kept or suppressed by a kept one. */
  lemma {:induction false} NmsCoversInput(boxes: seq<DetectionResult>, suppresses: SuppressionTest)
    ensures var kept := Nms(boxes, suppresses);
      forall d :: d in boxes ==> d in kept || exists k :: k in kept && suppresses(k, d)
    decreases |boxes|
  {
    if |boxes| > 0 {
      var rest := Suppress(boxes[0], boxes[1..], suppresses);
      NmsCoversInput(rest, suppresses);
      var kept := Nms(boxes, suppresses);
      assert kept == [boxes[0]] + Nms(rest, suppresses);
      forall d | d in boxes
        ensures d in kept || exists k :: k in kept && suppresses(k, d)
      {
        if d != boxes[0] {
          assert d in boxes[1..];
          if suppresses(boxes[0], d) {
            assert boxes[0] in kept;
          } else {
            assert d in rest;
          }
        }
      }
    }
  }

  /** With the IoU test, every pair of kept boxes overlaps by at most the
      threshold, in either order. */
  lemma NmsKeepsNoOverlap(boxes: seq<DetectionResult>, iouThreshold: real)
    ensures var kept := Nms(boxes, IoUAbove(iouThreshold));
      forall i, j :: 0 <= i < |kept| && 0 <= j < |kept| && i != j ==>
        ComputeIoU(DetectionToBox(kept[i]), DetectionToBox(kept[j])) <= iouThreshold
  {
    var kept := Nms(boxes, IoUAbove(iouThreshold));
    NmsKeepsNoneSuppressed(boxes, IoUAbove(iouThreshold));
    forall i, j | 0 <= i < |kept| && 0 <= j < |kept| && i != j
      ensures ComputeIoU(DetectionToBox(kept[i]), DetectionToBox(kept[j])) <= iouThreshold
    {
      if j < i {
        assert !IoUAbove(iouThreshold)(kept[j], kept[i]);
        IoUSymmetric(DetectionToBox(kept[i]), DetectionToBox(kept[j]));
      } else {
        assert !IoUAbove(iouThreshold)(kept[i], kept[j]);
      }
    }
  }

  /** The suppression boundary is strict: a pair overlapping exactly at the
      threshold both survive, a pair overlapping above it loses the second. */
  lemma NmsThresholdBoundary(a: DetectionResult, b: DetectionResult, iouThreshold: real)
    ensures ComputeIoU(DetectionToBox(a), DetectionToBox(b)) == iouThreshold
        ==> Nms([a, b], IoUAbove(iouThreshold)) == [a, b]
    ensures ComputeIoU(DetectionToBox(a), DetectionToBox(b)) > iouThreshold
        ==> Nms([a, b], IoUAbove(iouThreshold)) == [a]
  {
    var t := IoUAbove(iouThreshold);
    assert [a, b][1..] == [b];
    assert Suppress(a, [b], t) == if t(a, b) then [] else [b];
    assert Nms([b], t) == [b];
  }

  /** The `while (boxes.isNotEmpty())` loop, removing the head and then
      everything it suppresses on each turn. */
  method NonMaxSuppression(sorted: seq<DetectionResult>, suppresses: SuppressionTest)
    returns (final: seq<DetectionResult>)
    ensures final == Nms(sorted, suppresses)
    ensures forall d :: d in final ==> d in sorted
    ensures NoneSuppressedLater(final, suppresses)
  {
    var boxes := sorted;
    final := [];
    while |boxes| > 0
      invariant final + Nms(boxes, suppresses) == Nms(sorted, suppresses)
      decreases |boxes|
    {
      var best := boxes[0];
      boxes := boxes[1..];
      final := final + [best];
      boxes := Suppress(best, boxes, suppresses);
    }
    NmsKeepsNoneSuppressed(sorted, suppresses);
  }

  // ---------------------------------------------------------------------
  // parseTFLite
  // ---------------------------------------------------------------------

  /** The tensor can be read without an index error: there is a `raw[0][0]`,
      and when it has columns, every visited column is readable. */
  predicate TensorReadable(raw: Tensor, confThreshold: real) {
    |raw| > 0 && |raw[0]| > 0 && (|raw[0][0]| > 0 ==> Readable(raw[0], confThreshold))
  }

  /** `parseTFLite`: filter by confidence (inclusive), sort, suppress, and
      return the most confident survivor. Reading past the end of the
      tensor throws. The result is the first column of greatest confidence
      among those reaching the threshold, and none exactly when no column
      reaches it. */
  function ParseTFLite(raw: Tensor, confThreshold: real, iouThreshold: real): (r: Result<Option<DetectionResult>>)
    ensures r.Failure? <==> !TensorReadable(raw, confThreshold)
    ensures r.Failure? ==> r.fault == IndexOutOfBounds
    ensures r.Success? && |raw[0][0]| == 0 ==> r.value.None?
    ensures r.Success? && |raw[0][0]| > 0 ==>
      && (r.value.None? <==> forall i :: 0 <= i < |raw[0][0]| ==> !IsCandidate(raw[0], confThreshold, i))
      && (r.value.Some? ==> exists i :: IsBestColumn(raw[0], confThreshold, |raw[0][0]|, i)
                                   && r.value.value == Column(raw[0], confThreshold, i))
  {
    if |raw| == 0 || |raw[0]| == 0 then Failure(IndexOutOfBounds)
    else if |raw[0][0]| == 0 then Success(None)
    else if !Readable(raw[0], confThreshold) then Failure(IndexOutOfBounds)
    else
      var rows := raw[0];
      var dets := Candidates(rows, confThreshold, |rows[0]|);
      MaxByOfCandidates(rows, confThreshold, |rows[0]|);
      BestIndexIsBest(rows, confThreshold, |rows[0]|);
      if |dets| == 0 then Success(None)
      else
        ParseSelectsBestColumn(rows, confThreshold, IoUAbove(iouThreshold));
        Success(MaxByConfidence(Nms(SortByConfidence(dets), IoUAbove(iouThreshold))))
  }

  /** The sort, the suppression and `maxByOrNull` together pick what the
      single scan picks. */
  lemma ParseSelectsBestColumn(rows: seq<seq<real>>, confThreshold: real, suppresses: SuppressionTest)
    requires Readable(rows, confThreshold)
    requires |Candidates(rows, confThreshold, |rows[0]|)| > 0
    ensures var dets := Candidates(rows, confThreshold, |rows[0]|);
      MaxByConfidence(Nms(SortByConfidence(dets), suppresses)) == BestColumn(rows, confThreshold, |rows[0]|)
  {
    var dets := Candidates(rows, confThreshold, |rows[0]|);
    var k := SortHeadIsFirstMax(dets);
    SurvivorsPeakAtHead(SortByConfidence(dets), suppresses);
    MaxByOfCandidates(rows, confThreshold, |rows[0]|);
    FirstMaxUnique(dets, k, RunningMaxIndex(dets));
  }

  /** After suppression, the most confident survivor of a sorted list is
      its head, which suppression always keeps. */
  lemma SurvivorsPeakAtHead(sorted: seq<DetectionResult>, suppresses: SuppressionTest)
    requires SortedByConfidence(sorted) && |sorted| > 0
    ensures MaxByConfidence(Nms(sorted, suppresses)) == Some(sorted[0])
  {
    var kept := Nms(sorted, suppresses);
    forall j | 0 <= j < |kept|
      ensures kept[j].confidence <= kept[0].confidence
    {
      assert kept[j] in sorted;
      var m :| 0 <= m < |sorted| && sorted[m] == kept[j];
      if m > 0 {
        assert sorted[0].confidence >= sorted[m].confidence;
      }
    }
    MaxByIsHead(kept);
  }

  /** `maxByOrNull` over the candidates is the single scan over the columns. */
  lemma {:induction false} MaxByOfCandidates(rows: seq<seq<real>>, confThreshold: real, n: nat)
    requires Readable(rows, confThreshold) && n <= |rows[0]|
    ensures MaxByConfidence(Candidates(rows, confThreshold, n)) == BestColumn(rows, confThreshold, n)
    decreases n
  {
    if n > 0 {
      MaxByOfCandidates(rows, confThreshold, n - 1);
      if IsCandidate(rows, confThreshold, n - 1) {
        var before, x := Candidates(rows, confThreshold, n - 1), Column(rows, confThreshold, n - 1);
        CandidateStep(rows, confThreshold, n);
        MaxByAppend(before, x);
      } else {
        SkippedColumnStep(rows, confThreshold, n);
      }
    }
  }

  /** One step of both scans over a column that passes the threshold. */
  lemma CandidateStep(rows: seq<seq<real>>, confThreshold: real, n: nat)
    requires Readable(rows, confThreshold) && 0 < n <= |rows[0]| && IsCandidate(rows, confThreshold, n - 1)
    ensures var x := Column(rows, confThreshold, n - 1);
      var prev := BestColumn(rows, confThreshold, n - 1);
      && Candidates(rows, confThreshold, n) == Candidates(rows, confThreshold, n - 1) + [x]
      && BestColumn(rows, confThreshold, n)
         == if prev.None? || prev.value.confidence < x.confidence then Some(x) else prev
  {
  }

  /** One step of both scans over a column that fails the threshold. */
  lemma SkippedColumnStep(rows: seq<seq<real>>, confThreshold: real, n: nat)
    requires Readable(rows, confThreshold) && 0 < n <= |rows[0]| && !IsCandidate(rows, confThreshold, n - 1)
    ensures Candidates(rows, confThreshold, n) == Candidates(rows, confThreshold, n - 1)
    ensures BestColumn(rows, confThreshold, n) == BestColumn(rows, confThreshold, n - 1)
  {
  }

  /** Appending x to s replaces the maximum only when x is strictly more
      confident. */
  lemma MaxByAppend(s: seq<DetectionResult>, x: DetectionResult)
    ensures var m := MaxByConfidence(s);
      MaxByConfidence(s + [x]) == if m.None? || m.value.confidence < x.confidence then Some(x) else m
  {
    var t := s + [x];
    assert t[..|t| - 1] == s;
    if |s| > 0 {
      assert t[RunningMaxIndex(s)] == s[RunningMaxIndex(s)];
    }
  }
}
