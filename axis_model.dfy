/**
 * The reference behaviour of a measured axis, as functions of its current
 * sizes. The `MeasuredAxis` class is proved to compute exactly these; the
 * viewport engine, the hit test and the kernel are stated over them too.
 */
module AxisModel {
  import opened Wrappers
  import opened ContractsMath
  import opened ContractsModel
  import opened PrefixSums
  import opened Fenwick

  /** A visible inclusive range and the content offset of its first item. */
  datatype VisibleSegment = VisibleSegment(range: AxisRange, offsetPx: real)

  /** A measurement of one item, as reported by the renderer. */
  datatype MeasureReport = MeasureReport(axis: AxisKind, index: Number, sizePx: Number)

  /** What a measurement did: whether the size changed, and the old and new size. */
  datatype MeasureOutcome = MeasureOutcome(changed: bool, prevSizePx: real, nextSizePx: real)

  /** A measurement's outcome together with the axis sizes after it. */
  datatype Measured = Measured(outcome: MeasureOutcome, sizes: seq<real>)

  datatype AnchorAdjustInput = AnchorAdjustInput(anchorIndex: Number, anchorViewportPosPx: real, scrollOffsetPx: real)

  datatype AnchorAdjustResult = AnchorAdjustResult(nextScrollOffsetPx: real, deltaPx: real)

  /** The content offset of item `i`: the sizes of the items before it. */
  function Offset(s: seq<real>, i: int): real
    requires 0 <= i <= |s|
  {
    Sum(s[..i])
  }

  function Total(s: seq<real>): real
  {
    Sum(s)
  }

  /** `getSizePx`: 0 on an empty axis, an error outside `[0, count)`. */
  function SizeAt(s: seq<real>, index: int): Result<real, GridError>
  {
    if |s| == 0 then Ok(0.0)
    else if index < 0 || index >= |s| then Err(IndexOutOfRange(Finite(index as real)))
    else Ok(s[index])
  }

  /** `getOffsetPx`: 0 on an empty axis, an error outside `[0, count]`. */
  function OffsetAt(s: seq<real>, index: int): Result<real, GridError>
  {
    if |s| == 0 then Ok(0.0)
    else if index < 0 || index > |s| then Err(IndexOutOfRange(Finite(index as real)))
    else Ok(Offset(s, index))
  }

  /** `findIndexAtOffsetPx`: the item under content offset `off`, clamped to the axis. */
  function IndexAtOffset(s: seq<real>, off: real): int
  {
    if |s| == 0 then -1
    else if off <= 0.0 then 0
    else if off >= Total(s) then |s| - 1
    else LowerBoundSpec(s, off)
  }

  /** `getVisibleSegment`: the items covering the viewport widened by the overscan. */
  function VisibleSegmentOf(s: seq<real>, scrollOffsetPx: real, viewportSizePx: real, overscanPx: real): VisibleSegment
  {
    if |s| == 0 then VisibleSegment(EmptyRange, 0.0)
    else
      var scroll := Max(0.0, scrollOffsetPx);
      var view := Max(0.0, viewportSizePx);
      var over := Max(0.0, overscanPx);
      var start := ClampIndex(IndexAtOffset(s, StartOffset(scroll, over)), 0, |s| - 1);
      var end := ClampIndex(IndexAtOffset(s, Max(0.0, EndOffset(scroll, view, over))), start, |s| - 1);
      VisibleSegment(AxisRange(start, end), Offset(s, start))
  }

  /** The first content pixel to cover: the scroll offset less the overscan, not below zero. */
  function StartOffset(scroll: real, over: real): real
  {
    Max(0.0, scroll - over)
  }

  /** The last content pixel to cover (inclusive): one before the end of the widened viewport. */
  function EndOffset(scroll: real, view: real, over: real): real
  {
    scroll + view + over - 1.0
  }

  /** `index` is an integer inside `[0, count)`. */
  predicate ValidIndex(index: Number, count: int)
  {
    IsInteger(index) && 0.0 <= index.value < count as real
  }

  /** The index a `ValidIndex` number denotes. */
  function IndexOf(index: Number, count: int): (i: nat)
    requires ValidIndex(index, count)
    ensures i < count && i as real == index.value
  {
    index.value.Floor
  }

  /** `reportMeasuredSize`: validate the report, then overwrite the size if it differs. */
  function Measure(s: seq<real>, kind: AxisKind, report: MeasureReport): Result<Measured, GridError>
  {
    if report.axis != kind then Err(AxisMismatch)
    else if !ValidIndex(report.index, |s|) then Err(IndexOutOfRange(report.index))
    else match AssertFiniteNonNegative(report.sizePx, "sizePx")
      case Err(e) => Err(e)
      case Ok(next) =>
        var i := IndexOf(report.index, |s|);
        var prev := s[i];
        if prev == next then Ok(Measured(MeasureOutcome(false, prev, next), s))
        else Ok(Measured(MeasureOutcome(true, prev, next), s[i := next]))
  }

  /** `computeAnchorAdjust`: the scroll offset that puts the anchor back at its viewport position. */
  function AnchorAdjust(s: seq<real>, input: AnchorAdjustInput): Result<AnchorAdjustResult, GridError>
  {
    if |s| == 0 then Ok(AnchorAdjustResult(0.0, 0.0))
    else if !ValidIndex(input.anchorIndex, |s|) then Err(AnchorOutOfRange(input.anchorIndex))
    else
      var anchorOffset := Offset(s, IndexOf(input.anchorIndex, |s|));
      var nextScroll := Max(0.0, anchorOffset - input.anchorViewportPosPx);
      var prevScroll := Max(0.0, input.scrollOffsetPx);
      Ok(AnchorAdjustResult(nextScroll, nextScroll - prevScroll))
  }

  // ----- offsets -----

  /** Each offset adds the size of the item before it; the last offset is the total. */
  lemma OffsetStep(s: seq<real>, i: int)
    requires 0 <= i < |s|
    ensures Offset(s, 0) == 0.0
    ensures Offset(s, i + 1) == Offset(s, i) + s[i]
    ensures Offset(s, |s|) == Total(s)
  {
    SumStep(s, i);
    assert s[..|s|] == s;
  }

  /** With non-negative sizes, offsets are non-decreasing and lie within `[0, total]`. */
  lemma OffsetMonotone(s: seq<real>, i: int, j: int)
    requires NonNegative(s) && 0 <= i <= j <= |s|
    ensures 0.0 <= Offset(s, i) <= Offset(s, j) <= Total(s)
  {
    PrefixMonotone(s, 0, i);
    PrefixMonotone(s, i, j);
    PrefixMonotone(s, j, |s|);
    assert s[..|s|] == s;
  }

  /**
   * `findIndexAtOffsetPx` finds the item under the offset: for an offset
   * inside the content, `offset(i) <= off < offset(i + 1)`; at or before the
   * start it answers the first item and past the start at or past the end
   * (every size zero included) the last.
   */
  lemma IndexAtOffsetCovers(s: seq<real>, off: real)
    requires NonNegative(s) && |s| > 0
    ensures var i := IndexAtOffset(s, off);
      0 <= i < |s| &&
      (off <= 0.0 ==> i == 0) &&
      (off > 0.0 && off >= Total(s) ==> i == |s| - 1) &&
      (0.0 < off < Total(s) ==> Offset(s, i) <= off < Offset(s, i + 1))
  {
    var i := IndexAtOffset(s, off);
    assert s[..|s|] == s;
    if 0.0 < off < Total(s) {
      FirstExceedingProperties(s, off, 0);
      if i > 0 {
        assert Sum(s[..i]) <= off;
      }
    }
  }

  /** All sizes are positive (every item occupies at least some space). */
  predicate Positive(s: seq<real>)
  {
    forall k :: 0 <= k < |s| ==> s[k] > 0.0
  }

  /** With positive sizes, every item is found again at its own offset. */
  lemma IndexAtOwnOffset(s: seq<real>, i: int)
    requires Positive(s) && 0 <= i < |s|
    ensures IndexAtOffset(s, Offset(s, i)) == i
  {
    assert NonNegative(s);
    var off := Offset(s, i);
    OffsetStep(s, i);
    OffsetMonotone(s, i + 1, |s|);
    if i > 0 {
      OffsetStep(s, 0);
      OffsetMonotone(s, 1, i);
      var r := IndexAtOffset(s, off);
      IndexAtOffsetCovers(s, off);
      if r < i {
        OffsetMonotone(s, r + 1, i);
      } else if r > i {
        OffsetMonotone(s, i + 1, r);
      }
    }
  }

  /** With positive sizes, every offset inside item `i` looks up item `i`. */
  lemma IndexAtOffsetWithin(s: seq<real>, off: real, i: int)
    requires Positive(s) && 0 <= i < |s|
    requires Offset(s, i) <= off < Offset(s, i + 1)
    ensures IndexAtOffset(s, off) == i
  {
    assert NonNegative(s);
    OffsetStep(s, i);
    OffsetMonotone(s, i + 1, |s|);
    if i > 0 {
      OffsetStep(s, 0);
      OffsetMonotone(s, 1, i);
    }
    var r := IndexAtOffset(s, off);
    IndexAtOffsetCovers(s, off);
    if r < i {
      OffsetMonotone(s, r + 1, i);
    } else if r > i {
      OffsetMonotone(s, i + 1, r);
    }
  }

  /** With positive sizes, an offset at or past the end of item `i` looks up a later item. */
  lemma IndexAtOffsetPast(s: seq<real>, off: real, i: int)
    requires Positive(s) && 0 <= i && i + 1 < |s|
    requires Offset(s, i + 1) <= off
    ensures IndexAtOffset(s, off) > i
  {
    assert NonNegative(s);
    OffsetStep(s, 0);
    OffsetMonotone(s, 1, i + 1);
    OffsetMonotone(s, i + 1, |s|);
    var r := IndexAtOffset(s, off);
    IndexAtOffsetCovers(s, off);
    if r <= i {
      OffsetMonotone(s, r + 1, i + 1);
    }
  }

  // ----- visible segment -----

  /** The segment lies inside the axis, starts no later than it ends, and reports its start's offset. */
  lemma VisibleSegmentInRange(s: seq<real>, scroll: real, view: real, over: real)
    requires NonNegative(s)
    ensures var seg := VisibleSegmentOf(s, scroll, view, over);
      (|s| == 0 ==> seg == VisibleSegment(EmptyRange, 0.0)) &&
      (|s| > 0 ==> 0 <= seg.range.start <= seg.range.end < |s| &&
                   seg.offsetPx == Offset(s, seg.range.start))
  {
  }

  /**
   * Nothing on screen is missed: with positive sizes, every item that
   * intersects the covered pixels `[StartOffset, max(0, EndOffset)]` lies in
   * the segment's range.
   */
  lemma VisibleSegmentCovers(s: seq<real>, scroll: real, view: real, over: real, j: int)
    requires Positive(s) && 0 <= j < |s|
    requires var sc := Max(0.0, scroll);
      Offset(s, j) <= Max(0.0, EndOffset(sc, Max(0.0, view), Max(0.0, over))) &&
      Offset(s, j + 1) > StartOffset(sc, Max(0.0, over))
    ensures VisibleSegmentOf(s, scroll, view, over).range.Contains(j)
  {
    assert NonNegative(s);
    var sc := Max(0.0, scroll);
    var so := StartOffset(sc, Max(0.0, over));
    var e := Max(0.0, EndOffset(sc, Max(0.0, view), Max(0.0, over)));
    var seg := VisibleSegmentOf(s, scroll, view, over);
    var start, end := seg.range.start, seg.range.end;
    var idx := IndexAtOffset(s, e);
    IndexAtOffsetCovers(s, so);
    IndexAtOffsetCovers(s, e);
    assert Offset(s, start) <= so by {
      OffsetStep(s, 0);
      OffsetMonotone(s, start, |s|);
    }
    if j < start {
      OffsetMonotone(s, j + 1, start);
    }
    if j > end {
      OffsetMonotone(s, idx + 1, j);
      if e <= 0.0 {
        OffsetStep(s, 0);
        OffsetMonotone(s, 1, j);
      }
    }
  }

  // ----- measurements -----

  /**
   * A measurement is rejected exactly for a report on the other axis, an
   * index that is not an integer in `[0, count)`, or a size that is not finite
   * and non-negative; otherwise it stores the new size at the index, and
   * reports a change exactly when the size differs from the stored one.
   */
  lemma MeasureSpec(s: seq<real>, kind: AxisKind, report: MeasureReport)
    ensures var r := Measure(s, kind, report);
      (r.Err? <==> report.axis != kind || !ValidIndex(report.index, |s|) ||
                   !IsFinite(report.sizePx) || IsNegative(report.sizePx)) &&
      (r.Err? && report.axis != kind ==> r.error == AxisMismatch) &&
      (r.Err? && report.axis == kind && !ValidIndex(report.index, |s|) ==> r.error == IndexOutOfRange(report.index)) &&
      (r.Err? && report.axis == kind && ValidIndex(report.index, |s|) ==> r.error == NotFiniteNonNegative("sizePx")) &&
      (r.Ok? ==> var i := IndexOf(report.index, |s|);
                 report.sizePx == Finite(r.value.outcome.nextSizePx) &&
                 r.value.outcome.prevSizePx == s[i] &&
                 r.value.sizes == s[i := r.value.outcome.nextSizePx] &&
                 (r.value.outcome.changed <==> s[i] != r.value.outcome.nextSizePx))
  {
  }

  /** Measurements keep every size non-negative. */
  lemma MeasureKeepsNonNegative(s: seq<real>, kind: AxisKind, report: MeasureReport)
    requires NonNegative(s)
    ensures Measure(s, kind, report).Ok? ==> NonNegative(Measure(s, kind, report).value.sizes)
  {
  }

  /**
   * After a measurement of item `i`, offsets up to `i` stay put and every
   * later offset (and the total) moves by `next - prev`.
   */
  lemma MeasureShiftsOffsets(s: seq<real>, kind: AxisKind, report: MeasureReport, j: int)
    requires Measure(s, kind, report).Ok? && 0 <= j <= |s|
    ensures var m := Measure(s, kind, report).value;
      var i := IndexOf(report.index, |s|);
      var d := m.outcome.nextSizePx - m.outcome.prevSizePx;
      |m.sizes| == |s| &&
      Offset(m.sizes, j) == Offset(s, j) + (if j > i then d else 0.0) &&
      Total(m.sizes) == Total(s) + d
  {
    var m := Measure(s, kind, report).value;
    var i := IndexOf(report.index, |s|);
    var d := m.outcome.nextSizePx - m.outcome.prevSizePx;
    assert m.sizes == s[i := s[i] + d];
    RangeSumUpdate(s, i, d, 0, j);
    RangeSumUpdate(s, i, d, 0, |s|);
    assert s[0..j] == s[..j];
    assert m.sizes[0..j] == m.sizes[..j];
    assert s[0..|s|] == s;
    assert m.sizes[0..|s|] == m.sizes;
  }

  // ----- anchor adjustment -----

  /**
   * The adjusted scroll puts the anchor back at its viewport position
   * (`offset(anchor) - next == anchorViewportPos`) unless that would scroll
   * before the start, in which case it is 0; the delta is measured from the
   * previous scroll clamped at 0.
   */
  lemma AnchorKeepsPosition(s: seq<real>, input: AnchorAdjustInput)
    requires |s| > 0 && ValidIndex(input.anchorIndex, |s|)
    ensures var r := AnchorAdjust(s, input);
      var a := Offset(s, IndexOf(input.anchorIndex, |s|));
      r.Ok? &&
      r.value.nextScrollOffsetPx >= 0.0 &&
      (a >= input.anchorViewportPosPx ==> a - r.value.nextScrollOffsetPx == input.anchorViewportPosPx) &&
      (a < input.anchorViewportPosPx ==> r.value.nextScrollOffsetPx == 0.0) &&
      r.value.deltaPx == r.value.nextScrollOffsetPx - Max(0.0, input.scrollOffsetPx)
  {
  }

  /**
   * Measuring an item before the anchor moves the recommended scroll by
   * exactly the size change, so the anchor does not jump on screen.
   */
  lemma AnchorCompensatesMeasure(s: seq<real>, kind: AxisKind, report: MeasureReport, input: AnchorAdjustInput)
    requires Measure(s, kind, report).Ok? && ValidIndex(input.anchorIndex, |s|)
    requires IndexOf(report.index, |s|) < IndexOf(input.anchorIndex, |s|)
    requires var m := Measure(s, kind, report).value;
      var a := IndexOf(input.anchorIndex, |s|);
      Offset(s, a) >= input.anchorViewportPosPx && Offset(m.sizes, a) >= input.anchorViewportPosPx
    ensures var m := Measure(s, kind, report).value;
      AnchorAdjust(m.sizes, input).value.nextScrollOffsetPx ==
      AnchorAdjust(s, input).value.nextScrollOffsetPx + (m.outcome.nextSizePx - m.outcome.prevSizePx)
  {
    MeasureShiftsOffsets(s, kind, report, IndexOf(input.anchorIndex, |s|));
  }

  /**
   * Five rows of 10px scrolled to 15 with row 2 anchored 5px into the
   * viewport: no adjustment; after row 0 is measured at 30px, the scroll
   * moves to 35 (a delta of 20).
   */
  lemma AnchorWorkedExample()
    ensures var s := seq(5, _ => 10.0);
      var input := AnchorAdjustInput(Finite(2.0), 5.0, 15.0);
      var report := MeasureReport(Row, Finite(0.0), Finite(30.0));
      AnchorAdjust(s, input) == Ok(AnchorAdjustResult(15.0, 0.0)) &&
      Measure(s, Row, report).Ok? &&
      AnchorAdjust(Measure(s, Row, report).value.sizes, input) == Ok(AnchorAdjustResult(35.0, 20.0))
  {
    var s := seq(5, _ => 10.0);
    var input := AnchorAdjustInput(Finite(2.0), 5.0, 15.0);
    var report := MeasureReport(Row, Finite(0.0), Finite(30.0));
    assert IndexOf(input.anchorIndex, 5) == 2;
    OffsetStep(s, 0);
    OffsetStep(s, 1);
    assert Offset(s, 2) == 20.0;
    var m := Measure(s, Row, report).value;
    assert m.sizes == s[0 := 30.0];
    OffsetStep(m.sizes, 0);
    OffsetStep(m.sizes, 1);
    assert Offset(m.sizes, 2) == 40.0;
  }

  // ----- initial sizes -----

  /** An initial measurement `(key, size)` is used when the key is an index of the axis and the size finite and non-negative. */
  predicate Accepted(e: (Number, Number), count: int)
  {
    ValidIndex(e.0, count) && IsFinite(e.1) && !IsNegative(e.1)
  }

  /** Applies one initial measurement; rejected entries are skipped. */
  function ApplyEntry(s: seq<real>, e: (Number, Number)): (r: seq<real>)
    ensures |r| == |s|
  {
    if Accepted(e, |s|) then s[IndexOf(e.0, |s|) := e.1.value] else s
  }

  /** Applies the initial measurements in order. */
  function ApplyEntries(s: seq<real>, es: seq<(Number, Number)>): (r: seq<real>)
    ensures |r| == |s|
  {
    if |es| == 0 then s else ApplyEntry(ApplyEntries(s, es[..|es| - 1]), es[|es| - 1])
  }

  /** Every item starts at the estimate, overwritten by the accepted initial measurements. */
  function InitialSizes(count: nat, estimate: real, es: seq<(Number, Number)>): seq<real>
  {
    ApplyEntries(seq(count, _ => estimate), es)
  }

  /** Entry `k` is accepted and names index `j`. */
  predicate Names(es: seq<(Number, Number)>, k: int, count: int, j: int)
    requires 0 <= k < |es|
  {
    Accepted(es[k], count) && IndexOf(es[k].0, count) == j
  }

  /** An index no accepted initial entry names keeps its starting size (the estimate). */
  lemma {:induction false} InitialSizesUntouched(s: seq<real>, es: seq<(Number, Number)>, j: int)
    requires 0 <= j < |s|
    requires forall k :: 0 <= k < |es| ==> !Names(es, k, |s|, j)
    ensures ApplyEntries(s, es)[j] == s[j]
  {
    if |es| > 0 {
      var init := es[..|es| - 1];
      forall k | 0 <= k < |init|
        ensures !Names(init, k, |s|, j)
      {
        assert init[k] == es[k];
        assert !Names(es, k, |s|, j);
      }
      InitialSizesUntouched(s, init, j);
      assert !Names(es, |es| - 1, |s|, j);
    }
  }

  /** An index named by accepted initial entries holds the size of the last of them. */
  lemma {:induction false} InitialSizesLastWins(s: seq<real>, es: seq<(Number, Number)>, j: int, k: int)
    requires 0 <= j < |s| && 0 <= k < |es| && Names(es, k, |s|, j)
    requires forall k' :: k < k' < |es| ==> !Names(es, k', |s|, j)
    ensures ApplyEntries(s, es)[j] == es[k].1.value
  {
    if k < |es| - 1 {
      var init := es[..|es| - 1];
      assert init[k] == es[k];
      forall k' | k < k' < |init|
        ensures !Names(init, k', |s|, j)
      {
        assert init[k'] == es[k'];
        assert !Names(es, k', |s|, j);
      }
      InitialSizesLastWins(s, init, j, k);
      assert !Names(es, |es| - 1, |s|, j);
    }
  }

  /** With a non-negative estimate, initial sizes are non-negative. */
  lemma {:induction false} InitialSizesNonNegative(s: seq<real>, es: seq<(Number, Number)>)
    requires NonNegative(s)
    ensures NonNegative(ApplyEntries(s, es))
  {
    if |es| > 0 {
      InitialSizesNonNegative(s, es[..|es| - 1]);
    }
  }
}
