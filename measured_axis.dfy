/**
 * A measured axis: per-item sizes that start at an estimate and are replaced
 * by measurements, with a Fenwick tree kept in step for offsets and lookups.
 * Each query is proved to return what the `AxisModel` function of the
 * current sizes returns.
 */
module MeasuredAxis {
  import opened Wrappers
  import opened ContractsMath
  import opened ContractsModel
  import opened PrefixSums
  import opened Fenwick
  import opened AxisModel

  class Axis {
    const kind: AxisKind
    const count: nat
    /** The current best-known size of each item. */
    const sizes: array<real>
    const fenwick: FenwickTree

    ghost predicate Valid()
      reads this, sizes, fenwick, fenwick.bit
    {
      sizes.Length == count && fenwick.n == count && fenwick.bit != sizes &&
      fenwick.Valid() && fenwick.vals == sizes[..] && NonNegative(sizes[..])
    }

    /** The objects the axis changes when a measurement is reported. */
    ghost function Footprint(): set<object>
    {
      {sizes, fenwick, fenwick.bit}
    }

    /** The sizes the axis currently describes. */
    ghost function Sizes(): seq<real>
      reads this, sizes
    {
      sizes[..]
    }

    constructor Init(kind: AxisKind, sizes: array<real>, fenwick: FenwickTree)
      requires sizes.Length == fenwick.n && fenwick.bit != sizes
      requires fenwick.Valid() && fenwick.vals == sizes[..] && NonNegative(sizes[..])
      ensures Valid() && this.kind == kind && this.sizes == sizes && this.fenwick == fenwick
    {
      this.kind := kind;
      this.count := sizes.Length;
      this.sizes := sizes;
      this.fenwick := fenwick;
    }

    /**
     * `createMeasuredAxis`: rejects a count that is not a non-negative integer
     * and an estimate that is not finite and non-negative; otherwise every
     * item starts at the estimate and accepted initial measurements overwrite it.
     */
    static method Create(kind: AxisKind, count: Number, estimateSizePx: Number, initialMeasured: seq<(Number, Number)>)
      returns (r: Result<Axis, GridError>)
      ensures r.Err? <==> AssertNonNegativeInt(count, "count").Err? || AssertFiniteNonNegative(estimateSizePx, "estimateSizePx").Err?
      ensures r.Err? && AssertNonNegativeInt(count, "count").Err? ==> r.error == NotNonNegativeInt("count")
      ensures r.Err? && AssertNonNegativeInt(count, "count").Ok? ==> r.error == NotFiniteNonNegative("estimateSizePx")
      ensures r.Ok? ==> fresh(r.value) && fresh(r.value.sizes) && fresh(r.value.fenwick) && fresh(r.value.fenwick.bit)
      ensures r.Ok? ==> r.value.Valid() && r.value.kind == kind
      ensures r.Ok? ==> r.value.Sizes() == InitialSizes(AssertNonNegativeInt(count, "count").value,
                                                        AssertFiniteNonNegative(estimateSizePx, "estimateSizePx").value,
                                                        initialMeasured)
    {
      var checkedCount := AssertNonNegativeInt(count, "count");
      if checkedCount.Err? {
        return Err(checkedCount.error);
      }
      var checkedEstimate := AssertFiniteNonNegative(estimateSizePx, "estimateSizePx");
      if checkedEstimate.Err? {
        return Err(checkedEstimate.error);
      }
      var n := checkedCount.value;
      var estimate := checkedEstimate.value;
      var sizes := new real[n];
      var i := 0;
      while i < n
        invariant 0 <= i <= n
        invariant forall t :: 0 <= t < i ==> sizes[t] == estimate
      {
        sizes[i] := estimate;
        i := i + 1;
      }
      ghost var base := sizes[..];
      assert base == seq(n, _ => estimate);
      var k := 0;
      while k < |initialMeasured|
        invariant 0 <= k <= |initialMeasured|
        invariant sizes[..] == ApplyEntries(base, initialMeasured[..k])
      {
        var e := initialMeasured[k];
        if ValidIndex(e.0, n) && IsFinite(e.1) && !IsNegative(e.1) {
          sizes[IndexOf(e.0, n)] := e.1.value;
        }
        assert initialMeasured[..k + 1][..k] == initialMeasured[..k];
        k := k + 1;
      }
      assert initialMeasured[..k] == initialMeasured;
      InitialSizesNonNegative(base, initialMeasured);
      var tree := new FenwickTree(n);
      var built := tree.BuildFrom(sizes[..]);
      var axis := new Axis.Init(kind, sizes, tree);
      return Ok(axis);
    }

    /** `getSizePx`. */
    method GetSizePx(index: int) returns (r: Result<real, GridError>)
      requires Valid()
      ensures r == SizeAt(Sizes(), index)
    {
      if count == 0 {
        return Ok(0.0);
      }
      if index < 0 || index >= count {
        return Err(IndexOutOfRange(Finite(index as real)));
      }
      return Ok(sizes[index]);
    }

    /** `getOffsetPx`: the prefix sum of the sizes before `index`. */
    method GetOffsetPx(index: int) returns (r: Result<real, GridError>)
      requires Valid()
      ensures r == OffsetAt(Sizes(), index)
    {
      if count == 0 {
        return Ok(0.0);
      }
      if index < 0 || index > count {
        return Err(IndexOutOfRange(Finite(index as real)));
      }
      var sum := fenwick.SumPrefixExclusive(index);
      if index == 0 {
        assert Sizes()[..0] == [];
      }
      return Ok(sum);
    }

    /** `getTotalSizePx`. */
    method GetTotalSizePx() returns (r: real)
      requires Valid()
      ensures r == Total(Sizes())
    {
      r := fenwick.SumAll();
    }

    /** `findIndexAtOffsetPx`. */
    method FindIndexAtOffsetPx(offsetPx: real) returns (r: int)
      requires Valid()
      ensures r == IndexAtOffset(Sizes(), offsetPx)
    {
      if count == 0 {
        return -1;
      }
      if offsetPx <= 0.0 {
        return 0;
      }
      var total := fenwick.SumAll();
      if offsetPx >= total {
        return count - 1;
      }
      r := fenwick.LowerBound(offsetPx);
    }

    /** `getVisibleSegment`. */
    method GetVisibleSegment(scrollOffsetPx: real, viewportSizePx: real, overscanPx: real) returns (seg: VisibleSegment)
      requires Valid()
      ensures seg == VisibleSegmentOf(Sizes(), scrollOffsetPx, viewportSizePx, overscanPx)
    {
      if count == 0 {
        return VisibleSegment(EmptyRange, 0.0);
      }
      var scroll := Max(0.0, scrollOffsetPx);
      var view := Max(0.0, viewportSizePx);
      var over := Max(0.0, overscanPx);
      var startOffset := Max(0.0, scroll - over);
      var endOffset := scroll + view + over - 1.0;
      var first := FindIndexAtOffsetPx(startOffset);
      var start := ClampIndex(first, 0, count - 1);
      var last := FindIndexAtOffsetPx(Max(0.0, endOffset));
      var end := ClampIndex(last, start, count - 1);
      var offset := GetOffsetPx(start);
      return VisibleSegment(AxisRange(start, end), offset.value);
    }

    /**
     * `reportMeasuredSize`: validates the report, then stores the new size and
     * updates the prefix sums by the difference when the size changed.
     */
    method ReportMeasuredSize(report: MeasureReport) returns (r: Result<MeasureOutcome, GridError>)
      requires Valid()
      modifies sizes, fenwick, fenwick.bit
      ensures Valid()
      ensures match Measure(old(Sizes()), kind, report)
        case Err(e) => r == Err(e) && Sizes() == old(Sizes())
        case Ok(m) => r == Ok(m.outcome) && Sizes() == m.sizes
    {
      if report.axis != kind {
        return Err(AxisMismatch);
      }
      if !ValidIndex(report.index, count) {
        return Err(IndexOutOfRange(report.index));
      }
      var checked := AssertFiniteNonNegative(report.sizePx, "sizePx");
      if checked.Err? {
        return Err(checked.error);
      }
      var next := checked.value;
      var idx := IndexOf(report.index, count);
      var prev := sizes[idx];
      if prev == next {
        return Ok(MeasureOutcome(false, prev, next));
      }
      sizes[idx] := next;
      fenwick.Add(idx, next - prev);
      assert fenwick.vals == sizes[..];
      return Ok(MeasureOutcome(true, prev, next));
    }

    /** `computeAnchorAdjust`. */
    method ComputeAnchorAdjust(input: AnchorAdjustInput) returns (r: Result<AnchorAdjustResult, GridError>)
      requires Valid()
      ensures r == AnchorAdjust(Sizes(), input)
    {
      if count == 0 {
        return Ok(AnchorAdjustResult(0.0, 0.0));
      }
      if !ValidIndex(input.anchorIndex, count) {
        return Err(AnchorOutOfRange(input.anchorIndex));
      }
      var anchorOffset := GetOffsetPx(IndexOf(input.anchorIndex, count));
      var nextScroll := Max(0.0, anchorOffset.value - input.anchorViewportPosPx);
      var prevScroll := Max(0.0, input.scrollOffsetPx);
      return Ok(AnchorAdjustResult(nextScroll, nextScroll - prevScroll));
    }
  }
}
