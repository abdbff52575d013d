/**
 * A Fenwick tree (binary indexed tree) over the sizes of an axis: point
 * updates, prefix sums and a descent that finds the item covering an offset.
 * Slot `j` (1-based) of `bit` holds the sum of the `LowBit(j)` values ending
 * at item `j - 1`.
 */
module Fenwick {
  import opened Wrappers
  import opened ContractsMath
  import opened PrefixSums

  /** `p` is a power of two. */
  predicate IsPow2(p: int)
  {
    p == 1 || (p > 1 && p % 2 == 0 && IsPow2(p / 2))
  }

  /** The lowest set bit of a positive integer (`i & -i`), defined arithmetically. */
  function LowBit(i: int): (r: int)
    requires i > 0
    ensures 1 <= r <= i
  {
    if i % 2 == 1 then 1 else 2 * LowBit(i / 2)
  }

  /** The low bit is a power of two. */
  lemma {:induction false} LowBitIsPow2(i: int)
    requires i > 0
    ensures IsPow2(LowBit(i))
  {
    if i % 2 == 0 {
      LowBitIsPow2(i / 2);
      var h := LowBit(i / 2);
      assert (2 * h) / 2 == h;
    }
  }

  /** Slot `j` covers item position `p` (1-based) when its range `(j - LowBit(j), j]` contains `p`. */
  predicate Covers(j: int, p: int)
  {
    j > 0 && j - LowBit(j) < p <= j
  }

  /** Stepping to `i + LowBit(i)` at least doubles the low bit. */
  lemma {:induction false} LowBitGrows(i: int)
    requires i > 0
    ensures LowBit(i + LowBit(i)) >= 2 * LowBit(i)
  {
    if i % 2 == 0 {
      var h := i / 2;
      assert i + LowBit(i) == 2 * (h + LowBit(h));
      LowBitGrows(h);
    }
  }

  /** Adding less than the low bit of `i` leaves the low bit of the addend. */
  lemma {:induction false} LowBitSmallAdd(i: int, r: int)
    requires i > 0 && 0 < r < LowBit(i)
    ensures LowBit(i + r) == LowBit(r)
  {
    if r % 2 == 0 {
      assert i % 2 == 0;
      assert i + r == 2 * (i / 2 + r / 2);
      LowBitSmallAdd(i / 2, r / 2);
    }
  }

  /** No slot strictly between `i` and `i + LowBit(i)` covers a position that `i` covers. */
  lemma NoCoverBetween(i: int, p: int, j: int)
    requires Covers(i, p) && i < j < i + LowBit(i)
    ensures !Covers(j, p)
  {
    LowBitSmallAdd(i, j - i);
  }

  /** The next slot `Add` updates after `i` still covers `p`, and none in between does. */
  lemma CoverStep(i: int, p: int)
    requires Covers(i, p)
    ensures Covers(i + LowBit(i), p)
    ensures forall j :: i < j < i + LowBit(i) ==> !Covers(j, p)
  {
    LowBitGrows(i);
    forall j | i < j < i + LowBit(i)
      ensures !Covers(j, p)
    {
      NoCoverBetween(i, p, j);
    }
  }

  /** Every slot `j` (1-based) of `slots` holds the sum of the `LowBit(j)` values ending at item `j - 1`. */
  ghost predicate SlotsHold(slots: seq<real>, vals: seq<real>)
  {
    |slots| == |vals| + 1 && forall j :: 1 <= j < |slots| ==> SlotHoldsIn(slots, vals, j)
  }

  /** Slot `j` of `slots` holds the sum of the `LowBit(j)` values ending at item `j - 1`. */
  ghost predicate SlotHoldsIn(slots: seq<real>, vals: seq<real>, j: int)
    requires 1 <= j < |slots| == |vals| + 1
  {
    slots[j] == Sum(vals[j - LowBit(j) .. j])
  }

  /** `slots` with `delta` added to every slot below `i` that covers position `p`. */
  function Bumped(slots: seq<real>, p: int, i: int, delta: real): (r: seq<real>)
    ensures |r| == |slots|
  {
    seq(|slots|, j requires 0 <= j < |slots| => slots[j] + (if j < i && Covers(j, p) then delta else 0.0))
  }

  /** One step of `Add`'s loop: bumping slot `i` bumps every covering slot below the next one. */
  lemma BumpStep(slots: seq<real>, p: int, i: int, delta: real)
    requires Covers(i, p) && i < |slots|
    ensures Covers(i + LowBit(i), p)
    ensures Bumped(slots, p, i, delta)[i := Bumped(slots, p, i, delta)[i] + delta] == Bumped(slots, p, i + LowBit(i), delta)
  {
    CoverStep(i, p);
  }

  /** `vals` with `delta` added to item `index`; unchanged when `index` is past the end. */
  function AddedAt(vals: seq<real>, index: int, delta: real): (r: seq<real>)
    requires index >= 0
    ensures |r| == |vals|
  {
    if index < |vals| then vals[index := vals[index] + delta] else vals
  }

  /**
   * After `Add`'s loop, the slots covering position `index + 1` have grown by
   * `delta`: they hold the sums of the values with item `index` increased.
   */
  lemma AddRestores(slots: seq<real>, vals: seq<real>, index: int, p: int, delta: real, i: int)
    requires SlotsHold(slots, vals) && index >= 0 && p == index + 1 && i > |vals|
    ensures SlotsHold(Bumped(slots, p, i, delta), AddedAt(vals, index, delta))
  {
    forall j | 1 <= j < |slots|
      ensures SlotHoldsIn(Bumped(slots, p, i, delta), AddedAt(vals, index, delta), j)
    {
      assert SlotHoldsIn(slots, vals, j);
      if index < |vals| {
        RangeSumUpdate(vals, index, delta, j - LowBit(j), j);
      }
    }
  }

  /** A power of two is its own low bit. */
  lemma {:induction false} LowBitOfPow2(p: int)
    requires IsPow2(p)
    ensures LowBit(p) == p
  {
    if p > 1 {
      LowBitOfPow2(p / 2);
    }
  }

  /**
   * In the descent, a position whose low bit exceeds `step` (or zero) plus
   * `step` has low bit `step`: the slot there sums exactly the next `step` items.
   */
  lemma DescentLowBit(idx: int, step: int)
    requires IsPow2(step) && idx >= 0
    requires idx == 0 || LowBit(idx) > step
    ensures LowBit(idx + step) == step
  {
    LowBitOfPow2(step);
    if idx > 0 {
      LowBitSmallAdd(idx, step);
    }
  }

  /**
   * The reference definition of `lowerBound`: the smallest item index `i`
   * (from `from` on) whose inclusive prefix sum exceeds `target`, or the last
   * index when there is none.
   */
  function FirstExceeding(s: seq<real>, target: real, from: int): (r: int)
    requires 0 <= from < |s|
    ensures from <= r < |s|
    decreases |s| - from
  {
    if Sum(s[..from + 1]) > target || from == |s| - 1 then from
    else FirstExceeding(s, target, from + 1)
  }

  /** `lowerBound` on values `s`: -1 when empty, 0 for a non-positive target. */
  function LowerBoundSpec(s: seq<real>, target: real): int
  {
    if |s| == 0 then -1
    else if target <= 0.0 then 0
    else FirstExceeding(s, target, 0)
  }

  /** `FirstExceeding` is the unique index with no earlier crossing that crosses (or is last). */
  lemma {:induction false} FirstExceedingIs(s: seq<real>, target: real, from: int, m: int)
    requires 0 <= from <= m < |s|
    requires forall j :: from < j <= m ==> Sum(s[..j]) <= target
    requires m == |s| - 1 || Sum(s[..m + 1]) > target
    ensures FirstExceeding(s, target, from) == m
    decreases m - from
  {
    if from < m {
      FirstExceedingIs(s, target, from + 1, m);
    }
  }

  /** What `FirstExceeding` promises: no earlier item crosses, and the found one does unless it is last. */
  lemma {:induction false} FirstExceedingProperties(s: seq<real>, target: real, from: int)
    requires 0 <= from < |s|
    ensures forall j :: from < j <= FirstExceeding(s, target, from) ==> Sum(s[..j]) <= target
    ensures FirstExceeding(s, target, from) < |s| - 1 ==> Sum(s[..FirstExceeding(s, target, from) + 1]) > target
    decreases |s| - from
  {
    if !(Sum(s[..from + 1]) > target || from == |s| - 1) {
      FirstExceedingProperties(s, target, from + 1);
    }
  }

  /** Halving a power of two above one gives a power of two; halving one gives zero. */
  lemma HalvePow2(p: int)
    requires IsPow2(p)
    ensures p == 1 ==> p / 2 == 0
    ensures p > 1 ==> IsPow2(p / 2) && p == 2 * (p / 2)
  {
  }

  /**
   * Where the descent stops (the last position whose prefix sum stays within
   * `target`) is the answer of `LowerBoundSpec`, capped at the last index.
   */
  lemma DescentResult(s: seq<real>, target: real, idx: int)
    requires NonNegative(s) && |s| > 0 && target > 0.0
    requires 0 <= idx <= |s| && Sum(s[..idx]) <= target
    requires idx == |s| || Sum(s[..idx + 1]) > target
    ensures (if idx < |s| - 1 then idx else |s| - 1) == LowerBoundSpec(s, target)
  {
    var r := if idx < |s| - 1 then idx else |s| - 1;
    forall j | 0 < j <= r
      ensures Sum(s[..j]) <= target
    {
      PrefixMonotone(s, j, idx);
    }
    FirstExceedingIs(s, target, 0, r);
  }

  class FenwickTree {
    const n: nat
    const bit: array<real>
    /** The item values the tree currently sums. */
    ghost var vals: seq<real>

    ghost predicate Valid()
      reads this, bit
    {
      bit.Length == n + 1 && |vals| == n && SlotsHold(bit[..], vals)
    }

    /** Slot `j` holds the sum of the `LowBit(j)` items ending at item `j - 1`. */
    lemma SlotHolds(j: int)
      requires Valid() && 1 <= j <= n
      ensures j - LowBit(j) >= 0 && bit[j] == Sum(vals[j - LowBit(j) .. j])
    {
      assert SlotHoldsIn(bit[..], vals, j);
    }

    /** A tree of `n` zero items. */
    constructor (n: nat)
      ensures Valid() && this.n == n && vals == seq(n, _ => 0.0) && fresh(bit)
    {
      this.n := n;
      bit := new real[n + 1](_ => 0.0);
      vals := seq(n, _ => 0.0);
      new;
      forall j | 1 <= j <= n
        ensures SlotHoldsIn(bit[..], vals, j)
      {
        SumZeros(vals[j - LowBit(j) .. j]);
      }
    }

    /** Adds `delta` to item `index`; an index at or past `n` changes nothing. */
    method Add(index: int, delta: real)
      requires Valid() && index >= 0
      modifies this, bit
      ensures Valid()
      ensures vals == if index < n then old(vals)[index := old(vals)[index] + delta] else old(vals)
    {
      var p := index + 1;
      ghost var oldBit, before := bit[..], vals;
      var i := p;
      while i <= n
        modifies bit
        invariant Covers(i, p)
        invariant bit[..] == Bumped(oldBit, p, i, delta)
        decreases n + 1 - i
      {
        BumpStep(oldBit, p, i, delta);
        ghost var cur := bit[..];
        bit[i] := bit[i] + delta;
        assert bit[..] == cur[i := cur[i] + delta];
        i := i + LowBit(i);
      }
      if index < n {
        vals := vals[index := vals[index] + delta];
      }
      AddRestores(oldBit, before, index, p, delta, i);
    }

    /** Replaces all items by `values`; throws when the length differs from `n`. */
    method BuildFrom(values: seq<real>) returns (r: Outcome<GridError>)
      requires Valid()
      modifies this, bit
      ensures Valid()
      ensures r.Fail? <==> |values| != n
      ensures r.Fail? ==> r.error == LengthMismatch && vals == old(vals) && unchanged(bit)
      ensures r.Pass? ==> vals == values
    {
      if |values| != n {
        return Fail(LengthMismatch);
      }
      var j := 0;
      while j < bit.Length
        invariant 0 <= j <= bit.Length
        invariant forall t :: 0 <= t < j ==> bit[t] == 0.0
      {
        bit[j] := 0.0;
        j := j + 1;
      }
      vals := seq(n, _ => 0.0);
      forall t | 1 <= t <= n
        ensures SlotHoldsIn(bit[..], vals, t)
      {
        SumZeros(vals[t - LowBit(t) .. t]);
      }
      var i := 0;
      while i < n
        invariant 0 <= i <= n
        invariant Valid()
        invariant vals == values[..i] + seq(n - i, _ => 0.0)
      {
        Add(i, values[i]);
        assert vals == values[..i + 1] + seq(n - (i + 1), _ => 0.0);
        i := i + 1;
      }
      assert values[..n] == values;
      return Pass;
    }

    /** The slot the descent probes next holds the sum of the next `step` items. */
    lemma DescentSlot(idx: int, step: int)
      requires Valid() && IsPow2(step) && idx >= 0 && idx + step <= n
      requires idx == 0 || LowBit(idx) > step
      ensures LowBit(idx + step) == step
      ensures Sum(vals[..idx]) + bit[idx + step] == Sum(vals[..idx + step])
    {
      DescentLowBit(idx, step);
      SlotHolds(idx + step);
      SumSplit(vals, idx, idx + step);
    }

    /** Items `[0, end)` reach past the tree or sum to more than `target`. */
    ghost predicate Overshoots(end: int, target: real)
      reads this
    {
      end > |vals| || (0 <= end && Sum(vals[..end]) > target)
    }

    /** The sum of items `[0, endIndex)`; zero for a non-positive `endIndex`. */
    method SumPrefixExclusive(endIndex: int) returns (res: real)
      requires Valid() && endIndex <= n
      ensures res == if endIndex <= 0 then 0.0 else Sum(vals[..endIndex])
    {
      res := 0.0;
      var i := endIndex;
      while i > 0
        invariant i <= endIndex
        invariant endIndex <= 0 ==> res == 0.0
        invariant endIndex > 0 ==> 0 <= i && res + Sum(vals[..i]) == Sum(vals[..endIndex])
        decreases i
      {
        SlotHolds(i);
        SumSplit(vals, i - LowBit(i), i);
        res := res + bit[i];
        i := i - LowBit(i);
      }
      if endIndex > 0 {
        assert i == 0 && vals[..i] == [];
        assert Sum(vals[..i]) == 0.0;
      }
    }

    /** The sum of every item. */
    method SumAll() returns (res: real)
      requires Valid()
      ensures res == Sum(vals)
    {
      res := SumPrefixExclusive(n);
      assert vals[..n] == vals;
    }

    /** The largest power of two not above `n` (`n > 0`). */
    method InitialStep() returns (p: int)
      requires n > 0
      ensures IsPow2(p) && p <= n < 2 * p
    {
      p := 1;
      while 2 * p <= n
        invariant IsPow2(p) && p <= n
        decreases n - p
      {
        p := 2 * p;
      }
    }

    /**
     * The smallest item index whose inclusive prefix sum exceeds `target`
     * (the last index when none does); -1 for an empty tree and 0 for a
     * non-positive target.
     */
    method LowerBound(target: real) returns (r: int)
      requires Valid()
      ensures n == 0 ==> r == -1
      ensures n > 0 ==> 0 <= r < n
      ensures NonNegative(vals) ==> r == LowerBoundSpec(vals, target)
    {
      if n == 0 {
        return -1;
      }
      if target <= 0.0 {
        return 0;
      }
      var idx := 0;
      var step := InitialStep();
      var curr := 0.0;
      while step != 0
        invariant 0 <= idx <= n
        invariant step == 0 || IsPow2(step)
        invariant step > 0 && idx > 0 ==> LowBit(idx) >= 2 * step
        invariant curr == Sum(vals[..idx]) <= target
        invariant Overshoots(idx + (if step == 0 then 1 else 2 * step), target)
        decreases step
      {
        var next := idx + step;
        HalvePow2(step);
        if next <= n {
          DescentSlot(idx, step);
        }
        if next <= n && curr + bit[next] <= target {
          idx := next;
          curr := curr + bit[next];
        } else {
          assert Overshoots(next, target);
        }
        step := step / 2;
      }
      r := if idx < n - 1 then idx else n - 1;
      if NonNegative(vals) {
        DescentResult(vals, target, idx);
      }
    }
  }
}
