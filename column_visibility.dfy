/**
 * Column show/hide state: the set of hidden original column indices kept
 * by `useColumnVisibility`.
 */
module ColumnVisibility {
  import opened RowSelection

  /** A non-empty set has a member. */
  lemma HasMember(s: set<int>)
    requires s != {}
    ensures exists i :: i in s
  {
    if forall i :: i !in s {
      assert false;
    }
  }

  class Visibility {
    /** The hidden original column indices. */
    var hiddenCols: set<int>

    /** Every column is visible at first; the column count is not used. */
    constructor (colCount: int)
      ensures hiddenCols == {}
      ensures forall i :: IsVisible(i)
    {
      hiddenCols := {};
    }

    predicate IsVisible(origIdx: int)
      reads this
    {
      origIdx !in hiddenCols
    }

    /** The number of hidden columns. */
    function HiddenCount(): (n: nat)
      reads this
      ensures n == 0 <==> forall i :: IsVisible(i)
    {
      if hiddenCols == {} then 0
      else
        HasMember(hiddenCols);
        assert exists i :: i in hiddenCols && !IsVisible(i);
        |hiddenCols|
    }

    /** `toggleVisibility`: flips one index; the hidden count moves by one. */
    method ToggleVisibility(origIdx: int)
      modifies this
      ensures hiddenCols == Toggle(old(hiddenCols), origIdx)
      ensures IsVisible(origIdx) <==> !old(IsVisible(origIdx))
      ensures forall i :: i != origIdx ==> (IsVisible(i) <==> old(IsVisible(i)))
      ensures HiddenCount() == if old(IsVisible(origIdx)) then old(HiddenCount()) + 1 else old(HiddenCount()) - 1
    {
      var next := hiddenCols;
      if origIdx in next {
        next := next - {origIdx};
      } else {
        next := next + {origIdx};
      }
      hiddenCols := next;
    }

    /** `showAll`. */
    method ShowAll()
      modifies this
      ensures hiddenCols == {} && HiddenCount() == 0
      ensures forall i :: IsVisible(i)
    {
      hiddenCols := {};
    }
  }
}
