/**
 * Row checkbox selection: a set of selected row ids, replaced by the
 * updaters of `useRowSelection`, and the queries over it.
 */
module RowSelection {

  /** Adding an element that is absent, deleting one that is present. */
  function Toggle<T>(s: set<T>, x: T): (r: set<T>)
    ensures x in r <==> x !in s
    ensures forall y :: y in s && y != x ==> y in r
    ensures forall y :: y in r && y != x ==> y in s
    ensures |r| == if x in s then |s| - 1 else |s| + 1
  {
    if x in s then s - {x} else s + {x}
  }

  /** Toggling the same element twice restores the set. */
  lemma ToggleTwice<T>(s: set<T>, x: T)
    ensures Toggle(Toggle(s, x), x) == s
  {
  }

  /** `new Set(ids)`: the distinct ids of the list. */
  function Elements<T>(ids: seq<T>): (r: set<T>)
    ensures forall i :: 0 <= i < |ids| ==> ids[i] in r
    ensures forall x :: x in r ==> x in ids
    ensures |r| <= |ids|
  {
    if |ids| == 0 then {}
    else
      var rest := Elements(ids[1..]);
      rest + {ids[0]}
  }

  /** `isAllSelected`: the list is non-empty and every id in it is selected. */
  predicate AllSelected<T>(s: set<T>, ids: seq<T>)
  {
    |ids| > 0 && forall i :: 0 <= i < |ids| ==> ids[i] in s
  }

  /** `toggleAll`: clear when every listed id is selected, otherwise select exactly the listed ids. */
  function ToggleAllOf<T>(s: set<T>, ids: seq<T>): set<T>
  {
    if AllSelected(s, ids) then {} else Elements(ids)
  }

  /**
   * On a non-empty list, `toggleAll` flips `isAllSelected`; on an empty
   * list it clears the selection.
   */
  lemma {:induction false} ToggleAllFlips<T>(s: set<T>, ids: seq<T>)
    ensures |ids| > 0 ==> (AllSelected(ToggleAllOf(s, ids), ids) <==> !AllSelected(s, ids))
    ensures |ids| == 0 ==> ToggleAllOf(s, ids) == {}
  {
    if |ids| > 0 && AllSelected(s, ids) {
      assert ids[0] !in ToggleAllOf(s, ids);
    }
    if |ids| > 0 && !AllSelected(s, ids) {
      forall i | 0 <= i < |ids|
        ensures ids[i] in ToggleAllOf(s, ids)
      {
        assert ids[i] in ids;
      }
    }
  }

  class Selection<Id(==)> {
    /** The selected row ids. */
    var selectedRows: set<Id>

    /** Nothing is selected at first. */
    constructor ()
      ensures selectedRows == {} && SelectedCount() == 0
    {
      selectedRows := {};
    }

    predicate IsSelected(id: Id)
      reads this
    {
      id in selectedRows
    }

    /** The number of selected rows. */
    function SelectedCount(): (n: nat)
      reads this
      ensures n == 0 <==> selectedRows == {}
    {
      |selectedRows|
    }

    /** `isAllSelected`. */
    predicate IsAllSelected(ids: seq<Id>)
      reads this
    {
      AllSelected(selectedRows, ids)
    }

    /** `toggleRow`: flips the one id and leaves every other id as it was. */
    method ToggleRow(id: Id)
      modifies this
      ensures selectedRows == Toggle(old(selectedRows), id)
      ensures IsSelected(id) <==> !old(IsSelected(id))
    {
      var next := selectedRows;
      if id in next {
        next := next - {id};
      } else {
        next := next + {id};
      }
      selectedRows := next;
    }

    /** `selectAll`: exactly the listed ids. */
    method SelectAll(ids: seq<Id>)
      modifies this
      ensures selectedRows == Elements(ids)
      ensures |ids| > 0 ==> IsAllSelected(ids)
    {
      selectedRows := Elements(ids);
    }

    /** `clearAll`. */
    method ClearAll()
      modifies this
      ensures selectedRows == {} && SelectedCount() == 0
    {
      selectedRows := {};
    }

    /** `toggleAll`. */
    method ToggleAll(ids: seq<Id>)
      modifies this
      ensures selectedRows == ToggleAllOf(old(selectedRows), ids)
      ensures |ids| > 0 ==> (IsAllSelected(ids) <==> !old(IsAllSelected(ids)))
    {
      ToggleAllFlips(selectedRows, ids);
      var allSelected := |ids| > 0 && forall i :: 0 <= i < |ids| ==> ids[i] in selectedRows;
      selectedRows := if allSelected then {} else Elements(ids);
    }
  }
}
