/**
 * The editing hook's commit policy: a controller that holds the editing
 * state, dispatches reducer actions step by step, and records the changes
 * it hands to `onCommit`. The validator's verdict is an input of `Commit`.
 */
module UseEditing {
  import opened Wrappers
  import opened HitTestModel
  import opened EditingReducer

  /** A validator's verdict; a failing one carries the message to show. */
  datatype ValidationResult = Passed | Failed(message: string)

  /** The keys that navigate the grid, suppressed while an editor input has focus. */
  const GridNavKeys: set<string> := {"ArrowUp", "ArrowDown", "ArrowLeft", "ArrowRight", "Home", "End", "PageUp", "PageDown"}

  /** What a key press did: nothing, cancel, commit or start an edit; and whether its default was prevented. */
  datatype KeyEffect = NoEffect | Cancelled | Committed | Started
  datatype KeyOutcome = KeyOutcome(effect: KeyEffect, preventDefault: bool)

  class Editing<V(==)> {
    /** `getValue`: the committed value of a cell, which seeds the editor. */
    const getValue: (int, int) -> V
    /** `isEditable`, when given. */
    const isEditable: Option<(int, int) -> bool>
    /** Whether a `validate` callback is given. */
    const validates: bool
    /** Whether an `onCommit` callback is given. */
    const notifies: bool

    var state: EditingState<V>
    /** Every action dispatched to the reducer, in order. */
    var dispatched: seq<EditingAction<V>>
    /** The changes passed to `onCommit`, in order. */
    var committed: seq<CellChange<V>>

    constructor (getValue: (int, int) -> V, isEditable: Option<(int, int) -> bool>, validates: bool, notifies: bool)
      ensures this.getValue == getValue && this.isEditable == isEditable
      ensures this.validates == validates && this.notifies == notifies
      ensures state == InitialState() && dispatched == [] && committed == []
    {
      this.getValue := getValue;
      this.isEditable := isEditable;
      this.validates := validates;
      this.notifies := notifies;
      state := InitialState();
      dispatched := [];
      committed := [];
    }

    /** `isEditing`: the open session is on this cell. */
    predicate IsEditing(row: int, col: int)
      reads this
    {
      EditsCell(state, row, col)
    }

    /** `editValue`: the value in the editor, when a session is open. */
    function EditValue(): (v: Option<V>)
      reads this
      ensures v.Some? <==> state.activeEdit.Some?
    {
      if state.activeEdit.Some? then Some(state.activeEdit.value.currentValue) else None
    }

    /** A cell may be edited unless `isEditable` says otherwise. */
    predicate MayEdit(row: int, col: int)
      reads this
    {
      isEditable.None? || isEditable.value(row, col)
    }

    method Dispatch(a: EditingAction<V>)
      modifies this
      ensures state == Reduce(old(state), a)
      ensures dispatched == old(dispatched) + [a] && committed == old(committed)
    {
      state := Reduce(state, a);
      dispatched := dispatched + [a];
    }

    /**
     * `startEdit`: nothing when the cell is not editable; otherwise a fresh
     * session on the cell, seeded with its committed value, is the only edit.
     */
    method StartEdit(row: int, col: int)
      modifies this
      ensures !MayEdit(row, col) ==> state == old(state) && dispatched == old(dispatched)
      ensures MayEdit(row, col) ==>
        state.activeEdit == Some(ActiveEdit(row, col, getValue(row, col), getValue(row, col), Idle, None)) &&
        dispatched == old(dispatched) + [EditingAction.StartEdit(row, col, getValue(row, col))]
      ensures MayEdit(row, col) ==> forall r, c :: IsEditing(r, c) <==> r == row && c == col
      ensures committed == old(committed)
    {
      if !MayEdit(row, col) {
        return;
      }
      Dispatch(EditingAction.StartEdit(row, col, getValue(row, col)));
    }

    /** `setEditValue`. */
    method SetEditValue(v: V)
      modifies this
      ensures state == Reduce(old(state), UpdateEditValue(v))
      ensures dispatched == old(dispatched) + [UpdateEditValue(v)] && committed == old(committed)
    {
      Dispatch(UpdateEditValue(v));
    }

    /**
     * `commit`: with no session nothing happens. With a validator the cell is
     * marked validating and then given the verdict; a failing verdict keeps
     * the session open, invalid, with its message, and commits nothing.
     * Otherwise the session closes, and `onCommit` receives the change once
     * when the value differs from the one the session started with.
     */
    method Commit(verdict: ValidationResult)
      modifies this
      ensures old(state).activeEdit.None? ==>
        state == old(state) && dispatched == old(dispatched) && committed == old(committed)
      ensures old(state).activeEdit.Some? && validates && verdict.Failed? ==>
        var e := old(state).activeEdit.value;
        state.activeEdit == Some(e.(validationState := Invalid, validationMessage := Some(verdict.message))) &&
        dispatched == old(dispatched) + [SetValidating(e.row, e.col),
                                         SetValidationResult(e.row, e.col, false, Some(verdict.message))] &&
        committed == old(committed)
      ensures old(state).activeEdit.Some? && !(validates && verdict.Failed?) ==>
        var e := old(state).activeEdit.value;
        state.activeEdit.None? &&
        dispatched == old(dispatched) +
          (if validates then [SetValidating(e.row, e.col), SetValidationResult(e.row, e.col, true, None)] else []) +
          [CommitEdit] &&
        committed == old(committed) +
          (if notifies && e.currentValue != e.initialValue
           then [CellChange(e.row, e.col, e.initialValue, e.currentValue)] else [])
    {
      if state.activeEdit.None? {
        return;
      }
      var e := state.activeEdit.value;
      if validates {
        Dispatch(SetValidating(e.row, e.col));
        var message := if verdict.Passed? then None else Some(verdict.message);
        Dispatch(SetValidationResult(e.row, e.col, verdict.Passed?, message));
        if verdict.Failed? {
          return;
        }
      }
      Dispatch(CommitEdit);
      if e.currentValue != e.initialValue && notifies {
        committed := committed + [CellChange(e.row, e.col, e.initialValue, e.currentValue)];
      }
    }

    /** `cancel`: the session closes and nothing is committed. */
    method Cancel()
      modifies this
      ensures state.activeEdit.None?
      ensures dispatched == old(dispatched) + [CancelEdit] && committed == old(committed)
    {
      Dispatch(CancelEdit);
    }

    /**
     * The key handler. In an editor input during a session: Escape cancels,
     * Enter commits, Tab commits without preventing focus movement, grid
     * navigation keys are suppressed and others pass through. Elsewhere,
     * F2 with no session starts an edit at the focus cell, if there is one.
     */
    method OnKeyDown(key: string, inputFocused: bool, focusCell: Option<CellRef>, verdict: ValidationResult)
      returns (out: KeyOutcome)
      modifies this
      ensures old(state).activeEdit.Some? && inputFocused ==>
        out == (if key == "Escape" then KeyOutcome(Cancelled, true)
                else if key == "Enter" then KeyOutcome(Committed, true)
                else if key == "Tab" then KeyOutcome(Committed, false)
                else KeyOutcome(NoEffect, key in GridNavKeys))
      ensures !(old(state).activeEdit.Some? && inputFocused) ==>
        out == (if key == "F2" && old(state).activeEdit.None? && focusCell.Some?
                then KeyOutcome(Started, true) else KeyOutcome(NoEffect, false))
      ensures out.effect == NoEffect ==> state == old(state) && dispatched == old(dispatched) && committed == old(committed)
      ensures out.effect == Cancelled ==> state.activeEdit.None? && committed == old(committed)
      ensures out.effect == Committed && validates && verdict.Failed? ==>
        state.activeEdit.Some? && state.activeEdit.value.validationState == Invalid && committed == old(committed)
      ensures out.effect == Committed && !(validates && verdict.Failed?) ==> state.activeEdit.None?
      ensures out.effect == Started ==>
        var c := focusCell.value;
        (MayEdit(c.row, c.col) ==> IsEditing(c.row, c.col)) &&
        (!MayEdit(c.row, c.col) ==> state == old(state))
    {
      if state.activeEdit.Some? && inputFocused {
        if key == "Escape" {
          Cancel();
          return KeyOutcome(Cancelled, true);
        }
        if key == "Enter" {
          Commit(verdict);
          return KeyOutcome(Committed, true);
        }
        if key == "Tab" {
          Commit(verdict);
          return KeyOutcome(Committed, false);
        }
        return KeyOutcome(NoEffect, key in GridNavKeys);
      }
      if key == "F2" && state.activeEdit.None? {
        if focusCell.Some? {
          StartEdit(focusCell.value.row, focusCell.value.col);
          return KeyOutcome(Started, true);
        }
      }
      return KeyOutcome(NoEffect, false);
    }
  }

  /**
   * A commit that passes validation closes the session, and the change it
   * reports takes the session's starting value as the previous value.
   */
  lemma CommitReportsSession<V>(e: ActiveEdit<V>)
    ensures Reduce(EditingState(Some(e)), CommitEdit).activeEdit.None?
    ensures Reduce(Reduce(EditingState(Some(e)), SetValidating(e.row, e.col)),
                   SetValidationResult(e.row, e.col, true, None)).activeEdit ==
            Some(e.(validationState := Valid, validationMessage := None))
  {
  }
}
