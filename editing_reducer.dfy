/**
 * The editing kernel: at most one cell-edit session, opened, updated,
 * validated and closed by a pure reducer over editing actions.
 */
module EditingReducer {
  import opened Wrappers

  datatype ValidationState = Idle | Validating | Valid | Invalid

  /** The open session: its cell, the value it started from, the value typed so far and its validation. */
  datatype ActiveEdit<V> = ActiveEdit(
    row: int,
    col: int,
    initialValue: V,
    currentValue: V,
    validationState: ValidationState,
    validationMessage: Option<string>)

  datatype EditingState<V> = EditingState(activeEdit: Option<ActiveEdit<V>>)

  datatype EditingAction<V> =
    | StartEdit(row: int, col: int, initialValue: V)
    | UpdateEditValue(value: V)
    | SetValidating(row: int, col: int)
    | SetValidationResult(row: int, col: int, valid: bool, message: Option<string>)
    | CommitEdit
    | CancelEdit

  /** A committed change: the cell, the value before editing and the value committed. */
  datatype CellChange<V> = CellChange(row: int, col: int, previousValue: V, newValue: V)

  /** `EditingKernel.createInitialState`: no session. */
  function InitialState<V>(): (s: EditingState<V>)
    ensures s.activeEdit.None?
  {
    EditingState(None)
  }

  /** The session is open on cell `(row, col)`. */
  predicate EditsCell<V>(s: EditingState<V>, row: int, col: int)
  {
    s.activeEdit.Some? && s.activeEdit.value.row == row && s.activeEdit.value.col == col
  }

  /** `editingReducer`. */
  function Reduce<V>(s: EditingState<V>, a: EditingAction<V>): (r: EditingState<V>)
    ensures a.CommitEdit? || a.CancelEdit? ==> r.activeEdit.None?
    ensures a.StartEdit? ==> EditsCell(r, a.row, a.col)
    ensures !a.StartEdit? && r.activeEdit.Some? ==>
      s.activeEdit.Some? && r.activeEdit.value.row == s.activeEdit.value.row &&
      r.activeEdit.value.col == s.activeEdit.value.col &&
      r.activeEdit.value.initialValue == s.activeEdit.value.initialValue
  {
    match a
    case StartEdit(row, col, initialValue) =>
      EditingState(Some(ActiveEdit(row, col, initialValue, initialValue, Idle, None)))
    case UpdateEditValue(value) =>
      if s.activeEdit.None? then s
      else EditingState(Some(s.activeEdit.value.(currentValue := value, validationState := Idle, validationMessage := None)))
    case SetValidating(row, col) =>
      if !EditsCell(s, row, col) then s
      else EditingState(Some(s.activeEdit.value.(validationState := Validating)))
    case SetValidationResult(row, col, valid, message) =>
      if !EditsCell(s, row, col) then s
      else EditingState(Some(s.activeEdit.value.(validationState := if valid then Valid else Invalid,
                                                 validationMessage := message)))
    case CommitEdit => EditingState(None)
    case CancelEdit => EditingState(None)
  }

  /** Starting an edit replaces whatever session was open with a fresh, unvalidated one. */
  lemma StartEditOpensFresh<V>(s: EditingState<V>, row: int, col: int, v: V)
    ensures Reduce(s, StartEdit(row, col, v)).activeEdit ==
      Some(ActiveEdit(row, col, v, v, Idle, None))
  {
  }

  /** Typing changes only the current value and resets validation; without a session it is ignored. */
  lemma UpdateEditValueEffect<V>(s: EditingState<V>, v: V)
    ensures s.activeEdit.None? ==> Reduce(s, UpdateEditValue(v)) == s
    ensures s.activeEdit.Some? ==>
      var e := Reduce(s, UpdateEditValue(v)).activeEdit;
      e.Some? && e.value.currentValue == v && e.value.validationState == Idle && e.value.validationMessage.None? &&
      e.value.row == s.activeEdit.value.row && e.value.col == s.activeEdit.value.col &&
      e.value.initialValue == s.activeEdit.value.initialValue
  {
  }

  /**
   * A validation action changes the state only when a session is open on
   * its cell, so a result that arrives for an older session is dropped.
   */
  lemma StaleValidationDropped<V>(s: EditingState<V>, a: EditingAction<V>)
    requires a.SetValidating? || a.SetValidationResult?
    ensures !EditsCell(s, a.row, a.col) ==> Reduce(s, a) == s
    ensures EditsCell(s, a.row, a.col) ==>
      (EditsCell(Reduce(s, a), a.row, a.col) &&
       Reduce(s, a).activeEdit.value.currentValue == s.activeEdit.value.currentValue)
  {
  }

  /** A validation result for the open session records its verdict and message. */
  lemma ValidationResultRecorded<V>(s: EditingState<V>, row: int, col: int, valid: bool, message: Option<string>)
    requires EditsCell(s, row, col)
    ensures var e := Reduce(s, SetValidationResult(row, col, valid, message)).activeEdit.value;
      (e.validationState == Valid <==> valid) && (e.validationState == Invalid <==> !valid) &&
      e.validationMessage == message
  {
  }

  /** An action the hook can dispatch: a passing result never carries a message. */
  predicate Dispatchable<V>(a: EditingAction<V>)
  {
    a.SetValidationResult? ==> (a.valid ==> a.message.None?)
  }

  /**
   * A session holds a message only while it is invalid, or while it is being
   * revalidated after failing (`SetValidating` keeps the old message).
   */
  predicate MessageOnlyWhenInvalid<V>(s: EditingState<V>)
  {
    s.activeEdit.Some? && s.activeEdit.value.validationMessage.Some? ==>
      s.activeEdit.value.validationState in {Invalid, Validating}
  }

  /** Every action the hook dispatches keeps messages tied to a failed validation. */
  lemma ReducePreservesMessageInvariant<V>(s: EditingState<V>, a: EditingAction<V>)
    requires MessageOnlyWhenInvalid(s) && Dispatchable(a)
    ensures MessageOnlyWhenInvalid(Reduce(s, a))
  {
  }
}
