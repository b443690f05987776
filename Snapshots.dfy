/** The session undo and redo stacks of the databases. Each stack holds
    copies of the database file, the most recent last; `undo` and `redo`
    swap the current database with the top copy of one stack, after
    pushing the current one on the other. The file names, the copying and
    the deletion of the session files are not modelled; a copy is a value. */
module Snapshots {

  datatype History<T> = History(current: T, undo: seq<T>, redo: seq<T>)

  /** `prepare_undo()`: the current database is pushed on the undo stack. */
  function PrepareUndo<T>(h: History<T>): (r: History<T>)
    ensures r.current == h.current && r.redo == h.redo
    ensures |r.undo| == |h.undo| + 1 && r.undo[..|h.undo|] == h.undo && r.undo[|h.undo|] == h.current
  {
    h.(undo := h.undo + [h.current])
  }

  /** `undo()`: nothing when the undo stack is empty; otherwise the current
      database goes on the redo stack and the top of the undo stack becomes
      current. */
  function Undo<T>(h: History<T>): (r: History<T>)
    ensures h.undo == [] ==> r == h
    ensures h.undo != [] ==> && r.current == h.undo[|h.undo| - 1]
                             && r.undo == h.undo[..|h.undo| - 1]
                             && r.redo == h.redo + [h.current]
  {
    if h.undo == [] then h
    else History(h.undo[|h.undo| - 1], h.undo[..|h.undo| - 1], h.redo + [h.current])
  }

  /** `redo()`: the mirror image of `undo()`. */
  function Redo<T>(h: History<T>): (r: History<T>)
    ensures h.redo == [] ==> r == h
    ensures h.redo != [] ==> && r.current == h.redo[|h.redo| - 1]
                             && r.redo == h.redo[..|h.redo| - 1]
                             && r.undo == h.undo + [h.current]
  {
    if h.redo == [] then h
    else History(h.redo[|h.redo| - 1], h.undo + [h.current], h.redo[..|h.redo| - 1])
  }

  /** An undo followed by a redo restores the database and both stacks. */
  lemma RedoAfterUndo<T>(h: History<T>)
    requires h.undo != []
    ensures Redo(Undo(h)) == h
  {
    assert h.undo[..|h.undo| - 1] + [h.undo[|h.undo| - 1]] == h.undo;
  }

  /** A redo followed by an undo restores the database and both stacks. */
  lemma UndoAfterRedo<T>(h: History<T>)
    requires h.redo != []
    ensures Undo(Redo(h)) == h
  {
    assert h.redo[..|h.redo| - 1] + [h.redo[|h.redo| - 1]] == h.redo;
  }

  /** Undoing right after saving a copy of the current database gives that
      database back. */
  lemma UndoAfterPrepare<T>(h: History<T>)
    ensures Undo(PrepareUndo(h)).current == h.current
    ensures Undo(PrepareUndo(h)).undo == h.undo
  {
  }
}
