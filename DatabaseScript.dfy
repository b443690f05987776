/** tests/_test_database.py: the key/phrase table and its session undo and
    redo lists as module-level globals. Its `save_entry` behaves like the
    class in tests/test_databases.py. Every change is saved except
    `add_column_if_missing`, whose only caller is `save_entry`, which saves
    once its loop is done; so the file equals `db` on every call sequence
    the program makes. Only the global `db` is modelled, with the undo and
    redo lists holding copies. */
module DatabaseScript {
  import opened Strings
  import opened Wrappers
  import opened KeyTable
  import Snapshots
  import TextUtilities

  /** `strip_trailing_newline(s)` of this file, which has no guard: `s[-1]`
      raises `IndexError` on the empty string, and so on a string of line
      terminators only, once they are removed. Otherwise it agrees with
      text_utilities.py. */
  function StripTrailingNewline(s: string): (r: Result<string>)
    ensures r.Raised? <==> TextUtilities.AllNewlines(s)
    ensures r.Raised? ==> r.error == IndexError
    ensures r.Ok? ==> r.value == TextUtilities.StripTrailingNewline(s)
    decreases |s|
  {
    if s == [] then Raised(IndexError)
    else if TextUtilities.IsNewline(s[|s| - 1]) then
      NewlinesOfFront(s);
      StripTrailingNewline(s[..|s| - 1])
    else Ok(s)
  }

  /** A string ending in a line terminator is all terminators exactly when
      the rest of it is. */
  lemma NewlinesOfFront(s: string)
    requires s != [] && TextUtilities.IsNewline(s[|s| - 1])
    ensures TextUtilities.AllNewlines(s) <==> TextUtilities.AllNewlines(s[..|s| - 1])
  {
    var front := s[..|s| - 1];
    assert forall i :: 0 <= i < |front| ==> front[i] == s[i];
  }

  class ScriptDatabase {
    var db: Table
    var undoList: seq<Table>
    var redoList: seq<Table>

    ghost predicate Valid()
      reads this
    {
      && KeyTable.Valid(db)
      && (forall t :: t in undoList ==> KeyTable.Valid(t))
      && (forall t :: t in redoList ==> KeyTable.Valid(t))
    }

    function History(): Snapshots.History<Table>
      reads this
    {
      Snapshots.History(db, undoList, redoList)
    }

    /** `db = load_database()` and the two empty lists. */
    constructor(saved: Option<Table>)
      requires saved.Some? ==> KeyTable.Valid(saved.value)
      ensures Valid()
      ensures db == (if saved.Some? then saved.value else EmptyTable)
      ensures undoList == [] && redoList == []
    {
      db := if saved.Some? then saved.value else EmptyTable;
      undoList := [];
      redoList := [];
    }

    /** `add_column_if_missing(name)`. */
    method AddColumnIfMissing(name: string)
      requires Valid()
      modifies this
      ensures Valid()
      ensures db == AddColumn(old(db), name)
      ensures undoList == old(undoList) && redoList == old(redoList)
    {
      if name !in db.keys {
        db := db.(keys := db.keys + [name]);
      }
    }

    /** `initialize_db(ks, p)`. */
    method InitializeDb(ks: seq<string>, p: string)
      requires Valid()
      modifies this
      ensures Valid()
      ensures db == Init(ks, p)
      ensures undoList == old(undoList) && redoList == old(redoList)
    {
      db := Init(ks, p);
    }

    /** `save_entry(ks, p)`. */
    method SaveEntry(ks: seq<string>, p: string) returns (outcome: Outcome)
      requires Valid()
      modifies this
      ensures Valid()
      ensures (db, outcome) == StandardSave(old(db), ks, p)
      ensures undoList == old(undoList) && redoList == old(redoList)
      decreases if IsEmpty(db) then 1 else 0
    {
      if p == [] {
        return Done;
      }
      if IsEmpty(db) {
        InitializeDb(ks, p);
        if ks == [] {
          return Failed(RecursionError);
        }
        AssignInit(ks, p);
        outcome := SaveEntry(ks, p);
        return;
      }
      if ks == [] {
        if p !in db.phrases {
          return Done;
        }
        db := Drop(db, p);
      }
      var reset := ResetRow(db, p);
      db := reset;
      for i := 0 to |ks|
        invariant Valid()
        invariant db == AddColumns(reset, ks[..i])
        invariant undoList == old(undoList) && redoList == old(redoList)
      {
        AddColumnsStep(reset, ks, i);
        AddColumnIfMissing(ks[i]);
      }
      assert ks[..|ks|] == ks;
      db := SetTrue(db, p, ks);
      outcome := Done;
    }

    /** `get_phrase_list(ks)`. */
    function GetPhraseList(ks: seq<string>): (r: Option<seq<string>>)
      reads this
      ensures IsPhraseList(db, ks, r)
    {
      PhraseList(db, ks)
    }

    /** `valid_keys(partial)`. */
    function GetValidKeys(partial: string): (r: seq<string>)
      reads this
      ensures IsCaselessMatch(db.keys, partial, r)
    {
      ValidKeys(db, partial)
    }

    /** `valid_phrases(partial)`. */
    function GetValidPhrases(partial: string): (r: seq<string>)
      reads this
      ensures IsPhrasePrefixMatch(db, partial, r)
    {
      ValidPhrases(db, partial)
    }

    /** `saved_keys(p)`. */
    function GetSavedKeys(p: string): (r: seq<string>)
      reads this
      ensures IsRowKeys(db, p, r)
    {
      SavedKeys(db, p)
    }

    /** `prepare_undo()`. */
    method PrepareUndo()
      requires Valid()
      modifies this
      ensures Valid()
      ensures History() == Snapshots.PrepareUndo(old(History()))
    {
      undoList := undoList + [db];
    }

    /** `prepare_redo()`. */
    method PrepareRedo()
      requires Valid()
      modifies this
      ensures Valid()
      ensures db == old(db) && undoList == old(undoList) && redoList == old(redoList) + [old(db)]
    {
      redoList := redoList + [db];
    }

    /** `undo()`. */
    method Undo()
      requires Valid()
      modifies this
      ensures Valid()
      ensures History() == Snapshots.Undo(old(History()))
    {
      if undoList == [] {
        return;
      }
      PrepareRedo();
      db := undoList[|undoList| - 1];
      undoList := undoList[..|undoList| - 1];
    }

    /** `redo()`. */
    method Redo()
      requires Valid()
      modifies this
      ensures Valid()
      ensures History() == Snapshots.Redo(old(History()))
    {
      if redoList == [] {
        return;
      }
      PrepareUndo();
      db := redoList[|redoList| - 1];
      redoList := redoList[..|redoList| - 1];
    }
  }
}
