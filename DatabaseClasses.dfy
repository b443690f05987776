/** tests/test_databases.py: the `Database` base class with its session
    undo and redo stacks, the key/phrase `StandardDatabase` and the
    language-pair `TranslationDatabase`. Every operation that changes `db`
    ends by saving it, except `add_column_if_missing`, which changes `db`
    without saving. Its only caller is `save_entry`, which saves once its
    loop is done, so on every call sequence the program makes the file on
    disk equals `db`. Only `db` is modelled; the undo and redo stacks hold
    copies of it. */
module DatabaseClasses {
  import opened Strings
  import opened Wrappers
  import opened KeyTable
  import Snapshots

  /** Keys are the columns, phrases the rows. */
  class StandardDatabase {
    var db: Table
    var undoList: seq<Table>
    var redoList: seq<Table>

    ghost predicate Valid()
      reads this
    {
      && KeyTable.Valid(db)
      && (forall t :: t in undoList ==> KeyTable.Valid(t))
      && (forall t :: t in redoList ==> KeyTable.Valid(t))
    }

    function History(): Snapshots.History<Table>
      reads this
    {
      Snapshots.History(db, undoList, redoList)
    }

    /** `load_database()`: the saved table, or a new empty one when there is
        no file; both stacks start empty. */
    constructor(saved: Option<Table>)
      requires saved.Some? ==> KeyTable.Valid(saved.value)
      ensures Valid()
      ensures db == (if saved.Some? then saved.value else EmptyTable)
      ensures undoList == [] && redoList == []
    {
      db := if saved.Some? then saved.value else EmptyTable;
      undoList := [];
      redoList := [];
    }

    /** `add_column_if_missing(name)`. */
    method AddColumnIfMissing(name: string)
      requires Valid()
      modifies this
      ensures Valid()
      ensures db == AddColumn(old(db), name)
      ensures undoList == old(undoList) && redoList == old(redoList)
    {
      if name !in db.keys {
        db := db.(keys := db.keys + [name]);
      }
    }

    /** `initialize_db(ks, p)`. */
    method InitializeDb(ks: seq<string>, p: string)
      requires Valid()
      modifies this
      ensures Valid()
      ensures db == Init(ks, p)
      ensures undoList == old(undoList) && redoList == old(redoList)
    {
      db := Init(ks, p);
    }

    /** `save_entry(ks, p)`. */
    method SaveEntry(ks: seq<string>, p: string) returns (outcome: Outcome)
      requires Valid()
      modifies this
      ensures Valid()
      ensures (db, outcome) == StandardSave(old(db), ks, p)
      ensures undoList == old(undoList) && redoList == old(redoList)
      decreases if IsEmpty(db) then 1 else 0
    {
      if p == [] {
        return Done;
      }
      if IsEmpty(db) {
        InitializeDb(ks, p);
        if ks == [] {
          // The new table has no columns, so it is empty again and the
          // recursive call would initialise it once more, without end.
          return Failed(RecursionError);
        }
        AssignInit(ks, p);
        outcome := SaveEntry(ks, p);
        return;
      }
      if ks == [] {
        if p !in db.phrases {
          return Done;
        }
        db := Drop(db, p);
      }
      var reset := ResetRow(db, p);
      db := reset;
      for i := 0 to |ks|
        invariant Valid()
        invariant db == AddColumns(reset, ks[..i])
        invariant undoList == old(undoList) && redoList == old(redoList)
      {
        AddColumnsStep(reset, ks, i);
        AddColumnIfMissing(ks[i]);
      }
      assert ks[..|ks|] == ks;
      db := SetTrue(db, p, ks);
      outcome := Done;
    }

    /** `delete_phrase(p)`: `drop` raises `KeyError` for a phrase that is not
        a row. */
    method DeletePhrase(p: string) returns (outcome: Outcome)
      requires Valid()
      modifies this
      ensures Valid()
      ensures p !in old(db.phrases) ==> outcome == Failed(KeyError) && db == old(db)
      ensures p in old(db.phrases) ==> outcome == Done && db == RemovePhrase(old(db), p)
      ensures undoList == old(undoList) && redoList == old(redoList)
    {
      if p !in db.phrases {
        return Failed(KeyError);
      }
      db := RemovePhrase(db, p);
      outcome := Done;
    }

    /** `get_phrase_list(ks)`. */
    function GetPhraseList(ks: seq<string>): (r: Option<seq<string>>)
      reads this
      ensures IsPhraseList(db, ks, r)
    {
      PhraseList(db, ks)
    }

    /** `get_matching_keys(p)`. */
    function GetMatchingKeys(p: string): (r: seq<string>)
      reads this
      ensures IsRowKeys(db, p, r)
    {
      SavedKeys(db, p)
    }

    /** `valid_keys(partial)`. */
    function GetValidKeys(partial: string): (r: seq<string>)
      reads this
      ensures IsCaselessMatch(db.keys, partial, r)
    {
      ValidKeys(db, partial)
    }

    /** `valid_phrases(partial)`. */
    function GetValidPhrases(partial: string): (r: seq<string>)
      reads this
      ensures IsPhrasePrefixMatch(db, partial, r)
    {
      ValidPhrases(db, partial)
    }

    /** `saved_keys(p)`. */
    function GetSavedKeys(p: string): (r: seq<string>)
      reads this
      ensures IsRowKeys(db, p, r)
    {
      SavedKeys(db, p)
    }

    /** `prepare_undo()`: a copy of the database goes on the undo stack. */
    method PrepareUndo()
      requires Valid()
      modifies this
      ensures Valid()
      ensures History() == Snapshots.PrepareUndo(old(History()))
    {
      undoList := undoList + [db];
    }

    /** `prepare_redo()`: a copy of the database goes on the redo stack. */
    method PrepareRedo()
      requires Valid()
      modifies this
      ensures Valid()
      ensures db == old(db) && undoList == old(undoList) && redoList == old(redoList) + [old(db)]
    {
      redoList := redoList + [db];
    }

    /** `undo()`. */
    method Undo()
      requires Valid()
      modifies this
      ensures Valid()
      ensures History() == Snapshots.Undo(old(History()))
    {
      if undoList == [] {
        return;
      }
      PrepareRedo();
      db := undoList[|undoList| - 1];
      undoList := undoList[..|undoList| - 1];
    }

    /** `redo()`. */
    method Redo()
      requires Valid()
      modifies this
      ensures Valid()
      ensures History() == Snapshots.Redo(old(History()))
    {
      if redoList == [] {
        return;
      }
      PrepareUndo();
      db := redoList[|redoList| - 1];
      redoList := redoList[..|redoList| - 1];
    }
  }

  /** Language-1 keys are the columns, language-2 keys the rows. */
  class TranslationDatabase {
    var db: Table
    var undoList: seq<Table>
    var redoList: seq<Table>

    ghost predicate Valid()
      reads this
    {
      && KeyTable.Valid(db)
      && (forall t :: t in undoList ==> KeyTable.Valid(t))
      && (forall t :: t in redoList ==> KeyTable.Valid(t))
    }

    function History(): Snapshots.History<Table>
      reads this
    {
      Snapshots.History(db, undoList, redoList)
    }

    constructor(saved: Option<Table>)
      requires saved.Some? ==> KeyTable.Valid(saved.value)
      ensures Valid()
      ensures db == (if saved.Some? then saved.value else EmptyTable)
      ensures undoList == [] && redoList == []
    {
      db := if saved.Some? then saved.value else EmptyTable;
      undoList := [];
      redoList := [];
    }

    /** `add_column_if_missing(a)`. */
    method AddColumnIfMissing(a: string)
      requires Valid()
      modifies this
      ensures Valid()
      ensures db == AddColumn(old(db), a)
      ensures undoList == old(undoList) && redoList == old(redoList)
    {
      if a !in db.keys {
        db := db.(keys := db.keys + [a]);
      }
    }

    /** `initialize_db(a, b)`: the single pair `(b, a)`. */
    method InitializeDb(a: string, b: string)
      requires Valid()
      modifies this
      ensures Valid()
      ensures db == Init([a], b)
      ensures undoList == old(undoList) && redoList == old(redoList)
    {
      db := Init([a], b);
    }

    /** `save_entry(a, b)`. */
    method SaveEntry(a: string, b: string)
      requires Valid()
      modifies this
      ensures Valid()
      ensures db == TranslationSave(old(db), a, b)
      ensures undoList == old(undoList) && redoList == old(redoList)
      decreases if IsEmpty(db) then 1 else 0
    {
      if a == [] || b == [] {
        return;
      }
      if IsEmpty(db) {
        InitializeDb(a, b);
        assert [a][..0] == [] && Columns([], [a]) == AddKey(Columns([], []), a);
        SaveEntry(a, b);
        return;
      }
      if b !in db.phrases {
        db := ResetRow(db, b);
      }
      AddColumnIfMissing(a);
      db := SetTrue(db, b, [a]);
    }

    /** `delete_match(a, b)`. */
    method DeleteMatch(a: string, b: string)
      requires Valid()
      modifies this
      ensures Valid()
      ensures db == RemoveMatch(old(db), a, b)
      ensures undoList == old(undoList) && redoList == old(redoList)
    {
      var cleared := db.(cells := db.cells - {(b, a)});
      db := PruneColumns(cleared);
      db := PruneRows(db);
    }

    /** `get_lang1_matches(b)`: the language-1 keys of row `b.lower()`,
        else of row `b.title()`, else none. */
    function GetLang1Matches(b: string): (r: seq<string>)
      reads this
      ensures Lower(b) in db.phrases ==> IsRowKeys(db, Lower(b), r)
      ensures Lower(b) !in db.phrases ==> IsRowKeys(db, Title(b), r)
    {
      if Lower(b) in db.phrases then SavedKeys(db, Lower(b)) else SavedKeys(db, Title(b))
    }

    /** `get_lang2_matches(a)`: the language-2 keys of column `a.lower()`,
        else of column `a.title()`, else none. */
    function GetLang2Matches(a: string): (r: seq<string>)
      reads this
      ensures Lower(a) in db.keys ==> forall b :: b in r <==> b in db.phrases && (b, Lower(a)) in db.cells
      ensures Lower(a) !in db.keys && Title(a) in db.keys ==>
                forall b :: b in r <==> b in db.phrases && (b, Title(a)) in db.cells
      ensures Lower(a) !in db.keys && Title(a) !in db.keys ==> r == []
      ensures IsSubsequence(r, db.phrases)
    {
      var lower := ColumnPhrases(db, Lower(a));
      if lower.Some? then lower.value
      else
        var title := ColumnPhrases(db, Title(a));
        if title.Some? then title.value else []
    }

    /** `valid_lang1_keys(partial)`: over the columns. */
    function ValidLang1Keys(partial: string): (r: seq<string>)
      reads this
      ensures IsCaselessMatch(db.keys, partial, r)
    {
      CaselessMatches(db.keys, partial)
    }

    /** `valid_lang2_keys(partial)`: over the rows. */
    function ValidLang2Keys(partial: string): (r: seq<string>)
      reads this
      ensures IsCaselessMatch(db.phrases, partial, r)
    {
      CaselessMatches(db.phrases, partial)
    }

    method PrepareUndo()
      requires Valid()
      modifies this
      ensures Valid()
      ensures History() == Snapshots.PrepareUndo(old(History()))
    {
      undoList := undoList + [db];
    }

    method PrepareRedo()
      requires Valid()
      modifies this
      ensures Valid()
      ensures db == old(db) && undoList == old(undoList) && redoList == old(redoList) + [old(db)]
    {
      redoList := redoList + [db];
    }

    method Undo()
      requires Valid()
      modifies this
      ensures Valid()
      ensures History() == Snapshots.Undo(old(History()))
    {
      if undoList == [] {
        return;
      }
      PrepareRedo();
      db := undoList[|undoList| - 1];
      undoList := undoList[..|undoList| - 1];
    }

    method Redo()
      requires Valid()
      modifies this
      ensures Valid()
      ensures History() == Snapshots.Redo(old(History()))
    {
      if redoList == [] {
        return;
      }
      PrepareUndo();
      db := redoList[|redoList| - 1];
      redoList := redoList[..|redoList| - 1];
    }
  }
}
