/** Databases.py: the older `StandardDatabase` class. It saves entries like
    the class in tests/test_databases.py except on one path: an entry with
    no keys for a non-empty table reads the unbound name `db` (line 93) and
    raises `NameError` before anything changes. Its undo and redo read other
    unbound names and are not modelled. Every change saves the table except
    `add_column_if_missing`, whose only caller is `save_entry`, which saves
    right after; so the file equals `db` on every call sequence the program
    makes, and only `db` is modelled. */
module Databases {
  import opened Strings
  import opened Wrappers
  import opened KeyTable

  /** `save_entry(ks, p)` as written in this file: the new table and how the
      call ended. */
  function OlderSave(t: Table, ks: seq<string>, p: string): (r: (Table, Outcome))
    ensures p == [] ==> r == (t, Done)
    ensures p != [] && ks == [] && !IsEmpty(t) ==> r == (t, Failed(NameError))
    ensures p != [] && ks != [] && !IsEmpty(t) ==> r == (Assign(t, p, ks), Done)
    ensures ks != [] || IsEmpty(t) ==> r == StandardSave(t, ks, p)
    ensures Valid(t) ==> Valid(r.0)
  {
    if p == [] then (t, Done)
    else if IsEmpty(t) then
      if ks == [] then (Init([], p), Failed(RecursionError))
      else
        AssignInit(ks, p);
        (Assign(Init(ks, p), p, ks), Done)
    else if ks == [] then (t, Failed(NameError))
    else (Assign(t, p, ks), Done)
  }

  class StandardDatabase {
    var db: Table

    ghost predicate Valid()
      reads this
    {
      KeyTable.Valid(db)
    }

    /** `load_database()`: the saved table, or a new empty one. */
    constructor(saved: Option<Table>)
      requires saved.Some? ==> KeyTable.Valid(saved.value)
      ensures Valid()
      ensures db == (if saved.Some? then saved.value else EmptyTable)
    {
      db := if saved.Some? then saved.value else EmptyTable;
    }

    /** `add_column_if_missing(name)`. */
    method AddColumnIfMissing(name: string)
      requires Valid()
      modifies this
      ensures Valid()
      ensures db == AddColumn(old(db), name)
    {
      if name !in db.keys {
        db := db.(keys := db.keys + [name]);
      }
    }

    /** `initialize_db(ks, p)`: one row for `p`, True under every key. */
    method InitializeDb(ks: seq<string>, p: string)
      requires Valid()
      modifies this
      ensures Valid()
      ensures db.phrases == [p]
      ensures db.keys == Columns([], ks) && forall k :: k in db.keys <==> k in ks
      ensures forall c :: c in db.cells <==> c.0 == p && c.1 in ks
    {
      db := Init(ks, p);
    }

    /** `save_entry(ks, p)`. */
    method SaveEntry(ks: seq<string>, p: string) returns (outcome: Outcome)
      requires Valid()
      modifies this
      ensures Valid()
      ensures (db, outcome) == OlderSave(old(db), ks, p)
      decreases if IsEmpty(db) then 1 else 0
    {
      if p == [] {
        return Done;
      }
      if IsEmpty(db) {
        InitializeDb(ks, p);
        assert db == Init(ks, p);
        if ks == [] {
          return Failed(RecursionError);
        }
        AssignInit(ks, p);
        outcome := SaveEntry(ks, p);
        return;
      }
      if ks == [] {
        // `self.db = db.drop(phrase)`: `db` is not bound here.
        return Failed(NameError);
      }
      var reset := ResetRow(db, p);
      db := reset;
      for i := 0 to |ks|
        invariant Valid()
        invariant db == AddColumns(reset, ks[..i])
      {
        AddColumnsStep(reset, ks, i);
        AddColumnIfMissing(ks[i]);
      }
      assert ks[..|ks|] == ks;
      db := SetTrue(db, p, ks);
      outcome := Done;
    }

    /** `get_phrase_list(ks)`. */
    function GetPhraseList(ks: seq<string>): (r: Option<seq<string>>)
      reads this
      ensures IsPhraseList(db, ks, r)
    {
      PhraseList(db, ks)
    }

    /** `valid_keys(partial)`. */
    function GetValidKeys(partial: string): (r: seq<string>)
      reads this
      ensures IsCaselessMatch(db.keys, partial, r)
    {
      ValidKeys(db, partial)
    }

    /** `valid_phrases(partial)`. */
    function GetValidPhrases(partial: string): (r: seq<string>)
      reads this
      ensures IsPhrasePrefixMatch(db, partial, r)
    {
      ValidPhrases(db, partial)
    }

    /** `saved_keys(p)`. */
    function GetSavedKeys(p: string): (r: seq<string>)
      reads this
      ensures IsRowKeys(db, p, r)
    {
      SavedKeys(db, p)
    }
  }
}
