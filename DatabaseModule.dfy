/** database.py: the key/phrase table as module-level state. The field `db`
    is the module global `db`, and the field `disk` is the contents of the
    pickle file database/key.pickle. When no file was saved, the global is
    `None` until the first entry. `save_entry` is
    modelled as called with the current global as its `db` argument, as
    `generate_test_db` calls it. Unlike the classes, this module only saves
    inside `save_entry`, which on one path saves a copy it does not keep, so
    the saved file is modelled beside the global. */
module DatabaseModule {
  import opened Strings
  import opened Wrappers
  import opened KeyTable

  class KeyDatabase {
    /** The module global `db`. */
    var db: Option<Table>
    /** The contents of database/key.pickle. */
    var disk: Option<Table>

    ghost predicate Valid()
      reads this
    {
      && (db.Some? ==> KeyTable.Valid(db.value))
      && (disk.Some? ==> KeyTable.Valid(disk.value))
    }

    /** `db = load_database()`: the saved table, or `None` without a file. */
    constructor(saved: Option<Table>)
      requires saved.Some? ==> KeyTable.Valid(saved.value)
      ensures Valid()
      ensures db == saved && disk == saved
    {
      db := saved;
      disk := saved;
    }

    /** `add_column_if_missing(name, db)` on the table bound to the global. */
    method AddColumnIfMissing(name: string)
      requires Valid() && db.Some?
      modifies this
      ensures Valid()
      ensures db == Some(AddColumn(old(db).value, name))
      ensures disk == old(disk)
    {
      var t := db.value;
      if name !in t.keys {
        db := Some(t.(keys := t.keys + [name]));
      }
    }

    /** `initialize_db(ks, p)`: binds the global to a one-row table, True
        under every key, and returns it; nothing is saved. */
    method InitializeDb(ks: seq<string>, p: string) returns (t: Table)
      requires Valid()
      modifies this
      ensures Valid()
      ensures db == Some(t)
      ensures t.phrases == [p] && t.keys == Columns([], ks)
      ensures forall c :: c in t.cells <==> c.0 == p && c.1 in ks
      ensures disk == old(disk)
    {
      t := Init(ks, p);
      db := Some(t);
    }

    /** `save_entry(ks, p, db=db)`.
        - An empty phrase changes nothing.
        - Without a table, the global is initialised with the entry and
          the recursive call saves it. With no keys that table has no
          columns; the recursive call drops its only row and then cannot
          add it back, so `ValueError` escapes and nothing is saved.
        - With keys, the row of `p` is reset, the missing keys are added as
          columns and the row holds True exactly under `ks`; the table is
          updated in place, so the global and the file agree. A new row on
          a table without columns raises `ValueError` before any change.
        - Without keys, `db.drop(p)` makes a copy: the copy, with `p` as a
          last row without True cells, is saved, and the global keeps the
          old table. For a phrase that is not a row, `drop` raises
          `KeyError`; on a table without columns, adding `p` back to the
          copy raises `ValueError`. Both escape with nothing saved. */
    method SaveEntry(ks: seq<string>, p: string) returns (outcome: Outcome)
      requires Valid()
      modifies this
      ensures Valid()
      ensures p == [] ==> outcome == Done && db == old(db) && disk == old(disk)
      ensures p != [] && old(db).None? && ks != [] ==>
                outcome == Done && db == Some(Init(ks, p)) && disk == db
      ensures p != [] && old(db).None? && ks == [] ==>
                outcome == Failed(ValueError) && db == Some(Init([], p)) && disk == old(disk)
      ensures p != [] && old(db).Some? && ks != [] && AddsRowWithoutColumns(old(db).value, p) ==>
                outcome == Failed(ValueError) && db == old(db) && disk == old(disk)
      ensures p != [] && old(db).Some? && ks != [] && !AddsRowWithoutColumns(old(db).value, p) ==>
                outcome == Done && db == Some(Assign(old(db).value, p, ks)) && disk == db
      ensures p != [] && old(db).Some? && ks == [] && p !in old(db).value.phrases ==>
                outcome == Failed(KeyError) && db == old(db) && disk == old(disk)
      ensures p != [] && old(db).Some? && ks == [] && p in old(db).value.phrases && old(db).value.keys == [] ==>
                outcome == Failed(ValueError) && db == old(db) && disk == old(disk)
      ensures p != [] && old(db).Some? && ks == [] && p in old(db).value.phrases && old(db).value.keys != [] ==>
                && outcome == Done && db == old(db)
                && disk == Some(Assign(Drop(old(db).value, p), p, []))
      decreases if db.None? then 1 else 0
    {
      if p == [] {
        return Done;
      }
      if db.None? {
        var first := InitializeDb(ks, p);
        assert first == Init(ks, p);
        AssignInit(ks, p);
        assert ks == [] ==> first.keys == [] by {
          if ks == [] {
            assert first.keys == Columns([], []);
          }
        }
        outcome := SaveEntry(ks, p);
        return;
      }
      var t := db.value;
      if ks == [] {
        if p !in t.phrases {
          return Failed(KeyError);
        }
        var row := SetRowFalse(Drop(t, p), p);
        if row.Raised? {
          return Failed(row.error);
        }
        assert row.value == Assign(Drop(t, p), p, []);
        disk := Some(row.value);
        return Done;
      }
      outcome := SaveKeys(ks, p);
    }

    /** The `else` branch of `save_entry` with keys: the row is reset, the
        missing columns are added one by one, the row is set True under the
        keys and the table is saved. */
    method SaveKeys(ks: seq<string>, p: string) returns (outcome: Outcome)
      requires Valid() && db.Some? && ks != []
      modifies this
      ensures Valid()
      ensures AddsRowWithoutColumns(old(db).value, p) ==>
                outcome == Failed(ValueError) && db == old(db) && disk == old(disk)
      ensures !AddsRowWithoutColumns(old(db).value, p) ==>
                outcome == Done && db == Some(Assign(old(db).value, p, ks)) && disk == db
    {
      var row := SetRowFalse(db.value, p);
      if row.Raised? {
        return Failed(row.error);
      }
      var reset := row.value;
      db := Some(reset);
      for i := 0 to |ks|
        invariant Valid()
        invariant db == Some(AddColumns(reset, ks[..i]))
        invariant disk == old(disk)
      {
        AddColumnsStep(reset, ks, i);
        AddColumnIfMissing(ks[i]);
      }
      assert ks[..|ks|] == ks;
      db := Some(SetTrue(db.value, p, ks));
      disk := db;
      outcome := Done;
    }

    /** `get_phrase_list(ks)`: `db.loc` raises `AttributeError` while the
        global is `None`. */
    function GetPhraseList(ks: seq<string>): (r: Result<Option<seq<string>>>)
      reads this
      ensures db.None? ==> r == Raised(AttributeError)
      ensures db.Some? ==> r.Ok? && IsPhraseList(db.value, ks, r.value)
    {
      if db.None? then Raised(AttributeError) else Ok(PhraseList(db.value, ks))
    }

    /** `valid_keys(partial)`: the guard on `partial` comes before the table
        is read. */
    function GetValidKeys(partial: string): (r: Result<seq<string>>)
      reads this
      ensures partial == [] ==> r == Ok([])
      ensures partial != [] && db.None? ==> r == Raised(AttributeError)
      ensures db.Some? ==> r.Ok? && IsCaselessMatch(db.value.keys, partial, r.value)
    {
      if partial == [] then Ok([])
      else if db.None? then Raised(AttributeError)
      else Ok(ValidKeys(db.value, partial))
    }
  }
}
