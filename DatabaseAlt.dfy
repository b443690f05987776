/** database_alt.py: a second module-level key table, `key_df`, with the
    arguments of `save_entry` in the other order. The field `keyDf` is the
    module global `key_df` and the field `disk` the contents of the pickle
    file database/alt_key.pickle. The defaults `key_df=key_df`
    are bound once, when the module is imported, to the global; nothing
    rebinds the global afterwards, so the default always is the global's
    table, and while no file was saved it stays `None`. */
module DatabaseAlt {
  import opened Strings
  import opened Wrappers
  import opened KeyTable

  /** `initialize_key_df(p, ks)`: a new one-row table, True under every
      key; the global is not touched. */
  function InitializeKeyDf(p: string, ks: seq<string>): (r: Table)
    ensures r.phrases == [p] && r.keys == Columns([], ks)
    ensures forall c :: c in r.cells <==> c.0 == p && c.1 in ks
    ensures Valid(r)
  {
    Init(ks, p)
  }

  /** The in-place steps of `save_entry` on a given table `t`: the row of
      `p` is reset to False, each key is added by `add_column_if_missing`
      when missing, and the row is set True under the keys. The first step
      raises `ValueError` when it must add `p` to a table without columns. */
  method FillRow(t: Table, p: string, ks: seq<string>) returns (r: Result<Table>)
    ensures r.Raised? <==> AddsRowWithoutColumns(t, p)
    ensures r.Raised? ==> r.error == ValueError
    ensures r.Ok? ==> r.value == Assign(t, p, ks)
  {
    var row := SetRowFalse(t, p);
    if row.Raised? {
      return Raised(row.error);
    }
    var reset := row.value;
    var filled := reset;
    for i := 0 to |ks|
      invariant filled == AddColumns(reset, ks[..i])
    {
      AddColumnsStep(reset, ks, i);
      filled := AddColumn(filled, ks[i]);
    }
    assert ks[..|ks|] == ks;
    r := Ok(SetTrue(filled, p, ks));
  }

  class AltKeyDatabase {
    /** The module global `key_df`, which is also every default argument. */
    var keyDf: Option<Table>
    /** The contents of database/alt_key.pickle. */
    var disk: Option<Table>

    ghost predicate Valid()
      reads this
    {
      && (keyDf.Some? ==> KeyTable.Valid(keyDf.value))
      && (disk.Some? ==> KeyTable.Valid(disk.value))
    }

    /** `key_df = load_key_dataframe()`. */
    constructor(saved: Option<Table>)
      requires saved.Some? ==> KeyTable.Valid(saved.value)
      ensures Valid()
      ensures keyDf == saved && disk == saved
    {
      keyDf := saved;
      disk := saved;
    }

    /** `save_entry(p, ks)` with the default `key_df`. There is no guard
        against an empty phrase. Without a table, a new one is initialised
        in a local variable, filled by the recursive call and saved; the
        global stays `None`. Otherwise the global's table is updated in
        place and saved; a new phrase on a table without columns (the one
        a first save without keys writes) raises `ValueError` before any
        change. */
    method SaveEntry(p: string, ks: seq<string>) returns (outcome: Outcome)
      requires Valid()
      modifies this
      ensures Valid()
      ensures old(keyDf).None? ==> outcome == Done && keyDf == None && disk == Some(Init(ks, p))
      ensures old(keyDf).Some? && AddsRowWithoutColumns(old(keyDf).value, p) ==>
                outcome == Failed(ValueError) && keyDf == old(keyDf) && disk == old(disk)
      ensures old(keyDf).Some? && !AddsRowWithoutColumns(old(keyDf).value, p) ==>
                outcome == Done && keyDf == Some(Assign(old(keyDf).value, p, ks)) && disk == keyDf
    {
      if keyDf.None? {
        var local := InitializeKeyDf(p, ks);
        var filled := FillRow(local, p, ks);
        AssignInit(ks, p);
        disk := Some(filled.value);
        outcome := Done;
      } else {
        var filled := FillRow(keyDf.value, p, ks);
        if filled.Raised? {
          return Failed(filled.error);
        }
        keyDf := Some(filled.value);
        disk := Some(filled.value);
        outcome := Done;
      }
    }

    /** `get_phrase_list(ks)`: `AttributeError` while the table is `None`. */
    function GetPhraseList(ks: seq<string>): (r: Result<Option<seq<string>>>)
      reads this
      ensures keyDf.None? ==> r == Raised(AttributeError)
      ensures keyDf.Some? ==> r.Ok? && IsPhraseList(keyDf.value, ks, r.value)
    {
      if keyDf.None? then Raised(AttributeError) else Ok(PhraseList(keyDf.value, ks))
    }

    /** `valid_keys(partial)`. */
    function GetValidKeys(partial: string): (r: Result<seq<string>>)
      reads this
      ensures partial == [] ==> r == Ok([])
      ensures partial != [] && keyDf.None? ==> r == Raised(AttributeError)
      ensures keyDf.Some? ==> r.Ok? && IsCaselessMatch(keyDf.value.keys, partial, r.value)
    {
      if partial == [] then Ok([])
      else if keyDf.None? then Raised(AttributeError)
      else Ok(ValidKeys(keyDf.value, partial))
    }
  }
}
