/** The pandas DataFrame behind every database of the program, as a value:
    the row labels (phrases, or language-2 keys) in order, the column labels
    (keys, or language-1 keys) in order, and the set of cells that hold
    True. Every other cell holds False. The operations below are the
    DataFrame steps the database modules perform. */
module KeyTable {
  import opened Strings
  import opened Wrappers

  datatype Table = Table(phrases: seq<string>, keys: seq<string>, cells: set<(string, string)>)

  /** `pd.DataFrame()`. */
  const EmptyTable := Table([], [], {})

  /** Labels are unique and every True cell lies in a row and a column of
      the table. */
  ghost predicate Valid(t: Table) {
    && Distinct(t.phrases)
    && Distinct(t.keys)
    && forall c :: c in t.cells ==> c.0 in t.phrases && c.1 in t.keys
  }

  /** `DataFrame.empty`: no rows or no columns. */
  predicate IsEmpty(t: Table): (r: bool)
    ensures r <==> |t.phrases| * |t.keys| == 0
    ensures Valid(t) && t.cells != {} ==> !r
  {
    |t.phrases| == 0 || |t.keys| == 0
  }

  /** `key in df.columns` or, if not, a new last column. */
  function AddKey(keys: seq<string>, k: string): (r: seq<string>)
    ensures keys <= r
    ensures forall x :: x in r <==> x in keys || x == k
    ensures Distinct(keys) ==> Distinct(r)
  {
    if k in keys then keys else keys + [k]
  }

  /** The columns after adding each of `ks` in turn when it is missing: the
      old columns keep their order, the new ones follow in the order of
      their first occurrence in `ks`. */
  function Columns(keys: seq<string>, ks: seq<string>): (r: seq<string>)
    ensures keys <= r
    ensures forall x :: x in r <==> x in keys || x in ks
    ensures Distinct(keys) ==> Distinct(r)
    decreases |ks|
  {
    if ks == [] then keys
    else
      var front := ks[..|ks| - 1];
      assert ks == front + [ks[|ks| - 1]];
      AddKey(Columns(keys, front), ks[|ks| - 1])
  }

  /** Adding keys that are all present already changes nothing. */
  lemma {:induction false} ColumnsOfPresent(keys: seq<string>, ks: seq<string>)
    requires forall x :: x in ks ==> x in keys
    ensures Columns(keys, ks) == keys
    decreases |ks|
  {
    if ks != [] {
      var front := ks[..|ks| - 1];
      assert forall x :: x in front ==> x in ks;
      ColumnsOfPresent(keys, front);
      assert ks[|ks| - 1] in ks;
    }
  }

  /** `add_column_if_missing(k)`: `df[k] = False` for a missing column. */
  function AddColumn(t: Table, k: string): (r: Table)
    ensures r.phrases == t.phrases && r.cells == t.cells
    ensures t.keys <= r.keys
    ensures forall x :: x in r.keys <==> x in t.keys || x == k
    ensures Valid(t) ==> Valid(r)
  {
    t.(keys := AddKey(t.keys, k))
  }

  /** Adding a column twice is adding it once. */
  lemma AddColumnIdempotent(t: Table, k: string)
    ensures AddColumn(AddColumn(t, k), k) == AddColumn(t, k)
  {
  }

  /** The loop `for key in key_list: add_column_if_missing(key)`. */
  function AddColumns(t: Table, ks: seq<string>): (r: Table)
    ensures r.phrases == t.phrases && r.cells == t.cells
    ensures r.keys == Columns(t.keys, ks)
    ensures Valid(t) ==> Valid(r)
  {
    t.(keys := Columns(t.keys, ks))
  }

  /** One more key of the loop is one more added column. */
  lemma AddColumnsStep(t: Table, ks: seq<string>, i: nat)
    requires i < |ks|
    ensures AddColumns(t, ks[..i + 1]) == AddColumn(AddColumns(t, ks[..i]), ks[i])
  {
    assert ks[..i + 1][..i] == ks[..i];
  }

  /** `df.loc[p] = False`: the row of `p` holds no True cell, and it is
      appended when `p` is a new label. */
  function ResetRow(t: Table, p: string): (r: Table)
    ensures r.keys == t.keys
    ensures r.phrases == if p in t.phrases then t.phrases else t.phrases + [p]
    ensures forall c :: c in r.cells <==> c in t.cells && c.0 != p
    ensures Valid(t) ==> Valid(r)
  {
    Table(if p in t.phrases then t.phrases else t.phrases + [p], t.keys,
          set c | c in t.cells && c.0 != p)
  }

  /** `df.loc[p] = False` when it must add the new row `p` to a table
      without columns: pandas cannot build a row without columns and
      raises `ValueError` ("cannot set a frame with no defined columns"). */
  predicate AddsRowWithoutColumns(t: Table, p: string) {
    t.keys == [] && p !in t.phrases
  }

  /** `df.loc[p] = False` with its error: a new row on a table without
      columns raises `ValueError`; otherwise the row of `p`, appended when
      new, holds no True cell and every other row is kept. */
  function SetRowFalse(t: Table, p: string): (r: Result<Table>)
    ensures r.Raised? <==> t.keys == [] && p !in t.phrases
    ensures r.Raised? ==> r.error == ValueError
    ensures r.Ok? ==> r.value == ResetRow(t, p)
    ensures r.Ok? ==> p in r.value.phrases && r.value.keys == t.keys
    ensures r.Ok? ==> forall c: (string, string) :: c in r.value.cells <==> c in t.cells && c.0 != p
  {
    if AddsRowWithoutColumns(t, p) then Raised(ValueError) else Ok(ResetRow(t, p))
  }

  /** The cells of row `p` in the columns `ks`. */
  function RowCells(p: string, ks: seq<string>): (r: set<(string, string)>)
    ensures forall c :: c in r <==> c.0 == p && c.1 in ks
  {
    set k | k in ks :: (p, k)
  }

  /** `df.loc[p, ks] = True` on a row and columns that exist. */
  function SetTrue(t: Table, p: string, ks: seq<string>): (r: Table)
    requires p in t.phrases && forall k :: k in ks ==> k in t.keys
    ensures r.phrases == t.phrases && r.keys == t.keys
    ensures forall c :: c in r.cells <==> c in t.cells || (c.0 == p && c.1 in ks)
    ensures Valid(t) ==> Valid(r)
  {
    t.(cells := t.cells + RowCells(p, ks))
  }

  /** The update every `save_entry` makes on a non-empty table: the row of
      `p` is reset, the missing keys become new columns, and the row holds
      True exactly under `ks`; every other row keeps its True cells. */
  function Assign(t: Table, p: string, ks: seq<string>): (r: Table)
    ensures r.phrases == if p in t.phrases then t.phrases else t.phrases + [p]
    ensures r.keys == Columns(t.keys, ks)
    ensures forall k :: (p, k) in r.cells <==> k in ks
    ensures forall c: (string, string) :: c.0 != p ==> (c in r.cells <==> c in t.cells)
    ensures Valid(t) ==> Valid(r)
  {
    var reset := AddColumns(ResetRow(t, p), ks);
    SetTrue(reset, p, ks)
  }

  /** `pd.DataFrame.from_dict({p: [True] * len(ks)}, orient='index',
      columns=ks)`: one row, True under every key. */
  function Init(ks: seq<string>, p: string): (r: Table)
    ensures r.phrases == [p]
    ensures forall k :: k in r.keys <==> k in ks
    ensures forall c :: c in r.cells <==> c.0 == p && c.1 in ks
    ensures Valid(r)
  {
    Table([p], Columns([], ks), RowCells(p, ks))
  }

  /** Saving the entry that initialised the table changes nothing: the
      recursive `save_entry` call after `initialize_db` is idempotent. */
  lemma AssignInit(ks: seq<string>, p: string)
    ensures Assign(Init(ks, p), p, ks) == Init(ks, p)
  {
    var t := Init(ks, p);
    ColumnsOfPresent(t.keys, ks);
    assert Assign(t, p, ks).cells == t.cells;
  }

  /** `df.drop(p)` for a label that is in the index. */
  function Drop(t: Table, p: string): (r: Table)
    ensures r.keys == t.keys
    ensures forall q :: q in r.phrases <==> q in t.phrases && q != p
    ensures IsSubsequence(r.phrases, t.phrases)
    ensures forall c :: c in r.cells <==> c in t.cells && c.0 != p
    ensures Valid(t) ==> Valid(r)
  {
    var r := Table(Filter(t.phrases, q => q != p), t.keys, set c | c in t.cells && c.0 != p);
    assert Valid(t) ==> Distinct(r.phrases) by {
      if Valid(t) {
        FilterDistinct(t.phrases, q => q != p);
      }
    }
    r
  }

  lemma {:induction false} FilterDistinct(s: seq<string>, keep: string -> bool)
    requires Distinct(s)
    ensures Distinct(Filter(s, keep))
    decreases |s|
  {
    if s != [] {
      FilterDistinct(s[1..], keep);
      assert Distinct(s[1..]) by {
        assert forall i :: 0 <= i < |s| - 1 ==> s[1..][i] == s[i + 1];
      }
      assert s[0] !in s[1..];
    }
  }

  /** Whether column `k` holds a True cell: `df.any()` for column `k`. */
  predicate ColumnAny(t: Table, k: string) {
    exists c | c in t.cells :: c.1 == k
  }

  /** Whether row `p` holds a True cell: `df.any(axis=1)` for row `p`. */
  predicate RowAny(t: Table, p: string) {
    exists c | c in t.cells :: c.0 == p
  }

  /** `df.loc[:, df.any()]`: the columns without a True cell are dropped. */
  function PruneColumns(t: Table): (r: Table)
    ensures r.phrases == t.phrases && r.cells == t.cells
    ensures forall k :: k in r.keys <==> k in t.keys && ColumnAny(t, k)
    ensures IsSubsequence(r.keys, t.keys)
    ensures Valid(t) ==> Valid(r)
  {
    var r := t.(keys := Filter(t.keys, k => ColumnAny(t, k)));
    assert Valid(t) ==> Valid(r) by {
      if Valid(t) {
        FilterDistinct(t.keys, k => ColumnAny(t, k));
        assert forall c :: c in t.cells ==> ColumnAny(t, c.1);
      }
    }
    r
  }

  /** `df.loc[df.any(axis=1), :]`: the rows without a True cell are dropped. */
  function PruneRows(t: Table): (r: Table)
    ensures r.keys == t.keys && r.cells == t.cells
    ensures forall p :: p in r.phrases <==> p in t.phrases && RowAny(t, p)
    ensures IsSubsequence(r.phrases, t.phrases)
    ensures Valid(t) ==> Valid(r)
  {
    var r := t.(phrases := Filter(t.phrases, p => RowAny(t, p)));
    assert Valid(t) ==> Valid(r) by {
      if Valid(t) {
        FilterDistinct(t.phrases, p => RowAny(t, p));
        assert forall c :: c in t.cells ==> RowAny(t, c.0);
      }
    }
    r
  }

  // ---- queries ----

  /** What `get_phrase_list(ks)` returns: `None` (the caught `KeyError`)
      when some key is not a column, otherwise the phrases that hold True
      under every key, in table order. */
  ghost predicate IsPhraseList(t: Table, ks: seq<string>, r: Option<seq<string>>) {
    && (r.None? <==> exists k :: k in ks && k !in t.keys)
    && (r.Some? ==> && (forall p :: p in r.value <==> p in t.phrases && forall k :: k in ks ==> (p, k) in t.cells)
                    && IsSubsequence(r.value, t.phrases))
  }

  /** `df.loc[df[ks].all(axis=1), :].index`. */
  function PhraseList(t: Table, ks: seq<string>): (r: Option<seq<string>>)
    ensures IsPhraseList(t, ks, r)
  {
    if exists k | k in ks :: k !in t.keys then None
    else Some(Filter(t.phrases, p => forall k | k in ks :: (p, k) in t.cells))
  }

  /** What `valid_keys(partial)` returns over the labels `labels`: those
      whose lower-cased form starts with the lower-cased `partial`, in
      order; none for an empty `partial`. */
  ghost predicate IsCaselessMatch(labels: seq<string>, partial: string, r: seq<string>) {
    && (partial == [] ==> r == [])
    && (partial != [] ==> forall k :: k in r <==> k in labels && StartsWith(Lower(k), Lower(partial)))
    && IsSubsequence(r, labels)
  }

  /** `labels[labels.str.lower().str.startswith(partial.lower())]`, guarded
      by `if partial`. */
  function CaselessMatches(labels: seq<string>, partial: string): (r: seq<string>)
    ensures IsCaselessMatch(labels, partial, r)
  {
    if partial == [] then [] else Filter(labels, k => StartsWith(Lower(k), Lower(partial)))
  }

  /** `valid_keys(partial)` on the columns. */
  function ValidKeys(t: Table, partial: string): (r: seq<string>)
    ensures IsCaselessMatch(t.keys, partial, r)
  {
    CaselessMatches(t.keys, partial)
  }

  /** What `valid_phrases(partial)` returns: the phrases that start with
      `partial` (case-sensitive), in table order; none for an empty
      `partial`. */
  ghost predicate IsPhrasePrefixMatch(t: Table, partial: string, r: seq<string>) {
    && (partial == [] ==> r == [])
    && (partial != [] ==> forall p :: p in r <==> p in t.phrases && StartsWith(p, partial))
    && IsSubsequence(r, t.phrases)
  }

  function ValidPhrases(t: Table, partial: string): (r: seq<string>)
    ensures IsPhrasePrefixMatch(t, partial, r)
  {
    if partial == [] then [] else Filter(t.phrases, p => StartsWith(p, partial))
  }

  /** What `saved_keys(p)` and `get_matching_keys(p)` return: the columns
      holding True in row `p`, in column order; none (the caught
      `KeyError`) when `p` is not a row. */
  ghost predicate IsRowKeys(t: Table, p: string, r: seq<string>) {
    && (p !in t.phrases ==> r == [])
    && (forall k :: k in r <==> p in t.phrases && k in t.keys && (p, k) in t.cells)
    && IsSubsequence(r, t.keys)
  }

  /** `row = df.loc[p, :]; row[row == True].index`. */
  function SavedKeys(t: Table, p: string): (r: seq<string>)
    ensures IsRowKeys(t, p, r)
  {
    if p !in t.phrases then [] else Filter(t.keys, k => (p, k) in t.cells)
  }

  /** `df.loc[df[k], :].index`: the rows holding True in column `k`, in
      table order; `None` (a `KeyError`) when `k` is not a column. */
  function ColumnPhrases(t: Table, k: string): (r: Option<seq<string>>)
    ensures r.None? <==> k !in t.keys
    ensures r.Some? ==> forall p :: p in r.value <==> p in t.phrases && (p, k) in t.cells
    ensures r.Some? ==> IsSubsequence(r.value, t.phrases)
  {
    if k !in t.keys then None else Some(Filter(t.phrases, p => (p, k) in t.cells))
  }

  // ---- the updates of the key/phrase and translation databases ----

  /** `save_entry(ks, p)` of the key/phrase database (tests/test_databases.py
      and tests/_test_database.py): the new table and how the call ended.
      - An empty phrase changes nothing.
      - An empty table is replaced by `initialize_db(ks, p)`; with no keys
        that table is still empty and the call recurses without end.
      - With no keys, a phrase that is a row is dropped and re-appended
        as the last row with no True cell; any other phrase changes nothing.
      - Otherwise the row of `p` holds True exactly under `ks`. */
  function StandardSave(t: Table, ks: seq<string>, p: string): (r: (Table, Outcome))
    ensures p == [] ==> r == (t, Done)
    ensures p != [] && IsEmpty(t) ==> r.0.phrases == [p]
    ensures p != [] && (ks != [] || !IsEmpty(t)) ==> r.1 == Done
    ensures p != [] && ks == [] && IsEmpty(t) ==> r.1 == Failed(RecursionError)
    ensures p != [] && ks != [] ==> forall k :: (p, k) in r.0.cells <==> k in ks
    ensures p != [] && ks != [] && !IsEmpty(t) ==>
              && (forall c: (string, string) :: c.0 != p ==> (c in r.0.cells <==> c in t.cells))
              && t.keys <= r.0.keys
              && (forall k :: k in r.0.keys <==> k in t.keys || k in ks)
    ensures p != [] && ks == [] && !IsEmpty(t) && p in t.phrases ==>
              && r.0.phrases == Filter(t.phrases, q => q != p) + [p]
              && r.0.keys == t.keys
              && (forall c :: c in r.0.cells <==> c in t.cells && c.0 != p)
    ensures p != [] && ks == [] && !IsEmpty(t) && p !in t.phrases ==> r.0 == t
    ensures Valid(t) ==> Valid(r.0)
  {
    if p == [] then (t, Done)
    else if IsEmpty(t) then
      if ks == [] then (Init([], p), Failed(RecursionError))
      else
        AssignInit(ks, p);
        (Assign(Init(ks, p), p, ks), Done)
    else if ks == [] then
      if p in t.phrases then (Assign(Drop(t, p), p, []), Done) else (t, Done)
    else (Assign(t, p, ks), Done)
  }

  /** `delete_phrase(p)` on a row `p`: the row is dropped, then every column
      left without a True cell. */
  function RemovePhrase(t: Table, p: string): (r: Table)
    requires p in t.phrases
    ensures forall q :: q in r.phrases <==> q in t.phrases && q != p
    ensures forall c :: c in r.cells <==> c in t.cells && c.0 != p
    ensures forall k :: k in r.keys <==> k in t.keys && ColumnAny(r, k)
    ensures IsSubsequence(r.phrases, t.phrases) && IsSubsequence(r.keys, t.keys)
    ensures Valid(t) ==> Valid(r)
  {
    PruneColumns(Drop(t, p))
  }

  /** Translation `save_entry(a, b)` on a non-empty table: row `b` is
      appended when missing, column `a` likewise, and cell `(b, a)` becomes
      True; every other cell keeps its value. */
  function AddPair(t: Table, a: string, b: string): (r: Table)
    requires Valid(t)
    ensures r.cells == t.cells + {(b, a)}
    ensures r.phrases == if b in t.phrases then t.phrases else t.phrases + [b]
    ensures r.keys == AddKey(t.keys, a)
    ensures Valid(r)
  {
    var withRow := if b in t.phrases then t else ResetRow(t, b);
    assert withRow.cells == t.cells;
    SetTrue(AddColumn(withRow, a), b, [a])
  }

  /** Translation `save_entry(a, b)`: nothing when either key is empty; an
      empty table is replaced by the single pair. */
  function TranslationSave(t: Table, a: string, b: string): (r: Table)
    requires Valid(t)
    ensures a == [] || b == [] ==> r == t
    ensures a != [] && b != [] && !IsEmpty(t) ==> r.cells == t.cells + {(b, a)}
    ensures a != [] && b != [] && IsEmpty(t) ==> r == Table([b], [a], {(b, a)})
    ensures Valid(r)
  {
    if a == [] || b == [] then t
    else if IsEmpty(t) then
      var first := Init([a], b);
      assert [a][..0] == [];
      assert Columns([], [a]) == AddKey(Columns([], []), a);
      assert first.keys == [a];
      assert first.cells == {(b, a)};
      AddPair(first, a, b)
    else AddPair(t, a, b)
  }

  /** `delete_match(a, b)`: cell `(b, a)` becomes False, then the columns and
      then the rows left without a True cell are dropped. Setting a cell of
      a missing row or column adds that row or column in pandas, without
      any True cell, so the pruning removes it again: the model only clears
      the cell. */
  function RemoveMatch(t: Table, a: string, b: string): (r: Table)
    ensures r.cells == t.cells - {(b, a)}
    ensures forall k :: k in r.keys <==> k in t.keys && ColumnAny(r, k)
    ensures forall q :: q in r.phrases <==> q in t.phrases && RowAny(r, q)
    ensures IsSubsequence(r.keys, t.keys) && IsSubsequence(r.phrases, t.phrases)
    ensures Valid(t) ==> Valid(r)
  {
    PruneRows(PruneColumns(t.(cells := t.cells - {(b, a)})))
  }

  /** What `save_entry(ks, p)` stores reads back: the saved keys of `p`
      are exactly the distinct keys of `ks`, in column order, and every
      query on `ks` finds `p`. */
  lemma SavedKeysOfAssign(t: Table, p: string, ks: seq<string>)
    requires Valid(t)
    ensures forall k :: k in SavedKeys(Assign(t, p, ks), p) <==> k in ks
    ensures Distinct(SavedKeys(Assign(t, p, ks), p))
    ensures var l := PhraseList(Assign(t, p, ks), ks); l.Some? && p in l.value
  {
    var r := Assign(t, p, ks);
    FilterDistinct(r.keys, k => (p, k) in r.cells);
  }
}
