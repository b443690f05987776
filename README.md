# Redaction: a verified model of its keyed phrase store and inline-completion field

Redaction saves phrases under sets of keys, and finds them again from those keys.
The user types keys into a key field that completes them inline. Candidate completions come from the table of keys and phrases. The matching phrases appear in a phrase field, which steps through them.

This project models the core of that program in Dafny and proves properties of the model:

- **The key/phrase tables.** The pandas boolean DataFrames are modelled as values: rows, columns and the set of True cells (`KeyTable`). The model covers every database module that updates them:
  - the classes of tests/test_databases.py (`DatabaseClasses`);
  - the older class of Databases.py (`Databases`);
  - the module-level tables of database.py (`DatabaseModule`), database_alt.py (`DatabaseAlt`) and tests/_test_database.py (`DatabaseScript`).
- **The session undo and redo stacks.** Their file copies are modelled as values (`Snapshots`).
- **The completion field.** `AutoText` is a class, with the Tk widget reduced to:
  - one line of text;
  - the column of the insert mark;
  - the ranges of the `grey` and `sel` tags.
- **The key field.** `Key` adds the rule that chooses candidates.
- **The event handlers.** The four handlers in tests/test_autotext.py chain the field's primitives (`Autocomplete`).
- **The phrase field's list navigation** (`Phrase`).
- **The backup schedule** of backup.py (`Backup`).
- **The newline stripper** of text_utilities.py (`TextUtilities`).

Where the code changes state in place, the model is a class with `modifies` clauses. Each method's postcondition ties its new state to pure functions of the old state, and lemmas prove properties of those functions, for example:

- undo followed by redo restores the table and both stacks;
- a saved entry reads back as exactly its keys;
- after a redraw, the buffer is the typed text followed by the grey completion;
- confirming a completion keeps the typed text plus the completion unchanged;
- every date written to the dates file reads back as itself;
- after `backup()`, no copy is due.

Python's exceptions are modelled as values:

- `Result` for a function;
- `Outcome` for a method.

`Failed(e)` means that the exception `e` escapes, and the statements after the raising call do not run.

Findings lists two places where the code does not do what its tests or its docstring say: `cursor_moved` against tests/test_autotext.py:55-56, and `delete_word` against its docstring, "until previous space or start" (AutoText.py:77). At each, the model carries both the code as written and a corrected version, and the rest of the model uses the corrected one. The places where the model follows the code rather than its tests are listed under Left out.

## Model

| member | source | states |
|---|---|---|
| Strings.Words | Key.py:90 | `str.split()`: the words are non-empty and hold no whitespace; they are the non-empty pieces between whitespace, in order, and every such piece is one of them |
| Strings.WordsOfJoin | Key.py:90 | `' '.join(ws).split() == ws` for non-empty words without whitespace |
| Strings.WordsEmptyIffBlank | Key.py:90 | `split()` is empty exactly for a text of whitespace only, so `split()[-1]` raises exactly then |
| Strings.JoinSplit | Key.py:67-71 | joining the pieces of `split(c)` with `c` gives the text back |
| Strings.SplitWhere | Key.py:69 | `str.split(sep)`: at least one piece, and no piece holds the separator (with `Strings.JoinSplit`, joining the pieces gives the string back) |
| Strings.Join | Key.py:79 | `sep.join(pieces)`: empty for no pieces; otherwise it starts with the first piece |
| Strings.Lower | Databases.py:113 | `str.lower()`: same length, each character mapped by `LowerChar` (ASCII `A`-`Z` to `a`-`z`, the rest kept) |
| Strings.DropLast | AutoText.py:89 | `s[:-n]` for `n > 0`, which every caller guards: `|s| - n` characters and a prefix of `s`, or empty when `n >= |s|` |
| Strings.Title | tests/test_databases.py:321 | `str.title()`: same length; a non-letter is kept; a letter after a letter is lower case, any other letter upper case |
| Strings.LowerCompletion | Key.py:98-101 | when `k` extends `p` caselessly, `p` followed by `k[len(p):]` is `k` up to case |
| KeyTable.IsEmpty | tests/test_databases.py:190 | `DataFrame.empty`: no rows or no columns; a table with a cell is not empty |
| KeyTable.AddKey | tests/test_databases.py:170-173 | a missing label becomes the last column, a present one changes nothing, and labels stay distinct |
| KeyTable.Columns | tests/test_databases.py:201-202 | the columns after the add-if-missing loop: the old ones first, in order, then the new keys; exactly the old labels and the keys; still distinct |
| KeyTable.ColumnsOfPresent | tests/test_databases.py:201-202 | adding keys that are all present leaves the columns as they were |
| KeyTable.AddColumn | tests/test_databases.py:170-173 | `add_column_if_missing`: rows and True cells kept, old columns a prefix, the key now a column; keeps the table valid |
| KeyTable.AddColumnIdempotent | database_alt.py:31-33 | adding a column twice is adding it once |
| KeyTable.AddColumns | tests/test_databases.py:201-202 | the loop over the keys adds exactly the missing columns and touches no cell |
| KeyTable.AddColumnsStep | tests/test_databases.py:201-202 | one more iteration is one more `add_column_if_missing` |
| KeyTable.SetRowFalse | database.py:81 | `loc[p] = False` as database.py and database_alt.py:51 use it: `ValueError` exactly when `p` is a new row and the table has no columns; otherwise `ResetRow`, so row `p` exists with no True cell, the columns are kept and other rows keep their cells |
| KeyTable.ResetRow | tests/test_databases.py:200 | `loc[p] = False`: row `p` exists afterwards (it is appended when new) and holds no True cell; other rows unchanged |
| KeyTable.RowCells | tests/test_databases.py:203 | the cells of row `p` under the given keys |
| KeyTable.SetTrue | tests/test_databases.py:203 | `loc[p, ks] = True`: exactly the cells of `p` under `ks` are added |
| KeyTable.Assign | tests/test_databases.py:200-203 | after saving, row `p` is True exactly under `ks`; every other row keeps its cells; columns gain the missing keys |
| KeyTable.Init | tests/test_databases.py:175-184 | `initialize_db`: one row `p`, True under every key and nowhere else |
| KeyTable.AssignInit | tests/test_databases.py:190-192 | saving the entry that initialised a table changes nothing more: the recursive call leaves the new table as it is |
| KeyTable.Drop | tests/test_databases.py:197 | `drop(p)`: row `p` and its cells are removed, the other rows keep their order |
| KeyTable.FilterDistinct | tests/test_databases.py:209 | filtering distinct labels gives distinct labels |
| KeyTable.PruneColumns | tests/test_databases.py:209 | `loc[:, any()]`: exactly the columns with a True cell remain, in order |
| KeyTable.PruneRows | tests/test_databases.py:303 | `loc[any(axis=1), :]`: exactly the rows with a True cell remain, in order |
| KeyTable.PhraseList | tests/test_databases.py:216-222 | `None` when a key is not a column; otherwise exactly the rows True under every key, in row order |
| KeyTable.CaselessMatches | tests/test_databases.py:231-236 | an empty partial gives `[]`; otherwise exactly the labels whose lower case starts with the partial's lower case, in order |
| KeyTable.ValidKeys | tests/test_databases.py:231-236 | `valid_keys` over the columns, as above |
| KeyTable.ValidPhrases | tests/test_databases.py:238-242 | an empty partial gives `[]`; otherwise exactly the rows that start with the partial, case-sensitive, in order |
| KeyTable.SavedKeys | tests/test_databases.py:244-250 | the columns that hold True in row `p`, in column order; `[]` for an unknown `p` |
| KeyTable.ColumnPhrases | tests/test_databases.py:329-330 | `None` for an unknown column; otherwise the rows holding True in it, in order |
| KeyTable.StandardSave | tests/test_databases.py:186-204 | an empty phrase is a no-op. On an empty table the entry initialises it; with no keys as well, the recursion never ends (`RecursionError`). With keys, the row is True exactly under them and other rows keep their cells. With no keys, the phrase is dropped and re-added as an empty last row, or nothing changes when it was absent |
| KeyTable.RemovePhrase | tests/test_databases.py:206-210 | the row is gone and exactly the columns that still hold a True cell remain |
| KeyTable.AddPair | tests/test_databases.py:292-296 | adds exactly cell `(b, a)`, creating the row and column when missing |
| KeyTable.TranslationSave | tests/test_databases.py:284-297 | no-op for an empty argument; a first entry is the one-cell table; otherwise exactly cell `(b, a)` is added |
| KeyTable.RemoveMatch | tests/test_databases.py:299-304 | cell `(b, a)` is cleared, then exactly the columns and rows that still hold a True cell remain |
| KeyTable.SavedKeysOfAssign | tests/test_databases.py:200-203 | after saving `(ks, p)`, `saved_keys(p)` is exactly `ks`, without repeats, and `get_phrase_list(ks)` contains `p` |
| Snapshots.PrepareUndo | tests/test_databases.py:104-109 | the current database is pushed on the undo stack; nothing else changes |
| Snapshots.Undo | tests/test_databases.py:125-136 | an empty undo stack changes nothing; otherwise the current database goes on the redo stack and the undo top becomes current and is popped |
| Snapshots.Redo | tests/test_databases.py:138-149 | the mirror image of `undo` |
| Snapshots.RedoAfterUndo | tests/test_databases.py:125-149 | undo then redo restores the database and both stacks |
| Snapshots.UndoAfterRedo | tests/test_databases.py:125-149 | redo then undo restores the database and both stacks |
| Snapshots.UndoAfterPrepare | tests/test_databases.py:104-136 | undoing right after `prepare_undo` restores the database and the undo stack |
| DatabaseClasses.StandardDatabase.constructor | tests/test_databases.py:15-39 | the saved table, or an empty one, with empty undo and redo stacks |
| DatabaseClasses.StandardDatabase.AddColumnIfMissing | tests/test_databases.py:170-173 | the table becomes `AddColumn` of the old one; stacks unchanged |
| DatabaseClasses.StandardDatabase.InitializeDb | tests/test_databases.py:175-184 | the table becomes `Init(ks, p)` |
| DatabaseClasses.StandardDatabase.SaveEntry | tests/test_databases.py:186-204 | the new table and the outcome are `StandardSave` of the old table |
| DatabaseClasses.StandardDatabase.DeletePhrase | tests/test_databases.py:206-210 | `KeyError` and no change for an unknown phrase; otherwise `RemovePhrase` |
| DatabaseClasses.StandardDatabase.GetPhraseList | tests/test_databases.py:216-222 | as `PhraseList` |
| DatabaseClasses.StandardDatabase.GetMatchingKeys | tests/test_databases.py:224-229 | the columns True in row `p`; `[]` for an unknown phrase |
| DatabaseClasses.StandardDatabase.GetValidKeys | tests/test_databases.py:231-236 | caseless prefix match over the columns |
| DatabaseClasses.StandardDatabase.GetValidPhrases | tests/test_databases.py:238-242 | case-sensitive prefix match over the rows |
| DatabaseClasses.StandardDatabase.GetSavedKeys | tests/test_databases.py:244-250 | the columns True in row `p` |
| DatabaseClasses.StandardDatabase.PrepareUndo | tests/test_databases.py:104-109 | the history becomes `Snapshots.PrepareUndo` of the old one |
| DatabaseClasses.StandardDatabase.PrepareRedo | tests/test_databases.py:118-123 | the current table is pushed on the redo stack |
| DatabaseClasses.StandardDatabase.Undo | tests/test_databases.py:125-136 | the history becomes `Snapshots.Undo` of the old one |
| DatabaseClasses.StandardDatabase.Redo | tests/test_databases.py:138-149 | the history becomes `Snapshots.Redo` of the old one |
| DatabaseClasses.TranslationDatabase.constructor | tests/test_databases.py:262-269 | the saved table, or an empty one, with empty stacks |
| DatabaseClasses.TranslationDatabase.AddColumnIfMissing | tests/test_databases.py:271-274 | the table becomes `AddColumn` of the old one |
| DatabaseClasses.TranslationDatabase.InitializeDb | tests/test_databases.py:276-282 | the one-cell table `(b, a)` |
| DatabaseClasses.TranslationDatabase.SaveEntry | tests/test_databases.py:284-297 | the table becomes `TranslationSave` of the old one |
| DatabaseClasses.TranslationDatabase.DeleteMatch | tests/test_databases.py:299-304 | the table becomes `RemoveMatch` of the old one |
| DatabaseClasses.TranslationDatabase.GetLang1Matches | tests/test_databases.py:314-324 | the columns True in row `b.lower()`, else in row `b.title()`, else `[]` |
| DatabaseClasses.TranslationDatabase.GetLang2Matches | tests/test_databases.py:326-336 | the rows True in column `a.lower()`, else in column `a.title()`, else `[]`, in row order |
| DatabaseClasses.TranslationDatabase.ValidLang1Keys | tests/test_databases.py:338-343 | caseless prefix match over the columns |
| DatabaseClasses.TranslationDatabase.ValidLang2Keys | tests/test_databases.py:345-350 | caseless prefix match over the rows |
| DatabaseClasses.TranslationDatabase.PrepareUndo | tests/test_databases.py:104-109 | as for the standard database |
| DatabaseClasses.TranslationDatabase.PrepareRedo | tests/test_databases.py:118-123 | as for the standard database |
| DatabaseClasses.TranslationDatabase.Undo | tests/test_databases.py:125-136 | as for the standard database |
| DatabaseClasses.TranslationDatabase.Redo | tests/test_databases.py:138-149 | as for the standard database |
| Databases.OlderSave | Databases.py:82-100 | an empty phrase is a no-op. With no keys on a non-empty table, `NameError` and no change. With keys, the row is True exactly under them. Otherwise it agrees with the newer `save_entry` |
| Databases.StandardDatabase.constructor | Databases.py:37-52 | the saved table, or an empty one |
| Databases.StandardDatabase.AddColumnIfMissing | Databases.py:66-69 | the table becomes `AddColumn` of the old one |
| Databases.StandardDatabase.InitializeDb | Databases.py:71-80 | one row `p`, True exactly under the keys |
| Databases.StandardDatabase.SaveEntry | Databases.py:82-100 | the new table and the outcome are `OlderSave` of the old table |
| Databases.StandardDatabase.GetPhraseList | Databases.py:102-108 | as `PhraseList` |
| Databases.StandardDatabase.GetValidKeys | Databases.py:110-115 | caseless prefix match over the columns |
| Databases.StandardDatabase.GetValidPhrases | Databases.py:117-121 | case-sensitive prefix match over the rows |
| Databases.StandardDatabase.GetSavedKeys | Databases.py:123-131 | the columns True in row `p` |
| DatabaseModule.KeyDatabase.constructor | database.py:31-40 | the global is the saved table or `None`, and so is the file |
| DatabaseModule.KeyDatabase.AddColumnIfMissing | database.py:52-55 | the global becomes `AddColumn` of the old one |
| DatabaseModule.KeyDatabase.InitializeDb | database.py:57-67 | the global becomes the one-row table; the file is not touched |
| DatabaseModule.KeyDatabase.SaveEntry | database.py:69-85 | an empty phrase is a no-op. Without a table, the entry initialises the global and is saved; with no keys the global becomes the one-row table without columns and the retried `loc[p] = False` raises `ValueError` before the save. With keys, a new phrase on a table without columns raises `ValueError` and nothing changes; otherwise the row is True exactly under the keys and global and file agree. With no keys, an unknown phrase raises `KeyError`; a known one raises `ValueError` on a table without columns, and otherwise saves a copy with the phrase as an empty last row and keeps the global |
| DatabaseModule.KeyDatabase.SaveKeys | database.py:78-85 | the keyed branch of `save_entry` on a present table: `ValueError` with nothing changed when the phrase is new and the table has no columns; otherwise the global becomes `Assign` of the old table and the file holds it |
| DatabaseModule.KeyDatabase.GetPhraseList | database.py:87-93 | `AttributeError` without a table; otherwise as `PhraseList` |
| DatabaseModule.KeyDatabase.GetValidKeys | database.py:95-100 | `[]` for an empty partial first; `AttributeError` without a table; otherwise caseless prefix match |
| DatabaseAlt.InitializeKeyDf | database_alt.py:35-43 | one row `p`, True exactly under the keys |
| DatabaseAlt.FillRow | database_alt.py:50-54 | `ValueError` exactly when the phrase is new and the table has no columns; otherwise the loop of `save_entry` computes `Assign` |
| DatabaseAlt.AltKeyDatabase.constructor | database_alt.py:4-11 | the global is the saved table or `None` |
| DatabaseAlt.AltKeyDatabase.SaveEntry | database_alt.py:45-56 | without a table a local one is filled and saved while the global stays `None`; a new phrase on a table without columns raises `ValueError` and nothing changes; otherwise the global is updated in place by `Assign` and saved. No empty-phrase guard |
| DatabaseAlt.AltKeyDatabase.GetPhraseList | database_alt.py:58-63 | `AttributeError` without a table; otherwise as `PhraseList` |
| DatabaseAlt.AltKeyDatabase.GetValidKeys | database_alt.py:65-69 | `[]` for an empty partial; `AttributeError` without a table; otherwise caseless prefix match |
| DatabaseScript.StripTrailingNewline | tests/_test_database.py:52-56 | `IndexError` exactly when the string is empty or holds only `\n` and `\r`, where the unguarded `s[-1]` fails; otherwise the result equals the guarded version in text_utilities.py |
| DatabaseScript.ScriptDatabase.constructor | tests/_test_database.py:6-18 | the saved table, or an empty one, with empty lists |
| DatabaseScript.ScriptDatabase.AddColumnIfMissing | tests/_test_database.py:34-38 | the table becomes `AddColumn` of the old one |
| DatabaseScript.ScriptDatabase.InitializeDb | tests/_test_database.py:40-50 | the table becomes `Init(ks, p)` |
| DatabaseScript.ScriptDatabase.SaveEntry | tests/_test_database.py:58-77 | the new table and outcome are `StandardSave` of the old table |
| DatabaseScript.ScriptDatabase.GetPhraseList | tests/_test_database.py:79-85 | as `PhraseList` |
| DatabaseScript.ScriptDatabase.GetValidKeys | tests/_test_database.py:87-92 | caseless prefix match over the columns |
| DatabaseScript.ScriptDatabase.GetValidPhrases | tests/_test_database.py:94-98 | case-sensitive prefix match over the rows |
| DatabaseScript.ScriptDatabase.GetSavedKeys | tests/_test_database.py:100-106 | the columns True in row `p` |
| DatabaseScript.ScriptDatabase.PrepareUndo | tests/_test_database.py:150-155 | the history becomes `Snapshots.PrepareUndo` of the old one |
| DatabaseScript.ScriptDatabase.PrepareRedo | tests/_test_database.py:164-169 | the current table is pushed on the redo list |
| DatabaseScript.ScriptDatabase.Undo | tests/_test_database.py:171-182 | the history becomes `Snapshots.Undo` of the old one |
| DatabaseScript.ScriptDatabase.Redo | tests/_test_database.py:184-195 | the history becomes `Snapshots.Redo` of the old one |
| TextUtilities.StripTrailingNewline | text_utilities.py:7-14 | the result is a prefix of the input; it does not end in `\n` or `\r`; only those characters were removed |
| TextUtilities.StripAppended | text_utilities.py:7-14 | a string not ending in a newline, followed by any run of `\n`/`\r`, strips back to itself |
| TextUtilities.StripIdempotent | text_utilities.py:7-14 | stripping twice is stripping once |
| Backup.Ordinal | backup.py:61 | `date.toordinal()`, whose difference is `(a - b).days`: at least 1, and within the days of its own year (with `OrdinalMonotone` and `OrdinalInjective` below) |
| Backup.OrdinalMonotone | backup.py:56-63 | a later date has a larger day number |
| Backup.OrdinalInjective | backup.py:56-63 | two dates have the same day number exactly when they are equal |
| Backup.YearsApart | backup.py:56-63 | a later year starts after the end of an earlier one |
| Backup.MonthsApart | backup.py:56-63 | a later month starts after the end of an earlier one, and every month ends within its year |
| Backup.ParseIntOfDigits | backup.py:24-26 | `int` of a non-empty string of ASCII digits is the number the digits spell |
| Backup.ParseIntUnderscore | backup.py:24-26 | `int` reads a single underscore between two groups of digits as nothing |
| Backup.ParseIntNegative | backup.py:24-26 | `int` of a minus sign before digits is the negative number |
| Backup.BodyOfDigits | backup.py:24-26 | a string of digits is accepted as its own digits by the underscore rule of `int` |
| Backup.ParseIntLeadingSpace | backup.py:24-26 | `int` ignores a whitespace character in front |
| Backup.ParseInt | backup.py:26 | `int(item)`: a parsed string holds a digit. Its values are stated by `ParseIntOfDigits`, `ParseIntUnderscore`, `ParseIntNegative` and `ParseIntLeadingSpace` |
| Backup.ParseAll | backup.py:26 | `[int(item) for item in ...]`: one number per piece when it succeeds (the full statement is `ParseAllSpec`) |
| Backup.ParseAllSpec | backup.py:24-26 | the comprehension `[int(x) for x in pieces]` fails exactly when some piece is not a number, and otherwise holds each piece's number in order |
| Backup.ParseAllCons | backup.py:24-26 | one more piece that is a number puts its number in front of the list |
| Backup.ParseAllThree | backup.py:24-26 | three pieces that are numbers give the list of those three numbers |
| Backup.DateCall | backup.py:26 | CPython's `date(*vs)`: a date exactly for three arguments naming a valid date; `TypeError` exactly for more than three, or fewer than three all in C `int` range; `OverflowError` exactly for at most three with one out of range; otherwise `ValueError` |
| Backup.DateFromString | backup.py:24-26 | a parsed date is a valid date; every failure is `ValueError`, `TypeError` or `OverflowError` |
| Backup.DateOfPieces | backup.py:24-26 | three numbers joined by `-` reach `date` as its three arguments |
| Backup.DateLeadingSpace | backup.py:24-26 | a whitespace character in front of a date string does not change what it loads as |
| Backup.DateOverflow | backup.py:24-26 | a first number outside the C `int` range makes `date_from_string` raise `OverflowError` |
| Backup.DateToString | backup.py:44-48 | `str(date)` as `json.dump(default=str)` writes it: ten characters, which `DateRoundTrip` parses back |
| Backup.ParseDigits | backup.py:24-26 | `int` of a zero-padded number is the number |
| Backup.SplitThree | backup.py:24-26 | `split('-')` of three pieces without `-` joined by `-` gives back the pieces |
| Backup.DateRoundTrip | backup.py:24-26 | `date_from_string(str(d)) == d` for every valid date |
| Backup.LoadEntry | backup.py:33-34 | one entry of the comprehension: a loaded date is a valid date; a JSON `null` raises `AttributeError` |
| Backup.LoadBackupDates | backup.py:28-42 | a loaded dictionary holds valid dates; the only escaping errors are `TypeError`, `AttributeError` and `OverflowError` |
| Backup.FirstRaised | backup.py:28-42 | the comprehension stops at the first entry that raises |
| Backup.LoadSavedDates | backup.py:28-48 | dates written by `save_backup_dates` load back unchanged |
| Backup.LoadEntryRoundTrip | backup.py:33-34 | one entry written by `save_backup_dates` loads back as its date |
| Backup.LoadAllDates | backup.py:30-35 | a dates file whose four entries each load without error loads as exactly those four dates |
| Backup.NewDay | backup.py:50-54 | `new_day()`: due when no backup was recorded, not due when one was taken today |
| Backup.NewPeriod | backup.py:56-81 | never backed up, or more than `limit` days since: due when none was recorded; after a backup today due only for a negative limit; due with a non-negative limit implies the daily one is due |
| Backup.NewWeek | backup.py:56-63 | `new_week()` (limit 6): due when none was recorded, not due right after a backup today |
| Backup.NewMonth | backup.py:65-72 | `new_month()` (limit 29): due when none was recorded, not due right after a backup today |
| Backup.NewYear | backup.py:74-81 | `new_year()` (limit 364): due when none was recorded, not due right after a backup today |
| Backup.NewDayByDays | backup.py:50-54 | the daily test (dates differ) agrees with the day count |
| Backup.ScheduleNested | backup.py:50-81 | a due yearly backup makes the monthly one due, a due monthly one the weekly one, and a due weekly one the daily one |
| Backup.BackupSchedule.constructor | backup.py:28-42 | the dictionary as loaded |
| Backup.BackupSchedule.DailyBackup | backup.py:83-92 | only the daily entry changes, to today |
| Backup.BackupSchedule.WeeklyBackup | backup.py:94-103 | only the weekly entry changes, to today |
| Backup.BackupSchedule.MonthlyBackup | backup.py:105-114 | only the monthly entry changes, to today |
| Backup.BackupSchedule.YearlyBackup | backup.py:116-125 | only the yearly entry changes, to today |
| Backup.BackupSchedule.Backup | backup.py:127-136 | afterwards none of the four backups is due, so every entry holds a date; the daily date is today, and each other entry is today exactly when it was due |
| AutoText.InsertPosition | AutoText.py:48-50 | `mark_set`: the cursor never passes the end of the text; a column inside the text is kept, `end` is the end |
| AutoText.Between | AutoText.py:147 | `len(get(a, b))`: the distance from `a` to `b`, or 0 when `b` does not come after `a` |
| AutoText.Tag | AutoText.py:72 | `tag_add`: an empty range adds no tag |
| AutoText.ShiftDeleted | AutoText.py:64 | where an index lands when a range before it, around it or after it is deleted |
| AutoText.AfterDelete | AutoText.py:64 | a tag inside the text stays inside it after a deletion |
| AutoText.AfterInsert | AutoText.py:71 | a tag stays inside the text after an insertion; it grows around text inserted inside it and is untouched by text inserted after it |
| AutoText.LastSpaceBefore | AutoText.py:78 | the last space before a position, or none when there is none |
| AutoText.SpaceSearchAsWritten | AutoText.py:78 | Tk's backward search wraps: with no space before the cursor, it finds the last space of the text |
| AutoText.DeleteWordAsWritten | AutoText.py:76-82 | with the wrapped search finding a space at or after the cursor, `delete` gets an end before its start and nothing is deleted |
| AutoText.DeleteStart | AutoText.py:76-82 | where the deletion starts: the last space before the cursor, or the start of the text, with no space between it and the cursor |
| AutoText.DeleteWordAgrees | AutoText.py:76-82 | as written and corrected, `delete_word` agree whenever a space precedes the cursor or none follows it |
| AutoText.DeleteWordWrapCounterexample | AutoText.py:76-82 | on `"ab cd"` with the cursor at 1, as written nothing is deleted; corrected gives `"b cd"` |
| AutoText.AutoText.CursorAtEnd | AutoText.py:29-36 | `cursor_at_end()`: nothing of the text follows the cursor |
| AutoText.Decimal | AutoText.py:68 | `str(n)`: a non-empty string of decimal digits whose value is `n`, with no leading zero unless `n` is 0 |
| AutoText.IndexString | AutoText.py:68 | a column index prints as `'1.N'` |
| AutoText.PyLess | AutoText.py:43-45 | Python's `<` on strings, on which `MovedAsWritten` rests: a proper prefix is smaller, and no string is smaller than its own prefix (so not than itself) |
| AutoText.MovedAsWritten | AutoText.py:38-46 | as written: `False` exactly when the index strings are equal; otherwise it compares them as strings |
| AutoText.Moved | AutoText.py:38-46 | corrected: `Same`, `Left` or `Right` exactly when the tracked offset equals, exceeds or falls short of the cursor |
| AutoText.MovedCounterexample | tests/test_autotext.py:53-56 | with `'1.12'` tracked and the cursor at column 6, as written gives RIGHT, corrected LEFT |
| AutoText.MovedAgrees | AutoText.py:38-46 | the two agree when both columns have one digit, or for `end` |
| AutoText.Typed | AutoText.py:88-91 | `display_text[:-len(tail)]`: a prefix of the buffer, the whole buffer without a tail, otherwise exactly `len(tail)` shorter |
| AutoText.TypedOfAppend | AutoText.py:88-91 | taking the tail off typed text followed by that tail gives the typed text |
| AutoText.Completions | AutoText.py:115-121 | the candidates kept: exactly those that start with the typed text and differ from it, in their order |
| AutoText.CompletionsIdempotent | AutoText.py:115-121 | narrowing twice is narrowing once |
| AutoText.CompletionsNarrow | AutoText.py:115-121 | narrowing for a text, then for a longer one, is narrowing for the longer one |
| AutoText.AutoText.constructor | AutoText.py:4-15 | an empty text, nothing typed, no tracked cursor, no completion |
| AutoText.AutoText.Insert | AutoText.py:71 | the text is inserted; the cursor moves right by its length when the insert is at or before it; tags follow the text |
| AutoText.AutoText.Delete | AutoText.py:82 | a non-empty range is removed and the cursor and tags shift; an empty or reversed range changes nothing |
| AutoText.AutoText.Clear | AutoText.py:62-64 | empty text, cursor at 0, no tags; tracked fields kept |
| AutoText.AutoText.SetCursor | AutoText.py:48-50 | the cursor moves to the index, kept within the text |
| AutoText.AutoText.SetContents | tests/test_autotext.py:27-32 | the text is replaced and the cursor stands at its end |
| AutoText.AutoText.TypeText | tests/test_autotext.py:255-267 | the text goes in at the given column (at the cursor without one) and the cursor follows it |
| AutoText.AutoText.Select | tests/test_autotext.py:34-38 | the `sel` tag covers the range, clamped to the text |
| AutoText.AutoText.GetSelection | tests/test_autotext.py:34-38 | `None` without a selection; otherwise the selected, non-empty text |
| AutoText.AutoText.SearchForwards | tests/test_autotext.py:94-101 | the first occurrence at or after a position, none when there is none |
| AutoText.AutoText.SearchBackwards | tests/test_autotext.py:103-112 | the last occurrence before a position, none when there is none |
| AutoText.AutoText.CursorMoved | AutoText.py:38-46 | `cursor_moved()` with the intended comparison, as `Moved` |
| AutoText.AutoText.UpdateDisplay | AutoText.py:66-74 | afterwards the buffer is the typed text followed by the completion, the grey tag spans exactly the completion, nothing is selected, the cursor is at the tracked index, and the tracked fields are unchanged |
| AutoText.AutoText.DeleteWord | AutoText.py:76-82 | the text from `DeleteStart` up to the cursor is removed and the cursor stands there; text after the cursor is kept |
| AutoText.AutoText.UpdateCurrent | AutoText.py:84-93 | the typed text becomes the buffer without the completion's length (all of it without a completion) and the tracked cursor the cursor |
| AutoText.AutoText.TextChanged | AutoText.py:95-100 | a buffer that is the typed text followed by the completion is unchanged |
| AutoText.AutoText.GetDifference | AutoText.py:102-108 | never longer than the buffer; empty when nothing was typed |
| AutoText.AutoText.UpdateSuggestions | AutoText.py:115-121 | the candidates become `Completions` of the old ones; nothing else changes |
| AutoText.AutoText.ResetSuggestions | AutoText.py:123-125 | no completion and no candidates; nothing else changes |
| AutoText.AutoText.IgnoreSuggestion | AutoText.py:127-134 | no completion and no candidates; typed text kept and alone in the buffer; the cursor kept within it and tracked; no tags |
| AutoText.AutoText.ConfirmSuggestion | AutoText.py:136-154 | without a completion, `False` and no change. Otherwise as many characters as lie between the tracked index and the target move from the completion to the typed text, their concatenation is kept, the target is tracked, the candidates are untouched, the display is redrawn, and the result is `True` |
| AutoText.TextChangedIff | AutoText.py:95-100 | with `d` typed between the text and the completion, `text_changed()` holds exactly when `d` is non-empty |
| AutoText.GetDifferenceOfTyped | AutoText.py:102-108 | with `d` typed between the text and the completion, `get_difference()` is `d` |
| AutoText.TypedOfDisplayed | AutoText.py:84-93 | right after a redraw, `update_current` keeps the typed text |
| Key.GetKeyList | Key.py:67-71 | every key is non-empty and holds no space, in the order of `split(' ')` |
| Key.KeyListOfJoin | Key.py:67-71 | keys without spaces, joined by spaces, split back into the same keys |
| Key.JoinEmpty | Key.py:77-85 | the joined keys are empty exactly for no keys or the one empty key |
| Key.Candidates | Key.py:91-95 | the remaining candidates when there are any; otherwise exactly the columns that extend the partial key caselessly, without the partial key itself, in column order |
| Key.CandidateCompletes | Key.py:98-101 | for a candidate from the table, the partial key followed by the tail has the candidate's length and spells it up to case |
| Key.LastWord | Key.py:90 | `split()[-1]`: none exactly for a blank text; otherwise the last word, never empty |
| Key.SuggestionAfter | Key.py:87-107 | `IndexError` exactly for a blank text; no change exactly without candidates; otherwise the tail is the first candidate beyond the partial key's length, the candidates are kept exactly while the tail is non-empty, and from the table the display spells the candidate |
| Key.Key.constructor | Key.py:52-66 | an empty field bound to the database |
| Key.Key.GetDisplayKeyList | Key.py:73-75 | the key list of the field's text |
| Key.Key.DisplayMatchingKeys | Key.py:77-85 | `True` exactly when the phrase has keys; the keys joined by spaces then become the typed text and the contents; otherwise nothing changes |
| Key.Key.GetSuggestion | Key.py:87-107 | the effect given by `SuggestionAfter`; the typed text and tracked cursor are kept, and after a new completion the display is redrawn |
| Autocomplete.OnDelete | tests/test_autotext.py:285-294 | a delete leaves no completion and no candidates, the typed text taken from the buffer and alone in it, and the cursor tracked |
| Autocomplete.OnNoSuggestion | tests/test_autotext.py:295-303 | nothing changes when the text is unchanged; otherwise the buffer becomes the typed text and a completion is looked up only with the cursor at the end |
| Autocomplete.OnCursorOnly | tests/test_autotext.py:304-316 | moved left: the completion is dropped and the typed text kept. Moved right: the completion is confirmed up to the cursor, the candidates narrowed and the next completion looked up. Not moved: only the cursor is tracked |
| Autocomplete.TakeNextChar | tests/test_autotext.py:327-334 | the completion loses its first character; the candidates are narrowed to the typed text; the next completion follows `SuggestionAfter` |
| Autocomplete.Resuggest | tests/test_autotext.py:335-338 | the completion is dropped, then a new one comes from the table for the typed text |
| Autocomplete.OnNewInput | tests/test_autotext.py:317-339 | the typed text is taken from the buffer. Input other than one character drops the completion; the completion's next character advances it; any other character triggers a new lookup |
| Autocomplete.NextCharTyped | tests/test_autotext.py:319-332 | typing the completion's next character is a change whose difference is that character; taking the typed text from the buffer then appends it to the typed text, and the display still reads the same |
| Autocomplete.HandleKey | tests/test_autotext.py:282-339 | the branch taken and its effect: a delete clears the completion; no completion and no change leaves everything unchanged; a left move drops the completion; a right move confirms up to the cursor; input other than one character drops the completion |
| Autocomplete.HandleTab | tests/test_autotext.py:364-369 | without a completion nothing changes; otherwise the completion is confirmed up to `end`, then the candidates are narrowed, the next completion looked up and the cursor tracked |
| Autocomplete.TabConfirmsAll | tests/test_autotext.py:366 | with the tracked cursor at or before the end of the typed text, Tab confirms the whole completion |
| Autocomplete.HandleButtonRelease | tests/test_autotext.py:341-356 | without a completion nothing changes. A selection confirms the completion up to its end and is laid again. Otherwise a left move drops the completion and a right move confirms it up to the cursor |
| Autocomplete.HandleBackspace | tests/test_autotext.py:358-362 | it stops Tk's handling exactly for modifier states 1, 4, 8 and 16, after deleting the previous word; otherwise nothing changes |
| Phrase.NextIndex | Phrase.py:74-86 | the index moves one on exactly while that stays inside the list, so it never leaves it |
| Phrase.PreviousIndex | Phrase.py:88-99 | the index moves one back exactly while it is at least 1, so it never goes below 0 |
| Phrase.PreviousAfterNext | Phrase.py:81-99 | a `next` that moved, then `previous`, restores the index |
| Phrase.NextAfterPrevious | Phrase.py:81-99 | a `previous` that moved, then `next`, restores the index |
| Phrase.PhraseField.constructor | Phrase.py:46-57 | an empty field without a list |
| Phrase.PhraseField.CreateList | Phrase.py:59-68 | no keys or `['']` is invalid; valid exactly when the table has phrases under all the keys, which then become the list at index 0; invalid or raising changes nothing |
| Phrase.PhraseField.DisplayCurrent | Phrase.py:70-72 | the current phrase goes in at the start; `TypeError` without a list |
| Phrase.PhraseField.NotLastIndex | Phrase.py:74-79 | `TypeError` without a list; otherwise whether another phrase follows |
| Phrase.PhraseField.NotFirstIndex | Phrase.py:88-92 | `TypeError` without a list; otherwise whether a phrase comes before |
| Phrase.PhraseField.Next | Phrase.py:81-86 | the index becomes `NextIndex`; when it moved, the text is the new phrase; `TypeError` and no change without a list |
| Phrase.PhraseField.Previous | Phrase.py:94-99 | the index becomes `PreviousIndex`; when it moved, the text is the new phrase; `TypeError` and no change without a list |
| Phrase.PhraseField.DisplayPhrase | Phrase.py:101-110 | `True` exactly when `create_list` is valid, and the text is then the first phrase; otherwise `False` and an empty text; a table error escapes before the text is cleared |

## Left out

- **Tk widgets, frames and menus.** Only one line of text, the insert mark and the `grey` and `sel` tags are modelled. Focus, key bindings, colours and multi-line text are not.
- **Which keys count as delete.** `DELETE_KEYSYMS` and `DELETE_KEYCODES` are not defined in the files modelled, so the handler takes the result of that test as the parameter `isDelete`.
- **The base `AutoText.get_suggestion`.** It only raises `NotImplementedError`. Only the `Key` override is modelled.
- **The Phrase placeholder `get_suggestion`.** It uses a dummy list and an undefined name, and Phrase.py marks it as not yet implemented.
- **Dead code and an unused helper.**
  - The lines after the first `return` in `get_cursor` are never reached.
  - `increment_cursor` is never called by the modelled code, and its string arithmetic on Tk indices is not modelled.
- **`cursor_at_end` with an explicit argument.** Only the default, which compares with the text's end, is modelled.
- **Phrase and the tracker fields.** `Phrase.__init__` bypasses `AutoText.__init__`, so its tracker fields are never set up. Only the phrase list, its index and the text are modelled.
- **File and clock I/O.**
  - Pickles, JSON files and `shutil` copies become values.
  - `date.today()` is a parameter.
  - The copying of the backup files is not modelled; only the recorded dates are.
- **The random test-data generators** (`get_words`, `generate_key_list`, `generate_phrase`, `generate_test_db`). They depend on `random` and on word files.
- **Databases.py undo and redo.** They read unbound names.
- **`__repr__`/`__str__` and the debug output.**
- **Library corner cases.** pandas dtype and `KeyError` details beyond the branches above are not modelled. Nor are Unicode case mapping beyond ASCII and Tk's parsing of index strings.
- DatabaseScript.ScriptDatabase.constructor: assumes the imports of tests/test_databases.py. As written, tests/_test_database.py imports nothing, so the `load_database()` call at line 18 raises `NameError` at line 9 (`pd` and `config` are unbound) when the script is imported. The handler `except FileNotFoundError` does not catch it. The model starts from the saved table, or an empty one, as the script evidently intends.
- KeyTable.Init: a repeated key becomes one column. `DataFrame.from_dict(..., columns=ks)` keeps duplicate column labels. In the model the columns are distinct labels. So `Init(["a", "a"], p)` has one column `a`, where pandas has two. Every first save of a key list with a repeated word (`get_key_list("a a")`) differs this way.
- DatabaseAlt.InitializeKeyDf: merges a repeated key into one column, for the same reason as `KeyTable.Init`.
- DatabaseModule.KeyDatabase.SaveEntry: models `save_entry` called with the current global as `db`, as `generate_test_db` does (database.py:128-130). The two-argument call uses the default `db=db`, which is bound once, when the module is imported (database.py:69). When a file was loaded at import, that default is the same table the global names, and `loc` updates it in place, so the call behaves as modelled. When no file existed at import, the default stays `None`. Then every call runs `initialize_db` (database.py:74), which rebinds the global, and the file ends up holding a one-row table with only the latest entry. The model does not track the default argument.
- Backup.ParseInt: `int()` also accepts the decimal digits of other scripts (for example Arabic-Indic digits). The model accepts only ASCII digits. Its whitespace is the set that `str.isspace()` holds for, as in `Strings.IsSpace`.
- **`cursor_moved` and `delete_word` are used as corrected.** The rest of the model uses the corrected versions; see Findings.
- Autocomplete.HandleKey: states for each branch the properties listed above rather than the whole new state. The full state after each branch is in the contracts of `OnDelete`, `OnNoSuggestion`, `OnCursorOnly` and `OnNewInput`.
- **Where the model follows the code over its tests.**
  - tests/test_autotext.py:244 expects the tracked cursor `'1.14'` after `confirm_suggestion()` with no argument. The code stores `index('end')`, which is `'2.0'` for a one-line text; the model tracks `End`.
  - tests/test_autotext.py:177-180 expect an error message that `get_suggestion` does not produce.
  - The Tab handler does not add a space after the confirmed key.

## Findings

| source | as written | input that shows it | evidently intended | confidence | as-written member | corrected member |
|---|---|---|---|---|---|---|
| AutoText.py:38-46 | `cursor_moved` compares the index strings `'1.N'` as strings | tracked `'1.12'`, cursor at column 6: `'1.12' < '1.6'` gives `'RIGHT'` | `'LEFT'`, as tests/test_autotext.py:55-56 assert: compare the columns | not executed | AutoText.MovedAsWritten, AutoText.MovedCounterexample | AutoText.Moved, AutoText.AutoText.CursorMoved |
| AutoText.py:76-82 | `search(' ', 'insert', backwards=True)` has no stop index, so Tk wraps around to the end of the text | text `"ab cd"`, cursor at column 1: the search finds the space at column 2, `delete('1.2', '1.1')` deletes nothing | delete back to the start: `"b cd"` | not executed | AutoText.DeleteWordAsWritten, AutoText.DeleteWordWrapCounterexample | AutoText.DeleteStart, AutoText.AutoText.DeleteWord |
