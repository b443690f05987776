/** Key.py: the key field, an `AutoText` whose completions are the key
    columns of the key/phrase database. In the program that database is
    the `StandardDatabase` of tests/test_databases.py, the version with
    `get_matching_keys`. */
module Key {
  import opened Strings
  import opened Wrappers
  import opened KeyTable
  import opened AutoText
  import DatabaseClasses

  /** `get_key_list(text)`: the pieces of `text.split(' ')` that are not
      empty, in order. */
  function GetKeyList(text: string): (r: seq<string>)
    ensures forall j :: 0 <= j < |r| ==> r[j] != [] && NoChar(r[j], c => c == ' ')
    ensures IsSubsequence(r, SplitWhere(text, c => c == ' '))
  {
    var pieces := SplitWhere(text, c => c == ' ');
    var r := Filter(pieces, (k: string) => k != []);
    assert forall j :: 0 <= j < |r| ==> r[j] in pieces;
    r
  }

  /** Keys that are not empty and hold no space, joined by single spaces,
      split back into the same keys. */
  lemma {:induction false} KeyListOfJoin(ks: seq<string>)
    requires forall j :: 0 <= j < |ks| ==> ks[j] != [] && NoChar(ks[j], c => c == ' ')
    ensures GetKeyList(Join(ks, " ")) == ks
    decreases |ks|
  {
    var nonEmpty := (k: string) => k != [];
    if |ks| == 1 {
      SplitNoSep(ks[0], ' ');
      assert Filter([ks[0]], nonEmpty) == [ks[0]] + Filter([ks[0]][1..], nonEmpty);
    } else if |ks| > 1 {
      var rest := Join(ks[1..], " ");
      assert Join(ks, " ") == ks[0] + [' '] + rest;
      SplitAfterPiece(ks[0], rest, ' ');
      var pieces := SplitWhere(rest, c => c == ' ');
      assert ([ks[0]] + pieces)[1..] == pieces;
      KeyListOfJoin(ks[1..]);
      assert [ks[0]] + ks[1..] == ks;
    }
  }

  /** `sep.join(ks)` is empty exactly for no keys or the one empty key. */
  lemma JoinEmpty(ks: seq<string>, sep: string)
    requires sep != []
    ensures Join(ks, sep) == [] <==> ks == [] || ks == [[]]
  {
    if |ks| > 1 {
      assert |Join(ks, sep)| >= |sep|;
    }
  }

  /** The candidates `get_suggestion` chooses from: the remaining ones
      when there are any, otherwise the key columns that extend the partial
      key without regard to case, in column order, the partial key itself
      left out. */
  function Candidates(remaining: seq<string>, t: Table, partial: string): (r: seq<string>)
    ensures remaining != [] ==> r == remaining
    ensures remaining == [] && partial != [] ==>
              forall k :: k in r <==> k in t.keys && StartsWith(Lower(k), Lower(partial)) && k != partial
    ensures remaining == [] ==> IsSubsequence(r, t.keys)
  {
    if remaining != [] then remaining
    else
      var valid := ValidKeys(t, partial);
      var r := Filter(valid, (s: string) => s != partial);
      SubsequenceTrans(r, valid, t.keys);
      r
  }

  /** A candidate drawn from the table completes the partial key: the
      partial key followed by the grey tail spells the candidate, up to the
      case of the partial key's letters. */
  lemma CandidateCompletes(t: Table, partial: string, k: string)
    requires partial != [] && k in Candidates([], t, partial)
    ensures |partial| + |From(k, |partial|)| == |k|
    ensures Lower(partial + From(k, |partial|)) == Lower(k)
  {
    assert k in t.keys && StartsWith(Lower(k), Lower(partial));
    LowerCompletion(partial, k);
  }

  /** The partial key of `get_suggestion`: the last word of the typed
      text, `None` when `split()[-1]` raises. */
  function LastWord(text: string): (r: Option<string>)
    ensures r.None? <==> Words(text) == []
    ensures r.Some? ==> r.value != [] && r.value == Words(text)[|Words(text)| - 1]
  {
    var words := Words(text);
    if words == [] then None else Some(words[|words| - 1])
  }

  /** What `get_suggestion()` makes of the typed text and the remaining
      candidates: `IndexError` when the text is blank; nothing (`None`)
      without candidates; otherwise the new grey tail and the candidates
      kept. The tail is what the first candidate has beyond the partial
      key's length; the candidates are kept only with a tail. */
  function SuggestionAfter(text: string, remaining: seq<string>, t: Table): (r: Result<Option<(string, seq<string>)>>)
    ensures r.Raised? <==> Words(text) == []
    ensures r.Raised? ==> r.error == IndexError
    ensures r.Ok? ==>
              var partial := LastWord(text).value;
              var cands := Candidates(remaining, t, partial);
              && (r.value.None? <==> cands == [])
              && (r.value.Some? ==>
                    var tail := r.value.value.0;
                    var kept := r.value.value.1;
                    && (kept == [] <==> tail == [])
                    && (kept != [] ==> kept == cands)
                    && (|partial| <= |cands[0]| ==> cands[0][..|partial|] + tail == cands[0])
                    && (|cands[0]| <= |partial| ==> tail == [])
                    && (remaining == [] ==> Lower(partial + tail) == Lower(cands[0])))
  {
    match LastWord(text)
    case None => Raised(IndexError)
    case Some(partial) =>
      var cands := Candidates(remaining, t, partial);
      if cands == [] then Ok(None)
      else
        var tail := From(cands[0], |partial|);
        assert remaining == [] ==> Lower(partial + tail) == Lower(cands[0]) by {
          if remaining == [] {
            CandidateCompletes(t, partial, cands[0]);
          }
        }
        Ok(Some((tail, if tail != [] then cands else [])))
  }

  class Key {
    /** The text field this key widget is. */
    const field: AutoText
    /** `config.active_objects['db']`. */
    const db: DatabaseClasses.StandardDatabase

    ghost predicate Valid()
      reads this, field, db
    {
      field.Valid() && db.Valid()
    }

    /** `Key(master)`: a new empty field over the active database. */
    constructor(db: DatabaseClasses.StandardDatabase)
      requires db.Valid()
      ensures Valid() && this.db == db && fresh(field)
      ensures field.buffer == [] && field.currentText == [] && field.currentCursor == Unset
      ensures field.suggestionText == [] && field.suggestionList == []
    {
      field := new AutoText();
      this.db := db;
    }

    /** `get_display_key_list()`: the key list of the field's text. */
    function GetDisplayKeyList(): (r: seq<string>)
      reads this, field
      ensures forall j :: 0 <= j < |r| ==> r[j] != [] && NoChar(r[j], c => c == ' ')
      ensures IsSubsequence(r, SplitWhere(field.buffer, c => c == ' '))
    {
      GetKeyList(field.buffer)
    }

    /** `display_matching_keys(phrase)`: when the phrase has keys, they
        become the typed text and the field's contents, and the result is
        `True`; otherwise nothing changes. */
    method DisplayMatchingKeys(phrase: string) returns (shown: bool)
      requires Valid()
      modifies field
      ensures Valid()
      ensures var keys := SavedKeys(db.db, phrase);
              && (shown <==> keys != [] && keys != [[]])
              && (shown ==> && field.currentText == Join(keys, " ")
                            && field.buffer == field.currentText && field.cursor == |field.buffer|
                            && field.grey == None && field.selection == None
                            && field.currentCursor == old(field.currentCursor)
                            && field.suggestionText == old(field.suggestionText)
                            && field.suggestionList == old(field.suggestionList))
              && (!shown ==> unchanged(field))
    {
      var keys := db.GetMatchingKeys(phrase);
      var text := Join(keys, " ");
      JoinEmpty(keys, " ");
      if text != [] {
        field.currentText := text;
        field.SetContents(field.currentText);
        return true;
      }
      return false;
    }

    /** `get_suggestion()`, as `SuggestionAfter` describes it. Without
        candidates nothing changes; with them the tail and the candidates
        kept are stored and the display redrawn. The typed text and the
        tracked cursor are kept either way. */
    method GetSuggestion() returns (outcome: Outcome)
      requires Valid() && field.currentCursor != Unset
      modifies field
      ensures Valid()
      ensures var s := SuggestionAfter(old(field.currentText), old(field.suggestionList), db.db);
              && (s.Raised? ==> outcome == Failed(s.error) && unchanged(field))
              && (s.Ok? ==> outcome == Done)
              && (s.Ok? && s.value.None? ==> unchanged(field))
              && (s.Ok? && s.value.Some? ==>
                    && field.suggestionText == s.value.value.0
                    && field.suggestionList == s.value.value.1
                    && field.currentText == old(field.currentText)
                    && field.currentCursor == old(field.currentCursor)
                    && field.Displayed())
    {
      var last := LastWord(field.currentText);
      if last.None? {
        return Failed(IndexError);
      }
      var partial := last.value;
      var cands := Candidates(field.suggestionList, db.db, partial);
      if cands != [] {
        var suggestion := cands[0];
        field.suggestionText := From(suggestion, |partial|);
        if field.suggestionText != [] {
          field.suggestionList := cands;
        } else {
          field.suggestionList := [];
        }
        field.UpdateDisplay();
      }
      outcome := Done;
    }
  }
}
