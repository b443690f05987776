/** The event handlers of the key field (tests/test_autotext.py): what a
    key release, a Tab, a mouse button release and a modified Backspace do
    to the tracked state of a `Key` field. Each handler chains the
    primitives of `AutoText` and `Key`; an exception raised by
    `get_suggestion()` ends the handler, so the steps after it do not run. */
module Autocomplete {
  import opened Strings
  import opened Wrappers
  import opened AutoText
  import opened Key

  /** The delete branch of `_test_autocomplete`: the typed text is taken
      from the buffer, the completion and the candidates are dropped and
      the buffer shows only what was typed. */
  method OnDelete(k: Key)
    requires k.Valid()
    modifies k.field
    ensures k.Valid()
    ensures var f := k.field;
            && f.suggestionText == [] && f.suggestionList == []
            && f.currentText == Typed(old(f.buffer), old(f.suggestionText))
            && f.buffer == f.currentText
            && f.cursor == Min(old(f.cursor), |f.currentText|)
            && f.currentCursor == Col(f.cursor)
  {
    k.field.UpdateCurrent();
    if k.field.suggestionText != [] {
      k.field.IgnoreSuggestion();
    } else {
      k.field.ResetSuggestions();
    }
  }

  /** The branch without a completion. When the text is as tracked, nothing
      changes. Otherwise the buffer becomes the typed text, and only with
      the cursor at the end is a completion looked up. */
  method OnNoSuggestion(k: Key) returns (outcome: Outcome)
    requires k.Valid() && k.field.suggestionText == []
    modifies k.field
    ensures k.Valid()
    ensures !old(k.field.TextChanged()) ==> outcome == Done && unchanged(k.field)
    ensures old(k.field.TextChanged()) ==>
              var f := k.field;
              && f.currentText == old(f.buffer)
              && f.currentCursor == Col(old(f.cursor))
    ensures old(k.field.TextChanged()) && !old(k.field.CursorAtEnd()) ==>
              var f := k.field;
              && outcome == Done
              && f.suggestionText == [] && f.suggestionList == old(f.suggestionList)
              && f.Widget() == old(f.Widget())
    ensures old(k.field.TextChanged()) && old(k.field.CursorAtEnd()) ==>
              var f := k.field;
              var s := SuggestionAfter(old(f.buffer), old(f.suggestionList), k.db.db);
              && (s.Raised? ==> outcome == Failed(s.error))
              && (s.Ok? ==> outcome == Done)
              && (s.Raised? || s.value.None? ==>
                    f.suggestionText == [] && f.suggestionList == old(f.suggestionList) && f.Widget() == old(f.Widget()))
              && (s.Ok? && s.value.Some? ==>
                    f.suggestionText == s.value.value.0 && f.suggestionList == s.value.value.1 && f.Displayed())
  {
    outcome := Done;
    if k.field.TextChanged() {
      k.field.UpdateCurrent();
      if k.field.CursorAtEnd() {
        outcome := k.GetSuggestion();
      }
    }
  }

  /** The branch with a completion and the text as tracked: only the cursor
      moved, or nothing did. Moved left, the completion is dropped; moved
      right, the completion is confirmed up to the cursor, the candidates
      are narrowed to the new typed text and the next completion looked up;
      in every case the cursor is then tracked. */
  method OnCursorOnly(k: Key) returns (outcome: Outcome)
    requires k.Valid() && k.field.suggestionText != [] && !k.field.TextChanged()
    modifies k.field
    ensures k.Valid()
    ensures old(k.field.CursorMoved()) == Left ==>
              var f := k.field;
              && outcome == Done
              && f.suggestionText == [] && f.suggestionList == []
              && f.currentText == old(f.currentText) && f.buffer == f.currentText
              && f.cursor == Min(old(f.cursor), |f.currentText|) && f.currentCursor == Col(f.cursor)
    ensures old(k.field.CursorMoved()) == Same ==>
              var f := k.field;
              && outcome == Done
              && f.Tracked() == (old(f.currentText), Col(old(f.cursor)), old(f.suggestionText), old(f.suggestionList))
              && f.Widget() == old(f.Widget())
    ensures old(k.field.CursorMoved()) == Right ==>
              var f := k.field;
              var chars := Between(old(f.currentCursor), Col(old(f.cursor)), |old(f.buffer)|);
              var typed := old(f.currentText) + UpTo(old(f.suggestionText), chars);
              var kept := Completions(old(f.suggestionList), typed);
              var s := SuggestionAfter(typed, kept, k.db.db);
              && f.currentText == typed
              && f.Displayed()
              && (s.Raised? ==> outcome == Failed(s.error) && f.currentCursor == Col(old(f.cursor)))
              && (s.Ok? ==> outcome == Done && f.currentCursor == Col(f.cursor))
              && (s.Raised? || s.value.None? ==>
                    f.suggestionText == From(old(f.suggestionText), chars) && f.suggestionList == kept)
              && (s.Ok? && s.value.Some? ==>
                    f.suggestionText == s.value.value.0 && f.suggestionList == s.value.value.1)
  {
    outcome := Done;
    var moved := k.field.CursorMoved();
    if moved == Left {
      k.field.IgnoreSuggestion();
    } else if moved == Right {
      var _ := k.field.ConfirmSuggestion(Some(k.field.cursor));
      k.field.UpdateSuggestions();
      outcome := k.GetSuggestion();
      if outcome.Failed? {
        return;
      }
      TypedOfDisplayed(k.field);
    }
    k.field.UpdateCurrent();
  }

  /** The completion's next character was typed: it is taken off the
      completion, the display is redrawn and confirmed at the cursor, which
      moves nothing more to the typed text, and the candidates are narrowed
      before the next completion is looked up. */
  method TakeNextChar(k: Key) returns (outcome: Outcome)
    requires k.Valid() && k.field.suggestionText != [] && k.field.currentCursor.Col?
    modifies k.field
    ensures k.Valid()
    ensures var f := k.field;
            var rest := old(f.suggestionText)[1..];
            var kept := Completions(old(f.suggestionList), old(f.currentText));
            var s := SuggestionAfter(old(f.currentText), kept, k.db.db);
            && f.currentText == old(f.currentText)
            && f.Displayed()
            && (s.Raised? ==> outcome == Failed(s.error))
            && (s.Ok? ==> outcome == Done)
            && (s.Raised? || s.value.None? ==> f.suggestionText == rest && f.suggestionList == kept)
            && (s.Ok? && s.value.Some? ==>
                  f.suggestionText == s.value.value.0 && f.suggestionList == s.value.value.1)
  {
    k.field.suggestionText := k.field.suggestionText[1..];
    k.field.UpdateDisplay();
    var _ := k.field.ConfirmSuggestion(Some(k.field.cursor));
    k.field.UpdateSuggestions();
    outcome := k.GetSuggestion();
  }

  /** A character other than the completion's next one was typed: the
      completion is dropped and a new one is looked up in the table for the
      typed text. */
  method Resuggest(k: Key) returns (outcome: Outcome)
    requires k.Valid()
    modifies k.field
    ensures k.Valid()
    ensures var f := k.field;
            var s := SuggestionAfter(old(f.currentText), [], k.db.db);
            && f.currentText == old(f.currentText)
            && f.Displayed()
            && f.currentCursor == Col(Min(old(f.cursor), |f.currentText|))
            && (s.Raised? ==> outcome == Failed(s.error))
            && (s.Ok? ==> outcome == Done)
            && (s.Raised? || s.value.None? ==> f.suggestionText == [] && f.suggestionList == [])
            && (s.Ok? && s.value.Some? ==>
                  f.suggestionText == s.value.value.0 && f.suggestionList == s.value.value.1)
  {
    k.field.IgnoreSuggestion();
    outcome := k.GetSuggestion();
  }

  /** The branch with a completion and new input. The typed text is taken
      from the buffer first. Input of other than one character drops the
      completion. The completion's next character, typed, is taken off the
      completion, which is redrawn and confirmed at the cursor; the
      candidates are narrowed and the next completion looked up. Any other
      character drops the completion and a new one is looked up. */
  method OnNewInput(k: Key) returns (outcome: Outcome)
    requires k.Valid() && k.field.suggestionText != [] && k.field.TextChanged()
    modifies k.field
    ensures k.Valid()
    ensures k.field.currentText == Typed(old(k.field.buffer), old(k.field.suggestionText))
    ensures |old(k.field.GetDifference())| != 1 ==>
              var f := k.field;
              && outcome == Done
              && f.suggestionText == [] && f.suggestionList == []
              && f.buffer == f.currentText
              && f.cursor == Min(old(f.cursor), |f.currentText|) && f.currentCursor == Col(f.cursor)
    ensures old(k.field.GetDifference()) == [old(k.field.suggestionText)[0]] ==>
              var f := k.field;
              var rest := old(f.suggestionText)[1..];
              var kept := Completions(old(f.suggestionList), f.currentText);
              var s := SuggestionAfter(f.currentText, kept, k.db.db);
              && f.Displayed()
              && (s.Raised? ==> outcome == Failed(s.error))
              && (s.Ok? ==> outcome == Done)
              && (s.Raised? || s.value.None? ==> f.suggestionText == rest && f.suggestionList == kept)
              && (s.Ok? && s.value.Some? ==>
                    f.suggestionText == s.value.value.0 && f.suggestionList == s.value.value.1)
    ensures |old(k.field.GetDifference())| == 1 && old(k.field.GetDifference()) != [old(k.field.suggestionText)[0]] ==>
              var f := k.field;
              var s := SuggestionAfter(f.currentText, [], k.db.db);
              && f.Displayed()
              && f.currentCursor == Col(Min(old(f.cursor), |f.currentText|))
              && (s.Raised? ==> outcome == Failed(s.error))
              && (s.Ok? ==> outcome == Done)
              && (s.Raised? || s.value.None? ==> f.suggestionText == [] && f.suggestionList == [])
              && (s.Ok? && s.value.Some? ==>
                    f.suggestionText == s.value.value.0 && f.suggestionList == s.value.value.1)
  {
    var input := k.field.GetDifference();
    k.field.UpdateCurrent();
    if |input| != 1 {
      k.field.IgnoreSuggestion();
      outcome := Done;
    } else if input == [k.field.suggestionText[0]] {
      outcome := TakeNextChar(k);
    } else {
      outcome := Resuggest(k);
    }
  }

  /** The user typed the completion's next character `c` right after the
      typed text: the text counts as changed, the new input is `c`, and
      once the typed text is taken from the buffer it ends with `c`, while
      with the completion's rest it still spells the old display. */
  lemma NextCharTyped(w: AutoText, c: char)
    requires w.suggestionText != [] && c == w.suggestionText[0]
    requires w.buffer == w.currentText + [c] + w.suggestionText
    ensures w.TextChanged() && w.GetDifference() == [c]
    ensures Typed(w.buffer, w.suggestionText) == w.currentText + [c]
    ensures Typed(w.buffer, w.suggestionText) + w.suggestionText[1..] == w.currentText + w.suggestionText
  {
    TextChangedIff(w, [c]);
    GetDifferenceOfTyped(w, [c]);
    TypedOfAppend(w.currentText + [c], w.suggestionText);
    assert [c] + w.suggestionText[1..] == w.suggestionText;
  }

  /** `_test_autocomplete(event)`: a delete key, then whether a completion
      is shown, then whether the text changed, choose the branch. */
  method HandleKey(k: Key, isDelete: bool) returns (outcome: Outcome)
    requires k.Valid()
    modifies k.field
    ensures k.Valid()
    ensures isDelete ==>
              var f := k.field;
              && outcome == Done
              && f.suggestionText == [] && f.suggestionList == []
              && f.currentText == Typed(old(f.buffer), old(f.suggestionText)) && f.buffer == f.currentText
    ensures !isDelete && old(k.field.suggestionText) == [] && !old(k.field.TextChanged()) ==>
              outcome == Done && unchanged(k.field)
    ensures !isDelete && old(k.field.suggestionText) == [] && old(k.field.TextChanged()) ==>
              var f := k.field;
              && f.currentText == old(f.buffer) && f.currentCursor == Col(old(f.cursor))
              && (!old(f.CursorAtEnd()) ==> outcome == Done && f.suggestionText == [])
    ensures !isDelete && old(k.field.suggestionText) != [] && !old(k.field.TextChanged()) ==>
              var f := k.field;
              && (old(f.CursorMoved()) == Left ==>
                    f.suggestionText == [] && f.suggestionList == [] && f.currentText == old(f.currentText))
              && (old(f.CursorMoved()) == Right ==>
                    f.currentText == old(f.currentText) +
                      UpTo(old(f.suggestionText), Between(old(f.currentCursor), Col(old(f.cursor)), |old(f.buffer)|)))
              && (old(f.CursorMoved()) == Same ==>
                    f.currentText == old(f.currentText) && f.suggestionText == old(f.suggestionText))
    ensures !isDelete && old(k.field.suggestionText) != [] && old(k.field.TextChanged()) ==>
              var f := k.field;
              && f.currentText == Typed(old(f.buffer), old(f.suggestionText))
              && (|old(f.GetDifference())| != 1 ==>
                    outcome == Done && f.suggestionText == [] && f.suggestionList == [])
  {
    if isDelete {
      OnDelete(k);
      outcome := Done;
    } else if k.field.suggestionText == [] {
      outcome := OnNoSuggestion(k);
    } else if !k.field.TextChanged() {
      outcome := OnCursorOnly(k);
    } else {
      outcome := OnNewInput(k);
    }
  }

  /** `_test_handle_tab(event)`: the whole rest of the completion, as far
      as `end`, is confirmed; only then are the candidates narrowed, the
      next completion looked up and the cursor tracked. Without a
      completion nothing changes. */
  method HandleTab(k: Key) returns (outcome: Outcome)
    requires k.Valid()
    modifies k.field
    ensures k.Valid()
    ensures old(k.field.suggestionText) == [] ==> outcome == Done && unchanged(k.field)
    ensures old(k.field.suggestionText) != [] ==>
              var f := k.field;
              var chars := Between(old(f.currentCursor), End, |old(f.buffer)|);
              var typed := old(f.currentText) + UpTo(old(f.suggestionText), chars);
              var kept := Completions(old(f.suggestionList), typed);
              var s := SuggestionAfter(typed, kept, k.db.db);
              && f.currentText == typed
              && f.Displayed()
              && (s.Raised? ==> outcome == Failed(s.error) && f.currentCursor == End)
              && (s.Ok? ==> outcome == Done && f.currentCursor == Col(|f.buffer|))
              && (s.Raised? || s.value.None? ==>
                    f.suggestionText == From(old(f.suggestionText), chars) && f.suggestionList == kept)
              && (s.Ok? && s.value.Some? ==>
                    f.suggestionText == s.value.value.0 && f.suggestionList == s.value.value.1)
  {
    var confirmed := k.field.ConfirmSuggestion(None);
    outcome := Done;
    if confirmed {
      k.field.UpdateSuggestions();
      outcome := k.GetSuggestion();
      if outcome.Failed? {
        return;
      }
      TypedOfDisplayed(k.field);
      k.field.UpdateCurrent();
    }
  }

  /** Tab confirms all of a completion that follows the tracked cursor:
      `end` lies after every character of the text. */
  lemma TabConfirmsAll(at: Index, typed: string, tail: string, len: nat)
    requires at != Unset && |typed| + |tail| <= len && Offset(at, len) <= |typed|
    ensures UpTo(tail, Between(at, End, len)) == tail
  {
    assert Between(at, End, len) >= |tail|;
  }

  /** `_test_handle_button_release(event)`. With a completion shown, a
      selection confirms the completion up to its end and is then laid
      again over the redrawn text; then a cursor moved left drops the
      completion and one moved right confirms it up to the cursor. Without
      a completion nothing changes. */
  method HandleButtonRelease(k: Key)
    requires k.Valid()
    modifies k.field
    ensures k.Valid()
    ensures old(k.field.suggestionText) == [] ==> unchanged(k.field)
    ensures old(k.field.suggestionText) != [] && old(k.field.selection).Some? ==>
              var f := k.field;
              var sel := old(f.selection).value;
              var chars := Between(old(f.currentCursor), Col(sel.end), |old(f.buffer)|);
              && f.currentText == old(f.currentText) + UpTo(old(f.suggestionText), chars)
              && f.suggestionText == From(old(f.suggestionText), chars)
              && f.buffer == old(f.currentText) + old(f.suggestionText)
              && f.currentCursor == Col(sel.end)
              && f.selection == Tag(Min(sel.start, |f.buffer|), Min(sel.end, |f.buffer|))
              && f.suggestionList == old(f.suggestionList)
    ensures old(k.field.suggestionText) != [] && old(k.field.selection).None? ==>
              var f := k.field;
              && (old(f.CursorMoved()) == Same ==> unchanged(f))
              && (old(f.CursorMoved()) == Left ==>
                    && f.suggestionText == [] && f.suggestionList == []
                    && f.currentText == old(f.currentText) && f.buffer == f.currentText)
              && (old(f.CursorMoved()) == Right ==>
                    var chars := Between(old(f.currentCursor), Col(old(f.cursor)), |old(f.buffer)|);
                    && f.currentText == old(f.currentText) + UpTo(old(f.suggestionText), chars)
                    && f.suggestionText == From(old(f.suggestionText), chars)
                    && f.currentCursor == Col(old(f.cursor))
                    && f.suggestionList == old(f.suggestionList)
                    && f.Displayed())
  {
    if k.field.suggestionText == [] {
      return;
    }
    if k.field.selection.Some? {
      var sel := k.field.selection.value;
      var _ := k.field.ConfirmSuggestion(Some(sel.end));
      k.field.Select(sel.start, sel.end);
    }
    var moved := k.field.CursorMoved();
    if moved == Left {
      k.field.IgnoreSuggestion();
    } else if moved == Right {
      var _ := k.field.ConfirmSuggestion(Some(k.field.cursor));
    }
  }

  /** `_test_handle_backspace(event)`: with a modifier (Shift, Control,
      Alt or Command, states 1, 4, 8 and 16) the word before the cursor is
      deleted and `'break'` stops Tk's own handling; otherwise nothing
      changes here and Tk deletes one character. */
  method HandleBackspace(k: Key, state: int) returns (stop: bool)
    requires k.Valid()
    modifies k.field
    ensures k.Valid()
    ensures stop <==> state in {1, 4, 8, 16}
    ensures !stop ==> unchanged(k.field)
    ensures stop ==>
              var f := k.field;
              var start := DeleteStart(old(f.buffer), old(f.cursor));
              && f.buffer == old(f.buffer)[..start] + old(f.buffer)[old(f.cursor)..]
              && f.cursor == start
              && f.Tracked() == old(f.Tracked())
  {
    stop := state in {1, 4, 8, 16};
    if stop {
      k.field.DeleteWord();
    }
  }
}
