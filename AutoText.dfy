/** AutoText.py: a one-line Tk text field with inline completion. The field
    tracks what the user really typed (`current_text`), where the cursor was
    then (`current_cursor`), the grey completion shown after the typed text
    (`suggestion_text`) and the remaining candidates (`suggestion_list`).
    The Tk widget is modelled as its text, the column of its insert mark and
    the ranges of its `grey` and `sel` tags; the newline Tk keeps after the
    text is not part of the text but counts in index arithmetic. */
module AutoText {
  import opened Strings
  import opened Wrappers

  /** A stored Tk index: `None`, a `1.N` index as `get_cursor()` returns it,
      or the `2.0` that `index('end')` returns for a one-line text. */
  datatype Index = Unset | Col(n: nat) | End

  /** The result of `cursor_moved()`: `False`, `'LEFT'` or `'RIGHT'`. */
  datatype Direction = Same | Left | Right

  /** A non-empty range of characters `[start, end)` carrying a tag. */
  datatype Span = Span(start: nat, end: nat)

  function Min(a: nat, b: nat): nat {
    if a <= b then a else b
  }

  /** The character offset of an index in a text of `len` characters, as Tk
      resolves it: a column past the end of the line is the end of the line,
      and `end` lies after the final newline. */
  function Offset(i: Index, len: nat): nat
    requires i != Unset
  {
    match i
    case Col(n) => Min(n, len)
    case End => len + 1
  }

  /** Where `mark_set('insert', i)` puts the cursor: never after the final
      newline. */
  function InsertPosition(i: Index, len: nat): (r: nat)
    requires i != Unset
    ensures r <= len
    ensures i.Col? && i.n <= len ==> r == i.n
    ensures i.End? ==> r == len
  {
    Min(Offset(i, len), len)
  }

  /** `len(text.get(a, b))`: the characters from `a` up to `b`, none when
      `b` does not come after `a`. */
  function Between(a: Index, b: Index, len: nat): (r: nat)
    requires a != Unset && b != Unset
    ensures Offset(a, len) + r == Offset(b, len) || (r == 0 && Offset(b, len) <= Offset(a, len))
  {
    if Offset(b, len) > Offset(a, len) then Offset(b, len) - Offset(a, len) else 0
  }

  /** `tag_add(tag, s, e)` on a text without that tag: an empty range adds
      nothing. */
  function Tag(s: nat, e: nat): (r: Option<Span>)
    ensures r.Some? <==> s < e
    ensures r.Some? ==> r.value == Span(s, e)
  {
    if s < e then Some(Span(s, e)) else None
  }

  /** The tag lies inside a text of `len` characters. */
  predicate SpanIn(t: Option<Span>, len: nat) {
    t.Some? ==> t.value.start < t.value.end <= len
  }

  /** Where position `b` moves when `[s, e)` is deleted. */
  function ShiftDeleted(b: nat, s: nat, e: nat): (r: nat)
    requires s <= e
    ensures b <= s ==> r == b
    ensures s <= b <= e ==> r == s
    ensures e <= b ==> r + (e - s) == b
  {
    if b <= s then b else if b <= e then s else b - (e - s)
  }

  /** A tag range after `delete(s, e)`: it shrinks by the characters it
      loses, and disappears when it loses them all. */
  function AfterDelete(t: Option<Span>, s: nat, e: nat): (r: Option<Span>)
    requires s <= e
    ensures forall len :: e <= len && SpanIn(t, len) ==> SpanIn(r, len - (e - s))
  {
    if t.None? then None
    else Tag(ShiftDeleted(t.value.start, s, e), ShiftDeleted(t.value.end, s, e))
  }

  /** A tag range after `n` characters are inserted at `pos`: the new
      characters carry the tag only when the characters on both sides do. */
  function AfterInsert(t: Option<Span>, pos: nat, n: nat): (r: Option<Span>)
    ensures forall len: nat :: SpanIn(t, len) ==> SpanIn(r, len + n)
    ensures t.Some? && t.value.start < pos < t.value.end ==> r == Some(Span(t.value.start, t.value.end + n))
    ensures t.Some? && t.value.start < t.value.end <= pos ==> r == t
  {
    if t.None? then None
    else
      var start := if pos <= t.value.start then t.value.start + n else t.value.start;
      var end := if pos < t.value.end then t.value.end + n else t.value.end;
      Some(Span(start, end))
  }

  /** The last space in `s[..n]`. */
  function LastSpaceBefore(s: string, n: nat): (r: Option<nat>)
    requires n <= |s|
    ensures r.Some? ==> r.value < n && s[r.value] == ' ' && forall i :: r.value < i < n ==> s[i] != ' '
    ensures r.None? ==> forall i :: 0 <= i < n ==> s[i] != ' '
    decreases n
  {
    if n == 0 then None
    else if s[n - 1] == ' ' then Some(n - 1)
    else LastSpaceBefore(s, n - 1)
  }

  /** `search(' ', 'insert', backwards=True)` as `delete_word` calls it,
      without a stop index: when no space precedes the cursor, Tk wraps
      round and finds the last space of the whole text. */
  function SpaceSearchAsWritten(s: string, cursor: nat): (r: Option<nat>)
    requires cursor <= |s|
    ensures r.Some? ==> r.value < |s| && s[r.value] == ' '
    ensures LastSpaceBefore(s, cursor).Some? ==> r == LastSpaceBefore(s, cursor)
  {
    match LastSpaceBefore(s, cursor)
    case Some(i) => Some(i)
    case None => LastSpaceBefore(s, |s|)
  }

  /** The text after `delete_word` as written: `delete(start, insert)`
      deletes nothing when the space found lies after the cursor. */
  function DeleteWordAsWritten(s: string, cursor: nat): (r: string)
    requires cursor <= |s|
    ensures SpaceSearchAsWritten(s, cursor).Some? && SpaceSearchAsWritten(s, cursor).value >= cursor ==> r == s
  {
    var start := match SpaceSearchAsWritten(s, cursor) case Some(i) => i case None => 0;
    if start <= cursor then s[..start] + s[cursor..] else s
  }

  /** Where `delete_word` evidently means to start deleting: at the last
      space before the cursor, or at the start of the text when there is
      none. */
  function DeleteStart(s: string, cursor: nat): (r: nat)
    requires cursor <= |s|
    ensures r <= cursor
    ensures r == 0 || (r < cursor && s[r] == ' ')
    ensures forall i :: r < i < cursor ==> s[i] != ' '
  {
    match LastSpaceBefore(s, cursor)
    case Some(i) => i
    case None => 0
  }

  /** Wherever a space precedes the cursor, or no space follows it, the
      code as written and the corrected start agree. */
  lemma DeleteWordAgrees(s: string, cursor: nat)
    requires cursor <= |s|
    requires LastSpaceBefore(s, cursor).Some? || forall i :: cursor <= i < |s| ==> s[i] != ' '
    ensures DeleteWordAsWritten(s, cursor) == s[..DeleteStart(s, cursor)] + s[cursor..]
  {
    if LastSpaceBefore(s, cursor).None? {
      assert LastSpaceBefore(s, |s|).None?;
    }
  }

  /** "ab cd" with the cursor after the `a`: the search wraps to the space
      after the cursor and nothing is deleted, where deleting the `a` is
      meant. */
  lemma DeleteWordWrapCounterexample()
    ensures DeleteWordAsWritten("ab cd", 1) == "ab cd"
    ensures "ab cd"[..DeleteStart("ab cd", 1)] + "ab cd"[1..] == "b cd"
  {
    assert LastSpaceBefore("ab cd", 1) == LastSpaceBefore("ab cd", 0);
    assert LastSpaceBefore("ab cd", 5) == LastSpaceBefore("ab cd", 4);
    assert LastSpaceBefore("ab cd", 4) == LastSpaceBefore("ab cd", 3);
    assert LastSpaceBefore("ab cd", 3) == Some(2);
  }

  /** `str(n)`: the decimal digits of `n`, without leading zeros. */
  function Decimal(n: nat): (r: string)
    ensures |r| >= 1 && AllDigits(r) && DigitsValue(r) == n
    ensures r[0] == '0' ==> n == 0
  {
    if n < 10 then [('0' as int + n) as char]
    else
      var r := Decimal(n / 10) + [('0' as int + n % 10) as char];
      assert r[..|r| - 1] == Decimal(n / 10);
      r
  }

  /** Python's `a < b` on strings: code-point order, a proper prefix first. */
  function PyLess(a: string, b: string): (r: bool)
    ensures |a| < |b| && b[..|a|] == a ==> r
    ensures |b| <= |a| && a[..|b|] == b ==> !r
    decreases |a|
  {
    if a == [] then b != []
    else b != [] && (a[0] < b[0] || (a[0] == b[0] && PyLess(a[1..], b[1..])))
  }

  /** The string an index is stored as. */
  function IndexString(i: Index): (r: string)
    requires i != Unset
    ensures i.Col? ==> r == "1." + Decimal(i.n)
  {
    match i
    case Col(n) => "1." + Decimal(n)
    case End => "2.0"
  }

  /** `cursor_moved` as written: the stored index and `get_cursor()` are
      compared as strings. */
  function MovedAsWritten(stored: Index, cursor: nat): (r: Direction)
    requires stored != Unset
    ensures r == Same <==> IndexString(stored) == "1." + Decimal(cursor)
  {
    var display := "1." + Decimal(cursor);
    if IndexString(stored) == display then Same
    else if PyLess(display, IndexString(stored)) then Left
    else Right
  }

  /** `cursor_moved` as evidently intended: the two positions compared in
      the text, as Tk's `compare` does. */
  function Moved(stored: Index, cursor: nat, len: nat): (r: Direction)
    requires stored != Unset
    ensures r == Same <==> Offset(stored, len) == cursor
    ensures r == Left <==> Offset(stored, len) > cursor
    ensures r == Right <==> Offset(stored, len) < cursor
  {
    if Offset(stored, len) == cursor then Same
    else if Offset(stored, len) > cursor then Left
    else Right
  }

  /** Stored `1.12`, cursor at `1.6`: as strings `'1.12' < '1.6'`, so the
      code says `'RIGHT'` for a cursor that moved left. */
  lemma MovedCounterexample()
    ensures MovedAsWritten(Col(12), 6) == Right
    ensures Moved(Col(12), 6, 12) == Left
  {
    assert Decimal(12) == Decimal(1) + ['2'];
    assert IndexString(Col(12)) == "1.12";
    assert "1." + Decimal(6) == "1.6";
    assert !PyLess("1.6", "1.12") by {
      assert "1.6"[1..] == ".6" && "1.12"[1..] == ".12";
      assert ".6"[1..] == "6" && ".12"[1..] == "12";
      assert !PyLess("6", "12");
    }
  }

  /** With one-digit columns within the text, or a stored `end`, the
      string comparison gives the intended answer. */
  lemma MovedAgrees(stored: Index, cursor: nat, len: nat)
    requires stored != Unset && cursor <= len
    requires stored.Col? ==> stored.n < 10 && stored.n <= len && cursor < 10
    ensures MovedAsWritten(stored, cursor) == Moved(stored, cursor, len)
  {
    var display := "1." + Decimal(cursor);
    if stored.End? {
      assert display[0] == '1';
      assert PyLess(display, "2.0");
    } else {
      var c := ('0' as int + cursor) as char;
      var d := ('0' as int + stored.n) as char;
      assert display == ['1', '.', c];
      assert IndexString(stored) == ['1', '.', d];
      assert ['1', '.', c][1..] == ['.', c] && ['1', '.', d][1..] == ['.', d];
      assert ['.', c][1..] == [c] && ['.', d][1..] == [d];
      assert [c][1..] == [] && [d][1..] == [];
      assert PyLess([c], [d]) <==> c < d;
      assert PyLess([d], [c]) <==> d < c;
      assert PyLess(display, IndexString(stored)) <==> PyLess([c], [d]);
      assert PyLess(display, IndexString(stored)) <==> cursor < stored.n;
      assert display == IndexString(stored) <==> cursor == stored.n;
    }
  }

  /** The text the user typed, in a buffer that ends with the grey tail
      `tail`: `display_text[:-len(tail)]`, or all of it without a tail. */
  function Typed(buffer: string, tail: string): (r: string)
    ensures r <= buffer
    ensures tail == [] ==> r == buffer
    ensures tail != [] && |tail| <= |buffer| ==> |r| + |tail| == |buffer|
  {
    if tail != [] then DropLast(buffer, |tail|) else buffer
  }

  lemma TypedOfAppend(typed: string, tail: string)
    ensures Typed(typed + tail, tail) == typed
  {
    if tail != [] {
      DropLastOfAppend(typed, tail);
    }
  }

  /** The candidates `update_suggestions` keeps: those that start with the
      typed text and are longer than it. */
  function Completions(list: seq<string>, typed: string): (r: seq<string>)
    ensures forall s :: s in r <==> s in list && StartsWith(s, typed) && s != typed
    ensures IsSubsequence(r, list)
  {
    Filter(list, (s: string) => StartsWith(s, typed) && s != typed)
  }

  /** Pruning the candidates twice for the same text prunes them once. */
  lemma {:induction false} CompletionsIdempotent(list: seq<string>, typed: string)
    ensures Completions(Completions(list, typed), typed) == Completions(list, typed)
  {
    FilterTwice(list, (s: string) => StartsWith(s, typed) && s != typed);
  }

  /** Pruning for the typed text and then for a longer text that extends
      it is pruning for the longer text. */
  lemma {:induction false} CompletionsNarrow(list: seq<string>, typed: string, longer: string)
    requires typed <= longer && typed != longer
    ensures Completions(Completions(list, typed), longer) == Completions(list, longer)
  {
    var first := (s: string) => StartsWith(s, typed) && s != typed;
    var second := (s: string) => StartsWith(s, longer) && s != longer;
    forall s | second(s)
      ensures first(s)
    {
      assert |s| >= |longer| > |typed|;
    }
    FilterImplied(list, first, second);
  }

  class AutoText {
    /** The widget's text, without the newline Tk keeps after it. */
    var buffer: string
    /** The column of the insert mark. */
    var cursor: nat
    /** The range of the `grey` tag, which `update_display` lays on the
        completion. */
    var grey: Option<Span>
    /** The range of the `sel` tag. */
    var selection: Option<Span>
    var currentText: string
    var currentCursor: Index
    var suggestionText: string
    var suggestionList: seq<string>

    ghost predicate Valid()
      reads this
    {
      && cursor <= |buffer|
      && SpanIn(grey, |buffer|)
      && SpanIn(selection, |buffer|)
      && (suggestionText != [] ==> currentCursor != Unset)
    }

    /** What `update_display` sets up: the buffer shows the typed text and
        then the grey completion, and the cursor stands at the tracked
        index. */
    ghost predicate Displayed()
      reads this
    {
      && buffer == currentText + suggestionText
      && grey == Tag(|currentText|, |buffer|)
      && selection == None
      && currentCursor != Unset
      && cursor == InsertPosition(currentCursor, |buffer|)
    }

    /** The four fields the completion logic keeps. */
    ghost function Tracked(): (string, Index, string, seq<string>)
      reads this
    {
      (currentText, currentCursor, suggestionText, suggestionList)
    }

    /** The state of the Tk widget. */
    ghost function Widget(): (string, nat, Option<Span>, Option<Span>)
      reads this
    {
      (buffer, cursor, grey, selection)
    }

    /** `AutoText(master)`: an empty widget, nothing typed, no cursor yet,
        no completion. */
    constructor()
      ensures Valid()
      ensures buffer == [] && cursor == 0 && grey == None && selection == None
      ensures currentText == [] && currentCursor == Unset
      ensures suggestionText == [] && suggestionList == []
    {
      buffer := [];
      cursor := 0;
      grey := None;
      selection := None;
      currentText := [];
      currentCursor := Unset;
      suggestionText := [];
      suggestionList := [];
    }

    /** Tk's `insert(pos, text)`: the insert mark moves right when the text
        goes in at or before it. */
    method Insert(pos: nat, text: string)
      requires Valid() && pos <= |buffer|
      modifies this
      ensures Valid()
      ensures buffer == old(buffer[..pos]) + text + old(buffer[pos..])
      ensures cursor == if pos <= old(cursor) then old(cursor) + |text| else old(cursor)
      ensures grey == AfterInsert(old(grey), pos, |text|)
      ensures selection == AfterInsert(old(selection), pos, |text|)
      ensures Tracked() == old(Tracked())
    {
      buffer := buffer[..pos] + text + buffer[pos..];
      if pos <= cursor {
        cursor := cursor + |text|;
      }
      grey := AfterInsert(grey, pos, |text|);
      selection := AfterInsert(selection, pos, |text|);
    }

    /** Tk's `delete(s, e)`: nothing when `e` does not come after `s`. */
    method Delete(s: nat, e: nat)
      requires Valid() && s <= |buffer| && e <= |buffer|
      modifies this
      ensures Valid()
      ensures s < e ==> && buffer == old(buffer[..s]) + old(buffer[e..])
                        && cursor == ShiftDeleted(old(cursor), s, e)
                        && grey == AfterDelete(old(grey), s, e)
                        && selection == AfterDelete(old(selection), s, e)
      ensures e <= s ==> Widget() == old(Widget())
      ensures Tracked() == old(Tracked())
    {
      if s < e {
        buffer := buffer[..s] + buffer[e..];
        cursor := ShiftDeleted(cursor, s, e);
        grey := AfterDelete(grey, s, e);
        selection := AfterDelete(selection, s, e);
      }
    }

    /** `clear()`: `delete('1.0', 'end')`. */
    method Clear()
      requires Valid()
      modifies this
      ensures Valid()
      ensures buffer == [] && cursor == 0 && grey == None && selection == None
      ensures Tracked() == old(Tracked())
    {
      Delete(0, |buffer|);
    }

    /** `set_cursor(index)`. */
    method SetCursor(i: Index)
      requires Valid() && i != Unset
      modifies this
      ensures Valid()
      ensures cursor == InsertPosition(i, |buffer|)
      ensures buffer == old(buffer) && grey == old(grey) && selection == old(selection)
      ensures Tracked() == old(Tracked())
    {
      cursor := InsertPosition(i, |buffer|);
    }

    /** `set_contents(s)`, which the tests use: the text is replaced and the
        cursor stands at its end. */
    method SetContents(s: string)
      requires Valid()
      modifies this
      ensures Valid()
      ensures buffer == s && cursor == |s| && grey == None && selection == None
      ensures Tracked() == old(Tracked())
    {
      Clear();
      Insert(0, s);
    }

    /** `type_text(text, index)`, which the tests use to simulate typing:
        the text goes in at the column given, or at the cursor, and the
        cursor follows it. */
    method TypeText(text: string, at: Option<nat>)
      requires Valid()
      modifies this
      ensures Valid()
      ensures var pos := if at.Some? then Min(at.value, |old(buffer)|) else old(cursor);
              && buffer == old(buffer)[..pos] + text + old(buffer)[pos..]
              && cursor == pos + |text|
              && grey == AfterInsert(old(grey), pos, |text|)
      ensures Tracked() == old(Tracked())
    {
      var pos := if at.Some? then Min(at.value, |buffer|) else cursor;
      Insert(pos, text);
      cursor := pos + |text|;
    }

    /** `tag_remove('sel', '1.0', 'end')` and `tag_add('sel', s, e)`. */
    method Select(s: nat, e: nat)
      requires Valid()
      modifies this
      ensures Valid()
      ensures selection == Tag(Min(s, |buffer|), Min(e, |buffer|))
      ensures buffer == old(buffer) && cursor == old(cursor) && grey == old(grey)
      ensures Tracked() == old(Tracked())
    {
      selection := Tag(Min(s, |buffer|), Min(e, |buffer|));
    }

    /** `get_selection()`, which the tests use: the selected text, or `None`
        without a selection. */
    function GetSelection(): (r: Option<string>)
      requires Valid()
      reads this
      ensures r.None? <==> selection.None?
      ensures r.Some? ==> r.value == buffer[selection.value.start..selection.value.end] && r.value != []
    {
      if selection.None? then None
      else Some(buffer[selection.value.start..selection.value.end])
    }

    /** `cursor_at_end()`: the cursor stands before the final newline. */
    predicate CursorAtEnd(): (r: bool)
      reads this
      ensures Valid() ==> (r <==> buffer[cursor..] == [])
    {
      cursor == |buffer|
    }

    predicate OccursAt(pattern: string, i: nat)
      reads this
    {
      i + |pattern| <= |buffer| && buffer[i..i + |pattern|] == pattern
    }

    /** `search_forwards(pattern, index)`, which the tests use: the first
        occurrence at or after the offset `from`, without wrapping; none for
        an empty pattern. */
    function SearchForwards(pattern: string, from: nat): (r: Option<nat>)
      reads this
      ensures pattern == [] ==> r == None
      ensures r.Some? ==> from <= r.value && OccursAt(pattern, r.value)
      ensures r.Some? ==> forall j :: from <= j < r.value ==> !OccursAt(pattern, j)
      ensures r.None? && pattern != [] ==> forall j :: from <= j ==> !OccursAt(pattern, j)
      decreases |buffer| + 1 - from
    {
      if pattern == [] || from + |pattern| > |buffer| then None
      else if OccursAt(pattern, from) then Some(from)
      else SearchForwards(pattern, from + 1)
    }

    /** `search_backwards(pattern, index)`, which the tests use: the last
        occurrence starting before the offset `from`, without wrapping; none
        for an empty pattern. */
    function SearchBackwards(pattern: string, from: nat): (r: Option<nat>)
      reads this
      ensures pattern == [] ==> r == None
      ensures r.Some? ==> r.value < from && OccursAt(pattern, r.value)
      ensures r.Some? ==> forall j :: r.value < j < from ==> !OccursAt(pattern, j)
      ensures r.None? && pattern != [] ==> forall j: nat :: j < from ==> !OccursAt(pattern, j)
      decreases from
    {
      if pattern == [] || from == 0 then None
      else if OccursAt(pattern, from - 1) then Some(from - 1)
      else SearchBackwards(pattern, from - 1)
    }

    /** `cursor_moved()`, with the comparison as intended. */
    function CursorMoved(): (r: Direction)
      requires currentCursor != Unset
      reads this
      ensures r == Same <==> Offset(currentCursor, |buffer|) == cursor
      ensures r == Left <==> Offset(currentCursor, |buffer|) > cursor
      ensures r == Right <==> Offset(currentCursor, |buffer|) < cursor
    {
      Moved(currentCursor, cursor, |buffer|)
    }

    /** `update_display()`: the text becomes the typed text followed by the
        completion, which is tagged grey, and the cursor goes to the tracked
        index. */
    method UpdateDisplay()
      requires Valid() && currentCursor != Unset
      modifies this
      ensures Valid() && Displayed()
      ensures Tracked() == old(Tracked())
    {
      var start := |currentText|;
      var end := |currentText| + |suggestionText|;
      Clear();
      Insert(0, currentText + suggestionText);
      grey := Tag(start, end);
      SetCursor(currentCursor);
    }

    /** `delete_word()`, with the search stopped at the start of the text:
        from the last space before the cursor, that space included, or from
        the start, up to the cursor. */
    method DeleteWord()
      requires Valid()
      modifies this
      ensures Valid()
      ensures var start := DeleteStart(old(buffer), old(cursor));
              && buffer == old(buffer)[..start] + old(buffer)[old(cursor)..]
              && cursor == start
      ensures Tracked() == old(Tracked())
    {
      var start := DeleteStart(buffer, cursor);
      Delete(start, cursor);
    }

    /** `update_current()`: the text typed so far and the cursor become the
        tracked ones. */
    method UpdateCurrent()
      requires Valid()
      modifies this
      ensures Valid()
      ensures currentText == Typed(old(buffer), old(suggestionText))
      ensures currentCursor == Col(old(cursor))
      ensures suggestionText == old(suggestionText) && suggestionList == old(suggestionList)
      ensures Widget() == old(Widget())
    {
      currentText := Typed(buffer, suggestionText);
      currentCursor := Col(cursor);
    }

    /** `text_changed()`. */
    function TextChanged(): (r: bool)
      reads this
      ensures buffer == currentText + suggestionText ==> !r
    {
      TypedOfAppend(currentText, suggestionText);
      Typed(buffer, suggestionText) != currentText
    }

    /** `get_difference()`: the text between the typed text and the
        completion. */
    function GetDifference(): (r: string)
      reads this
      ensures |r| <= |buffer|
      ensures buffer == currentText + suggestionText ==> r == []
    {
      var text := From(buffer, |currentText|);
      if suggestionText != [] then DropLast(text, |suggestionText|) else text
    }

    /** `update_suggestions()`. */
    method UpdateSuggestions()
      requires Valid()
      modifies this
      ensures Valid()
      ensures suggestionList == Completions(old(suggestionList), currentText)
      ensures currentText == old(currentText) && currentCursor == old(currentCursor)
      ensures suggestionText == old(suggestionText)
      ensures Widget() == old(Widget())
    {
      suggestionList := Completions(suggestionList, currentText);
    }

    /** `reset_suggestions()`. */
    method ResetSuggestions()
      requires Valid()
      modifies this
      ensures Valid()
      ensures suggestionText == [] && suggestionList == []
      ensures currentText == old(currentText) && currentCursor == old(currentCursor)
      ensures Widget() == old(Widget())
    {
      suggestionList := [];
      suggestionText := [];
    }

    /** `ignore_suggestion()`: the completion and the candidates are
        dropped, the text shows only what was typed, and the cursor, kept
        where it was when that text is long enough, is tracked. */
    method IgnoreSuggestion()
      requires Valid()
      modifies this
      ensures Valid()
      ensures suggestionText == [] && suggestionList == []
      ensures currentText == old(currentText) && buffer == currentText
      ensures cursor == Min(old(cursor), |currentText|) && currentCursor == Col(cursor)
      ensures grey == None && selection == None
    {
      ResetSuggestions();
      currentCursor := Col(cursor);
      UpdateDisplay();
      UpdateCurrent();
    }

    /** `confirm_suggestion(cursor)`: without a completion, `False` and no
        change. Otherwise as many characters of the completion as the text
        holds from the tracked index to `at` (to `end` without `at`) move to
        the typed text, `at` becomes the tracked index, the display is
        redrawn and the result is `True`. */
    method ConfirmSuggestion(at: Option<nat>) returns (confirmed: bool)
      requires Valid()
      modifies this
      ensures Valid()
      ensures old(suggestionText) == [] ==>
                !confirmed && unchanged(this)
      ensures old(suggestionText) != [] ==>
                var target := if at.Some? then Col(at.value) else End;
                var chars := Between(old(currentCursor), target, |old(buffer)|);
                && confirmed
                && currentText == old(currentText) + UpTo(old(suggestionText), chars)
                && suggestionText == From(old(suggestionText), chars)
                && currentText + suggestionText == old(currentText) + old(suggestionText)
                && currentCursor == target
                && suggestionList == old(suggestionList)
                && Displayed()
    {
      if suggestionText == [] {
        return false;
      }
      var target := if at.Some? then Col(at.value) else End;
      var chars := Between(currentCursor, target, |buffer|);
      assert UpTo(suggestionText, chars) + From(suggestionText, chars) == suggestionText;
      currentText := currentText + UpTo(suggestionText, chars);
      suggestionText := From(suggestionText, chars);
      currentCursor := target;
      UpdateDisplay();
      confirmed := true;
    }
  }

  /** When the user has typed `d` between the typed text and the
      completion, `text_changed()` holds exactly when `d` is not empty. */
  lemma TextChangedIff(w: AutoText, d: string)
    requires w.buffer == w.currentText + d + w.suggestionText
    ensures w.TextChanged() <==> d != []
  {
    TypedOfAppend(w.currentText + d, w.suggestionText);
  }

  /** When the user has typed `d` between the typed text and the
      completion, `get_difference()` is `d`. */
  lemma GetDifferenceOfTyped(w: AutoText, d: string)
    requires w.buffer == w.currentText + d + w.suggestionText
    ensures w.GetDifference() == d
  {
    assert From(w.buffer, |w.currentText|) == d + w.suggestionText;
    if w.suggestionText != [] {
      DropLastOfAppend(d, w.suggestionText);
    }
  }

  /** After `update_display()`, `update_current()` keeps the typed text. */
  lemma TypedOfDisplayed(w: AutoText)
    requires w.Displayed()
    ensures Typed(w.buffer, w.suggestionText) == w.currentText
  {
    TypedOfAppend(w.currentText, w.suggestionText);
  }
}
