/** Phrase.py: the phrase field, which shows one of the phrases saved under
    the current keys and steps through them. The phrases come from the
    module-level table of database.py. `Phrase(master)` sets `active_list`
    to the tuple `(None,)` and the index to `None`; until `create_list`
    finds phrases, every comparison with the index and every lookup by it
    raises `TypeError`. That state is `activeList == None` here. The field's
    text is the only part of the Tk widget the phrase code uses. */
module Phrase {
  import opened Wrappers
  import opened KeyTable
  import DatabaseModule

  /** The result of `create_list`: `'VALID KEY'` or `'INVALID KEY'`. */
  datatype KeyStatus = ValidKey | InvalidKey

  /** The index after `next()` on a list of the given length: one further
      while that stays inside the list. */
  function NextIndex(len: nat, i: nat): (r: nat)
    ensures i < len ==> r < len
    ensures i <= r <= i + 1
    ensures r == i + 1 <==> i + 1 < len
  {
    if i + 1 < len then i + 1 else i
  }

  /** The index after `previous()`: one back while that stays inside the
      list. */
  function PreviousIndex(len: nat, i: nat): (r: nat)
    ensures i < len ==> r < len
    ensures i - 1 <= r <= i
    ensures r + 1 == i <==> 1 <= i && 0 < len
  {
    if 0 < len && 1 <= i then i - 1 else i
  }

  /** A `next()` that moved, then `previous()`, comes back. */
  lemma PreviousAfterNext(len: nat, i: nat)
    requires i + 1 < len
    ensures PreviousIndex(len, NextIndex(len, i)) == i
  {
  }

  /** A `previous()` that moved, then `next()`, comes back. */
  lemma NextAfterPrevious(len: nat, i: nat)
    requires 1 <= i < len
    ensures NextIndex(len, PreviousIndex(len, i)) == i
  {
  }

  class PhraseField {
    /** The field's text. */
    var buffer: string
    /** The phrases found for the current keys, `None` before any. */
    var activeList: Option<seq<string>>
    var activeListIndex: nat
    /** The module-level table of database.py. */
    const store: DatabaseModule.KeyDatabase

    /** A list, once there is one, is not empty and the index lies in it. */
    ghost predicate Valid()
      reads this
    {
      activeList.Some? ==> activeList.value != [] && activeListIndex < |activeList.value|
    }

    /** `Phrase(master)`: an empty field without a list. */
    constructor(store: DatabaseModule.KeyDatabase)
      ensures Valid()
      ensures buffer == [] && activeList == None && this.store == store
    {
      buffer := [];
      activeList := None;
      activeListIndex := 0;
      this.store := store;
    }

    /** `create_list(key_list)`. No keys, or the one key `''`, is invalid
        without a lookup. Otherwise the table's phrases under all the keys
        become the list, at index 0, when there are any; an unknown key or
        no such phrase is invalid and changes nothing. The lookup raises
        `AttributeError` while the table is `None`. */
    method CreateList(ks: seq<string>) returns (r: Result<KeyStatus>)
      requires Valid()
      modifies this
      ensures Valid()
      ensures buffer == old(buffer)
      ensures ks == [] || ks == [[]] ==> r == Ok(InvalidKey)
      ensures ks != [] && ks != [[]] && store.db.None? ==> r == Raised(AttributeError)
      ensures r.Raised? || r == Ok(InvalidKey) ==> unchanged(this)
      ensures r == Ok(ValidKey) <==>
                && ks != [] && ks != [[]] && store.db.Some?
                && PhraseList(store.db.value, ks).Some? && PhraseList(store.db.value, ks).value != []
      ensures r == Ok(ValidKey) ==>
                && activeList.Some? && activeListIndex == 0
                && IsPhraseList(store.db.value, ks, activeList)
    {
      if ks != [] && ks != [[]] {
        var found := store.GetPhraseList(ks);
        if found.Raised? {
          return Raised(found.error);
        }
        if found.value.Some? && found.value.value != [] {
          activeList := found.value;
          activeListIndex := 0;
          return Ok(ValidKey);
        }
      }
      return Ok(InvalidKey);
    }

    /** `display_current()`: the current phrase goes in at the start of the
        text; without a list the lookup raises `TypeError`. */
    method DisplayCurrent() returns (outcome: Outcome)
      requires Valid()
      modifies this
      ensures Valid()
      ensures activeList == old(activeList) && activeListIndex == old(activeListIndex)
      ensures activeList.None? ==> outcome == Failed(TypeError) && buffer == old(buffer)
      ensures activeList.Some? ==> outcome == Done && buffer == activeList.value[activeListIndex] + old(buffer)
    {
      if activeList.None? {
        return Failed(TypeError);
      }
      buffer := activeList.value[activeListIndex] + buffer;
      outcome := Done;
    }

    /** `not_last_index()`: another phrase follows. */
    function NotLastIndex(): (r: Result<bool>)
      requires Valid()
      reads this
      ensures activeList.None? <==> r == Raised(TypeError)
      ensures r.Ok? ==> (r.value <==> activeListIndex + 1 < |activeList.value|)
    {
      if activeList.None? then Raised(TypeError)
      else Ok(activeList.value != [] && activeListIndex < |activeList.value| - 1)
    }

    /** `not_first_index()`: a phrase comes before. */
    function NotFirstIndex(): (r: Result<bool>)
      requires Valid()
      reads this
      ensures activeList.None? <==> r == Raised(TypeError)
      ensures r.Ok? ==> (r.value <==> 0 < activeListIndex)
    {
      if activeList.None? then Raised(TypeError)
      else Ok(activeList.value != [] && activeListIndex >= 1)
    }

    /** `next()`: when a phrase follows, the index moves to it and the text
        becomes that phrase; otherwise nothing changes. */
    method Next() returns (outcome: Outcome)
      requires Valid()
      modifies this
      ensures Valid()
      ensures activeList == old(activeList)
      ensures old(activeList).None? ==> outcome == Failed(TypeError) && unchanged(this)
      ensures old(activeList).Some? ==>
                && outcome == Done
                && activeListIndex == NextIndex(|activeList.value|, old(activeListIndex))
                && (activeListIndex == old(activeListIndex) ==> buffer == old(buffer))
                && (activeListIndex != old(activeListIndex) ==> buffer == activeList.value[activeListIndex])
    {
      var more := NotLastIndex();
      if more.Raised? {
        return Failed(more.error);
      }
      if more.value {
        activeListIndex := activeListIndex + 1;
        buffer := [];
        outcome := DisplayCurrent();
      }
      outcome := Done;
    }

    /** `previous()`: when a phrase comes before, the index moves to it and
        the text becomes that phrase; otherwise nothing changes. */
    method Previous() returns (outcome: Outcome)
      requires Valid()
      modifies this
      ensures Valid()
      ensures activeList == old(activeList)
      ensures old(activeList).None? ==> outcome == Failed(TypeError) && unchanged(this)
      ensures old(activeList).Some? ==>
                && outcome == Done
                && activeListIndex == PreviousIndex(|activeList.value|, old(activeListIndex))
                && (activeListIndex == old(activeListIndex) ==> buffer == old(buffer))
                && (activeListIndex != old(activeListIndex) ==> buffer == activeList.value[activeListIndex])
    {
      var earlier := NotFirstIndex();
      if earlier.Raised? {
        return Failed(earlier.error);
      }
      if earlier.value {
        activeListIndex := activeListIndex - 1;
        buffer := [];
        outcome := DisplayCurrent();
      }
      outcome := Done;
    }

    /** `display_phrase(key_list)`: `True` and the first of the phrases
        found shown alone, or `False` and an empty text. An error of the
        lookup escapes before the text is cleared. */
    method DisplayPhrase(ks: seq<string>) returns (r: Result<bool>)
      requires Valid()
      modifies this
      ensures Valid()
      ensures var status := ks != [] && ks != [[]] && store.db.Some? &&
                            PhraseList(store.db.value, ks).Some? && PhraseList(store.db.value, ks).value != [];
              && (ks != [] && ks != [[]] && store.db.None? ==> r == Raised(AttributeError) && unchanged(this))
              && (r.Ok? ==> (r.value <==> status))
              && (r == Ok(true) ==> activeList.Some? && activeListIndex == 0 && buffer == activeList.value[0])
              && (r == Ok(false) ==> buffer == [] && activeList == old(activeList) && activeListIndex == old(activeListIndex))
    {
      var status := CreateList(ks);
      if status.Raised? {
        return Raised(status.error);
      }
      buffer := [];
      if status.value == ValidKey {
        var _ := DisplayCurrent();
        return Ok(true);
      }
      return Ok(false);
    }
  }
}
