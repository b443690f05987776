/** text_utilities.py: removing the line terminators at the end of a string. */
module TextUtilities {

  predicate IsNewline(c: char) {
    c == '\n' || c == '\r'
  }

  predicate AllNewlines(s: string) {
    forall i :: 0 <= i < |s| ==> IsNewline(s[i])
  }

  /** `strip_trailing_newline(s)`: `s` without the run of `\n` and `\r`
      characters that ends it. The empty string, on which `s[-1]` raises
      the caught `IndexError`, comes back unchanged. */
  function StripTrailingNewline(s: string): (r: string)
    ensures r <= s
    ensures r == [] || !IsNewline(r[|r| - 1])
    ensures AllNewlines(s[|r|..])
    decreases |s|
  {
    if s == [] then s
    else if IsNewline(s[|s| - 1]) then
      var r := StripTrailingNewline(s[..|s| - 1]);
      assert s[..|s| - 1][|r|..] + [s[|s| - 1]] == s[|r|..];
      r
    else s
  }

  /** Stripping is the inverse of appending line terminators to a string
      that does not end in one. */
  lemma {:induction false} StripAppended(a: string, terminators: string)
    requires a == [] || !IsNewline(a[|a| - 1])
    requires AllNewlines(terminators)
    ensures StripTrailingNewline(a + terminators) == a
    decreases |terminators|
  {
    if terminators == [] {
      assert a + terminators == a;
    } else {
      var front := terminators[..|terminators| - 1];
      assert (a + terminators)[..|a + terminators| - 1] == a + front;
      StripAppended(a, front);
    }
  }

  /** Stripping twice is stripping once. */
  lemma StripIdempotent(s: string)
    ensures StripTrailingNewline(StripTrailingNewline(s)) == StripTrailingNewline(s)
  {
    StripAppended(StripTrailingNewline(s), []);
  }
}
