/** Python string behaviour that the rest of the model relies on: slicing
    with clamped and negative bounds, `startswith`, `lower`, `split`, `join`
    and list filtering. */
module Strings {

  /** `s.startswith(p)`. */
  predicate StartsWith(s: string, p: string) {
    p <= s
  }

  /** `s[i:]`: a start beyond the end gives the empty string. */
  function From(s: string, i: nat): (r: string)
    ensures i <= |s| ==> r == s[i..]
    ensures i >= |s| ==> r == []
  {
    if i <= |s| then s[i..] else []
  }

  /** `s[:i]`: an end beyond the end gives the whole string. */
  function UpTo(s: string, i: nat): (r: string)
    ensures i <= |s| ==> r == s[..i]
    ensures i >= |s| ==> r == s
  {
    if i <= |s| then s[..i] else s
  }

  /** `s[:-n]` for a positive `n`: the string without its last `n`
      characters, empty when `n` is at least its length. */
  function DropLast(s: string, n: nat): (r: string)
    requires n > 0
    ensures n <= |s| ==> |r| == |s| - n && r <= s
    ensures n >= |s| ==> r == []
  {
    if n <= |s| then s[..|s| - n] else []
  }

  lemma DropLastOfAppend(a: string, b: string)
    requires b != []
    ensures DropLast(a + b, |b|) == a
  {
    assert (a + b)[..|a|] == a;
  }

  /** `str.lower()` restricted to ASCII letters. */
  function LowerChar(c: char): (r: char)
    ensures 'A' <= c <= 'Z' ==> r as int == c as int + 32
    ensures !('A' <= c <= 'Z') ==> r == c
  {
    if 'A' <= c <= 'Z' then (c as int + 32) as char else c
  }

  function Lower(s: string): (r: string)
    ensures |r| == |s|
    ensures forall i :: 0 <= i < |s| ==> r[i] == LowerChar(s[i])
  {
    seq(|s|, i requires 0 <= i < |s| => LowerChar(s[i]))
  }

  predicate IsLetter(c: char) {
    'A' <= c <= 'Z' || 'a' <= c <= 'z'
  }

  /** `str.upper()` of one ASCII character. */
  function UpperChar(c: char): (r: char)
    ensures 'a' <= c <= 'z' ==> r as int == c as int - 32
    ensures !('a' <= c <= 'z') ==> r == c
  {
    if 'a' <= c <= 'z' then (c as int - 32) as char else c
  }

  /** `str.title()` on ASCII text: a letter that starts a run of letters is
      upper-cased, every other letter lower-cased. `afterLetter` says whether
      the text before `s` ended in a letter. */
  function TitleAfter(s: string, afterLetter: bool): (r: string)
    ensures |r| == |s|
    ensures forall i :: 0 <= i < |s| ==> LowerChar(r[i]) == LowerChar(s[i])
    ensures forall i :: 0 <= i < |s| && !IsLetter(s[i]) ==> r[i] == s[i]
    ensures forall i :: 0 <= i < |s| && IsLetter(s[i]) && !(if i == 0 then afterLetter else IsLetter(s[i - 1])) ==>
              r[i] == UpperChar(s[i])
    ensures forall i :: 0 <= i < |s| && IsLetter(s[i]) && (if i == 0 then afterLetter else IsLetter(s[i - 1])) ==>
              r[i] == LowerChar(s[i])
    decreases |s|
  {
    if s == [] then []
    else
      var c := if !IsLetter(s[0]) then s[0] else if afterLetter then LowerChar(s[0]) else UpperChar(s[0]);
      var rest := TitleAfter(s[1..], IsLetter(s[0]));
      assert forall i :: 1 <= i < |s| ==> ([c] + rest)[i] == rest[i - 1] && s[i] == s[1..][i - 1];
      [c] + rest
  }

  /** `str.title()`: differs from `s` only in the case of its letters; a
      letter right after a letter is lower-cased, any other letter
      upper-cased, and every other character kept. */
  function Title(s: string): (r: string)
    ensures |r| == |s| && Lower(r) == Lower(s)
    ensures forall i :: 0 <= i < |s| && !IsLetter(s[i]) ==> r[i] == s[i]
    ensures forall i :: 0 <= i < |s| && IsLetter(s[i]) && (i == 0 || !IsLetter(s[i - 1])) ==> r[i] == UpperChar(s[i])
    ensures forall i :: 0 < i < |s| && IsLetter(s[i]) && IsLetter(s[i - 1]) ==> r[i] == LowerChar(s[i])
  {
    TitleAfter(s, false)
  }

  lemma LowerPrefix(p: string, s: string)
    requires p <= s
    ensures Lower(p) <= Lower(s)
  {
  }

  /** When `k` starts with `p` up to case, `p` followed by the rest of
      `k` is `k` up to case. */
  lemma LowerCompletion(p: string, k: string)
    requires Lower(p) <= Lower(k)
    ensures |p| <= |k|
    ensures Lower(p + k[|p|..]) == Lower(k)
  {
    var whole := p + k[|p|..];
    forall i | 0 <= i < |k|
      ensures Lower(whole)[i] == Lower(k)[i]
    {
      if i < |p| {
        assert Lower(p)[i] == Lower(k)[i];
      }
    }
  }

  predicate IsDigit(c: char) {
    '0' <= c <= '9'
  }

  predicate AllDigits(s: string) {
    forall i :: 0 <= i < |s| ==> IsDigit(s[i])
  }

  /** The number the decimal digits of `s` spell. */
  function DigitsValue(s: string): nat
    requires AllDigits(s)
    decreases |s|
  {
    if s == [] then 0
    else DigitsValue(s[..|s| - 1]) * 10 + (s[|s| - 1] as int - '0' as int)
  }

  /** The characters for which Python's `str.isspace()` holds; these are
      the separators of `str.split()` without arguments. */
  predicate IsSpace(c: char) {
    ('\t' <= c <= '\r') || ('\U{1C}' <= c <= ' ') || c == '\U{85}' || c == '\U{A0}'
    || c == '\U{1680}' || ('\U{2000}' <= c <= '\U{200A}') || c == '\U{2028}' || c == '\U{2029}'
    || c == '\U{202F}' || c == '\U{205F}' || c == '\U{3000}'
  }

  predicate NoChar(s: string, sep: char -> bool) {
    forall i :: 0 <= i < |s| ==> !sep(s[i])
  }

  /** The pieces of `s` between the characters that satisfy `sep`, empty
      pieces included: `s.split(' ')` is `SplitWhere(s, c => c == ' ')`. */
  function SplitWhere(s: string, sep: char -> bool): (r: seq<string>)
    ensures |r| >= 1
    ensures forall j :: 0 <= j < |r| ==> NoChar(r[j], sep)
    decreases |s|
  {
    if s == [] then [[]]
    else
      var rest := SplitWhere(s[1..], sep);
      if sep(s[0]) then [[]] + rest
      else [[s[0]] + rest[0]] + rest[1..]
  }

  /** `sep.join(pieces)`. */
  function Join(pieces: seq<string>, sep: string): (r: string)
    ensures pieces == [] ==> r == []
    ensures pieces != [] ==> pieces[0] <= r
  {
    if pieces == [] then []
    else if |pieces| == 1 then pieces[0]
    else pieces[0] + sep + Join(pieces[1..], sep)
  }

  /** Joining the pieces of `s.split(c)` with `c` gives `s` back. */
  lemma {:induction false} JoinSplit(s: string, c: char)
    ensures Join(SplitWhere(s, x => x == c), [c]) == s
    decreases |s|
  {
    var sep := x => x == c;
    if s != [] {
      var rest := SplitWhere(s[1..], sep);
      JoinSplit(s[1..], c);
      assert s == [s[0]] + s[1..];
      if s[0] == c {
        assert SplitWhere(s, sep) == [[]] + rest;
      } else {
        assert SplitWhere(s, sep) == [[s[0]] + rest[0]] + rest[1..];
        if |rest| > 1 {
          assert rest == [rest[0]] + rest[1..];
        }
      }
    }
  }

  /** Splitting `a + [c] + b` at `c`, where `a` holds no `c`, gives `a`
      followed by the pieces of `b`. */
  lemma {:induction false} SplitAfterPiece(a: string, b: string, c: char)
    requires NoChar(a, x => x == c)
    ensures SplitWhere(a + [c] + b, x => x == c) == [a] + SplitWhere(b, x => x == c)
    decreases |a|
  {
    var sep := x => x == c;
    if a == [] {
      assert [c] + b == [c] + b;
      assert ([c] + b)[1..] == b;
    } else {
      assert (a + [c] + b)[1..] == a[1..] + [c] + b;
      SplitAfterPiece(a[1..], b, c);
      assert [a[0]] + a[1..] == a;
    }
  }

  lemma SplitNoSep(a: string, c: char)
    requires NoChar(a, x => x == c)
    ensures SplitWhere(a, x => x == c) == [a]
    decreases |a|
  {
    if a != [] {
      SplitNoSep(a[1..], c);
      assert [a[0]] + a[1..] == a;
    }
  }

  /** Splitting `a + [c] + b` where `c` is a separator and `a` holds none
      gives `a` followed by the pieces of `b`. */
  lemma {:induction false} SplitAfterSep(a: string, b: string, c: char, sep: char -> bool)
    requires NoChar(a, sep) && sep(c)
    ensures SplitWhere(a + [c] + b, sep) == [a] + SplitWhere(b, sep)
    decreases |a|
  {
    if a == [] {
      assert ([c] + b)[1..] == b;
    } else {
      assert (a + [c] + b)[1..] == a[1..] + [c] + b;
      SplitAfterSep(a[1..], b, c, sep);
      assert [a[0]] + a[1..] == a;
    }
  }

  lemma {:induction false} SplitNoSepWhere(a: string, sep: char -> bool)
    requires NoChar(a, sep)
    ensures SplitWhere(a, sep) == [a]
    decreases |a|
  {
    if a != [] {
      SplitNoSepWhere(a[1..], sep);
      assert [a[0]] + a[1..] == a;
    }
  }

  /** The elements of `s` that satisfy `keep`, in their original order. */
  function Filter<T(==,!new)>(s: seq<T>, keep: T -> bool): (r: seq<T>)
    ensures |r| <= |s|
    ensures forall x :: x in r <==> x in s && keep(x)
    ensures IsSubsequence(r, s)
    decreases |s|
  {
    if s == [] then []
    else
      var rest := Filter(s[1..], keep);
      SubsequenceOfTail(rest, s);
      if keep(s[0]) then [s[0]] + rest else rest
  }

  /** Filtering twice with the same test filters once. */
  lemma {:induction false} FilterTwice<T(!new)>(s: seq<T>, keep: T -> bool)
    ensures Filter(Filter(s, keep), keep) == Filter(s, keep)
    decreases |s|
  {
    if s != [] {
      FilterTwice(s[1..], keep);
      var rest := Filter(s[1..], keep);
      if keep(s[0]) {
        assert ([s[0]] + rest)[1..] == rest;
      }
    }
  }

  /** Filtering with a weaker test first changes nothing. */
  lemma {:induction false} FilterImplied<T(!new)>(s: seq<T>, weak: T -> bool, strong: T -> bool)
    requires forall x :: strong(x) ==> weak(x)
    ensures Filter(Filter(s, weak), strong) == Filter(s, strong)
    decreases |s|
  {
    if s != [] {
      FilterImplied(s[1..], weak, strong);
      var rest := Filter(s[1..], weak);
      if weak(s[0]) {
        assert ([s[0]] + rest)[1..] == rest;
      }
    }
  }

  /** `r` is `s` with some elements left out, the others in their order. */
  predicate IsSubsequence<T(==)>(r: seq<T>, s: seq<T>)
    decreases |s|
  {
    if r == [] then true
    else if s == [] then false
    else if r[0] == s[0] then IsSubsequence(r[1..], s[1..])
    else IsSubsequence(r, s[1..])
  }

  lemma SubsequenceOfTail<T>(r: seq<T>, s: seq<T>)
    requires s != [] && IsSubsequence(r, s[1..])
    ensures IsSubsequence(r, s) && IsSubsequence([s[0]] + r, s)
    decreases |s|, 0
  {
    assert ([s[0]] + r)[1..] == r;
    if r != [] && r[0] == s[0] {
      SubsequenceDropFirst(r, s[1..]);
    }
  }

  lemma SubsequenceDropFirst<T>(r: seq<T>, s: seq<T>)
    requires r != [] && IsSubsequence(r, s)
    ensures IsSubsequence(r[1..], s)
    decreases |s|, 1
  {
    if r[0] != s[0] {
      SubsequenceDropFirst(r, s[1..]);
      SubsequenceOfTail(r[1..], s);
    } else if r[1..] != [] {
      SubsequenceOfTail(r[1..], s);
    }
  }

  /** A subsequence of a subsequence of `c` is a subsequence of `c`. */
  lemma {:induction false} SubsequenceTrans<T>(a: seq<T>, b: seq<T>, c: seq<T>)
    requires IsSubsequence(a, b) && IsSubsequence(b, c)
    ensures IsSubsequence(a, c)
    decreases |c|
  {
    if a != [] && b != [] && c != [] {
      if b[0] == c[0] {
        if a[0] == b[0] {
          SubsequenceTrans(a[1..], b[1..], c[1..]);
        } else {
          SubsequenceTrans(a, b[1..], c[1..]);
        }
      } else {
        SubsequenceTrans(a, b, c[1..]);
        if a[0] == c[0] {
          SubsequenceDropFirst(a, c[1..]);
        }
      }
    }
  }

  /** No element occurs twice. */
  predicate Distinct<T(==)>(s: seq<T>) {
    forall i, j :: 0 <= i < j < |s| ==> s[i] != s[j]
  }

  /** The words of `s` as `str.split()` returns them: the maximal runs of
      non-whitespace characters. */
  function Words(s: string): (r: seq<string>)
    ensures forall j :: 0 <= j < |r| ==> r[j] != [] && NoChar(r[j], IsSpace)
    ensures IsSubsequence(r, SplitWhere(s, IsSpace))
    ensures forall w :: w in SplitWhere(s, IsSpace) && w != [] ==> w in r
  {
    var pieces := SplitWhere(s, IsSpace);
    var r := Filter(pieces, (w: string) => w != []);
    assert forall j :: 0 <= j < |r| ==> r[j] in pieces;
    r
  }

  /** Words holding no whitespace, joined by single spaces, split back into
      the same words. */
  lemma {:induction false} WordsOfJoin(ws: seq<string>)
    requires forall j :: 0 <= j < |ws| ==> ws[j] != [] && NoChar(ws[j], IsSpace)
    ensures Words(Join(ws, " ")) == ws
    decreases |ws|
  {
    var nonEmpty := (w: string) => w != [];
    if |ws| == 1 {
      SplitNoSepWhere(ws[0], IsSpace);
      assert Filter([ws[0]], nonEmpty) == [ws[0]] + Filter([ws[0]][1..], nonEmpty);
    } else if |ws| > 1 {
      var rest := Join(ws[1..], " ");
      assert Join(ws, " ") == ws[0] + [' '] + rest;
      SplitAfterSep(ws[0], rest, ' ', IsSpace);
      var pieces := SplitWhere(rest, IsSpace);
      assert ([ws[0]] + pieces)[1..] == pieces;
      WordsOfJoin(ws[1..]);
      assert [ws[0]] + ws[1..] == ws;
    }
  }

  predicate Blank(s: string) {
    forall i :: 0 <= i < |s| ==> IsSpace(s[i])
  }

  /** `s.split()` is empty exactly when `s` is blank. */
  lemma {:induction false} WordsEmptyIffBlank(s: string)
    ensures Words(s) == [] <==> Blank(s)
    decreases |s|
  {
    var nonEmpty := (w: string) => w != [];
    if s != [] {
      WordsEmptyIffBlank(s[1..]);
      var rest := SplitWhere(s[1..], IsSpace);
      if IsSpace(s[0]) {
        assert SplitWhere(s, IsSpace) == [[]] + rest;
        assert Filter(SplitWhere(s, IsSpace), nonEmpty) == Filter(rest, nonEmpty);
        assert Blank(s) <==> Blank(s[1..]) by {
          assert forall i :: 1 <= i < |s| ==> s[i] == s[1..][i - 1];
        }
      } else {
        var first := [s[0]] + rest[0];
        assert SplitWhere(s, IsSpace) == [first] + rest[1..];
        assert first in Words(s);
        assert !Blank(s);
      }
    }
  }
}
