/** backup.py: the four rolling copies of the database (daily, weekly,
    monthly, yearly) and the record of when each was last taken. The clock
    is a parameter: `today` stands for `date.today()`, read once per call.
    Copying the database file and writing the dates file are not modelled;
    only the recorded dates are. */
module Backup {
  import opened Strings
  import opened Wrappers

  /** A `datetime.date`. */
  datatype Date = Date(year: int, month: int, day: int)

  predicate IsLeap(y: int) {
    y % 4 == 0 && (y % 100 != 0 || y % 400 == 0)
  }

  function DaysInMonth(y: int, m: int): int
    requires 1 <= m <= 12
  {
    if m == 2 then (if IsLeap(y) then 29 else 28)
    else if m == 4 || m == 6 || m == 9 || m == 11 then 30
    else 31
  }

  /** The range `date(y, m, d)` accepts: years 1 to 9999, and a day that
      exists in its month. */
  predicate ValidDate(d: Date) {
    1 <= d.year <= 9999 && 1 <= d.month <= 12 && 1 <= d.day <= DaysInMonth(d.year, d.month)
  }

  function DaysInYear(y: int): int {
    if IsLeap(y) then 366 else 365
  }

  function DaysBeforeYear(y: int): int
    requires y >= 1
  {
    var y1 := y - 1;
    y1 * 365 + y1 / 4 - y1 / 100 + y1 / 400
  }

  function DaysBeforeMonth(y: int, m: int): int
    requires 1 <= m <= 12
  {
    [0, 31, 59, 90, 120, 151, 181, 212, 243, 273, 304, 334][m - 1]
    + (if m > 2 && IsLeap(y) then 1 else 0)
  }

  /** `d.toordinal()`: day 1 is 1 January of year 1. The difference of two
      ordinals is `(a - b).days`. */
  function Ordinal(d: Date): (r: int)
    requires ValidDate(d)
    ensures r >= 1
    ensures DaysBeforeYear(d.year) < r
    ensures r <= DaysBeforeYear(d.year) + DaysInYear(d.year)
  {
    DaysBeforeYear(d.year) + DaysBeforeMonth(d.year, d.month) + d.day
  }

  lemma YearStep(y: int)
    requires y >= 1
    ensures DaysBeforeYear(y + 1) == DaysBeforeYear(y) + DaysInYear(y)
  {
    DivStep(y, 4);
    DivStep(y, 100);
    DivStep(y, 400);
  }

  /** Going from `y - 1` to `y`, the quotient by `k` grows by one exactly
      when `k` divides `y`. */
  lemma DivStep(y: int, k: int)
    requires k >= 1
    ensures y / k - (y - 1) / k == if y % k == 0 then 1 else 0
  {
    var q, r := y / k, y % k;
    assert y == k * q + r && 0 <= r < k;
    if r == 0 {
      assert y - 1 == k * (q - 1) + (k - 1);
      DivUnique(y - 1, k, q - 1, k - 1);
    } else {
      assert y - 1 == k * q + (r - 1);
      DivUnique(y - 1, k, q, r - 1);
    }
  }

  /** Euclidean division is unique: a quotient and remainder in range are
      the ones `/` and `%` give. */
  lemma DivUnique(n: int, k: int, q: int, r: int)
    requires k >= 1 && n == k * q + r && 0 <= r < k
    ensures n / k == q
  {
    var q', r' := n / k, n % k;
    assert n == k * q' + r' && 0 <= r' < k;
    assert k * (q - q') == r' - r;
    MulSign(k, q - q');
  }

  /** A multiple of `k` other than 0 is at least `k` away from 0. */
  lemma MulSign(k: int, d: int)
    requires k >= 1
    ensures d >= 1 ==> k * d >= k
    ensures d <= -1 ==> k * d <= -k
  {
    if d >= 1 {
      assert k * d == k * (d - 1) + k;
    } else if d <= -1 {
      assert k * d == -(k * (-d - 1)) - k;
    }
  }

  lemma {:induction false} YearsApart(y1: int, y2: int)
    requires 1 <= y1 < y2
    ensures DaysBeforeYear(y1) + DaysInYear(y1) <= DaysBeforeYear(y2)
    decreases y2 - y1
  {
    YearStep(y1);
    if y1 + 1 < y2 {
      YearsApart(y1 + 1, y2);
    }
  }

  lemma MonthsApart(y: int, m1: int, m2: int)
    requires 1 <= m1 <= 12 && 1 <= m2 <= 12
    ensures m1 < m2 ==> DaysBeforeMonth(y, m1) + DaysInMonth(y, m1) <= DaysBeforeMonth(y, m2)
    ensures DaysBeforeMonth(y, m1) + DaysInMonth(y, m1) <= DaysInYear(y)
  {
  }

  /** Later dates have larger ordinals, so two dates with the same ordinal
      are the same date. */
  lemma OrdinalMonotone(a: Date, b: Date)
    requires ValidDate(a) && ValidDate(b)
    requires a.year < b.year || (a.year == b.year && a.month < b.month)
             || (a.year == b.year && a.month == b.month && a.day < b.day)
    ensures Ordinal(a) < Ordinal(b)
  {
    MonthsApart(a.year, a.month, b.month);
    if a.year < b.year {
      YearsApart(a.year, b.year);
    }
  }

  lemma OrdinalInjective(a: Date, b: Date)
    requires ValidDate(a) && ValidDate(b)
    ensures Ordinal(a) == Ordinal(b) <==> a == b
  {
    if a.year < b.year || (a.year == b.year && a.month < b.month)
       || (a.year == b.year && a.month == b.month && a.day < b.day) {
      OrdinalMonotone(a, b);
    } else if a != b {
      OrdinalMonotone(b, a);
    }
  }

  // ---- date_from_string and str(date) ----

  /** The digits of `u` with its underscores taken out, when `u` is what
      `int()` accepts after a digit: digits, each possibly preceded by a
      single underscore; `None` otherwise. */
  function BodyDigits(u: string): (r: Option<string>)
    ensures r.Some? ==> AllDigits(r.value)
    decreases |u|
  {
    if u == [] then Some([])
    else if IsDigit(u[0]) || (|u| >= 2 && u[0] == '_' && IsDigit(u[1])) then
      var k := if IsDigit(u[0]) then 1 else 2;
      var rest := BodyDigits(u[k..]);
      if rest.None? then None else Some([u[k - 1]] + rest.value)
    else None
  }

  /** `int(s)`: surrounding whitespace is ignored, a `+` or `-` sign may
      come first, and the digits may be grouped by single underscores
      between digits; `None` stands for the `ValueError` raised on
      anything else. */
  function ParseInt(s: string): (r: Option<int>)
    ensures r.Some? ==> exists i :: 0 <= i < |s| && IsDigit(s[i])
    decreases |s|
  {
    if s != [] && IsSpace(s[0]) then
      DigitInSlice(s, 1, |s|);
      ParseInt(s[1..])
    else if s != [] && IsSpace(s[|s| - 1]) then
      DigitInSlice(s, 0, |s| - 1);
      ParseInt(s[..|s| - 1])
    else if s != [] && s[0] == '-' then
      var v := ParseUnsigned(s[1..]);
      if v.None? then None else Some(-v.value)
    else if s != [] && s[0] == '+' then ParseUnsigned(s[1..])
    else ParseUnsigned(s)
  }

  /** A digit of a slice is a digit of the string. */
  lemma DigitInSlice(s: string, lo: int, hi: int)
    requires 0 <= lo <= hi <= |s|
    ensures (exists i :: 0 <= i < |s[lo..hi]| && IsDigit(s[lo..hi][i])) ==>
              exists i :: 0 <= i < |s| && IsDigit(s[i])
  {
    if exists i :: 0 <= i < |s[lo..hi]| && IsDigit(s[lo..hi][i]) {
      var i :| 0 <= i < |s[lo..hi]| && IsDigit(s[lo..hi][i]);
      assert IsDigit(s[lo + i]);
    }
  }

  /** `int()` reads a string of decimal digits as the number they spell. */
  lemma ParseIntOfDigits(s: string)
    requires s != [] && AllDigits(s)
    ensures ParseInt(s) == Some(DigitsValue(s))
  {
    assert IsDigit(s[0]) && IsDigit(s[|s| - 1]);
    assert !IsSpace(s[0]) && !IsSpace(s[|s| - 1]) && s[0] != '-' && s[0] != '+';
    BodyOfDigits(s);
  }

  /** A string of digits is its own digit body. */
  lemma {:induction false} BodyOfDigits(u: string)
    requires AllDigits(u)
    ensures BodyDigits(u) == Some(u)
    decreases |u|
  {
    if u != [] {
      BodyOfDigits(u[1..]);
      assert [u[0]] + u[1..] == u;
    }
  }

  /** `int()` takes a single underscore between two groups of digits as
      nothing: `int("1_000") == 1000`. */
  lemma ParseIntUnderscore(a: string, b: string)
    requires a != [] && AllDigits(a) && b != [] && AllDigits(b)
    ensures ParseInt(a + "_" + b) == Some(DigitsValue(a + b))
  {
    var s := a + "_" + b;
    assert s[0] == a[0] && s[|s| - 1] == b[|b| - 1];
    assert !IsSpace(s[0]) && !IsSpace(s[|s| - 1]) && s[0] != '-' && s[0] != '+';
    BodyUnderscore(a, b);
  }

  lemma {:induction false} BodyUnderscore(a: string, b: string)
    requires a != [] && AllDigits(a) && b != [] && AllDigits(b)
    ensures BodyDigits(a + "_" + b) == Some(a + b)
    decreases |a|
  {
    if |a| == 1 {
      BodyAfterUnderscore(b);
      BodyCons(a[0], "_" + b);
      assert [a[0]] + ("_" + b) == a + "_" + b;
      assert [a[0]] + b == a + b;
    } else {
      BodyUnderscore(a[1..], b);
      BodyCons(a[0], a[1..] + "_" + b);
      assert [a[0]] + (a[1..] + "_" + b) == a + "_" + b;
      assert [a[0]] + (a[1..] + b) == a + b;
    }
  }

  /** A digit in front of a digit body adds itself to its digits. */
  lemma BodyCons(c: char, t: string)
    requires IsDigit(c) && BodyDigits(t).Some?
    ensures BodyDigits([c] + t) == Some([c] + BodyDigits(t).value)
  {
    assert ([c] + t)[1..] == t;
  }

  /** An underscore before digits is dropped from them. */
  lemma BodyAfterUnderscore(b: string)
    requires b != [] && AllDigits(b)
    ensures BodyDigits("_" + b) == Some(b)
  {
    BodyOfDigits(b[1..]);
    var u := "_" + b;
    assert u[2..] == b[1..] && u[1] == b[0];
    assert [b[0]] + b[1..] == b;
  }

  /** `int()` reads a minus sign in front of digits as the negative number. */
  lemma ParseIntNegative(s: string)
    requires s != [] && AllDigits(s)
    ensures ParseInt("-" + s) == Some(-(DigitsValue(s) as int))
  {
    var t := "-" + s;
    assert t[0] == '-' && t[|t| - 1] == s[|s| - 1] && t[1..] == s;
    assert !IsSpace(t[0]) && !IsSpace(t[|t| - 1]) && IsDigit(s[0]);
    BodyOfDigits(s);
  }

  /** The number the digits of `u` spell, when `u` starts with a digit and
      any underscores in it stand each between two digits. */
  function ParseUnsigned(u: string): Option<int>
  {
    var body := BodyDigits(u);
    if u == [] || !IsDigit(u[0]) || body.None? then None else Some(DigitsValue(body.value))
  }

  /** `int()` reads a string with a blank in front as it reads the string. */
  lemma ParseIntLeadingSpace(c: char, s: string)
    requires IsSpace(c)
    ensures ParseInt([c] + s) == ParseInt(s)
  {
    assert ([c] + s)[1..] == s;
  }

  /** `[int(x) for x in pieces]`; `None` when some piece is not a number. */
  function ParseAll(pieces: seq<string>): (r: Option<seq<int>>)
    ensures r.Some? ==> |r.value| == |pieces|
    decreases |pieces|
  {
    if pieces == [] then Some([])
    else
      var head := ParseInt(pieces[0]);
      var tail := ParseAll(pieces[1..]);
      if head.None? || tail.None? then None else Some([head.value] + tail.value)
  }

  /** The list comprehension fails exactly when some piece is not a number,
      and otherwise holds each piece's number in order. */
  lemma {:induction false} ParseAllSpec(pieces: seq<string>)
    ensures ParseAll(pieces).Some? <==> forall i | 0 <= i < |pieces| :: ParseInt(pieces[i]).Some?
    ensures ParseAll(pieces).Some? ==>
              |ParseAll(pieces).value| == |pieces|
              && forall i | 0 <= i < |pieces| :: ParseAll(pieces).value[i] == ParseInt(pieces[i]).value
    decreases |pieces|
  {
    if pieces != [] {
      var rest := pieces[1..];
      ParseAllSpec(rest);
      assert forall i | 1 <= i < |pieces| :: rest[i - 1] == pieces[i];
      var head, tail := ParseInt(pieces[0]), ParseAll(rest);
      assert ParseAll(pieces) == if head.None? || tail.None? then None else Some([head.value] + tail.value);
    }
  }

  /** One more piece that is a number puts its number in front. */
  lemma ParseAllCons(p: string, rest: seq<string>, x: int, vs: seq<int>)
    requires ParseInt(p) == Some(x) && ParseAll(rest) == Some(vs)
    ensures ParseAll([p] + rest) == Some([x] + vs)
  {
    var ps := [p] + rest;
    assert ps[0] == p && ps[1..] == rest;
  }

  /** Three pieces that are numbers give those three numbers. */
  lemma ParseAllThree(a: string, b: string, c: string, x: int, y: int, z: int)
    requires ParseInt(a) == Some(x) && ParseInt(b) == Some(y) && ParseInt(c) == Some(z)
    ensures ParseAll([a, b, c]) == Some([x, y, z])
  {
    assert ParseAll([]) == Some([]);
    ParseAllCons(c, [], z, []);
    assert [c] + [] == [c] && [z] + [] == [z];
    ParseAllCons(b, [c], y, [z]);
    assert [b] + [c] == [b, c] && [y] + [z] == [y, z];
    ParseAllCons(a, [b, c], x, [y, z]);
    assert [a] + [b, c] == [a, b, c] && [x] + [y, z] == [x, y, z];
  }

  /** The range of a C `int`, which `date(...)` takes its arguments as. */
  predicate InCInt(v: int) {
    -0x8000_0000 <= v <= 0x7fff_ffff
  }

  function Pow10(w: nat): nat {
    if w == 0 then 1 else 10 * Pow10(w - 1)
  }

  /** `'%0{w}d' % n` for a number of at most `w` digits. */
  function Digits(n: nat, w: nat): (r: string)
    ensures |r| == w && AllDigits(r)
    decreases w
  {
    if w == 0 then [] else Digits(n / 10, w - 1) + [('0' as int + n % 10) as char]
  }

  lemma {:induction false} ParseDigits(n: nat, w: nat)
    requires n < Pow10(w)
    ensures DigitsValue(Digits(n, w)) == n
    decreases w
  {
    if w > 0 {
      var s := Digits(n, w);
      assert s[..|s| - 1] == Digits(n / 10, w - 1);
      ParseDigits(n / 10, w - 1);
    }
  }

  /** `date(*vs)` as CPython's `date` constructor treats its positional
      arguments: more than three is a `TypeError`; the ones given are
      converted to C `int`s in order, one out of range raising
      `OverflowError`; fewer than three is a `TypeError`; an impossible
      date is a `ValueError`. */
  function DateCall(vs: seq<int>): (r: Result<Date>)
    ensures r.Ok? <==> |vs| == 3 && ValidDate(Date(vs[0], vs[1], vs[2]))
    ensures r.Ok? ==> r.value == Date(vs[0], vs[1], vs[2])
    ensures r == Raised(TypeError) <==> |vs| > 3 || (|vs| < 3 && forall i | 0 <= i < |vs| :: InCInt(vs[i]))
    ensures r == Raised(OverflowError) <==> |vs| <= 3 && exists i | 0 <= i < |vs| :: !InCInt(vs[i])
    ensures r.Raised? ==> r.error == ValueError || r.error == TypeError || r.error == OverflowError
  {
    if |vs| > 3 then Raised(TypeError)
    else if exists i | 0 <= i < |vs| :: !InCInt(vs[i]) then Raised(OverflowError)
    else if |vs| < 3 then Raised(TypeError)
    else
      var d := Date(vs[0], vs[1], vs[2]);
      if ValidDate(d) then Ok(d) else Raised(ValueError)
  }

  /** `date_from_string(s)`: `date(*[int(x) for x in s.split('-')])`. A piece
      that is not a number raises `ValueError` before `date` is called. */
  function DateFromString(s: string): (r: Result<Date>)
    ensures r.Ok? ==> ValidDate(r.value)
    ensures r.Raised? ==> r.error == ValueError || r.error == TypeError || r.error == OverflowError
  {
    var values := ParseAll(SplitWhere(s, c => c == '-'));
    if values.None? then Raised(ValueError) else DateCall(values.value)
  }

  /** Three numbers written with `-` between them reach `date` as its three
      arguments. */
  lemma DateOfPieces(a: string, b: string, c: string, x: int, y: int, z: int)
    requires NoChar(a, x => x == '-') && NoChar(b, x => x == '-') && NoChar(c, x => x == '-')
    requires ParseInt(a) == Some(x) && ParseInt(b) == Some(y) && ParseInt(c) == Some(z)
    ensures DateFromString(a + "-" + b + "-" + c) == DateCall([x, y, z])
  {
    SplitThree(a, b, c);
    ParseAllThree(a, b, c, x, y, z);
  }

  /** A blank in front of a date string does not change what it reads as:
      `int()` ignores it in the first piece, so `" 2020-01-01"` is the date
      2020-01-01. */
  lemma DateLeadingSpace(c: char, s: string)
    requires IsSpace(c)
    ensures DateFromString([c] + s) == DateFromString(s)
  {
    var rest := SplitWhere(s, x => x == '-');
    assert ([c] + s)[1..] == s;
    assert SplitWhere([c] + s, x => x == '-') == [[c] + rest[0]] + rest[1..];
    ParseIntLeadingSpace(c, rest[0]);
    var ps := [[c] + rest[0]] + rest[1..];
    assert ps[0] == [c] + rest[0] && ps[1..] == rest[1..];
  }

  /** A number too large for a C `int` makes `date` raise `OverflowError`,
      which `load_backup_dates` does not catch: `"99999999999-01-01"` is
      one such string. */
  lemma DateOverflow(a: string, b: string, c: string, x: int, y: int, z: int)
    requires NoChar(a, x => x == '-') && NoChar(b, x => x == '-') && NoChar(c, x => x == '-')
    requires ParseInt(a) == Some(x) && ParseInt(b) == Some(y) && ParseInt(c) == Some(z)
    requires !InCInt(x)
    ensures DateFromString(a + "-" + b + "-" + c) == Raised(OverflowError)
  {
    DateOfPieces(a, b, c, x, y, z);
    assert !InCInt([x, y, z][0]);
  }

  /** `str(d)`: the ISO form `YYYY-MM-DD` that `json.dump(..., default=str)`
      writes. */
  function DateToString(d: Date): (r: string)
    requires ValidDate(d)
    ensures |r| == 10
  {
    Digits(d.year, 4) + "-" + Digits(d.month, 2) + "-" + Digits(d.day, 2)
  }

  /** Three pieces without a `-`, joined by `-`, split back into the same
      three pieces. */
  lemma SplitThree(a: string, b: string, c: string)
    requires NoChar(a, x => x == '-') && NoChar(b, x => x == '-') && NoChar(c, x => x == '-')
    ensures SplitWhere(a + "-" + b + "-" + c, x => x == '-') == [a, b, c]
  {
    SplitNoSep(c, '-');
    SplitAfterPiece(b, c, '-');
    assert a + "-" + b + "-" + c == a + ['-'] + (b + ['-'] + c);
    SplitAfterPiece(a, b + ['-'] + c, '-');
  }

  /** `int` reads back a number written with `w` digits. */
  lemma ParseOfDigits(n: nat, w: nat)
    requires 1 <= w && n < Pow10(w)
    ensures ParseInt(Digits(n, w)) == Some(n)
    ensures NoChar(Digits(n, w), x => x == '-')
  {
    ParseDigits(n, w);
    ParseIntOfDigits(Digits(n, w));
  }

  /** Every date written to the dates file is read back as the same date. */
  lemma DateRoundTrip(d: Date)
    requires ValidDate(d)
    ensures DateFromString(DateToString(d)) == Ok(d)
  {
    var y, m, dd := Digits(d.year, 4), Digits(d.month, 2), Digits(d.day, 2);
    assert Pow10(2) == 100 && Pow10(4) == 10000;
    ParseOfDigits(d.year, 4);
    ParseOfDigits(d.month, 2);
    ParseOfDigits(d.day, 2);
    DateOfPieces(y, m, dd, d.year, d.month, d.day);
    assert forall i | 0 <= i < 3 :: InCInt([d.year, d.month, d.day][i]);
  }

  // ---- the backup schedule ----

  /** The dates dictionary: when each backup was last taken, `None` for
      never (`DEFAULT_DATES`). */
  datatype Dates = Dates(day: Option<Date>, week: Option<Date>, month: Option<Date>, year: Option<Date>)

  const DefaultDates := Dates(None, None, None, None)

  predicate ValidDates(ds: Dates) {
    && (ds.day.Some? ==> ValidDate(ds.day.value))
    && (ds.week.Some? ==> ValidDate(ds.week.value))
    && (ds.month.Some? ==> ValidDate(ds.month.value))
    && (ds.year.Some? ==> ValidDate(ds.year.value))
  }

  /** The dates file as `json.load` returns it: each entry a string or JSON
      `null`. */
  datatype DatesFile = DatesFile(day: Option<string>, week: Option<string>, month: Option<string>, year: Option<string>)

  /** One entry of the dictionary comprehension: `date_from_string(None)`
      raises `AttributeError`. */
  function LoadEntry(v: Option<string>): (r: Result<Date>)
    ensures r.Ok? ==> ValidDate(r.value)
  {
    if v.None? then Raised(AttributeError) else DateFromString(v.value)
  }

  /** `load_backup_dates()`: `file` is `None` when the file is missing or is
      not JSON. A `ValueError` from any entry gives the default dates; any
      other exception, from the first entry that raises, escapes. */
  function LoadBackupDates(file: Option<DatesFile>): (r: Result<Dates>)
    ensures r.Ok? ==> ValidDates(r.value)
    ensures r.Raised? ==> r.error == TypeError || r.error == AttributeError || r.error == OverflowError
  {
    if file.None? then Ok(DefaultDates)
    else
      var f := file.value;
      var entries := [LoadEntry(f.day), LoadEntry(f.week), LoadEntry(f.month), LoadEntry(f.year)];
      if forall i | 0 <= i < 4 :: entries[i].Ok? then
        Ok(Dates(Some(entries[0].value), Some(entries[1].value), Some(entries[2].value), Some(entries[3].value)))
      else
        var first := FirstRaised(entries);
        if entries[first].error == ValueError then Ok(DefaultDates) else Raised(entries[first].error)
  }

  /** The index of the first entry that raised. */
  function FirstRaised(entries: seq<Result<Date>>): (i: nat)
    requires exists j | 0 <= j < |entries| :: entries[j].Raised?
    ensures i < |entries| && entries[i].Raised?
    ensures forall j :: 0 <= j < i ==> entries[j].Ok?
  {
    if entries[0].Raised? then 0
    else
      assert exists j | 0 <= j < |entries[1..]| :: entries[1..][j].Raised? by {
        var j :| 0 <= j < |entries| && entries[j].Raised?;
        assert entries[1..][j - 1] == entries[j];
      }
      1 + FirstRaised(entries[1..])
  }

  /** Dates written by `save_backup_dates` load back unchanged. */
  lemma LoadSavedDates(d1: Date, d2: Date, d3: Date, d4: Date)
    requires ValidDate(d1) && ValidDate(d2) && ValidDate(d3) && ValidDate(d4)
    ensures LoadBackupDates(Some(DatesFile(Some(DateToString(d1)), Some(DateToString(d2)),
                                           Some(DateToString(d3)), Some(DateToString(d4)))))
            == Ok(Dates(Some(d1), Some(d2), Some(d3), Some(d4)))
  {
    LoadEntryRoundTrip(d1);
    LoadEntryRoundTrip(d2);
    LoadEntryRoundTrip(d3);
    LoadEntryRoundTrip(d4);
    LoadAllDates(DatesFile(Some(DateToString(d1)), Some(DateToString(d2)),
                           Some(DateToString(d3)), Some(DateToString(d4))), d1, d2, d3, d4);
  }

  /** A file whose four entries each load as a date loads as those dates. */
  lemma LoadAllDates(f: DatesFile, d1: Date, d2: Date, d3: Date, d4: Date)
    requires LoadEntry(f.day) == Ok(d1) && LoadEntry(f.week) == Ok(d2)
    requires LoadEntry(f.month) == Ok(d3) && LoadEntry(f.year) == Ok(d4)
    ensures LoadBackupDates(Some(f)) == Ok(Dates(Some(d1), Some(d2), Some(d3), Some(d4)))
  {
    var entries := [LoadEntry(f.day), LoadEntry(f.week), LoadEntry(f.month), LoadEntry(f.year)];
    assert forall i | 0 <= i < 4 :: entries[i].Ok?;
  }

  /** One saved entry loads back as its date. */
  lemma LoadEntryRoundTrip(d: Date)
    requires ValidDate(d)
    ensures LoadEntry(Some(DateToString(d))) == Ok(d)
  {
    DateRoundTrip(d);
  }

  /** `new_day()`: the daily backup was not taken today. */
  predicate NewDay(last: Option<Date>, today: Date): (r: bool)
    ensures last.None? ==> r
    ensures last == Some(today) ==> !r
  {
    last != Some(today)
  }

  /** `new_week()`, `new_month()`, `new_year()`: never taken, or taken more
      than `limit` days ago (6, 29 and 364). */
  predicate NewPeriod(last: Option<Date>, today: Date, limit: int): (r: bool)
    requires ValidDate(today) && (last.Some? ==> ValidDate(last.value))
    ensures last.None? ==> r
    ensures last == Some(today) ==> (r <==> limit < 0)
    ensures limit >= 0 && r ==> NewDay(last, today)
  {
    last.None? || Ordinal(today) - Ordinal(last.value) > limit
  }

  predicate NewWeek(last: Option<Date>, today: Date): (r: bool)
    requires ValidDate(today) && (last.Some? ==> ValidDate(last.value))
    ensures last.None? ==> r
    ensures last == Some(today) ==> !r
  {
    NewPeriod(last, today, 6)
  }

  predicate NewMonth(last: Option<Date>, today: Date): (r: bool)
    requires ValidDate(today) && (last.Some? ==> ValidDate(last.value))
    ensures last.None? ==> r
    ensures last == Some(today) ==> !r
  {
    NewPeriod(last, today, 29)
  }

  predicate NewYear(last: Option<Date>, today: Date): (r: bool)
    requires ValidDate(today) && (last.Some? ==> ValidDate(last.value))
    ensures last.None? ==> r
    ensures last == Some(today) ==> !r
  {
    NewPeriod(last, today, 364)
  }

  /** The daily test compares dates, the others count days; they agree:
      a daily backup is due exactly when no backup or one at least a day
      old was recorded. */
  lemma NewDayByDays(last: Option<Date>, today: Date)
    requires ValidDate(today) && (last.Some? ==> ValidDate(last.value))
    ensures NewDay(last, today) <==> last.None? || Ordinal(today) - Ordinal(last.value) != 0
  {
    if last.Some? {
      OrdinalInjective(today, last.value);
    }
  }

  /** A longer period that is due makes every shorter one due, when the
      entries were recorded on the same date. */
  lemma ScheduleNested(last: Option<Date>, today: Date)
    requires ValidDate(today) && (last.Some? ==> ValidDate(last.value))
    ensures NewYear(last, today) ==> NewMonth(last, today)
    ensures NewMonth(last, today) ==> NewWeek(last, today)
    ensures NewWeek(last, today) ==> NewDay(last, today)
  {
  }

  /** The module-level dictionary that the backups update in place. */
  class BackupSchedule {
    var dates: Dates

    constructor(loaded: Dates)
      ensures dates == loaded
    {
      dates := loaded;
    }

    /** `daily_backup()`: records today as the date of the daily copy. */
    method DailyBackup(today: Date)
      modifies this
      ensures dates == old(dates).(day := Some(today))
    {
      dates := dates.(day := Some(today));
    }

    method WeeklyBackup(today: Date)
      modifies this
      ensures dates == old(dates).(week := Some(today))
    {
      dates := dates.(week := Some(today));
    }

    method MonthlyBackup(today: Date)
      modifies this
      ensures dates == old(dates).(month := Some(today))
    {
      dates := dates.(month := Some(today));
    }

    method YearlyBackup(today: Date)
      modifies this
      ensures dates == old(dates).(year := Some(today))
    {
      dates := dates.(year := Some(today));
    }

    /** `backup()`: takes each copy that is due. Afterwards none is due,
        and a copy that was not due keeps its recorded date. */
    method Backup(today: Date)
      requires ValidDate(today) && ValidDates(dates)
      modifies this
      ensures ValidDates(dates)
      ensures !NewDay(dates.day, today) && !NewWeek(dates.week, today)
      ensures !NewMonth(dates.month, today) && !NewYear(dates.year, today)
      ensures dates.day == Some(today)
      ensures dates.week == if NewWeek(old(dates.week), today) then Some(today) else old(dates.week)
      ensures dates.month == if NewMonth(old(dates.month), today) then Some(today) else old(dates.month)
      ensures dates.year == if NewYear(old(dates.year), today) then Some(today) else old(dates.year)
    {
      if NewDay(dates.day, today) {
        DailyBackup(today);
      }
      if NewWeek(dates.week, today) {
        WeeklyBackup(today);
      }
      if NewMonth(dates.month, today) {
        MonthlyBackup(today);
      }
      if NewYear(dates.year, today) {
        YearlyBackup(today);
      }
    }
  }
}
