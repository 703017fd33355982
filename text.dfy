/** The Python string operations the query core relies on, over `seq<char>`. */
module Text {
  import opened Results

  /** A fixed subset of the ASCII whitespace that `str.strip()` and `str.split()` remove: space, tab,
      line feed, carriage return, vertical tab and form feed. */
  predicate IsSpace(c: char)
  {
    c == ' ' || c == '\t' || c == '\n' || c == '\r' || c == '\U{0B}' || c == '\U{0C}'
  }

  predicate AllSpace(s: string)
  {
    forall i :: 0 <= i < |s| ==> IsSpace(s[i])
  }

  /** Number of leading whitespace characters. */
  function Lead(s: string): (k: nat)
    ensures k <= |s|
    ensures AllSpace(s[..k])
    ensures k < |s| ==> !IsSpace(s[k])
  {
    if s != [] && IsSpace(s[0]) then
      assert s[..1 + Lead(s[1..])] == [s[0]] + s[1..][..Lead(s[1..])];
      1 + Lead(s[1..])
    else 0
  }

  /** Number of trailing whitespace characters. */
  function Trail(s: string): (k: nat)
    ensures k <= |s|
    ensures AllSpace(s[|s| - k..])
    ensures k < |s| ==> !IsSpace(s[|s| - k - 1])
  {
    if s != [] && IsSpace(s[|s| - 1]) then
      var t := s[..|s| - 1];
      assert forall i :: |t| - Trail(t) <= i < |t| ==> s[i] == t[i];
      1 + Trail(t)
    else 0
  }

  /** Python `s.strip()`. */
  function Strip(s: string): (r: string)
    ensures |r| <= |s|
    ensures r == [] <==> AllSpace(s)
    ensures r != [] ==> !IsSpace(r[0]) && !IsSpace(r[|r| - 1])
  {
    var t := s[Lead(s)..];
    assert Lead(s) == |s| || t[0] == s[Lead(s)];
    assert AllSpace(s) ==> Lead(s) == |s|;
    assert Lead(s) == |s| ==> AllSpace(s) by {
      if Lead(s) == |s| {
        assert s[..Lead(s)] == s;
      }
    }
    t[..|t| - Trail(t)]
  }

  lemma ThreeParts(s: string, k: nat, m: nat)
    requires k <= |s| && m <= |s| - k
    ensures s == s[..k] + s[k..][..m] + s[k..][m..]
  {
    assert s[k..] == s[k..][..m] + s[k..][m..];
  }

  /** `s` is made of `Strip(s)` with only whitespace around it. */
  lemma StripParts(s: string) returns (before: string, after: string)
    ensures s == before + Strip(s) + after
    ensures AllSpace(before) && AllSpace(after)
  {
    var k := Lead(s);
    var t := s[k..];
    var m := |t| - Trail(t);
    ThreeParts(s, k, m);
    before, after := s[..k], t[m..];
  }

  lemma {:induction false} LeadAfterSpaces(w: string, r: string)
    requires AllSpace(w)
    ensures Lead(w + r) == |w| + Lead(r)
    decreases |w|
  {
    if w == [] {
      assert w + r == r;
    } else {
      assert (w + r)[0] == w[0] && (w + r)[1..] == w[1..] + r;
      LeadAfterSpaces(w[1..], r);
    }
  }

  /** Leading whitespace does not change the strip. */
  lemma StripAfterSpaces(w: string, r: string)
    requires AllSpace(w)
    ensures Strip(w + r) == Strip(r)
  {
    LeadAfterSpaces(w, r);
    assert (w + r)[|w| + Lead(r)..] == r[Lead(r)..];
  }

  /** A text that neither starts nor ends with whitespace is its own strip. */
  lemma StripIdentity(s: string)
    requires s != [] && !IsSpace(s[0]) && !IsSpace(s[|s| - 1])
    ensures Strip(s) == s
  {
    assert Lead(s) == 0;
    assert Trail(s) == 0;
  }

  /** Python `sub in s`: `sub` occurs in `s` as a contiguous block. */
  predicate Contains(s: string, sub: string)
    decreases |s|
  {
    sub <= s || (s != [] && Contains(s[1..], sub))
  }

  /** `sub` occurs in `s` starting at offset `i`. */
  predicate OccursAt(s: string, sub: string, i: int)
  {
    0 <= i <= |s| - |sub| && s[i..i + |sub|] == sub
  }

  /** `Contains` is substring occurrence at some offset. */
  lemma {:induction false} ContainsAt(s: string, sub: string)
    ensures Contains(s, sub) <==> exists i :: OccursAt(s, sub, i)
    decreases |s|
  {
    if sub <= s {
      assert OccursAt(s, sub, 0);
    } else if s == [] {
    } else {
      ContainsAt(s[1..], sub);
      if Contains(s[1..], sub) {
        var i :| OccursAt(s[1..], sub, i);
        assert s[i + 1..i + 1 + |sub|] == s[1..][i..i + |sub|];
        assert OccursAt(s, sub, i + 1);
      }
      if exists i :: OccursAt(s, sub, i) {
        var i :| OccursAt(s, sub, i);
        assert s[1..][i - 1..i - 1 + |sub|] == s[i..i + |sub|];
        assert OccursAt(s[1..], sub, i - 1);
      }
    }
  }

  /** Python `s.replace(pat, rep)`: every non-overlapping occurrence of `pat`, scanned left to right. */
  function ReplaceAll(s: string, pat: string, rep: string): string
    requires pat != []
    decreases |s|
  {
    if |s| < |pat| then s
    else if pat <= s then rep + ReplaceAll(s[|pat|..], pat, rep)
    else [s[0]] + ReplaceAll(s[1..], pat, rep)
  }

  /** Replacing one character by another works character by character. */
  lemma {:induction false} ReplaceCharPointwise(s: string, c: char, d: char)
    ensures |ReplaceAll(s, [c], [d])| == |s|
    ensures forall i :: 0 <= i < |s| ==>
      ReplaceAll(s, [c], [d])[i] == (if s[i] == c then d else s[i])
  {
    if s != [] {
      ReplaceCharPointwise(s[1..], c, d);
      if [c] <= s {
        assert s[|[c]|..] == s[1..];
      }
    }
  }

  /** Replacing a single character distributes over concatenation. */
  lemma {:induction false} ReplaceCharAppend(x: string, y: string, c: char, d: char)
    ensures ReplaceAll(x + y, [c], [d]) == ReplaceAll(x, [c], [d]) + ReplaceAll(y, [c], [d])
  {
    if x == [] {
      assert x + y == y;
    } else {
      assert (x + y)[1..] == x[1..] + y;
      assert (x + y)[0] == x[0];
      ReplaceCharAppend(x[1..], y, c, d);
      var head := if x[0] == c then [d] else [x[0]];
      assert ReplaceAll(x, [c], [d]) == head + ReplaceAll(x[1..], [c], [d]);
      assert ReplaceAll(x + y, [c], [d]) == head + ReplaceAll(x[1..] + y, [c], [d]);
    }
  }

  /** Replacing `c` by `d` in a text whose first `c` follows `x`. */
  lemma ReplaceCharAfter(x: string, y: string, c: char, d: char)
    requires c !in x
    ensures ReplaceAll(x + [c] + y, [c], [d]) == x + [d] + ReplaceAll(y, [c], [d])
  {
    ReplaceCharAppend(x + [c], y, c, d);
    ReplaceCharAppend(x, [c], c, d);
    ReplaceCharAbsent(x, c, d);
    assert ReplaceAll([c], [c], [d]) == [d] by {
      assert [c][1..] == [];
    }
  }

  /** Replacing a character that does not occur changes nothing. */
  lemma ReplaceCharAbsent(w: string, c: char, d: char)
    requires c !in w
    ensures ReplaceAll(w, [c], [d]) == w
  {
    ReplaceCharPointwise(w, c, d);
  }

  /** The text up to the end of the first word (maximal run of non-whitespace). */
  function DropWord(s: string): (r: string)
    ensures |r| <= |s|
  {
    if s == [] || IsSpace(s[0]) then s else DropWord(s[1..])
  }

  /** `len(s.split())`: the number of maximal runs of non-whitespace characters. */
  function WordCount(s: string): nat
    decreases |s|
  {
    if s == [] then 0
    else if IsSpace(s[0]) then WordCount(s[1..])
    else 1 + WordCount(DropWord(s[1..]))
  }

  /** A text without whitespace. */
  predicate IsWord(w: string)
  {
    w != [] && forall i :: 0 <= i < |w| ==> !IsSpace(w[i])
  }

  /** Dropping the rest of a word stops at the whitespace that follows it. */
  lemma {:induction false} DropWordStops(w: string, rest: string)
    requires forall i :: 0 <= i < |w| ==> !IsSpace(w[i])
    requires rest == [] || IsSpace(rest[0])
    ensures DropWord(w + rest) == rest
  {
    if w == [] {
      assert w + rest == rest;
    } else {
      assert (w + rest)[1..] == w[1..] + rest;
      DropWordStops(w[1..], rest);
    }
  }

  /** A word followed by a space and further text counts one word more than that text. */
  lemma WordCountCons(w: string, rest: string)
    requires IsWord(w)
    ensures WordCount(w + " " + rest) == 1 + WordCount(rest)
  {
    var s := w + " " + rest;
    assert s[1..] == w[1..] + (" " + rest);
    DropWordStops(w[1..], " " + rest);
    assert (" " + rest)[1..] == rest;
  }

  lemma WordCountOne(w: string)
    requires IsWord(w)
    ensures WordCount(w) == 1
  {
    assert w[1..] + [] == w[1..];
    DropWordStops(w[1..], []);
  }

  /** A word followed by a space splits at that space. */
  lemma SplitAfterWord(w: string, rest: string)
    requires IsWord(w)
    ensures SplitAtFirstSpace(w + " " + rest) == Parts(w, rest)
  {
    var s := w + " " + rest;
    assert ' ' !in w by {
      forall i | 0 <= i < |w| ensures w[i] != ' ' {
        assert !IsSpace(w[i]);
      }
    }
    assert s == w + (" " + rest);
    FirstSpaceAfter(w, " " + rest);
    assert s[..|w|] == w && s[|w| + 1..] == rest;
  }

  /** The outcome of `s.split(' ', 1)`: no space, or the parts before and after the first space. */
  datatype SplitOnce = NoSpace | Parts(head: string, tail: string)

  function FirstSpace(s: string): (k: nat)
    ensures k <= |s|
    ensures forall i :: 0 <= i < k ==> s[i] != ' '
    ensures k < |s| ==> s[k] == ' '
  {
    if s == [] || s[0] == ' ' then 0 else 1 + FirstSpace(s[1..])
  }

  lemma {:induction false} FirstSpaceAfter(w: string, rest: string)
    requires ' ' !in w
    ensures FirstSpace(w + rest) == |w| + FirstSpace(rest)
  {
    if w != [] {
      assert (w + rest)[0] == w[0];
      assert (w + rest)[1..] == w[1..] + rest;
      FirstSpaceAfter(w[1..], rest);
    } else {
      assert w + rest == rest;
    }
  }

  function SplitAtFirstSpace(s: string): (r: SplitOnce)
    ensures r.NoSpace? <==> ' ' !in s
    ensures r.Parts? ==> s == r.head + " " + r.tail && ' ' !in r.head
  {
    var k := FirstSpace(s);
    if k == |s| then NoSpace else Parts(s[..k], s[k + 1..])
  }

  /** Python's `<` on `str`: lexicographic order on code points. */
  predicate Less(a: string, b: string)
    decreases |a|
  {
    if b == [] then false
    else if a == [] then true
    else if a[0] != b[0] then a[0] < b[0]
    else Less(a[1..], b[1..])
  }

  lemma {:induction false} LessIrreflexive(a: string)
    ensures !Less(a, a)
  {
    if a != [] {
      LessIrreflexive(a[1..]);
    }
  }

  lemma {:induction false} LessTransitive(a: string, b: string, c: string)
    requires Less(a, b) && Less(b, c)
    ensures Less(a, c)
    decreases |a|
  {
    if a != [] && a[0] == b[0] && b[0] == c[0] {
      LessTransitive(a[1..], b[1..], c[1..]);
    }
  }

  lemma {:induction false} LessTotal(a: string, b: string)
    requires a != b
    ensures Less(a, b) || Less(b, a)
    decreases |a|
  {
    if a != [] && b != [] && a[0] == b[0] {
      assert a == [a[0]] + a[1..] && b == [b[0]] + b[1..];
      LessTotal(a[1..], b[1..]);
    }
  }

  lemma LessAsymmetric(a: string, b: string)
    requires Less(a, b)
    ensures !Less(b, a)
  {
    if Less(b, a) {
      LessTransitive(a, b, a);
      LessIrreflexive(a);
    }
  }

  // ---- Decimal digits ----

  predicate IsDigit(c: char) { '0' <= c <= '9' }

  predicate AllDigits(s: string)
  {
    forall i :: 0 <= i < |s| ==> IsDigit(s[i])
  }

  function DigitChar(d: nat): (c: char)
    requires d < 10
    ensures IsDigit(c)
  {
    (48 + d) as char
  }

  /** The value of a string of decimal digits, most significant first. */
  function DigitsValue(s: string): nat
    requires AllDigits(s)
  {
    if s == [] then 0
    else DigitsValue(s[..|s| - 1]) * 10 + ((s[|s| - 1] as int) - 48)
  }

  /** The shortest decimal spelling of `n`. */
  function NatDigits(n: nat): (s: string)
    ensures s != [] && AllDigits(s)
  {
    if n < 10 then [DigitChar(n)] else NatDigits(n / 10) + [DigitChar(n % 10)]
  }

  /** The decimal spelling of `n` padded with zeros to `width` digits. */
  function PaddedDigits(n: nat, width: nat): (s: string)
    ensures |s| == width && AllDigits(s)
  {
    if width == 0 then [] else PaddedDigits(n / 10, width - 1) + [DigitChar(n % 10)]
  }

  function Pow10(k: nat): nat
  {
    if k == 0 then 1 else 10 * Pow10(k - 1)
  }

  lemma {:induction false} NatDigitsValue(n: nat)
    ensures DigitsValue(NatDigits(n)) == n
  {
    var s := NatDigits(n);
    if n >= 10 {
      NatDigitsValue(n / 10);
      assert s[..|s| - 1] == NatDigits(n / 10);
    }
  }

  lemma {:induction false} PaddedDigitsValue(n: nat, width: nat)
    requires n < Pow10(width)
    ensures DigitsValue(PaddedDigits(n, width)) == n
  {
    var s := PaddedDigits(n, width);
    if width > 0 {
      PaddedDigitsValue(n / 10, width - 1);
      assert s[..|s| - 1] == PaddedDigits(n / 10, width - 1);
    }
  }

  /** Python `int(s)`, restricted to: surrounding whitespace, an optional sign, one or more ASCII digits. */
  function ParseInt(s: string): (r: Result<int>)
    ensures r.Err? ==> r.error == BadInteger(s)
    ensures r.Ok? ==> !AllSpace(s)
  {
    var t := Strip(s);
    if t != [] && (t[0] == '-' || t[0] == '+') then
      if |t| > 1 && AllDigits(t[1..]) then
        var v: int := DigitsValue(t[1..]);
        Ok(if t[0] == '-' then -v else v)
      else Err(BadInteger(s))
    else if t != [] && AllDigits(t) then Ok(DigitsValue(t))
    else Err(BadInteger(s))
  }

  /** The decimal spelling Python's `str(n)` gives an integer. */
  function IntToString(n: int): string
  {
    if n < 0 then "-" + NatDigits(-n) else NatDigits(n)
  }

  /** `int(str(n)) == n`. */
  lemma IntRoundTrip(n: int)
    ensures ParseInt(IntToString(n)) == Ok(n)
  {
    var s := IntToString(n);
    StripIdentity(s);
    if n < 0 {
      assert s[1..] == NatDigits(-n);
      NatDigitsValue(-n);
    } else {
      NatDigitsValue(n);
    }
  }

  // ---- Calendar dates ----

  datatype Date = Date(year: int, month: int, day: int)

  predicate IsLeapYear(y: int)
  {
    y % 4 == 0 && (y % 100 != 0 || y % 400 == 0)
  }

  function DaysInMonth(y: int, m: int): int
  {
    if m == 2 then (if IsLeapYear(y) then 29 else 28)
    else if m == 4 || m == 6 || m == 9 || m == 11 then 30
    else 31
  }

  /** A date Python's `datetime` accepts. */
  predicate ValidDate(d: Date)
  {
    1 <= d.year <= 9999 && 1 <= d.month <= 12 && 1 <= d.day <= DaysInMonth(d.year, d.month)
  }

  /** `YYYY-MM-DD`, the form in which `datetime.fromisoformat` reads a date. */
  function ParseDate(s: string): (r: Result<Date>)
    ensures r.Ok? ==> ValidDate(r.value)
    ensures r.Err? ==> r.error == BadDate(s)
  {
    if |s| == 10 && s[4] == '-' && s[7] == '-'
       && AllDigits(s[..4]) && AllDigits(s[5..7]) && AllDigits(s[8..]) then
      var d := Date(DigitsValue(s[..4]), DigitsValue(s[5..7]), DigitsValue(s[8..]));
      if ValidDate(d) then Ok(d) else Err(BadDate(s))
    else Err(BadDate(s))
  }

  function FormatDate(d: Date): string
    requires ValidDate(d)
  {
    PaddedDigits(d.year, 4) + "-" + PaddedDigits(d.month, 2) + "-" + PaddedDigits(d.day, 2)
  }

  /** Where the three fields sit in a `YYYY-MM-DD` spelling. */
  lemma DateSlices(y: string, m: string, dd: string)
    requires |y| == 4 && |m| == 2 && |dd| == 2
    ensures var s := y + "-" + m + "-" + dd;
      |s| == 10 && s[4] == '-' && s[7] == '-' && s[..4] == y && s[5..7] == m && s[8..] == dd
  {
    var s := y + "-" + m + "-" + dd;
    assert s[..4] == y;
    assert s[5..7] == m;
    assert s[8..] == dd;
  }

  /** Every valid date is read back from its `YYYY-MM-DD` spelling. */
  lemma DateRoundTrip(d: Date)
    requires ValidDate(d)
    ensures ParseDate(FormatDate(d)) == Ok(d)
  {
    var y, m, dd := PaddedDigits(d.year, 4), PaddedDigits(d.month, 2), PaddedDigits(d.day, 2);
    DateSlices(y, m, dd);
    assert Pow10(4) == 10000 && Pow10(2) == 100;
    PaddedDigitsValue(d.year, 4);
    PaddedDigitsValue(d.month, 2);
    PaddedDigitsValue(d.day, 2);
    assert FormatDate(d) == y + "-" + m + "-" + dd;
  }

  /** Chronological comparison: negative, zero or positive. */
  function CompareDates(a: Date, b: Date): int
  {
    if a.year != b.year then (if a.year < b.year then -1 else 1)
    else if a.month != b.month then (if a.month < b.month then -1 else 1)
    else if a.day != b.day then (if a.day < b.day then -1 else 1)
    else 0
  }

  function DaysInYear(y: int): int
  {
    if IsLeapYear(y) then 366 else 365
  }

  /** The days of the years before `y`, counting from year 1. */
  function DaysBeforeYear(y: int): nat
    decreases y
  {
    if y <= 1 then 0 else DaysBeforeYear(y - 1) + DaysInYear(y - 1)
  }

  /** The days of the months of year `y` before month `m`. */
  function DaysBeforeMonth(y: int, m: int): nat
    decreases m
  {
    if m <= 1 then 0 else DaysBeforeMonth(y, m - 1) + DaysInMonth(y, m - 1)
  }

  /** The day number of `d`, with 0001-01-01 as day 1: Python's `date.toordinal()`. */
  function Ordinal(d: Date): int
  {
    DaysBeforeYear(d.year) + DaysBeforeMonth(d.year, d.month) + d.day
  }

  lemma {:induction false} YearsBefore(y1: int, y2: int)
    requires 1 <= y1 < y2
    ensures DaysBeforeYear(y1) + DaysInYear(y1) <= DaysBeforeYear(y2)
    decreases y2
  {
    if y2 > y1 + 1 {
      YearsBefore(y1, y2 - 1);
    }
  }

  lemma {:induction false} MonthsBefore(y: int, m1: int, m2: int)
    requires 1 <= m1 < m2
    ensures DaysBeforeMonth(y, m1) + DaysInMonth(y, m1) <= DaysBeforeMonth(y, m2)
    decreases m2
  {
    if m2 > m1 + 1 {
      MonthsBefore(y, m1, m2 - 1);
    }
  }

  /** The twelve months make up the year. */
  lemma MonthsMakeYear(y: int)
    ensures DaysBeforeMonth(y, 13) == DaysInYear(y)
  {
    var f := DaysInMonth(y, 2);
    assert DaysBeforeMonth(y, 3) == 31 + f;
    assert DaysBeforeMonth(y, 5) == 92 + f;
    assert DaysBeforeMonth(y, 7) == 153 + f;
    assert DaysBeforeMonth(y, 9) == 215 + f;
    assert DaysBeforeMonth(y, 11) == 276 + f;
    assert DaysBeforeMonth(y, 13) == 337 + f;
  }

  /** A valid date of an earlier year has a smaller day number. */
  lemma OrdinalEarlierYear(a: Date, b: Date)
    requires ValidDate(a) && ValidDate(b) && a.year < b.year
    ensures Ordinal(a) < Ordinal(b)
  {
    MonthsBefore(a.year, a.month, 13);
    MonthsMakeYear(a.year);
    YearsBefore(a.year, b.year);
  }

  /** A valid date of an earlier month of the same year has a smaller day number. */
  lemma OrdinalEarlierMonth(a: Date, b: Date)
    requires ValidDate(a) && ValidDate(b) && a.year == b.year && a.month < b.month
    ensures Ordinal(a) < Ordinal(b)
  {
    MonthsBefore(a.year, a.month, b.month);
  }

  /** On valid dates, `CompareDates` orders dates by their day numbers, that is, chronologically. */
  lemma CompareDatesChronological(a: Date, b: Date)
    requires ValidDate(a) && ValidDate(b)
    ensures CompareDates(a, b) == CompareInts(Ordinal(a), Ordinal(b))
  {
    if a.year < b.year {
      OrdinalEarlierYear(a, b);
    } else if b.year < a.year {
      OrdinalEarlierYear(b, a);
    } else if a.month < b.month {
      OrdinalEarlierMonth(a, b);
    } else if b.month < a.month {
      OrdinalEarlierMonth(b, a);
    }
  }

  /** A date written `YYYY/MM/DD` reads back once its `/` are replaced by `-`. */
  lemma SlashedDateRoundTrip(d: Date)
    requires ValidDate(d)
    ensures var y, m, dd := PaddedDigits(d.year, 4), PaddedDigits(d.month, 2), PaddedDigits(d.day, 2);
            ParseDate(ReplaceAll(y + "/" + m + "/" + dd, "/", "-")) == Ok(d)
  {
    var y, m, dd := PaddedDigits(d.year, 4), PaddedDigits(d.month, 2), PaddedDigits(d.day, 2);
    assert '/' !in y && '/' !in m && '/' !in dd by {
      assert forall i :: 0 <= i < |y| ==> IsDigit(y[i]);
      assert forall i :: 0 <= i < |m| ==> IsDigit(m[i]);
      assert forall i :: 0 <= i < |dd| ==> IsDigit(dd[i]);
    }
    assert y + "/" + m + "/" + dd == y + ['/'] + (m + ['/'] + dd);
    ReplaceCharAfter(y, m + ['/'] + dd, '/', '-');
    ReplaceCharAfter(m, dd, '/', '-');
    ReplaceCharAbsent(dd, '/', '-');
    assert y + ['-'] + (m + ['-'] + dd) == FormatDate(d);
    DateRoundTrip(d);
  }

  function CompareInts(a: int, b: int): int
  {
    if a < b then -1 else if a == b then 0 else 1
  }
}
