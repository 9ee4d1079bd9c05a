/** The date check the service performs on `publish_date`: Go's
    `time.Parse` with the layout "2006-Jan-02", i.e. four year digits, a
    dash, a three-letter month abbreviation (matched ignoring ASCII case), a
    dash and two day digits, with the day inside the month (leap years
    included) and nothing after it.  `Format` is the partner that writes a
    date in the same layout. */
module ShortDate {
  import opened Text
  import opened Wrappers

  /** A calendar date as the layout reads it: year 0..9999, month 1..12. */
  datatype Date = Date(year: nat, month: nat, day: nat)

  const Dash: byte := 45

  /** Go's short month names, January first, as ASCII bytes:
      Jan Feb Mar Apr May Jun Jul Aug Sep Oct Nov Dec. */
  const MonthNames: seq<Bytes> :=
    [[74, 97, 110], [70, 101, 98], [77, 97, 114], [65, 112, 114], [77, 97, 121], [74, 117, 110],
     [74, 117, 108], [65, 117, 103], [83, 101, 112], [79, 99, 116], [78, 111, 118], [68, 101, 99]]

  predicate IsLeap(year: nat) {
    year % 4 == 0 && (year % 100 != 0 || year % 400 == 0)
  }

  function DaysIn(month: nat, year: nat): nat {
    if month == 2 then (if IsLeap(year) then 29 else 28)
    else if month == 4 || month == 6 || month == 9 || month == 11 then 30
    else 31
  }

  /** A date the layout can express. */
  predicate ValidDate(d: Date) {
    d.year <= 9999 && 1 <= d.month <= 12 && 1 <= d.day <= DaysIn(d.month, d.year)
  }

  /** Two byte strings of equal length that agree once ASCII case is folded. */
  predicate Matches(s: Bytes, name: Bytes) {
    |s| == |name| && forall i | 0 <= i < |s| :: Lower(s[i]) == Lower(name[i])
  }

  /** The number (1..12) of the first month name, from index `k` on, that
      `s` matches; 0 when none does (Go's `lookup` over the name table). */
  function LookupMonth(s: Bytes, k: nat): (m: nat)
    requires k <= 12
    decreases 12 - k
    ensures m == 0 || k < m <= 12
    ensures m != 0 ==> Matches(s, MonthNames[m - 1])
    ensures m != 0 ==> forall j | k <= j < m - 1 :: !Matches(s, MonthNames[j])
    ensures m == 0 <==> forall j | k <= j < 12 :: !Matches(s, MonthNames[j])
  {
    if k == 12 then 0
    else if Matches(s, MonthNames[k]) then k + 1
    else LookupMonth(s, k + 1)
  }

  predicate AllDigits(s: Bytes) {
    forall i | 0 <= i < |s| :: IsDigit(s[i])
  }

  /** The value of four year digits. */
  function Year(s: Bytes): nat
    requires |s| == 4 && AllDigits(s)
  {
    1000 * DigitValue(s[0]) + 100 * DigitValue(s[1]) + 10 * DigitValue(s[2]) + DigitValue(s[3])
  }

  /** The value of two day digits. */
  function Day(s: Bytes): nat
    requires |s| == 2 && AllDigits(s)
  {
    10 * DigitValue(s[0]) + DigitValue(s[1])
  }

  /** The whole layout: the outcome of `time.Parse("2006-Jan-02", s)`. */
  function Parse(s: Bytes): (r: Option<Date>)
    ensures r.Some? ==> ValidDate(r.value)
    ensures r.Some? ==> |s| == 11 && s[4] == Dash && s[8] == Dash
    ensures r.Some? ==> AllDigits(s[..4]) && AllDigits(s[9..])
    ensures r.Some? ==> Matches(s[5..8], MonthNames[r.value.month - 1])
    ensures r.Some? ==> r.value.year == Year(s[..4]) && r.value.day == Day(s[9..])
  {
    if |s| == 11 && AllDigits(s[..4]) && s[4] == Dash && s[8] == Dash && AllDigits(s[9..])
       && LookupMonth(s[5..8], 0) != 0
    then
      var year, month, day := Year(s[..4]), LookupMonth(s[5..8], 0), Day(s[9..]);
      if 1 <= day <= DaysIn(month, year) then Some(Date(year, month, day)) else None
    else None
  }

  /** The predicate the validator uses: the text parses under the layout. */
  predicate ValidShortDate(s: Bytes) {
    Parse(s).Some?
  }

  function Digit(n: nat): (c: byte)
    requires n <= 9
    ensures IsDigit(c) && DigitValue(c) == n
  {
    (48 + n) as byte
  }

  /** Four digits that read back as `y`. */
  function YearText(y: nat): (r: Bytes)
    requires y <= 9999
    ensures |r| == 4 && AllDigits(r) && Year(r) == y
  {
    FourDigits(y);
    [Digit(y / 1000), Digit(y / 100 % 10), Digit(y / 10 % 10), Digit(y % 10)]
  }

  /** Two digits that read back as `d`. */
  function DayText(d: nat): (r: Bytes)
    requires d <= 99
    ensures |r| == 2 && AllDigits(r) && Day(r) == d
  {
    [Digit(d / 10), Digit(d % 10)]
  }

  /** Writes a valid date in the layout, with the month's canonical name. */
  function Format(d: Date): (s: Bytes)
    requires ValidDate(d)
    ensures |s| == 11
  {
    YearText(d.year) + [Dash] + MonthNames[d.month - 1] + [Dash] + DayText(d.day)
  }

  lemma FourDigits(y: nat)
    requires y <= 9999
    ensures y / 1000 <= 9
    ensures 1000 * (y / 1000) + 100 * (y / 100 % 10) + 10 * (y / 10 % 10) + y % 10 == y
  {
    var a, b, c := y / 10, y / 100, y / 1000;
    assert y == 10 * a + y % 10;
    assert a / 10 == b;
    assert a == 10 * b + a % 10;
    assert b / 10 == c;
    assert b == 10 * c + b % 10;
  }

  /** No month name matches another one, so each name looks up to its own number. */
  lemma LookupOwnName(m: nat)
    requires 1 <= m <= 12
    ensures LookupMonth(MonthNames[m - 1], 0) == m
  {
    forall j | 0 <= j < m - 1
      ensures !Matches(MonthNames[m - 1], MonthNames[j])
    {
      NamesDiffer(m - 1, j);
    }
  }

  lemma NamesDiffer(i: nat, j: nat)
    requires j < i < 12
    ensures !Matches(MonthNames[i], MonthNames[j])
  {
    var a, b := MonthNames[i], MonthNames[j];
    // Every pair of names differs, after case folding, in its first or its
    // second or its third byte.
    assert Lower(a[0]) != Lower(b[0]) || Lower(a[1]) != Lower(b[1]) || Lower(a[2]) != Lower(b[2]);
  }

  /** Parsing what `Format` writes gives back the date. */
  lemma ParseFormat(d: Date)
    requires ValidDate(d)
    ensures Parse(Format(d)) == Some(d)
  {
    var s := Format(d);
    assert SameUpToMonthCase(s, s);
    FormattedIsAccepted(s, d);
  }

  /** `s` is the layout text `f` with the month name possibly in another case. */
  predicate SameUpToMonthCase(s: Bytes, f: Bytes)
    requires |f| == 11
  {
    |s| == 11 && s[..5] == f[..5] && s[8..] == f[8..] && Matches(s[5..8], f[5..8])
  }

  /** Every accepted text is the layout of the date it parses to, up to the
      case of the month name. */
  lemma AcceptedIsFormatted(s: Bytes)
    requires ValidShortDate(s)
    ensures SameUpToMonthCase(s, Format(Parse(s).value))
  {
    LayoutOfParts(s, Parse(s).value);
  }

  /** A text whose parts spell the fields of a valid date is that date's layout,
      up to the case of the month name. */
  lemma LayoutOfParts(s: Bytes, d: Date)
    requires ValidDate(d) && |s| == 11 && s[4] == Dash && s[8] == Dash
    requires AllDigits(s[..4]) && Year(s[..4]) == d.year
    requires AllDigits(s[9..]) && Day(s[9..]) == d.day
    requires Matches(s[5..8], MonthNames[d.month - 1])
    ensures SameUpToMonthCase(s, Format(d))
  {
    var f := Format(d);
    var year, day := s[..4], s[9..];
    assert f[..4] == YearText(d.year) && f[9..] == DayText(d.day);
    assert year == f[..4] by {
      forall i | 0 <= i < 4 ensures year[i] == f[..4][i] {
        DigitsAgree(year, f[..4], i);
      }
    }
    assert day == f[9..] by {
      forall i | 0 <= i < 2 ensures day[i] == f[9..][i] {
        DayDigitsAgree(day, f[9..], i);
      }
    }
    assert s[..5] == year + [Dash] && f[..5] == f[..4] + [Dash];
    assert s[8..] == [Dash] + day && f[8..] == [Dash] + f[9..];
    assert f[5..8] == MonthNames[d.month - 1];
  }

  /** Four year digits are determined by the year they spell. */
  lemma DigitsAgree(a: Bytes, b: Bytes, i: nat)
    requires |a| == 4 && AllDigits(a) && |b| == 4 && AllDigits(b) && Year(a) == Year(b)
    requires i < 4
    ensures a[i] == b[i]
  {
    var (a0, a1, a2, a3) := (DigitValue(a[0]), DigitValue(a[1]), DigitValue(a[2]), DigitValue(a[3]));
    var (b0, b1, b2, b3) := (DigitValue(b[0]), DigitValue(b[1]), DigitValue(b[2]), DigitValue(b[3]));
    LastDigit(100 * a0 + 10 * a1 + a2, a3, 100 * b0 + 10 * b1 + b2, b3);
    LastDigit(10 * a0 + a1, a2, 10 * b0 + b1, b2);
    LastDigit(a0, a1, b0, b1);
  }

  /** A number's last decimal digit and the rest are unique. */
  lemma LastDigit(x: nat, d: nat, y: nat, e: nat)
    requires d <= 9 && e <= 9 && 10 * x + d == 10 * y + e
    ensures x == y && d == e
  {
  }

  /** Two day digits are determined by the day they spell. */
  lemma DayDigitsAgree(a: Bytes, b: Bytes, i: nat)
    requires |a| == 2 && AllDigits(a) && |b| == 2 && AllDigits(b) && Day(a) == Day(b)
    requires i < 2
    ensures a[i] == b[i]
  {
  }

  /** Every valid date's layout is accepted, whatever the case of its month name. */
  lemma FormattedIsAccepted(s: Bytes, d: Date)
    requires ValidDate(d) && SameUpToMonthCase(s, Format(d))
    ensures Parse(s) == Some(d)
  {
    var f := Format(d);
    assert s[..4] == YearText(d.year) by {
      assert s[..4] == s[..5][..4] && f[..4] == f[..5][..4];
    }
    assert s[9..] == DayText(d.day) by {
      assert s[9..] == s[8..][1..] && f[9..] == f[8..][1..];
    }
    assert s[4] == Dash && s[8] == Dash by {
      assert s[4] == s[..5][4] && f[4] == f[..5][4];
      assert s[8] == s[8..][0] && f[8] == f[8..][0];
    }
    assert LookupMonth(s[5..8], 0) == d.month by {
      assert f[5..8] == MonthNames[d.month - 1];
      LookupOwnName(d.month);
      MatchesSameLookup(s[5..8], f[5..8], 0);
    }
    ParseOfParts(s, d);
  }

  /** A text made of a valid date's parts parses to that date. */
  lemma ParseOfParts(s: Bytes, d: Date)
    requires ValidDate(d) && |s| == 11 && s[4] == Dash && s[8] == Dash
    requires s[..4] == YearText(d.year) && s[9..] == DayText(d.day)
    requires LookupMonth(s[5..8], 0) == d.month
    ensures Parse(s) == Some(d)
  {
  }

  /** A date text is accepted exactly when it is some valid date written in
      the layout, up to the case of the month name. */
  lemma AcceptedIffFormatted(s: Bytes)
    ensures ValidShortDate(s) <==> exists d :: ValidDate(d) && SameUpToMonthCase(s, Format(d))
  {
    if ValidShortDate(s) {
      AcceptedIsFormatted(s);
    }
    if exists d :: ValidDate(d) && SameUpToMonthCase(s, Format(d)) {
      var d :| ValidDate(d) && SameUpToMonthCase(s, Format(d));
      FormattedIsAccepted(s, d);
    }
  }

  /** Names that agree up to case look up to the same month. */
  lemma {:induction false} MatchesSameLookup(a: Bytes, b: Bytes, k: nat)
    requires k <= 12
    requires Matches(a, b)
    ensures LookupMonth(a, k) == LookupMonth(b, k)
    decreases 12 - k
  {
    if k < 12 {
      assert Matches(a, MonthNames[k]) == Matches(b, MonthNames[k]);
      MatchesSameLookup(a, b, k + 1);
    }
  }
}
