/** Calendar months as the dashboard resolves them: the strict "YYYY-MM" form that
    dashboard/app.py documents for the `mes` field, read as the first day of that month. */
module Months {
  import opened Wrappers

  datatype Month = Month(year: int, month: int)

  /** A month that four year digits and two month digits can name. */
  predicate Valid(m: Month)
  {
    0 <= m.year <= 9999 && 1 <= m.month <= 12
  }

  /** Position of the month on a single timeline: the sort key of the `fecha` column. */
  function Index(m: Month): int
  {
    m.year * 12 + (m.month - 1)
  }

  /** The months whose first instant a nanosecond timestamp can hold: timestamps run from
      1677-09-21 to 2262-04-11, so September 1677 starts too early and May 2262 too late. */
  predicate InTimestampRange(m: Month)
  {
    Index(Month(1677, 10)) <= Index(m) <= Index(Month(2262, 4))
  }

  predicate IsDigit(c: char)
  {
    '0' <= c <= '9'
  }

  function Digit(c: char): int
    requires IsDigit(c)
  {
    c as int - '0' as int
  }

  function DigitChar(d: int): char
    requires 0 <= d <= 9
  {
    (d + '0' as int) as char
  }

  /** Reads "YYYY-MM"; anything else, including month 00 or 13..99, does not name a month. */
  function Parse(s: string): (r: Option<Month>)
    ensures r.Some? ==> Valid(r.value) && |s| == 7 && s[4] == '-'
    ensures r.Some? <==> |s| == 7 && s[4] == '-'
                         && (forall i :: 0 <= i < 7 && i != 4 ==> IsDigit(s[i]))
                         && 1 <= 10 * (s[5] as int - '0' as int) + (s[6] as int - '0' as int) <= 12
  {
    if |s| == 7 && s[4] == '-' && IsDigit(s[0]) && IsDigit(s[1]) && IsDigit(s[2]) && IsDigit(s[3])
       && IsDigit(s[5]) && IsDigit(s[6])
    then
      var y := 1000 * Digit(s[0]) + 100 * Digit(s[1]) + 10 * Digit(s[2]) + Digit(s[3]);
      var mm := 10 * Digit(s[5]) + Digit(s[6]);
      if 1 <= mm <= 12 then Some(Month(y, mm)) else None
    else
      None
  }

  /** Writes a month back in the "YYYY-MM" form of the data file. */
  function Format(m: Month): (s: string)
    requires Valid(m)
    ensures |s| == 7
  {
    var q1 := m.year / 10;
    var q2 := q1 / 10;
    [DigitChar(q2 / 10), DigitChar(q2 % 10), DigitChar(q1 % 10), DigitChar(m.year % 10), '-',
     DigitChar(m.month / 10), DigitChar(m.month % 10)]
  }

  /** Division by ten undoes appending a decimal digit. */
  lemma DivMod10(k: int, d: int)
    requires 0 <= d <= 9
    ensures (10 * k + d) / 10 == k && (10 * k + d) % 10 == d
  {
  }

  /** Formatting and then parsing gives the month back. */
  lemma ParseFormat(m: Month)
    requires Valid(m)
    ensures Parse(Format(m)) == Some(m)
  {
    var s := Format(m);
    var q1 := m.year / 10;
    var q2 := q1 / 10;
    assert m.year == 10 * q1 + m.year % 10;
    assert q1 == 10 * q2 + q1 % 10;
    assert q2 == 10 * (q2 / 10) + q2 % 10;
    assert Digit(s[0]) == q2 / 10 && Digit(s[1]) == q2 % 10;
    assert Digit(s[2]) == q1 % 10 && Digit(s[3]) == m.year % 10;
    assert m.month == 10 * (m.month / 10) + m.month % 10;
    assert Digit(s[5]) == m.month / 10 && Digit(s[6]) == m.month % 10;
  }

  /** A string that parses is exactly the formatted form of its month. */
  lemma FormatParse(s: string)
    requires Parse(s).Some?
    ensures Format(Parse(s).value) == s
  {
    var m := Parse(s).value;
    var a, b, c, d := Digit(s[0]), Digit(s[1]), Digit(s[2]), Digit(s[3]);
    assert m.year == 10 * (10 * (10 * a + b) + c) + d;
    DivMod10(10 * (10 * a + b) + c, d);
    DivMod10(10 * a + b, c);
    DivMod10(a, b);
    DivMod10(Digit(s[5]), Digit(s[6]));
    assert m.month == 10 * Digit(s[5]) + Digit(s[6]);
    var t := Format(m);
    assert forall i :: 0 <= i < 7 ==> t[i] == s[i];
  }

  /** The timeline order compares years first, then months; distinct months never tie. */
  lemma IndexOrder(a: Month, b: Month)
    requires Valid(a) && Valid(b)
    ensures Index(a) < Index(b) <==> a.year < b.year || (a.year == b.year && a.month < b.month)
    ensures Index(a) == Index(b) <==> a == b
  {
    if a.year < b.year {
      assert Index(a) <= a.year * 12 + 11 < (a.year + 1) * 12 <= Index(b);
    } else if b.year < a.year {
      assert Index(b) <= b.year * 12 + 11 < (b.year + 1) * 12 <= Index(a);
    }
  }
}
