/** Calendar dates as the frontend's `Date` values carry them: proleptic Gregorian
    year, month and day (in UTC), the ISO 8601 extended calendar date `YYYY-MM-DD`
    (ISO 8601:2004, section 4.1.2.2) that `toISOString().split("T")[0]` prints and
    `new Date(s)` reads, and "n days later" as `setDate(getDate() + n)` computes it. */
module Dates {
  import opened Wrappers
  import opened Text
  import opened Decimal

  datatype Date = Date(year: int, month: int, day: int)

  /** The Gregorian leap-year rule. */
  predicate IsLeapYear(y: int) {
    y % 4 == 0 && (y % 100 != 0 || y % 400 == 0)
  }

  function DaysInMonth(y: int, m: int): (n: int)
    ensures 28 <= n <= 31
    ensures m == 2 ==> (n == 29 <==> IsLeapYear(y)) && n <= 29
    ensures m != 2 ==> n >= 30
  {
    if m == 2 then (if IsLeapYear(y) then 29 else 28)
    else if m == 4 || m == 6 || m == 9 || m == 11 then 30
    else 31
  }

  predicate Valid(d: Date) {
    1 <= d.month <= 12 && 1 <= d.day <= DaysInMonth(d.year, d.month)
  }

  /** Chronological order: `a` is an earlier day than `b`. */
  predicate Before(a: Date, b: Date) {
    a.year < b.year || (a.year == b.year && (a.month < b.month || (a.month == b.month && a.day < b.day)))
  }

  function FirstOfNextMonth(d: Date): (r: Date)
    requires Valid(d)
    ensures Valid(r) && r.day == 1 && Before(d, r)
  {
    if d.month < 12 then Date(d.year, d.month + 1, 1) else Date(d.year + 1, 1, 1)
  }

  /** The following calendar day. */
  function Next(d: Date): (r: Date)
    requires Valid(d)
    ensures Valid(r) && Before(d, r)
  {
    if d.day < DaysInMonth(d.year, d.month) then Date(d.year, d.month, d.day + 1)
    else FirstOfNextMonth(d)
  }

  /** No valid date lies strictly between a date and the next one. */
  lemma NextIsSuccessor(d: Date, e: Date)
    requires Valid(d) && Valid(e) && Before(d, e)
    ensures !Before(e, Next(d))
  {
  }

  /** The date `n` days later, by counting one day at a time. */
  function NextN(d: Date, n: nat): (r: Date)
    requires Valid(d)
    ensures Valid(r)
  {
    if n == 0 then d else Next(NextN(d, n - 1))
  }

  /** `setDate(getDate() + n)`: the day of the month grows by `n` and the overflow is
      carried into the following months and years. */
  function AddDays(d: Date, n: nat): (r: Date)
    requires Valid(d)
    ensures Valid(r)
    decreases n
  {
    var left := DaysInMonth(d.year, d.month) - d.day;
    if n <= left then Date(d.year, d.month, d.day + n)
    else AddDays(FirstOfNextMonth(d), n - left - 1)
  }

  /** One more day added is one step of `Next` further. */
  lemma {:induction false} AddDaysSucc(d: Date, n: nat)
    requires Valid(d)
    ensures AddDays(d, n + 1) == Next(AddDays(d, n))
    decreases n
  {
    var left := DaysInMonth(d.year, d.month) - d.day;
    if n + 1 <= left {
    } else if n == left {
    } else {
      AddDaysSucc(FirstOfNextMonth(d), n - left - 1);
    }
  }

  /** Carrying the overflow month by month agrees with counting day by day. */
  lemma {:induction false} AddDaysCounts(d: Date, n: nat)
    requires Valid(d)
    ensures AddDays(d, n) == NextN(d, n)
  {
    if n > 0 {
      AddDaysCounts(d, n - 1);
      AddDaysSucc(d, n - 1);
    }
  }

  /** Adding a positive number of days gives a later date. */
  lemma {:induction false} AddDaysIsLater(d: Date, n: nat)
    requires Valid(d) && n > 0
    ensures Before(d, AddDays(d, n))
    decreases n
  {
    var left := DaysInMonth(d.year, d.month) - d.day;
    if n > left && n - left - 1 > 0 {
      AddDaysIsLater(FirstOfNextMonth(d), n - left - 1);
    }
  }

  /** Fewer days than the rest of the year needs keep the year. */
  lemma {:induction false} AddDaysStaysInYear(d: Date, n: nat)
    requires Valid(d) && n <= 28 * (12 - d.month) + DaysInMonth(d.year, d.month) - d.day
    ensures AddDays(d, n).year == d.year
    decreases n
  {
    var left := DaysInMonth(d.year, d.month) - d.day;
    if n > left {
      var f := FirstOfNextMonth(d);
      assert d.month < 12 && f.month == d.month + 1;
      AddDaysStaysInYear(f, n - left - 1);
    }
  }

  /** Up to 308 days (eleven short months) reach at most into the following year. */
  lemma {:induction false} AddDaysAtMostNextYear(d: Date, n: nat)
    requires Valid(d) && n <= 308
    ensures d.year <= AddDays(d, n).year <= d.year + 1
    decreases n
  {
    var left := DaysInMonth(d.year, d.month) - d.day;
    if n > left {
      var f := FirstOfNextMonth(d);
      if d.month == 12 {
        AddDaysStaysInYear(f, n - left - 1);
      } else {
        AddDaysAtMostNextYear(f, n - left - 1);
      }
    }
  }

  // ---------------------------------------------------------------------------
  // The ISO 8601 calendar date text

  /** The year as `toISOString` writes it: four digits for 0000 to 9999, otherwise
      a sign and six digits. */
  function YearText(y: int): (s: string)
    ensures 0 <= y <= 9999 ==> |s| == 4 && AllDigits(s)
    ensures !(0 <= y <= 9999) ==> |s| == 7 && s[0] in {'+', '-'}
  {
    if 0 <= y <= 9999 then Pad(y, 4)
    else if y > 9999 then "+" + Pad(y, 6)
    else "-" + Pad(-y, 6)
  }

  /** `d.toISOString().split("T")[0]`. */
  function Format(d: Date): string
    requires Valid(d)
  {
    YearText(d.year) + ("-" + (Pad(d.month, 2) + ("-" + Pad(d.day, 2))))
  }

  /** The date-only form `YYYY-MM-DD` that `new Date(s)` reads as UTC midnight;
      anything else, or a day the month does not have, is an invalid date. */
  function Parse(s: string): (r: Option<Date>)
    ensures r.Some? ==> Valid(r.value) && 0 <= r.value.year <= 9999
  {
    if |s| == 10 && AllDigits(s[..4]) && s[4] == '-' && AllDigits(s[5..7]) && s[7] == '-' && AllDigits(s[8..])
    then
      var d := Date(Value(s[..4]), Value(s[5..7]), Value(s[8..]));
      if Valid(d) && d.year <= 9999 then Some(d) else None
    else None
  }

  lemma FormatShape(d: Date)
    requires Valid(d) && 0 <= d.year <= 9999
    ensures var s := Format(d);
      |s| == 10 && s[..4] == Pad(d.year, 4) && s[4] == '-' && s[5..7] == Pad(d.month, 2) &&
      s[7] == '-' && s[8..] == Pad(d.day, 2)
  {
  }

  /** Reading back what was printed gives the same date. */
  lemma ParseFormat(d: Date)
    requires Valid(d) && 0 <= d.year <= 9999
    ensures Parse(Format(d)) == Some(d)
  {
    FormatShape(d);
    ValueOfPad(d.year, 4);
    ValueOfPad(d.month, 2);
    ValueOfPad(d.day, 2);
  }

  /** A string that reads as a date is exactly that date printed. */
  lemma FormatParse(s: string)
    requires Parse(s).Some?
    ensures Format(Parse(s).value) == s
  {
    var d := Parse(s).value;
    PadOfValue(s[..4]);
    PadOfValue(s[5..7]);
    PadOfValue(s[8..]);
    FormatShape(d);
    var f := Format(d);
    assert f[..4] == s[..4] && f[5..7] == s[5..7] && f[8..] == s[8..];
    assert forall i :: 0 <= i < 10 ==> f[i] == s[i] by {
      forall i | 0 <= i < 10
        ensures f[i] == s[i]
      {
        if i < 4 {
          assert f[i] == f[..4][i];
        } else if 5 <= i < 7 {
          assert f[i] == f[5..7][i - 5] && s[i] == s[5..7][i - 5];
        } else if 8 <= i {
          assert f[i] == f[8..][i - 8] && s[i] == s[8..][i - 8];
        }
      }
    }
  }

  /** A printed date, digit by digit. */
  lemma FormatLiteral(d: Date, s: string)
    requires Valid(d) && 0 <= d.year <= 9999 && |s| == 10 && s[4] == '-' && s[7] == '-'
    requires s[..4] == Pad(d.year, 4) && s[5..7] == Pad(d.month, 2) && s[8..] == Pad(d.day, 2)
    ensures Format(d) == s
  {
    FormatShape(d);
    var f := Format(d);
    forall i | 0 <= i < 10
      ensures f[i] == s[i]
    {
      if i < 4 {
        assert f[i] == f[..4][i] && s[i] == s[..4][i];
      } else if 5 <= i < 7 {
        assert f[i] == f[5..7][i - 5] && s[i] == s[5..7][i - 5];
      } else if 8 <= i {
        assert f[i] == f[8..][i - 8] && s[i] == s[8..][i - 8];
      }
    }
  }

  /** For years 0000 to 9999, comparing the printed dates as strings (code unit by code
      unit, as JavaScript's `<` does) is comparing the dates. */
  lemma FormatOrder(a: Date, b: Date)
    requires Valid(a) && Valid(b) && 0 <= a.year <= 9999 && 0 <= b.year <= 9999
    ensures JsLess(Format(a), Format(b)) <==> Before(a, b)
  {
    var ma := Pad(a.month, 2) + ("-" + Pad(a.day, 2));
    var mb := Pad(b.month, 2) + ("-" + Pad(b.day, 2));
    JsLessConcat(YearText(a.year), "-" + ma, YearText(b.year), "-" + mb);
    JsLessConcat("-", ma, "-", mb);
    JsLessIrreflexive("-");
    JsLessConcat(Pad(a.month, 2), "-" + Pad(a.day, 2), Pad(b.month, 2), "-" + Pad(b.day, 2));
    JsLessConcat("-", Pad(a.day, 2), "-", Pad(b.day, 2));
    PadOrder(a.year, b.year, 4);
    PadOrder(a.month, b.month, 2);
    PadOrder(a.day, b.day, 2);
    PadInjective(a.year, b.year, 4);
    PadInjective(a.month, b.month, 2);
  }

  /** Past 9999 the printed year gains a `+` sign, which sorts before every digit: the
      string order of the printed dates then disagrees with the dates. */
  lemma ExpandedYearBreaksOrder()
    ensures Before(Date(2026, 1, 1), Date(10000, 1, 1))
    ensures JsLess(Format(Date(10000, 1, 1)), Format(Date(2026, 1, 1)))
  {
    var s := Format(Date(10000, 1, 1));
    assert s[0] == '+';
    var t := Format(Date(2026, 1, 1));
    assert t[0] == Pad(2026, 4)[0];
    assert AllDigits(Pad(2026, 4));
  }
}
