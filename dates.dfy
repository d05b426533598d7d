/**
 * The due-date check of `_validate_task_data`: `datetime.strptime(due_date, '%Y-%m-%d')`
 * succeeds. CPython's `strptime` matches the format as a regular expression in which
 * `%Y` is four digits, `%m` is `1[0-2]|0[1-9]|[1-9]` and `%d` is
 * `3[01]|[12]\d|0[1-9]|[1-9]| [1-9]`, requires the match to consume the whole string,
 * and then builds a `date`, which fails for year 0 and for a day past the end of the month.
 */
module DueDates {
  import opened Wrappers
  import opened Numerals

  datatype Date = Date(year: nat, month: nat, day: nat)

  /** A string the `%m` pattern matches in full. */
  predicate IsMonthToken(t: string) {
    || (|t| == 1 && '1' <= t[0] <= '9')
    || (|t| == 2 && t[0] == '1' && '0' <= t[1] <= '2')
    || (|t| == 2 && t[0] == '0' && '1' <= t[1] <= '9')
  }

  /** A string the `%d` pattern matches in full; note the space-padded form " 7". */
  predicate IsDayToken(t: string) {
    || (|t| == 1 && '1' <= t[0] <= '9')
    || (|t| == 2 && t[0] == '3' && '0' <= t[1] <= '1')
    || (|t| == 2 && '1' <= t[0] <= '2' && IsDigit(t[1]))
    || (|t| == 2 && t[0] == '0' && '1' <= t[1] <= '9')
    || (|t| == 2 && t[0] == ' ' && '1' <= t[1] <= '9')
  }

  /** Python's `int(t)` of a month or day token (a leading space is ignored). */
  function TokenValue(t: string): nat
    requires IsMonthToken(t) || IsDayToken(t)
  {
    if |t| == 1 then DigitValue(t[0])
    else if t[0] == ' ' then DigitValue(t[1])
    else DigitValue(t[0]) * 10 + DigitValue(t[1])
  }

  /**
   * The regular-expression half of `strptime(s, '%Y-%m-%d')`: the fields read from `s`,
   * or `None` when the pattern does not match the whole of `s`. The month token is the
   * text between the two dashes, the day token everything after the second.
   */
  function ParseDate(s: string): (r: Option<Date>)
    ensures r.Some? ==> r.value.year < 10000 && 1 <= r.value.month <= 12 && 1 <= r.value.day <= 31
  {
    if |s| < 8 || !AllDigits(s[..4]) || s[4] != '-' then None
    else
      var dash := if s[6] == '-' then 6 else 7;
      if s[dash] != '-' then None
      else
        var m, d := s[5..dash], s[dash + 1..];
        if !IsMonthToken(m) || !IsDayToken(d) then None
        else
          NumeralValueBound(s[..4]);
          Some(Date(NumeralValue(s[..4]), TokenValue(m), TokenValue(d)))
  }

  /** The Gregorian rule `calendar.isleap` applies. */
  predicate IsLeapYear(y: nat) {
    y % 4 == 0 && (y % 100 != 0 || y % 400 == 0)
  }

  function DaysInMonth(y: nat, m: nat): (n: nat)
    requires 1 <= m <= 12
    ensures 28 <= n <= 31
    ensures n == 29 <==> m == 2 && IsLeapYear(y)
  {
    if m == 2 then (if IsLeapYear(y) then 29 else 28)
    else if m == 4 || m == 6 || m == 9 || m == 11 then 30
    else 31
  }

  /** The date `datetime.date(year, month, day)` accepts. */
  predicate IsCalendarDate(d: Date) {
    1 <= d.year <= 9999 && 1 <= d.month <= 12 && 1 <= d.day <= DaysInMonth(d.year, d.month)
  }

  /** `strptime(s, '%Y-%m-%d')` returns instead of raising `ValueError`. */
  predicate IsValidDueDate(s: string) {
    ParseDate(s).Some? && IsCalendarDate(ParseDate(s).value)
  }

  /** The canonical `YYYY-MM-DD` spelling, as `date.isoformat()` writes it. */
  function FormatDate(d: Date): string {
    Pad(d.year, 4) + "-" + Pad(d.month, 2) + "-" + Pad(d.day, 2)
  }

  /** Two-digit padding of a number below 100, spelled out digit by digit. */
  lemma PadTwo(n: nat)
    requires n < 100
    ensures Pad(n, 2) == [DigitChar(n / 10), DigitChar(n % 10)]
  {
    var t := n / 10;
    assert t < 10;
    assert t % 10 == t && t / 10 == 0;
    assert Pad(t, 1) == Pad(t / 10, 0) + [DigitChar(t % 10)];
    assert Pad(n, 2) == Pad(t, 1) + [DigitChar(n % 10)];
  }

  /**
   * Any year, month and day the pattern can hold, written in the canonical form, is
   * read back unchanged; so the canonical spelling is accepted exactly when it names
   * a calendar date.
   */
  lemma {:induction false} FormatParseRoundTrip(d: Date)
    requires d.year < 10000 && 1 <= d.month <= 12 && 1 <= d.day <= 31
    ensures ParseDate(FormatDate(d)) == Some(d)
    ensures IsValidDueDate(FormatDate(d)) <==> IsCalendarDate(d)
  {
    var s := FormatDate(d);
    var y, m, dd := Pad(d.year, 4), Pad(d.month, 2), Pad(d.day, 2);
    assert s[..4] == y;
    assert s[4] == '-' && s[7] == '-';
    assert s[5..7] == m && s[8..] == dd;
    PadTwo(d.month);
    PadTwo(d.day);
    assert Pow10(4) == 10000;
    PadRoundTrip(d.year, 4);
    assert IsMonthToken(m) && TokenValue(m) == d.month;
    assert IsDayToken(dd) && TokenValue(dd) == d.day;
  }

  /**
   * A ten-character string that parses, with no space before the day, is the
   * canonical spelling of the date it parses to.
   */
  lemma ParseFormatRoundTrip(s: string)
    requires |s| == 10 && s[8] != ' ' && ParseDate(s).Some?
    ensures FormatDate(ParseDate(s).value) == s
  {
    var y, m, dd := s[..4], s[5..7], s[8..];
    ParseTenCharacters(s);
    PadNumeralValue(y);
    TokenPad(m);
    TokenPad(dd);
    assert s == y + "-" + m + "-" + dd;
  }

  /** Where the fields of a ten-character string that parses lie. */
  lemma ParseTenCharacters(s: string)
    requires |s| == 10 && ParseDate(s).Some?
    ensures AllDigits(s[..4]) && s[4] == '-' && s[7] == '-' && IsMonthToken(s[5..7]) && IsDayToken(s[8..])
    ensures ParseDate(s) == Some(Date(NumeralValue(s[..4]), TokenValue(s[5..7]), TokenValue(s[8..])))
  {
    assert s[6] != '-';
  }

  /** A two-character month or day token without a space is the padded numeral of its value. */
  lemma TokenPad(t: string)
    requires (IsMonthToken(t) || IsDayToken(t)) && |t| == 2 && t[0] != ' '
    ensures Pad(TokenValue(t), 2) == t
  {
    var v := TokenValue(t);
    ModUnique(v, 10, DigitValue(t[0]), DigitValue(t[1]));
    PadTwo(v);
  }

  /** Due dates of the kind the test suite and the command line pass in, accepted. */
  lemma AcceptedDueDates()
    ensures IsValidDueDate("2024-01-15") && IsValidDueDate("2024-01-16")
  {
  }

  /** A leap day is accepted only in a leap year. */
  lemma LeapDayDueDates()
    ensures IsValidDueDate("2024-02-29") && !IsValidDueDate("2023-02-29")
  {
  }

  /** `%m` and `%d` also take a single digit, and `%d` a space before it. */
  lemma ShortFieldDueDates()
    ensures IsValidDueDate("2024-1-5") && IsValidDueDate("2024-01- 5")
    ensures ParseDate("2024-1-5") == Some(Date(2024, 1, 5)) && ParseDate("2024-01- 5") == Some(Date(2024, 1, 5))
  {
    assert "2024-1-5"[..4] == "2024" && "2024-01- 5"[..4] == "2024";
    assert NumeralValue("2024") == 2024 by {
      assert "2024"[..3] == "202" && "202"[..2] == "20" && "20"[..1] == "2" && "2"[..0] == "";
    }
  }

  /** Malformed text, a month or a day out of range, and trailing text are refused. */
  lemma RejectedDueDates()
    ensures !IsValidDueDate("invalid-date") && !IsValidDueDate("2024-13-01")
    ensures !IsValidDueDate("2024-04-31")
    ensures !IsValidDueDate("2024-01-15 ") && !IsValidDueDate("24-01-15")
  {
  }

  /** Year 0 is outside `datetime`'s range. */
  lemma YearZeroDueDate()
    ensures !IsValidDueDate("0000-01-01")
  {
    var zero := "0000-01-01";
    assert zero[..4] == "0000" && NumeralValue("0000") == 0 by {
      assert "0000"[..3] == "000" && "000"[..2] == "00" && "00"[..1] == "0" && "0"[..0] == "";
    }
  }
}
