/**
 * The ISO 8601 extended calendar date `YYYY-MM-DD` (ISO 8601:2004 section
 * 4.1.2.2, the `full-date` of RFC 3339 section 5.6) that completion logs key
 * on: `LocalDate.toDateString()` and `String.toLocalDate()`, both with
 * `DateTimeFormatter.ISO_LOCAL_DATE`.
 */
module DateUtils {
  import opened Wrappers
  import opened Text

  /** A `java.time.LocalDate`: a day of the proleptic Gregorian calendar. */
  datatype LocalDate = LocalDate(year: int, month: int, day: int)

  predicate IsLeapYear(y: int) {
    y % 4 == 0 && (y % 100 != 0 || y % 400 == 0)
  }

  function DaysInMonth(y: int, m: int): (n: int)
    requires 1 <= m <= 12
    ensures 28 <= n <= 31
  {
    if m == 2 then (if IsLeapYear(y) then 29 else 28)
    else if m == 4 || m == 6 || m == 9 || m == 11 then 30
    else 31
  }

  /** A real calendar day whose year has four digits. */
  predicate IsValidDate(d: LocalDate) {
    && 0 <= d.year <= 9999
    && 1 <= d.month <= 12
    && 1 <= d.day <= DaysInMonth(d.year, d.month)
  }

  /** Four digits, '-', two digits, '-', two digits. */
  predicate IsDateShape(s: string) {
    && |s| == 10
    && s[4] == '-' && s[7] == '-'
    && AllDigits(s[..4]) && AllDigits(s[5..7]) && AllDigits(s[8..])
  }

  /** `LocalDate.toDateString()`: zero-padded year, month and day. */
  function ToDateString(d: LocalDate): (s: string)
    requires IsValidDate(d)
    ensures IsDateShape(s)
  {
    var s := PadDigits(d.year, 4) + "-" + PadDigits(d.month, 2) + "-" + PadDigits(d.day, 2);
    assert s[..4] == PadDigits(d.year, 4) && s[5..7] == PadDigits(d.month, 2) && s[8..] == PadDigits(d.day, 2);
    s
  }

  /**
   * `String.toLocalDate()`: None where `LocalDate.parse` throws, that is on
   * text of the wrong shape and on days the calendar does not have.
   */
  function ToLocalDate(s: string): (r: Option<LocalDate>)
    ensures r.Some? ==> IsValidDate(r.value) && IsDateShape(s)
  {
    if !IsDateShape(s) then None
    else
      var d := LocalDate(DigitsValue(s[..4]), DigitsValue(s[5..7]), DigitsValue(s[8..]));
      if IsValidDate(d) then Some(d) else None
  }

  /** Formatting then parsing gives the date back. */
  lemma ParseFormat(d: LocalDate)
    requires IsValidDate(d)
    ensures ToLocalDate(ToDateString(d)) == Some(d)
  {
    var s := ToDateString(d);
    assert Pow10(4) == 10000 && Pow10(2) == 100;
    PadDigitsValue(d.year, 4);
    PadDigitsValue(d.month, 2);
    PadDigitsValue(d.day, 2);
    assert s[..4] == PadDigits(d.year, 4) && s[5..7] == PadDigits(d.month, 2) && s[8..] == PadDigits(d.day, 2);
  }

  /** Parsing then formatting gives the text back: every accepted text is canonical. */
  lemma FormatParse(s: string)
    requires ToLocalDate(s).Some?
    ensures ToDateString(ToLocalDate(s).value) == s
  {
    DigitsValuePad(s[..4]);
    DigitsValuePad(s[5..7]);
    DigitsValuePad(s[8..]);
    assert s == s[..4] + "-" + s[5..7] + "-" + s[8..];
  }

  /** A day that does not exist is refused. */
  lemma RejectsImpossibleDay()
    ensures ToLocalDate("2026-02-30") == None
  {
    var s := "2026-02-30";
    assert IsDateShape(s);
    assert s[..4] == "2026" && s[5..7] == "02" && s[8..] == "30";
    assert DigitsValue("2026") == 2026 by {
      assert "2026"[..3] == "202" && "202"[..2] == "20" && "20"[..1] == "2";
    }
    assert DigitsValue("02") == 2 by {
      assert "02"[..1] == "0";
    }
    assert DigitsValue("30") == 30 by {
      assert "30"[..1] == "3";
    }
  }

  /** Text of the wrong shape is refused. */
  lemma RejectsMalformed()
    ensures ToLocalDate("2026-1-01") == None
    ensures ToLocalDate("") == None
  {
  }

  /** Chronological order of days. */
  predicate DateLe(a: LocalDate, b: LocalDate) {
    || a.year < b.year
    || (a.year == b.year && (a.month < b.month || (a.month == b.month && a.day <= b.day)))
  }

  lemma {:induction false} PadEqual(x: nat, y: nat, w: nat)
    requires x < Pow10(w) && y < Pow10(w)
    ensures PadDigits(x, w) == PadDigits(y, w) <==> x == y
  {
    PadDigitsValue(x, w);
    PadDigitsValue(y, w);
  }

  /** The "-MM-DD" tails of two formatted dates compare as month, then day. */
  lemma TailOrder(a: LocalDate, b: LocalDate)
    requires IsValidDate(a) && IsValidDate(b)
    ensures var ma, mb := PadDigits(a.month, 2), PadDigits(b.month, 2);
      var da, db := PadDigits(a.day, 2), PadDigits(b.day, 2);
      LexLe("-" + (ma + ("-" + da)), "-" + (mb + ("-" + db))) <==>
        a.month < b.month || (a.month == b.month && a.day <= b.day)
  {
    assert Pow10(2) == 100;
    var ma, mb := PadDigits(a.month, 2), PadDigits(b.month, 2);
    var da, db := PadDigits(a.day, 2), PadDigits(b.day, 2);
    PadDigitsOrder(a.month, b.month, 2);
    PadDigitsOrder(a.day, b.day, 2);
    PadEqual(a.month, b.month, 2);
    LexLeConcat("-", "-", ma + ("-" + da), mb + ("-" + db));
    LexLeConcat(ma, mb, "-" + da, "-" + db);
    LexLeConcat("-", "-", da, db);
  }

  /**
   * String order of formatted dates is chronological order, which is what
   * `ORDER BY date DESC` on the completion log relies on.
   */
  lemma StringOrderIsDateOrder(a: LocalDate, b: LocalDate)
    requires IsValidDate(a) && IsValidDate(b)
    ensures LexLe(ToDateString(a), ToDateString(b)) <==> DateLe(a, b)
  {
    assert Pow10(4) == 10000;
    var ya, yb := PadDigits(a.year, 4), PadDigits(b.year, 4);
    var ta := "-" + (PadDigits(a.month, 2) + ("-" + PadDigits(a.day, 2)));
    var tb := "-" + (PadDigits(b.month, 2) + ("-" + PadDigits(b.day, 2)));
    PadDigitsOrder(a.year, b.year, 4);
    PadEqual(a.year, b.year, 4);
    assert ToDateString(a) == ya + ta;
    assert ToDateString(b) == yb + tb;
    LexLeConcat(ya, yb, ta, tb);
    TailOrder(a, b);
  }

  /** Different days have different texts, so the strict orders agree too. */
  lemma DateStringInjective(a: LocalDate, b: LocalDate)
    requires IsValidDate(a) && IsValidDate(b)
    ensures ToDateString(a) == ToDateString(b) <==> a == b
  {
    ParseFormat(a);
    ParseFormat(b);
  }
}
