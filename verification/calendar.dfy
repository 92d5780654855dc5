/** The reference month: the calendar month before the current one, rendered
    as `YYYY-MM` (paginas/radar_saude_mental.py, `mes_referencia_anterior_str`). */
module Calendar {
  import opened Wrappers
  import opened Text

  /** A year and month as Python's `datetime` carries them (years 1..9999). */
  predicate ValidDate(year: int, month: int) {
    1 <= year <= 9999 && 1 <= month <= 12
  }

  /** A calendar month; `year` may be 0 for the month before January of year 1. */
  datatype YearMonth = YearMonth(year: nat, month: nat) {
    predicate Valid() { 1 <= month <= 12 }
  }

  /** The month that follows `ym`. */
  function Next(ym: YearMonth): (r: YearMonth)
    requires ym.Valid()
    ensures r.Valid()
  {
    if ym.month == 12 then YearMonth(ym.year + 1, 1) else YearMonth(ym.year, ym.month + 1)
  }

  /** The canonical text of a month: the year in plain decimal, a dash, the
      month as two digits. */
  function Format(ym: YearMonth): string
    requires ym.Valid()
  {
    Decimal(ym.year) + "-" + Pad2(ym.month)
  }

  /** Reads `Format`'s output back; anything else is `None`. */
  function Parse(s: string): Option<YearMonth> {
    if |s| < 4 || s[|s| - 3] != '-' || !IsDigit(s[|s| - 2]) || !IsDigit(s[|s| - 1]) then None
    else
      var m := DigitValue(s[|s| - 2]) * 10 + DigitValue(s[|s| - 1]);
      match ParseDecimal(s[..|s| - 3])
      case None => None
      case Some(y) => if 1 <= m <= 12 then Some(YearMonth(y, m)) else None
  }

  /** `mes_referencia_anterior_str`: January maps to December of the year
      before; any other month to the month before it in the same year,
      zero-padded. The result is the canonical text of the month whose
      successor is (year, month), and it reads back as that month. */
  function ReferenceMonth(year: int, month: int): (r: string)
    requires ValidDate(year, month)
    ensures exists ym: YearMonth | ym.Valid() && Next(ym) == YearMonth(year, month) :: Parse(r) == Some(ym)
    ensures |r| >= 4 && r[|r| - 3] == '-' && r[|r| - 2..] in MonthTexts
    ensures Trimmed(r)
  {
    var r := if month == 1 then Decimal(year - 1) + "-12" else Decimal(year) + "-" + Pad2(month - 1);
    var ym := if month == 1 then YearMonth(year - 1, 12) else YearMonth(year, month - 1);
    assert r == Format(ym);
    FormatRoundTrip(ym);
    FormatMonthText(ym);
    r
  }

  /** The twelve two-digit month texts, "01" to "12". */
  const MonthTexts: set<string> :=
    {"01", "02", "03", "04", "05", "06", "07", "08", "09", "10", "11", "12"}

  lemma FormatMonthText(ym: YearMonth)
    requires ym.Valid()
    ensures var r := Format(ym); |r| >= 4 && r[|r| - 3] == '-' && r[|r| - 2..] in MonthTexts
    ensures Trimmed(Format(ym))
  {
    DecimalShape(ym.year);
    var r := Format(ym);
    assert r[0] == Decimal(ym.year)[0];
    assert r[|r| - 2..] == Pad2(ym.month);
  }

  /** Formatting then parsing a month gives the month back. */
  lemma FormatRoundTrip(ym: YearMonth)
    requires ym.Valid()
    ensures Parse(Format(ym)) == Some(ym)
  {
    var s := Format(ym);
    DecimalShape(ym.year);
    assert s[..|s| - 3] == Decimal(ym.year);
    assert s[|s| - 2..] == Pad2(ym.month);
    DecimalRoundTrip(ym.year);
  }

  /** Distinct months have distinct texts, so a record filed under one
      reference month is never mistaken for another. */
  lemma FormatInjective(a: YearMonth, b: YearMonth)
    requires a.Valid() && b.Valid()
    ensures Format(a) == Format(b) <==> a == b
  {
    FormatRoundTrip(a);
    FormatRoundTrip(b);
  }

  /** January of `year` and December of `year - 1` follow each other; the
      reference month of two different current months is never the same. */
  lemma ReferenceMonthInjective(y1: int, m1: int, y2: int, m2: int)
    requires ValidDate(y1, m1) && ValidDate(y2, m2)
    ensures ReferenceMonth(y1, m1) == ReferenceMonth(y2, m2) <==> y1 == y2 && m1 == m2
  {
    var r1 := ReferenceMonth(y1, m1);
    var r2 := ReferenceMonth(y2, m2);
    var a: YearMonth :| a.Valid() && Next(a) == YearMonth(y1, m1) && Parse(r1) == Some(a);
    var b: YearMonth :| b.Valid() && Next(b) == YearMonth(y2, m2) && Parse(r2) == Some(b);
  }

  /** The two branches of the source, spelled out: for January the year is
      decremented and the month is "12"; otherwise the year stays and the
      month is one less, as two digits. */
  lemma ReferenceMonthCases(year: int, month: int)
    requires ValidDate(year, month)
    ensures month == 1 ==> ReferenceMonth(year, month) == Format(YearMonth(year - 1, 12))
    ensures month > 1 ==> ReferenceMonth(year, month) == Format(YearMonth(year, month - 1))
  {
  }
}
