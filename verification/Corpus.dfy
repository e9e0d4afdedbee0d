/** What both workpaper writers share: dates, initials and the billing-rate schedule. */
module Corpus {
  import opened Text
  import opened Decimals
  import opened Evidence

  datatype Date = Date(year: nat, month: nat, day: nat)

  predicate IsLeap(y: nat) { y % 4 == 0 && (y % 100 != 0 || y % 400 == 0) }

  function DaysInMonth(y: nat, m: nat): nat {
    if m == 2 then if IsLeap(y) then 29 else 28
    else if m in {4, 6, 9, 11} then 30
    else 31
  }

  /** A date that `datetime` accepts. */
  predicate ValidDate(d: Date) {
    1 <= d.year <= 9999 && 1 <= d.month <= 12 && 1 <= d.day <= DaysInMonth(d.year, d.month)
  }

  /** `d.isoformat()`. */
  function DateText(d: Date): (s: string)
    ensures |s| == 10
  {
    Padded(d.year, 4) + ("-" + (Padded(d.month, 2) + ("-" + Padded(d.day, 2))))
  }

  const YEAR: nat := 2025

  function FirstMonth(q: Quarter): nat {
    match q case Q1 => 1 case Q2 => 4 case Q3 => 7 case Q4 => 10
  }

  /** The number of days from the first to the last day of the quarter. */
  function SpanDays(q: Quarter): nat {
    match q case Q1 => 89 case Q2 => 90 case Q3 => 91 case Q4 => 91
  }

  /** Calendar addition within one year. */
  function AddDays(month: nat, days: nat): Date
    decreases 12 - month
  {
    var n := DaysInMonth(YEAR, month);
    if days < n || month >= 12 then Date(YEAR, month, days + 1) else AddDays(month + 1, days - n)
  }

  lemma AddDaysWithinQuarter(m: nat, days: nat)
    requires 1 <= m <= 10
    requires days < DaysInMonth(YEAR, m) + DaysInMonth(YEAR, m + 1) + DaysInMonth(YEAR, m + 2)
    ensures ValidDate(AddDays(m, days)) && m <= AddDays(m, days).month < m + 3
  {
    var a, b := DaysInMonth(YEAR, m), DaysInMonth(YEAR, m + 1);
    if days >= a + b {
      assert AddDays(m + 2, days - a - b) == Date(YEAR, m + 2, days - a - b + 1);
      assert AddDays(m + 1, days - a) == AddDays(m + 2, days - a - b);
    } else if days >= a {
      assert AddDays(m + 1, days - a) == Date(YEAR, m + 1, days - a + 1);
    }
  }

  /** Days before the first of month m. */
  function DaysBefore(m: nat): nat { if m <= 1 then 0 else DaysBefore(m - 1) + DaysInMonth(YEAR, m - 1) }

  /** Position in the year, from 1. */
  function Ordinal(d: Date): nat { DaysBefore(d.month) + d.day }

  /** Adding days moves exactly that many days on. */
  lemma {:induction false} AddDaysCounts(m: nat, days: nat)
    requires 1 <= m <= 12
    ensures Ordinal(AddDays(m, days)) == DaysBefore(m) + 1 + days && AddDays(m, days).year == YEAR
    decreases 12 - m
  {
    var n := DaysInMonth(YEAR, m);
    if days >= n && m < 12 {
      AddDaysCounts(m + 1, days - n);
      assert DaysBefore(m + 1) == DaysBefore(m) + n;
    }
  }

  /** `date_in_quarter` for the draw `days`. */
  function DateInQuarter(q: Quarter, days: nat): (d: Date)
    requires days <= SpanDays(q)
    ensures ValidDate(d) && FirstMonth(q) <= d.month < FirstMonth(q) + 3
  {
    var m := FirstMonth(q);
    AddDaysWithinQuarter(m, days);
    AddDays(m, days)
  }

  function QuarterEnd(q: Quarter): Date { DateInQuarter(q, SpanDays(q)) }

  /** A draw of k days is k days after the first of the quarter, and the last draw is the quarter's last day. */
  lemma DrawCountsDays(q: Quarter, days: nat)
    requires days <= SpanDays(q)
    ensures DateInQuarter(q, 0) == Date(2025, FirstMonth(q), 1)
    ensures Ordinal(DateInQuarter(q, days)) == Ordinal(DateInQuarter(q, 0)) + days
    ensures QuarterEnd(q) == match q case Q1 => Date(2025, 3, 31) case Q2 => Date(2025, 6, 30)
                                     case Q3 => Date(2025, 9, 30) case Q4 => Date(2025, 12, 31)
  {
    var m := FirstMonth(q);
    AddDaysCounts(m, days);
    AddDaysCounts(m, 0);
    var a, b := DaysInMonth(YEAR, m), DaysInMonth(YEAR, m + 1);
    assert AddDays(m + 1, SpanDays(q) - a) == AddDays(m + 2, SpanDays(q) - a - b);
  }

  function QuarterDigit(q: Quarter): string {
    match q case Q1 => "1" case Q2 => "2" case Q3 => "3" case Q4 => "4"
  }

  function QuarterText(q: Quarter): string { "Q" + QuarterDigit(q) }

  const INITIALS_POOL :=
    {"AK", "BN", "CR", "DM", "EP", "FV", "GT", "HW", "JS", "KL", "MO", "NQ", "PZ", "QX", "RU", "SY"}

  /** `f"{initials} — {date}"`. */
  function SignoffText(initials: string, d: Date): string { initials + (" — " + DateText(d)) }

  // ---- billing rates ------------------------------------------------------

  function RateNumber(q: Quarter): string {
    match q case Q1 => "0.25" case Q2 => "0.50" case Q3 => "0.50" case Q4 => "0.75"
  }

  /** `billing_rate`, as printed in the workbook. */
  function BillingRate(q: Quarter): string { RateNumber(q) + "%" }

  function PriorQuarter(q: Quarter): Option<Quarter> {
    match q case Q1 => None case Q2 => Some(Q1) case Q3 => Some(Q2) case Q4 => Some(Q3)
  }

  predicate RateChanged(q: Quarter) {
    PriorQuarter(q).Some? && BillingRate(q) != BillingRate(PriorQuarter(q).value)
  }

  function RatePercent(q: Quarter): nat {
    match q case Q1 => 25 case Q2 => 50 case Q3 => 50 case Q4 => 75
  }

  /** The numeric rate the printed schedule denotes, as a fraction. */
  function RateValue(q: Quarter): real { RatePercent(q) as real / 10000.0 }

  lemma ParseCents(d: char, e: char)
    requires IsDigit(d) && IsDigit(e)
    ensures ParseDec("0." + [d, e]) == Some(Dec(10 * DigitValue(d) + DigitValue(e), 2))
  {
    hide ParseDec;
    var b := [d, e];
    ParseFixed("0", b, "");
    assert "0" + ("." + (b + "")) == "0." + b;
    assert "0" + b == ("" + [DigitChar(0)] + [DigitChar(DigitValue(d))]) + [DigitChar(DigitValue(e))];
    ParseNatSnoc("", 0);
    ParseNatSnoc("" + [DigitChar(0)], DigitValue(d));
    ParseNatSnoc("" + [DigitChar(0)] + [DigitChar(DigitValue(d))], DigitValue(e));
  }

  lemma RateNumberDenotes(q: Quarter)
    ensures ParseDec(RateNumber(q)) == Some(Dec(RatePercent(q), 2))
    ensures ParseFloat(RateNumber(q)) == Some(RatePercent(q) as real / 100.0)
  {
    hide ParseDec;
    var r := RateNumber(q);
    assert r == "0." + [r[2], r[3]];
    ParseCents(r[2], r[3]);
    var n := RatePercent(q);
    assert Val(Dec(n, 2)) == Val(Dec(n, 1)) / 10.0 == Val(Dec(n, 0)) / 10.0 / 10.0;
  }

  /** `int(x)`: truncation toward zero. */
  function Truncate(x: real): int { if x >= 0.0 then x.Floor else -((-x).Floor) }

  /** `canonical_billing_fee`. */
  function BillingFee(asset: int, q: Quarter): int { Truncate(asset as real * RateValue(q)) }
}
