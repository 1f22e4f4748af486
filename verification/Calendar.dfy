/**
 The Lagos calendar of apps/portal/lib/crm.ts. An instant is a whole number of
 milliseconds since 1970-01-01T00:00Z; Lagos is UTC+1 all year. Dates are those
 of the proleptic Gregorian calendar, as in JavaScript.

 A month is numbered 12 * year + (0 for January .. 11 for December), so the
 number of a month is its place in time.
 */
module Calendar {
  import opened Decimals

  const DAY := 86_400_000
  const HOUR := 3_600_000
  const JANUARY_1970 := 12 * 1970

  predicate IsLeap(y: int) {
    y % 4 == 0 && (y % 100 != 0 || y % 400 == 0)
  }

  function MonthDays(k: int): int {
    var m := k % 12;
    if m == 1 then (if IsLeap(k / 12) then 29 else 28)
    else if m == 3 || m == 5 || m == 8 || m == 10 then 30
    else 31
  }

  /** The day number of the first of a month; day 0 is 1 January 1970. */
  function MonthStart(k: int): int
    decreases if k < JANUARY_1970 then JANUARY_1970 - k else k - JANUARY_1970
  {
    if k == JANUARY_1970 then 0
    else if k > JANUARY_1970 then MonthStart(k - 1) + MonthDays(k - 1)
    else MonthStart(k + 1) - MonthDays(k)
  }

  lemma {:induction false} NextMonth(k: int)
    ensures MonthStart(k + 1) == MonthStart(k) + MonthDays(k)
  {
  }

  // ----- ECMAScript computes the same starts by formula

  /** DayFromYear, section "Year Number" of the ECMAScript date algorithms. */
  function DayFromYear(y: int): int {
    365 * (y - 1970) + (y - 1969) / 4 - (y - 1901) / 100 + (y - 1601) / 400
  }

  /** Days of the year before a month, as in the standard's month table; 12 stands for the year's end. */
  function DaysBefore(m: int, leap: bool): int
    requires 0 <= m <= 12
  {
    (if leap && m >= 2 then 1 else 0) +
    if m == 0 then 0 else if m == 1 then 31 else if m == 2 then 59 else if m == 3 then 90
    else if m == 4 then 120 else if m == 5 then 151 else if m == 6 then 181 else if m == 7 then 212
    else if m == 8 then 243 else if m == 9 then 273 else if m == 10 then 304 else if m == 11 then 334 else 365
  }

  lemma {:induction false} Fours(y: int)
    ensures (y - 1968) / 4 == (y - 1969) / 4 + if y % 4 == 0 then 1 else 0
  {
  }

  lemma {:induction false} Centuries(y: int)
    ensures (y - 1900) / 100 == (y - 1901) / 100 + if y % 100 == 0 then 1 else 0
  {
  }

  lemma {:induction false} FourCenturies(y: int)
    ensures (y - 1600) / 400 == (y - 1601) / 400 + if y % 400 == 0 then 1 else 0
  {
  }

  lemma {:induction false} Nested(y: int)
    ensures y % 400 == 0 ==> y % 100 == 0
    ensures y % 100 == 0 ==> y % 4 == 0
  {
  }

  lemma {:induction false} YearLength(y: int)
    ensures DayFromYear(y + 1) - DayFromYear(y) == if IsLeap(y) then 366 else 365
  {
    Fours(y);
    Centuries(y);
    FourCenturies(y);
    Nested(y);
  }

  lemma {:induction false} MonthsOfYear(y: int, m: int)
    requires 0 <= m <= 12
    ensures MonthStart(12 * y + m) == MonthStart(12 * y) + DaysBefore(m, IsLeap(y))
  {
    if m > 0 {
      MonthsOfYear(y, m - 1);
      assert (12 * y + (m - 1)) / 12 == y && (12 * y + (m - 1)) % 12 == m - 1;
      NextMonth(12 * y + (m - 1));
    }
  }

  lemma {:induction false} JanuaryByFormula(y: int)
    ensures MonthStart(12 * y) == DayFromYear(y)
    decreases if y < 1970 then 1970 - y else y - 1970
  {
    if y > 1970 {
      JanuaryByFormula(y - 1);
      YearLength(y - 1);
      MonthsOfYear(y - 1, 12);
    } else if y < 1970 {
      JanuaryByFormula(y + 1);
      YearLength(y);
      MonthsOfYear(y, 12);
    }
  }

  lemma {:induction false} MonthStartByFormula(k: int)
    ensures MonthStart(k) == DayFromYear(k / 12) + DaysBefore(k % 12, IsLeap(k / 12))
  {
    JanuaryByFormula(k / 12);
    MonthsOfYear(k / 12, k % 12);
    assert k == 12 * (k / 12) + k % 12;
  }

  // ----- growing sequences of starts

  predicate Rises(start: int -> int, k: int) {
    start(k) < start(k + 1)
  }

  lemma {:induction false} RisesIncrease(start: int -> int, j: int, k: int)
    requires forall i :: Rises(start, i)
    ensures j < k ==> start(j) < start(k)
    decreases k - j
  {
    if j < k {
      assert Rises(start, k - 1);
      RisesIncrease(start, j, k - 1);
    }
  }

  /** Lying in a run of stretches is lying between the run's two ends. */
  lemma {:induction false} InRun(start: int -> int, x: int, k: int, first: int, last: int)
    requires forall i :: Rises(start, i)
    requires start(k) <= x < start(k + 1)
    ensures first <= k <= last <==> start(first) <= x < start(last + 1)
  {
    RisesIncrease(start, k + 1, first);
    RisesIncrease(start, first, k);
    RisesIncrease(start, last + 1, k);
    RisesIncrease(start, k + 1, last + 1);
  }

  /** The month of a day, searched from `k`. */
  function MonthFrom(day: int, k: int): (r: int)
    ensures MonthStart(r) <= day < MonthStart(r + 1)
    decreases if day < MonthStart(k) then MonthStart(k) - day else day - MonthStart(k)
  {
    if day < MonthStart(k) then
      NextMonth(k - 1);
      if day >= MonthStart(k - 1) then k - 1 else MonthFrom(day, k - 1)
    else
      NextMonth(k);
      if day < MonthStart(k + 1) then k else MonthFrom(day, k + 1)
  }

  // ----- instants

  /** Midnight in Lagos on the first of a month. */
  function Midnight(k: int): int {
    MonthStart(k) * DAY - HOUR
  }

  /** The Lagos month an instant falls in. */
  function LagosMonth(t: int): int {
    MonthFrom((t + HOUR) / DAY, JANUARY_1970)
  }

  lemma {:induction false} LagosMonthBounds(t: int)
    ensures Midnight(LagosMonth(t)) <= t < Midnight(LagosMonth(t) + 1)
  {
  }

  lemma {:induction false} MidnightsRise()
    ensures forall k :: Rises(Midnight, k)
  {
    forall k ensures Rises(Midnight, k) {
      NextMonth(k);
    }
  }

  /** An instant lies in a run of Lagos months exactly when it lies between their midnights. */
  lemma {:induction false} InMonths(t: int, first: int, last: int)
    ensures first <= LagosMonth(t) <= last <==> Midnight(first) <= t < Midnight(last + 1)
  {
    MidnightsRise();
    LagosMonthBounds(t);
    InRun(Midnight, t, LagosMonth(t), first, last);
  }

  // ----- keys

  /**
   The first seven characters of the ISO string of any instant in the month: years 0 to 9999 take four digits,
   others a sign and six.
   */
  function Key(k: int): string {
    var y := k / 12;
    if 0 <= y <= 9999 then Field(y, 4) + "-" + Field(k % 12 + 1, 2)
    else if y < 0 then "-" + Field(-y, 6)
    else "+" + Field(y, 6)
  }

  function LagosMonthKey(t: int): string {
    Key(LagosMonth(t))
  }

  /** What a key with a four-digit year says. */
  lemma {:induction false} KeyParts(k: int)
    requires 0 <= k / 12 <= 9999
    ensures |Key(k)| == 7 && IsDigit(Key(k)[0])
    ensures Key(k)[..4] == Field(k / 12, 4) && Key(k)[4] == '-'
    ensures Value(Key(k)[..4]) == k / 12 && Value(Key(k)[5..]) == k % 12 + 1
  {
    assert Pow10(4) == 10 * (10 * Pow10(2)) && Pow10(2) == 100;
    FieldValue(k / 12, 4);
    FieldValue(k % 12 + 1, 2);
    assert Key(k)[..4] == Field(k / 12, 4) && Key(k)[5..] == Field(k % 12 + 1, 2);
  }

  /** A key with a four-digit year belongs to one month only. */
  lemma {:induction false} KeyIdentifiesMonth(j: int, k: int)
    requires 0 <= j / 12 <= 9999
    ensures Key(j) == Key(k) <==> j == k
  {
    KeyParts(j);
    if 0 <= k / 12 <= 9999 {
      KeyParts(k);
    } else {
      assert Key(k)[0] == '-' || Key(k)[0] == '+';
    }
  }

  lemma {:induction false} WideKeyParts(k: int)
    requires -999_999 <= k / 12 <= 999_999 && !(0 <= k / 12 <= 9999)
    ensures |Key(k)| == 7 && Key(k)[0] == (if k / 12 < 0 then '-' else '+')
    ensures Value(Key(k)[1..]) == if k / 12 < 0 then -(k / 12) else k / 12
  {
    var y := if k / 12 < 0 then -(k / 12) else k / 12;
    assert Pow10(6) == 10 * (10 * Pow10(4)) && Pow10(4) == 10 * (10 * Pow10(2)) && Pow10(2) == 100;
    FieldValue(y, 6);
    assert Key(k)[1..] == Field(y, 6);
  }

  /** Over all years JavaScript can date: months share a key exactly when equal, or of one year written with a sign. */
  lemma {:induction false} KeysShared(j: int, k: int)
    requires -999_999 <= j / 12 <= 999_999 && -999_999 <= k / 12 <= 999_999
    ensures Key(j) == Key(k) <==> j == k || (j / 12 == k / 12 && !(0 <= j / 12 <= 9999))
  {
    if 0 <= j / 12 <= 9999 {
      KeyIdentifiesMonth(j, k);
    } else if 0 <= k / 12 <= 9999 {
      KeyIdentifiesMonth(k, j);
    } else {
      WideKeyParts(j);
      WideKeyParts(k);
    }
  }

  lemma {:induction false} Midnights2025()
    ensures Midnight(24299) == 1_733_007_600_000 && Midnight(24300) == 1_735_686_000_000
    ensures Midnight(24301) == 1_738_364_400_000
  {
    JanuaryByFormula(2025);
    assert DayFromYear(2025) == 20089 && MonthStart(24300) == 20089;
    assert MonthDays(24299) == 31 && MonthDays(24300) == 31;
    NextMonth(24299);
    NextMonth(24300);
  }

  lemma {:induction false} Keys2025()
    ensures Key(24299) == "2024-12" && Key(24300) == "2025-01"
  {
    assert Field(20, 2) == "20" && Field(202, 3) == "202";
    assert Field(2024, 4) == "2024" && Field(2025, 4) == "2025" && Field(12, 2) == "12" && Field(1, 2) == "01";
  }

  /** 2025 begins in Lagos at 23:00 UTC on 31 December 2024, to the millisecond. */
  lemma {:induction false} LagosNewYear()
    ensures LagosMonthKey(1_735_685_999_999) == "2024-12" && LagosMonthKey(1_735_686_000_000) == "2025-01"
  {
    Midnights2025();
    Keys2025();
    InMonths(1_735_685_999_999, 24299, 24299);
    InMonths(1_735_686_000_000, 24300, 24300);
  }

  /** `lagosYearStart`: the year is read off the month key, then its first midnight in Lagos. */
  function LagosYearStart(now: int): int
    requires 0 <= LagosMonth(now) / 12 <= 9999
  {
    KeyParts(LagosMonth(now));
    Midnight(12 * Value(LagosMonthKey(now)[..4]))
  }

  lemma {:induction false} YearStartsInJanuary(now: int)
    requires 0 <= LagosMonth(now) / 12 <= 9999
    ensures LagosYearStart(now) == Midnight(12 * (LagosMonth(now) / 12))
  {
    KeyParts(LagosMonth(now));
  }
}
