/** Proleptic-Gregorian day counts in closed form (`calendar.rs`), proved against counting days one
    by one, and the date gate in front of them (`import.rs`). */
module Calendar {
  import opened Options
  import opened Texts

  datatype Date = Date(year: int, month: int, day: int)

  /** The source's integer division: toward zero. */
  function TruncDiv(a: int, b: int): int
    requires b > 0
  {
    if a >= 0 then a / b else -((-a) / b)
  }

  /** `days_from_civil`. */
  function DaysFromCivil(year: int, month: int, day: int): int {
    var y := if month <= 2 then year - 1 else year;
    var era := TruncDiv(if y >= 0 then y else y - 399, 400);
    var yoe := y - era * 400;
    var mp := if month > 2 then month - 3 else month + 9;
    var doy := TruncDiv(153 * mp + 2, 5) + day - 1;
    var doe := yoe * 365 + TruncDiv(yoe, 4) - TruncDiv(yoe, 100) + doy;
    era * 146_097 + doe - 719_468
  }

  /** `civil_from_days`, on unsigned counts: the era and the day in it, the year of the era and the
      day in it, the month counted from March and the day in it. */
  function CivilFromDays(days: nat): Date {
    var z := days + 719_468;
    InEra(z / 146_097, z - (z / 146_097) * 146_097)
  }

  function InEra(era: int, doe: nat): Date
    requires doe < 146_097
  {
    YearOfEra(doe);
    var yoe := YearOf(doe);
    FromMarch(yoe + era * 400, doe - (365 * yoe + yoe / 4 - yoe / 100))
  }

  function YearOf(doe: nat): int {
    (doe - doe / 1460 + doe / 36_524 - doe / 146_096) / 365
  }

  function FromMarch(y: int, doy: nat): Date {
    var mp := (5 * doy + 2) / 153;
    var month := if mp < 10 then mp + 3 else mp - 9;
    Date(y + if month <= 2 then 1 else 0, month, doy - (153 * mp + 2) / 5 + 1)
  }

  predicate Leap(year: int) {
    (year % 4 == 0 && year % 100 != 0) || year % 400 == 0
  }

  /** `days_in_month`. */
  function DaysInMonth(year: int, month: int): int {
    if month in {1, 3, 5, 7, 8, 10, 12} then 31
    else if month in {4, 6, 9, 11} then 30
    else if Leap(year) then 29 else 28
  }

  predicate Valid(d: Date) {
    1 <= d.month <= 12 && 1 <= d.day <= DaysInMonth(d.year, d.month)
  }

  function Days(d: Date): int { DaysFromCivil(d.year, d.month, d.day) }

  // ---------------------------------------------------------------- counting

  function NextDay(d: Date): Date {
    if d.day < DaysInMonth(d.year, d.month) then d.(day := d.day + 1)
    else if d.month < 12 then Date(d.year, d.month + 1, 1)
    else Date(d.year + 1, 1, 1)
  }

  function YearLength(year: int): int { if Leap(year) then 366 else 365 }

  /** Days from the start of 1970 to the start of `year`, year by year. */
  function YearStart(year: int): int
    decreases if year >= 1970 then year - 1970 else 1970 - year
  {
    if year == 1970 then 0
    else if year > 1970 then YearStart(year - 1) + YearLength(year - 1)
    else YearStart(year + 1) - YearLength(year)
  }

  /** Days from the start of the year to the start of `month`, month by month. */
  function MonthStart(year: int, month: nat): int {
    if month <= 1 then 0 else MonthStart(year, month - 1) + DaysInMonth(year, month - 1)
  }

  /** The day number by plain counting. */
  function Counted(d: Date): int
    requires Valid(d)
  {
    YearStart(d.year) + MonthStart(d.year, d.month) + d.day - 1
  }

  // ---------------------------------------------------------------- the closed form counts

  /** The era split in Euclidean terms. */
  lemma EraSplit(y: int)
    ensures TruncDiv(if y >= 0 then y else y - 399, 400) == y / 400
    ensures 0 <= y - (y / 400) * 400 < 400
  {
  }

  /** Days before March-year `y`, from the start of era 0. */
  function MarchYear(y: int): int {
    365 * y + y / 4 - y / 100 + y / 400
  }

  lemma MarchYearByEra(y: int)
    ensures var era, yoe := y / 400, y % 400; MarchYear(y) == era * 146_097 + yoe * 365 + yoe / 4 - yoe / 100
  {
    var era, yoe := y / 400, y % 400;
    assert y == 400 * era + yoe;
    assert y / 4 == 100 * era + yoe / 4;
    assert y / 100 == 4 * era + yoe / 100;
  }

  lemma DaysByMarch(year: int, month: int, day: int)
    requires 1 <= month <= 12
    ensures var y, mp := if month <= 2 then year - 1 else year, if month > 2 then month - 3 else month + 9;
            DaysFromCivil(year, month, day) == MarchYear(y) + (153 * mp + 2) / 5 + day - 1 - 719_468
  {
    var y := if month <= 2 then year - 1 else year;
    EraSplit(y);
    MarchYearByEra(y);
  }

  lemma FourYearStep(y: int)
    ensures y / 4 - (y - 1) / 4 == if y % 4 == 0 then 1 else 0
  {
  }

  lemma CenturyStep(y: int)
    ensures y / 100 - (y - 1) / 100 == if y % 100 == 0 then 1 else 0
    ensures y % 100 == 0 ==> y % 4 == 0
  {
    if y % 100 == 0 { assert y == 4 * (25 * (y / 100)); }
  }

  lemma EraStep(y: int)
    ensures y / 400 - (y - 1) / 400 == if y % 400 == 0 then 1 else 0
    ensures y % 400 == 0 ==> y % 100 == 0
  {
    if y % 400 == 0 { assert y == 100 * (4 * (y / 400)); }
  }

  lemma MarchYearStep(y: int)
    ensures MarchYear(y) - MarchYear(y - 1) == YearLength(y)
  {
    FourYearStep(y);
    CenturyStep(y);
    EraStep(y);
  }

  /** The lengths of the months in the 153-day pattern from March on. */
  lemma MonthLengths(year: int, month: int)
    requires 1 <= month < 12 && month != 2
    ensures var mp := if month > 2 then month - 3 else month + 9;
            (153 * (mp + 1) + 2) / 5 - (153 * mp + 2) / 5 == DaysInMonth(year, month)
  {
  }

  lemma MonthStep(year: int, month: int)
    requires 1 <= month < 12
    ensures DaysFromCivil(year, month + 1, 1) - DaysFromCivil(year, month, 1) == DaysInMonth(year, month)
  {
    DaysByMarch(year, month, 1);
    DaysByMarch(year, month + 1, 1);
    if month == 2 {
      MarchYearStep(year);
    } else {
      MonthLengths(year, month);
    }
  }

  lemma YearStep(year: int)
    ensures DaysFromCivil(year + 1, 1, 1) - DaysFromCivil(year, 1, 1) == YearLength(year)
  {
    DaysByMarch(year, 1, 1);
    DaysByMarch(year + 1, 1, 1);
    MarchYearStep(year);
  }

  lemma {:induction false} YearsCounted(year: int)
    ensures DaysFromCivil(year, 1, 1) == YearStart(year)
    decreases if year >= 1970 then year - 1970 else 1970 - year
  {
    if year > 1970 {
      YearsCounted(year - 1);
      YearStep(year - 1);
    } else if year < 1970 {
      YearsCounted(year + 1);
      YearStep(year);
    }
  }

  lemma {:induction false} MonthsCounted(year: int, month: nat)
    requires 1 <= month <= 12
    ensures DaysFromCivil(year, month, 1) == DaysFromCivil(year, 1, 1) + MonthStart(year, month)
    decreases month
  {
    if month > 1 {
      MonthsCounted(year, month - 1);
      MonthStep(year, month - 1);
    }
  }

  /** The closed form is plain counting, for every valid date of every year, negative ones included. */
  lemma ClosedFormCounts(d: Date)
    requires Valid(d)
    ensures Days(d) == Counted(d)
  {
    YearsCounted(d.year);
    MonthsCounted(d.year, d.month);
    DaysByMarch(d.year, d.month, d.day);
    DaysByMarch(d.year, d.month, 1);
  }

  lemma NextDayValid(d: Date)
    requires Valid(d)
    ensures Valid(NextDay(d))
  {
  }

  lemma NextDayCounted(d: Date)
    requires Valid(d) && Valid(NextDay(d))
    ensures Counted(NextDay(d)) == Counted(d) + 1
  {
    if d.day == DaysInMonth(d.year, d.month) && d.month == 12 {
      MonthStartDecember(d.year);
      YearsCounted(d.year);
      YearsCounted(d.year + 1);
      YearStep(d.year);
    }
  }

  /** The next date is one more. */
  lemma NextDayIsOneMore(d: Date)
    requires Valid(d)
    ensures Valid(NextDay(d)) && Days(NextDay(d)) == Days(d) + 1
  {
    NextDayValid(d);
    NextDayCounted(d);
    ClosedFormCounts(d);
    ClosedFormCounts(NextDay(d));
  }

  lemma MonthStartDecember(year: int)
    ensures MonthStart(year, 12) + 31 == YearLength(year)
  {
    assert MonthStart(year, 2) == 31;
    assert MonthStart(year, 4) == MonthStart(year, 3) + 31;
    assert MonthStart(year, 6) == MonthStart(year, 5) + 31 == MonthStart(year, 4) + 61;
    assert MonthStart(year, 8) == MonthStart(year, 7) + 31 == MonthStart(year, 6) + 61;
    assert MonthStart(year, 10) == MonthStart(year, 9) + 30 == MonthStart(year, 8) + 61;
    assert MonthStart(year, 12) == MonthStart(year, 11) + 30 == MonthStart(year, 10) + 61;
  }

  /** Calendar order. */
  predicate Earlier(a: Date, b: Date) {
    a.year < b.year || (a.year == b.year && (a.month < b.month || (a.month == b.month && a.day < b.day)))
  }

  lemma {:induction false} MonthStartGrows(year: int, m: nat, n: nat)
    requires 1 <= m < n <= 12
    ensures MonthStart(year, m) + DaysInMonth(year, m) <= MonthStart(year, n)
    decreases n
  {
    if m < n - 1 { MonthStartGrows(year, m, n - 1); }
  }

  lemma {:induction false} YearStartGrows(a: int, b: int)
    requires a < b
    ensures YearStart(a) + YearLength(a) <= YearStart(b)
    decreases b - a
  {
    YearsCounted(b - 1);
    YearsCounted(b);
    YearStep(b - 1);
    if a < b - 1 { YearStartGrows(a, b - 1); }
  }

  lemma WithinYear(d: Date)
    requires Valid(d)
    ensures YearStart(d.year) <= Counted(d) < YearStart(d.year) + YearLength(d.year)
  {
    MonthStartDecember(d.year);
    if d.month < 12 { MonthStartGrows(d.year, d.month, 12); }
    if d.month > 1 { MonthStartGrows(d.year, 1, d.month); }
  }

  lemma EarlierCountsLess(a: Date, b: Date)
    requires Valid(a) && Valid(b) && Earlier(a, b)
    ensures Days(a) < Days(b)
  {
    ClosedFormCounts(a);
    ClosedFormCounts(b);
    if a.year < b.year {
      WithinYear(a);
      WithinYear(b);
      YearStartGrows(a.year, b.year);
    } else if a.month < b.month {
      MonthStartGrows(a.year, a.month, b.month);
    }
  }

  /** The count orders dates exactly as the calendar does, so it is one to one. */
  lemma CountsOrder(a: Date, b: Date)
    requires Valid(a) && Valid(b)
    ensures Days(a) < Days(b) <==> Earlier(a, b)
    ensures Days(a) == Days(b) <==> a == b
  {
    if Earlier(a, b) { EarlierCountsLess(a, b); }
    else if Earlier(b, a) { EarlierCountsLess(b, a); }
  }

  // ---------------------------------------------------------------- the inverse

  /** A day of era as centuries, four-year cycles, years and days: the corrections cancel. */
  lemma YearOfParts(c: nat, q: nat, a: nat, r: nat)
    requires c < 4 && q < 25 && a < 4
    requires r < 365 || (r == 365 && a == 3 && (q < 24 || c == 3))
    ensures YearOf(36_524 * c + 1461 * q + 365 * a + r) == 100 * c + 4 * q + a
  {
    var doe := 36_524 * c + 1461 * q + 365 * a + r;
    var e := if a == 3 && 24 * c + q + r >= 365 then 1 else 0;
    assert doe / 1460 == 25 * c + q + e;
    assert doe / 36_524 - doe / 146_096 == c;
    assert doe - doe / 1460 + doe / 36_524 - doe / 146_096 == 365 * (100 * c + 4 * q + a) + (r - e);
  }

  predicate LeapEnd(yoe: int) { yoe % 4 == 3 && (yoe % 100 != 99 || yoe == 399) }

  /** Day of era to year of era: the leap corrections land in the right year. */
  lemma YearOfEra(doe: nat)
    requires doe < 146_097
    ensures var yoe := YearOf(doe);
            && 0 <= yoe < 400
            && 365 * yoe + yoe / 4 - yoe / 100 <= doe
            && doe < 365 * yoe + yoe / 4 - yoe / 100 + (if LeapEnd(yoe) then 366 else 365)
  {
    var c := if doe == 146_096 then 3 else doe / 36_524;
    var rest := doe - 36_524 * c;
    var q := rest / 1461;
    var s := rest - 1461 * q;
    var a := if s == 1460 then 3 else s / 365;
    var r := s - 365 * a;
    YearOfParts(c, q, a, r);
    var yoe := 100 * c + 4 * q + a;
    assert yoe / 100 == c && yoe / 4 == 25 * c + q && yoe % 4 == a;
  }

  lemma MonthOfYear(doy: nat)
    requires doy < 366
    ensures var mp := (5 * doy + 2) / 153;
            && mp < 12
            && (153 * mp + 2) / 5 <= doy
            && doy < (153 * mp + 2) / 5 + (if mp in {0, 2, 4, 5, 7, 9, 10} then 31 else if mp == 11 then 29 else 30)
  {
  }

  lemma Mod4(k: int, t: int)
    ensures (4 * k + t) % 4 == t % 4
  {
  }

  lemma Mod100(k: int, t: int)
    ensures (100 * k + t) % 100 == t % 100
  {
  }

  lemma Mod400(k: int, t: int)
    ensures (400 * k + t) % 400 == t % 400
  {
  }

  lemma LeapIsPeriodic(era: int, t: int)
    ensures Leap(400 * era + t) <==> Leap(t)
  {
    Mod4(100 * era, t);
    Mod100(4 * era, t);
    Mod400(era, t);
  }

  lemma LeapEndIsLeap(era: int, yoe: int)
    requires 0 <= yoe < 400
    ensures Leap(400 * era + yoe + 1) <==> LeapEnd(yoe)
  {
    LeapIsPeriodic(era, yoe + 1);
  }

  lemma FromMarchCounts(y: int, doy: nat)
    requires doy < (if Leap(y + 1) then 366 else 365)
    ensures Valid(FromMarch(y, doy)) && Days(FromMarch(y, doy)) == MarchYear(y) + doy - 719_468
  {
    MonthOfYear(doy);
    var d := FromMarch(y, doy);
    DaysByMarch(d.year, d.month, d.day);
  }

  lemma InEraCounts(era: int, doe: nat)
    requires doe < 146_097
    ensures Valid(InEra(era, doe)) && Days(InEra(era, doe)) == era * 146_097 + doe - 719_468
  {
    YearOfEra(doe);
    var yoe := YearOf(doe);
    var y, doy := yoe + era * 400, doe - (365 * yoe + yoe / 4 - yoe / 100);
    LeapEndIsLeap(era, yoe);
    assert y + 1 == 400 * era + yoe + 1;
    SameEra(era, yoe);
    FromMarchCounts(y, doy);
  }

  /** Every count gives a valid date, and counting to it gives the count back. */
  lemma CivilThenDays(n: nat)
    ensures Valid(CivilFromDays(n)) && Days(CivilFromDays(n)) == n
  {
    var era := (n + 719_468) / 146_097;
    InEraCounts(era, n + 719_468 - era * 146_097);
  }

  lemma SameEra(era: int, yoe: int)
    requires 0 <= yoe < 400
    ensures MarchYear(yoe + era * 400) == era * 146_097 + yoe * 365 + yoe / 4 - yoe / 100
  {
    EraOf(era, yoe);
    MarchYearByEra(yoe + era * 400);
  }

  lemma EraOf(era: int, yoe: int)
    requires 0 <= yoe < 400
    ensures (yoe + era * 400) / 400 == era && (yoe + era * 400) % 400 == yoe
  {
  }

  /** And from a date on or after the epoch the other way round. */
  lemma DaysThenCivil(d: Date)
    requires Valid(d) && Days(d) >= 0
    ensures CivilFromDays(Days(d)) == d
  {
    CivilThenDays(Days(d));
    CountsOrder(CivilFromDays(Days(d)), d);
  }

  // ---------------------------------------------------------------- the date gate

  predicate IsDigit(c: char) { '0' <= c <= '9' }

  function Digits(s: string): nat
    requires forall i :: 0 <= i < |s| ==> IsDigit(s[i])
  {
    if s == [] then 0 else assert IsDigit(s[|s| - 1]); 10 * Digits(s[..|s| - 1]) + (s[|s| - 1] as nat - '0' as nat)
  }

  const I64_MAX := 0x7FFF_FFFF_FFFF_FFFF

  /** `str::parse::<i64>`: an optional sign and at least one digit, within range. */
  function ParseI64(s: string): Option<int> {
    var body := if s != [] && s[0] in "+-" then s[1..] else s;
    if body == [] || exists i :: 0 <= i < |body| && !IsDigit(body[i]) then None
    else
      var value: int := if s[0] == '-' then 0 - Digits(body) else Digits(body);
      if -I64_MAX - 1 <= value <= I64_MAX then Some(value) else None
  }

  const MS_PER_DAY := 86_400_000

  /** `parse_since`. */
  function ParseSince(raw: string): Option<int> {
    var parts := Split(raw, '-');
    if |parts| != 3 then None
    else
      var y, m, d := ParseI64(parts[0]), ParseI64(parts[1]), ParseI64(parts[2]);
      if y == None || m == None || d == None then None
      else if !(1970 <= y.value <= 9999) then None
      else if !(1 <= m.value <= 12) then None
      else if !(1 <= d.value <= DaysInMonth(y.value, m.value)) then None
      else Some(DaysFromCivil(y.value, m.value, d.value) * MS_PER_DAY)
  }

  ghost predicate Names(raw: string, d: Date) {
    var parts := Split(raw, '-');
    |parts| == 3 && ParseI64(parts[0]) == Some(d.year) && ParseI64(parts[1]) == Some(d.month)
      && ParseI64(parts[2]) == Some(d.day)
  }

  ghost predicate InRange(d: Date) { Valid(d) && 1970 <= d.year <= 9999 }

  /** What the gate lets through is exactly the real dates from 1970 to 9999, each as the counted
      midnight of that day, in range, and naming the day it came from. */
  lemma SinceIsMidnight(raw: string, t: int)
    ensures ParseSince(raw) == Some(t) <==> exists d :: Names(raw, d) && InRange(d) && t == Counted(d) * 86_400_000
    ensures ParseSince(raw) == Some(t) ==> 0 <= t <= I64_MAX && Names(raw, CivilFromDays(t / MS_PER_DAY))
  {
    var parts := Split(raw, '-');
    if ParseSince(raw) == Some(t) {
      var d := Date(ParseI64(parts[0]).value, ParseI64(parts[1]).value, ParseI64(parts[2]).value);
      ClosedFormCounts(d);
      Bounded(d);
      DaysThenCivil(d);
      assert t / MS_PER_DAY == Days(d);
      assert Names(raw, d);
    } else if exists d :: Names(raw, d) && InRange(d) && t == Counted(d) * MS_PER_DAY {
      var d :| Names(raw, d) && InRange(d) && t == Counted(d) * MS_PER_DAY;
      ClosedFormCounts(d);
    }
  }

  lemma Bounded(d: Date)
    requires InRange(d)
    ensures 0 <= Days(d) <= 3_660_000
  {
    DaysByMarch(d.year, d.month, d.day);
  }

  function Padded(n: nat, width: nat): string {
    if width == 0 then "" else Padded(n / 10, width - 1) + ["0123456789"[n % 10]]
  }

  /** The `YYYY-MM-DD` form. */
  function Render(d: Date): string
    requires InRange(d)
  {
    Padded(d.year, 4) + "-" + (Padded(d.month, 2) + "-" + Padded(d.day, 2))
  }

  function Power(width: nat): nat { if width == 0 then 1 else 10 * Power(width - 1) }

  lemma {:induction false} PaddedReads(n: nat, width: nat)
    requires n < Power(width)
    ensures |Padded(n, width)| == width
    ensures forall i :: 0 <= i < width ==> IsDigit(Padded(n, width)[i])
    ensures Digits(Padded(n, width)) == n
  {
    if width > 0 {
      PaddedReads(n / 10, width - 1);
      var s := Padded(n, width);
      assert s[..|s| - 1] == Padded(n / 10, width - 1);
      var d := n % 10;
      assert "0123456789"[d] == '0' + d as char;
    }
  }

  lemma PaddedParses(n: nat, width: nat)
    requires 0 < width <= 4 && n < Power(width) && n < 10_000
    ensures ParseI64(Padded(n, width)) == Some(n) && '-' !in Padded(n, width)
  {
    PaddedReads(n, width);
    assert IsDigit(Padded(n, width)[0]);
  }

  /** Every date in range is accepted in its `YYYY-MM-DD` form, as its own midnight. */
  lemma RenderParses(d: Date)
    requires InRange(d)
    ensures ParseSince(Render(d)) == Some(Counted(d) * 86_400_000)
  {
    assert Power(2) == 100 && Power(4) == 10_000 by { assert Power(1) == 10; assert Power(3) == 1000; }
    PaddedParses(d.year, 4);
    PaddedParses(d.month, 2);
    PaddedParses(d.day, 2);
    SplitAt(Padded(d.year, 4), Padded(d.month, 2) + "-" + Padded(d.day, 2), '-');
    SplitAt(Padded(d.month, 2), Padded(d.day, 2), '-');
    SplitNone(Padded(d.day, 2), '-');
    assert Names(Render(d), d);
    SinceIsMidnight(Render(d), Counted(d) * MS_PER_DAY);
  }
}
