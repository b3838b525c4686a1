/** Dates from day counts: the closed-form algorithm, the year-by-year loop, and the calendar itself. */
module Calendar {

  // ---- The Gregorian calendar (leap rule of Appendix C of RFC 3339) ----

  datatype Date = Date(year: int, month: nat, day: nat)

  predicate IsLeap(year: int) {
    year % 4 == 0 && (year % 100 != 0 || year % 400 == 0)
  }

  function YearLength(year: int): nat {
    if IsLeap(year) then 366 else 365
  }

  function MonthLength(year: int, month: nat): nat
    requires 1 <= month <= 12
  {
    if month == 2 then (if IsLeap(year) then 29 else 28)
    else if month == 4 || month == 6 || month == 9 || month == 11 then 30
    else 31
  }

  predicate Valid(d: Date) {
    1 <= d.month <= 12 && 1 <= d.day <= MonthLength(d.year, d.month)
  }

  function NextDay(d: Date): Date
    requires Valid(d)
  {
    if d.day < MonthLength(d.year, d.month) then d.(day := d.day + 1)
    else if d.month < 12 then Date(d.year, d.month + 1, 1)
    else Date(d.year + 1, 1, 1)
  }

  /** Days from 1970-01-01 to the first day of a year, summing years. */
  function YearStart(year: int): int
    decreases if year > 1970 then year - 1970 else 1970 - year
  {
    if year == 1970 then 0
    else if year > 1970 then YearStart(year - 1) + YearLength(year - 1)
    else YearStart(year + 1) - YearLength(year)
  }

  /** Days from 1970-01-01 to the first day of a month, summing months. */
  function MonthStart(year: int, month: nat): int
    requires 1 <= month <= 12
  {
    if month == 1 then YearStart(year) else MonthStart(year, month - 1) + MonthLength(year, month - 1)
  }

  function DayNumber(d: Date): int
    requires 1 <= d.month <= 12
  {
    MonthStart(d.year, d.month) + d.day - 1
  }

  // ---- The algorithms ----

  /** Rust's `/` on `i64`: toward zero. */
  function Quotient(a: int, b: int): int
    requires b > 0
  {
    if a >= 0 then a / b else -(-a / b)
  }

  /** Day `doy` of the year that starts on 1 March of `y`. */
  function MarchDate(y: int, doy: nat): Date
    requires doy <= 365
  {
    var mp := (5 * doy + 2) / 153;
    MonthFits(doy);
    var d := doy - (153 * mp + 2) / 5 + 1;
    var m := if mp < 10 then mp + 3 else mp - 9;
    Date(if m <= 2 then y + 1 else y, m, d)
  }

  function EraOf(z: int): int {
    Quotient(if z >= 0 then z else z - 146_096, 146_097)
  }

  function DayOfEra(z: int): (doe: nat)
    ensures doe < 146_097
  {
    EraIsFloor(z);
    z - EraOf(z) * 146_097
  }

  function DayOfYear(doe: nat): (doy: nat)
    requires doe < 146_097
    ensures doy <= 365
  {
    YearOfEraFits(doe);
    doe - EraDays(YearOfEra(doe))
  }

  function CivilFromDays(days: int): Date {
    var z := days + 719_468;
    DateInEra(EraOf(z), DayOfEra(z))
  }

  function DateInEra(era: int, doe: nat): Date
    requires doe < 146_097
  {
    MarchDate(YearOfEra(doe) + era * 400, DayOfYear(doe))
  }

  function YearOfEra(doe: nat): int {
    (doe - doe / 1460 + doe / 36_524 - doe / 146_096) / 365
  }

  /** Days of an era before its year `yoe`. */
  function EraDays(yoe: int): int {
    365 * yoe + yoe / 4 - yoe / 100
  }

  // ---- Arithmetic ----

  lemma EraIsFloor(z: int)
    ensures 0 <= z - EraOf(z) * 146_097 < 146_097
  {
  }

  /** A day of a 400-year era as century, four-year group, year and day of a year that starts in March. */
  datatype Place = Place(c: nat, q: nat, k: nat, r: nat) {
    predicate Fits() {
      && c <= 3 && q <= 24 && k <= 3 && r <= 365
      && (r == 365 ==> k == 3 && (q < 24 || c == 3))
    }

    function Day(): nat {
      36_524 * c + 1461 * q + 365 * k + r
    }

    function Year(): nat {
      100 * c + 4 * q + k
    }
  }

  lemma Locate(doe: nat) returns (p: Place)
    requires doe < 146_097
    ensures p.Fits() && p.Day() == doe
  {
    var c := if doe == 146_096 then 3 else doe / 36_524;
    var e := doe - 36_524 * c;
    var q := e / 1461;
    var f := e - 1461 * q;
    var k := if f == 1460 then 3 else f / 365;
    p := Place(c, q, k, f - 365 * k);
  }

  /** The three corrections turn the day count into whole years of 365 days. */
  lemma CorrectionsExact(p: Place)
    requires p.Fits()
    ensures p.Day() < 146_097 && YearOfEra(p.Day()) == p.Year()
  {
    var doe, s := p.Day(), 24 * p.c + p.q + 365 * p.k + p.r;
    var late := if s >= 1460 then 1 else 0;
    assert doe == 1460 * (25 * p.c + p.q) + s;
    assert doe / 1460 == 25 * p.c + p.q + late;
    assert doe / 36_524 - doe / 146_096 == p.c;
    assert doe - doe / 1460 + doe / 36_524 - doe / 146_096 == 365 * p.Year() + (p.r - late);
  }

  lemma YearOfEraFits(doe: nat)
    requires doe < 146_097
    ensures var yoe := YearOfEra(doe);
            && 0 <= yoe < 400
            && 0 <= doe - EraDays(yoe) <= 365
            && (doe - EraDays(yoe) == 365 ==> IsLeap(yoe + 1))
  {
    var p := Locate(doe);
    CorrectionsExact(p);
    PlaceStart(p);
  }

  lemma PlaceStart(p: Place)
    requires p.Fits()
    ensures var y := p.Year();
            && y < 400 && p.Day() - EraDays(y) == p.r
            && (p.r == 365 ==> IsLeap(y + 1))
  {
    var y := p.Year();
    assert y / 4 == 25 * p.c + p.q;
    assert y / 100 == p.c by {
      assert y == 100 * p.c + (4 * p.q + p.k) && 4 * p.q + p.k < 100;
    }
    if p.r == 365 {
      assert y + 1 == 4 * (25 * p.c + p.q + 1);
      if p.q == 24 {
        assert y + 1 == 400;
      } else {
        assert y + 1 == 100 * p.c + 4 * (p.q + 1) && 0 < 4 * (p.q + 1) < 100;
        assert (y + 1) % 100 == 4 * (p.q + 1);
      }
    }
  }

  /** The month formula: months from March on start at `(153 * mp + 2) / 5`. */
  lemma MonthFits(doy: nat)
    requires doy <= 365
    ensures var mp := (5 * doy + 2) / 153;
            0 <= mp <= 11 && (153 * mp + 2) / 5 <= doy < (153 * (mp + 1) + 2) / 5
  {
  }

  /** Leap years up to `y`, counted by fours, hundreds and four hundreds. */
  function LeapsUpTo(y: int): int {
    y / 4 - y / 100 + y / 400
  }

  lemma LeapStep(y: int)
    ensures LeapsUpTo(y) - LeapsUpTo(y - 1) == if IsLeap(y) then 1 else 0
  {
    Step4(y);
    Step100(y);
    Step400(y);
    Multiples(y);
  }

  lemma Step4(y: int)
    ensures y / 4 - (y - 1) / 4 == if y % 4 == 0 then 1 else 0
  {
  }

  lemma Step100(y: int)
    ensures y / 100 - (y - 1) / 100 == if y % 100 == 0 then 1 else 0
  {
  }

  lemma Step400(y: int)
    ensures y / 400 - (y - 1) / 400 == if y % 400 == 0 then 1 else 0
  {
  }

  lemma Multiples(y: int)
    ensures y % 400 == 0 ==> y % 100 == 0
    ensures y % 100 == 0 ==> y % 4 == 0
  {
    if y % 400 == 0 {
      Shift100(0, 4 * (y / 400));
    }
    if y % 100 == 0 {
      Shift4(0, 25 * (y / 100));
    }
  }

  /** The years summed, in closed form. */
  lemma {:induction false} YearStartClosed(y: int)
    ensures YearStart(y) == 365 * (y - 1970) + LeapsUpTo(y - 1) - 477
    decreases if y > 1970 then y - 1970 else 1970 - y
  {
    if y > 1970 {
      YearStartClosed(y - 1);
      LeapStep(y - 1);
    } else if y < 1970 {
      YearStartClosed(y + 1);
      LeapStep(y);
    }
  }

  // ---- The day count is the calendar's ----

  lemma YearSpan(y: int)
    ensures YearStart(y + 1) == YearStart(y) + YearLength(y)
  {
  }

  lemma MonthTable(y: int)
    ensures var f := MonthLength(y, 2);
            && MonthStart(y, 2) == YearStart(y) + 31 && MonthStart(y, 3) == YearStart(y) + 31 + f
            && MonthStart(y, 4) == YearStart(y) + 62 + f && MonthStart(y, 5) == YearStart(y) + 92 + f
            && MonthStart(y, 6) == YearStart(y) + 123 + f && MonthStart(y, 7) == YearStart(y) + 153 + f
            && MonthStart(y, 8) == YearStart(y) + 184 + f && MonthStart(y, 9) == YearStart(y) + 215 + f
            && MonthStart(y, 10) == YearStart(y) + 245 + f && MonthStart(y, 11) == YearStart(y) + 276 + f
            && MonthStart(y, 12) == YearStart(y) + 306 + f
  {
  }

  lemma MonthSpan(y: int, m: nat)
    requires 1 <= m <= 12
    ensures MonthStart(y, m) + MonthLength(y, m) == if m < 12 then MonthStart(y, m + 1) else YearStart(y + 1)
  {
    MonthTable(y);
    YearSpan(y);
  }

  /** Day counts step by one along the calendar, from 0 on 1970-01-01. */
  lemma NextDayNumber(d: Date)
    requires Valid(d)
    ensures Valid(NextDay(d)) && DayNumber(NextDay(d)) == DayNumber(d) + 1
  {
    MonthSpan(d.year, d.month);
  }

  /** A month of a year that starts in March begins at `(153 * mp + 2) / 5`. */
  lemma MarchMonth(y: int, m: nat)
    requires 1 <= m <= 12
    ensures var march := if m <= 2 then y - 1 else y;
            var mp := if m <= 2 then m + 9 else m - 3;
            MonthStart(y, m) == MonthStart(march, 3) + (153 * mp + 2) / 5
  {
    MonthTable(y);
    MonthTable(y - 1);
    YearSpan(y - 1);
  }

  lemma MarchStart(y: int)
    ensures MonthStart(y, 3) == 365 * y + LeapsUpTo(y) - 719_468
  {
    YearStartClosed(y);
    LeapStep(y);
    MonthTable(y);
  }

  /** A day of a March-based year falls on a valid day of its month, counted from 1 March. */
  lemma MarchDateFits(y: int, doy: nat)
    requires doy <= 365 && (doy == 365 ==> IsLeap(y + 1))
    ensures Valid(MarchDate(y, doy)) && DayNumber(MarchDate(y, doy)) == MonthStart(y, 3) + doy
  {
    MonthFits(doy);
    var r := MarchDate(y, doy);
    MarchMonth(r.year, r.month);
  }

  lemma EraDateFits(era: int, yoe: int, doy: nat)
    requires 0 <= yoe < 400 && doy <= 365 && (doy == 365 ==> IsLeap(yoe + 1))
    ensures var r := MarchDate(yoe + era * 400, doy);
            Valid(r) && DayNumber(r) == era * 146_097 + EraDays(yoe) + doy - 719_468
  {
    EraShift(era, yoe);
    MarchStart(yoe + era * 400);
    MarchDateFits(yoe + era * 400, doy);
  }

  /** Every day count has a valid date, and the date has that day count. */
  lemma CivilInverts(days: int)
    ensures Valid(CivilFromDays(days)) && DayNumber(CivilFromDays(days)) == days
  {
    var z := days + 719_468;
    DateInEraFits(z, EraOf(z), DayOfEra(z));
  }

  /** The date computed for a day of an era has that day's number. */
  lemma DateInEraFits(z: int, era: int, doe: nat)
    requires doe < 146_097 && doe == z - era * 146_097
    ensures Valid(DateInEra(era, doe)) && DayNumber(DateInEra(era, doe)) == z - 719_468
  {
    YearOfEraFits(doe);
    EraDateFits(era, YearOfEra(doe), DayOfYear(doe));
  }

  /** Whole eras shift day counts by 146 097 and keep the leap rule. */
  lemma EraShift(era: int, yoe: int)
    requires 0 <= yoe < 400
    ensures 365 * (yoe + era * 400) + LeapsUpTo(yoe + era * 400) == EraDays(yoe) + 146_097 * era
    ensures IsLeap(yoe + era * 400 + 1) <==> IsLeap(yoe + 1)
  {
    Shift4(yoe, 100 * era);
    Shift100(yoe, 4 * era);
    Shift400(yoe, era);
    Shift4(yoe + 1, 100 * era);
    Shift100(yoe + 1, 4 * era);
    Shift400(yoe + 1, era);
  }

  lemma Shift4(x: int, k: int)
    ensures (x + 4 * k) / 4 == x / 4 + k && (x + 4 * k) % 4 == x % 4
  {
  }

  lemma Shift100(x: int, k: int)
    ensures (x + 100 * k) / 100 == x / 100 + k && (x + 100 * k) % 100 == x % 100
  {
  }

  lemma Shift400(x: int, k: int)
    ensures (x + 400 * k) / 400 == x / 400 + k && (x + 400 * k) % 400 == x % 400
  {
  }

  // ---- One date per day ----

  lemma {:induction false} YearsInOrder(a: int, b: int)
    requires a <= b
    ensures YearStart(a) <= YearStart(b)
    decreases b - a
  {
    if a < b {
      YearsInOrder(a, b - 1);
      YearSpan(b - 1);
    }
  }

  lemma {:induction false} MonthsInOrder(y: int, a: nat, b: nat)
    requires 1 <= a < b <= 13
    ensures MonthStart(y, a) + MonthLength(y, a) <= if b < 13 then MonthStart(y, b) else YearStart(y + 1)
    decreases b - a
  {
    MonthSpan(y, a);
    if a + 1 < b {
      MonthsInOrder(y, a + 1, b);
    }
  }

  lemma WithinYear(d: Date)
    requires Valid(d)
    ensures YearStart(d.year) <= DayNumber(d) < YearStart(d.year + 1)
  {
    if d.month > 1 {
      MonthsInOrder(d.year, 1, d.month);
    }
    MonthsInOrder(d.year, d.month, 13);
  }

  lemma OneDatePerDay(a: Date, b: Date)
    requires Valid(a) && Valid(b) && DayNumber(a) == DayNumber(b)
    ensures a == b
  {
    WithinYear(a);
    WithinYear(b);
    if a.year < b.year {
      YearsInOrder(a.year + 1, b.year);
    } else if b.year < a.year {
      YearsInOrder(b.year + 1, a.year);
    } else if a.month < b.month {
      MonthsInOrder(a.year, a.month, b.month);
    } else if b.month < a.month {
      MonthsInOrder(a.year, b.month, a.month);
    }
  }

  /** The closed form follows the calendar day by day, backwards and forwards from 1970-01-01. */
  lemma CivilFollowsCalendar(days: int)
    ensures CivilFromDays(0) == Date(1970, 1, 1)
    ensures Valid(CivilFromDays(days)) && CivilFromDays(days + 1) == NextDay(CivilFromDays(days))
  {
    Epoch();
    CivilInverts(days);
    NextDayNumber(CivilFromDays(days));
    DayOfDate(days + 1, NextDay(CivilFromDays(days)));
  }

  lemma Epoch()
    ensures CivilFromDays(0) == Date(1970, 1, 1)
  {
    DayOfDate(0, Date(1970, 1, 1));
  }

  /** A valid date is the one computed for its day number. */
  lemma DayOfDate(days: int, d: Date)
    requires Valid(d) && DayNumber(d) == days
    ensures CivilFromDays(days) == d
  {
    CivilInverts(days);
    OneDatePerDay(CivilFromDays(days), d);
  }

  // ---- The loop ----

  /** Year by year, then month by month. */
  method DateByLoop(dayCount: nat) returns (r: Date)
    ensures r == CivilFromDays(dayCount)
  {
    var days, year := dayCount, 1970;
    while true
      invariant YearStart(year) + days == dayCount
      decreases days
    {
      var diy := if IsLeap(year) then 366 else 365;
      if days < diy {
        break;
      }
      YearSpan(year);
      days, year := days - diy, year + 1;
    }
    var monthDays := [31, if IsLeap(year) then 29 else 28, 31, 30, 31, 30, 31, 31, 30, 31, 30, 31];
    var month := 0;
    YearSpan(year);
    while month < 12 && days >= monthDays[month]
      invariant 0 <= month <= 12
      invariant (if month < 12 then MonthStart(year, month + 1) else YearStart(year + 1)) + days == dayCount
    {
      MonthSpan(year, month + 1);
      days, month := days - monthDays[month], month + 1;
    }
    r := Date(year, month + 1, days + 1);
    SameDate(r, dayCount);
  }

  lemma SameDate(d: Date, days: int)
    requires Valid(d) && DayNumber(d) == days
    ensures d == CivilFromDays(days)
  {
    CivilInverts(days);
    OneDatePerDay(d, CivilFromDays(days));
  }

  // ---- Text (the date-time form of section 5.6 of RFC 3339) ----

  datatype Moment = Moment(date: Date, hour: nat, minute: nat, second: nat, millis: nat) {
    predicate InRange() {
      Valid(date) && hour < 24 && minute < 60 && second < 60 && millis < 1000
    }

    function UnixMs(): int
      requires InRange()
    {
      ((((DayNumber(date) * 24) + hour) * 60 + minute) * 60 + second) * 1000 + millis
    }
  }

  function MomentOf(ms: nat): Moment {
    var secs := ms / 1000;
    var sod := secs % 86_400;
    Moment(CivilFromDays(secs / 86_400), sod / 3600, sod % 3600 / 60, sod % 60, ms % 1000)
  }

  /** The printed fields name the instant. */
  lemma MomentExact(ms: nat)
    ensures MomentOf(ms).InRange() && MomentOf(ms).UnixMs() == ms
  {
    var secs := ms / 1000;
    CivilInverts(secs / 86_400);
    TimeOfDay(secs % 86_400);
    Regroup(secs / 86_400, MomentOf(ms).hour, MomentOf(ms).minute, MomentOf(ms).second);
    assert ms == secs * 1000 + ms % 1000;
  }

  lemma TimeOfDay(sod: nat)
    requires sod < 86_400
    ensures sod / 3600 < 24 && sod % 3600 / 60 < 60
    ensures (sod / 3600 * 60 + sod % 3600 / 60) * 60 + sod % 60 == sod
  {
    var m := sod % 3600;
    assert sod == sod / 3600 * 3600 + m && m == m / 60 * 60 + m % 60;
    assert sod % 60 == m % 60 by {
      assert sod == 60 * (60 * (sod / 3600) + m / 60) + m % 60;
    }
  }

  lemma Regroup(days: int, h: int, m: int, s: int)
    ensures ((days * 24 + h) * 60 + m) * 60 + s == days * 86_400 + ((h * 60 + m) * 60 + s)
  {
  }

  /** Exactly `w` decimal digits. */
  function Digits(n: nat, w: nat): (s: string)
    ensures |s| == w
  {
    if w == 0 then "" else Digits(n / 10, w - 1) + ["0123456789"[n % 10]]
  }

  function Decimal(n: nat): string {
    if n < 10 then ["0123456789"[n]] else Decimal(n / 10) + ["0123456789"[n % 10]]
  }

  function Pow10(w: nat): nat {
    if w == 0 then 1 else 10 * Pow10(w - 1)
  }

  /** `{n:0w}`: zero-padded to `w` digits, longer when the number needs more. */
  function Padded(n: nat, w: nat): string {
    if n < Pow10(w) then Digits(n, w) else Decimal(n)
  }

  /** The number a text of digits denotes. */
  function Value(s: string): int {
    if s == "" then 0 else 10 * Value(s[..|s| - 1]) + (s[|s| - 1] as int - '0' as int)
  }

  lemma {:induction false} DigitsReadBack(n: nat, w: nat)
    requires n < Pow10(w)
    ensures Value(Digits(n, w)) == n
  {
    if w > 0 {
      DigitsReadBack(n / 10, w - 1);
      assert Digits(n, w)[..w - 1] == Digits(n / 10, w - 1);
    }
  }

  function FormatUtcMs(ms: nat): string
  {
    var m := MomentOf(ms);
    CivilInverts(ms / 1000 / 86_400);
    YearFrom1970(m.date);
    Printed(m.date.year, m.date.month, m.date.day, m.hour, m.minute, m.second, m.millis)
  }

  lemma YearFrom1970(d: Date)
    requires Valid(d) && DayNumber(d) >= 0
    ensures d.year >= 1970
  {
    WithinYear(d);
    if d.year < 1970 {
      YearsInOrder(d.year + 1, 1970);
      assert false;
    }
  }

  /** The instant a 24-character time text names. */
  function ReadUtcMs(t: string): int
    requires |t| == 24
  {
    var month, day := Value(t[5..7]), Value(t[8..10]);
    if 1 <= month <= 12 && day >= 0 then
      ((((DayNumber(Date(Value(t[..4]), month, day)) * 24) + Value(t[11..13])) * 60 + Value(t[14..16])) * 60
       + Value(t[17..19])) * 1000 + Value(t[20..23])
    else -1
  }

  /** The first millisecond of the year 10000. */
  const FIVE_DIGIT_YEARS := 253_402_300_800_000

  lemma FourDigitYear(d: Date)
    requires Valid(d) && DayNumber(d) < FIVE_DIGIT_YEARS / 86_400_000
    ensures d.year <= 9999
  {
    WithinYear(d);
    YearStartClosed(10_000);
    if d.year >= 10_000 {
      YearsInOrder(10_000, d.year);
      assert false;
    }
  }

  /** Up to the year 9999 the text has 24 characters and names exactly its instant. */
  lemma FormatReadsBack(ms: nat)
    requires ms < FIVE_DIGIT_YEARS
    ensures |FormatUtcMs(ms)| == 24 && ReadUtcMs(FormatUtcMs(ms)) == ms
  {
    MomentExact(ms);
    MomentYear(ms);
    PrintedReadsBack(MomentOf(ms));
  }

  lemma MomentYear(ms: nat)
    requires ms < FIVE_DIGIT_YEARS
    ensures 1970 <= MomentOf(ms).date.year <= 9999
  {
    var days := ms / 1000 / 86_400;
    assert days < FIVE_DIGIT_YEARS / 86_400_000;
    CivilInverts(days);
    FourDigitYear(CivilFromDays(days));
    YearFrom1970(CivilFromDays(days));
  }

  lemma PrintedReadsBack(m: Moment)
    requires m.InRange() && 0 <= m.date.year <= 9999
    ensures var t := Printed(m.date.year, m.date.month, m.date.day, m.hour, m.minute, m.second, m.millis);
            |t| == 24 && ReadUtcMs(t) == m.UnixMs()
  {
    FieldsReadBack(m.date.year, m.date.month, m.date.day, m.hour, m.minute, m.second, m.millis);
    var t := Printed(m.date.year, m.date.month, m.date.day, m.hour, m.minute, m.second, m.millis);
    assert Date(Value(t[..4]), Value(t[5..7]), Value(t[8..10])) == m.date;
  }

  /** The fields of a moment as printed. */
  function Printed(year: nat, month: nat, day: nat, hour: nat, minute: nat, second: nat, millis: nat): string {
    Padded(year, 4) + "-" + Padded(month, 2) + "-" + Padded(day, 2) + "T"
    + Padded(hour, 2) + ":" + Padded(minute, 2) + ":" + Padded(second, 2) + "." + Padded(millis, 3) + "Z"
  }

  /** Each field stands where the reader looks for it and denotes its number. */
  lemma FieldsReadBack(year: nat, month: nat, day: nat, hour: nat, minute: nat, second: nat, millis: nat)
    requires year < 10_000 && month < 100 && day < 100 && hour < 100 && minute < 100 && second < 100 && millis < 1000
    ensures var t := Printed(year, month, day, hour, minute, second, millis);
            && |t| == 24 && Value(t[..4]) == year && Value(t[5..7]) == month && Value(t[8..10]) == day
            && Value(t[11..13]) == hour && Value(t[14..16]) == minute && Value(t[17..19]) == second && Value(t[20..23]) == millis
  {
    FourDigits(year);
    TwoDigits(month);
    TwoDigits(day);
    TwoDigits(hour);
    TwoDigits(minute);
    TwoDigits(second);
    ThreeDigits(millis);
    Layout(Padded(year, 4), Padded(month, 2), Padded(day, 2), Padded(hour, 2), Padded(minute, 2), Padded(second, 2), Padded(millis, 3));
  }

  lemma Layout(y: string, mo: string, d: string, h: string, mi: string, s: string, ms: string)
    requires |y| == 4 && |mo| == |d| == |h| == |mi| == |s| == 2 && |ms| == 3
    ensures var t := y + "-" + mo + "-" + d + "T" + h + ":" + mi + ":" + s + "." + ms + "Z";
            && |t| == 24 && t[..4] == y && t[5..7] == mo && t[8..10] == d
            && t[11..13] == h && t[14..16] == mi && t[17..19] == s && t[20..23] == ms
  {
  }

  lemma TwoDigits(n: nat)
    requires n < 100
    ensures |Padded(n, 2)| == 2 && Value(Padded(n, 2)) == n
  {
    assert Pow10(2) == 10 * Pow10(1) && Pow10(1) == 10;
    DigitsReadBack(n, 2);
  }

  lemma ThreeDigits(n: nat)
    requires n < 1000
    ensures |Padded(n, 3)| == 3 && Value(Padded(n, 3)) == n
  {
    assert Pow10(3) == 10 * Pow10(2) && Pow10(2) == 10 * Pow10(1) && Pow10(1) == 10;
    DigitsReadBack(n, 3);
  }

  lemma FourDigits(n: nat)
    requires n < 10_000
    ensures |Padded(n, 4)| == 4 && Value(Padded(n, 4)) == n
  {
    assert Pow10(4) == 10 * Pow10(3) && Pow10(3) == 10 * Pow10(2) && Pow10(2) == 10 * Pow10(1) && Pow10(1) == 10;
    DigitsReadBack(n, 4);
  }
}
