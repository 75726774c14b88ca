/** Gregorian calendar arithmetic: two unrelated day-number formulas, the day-of-year loops,
    and the calendar they all agree on. */
module Calendar {

  datatype Date = Date(year: int, month: int, day: int)

  /** Division that truncates toward zero. */
  function Quot(a: int, b: int): int
    requires b > 0
  {
    if a >= 0 then a / b else -((-a) / b)
  }

  // ---------- The reference calendar ----------

  predicate IsLeapYear(y: int) {
    (y % 4 == 0 && y % 100 != 0) || y % 400 == 0
  }

  const DAYS_PER_MONTH := [31, 28, 31, 30, 31, 30, 31, 31, 30, 31, 30, 31]
  const DAYS_PER_MONTH_LEAP := [31, 29, 31, 30, 31, 30, 31, 31, 30, 31, 30, 31]

  function MonthTable(y: int): (r: seq<int>)
    ensures |r| == 12 && forall i :: 0 <= i < 12 ==> 28 <= r[i] <= 31
  {
    if IsLeapYear(y) then DAYS_PER_MONTH_LEAP else DAYS_PER_MONTH
  }

  predicate Valid(x: Date) {
    1 <= x.month <= 12 && 1 <= x.day <= MonthTable(x.year)[x.month - 1]
  }

  /** The day after. */
  function NextDay(x: Date): (r: Date)
    requires Valid(x)
    ensures Valid(r)
  {
    if x.day < MonthTable(x.year)[x.month - 1] then x.(day := x.day + 1)
    else if x.month < 12 then Date(x.year, x.month + 1, 1)
    else Date(x.year + 1, 1, 1)
  }

  // ---------- The two formulas ----------

  /** Days since 1970-01-01 to a date, by eras of 400 years that begin in March. */
  function CivilFromDays(days: int): Date {
    var z := days + 719468;
    var era := Quot(if z >= 0 then z else z - 146096, 146097);
    CivilOfEra(era, z - era * 146097)
  }

  function CivilOfEra(era: int, doe: int): Date {
    var yoe := YearOfEra(doe);
    CivilOfYear(yoe + era * 400, doe - (365 * yoe + Quot(yoe, 4) - Quot(yoe, 100)))
  }

  function CivilOfYear(y: int, doy: int): Date {
    var mp := Quot(5 * doy + 2, 153);
    var d := doy - Quot(153 * mp + 2, 5) + 1;
    var m := if mp < 10 then mp + 3 else mp - 9;
    Date(if m <= 2 then y + 1 else y, m, d)
  }

  function YearOfEra(doe: int): int {
    Quot(doe - Quot(doe, 1460) + Quot(doe, 36524) - Quot(doe, 146096), 365)
  }

  /** A date to days since 1970-01-01, by way of the Julian day number. */
  function DaysSinceEpoch(x: Date): int {
    var a := Quot(14 - x.month, 12);
    var yy := x.year + 4800 - a;
    var mm := x.month + 12 * a - 3;
    var jdn := x.day + Quot(153 * mm + 2, 5) + 365 * yy + Quot(yy, 4) - Quot(yy, 100) + Quot(yy, 400) - 32045;
    jdn - 2440588
  }

  /** Unix seconds to a date. */
  function UnixSecondsToYmd(secs: int): Date {
    CivilFromDays(if secs >= 0 then Quot(secs, 86400) else Quot(secs - 86399, 86400))
  }

  // ---------- Years counted from March ----------

  /** Days of an era before year `yoe` of the era. */
  function YearStart(yoe: int): int { 365 * yoe + yoe / 4 - yoe / 100 }

  /** Days of a March year before its month `mp`. */
  function MonthStart(mp: int): int { (153 * mp + 2) / 5 }

  /** Does the March year end with a 29 February? */
  predicate LongYear(yoe: int) {
    (yoe + 1) % 4 == 0 && ((yoe + 1) % 100 != 0 || yoe == 399)
  }

  predicate DayOfMarchYear(yoe: int, doy: int) {
    0 <= yoe < 400 && 0 <= doy && doy <= if LongYear(yoe) then 365 else 364
  }

  lemma Div1460(a: int, q: int) requires 1460 * q <= a < 1460 * (q + 1) ensures a / 1460 == q {}
  lemma Div36524(a: int, q: int) requires 36524 * q <= a < 36524 * (q + 1) ensures a / 36524 == q {}
  lemma Div146096(a: int, q: int) requires 146096 * q <= a < 146096 * (q + 1) ensures a / 146096 == q {}
  lemma Div146097(a: int, q: int) requires 146097 * q <= a < 146097 * (q + 1) ensures a / 146097 == q {}
  lemma Div86400(a: int, q: int) requires 86400 * q <= a < 86400 * (q + 1) ensures a / 86400 == q {}
  lemma Div365(a: int, q: int) requires 365 * q <= a < 365 * (q + 1) ensures a / 365 == q {}

  /** A year of an era as century, leap cycle and year of the cycle. */
  lemma YearParts(yoe: int) returns (c: int, q: int, j: int)
    requires 0 <= yoe < 400
    ensures 0 <= c <= 3 && 0 <= q <= 24 && 0 <= j <= 3 && yoe == 100 * c + 4 * q + j
    ensures YearStart(yoe) == 36524 * c + 1461 * q + 365 * j
    ensures LongYear(yoe) ==> j == 3 && (q == 24 ==> c == 3)
  {
    c, q, j := yoe / 100, (yoe % 100) / 4, yoe % 4;
    assert yoe == 100 * c + 4 * q + j;
    assert yoe / 4 == 25 * c + q;
  }

  /** A day that a year of the era can have. */
  predicate DayOfYear(c: int, q: int, j: int, doy: int) {
    && 0 <= c <= 3 && 0 <= q <= 24 && 0 <= j <= 3 && 0 <= doy <= 365
    && (doy == 365 ==> j == 3 && (q == 24 ==> c == 3))
  }

  lemma DayQuotients(c: int, q: int, j: int, doy: int) returns (carry: int, cycle: int)
    requires DayOfYear(c, q, j, doy)
    ensures var doe, rest := 36524 * c + 1461 * q + 365 * j + doy, 365 * j + q + 24 * c + doy;
            && 0 <= doe < 146097
            && carry == (if rest >= 1460 then 1 else 0) && cycle == (if doe == 146096 then 1 else 0)
            && doe / 1460 == 25 * c + q + carry && doe / 36524 == c + cycle && doe / 146096 == cycle
  {
    var doe, rest := 36524 * c + 1461 * q + 365 * j + doy, 365 * j + q + 24 * c + doy;
    assert doe == 1460 * (25 * c + q) + rest && 0 <= rest < 2920;
    carry, cycle := if rest >= 1460 then 1 else 0, if doe == 146096 then 1 else 0;
    Div1460(doe, 25 * c + q + carry);
    Div146096(doe, cycle);
    Div36524(doe, c + cycle);
  }

  lemma YearFormula(c: int, q: int, j: int, doy: int)
    requires DayOfYear(c, q, j, doy)
    ensures var doe := 36524 * c + 1461 * q + 365 * j + doy;
            0 <= doe < 146097 && YearOfEra(doe) == 100 * c + 4 * q + j
  {
    var carry, cycle := DayQuotients(c, q, j, doy);
    Div365(365 * (100 * c + 4 * q + j) + doy - carry, 100 * c + 4 * q + j);
  }

  /** The formula recovers the year from the day of the era. */
  lemma YearOfEraInverts(yoe: int, doy: int)
    requires DayOfMarchYear(yoe, doy)
    ensures YearOfEra(YearStart(yoe) + doy) == yoe
    ensures 0 <= YearStart(yoe) + doy < 146097
  {
    var c, q, j := YearParts(yoe);
    YearFormula(c, q, j, doy);
  }

  /** Every day of an era belongs to a year. */
  lemma DayHasYear(doe: int) returns (yoe: int, doy: int)
    requires 0 <= doe < 146097
    ensures DayOfMarchYear(yoe, doy) && doe == YearStart(yoe) + doy
  {
    var c := if doe == 146096 then 3 else doe / 36524;
    var r := doe - 36524 * c;
    var q := r / 1461;
    var t := r - 1461 * q;
    var j := if t == 1460 then 3 else t / 365;
    assert 0 <= c <= 3 && 0 <= r <= 36524 && 0 <= q <= 24 && 0 <= t <= 1460 && 0 <= j <= 3;
    yoe, doy := 100 * c + 4 * q + j, t - 365 * j;
    assert yoe / 4 == 25 * c + q && yoe / 100 == c;
    if doy == 365 {
      assert j == 3 && t == 1460;
      assert (yoe + 1) % 4 == 0;
      if (yoe + 1) % 100 == 0 {
        assert q == 24;
      }
    }
  }

  function MarchMonth(m: int): int { if m > 2 then m - 3 else m + 9 }

  function MarchYear(x: Date): int { if x.month > 2 then x.year else x.year - 1 }

  /** Days before March of a year, in eras. */
  function MarchBase(y: int): int { (y / 400) * 146097 + YearStart(y % 400) }

  /** The day number by eras, for every year. */
  function DayNumber(x: Date): int {
    MarchBase(MarchYear(x)) + MonthStart(MarchMonth(x.month)) + x.day - 1 - 719468
  }

  lemma MonthStarts()
    ensures MonthStart(0) == 0 && MonthStart(1) == 31 && MonthStart(2) == 61 && MonthStart(3) == 92
    ensures MonthStart(4) == 122 && MonthStart(5) == 153 && MonthStart(6) == 184 && MonthStart(7) == 214
    ensures MonthStart(8) == 245 && MonthStart(9) == 275 && MonthStart(10) == 306 && MonthStart(11) == 337
  {
  }

  lemma Mod4(a: int, r: int) ensures (4 * a + r) % 4 == r % 4 {}
  lemma Mod100(a: int, r: int) ensures (100 * a + r) % 100 == r % 100 {}
  lemma Mod400(a: int, r: int) ensures (400 * a + r) % 400 == r % 400 {}

  lemma ModShift(e: int, r: int)
    ensures (400 * e + r) % 4 == r % 4
    ensures (400 * e + r) % 100 == r % 100
    ensures (400 * e + r) % 400 == r % 400
  {
    Mod4(100 * e, r);
    Mod100(4 * e, r);
    Mod400(e, r);
  }

  /** Leap February and long March years are the same thing. */
  lemma LeapIsLong(y: int)
    ensures IsLeapYear(y + 1) <==> LongYear(y % 400)
  {
    var e, r := y / 400, y % 400;
    assert y + 1 == 400 * e + (r + 1);
    ModShift(e, r + 1);
    assert (r + 1) % 400 == 0 <==> r == 399;
  }

  lemma ValidIsDayOfMarchYear(x: Date)
    requires Valid(x)
    ensures DayOfMarchYear(MarchYear(x) % 400, MonthStart(MarchMonth(x.month)) + x.day - 1)
  {
    MonthStarts();
    LeapIsLong(MarchYear(x));
  }

  /** The month formula recovers the month and day from the day of the March year. */
  lemma MonthInverts(mp: int, d: int)
    requires 0 <= mp <= 11 && 1 <= d
    requires mp < 11 ==> MonthStart(mp) + d - 1 < MonthStart(mp + 1)
    requires mp == 11 ==> d <= 29
    ensures (5 * (MonthStart(mp) + d - 1) + 2) / 153 == mp
  {
    MonthStarts();
  }

  lemma DayHasMonth(doy: int) returns (mp: int, d: int)
    requires 0 <= doy <= 365
    ensures 0 <= mp <= 11 && 1 <= d && doy == MonthStart(mp) + d - 1
    ensures mp < 11 ==> MonthStart(mp) + d - 1 < MonthStart(mp + 1)
    ensures mp == 11 ==> d <= 29
  {
    MonthStarts();
    mp := if doy < 31 then 0 else if doy < 61 then 1 else if doy < 92 then 2 else if doy < 122 then 3
          else if doy < 153 then 4 else if doy < 184 then 5 else if doy < 214 then 6 else if doy < 245 then 7
          else if doy < 275 then 8 else if doy < 306 then 9 else if doy < 337 then 10 else 11;
    d := doy - MonthStart(mp) + 1;
  }

  /** Year, month and day of an era stand for a day. */
  ghost predicate EraDay(yoe: int, mp: int, d: int) {
    && 0 <= mp <= 11 && 1 <= d
    && DayOfMarchYear(yoe, MonthStart(mp) + d - 1)
    && (mp < 11 ==> MonthStart(mp) + d - 1 < MonthStart(mp + 1))
  }

  function EraNumber(era: int, yoe: int, mp: int, d: int): int {
    era * 146097 + YearStart(yoe) + MonthStart(mp) + d - 1 - 719468
  }

  function EraDate(era: int, yoe: int, mp: int, d: int): Date {
    Date(era * 400 + yoe + (if mp < 10 then 0 else 1), if mp < 10 then mp + 3 else mp - 9, d)
  }

  /** The first formula, free of truncation. */
  lemma CivilByEra(era: int, yoe: int, mp: int, d: int)
    requires EraDay(yoe, mp, d)
    ensures CivilFromDays(EraNumber(era, yoe, mp, d)) == EraDate(era, yoe, mp, d)
  {
    var doy := MonthStart(mp) + d - 1;
    YearOfEraInverts(yoe, doy);
    CivilByDay(EraNumber(era, yoe, mp, d), era, yoe, doy);
    CivilByMonth(yoe + era * 400, yoe, mp, d);
  }

  lemma CivilByDay(days: int, era: int, yoe: int, doy: int)
    requires DayOfMarchYear(yoe, doy) && days + 719468 == era * 146097 + (YearStart(yoe) + doy)
    requires 0 <= YearStart(yoe) + doy < 146097
    ensures CivilFromDays(days) == CivilOfYear(yoe + era * 400, doy)
  {
    CivilEra(days, era, YearStart(yoe) + doy);
    CivilYear(era, yoe, doy);
  }

  lemma CivilEra(days: int, era: int, doe: int)
    requires days + 719468 == era * 146097 + doe && 0 <= doe < 146097
    ensures CivilFromDays(days) == CivilOfEra(era, doe)
  {
    EraOf(days + 719468, era, doe);
    CivilIs(days, era);
  }

  lemma CivilIs(days: int, era: int)
    requires var z := days + 719468; Quot(if z >= 0 then z else z - 146096, 146097) == era
    ensures CivilFromDays(days) == CivilOfEra(era, days + 719468 - era * 146097)
  {
  }

  lemma CivilYear(era: int, yoe: int, doy: int)
    requires DayOfMarchYear(yoe, doy)
    ensures CivilOfEra(era, YearStart(yoe) + doy) == CivilOfYear(yoe + era * 400, doy)
  {
    YearOfEraInverts(yoe, doy);
    assert Quot(yoe, 4) == yoe / 4 && Quot(yoe, 100) == yoe / 100;
  }

  lemma CivilByMonth(y: int, yoe: int, mp: int, d: int)
    requires EraDay(yoe, mp, d)
    ensures CivilOfYear(y, MonthStart(mp) + d - 1)
         == Date(y + (if mp < 10 then 0 else 1), if mp < 10 then mp + 3 else mp - 9, d)
  {
    LongMonth(yoe, mp, d);
    MonthInverts(mp, d);
  }

  /** Every valid date stands for a day of an era. */
  lemma DateHasEra(x: Date) returns (era: int, yoe: int, mp: int, d: int)
    requires Valid(x)
    ensures EraDay(yoe, mp, d) && EraDate(era, yoe, mp, d) == x && EraNumber(era, yoe, mp, d) == DayNumber(x)
  {
    var y := MarchYear(x);
    ValidIsDayOfMarchYear(x);
    MonthStarts();
    era, yoe, mp, d := y / 400, y % 400, MarchMonth(x.month), x.day;
  }

  lemma DivMod400(e: int, r: int)
    requires 0 <= r < 400
    ensures (400 * e + r) / 400 == e && (400 * e + r) % 400 == r
  {
  }

  /** And conversely. */
  lemma EraDateValid(era: int, yoe: int, mp: int, d: int)
    requires EraDay(yoe, mp, d)
    ensures Valid(EraDate(era, yoe, mp, d))
    ensures DayNumber(EraDate(era, yoe, mp, d)) == EraNumber(era, yoe, mp, d)
  {
    var y := 400 * era + yoe;
    DivMod400(era, yoe);
    assert MarchYear(EraDate(era, yoe, mp, d)) == y && MarchMonth(EraDate(era, yoe, mp, d).month) == mp;
    LeapIsLong(y);
    MonthStarts();
  }

  /** Every number stands for a day of an era. */
  lemma NumberHasEra(days: int) returns (era: int, yoe: int, mp: int, d: int)
    ensures EraDay(yoe, mp, d) && EraNumber(era, yoe, mp, d) == days
  {
    var z := days + 719468;
    era := z / 146097;
    var doy;
    yoe, doy := DayHasYear(z % 146097);
    mp, d := DayHasMonth(doy);
  }

  lemma LongMonth(yoe: int, mp: int, d: int)
    requires DayOfMarchYear(yoe, MonthStart(mp) + d - 1) && 0 <= mp <= 11
    ensures mp == 11 ==> d <= 29
  {
    MonthStarts();
  }

  lemma EraOf(z: int, era: int, doe: int)
    requires z == era * 146097 + doe && 0 <= doe < 146097
    ensures Quot(if z >= 0 then z else z - 146096, 146097) == era
  {
    if z < 0 {
      Div146097(146096 - z, -era);
    } else {
      Div146097(z, era);
    }
  }

  // ---------- Main results ----------

  /** From a valid date to its day number and back. */
  lemma CivilInvertsDayNumber(x: Date)
    requires Valid(x)
    ensures CivilFromDays(DayNumber(x)) == x
  {
    var era, yoe, mp, d := DateHasEra(x);
    CivilByEra(era, yoe, mp, d);
  }

  /** Every day number comes from a valid date. */
  lemma CivilIsValid(days: int)
    ensures Valid(CivilFromDays(days))
    ensures DayNumber(CivilFromDays(days)) == days
  {
    var era, yoe, mp, d := NumberHasEra(days);
    CivilByEra(era, yoe, mp, d);
    EraDateValid(era, yoe, mp, d);
  }

  /** Where the Julian formula is used (years from 0 on) it computes the same day number. */
  lemma JulianIsDayNumber(x: Date)
    requires x.year >= 0 && 1 <= x.month <= 12
    ensures DaysSinceEpoch(x) == DayNumber(x)
  {
    var y := MarchYear(x);
    var e, r := y / 400, y % 400;
    var yy := y + 4800;
    assert yy == 400 * (e + 12) + r;
    assert yy / 4 == 100 * (e + 12) + r / 4;
    assert yy / 100 == 4 * (e + 12) + r / 100;
    assert yy / 400 == e + 12;
    assert Quot(14 - x.month, 12) == if x.month <= 2 then 1 else 0;
  }

  /** The two formulas are inverse to each other. */
  lemma DateBijection(x: Date, days: int)
    ensures Valid(x) && x.year >= 0 ==> CivilFromDays(DaysSinceEpoch(x)) == x
    ensures CivilFromDays(days).year >= 0 ==> DaysSinceEpoch(CivilFromDays(days)) == days
    ensures Valid(CivilFromDays(days))
  {
    if Valid(x) && x.year >= 0 {
      JulianIsDayNumber(x);
      CivilInvertsDayNumber(x);
    }
    CivilIsValid(days);
    if CivilFromDays(days).year >= 0 {
      JulianIsDayNumber(CivilFromDays(days));
    }
  }

  lemma EraStep(y: int)
    ensures MarchBase(y + 1) == MarchBase(y) + if LongYear(y % 400) then 366 else 365
  {
    var e, r := y / 400, y % 400;
    if r == 399 {
      assert y + 1 == 400 * (e + 1);
    } else {
      assert (y + 1) / 400 == e && (y + 1) % 400 == r + 1;
      var q := r / 4;
      assert (r + 1) / 4 == if (r + 1) % 4 == 0 then q + 1 else q;
      assert (r + 1) / 100 == if (r + 1) % 100 == 0 then r / 100 + 1 else r / 100;
    }
  }

  /** From a month end other than February's, the March year goes on. */
  lemma MonthEnd(x: Date)
    requires Valid(x) && x.month != 2 && x.day == MonthTable(x.year)[x.month - 1]
    ensures MarchYear(NextDay(x)) == MarchYear(x)
    ensures MonthStart(MarchMonth(NextDay(x).month)) == MonthStart(MarchMonth(x.month)) + x.day
    ensures NextDay(x).day == 1
  {
    MonthStarts();
  }

  lemma NextDayNumber(x: Date)
    requires Valid(x)
    ensures DayNumber(NextDay(x)) == DayNumber(x) + 1
  {
    if x.day < MonthTable(x.year)[x.month - 1] {
      assert NextDay(x) == x.(day := x.day + 1);
    } else if x.month != 2 {
      MonthEnd(x);
    } else {
      FebruaryEnd(x);
    }
  }

  lemma FebruaryEnd(x: Date)
    requires Valid(x) && x.month == 2 && x.day == MonthTable(x.year)[1]
    ensures DayNumber(NextDay(x)) == DayNumber(x) + 1
  {
    LeapIsLong(x.year - 1);
    EraStep(x.year - 1);
    DayOfFebruary(x.year, x.day);
    FirstOfMarch(x.year);
  }

  lemma DayOfFebruary(y: int, d: int)
    ensures DayNumber(Date(y, 2, d)) == MarchBase(y - 1) + 337 + d - 1 - 719468
  {
    MonthStarts();
  }

  lemma FirstOfMarch(y: int)
    ensures DayNumber(Date(y, 3, 1)) == MarchBase(y) - 719468
  {
    MonthStarts();
  }

  /** Day 0 is 1970-01-01. */
  lemma CivilEpoch()
    ensures CivilFromDays(0) == Date(1970, 1, 1)
  {
    var x := Date(1970, 1, 1);
    assert DayNumber(x) == 0;
    CivilInvertsDayNumber(x);
  }

  lemma NextOfNumber(x: Date, days: int)
    requires Valid(x) && DayNumber(x) == days
    ensures CivilFromDays(days + 1) == NextDay(x)
  {
    NextDayNumber(x);
    CivilOf(NextDay(x), days + 1);
  }

  lemma CivilOf(x: Date, days: int)
    requires Valid(x) && DayNumber(x) == days
    ensures CivilFromDays(days) == x
  {
    CivilInvertsDayNumber(x);
  }

  lemma NumberIsValid(days: int) returns (x: Date)
    ensures CivilFromDays(days) == x && Valid(x) && DayNumber(x) == days
  {
    x := CivilFromDays(days);
    CivilIsValid(days);
  }

  /** The first formula counts through the calendar: each next day number is the next day. */
  lemma CivilCounts(days: int)
    ensures Valid(CivilFromDays(days))
    ensures CivilFromDays(days + 1) == NextDay(CivilFromDays(days))
  {
    var x := NumberIsValid(days);
    NextOfNumber(x, days);
  }

  /** Seconds are grouped into days by rounding down, also before the epoch. */
  lemma UnixSecondsFloor(secs: int)
    ensures UnixSecondsToYmd(secs) == CivilFromDays(secs / 86400)
  {
    DaysFloor(secs);
  }

  lemma DaysFloor(secs: int)
    ensures (if secs >= 0 then Quot(secs, 86400) else Quot(secs - 86399, 86400)) == secs / 86400
  {
    if secs < 0 {
      Div86400(86399 - secs, -(secs / 86400));
    }
  }

  // ---------- Day of year ----------

  function DaysBefore(table: seq<int>, months: nat): int
    requires months <= |table|
  {
    if months == 0 then 0 else DaysBefore(table, months - 1) + table[months - 1]
  }

  /** Day of the year. The month table has no thirteenth entry. */
  method YmdToYd(y: int, m: int, d: int) returns (doy: int)
    requires 1 <= m <= 13
    ensures doy == DaysBefore(MonthTable(y), m - 1) + d
  {
    var table := if IsLeapYear(y) then DAYS_PER_MONTH_LEAP else DAYS_PER_MONTH;
    doy := d;
    for i := 0 to m - 1
      invariant doy == DaysBefore(table, i) + d
    {
      doy := doy + table[i];
    }
  }

  /** Month and day in which day `yd` of the year falls, starting the search at month index i
      with `rest` days to go. */
  function MonthDayFrom(table: seq<int>, i: nat, rest: int): (int, int)
    requires i <= |table| == 12
    decreases 12 - i
  {
    if i == 12 then (12, 31)
    else if rest <= table[i] then (i + 1, rest)
    else MonthDayFrom(table, i + 1, rest - table[i])
  }

  method YdToYmd(y: int, yd: int) returns (m: int, d: int)
    ensures (m, d) == MonthDayFrom(MonthTable(y), 0, yd)
  {
    var table := if IsLeapYear(y) then DAYS_PER_MONTH_LEAP else DAYS_PER_MONTH;
    var remaining := yd;
    for i := 0 to 12
      invariant MonthDayFrom(table, 0, yd) == MonthDayFrom(table, i, remaining)
    {
      if remaining <= table[i] {
        return i + 1, remaining;
      }
      remaining := remaining - table[i];
    }
    m, d := 12, 31;
  }

  ghost predicate Positive(table: seq<int>) {
    |table| == 12 && forall i :: 0 <= i < 12 ==> table[i] > 0
  }

  lemma {:induction false} FindsMonth(table: seq<int>, i: nat, m: nat, d: int)
    requires Positive(table) && i < m <= 12 && 1 <= d <= table[m - 1]
    ensures MonthDayFrom(table, i, DaysBefore(table, m - 1) - DaysBefore(table, i) + d) == (m, d)
    decreases m - i
  {
    if i + 1 < m {
      FindsMonth(table, i + 1, m, d);
      DaysBeforeGrows(table, i + 1, m - 1);
    }
  }

  lemma {:induction false} DaysBeforeGrows(table: seq<int>, i: nat, j: nat)
    requires Positive(table) && i <= j <= 12
    ensures DaysBefore(table, i) <= DaysBefore(table, j)
    decreases j - i
  {
    if i < j {
      DaysBeforeGrows(table, i, j - 1);
    }
  }

  /** The day-of-year search undoes the day-of-year sum on valid dates. */
  lemma YdRoundTrip(x: Date)
    requires Valid(x)
    ensures var table := MonthTable(x.year);
            MonthDayFrom(table, 0, DaysBefore(table, x.month - 1) + x.day) == (x.month, x.day)
  {
    FindsMonth(MonthTable(x.year), 0, x.month, x.day);
  }

  lemma {:induction false} SearchInverts(table: seq<int>, i: nat, rest: int)
    requires Positive(table) && i <= 12 && 1 <= rest <= DaysBefore(table, 12) - DaysBefore(table, i)
    ensures var (m, d) := MonthDayFrom(table, i, rest);
            1 <= m <= 12 && 1 <= d <= table[m - 1] && DaysBefore(table, m - 1) + d == DaysBefore(table, i) + rest
    decreases 12 - i
  {
    if rest > table[i] {
      SearchInverts(table, i + 1, rest - table[i]);
    }
  }

  /** The months of a year from March on are those of the March year. */
  lemma YearLength(y: int)
    ensures var table, leap := MonthTable(y), if IsLeapYear(y) then 1 else 0;
            && DaysBefore(table, 1) == 31 && DaysBefore(table, 2) == 59 + leap
            && (forall k: nat :: 2 <= k <= 11 ==> DaysBefore(table, k) == MonthStart(k - 2) + 59 + leap)
            && DaysBefore(table, 12) == 365 + leap
  {
    MonthStarts();
    var t, leap := MonthTable(y), if IsLeapYear(y) then 1 else 0;
    assert DaysBefore(t, 0) == 0;
    assert DaysBefore(t, 1) == 31;
    assert DaysBefore(t, 2) == 59 + leap;
    assert DaysBefore(t, 3) == 90 + leap;
    assert DaysBefore(t, 4) == 120 + leap;
    assert DaysBefore(t, 5) == 151 + leap;
    assert DaysBefore(t, 6) == 181 + leap;
    assert DaysBefore(t, 7) == 212 + leap;
    assert DaysBefore(t, 8) == 243 + leap;
    assert DaysBefore(t, 9) == 273 + leap;
    assert DaysBefore(t, 10) == 304 + leap;
    assert DaysBefore(t, 11) == 334 + leap;
  }

  /** And conversely on the days of the year. */
  lemma {:induction false} YdSearchRoundTrip(y: int, yd: int)
    requires 1 <= yd <= if IsLeapYear(y) then 366 else 365
    ensures var (m, d) := MonthDayFrom(MonthTable(y), 0, yd);
            Valid(Date(y, m, d)) && DaysBefore(MonthTable(y), m - 1) + d == yd
  {
    YearLength(y);
    SearchInverts(MonthTable(y), 0, yd);
  }

  /** The day of the year is the distance from New Year by the Julian formula. */
  lemma YdIsDistance(x: Date)
    requires Valid(x) && x.year >= 0
    ensures DaysBefore(MonthTable(x.year), x.month - 1) + x.day
         == DaysSinceEpoch(x) - DaysSinceEpoch(Date(x.year, 1, 1)) + 1
  {
    JulianIsDayNumber(x);
    JulianIsDayNumber(Date(x.year, 1, 1));
    YearLength(x.year);
    DistanceByEra(x);
  }

  lemma DistanceByEra(x: Date)
    requires Valid(x)
    ensures var leap := if IsLeapYear(x.year) then 1 else 0;
            DayNumber(x) - DayNumber(Date(x.year, 1, 1)) + 1 ==
            if x.month == 1 then x.day
            else if x.month == 2 then 31 + x.day
            else MonthStart(x.month - 3) + 59 + leap + x.day
  {
    MonthStarts();
    LeapIsLong(x.year - 1);
    EraStep(x.year - 1);
  }
}
