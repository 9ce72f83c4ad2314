/**
 Day numbers to Gregorian dates and back, and the two UTC stamps: the calendar
 algorithm against the calendar itself.
 */
module Calendar {
  import opened Prelude
  import opened Text

  // -- the Gregorian calendar ------------------------------------------------------------

  datatype Date = Date(year: int, month: int, day: int)

  predicate IsLeap(y: int) { y % 4 == 0 && (y % 100 != 0 || y % 400 == 0) }

  function DaysInMonth(y: int, m: int): int {
    if m == 2 then (if IsLeap(y) then 29 else 28)
    else if m == 4 || m == 6 || m == 9 || m == 11 then 30
    else 31
  }

  predicate ValidDate(d: Date) {
    1 <= d.month <= 12 && 1 <= d.day <= DaysInMonth(d.year, d.month)
  }

  /** The next day on the calendar. */
  function Successor(d: Date): Date {
    if d.day < DaysInMonth(d.year, d.month) then d.(day := d.day + 1)
    else if d.month < 12 then Date(d.year, d.month + 1, 1)
    else Date(d.year + 1, 1, 1)
  }

  // -- the algorithm -----------------------------------------------------------------------

  /** Year of era from day of era. */
  function YearOfEra(doe: int): int { (doe - doe / 1460 + doe / 36_524 - doe / 146_096) / 365 }

  /** Days before the year `yoe` of an era that starts on 1 March. */
  function DaysBefore(yoe: int): int { 365 * yoe + yoe / 4 - yoe / 100 }

  /** Month from day of year, both counted from 1 March. */
  function MonthFromMarch(doy: int): int { (5 * doy + 2) / 153 }

  function CivilFromDays(days: int): Date {
    var z := days + 719_468;
    var era := if z >= 0 then z / 146_097 else -((146_096 - z) / 146_097);
    var doe := z - era * 146_097;
    var yoe := YearOfEra(doe);
    var y := yoe + era * 400;
    var doy := doe - DaysBefore(yoe);
    var mp := MonthFromMarch(doy);
    var d := doy - (153 * mp + 2) / 5 + 1;
    var m := if mp < 10 then mp + 3 else mp - 9;
    Date(if m <= 2 then y + 1 else y, m, d)
  }

  // -- day of era, by year and day of year ---------------------------------------------------

  /** The year of an era that a March-based year number stands in, and its last day. */
  function YearLength(yoe: int): int { if yoe % 4 == 3 && (yoe % 100 != 99 || yoe == 399) then 366 else 365 }

  lemma YearStep(yoe: int)
    requires 0 <= yoe < 400
    ensures YearLength(yoe) == (if yoe == 399 then 146_097 else DaysBefore(yoe + 1)) - DaysBefore(yoe)
  {
  }

  /** The formula finds the year of any of its days. */
  lemma YearOfEraOfDay(yoe: int, doy: int)
    requires 0 <= yoe < 400 && 0 <= doy < YearLength(yoe)
    ensures 0 <= DaysBefore(yoe) + doy < 146_097
    ensures YearOfEra(DaysBefore(yoe) + doy) == yoe
  {
    var doe := DaysBefore(yoe) + doy;
    var q, s, c, u := yoe / 4, yoe % 4, yoe / 100, yoe % 100;
    YearParts(yoe, q, s, c, u);
    var x := 365 * s + q - c + doy;
    var e := if x >= 1460 then 1 else 0;
    Quotients(doe, q + e, x - 1460 * e, c, 365 * u + (q - 25 * c) + doy);
    NumberOfYears(doe - doe / 1460 + doe / 36_524 - doe / 146_096, yoe, doy - e);
  }

  lemma YearParts(yoe: int, q: int, s: int, c: int, u: int)
    requires 0 <= yoe < 400 && q == yoe / 4 && s == yoe % 4 && c == yoe / 100 && u == yoe % 100
    ensures yoe == 4 * q + s && yoe == 100 * c + u && 0 <= s < 4 && 0 <= u < 100 && 0 <= c < 4
    ensures DaysBefore(yoe) == 365 * yoe + q - c && 0 <= q - 25 * c <= 24 && 4 * (q - 25 * c) <= u
    ensures YearLength(yoe) == 366 ==> s == 3 && (u == 99 ==> c == 3)
  {
  }

  lemma Quotients(doe: int, a: int, x: int, c: int, w: int)
    requires doe == 1460 * a + x && 0 <= x < 1460
    requires doe == 36_524 * c + w && 0 <= c < 4 && 0 <= w <= 36_524 && (w == 36_524 ==> c == 3)
    ensures doe / 1460 == a && doe / 36_524 - doe / 146_096 == c
  {
    assert doe / 146_096 == if c == 3 && w == 36_524 then 1 else 0;
  }

  lemma NumberOfYears(n: int, y: int, r: int)
    requires n == 365 * y + r && 0 <= r < 365
    ensures n / 365 == y
  {
  }

  /** Every day of an era lies in one of its 400 years. */
  lemma YearExists(doe: int) returns (yoe: int)
    requires 0 <= doe < 146_097
    ensures 0 <= yoe < 400 && 0 <= doe - DaysBefore(yoe) < YearLength(yoe)
  {
    yoe := 0;
    while doe - DaysBefore(yoe) >= YearLength(yoe)
      invariant 0 <= yoe < 400 && DaysBefore(yoe) <= doe
      decreases 400 - yoe
    {
      YearStep(yoe);
      yoe := yoe + 1;
    }
  }

  lemma YearOfEraBrackets(doe: int)
    requires 0 <= doe < 146_097
    ensures 0 <= YearOfEra(doe) < 400
    ensures 0 <= doe - DaysBefore(YearOfEra(doe)) < YearLength(YearOfEra(doe))
  {
    var yoe := YearExists(doe);
    YearOfEraOfDay(yoe, doe - DaysBefore(yoe));
  }

  // -- from a March-based year and day to a date ------------------------------------------------

  /** The date `doy` days after 1 March of year `y`. */
  function FromMarch(y: int, doy: int): Date {
    var mp := MonthFromMarch(doy);
    var m := if mp < 10 then mp + 3 else mp - 9;
    Date(if m <= 2 then y + 1 else y, m, doy - (153 * mp + 2) / 5 + 1)
  }

  lemma FromMarchIsValid(y: int, doy: int)
    requires 0 <= doy < (if IsLeap(y + 1) then 366 else 365)
    ensures ValidDate(FromMarch(y, doy))
  {
  }

  lemma FromMarchSteps(y: int, doy: int)
    requires 0 <= doy < (if IsLeap(y + 1) then 365 else 364)
    ensures FromMarch(y, doy + 1) == Successor(FromMarch(y, doy))
  {
  }

  lemma YearEndSteps(y: int)
    ensures Successor(FromMarch(y, if IsLeap(y + 1) then 365 else 364)) == FromMarch(y + 1, 0)
  {
  }

  /** The era of a day number: floor division, written for truncating division. */
  function Era(z: int): int { if z >= 0 then z / 146_097 else -((146_096 - z) / 146_097) }

  lemma EraIsFloor(z: int)
    ensures Era(z) == z / 146_097
  {
  }

  lemma EraLength(era: int, yoe: int)
    requires 0 <= yoe < 400
    ensures YearLength(yoe) == if IsLeap(yoe + era * 400 + 1) then 366 else 365
  {
    LeapRepeats(yoe + 1, era);
  }

  lemma LeapRepeats(y: int, era: int)
    ensures IsLeap(y + era * 400) == IsLeap(y)
  {
    var k := y + era * 400;
    LeapByParts(y, y / 400, y % 400);
    assert k == 400 * (y / 400 + era) + y % 400;
    LeapByParts(k, y / 400 + era, y % 400);
  }

  lemma LeapByParts(y: int, a: int, b: int)
    requires y == 400 * a + b && 0 <= b < 400
    ensures IsLeap(y) == (b % 4 == 0 && (b % 100 != 0 || b == 0))
  {
    assert y == 100 * (4 * a + b / 100) + b % 100;
    assert y == 4 * (100 * a + b / 4) + b % 4;
    RemainderOf100(y, 4 * a + b / 100, b % 100);
    RemainderOf4(y, 100 * a + b / 4, b % 4);
  }

  lemma RemainderOf100(y: int, a: int, r: int)
    requires y == 100 * a + r && 0 <= r < 100
    ensures y % 100 == r
  {
  }

  lemma RemainderOf4(y: int, a: int, r: int)
    requires y == 4 * a + r && 0 <= r < 4
    ensures y % 4 == r
  {
  }

  lemma CivilSplits(days: int) returns (era: int, yoe: int, doy: int)
    ensures days + 719_468 == era * 146_097 + DaysBefore(yoe) + doy
    ensures 0 <= yoe < 400 && 0 <= doy < YearLength(yoe)
    ensures CivilFromDays(days) == FromMarch(yoe + era * 400, doy)
  {
    var z := days + 719_468;
    EraIsFloor(z);
    era := Era(z);
    var doe := z - era * 146_097;
    YearOfEraBrackets(doe);
    yoe := YearOfEra(doe);
    doy := doe - DaysBefore(yoe);
  }

  lemma CivilOfParts(era: int, yoe: int, doy: int)
    requires 0 <= yoe < 400 && 0 <= doy < YearLength(yoe)
    ensures CivilFromDays(era * 146_097 + DaysBefore(yoe) + doy - 719_468) == FromMarch(yoe + era * 400, doy)
  {
    var z := era * 146_097 + DaysBefore(yoe) + doy;
    YearOfEraOfDay(yoe, doy);
    EraIsFloor(z);
    assert z / 146_097 == era;
  }

  // -- the main results ---------------------------------------------------------------------------

  /** Every day number gives a date that is on the calendar. */
  lemma CivilIsValid(days: int)
    ensures ValidDate(CivilFromDays(days))
  {
    var era, yoe, doy := CivilSplits(days);
    EraLength(era, yoe);
    FromMarchIsValid(yoe + era * 400, doy);
  }

  lemma EpochIsDayZero()
    ensures CivilFromDays(0) == Date(1970, 1, 1)
  {
  }

  /** The next day number is the next day. */
  lemma CivilSteps(days: int)
    ensures CivilFromDays(days + 1) == Successor(CivilFromDays(days))
  {
    hide CivilFromDays, FromMarch, Successor;
    var era, yoe, doy := CivilSplits(days);
    var y := yoe + era * 400;
    EraLength(era, yoe);
    if doy + 1 < YearLength(yoe) {
      CivilOfParts(era, yoe, doy + 1);
      FromMarchSteps(y, doy);
    } else {
      YearEndSteps(y);
      YearStep(yoe);
      if yoe == 399 { CivilOfParts(era + 1, 0, 0); } else { CivilOfParts(era, yoe + 1, 0); }
    }
  }

  // -- the inverse ---------------------------------------------------------------------------------

  /** The day number of a date, from the March-based year and day. */
  function DaysFromCivil(d: Date): int
    requires ValidDate(d)
  {
    var y := if d.month <= 2 then d.year - 1 else d.year;
    var mp := if d.month > 2 then d.month - 3 else d.month + 9;
    var doy := (153 * mp + 2) / 5 + d.day - 1;
    var era := y / 400;
    era * 146_097 + DaysBefore(y % 400) + doy - 719_468
  }

  lemma MarchOfDate(d: Date) returns (y: int, doy: int)
    requires ValidDate(d)
    ensures 0 <= doy < (if IsLeap(y + 1) then 366 else 365)
    ensures FromMarch(y, doy) == d
    ensures DaysFromCivil(d) == (y / 400) * 146_097 + DaysBefore(y % 400) + doy - 719_468
  {
    y := if d.month <= 2 then d.year - 1 else d.year;
    var mp := if d.month > 2 then d.month - 3 else d.month + 9;
    doy := (153 * mp + 2) / 5 + d.day - 1;
    assert MonthFromMarch(doy) == mp;
  }

  /** The day count undoes the algorithm, and the algorithm undoes the day count. */
  lemma CivilOfDays(d: Date)
    requires ValidDate(d)
    ensures CivilFromDays(DaysFromCivil(d)) == d
  {
    hide CivilFromDays, FromMarch, DaysFromCivil, IsLeap;
    var y, doy := MarchOfDate(d);
    assert y == y % 400 + (y / 400) * 400;
    EraLength(y / 400, y % 400);
    CivilOfParts(y / 400, y % 400, doy);
  }

  lemma FromMarchDays(y: int, doy: int)
    requires 0 <= doy < (if IsLeap(y + 1) then 366 else 365)
    ensures ValidDate(FromMarch(y, doy))
    ensures DaysFromCivil(FromMarch(y, doy)) == (y / 400) * 146_097 + DaysBefore(y % 400) + doy - 719_468
  {
    FromMarchIsValid(y, doy);
  }

  lemma DaysOfCivil(days: int)
    ensures ValidDate(CivilFromDays(days)) && DaysFromCivil(CivilFromDays(days)) == days
  {
    hide CivilFromDays, FromMarch, DaysFromCivil, IsLeap;
    var era, yoe, doy := CivilSplits(days);
    EraLength(era, yoe);
    FromMarchDays(yoe + era * 400, doy);
    assert (yoe + era * 400) / 400 == era && (yoe + era * 400) % 400 == yoe;
  }
}
