/** UTC stamps: seconds to calendar time, and the text order of the two stamp formats. */
module Stamps {
  import opened Prelude
  import opened Text
  import opened Calendar

  datatype DateTime = DateTime(date: Date, hour: nat, minute: nat, second: nat)

  function SplitTime(secs: nat): DateTime {
    var rem := secs % 86_400;
    DateTime(CivilFromDays(secs / 86_400), rem / 3600, rem % 3600 / 60, rem % 60)
  }

  predicate ValidTime(t: DateTime) {
    ValidDate(t.date) && t.hour < 24 && t.minute < 60 && t.second < 60
  }

  function Seconds(t: DateTime): int
    requires ValidTime(t)
  {
    DaysFromCivil(t.date) * 86_400 + t.hour * 3600 + t.minute * 60 + t.second
  }

  /** Splitting is one to one: the parts give the seconds back, and any valid date-time
      from 1970 on is the split of its own seconds. */
  lemma SplitOfSeconds(secs: nat)
    ensures ValidTime(SplitTime(secs)) && Seconds(SplitTime(secs)) == secs
  {
    hide CivilFromDays, DaysFromCivil, ValidDate;
    DaysOfCivil(secs / 86_400);
  }

  lemma SecondsOfSplit(t: DateTime)
    requires ValidTime(t) && DaysFromCivil(t.date) >= 0
    ensures Seconds(t) >= 0 && SplitTime(Seconds(t)) == t
  {
    hide CivilFromDays, DaysFromCivil, ValidDate;
    CivilOfDays(t.date);
    var day, rem := DaysFromCivil(t.date), t.hour * 3600 + t.minute * 60 + t.second;
    ClockOfParts(t.hour, t.minute, t.second);
    DayAndRest(day, rem);
  }

  lemma ClockOfParts(h: nat, m: nat, s: nat)
    requires h < 24 && m < 60 && s < 60
    ensures var rem := h * 3600 + m * 60 + s;
      rem < 86_400 && rem / 3600 == h && rem % 3600 / 60 == m && rem % 60 == s
  {
    var rem := h * 3600 + m * 60 + s;
    assert rem / 3600 == h && rem % 3600 == m * 60 + s;
    assert rem % 60 == s by { assert rem == 60 * (60 * h + m) + s; }
  }

  lemma DayAndRest(day: nat, rem: nat)
    requires rem < 86_400
    ensures (day * 86_400 + rem) / 86_400 == day && (day * 86_400 + rem) % 86_400 == rem
  {
  }

  // -- order of dates ------------------------------------------------------------------------

  predicate DateLess(a: Date, b: Date) {
    a.year < b.year || (a.year == b.year && (a.month < b.month || (a.month == b.month && a.day < b.day)))
  }

  lemma {:induction false} LaterDayLaterDate(a: int, b: int)
    requires a < b
    ensures DateLess(CivilFromDays(a), CivilFromDays(b))
    decreases b - a
  {
    hide CivilFromDays;
    CivilSteps(b - 1);
    CivilIsValid(b - 1);
    if a < b - 1 { LaterDayLaterDate(a, b - 1); }
  }

  // -- text order ------------------------------------------------------------------------------

  predicate TextLess(a: string, b: string) {
    if b == [] then false
    else if a == [] then true
    else a[0] < b[0] || (a[0] == b[0] && TextLess(a[1..], b[1..]))
  }

  lemma {:induction false} TextLessAppend(a: string, b: string, x: string, y: string)
    requires |a| == |b|
    ensures TextLess(a + x, b + y) <==> TextLess(a, b) || (a == b && TextLess(x, y))
  {
    if a == [] {
      assert a + x == x && b + y == y;
    } else {
      TextLessAppend(a[1..], b[1..], x, y);
      assert (a + x)[1..] == a[1..] + x && (b + y)[1..] == b[1..] + y;
      assert a == [a[0]] + a[1..] && b == [b[0]] + b[1..];
    }
  }

  lemma {:induction false} NotLessThanItself(a: string)
    ensures !TextLess(a, a)
  {
    if a != [] { NotLessThanItself(a[1..]); }
  }

  /** Digit strings of one length are ordered as the numbers they denote. */
  lemma {:induction false} DigitOrder(a: string, b: string)
    requires AllDigits(a) && AllDigits(b) && |a| == |b|
    ensures TextLess(a, b) <==> Value(a) < Value(b)
    ensures Value(a) == Value(b) ==> a == b
  {
    if a != [] {
      var n := |a| - 1;
      DigitOrder(a[..n], b[..n]);
      TextLessAppend(a[..n], b[..n], a[n..], b[n..]);
      assert a == a[..n] + a[n..] && b == b[..n] + b[n..];
    }
  }

  function Zeros(n: nat): (s: string)
    ensures |s| == n && forall i :: 0 <= i < n ==> s[i] == '0'
  {
    if n == 0 then "" else Zeros(n - 1) + "0"
  }

  /** Decimal with leading zeros, at least `w` digits. */
  function Pad(w: nat, n: nat): (s: string)
    ensures AllDigits(s)
  {
    var d := Decimal(n);
    if |d| < w then Zeros(w - |d|) + d else d
  }

  lemma ValueAppend(d: string, c: char)
    requires AllDigits(d) && IsDigit(c)
    ensures Value(d + [c]) == 10 * Value(d) + DigitValue(c)
  {
    assert (d + [c])[..|d|] == d;
  }

  lemma {:induction false} ZerosAreNothing(k: nat)
    ensures Value(Zeros(k)) == 0
  {
    hide Value;
    if k == 0 {
      assert Value([]) == 0 by { NoDigits(); }
    } else {
      ZerosAreNothing(k - 1);
      ValueAppend(Zeros(k - 1), '0');
    }
  }

  lemma NoDigits()
    ensures Value([]) == 0
  {
  }

  lemma {:induction false} ValueOfZeros(k: nat, d: string)
    requires AllDigits(d)
    ensures Value(Zeros(k) + d) == Value(d)
  {
    hide Value, Zeros;
    if d == [] {
      NoDigits();
      ZerosAreNothing(k);
      assert Zeros(k) + d == Zeros(k);
    } else {
      var n := |d| - 1;
      ValueOfZeros(k, d[..n]);
      ValueAppend(Zeros(k) + d[..n], d[n]);
      ValueAppend(d[..n], d[n]);
      assert (Zeros(k) + d[..n]) + [d[n]] == Zeros(k) + d && d[..n] + [d[n]] == d;
    }
  }

  function Pow10(w: nat): nat { if w == 0 then 1 else 10 * Pow10(w - 1) }

  lemma {:induction false} DecimalLength(w: nat, n: nat)
    requires w > 0 && n < Pow10(w)
    ensures |Decimal(n)| <= w
  {
    if n >= 10 { DecimalLength(w - 1, n / 10); }
  }

  /** Padded numbers that fit the width have exactly that width, and their own value. */
  lemma PadFits(w: nat, n: nat)
    requires w > 0 && n < Pow10(w)
    ensures |Pad(w, n)| == w && Value(Pad(w, n)) == n
  {
    DecimalLength(w, n);
    ValueOfDecimal(n);
    ValueOfZeros(w - |Decimal(n)|, Decimal(n));
  }

  lemma NumberOrder(w: nat, m: nat, n: nat, x: string, y: string)
    requires w > 0 && m < Pow10(w) && n < Pow10(w)
    ensures TextLess(Pad(w, m) + x, Pad(w, n) + y) <==> m < n || (m == n && TextLess(x, y))
  {
    PadFits(w, m);
    PadFits(w, n);
    DigitOrder(Pad(w, m), Pad(w, n));
    TextLessAppend(Pad(w, m), Pad(w, n), x, y);
  }

  lemma SeparatorOrder(sep: string, x: string, y: string)
    ensures TextLess(sep + x, sep + y) <==> TextLess(x, y)
  {
    NotLessThanItself(sep);
    TextLessAppend(sep, sep, x, y);
  }

  // -- the stamps ------------------------------------------------------------------------------

  /** The separators of a stamp format. */
  datatype Format = Format(date: string, time: string, clock: string, end: string)

  /** `2026-07-22T09:31:07Z`, the sidecar format. */
  const RFC3339 := Format("-", "T", ":", "Z")
  /** `20260722-093107`, used in session ids. */
  const COMPACT := Format("", "-", "", "")

  function ClockText(f: Format, t: DateTime): string {
    Pad(2, t.hour) + (f.clock + (Pad(2, t.minute) + (f.clock + (Pad(2, t.second) + f.end))))
  }

  function TimeText(f: Format, t: DateTime): string
    requires t.date.year >= 0 && t.date.month >= 0 && t.date.day >= 0
  {
    Pad(4, t.date.year) + (f.date + (Pad(2, t.date.month)
                                     + (f.date + (Pad(2, t.date.day) + (f.time + ClockText(f, t))))))
  }

  predicate ClockLess(a: DateTime, b: DateTime) {
    a.hour < b.hour || (a.hour == b.hour && (a.minute < b.minute || (a.minute == b.minute && a.second < b.second)))
  }

  predicate TimeLess(a: DateTime, b: DateTime) {
    DateLess(a.date, b.date) || (a.date == b.date && ClockLess(a, b))
  }

  lemma ClockTextOrder(f: Format, a: DateTime, b: DateTime)
    requires ValidTime(a) && ValidTime(b)
    ensures TextLess(ClockText(f, a), ClockText(f, b)) <==> ClockLess(a, b)
  {
    hide Pad, TextLess;
    var s, t := Pad(2, a.second) + f.end, Pad(2, b.second) + f.end;
    var u, v := Pad(2, a.minute) + (f.clock + s), Pad(2, b.minute) + (f.clock + t);
    assert Pow10(2) == 100;
    NotLessThanItself(f.end);
    NumberOrder(2, a.second, b.second, f.end, f.end);
    SeparatorOrder(f.clock, s, t);
    NumberOrder(2, a.minute, b.minute, f.clock + s, f.clock + t);
    SeparatorOrder(f.clock, u, v);
    NumberOrder(2, a.hour, b.hour, f.clock + u, f.clock + v);
  }

  lemma TimeTextOrder(f: Format, a: DateTime, b: DateTime)
    requires ValidTime(a) && ValidTime(b) && 0 <= a.date.year <= 9999 && 0 <= b.date.year <= 9999
    ensures TextLess(TimeText(f, a), TimeText(f, b)) <==> TimeLess(a, b)
  {
    hide Pad, TextLess, ClockText, ClockLess;
    ClockTextOrder(f, a, b);
    var s, t := ClockText(f, a), ClockText(f, b);
    var u, v := Pad(2, a.date.day) + (f.time + s), Pad(2, b.date.day) + (f.time + t);
    var x, y := Pad(2, a.date.month) + (f.date + u), Pad(2, b.date.month) + (f.date + v);
    assert Pow10(2) == 100 && Pow10(4) == 10_000;
    SeparatorOrder(f.time, s, t);
    NumberOrder(2, a.date.day, b.date.day, f.time + s, f.time + t);
    SeparatorOrder(f.date, u, v);
    NumberOrder(2, a.date.month, b.date.month, f.date + u, f.date + v);
    SeparatorOrder(f.date, x, y);
    NumberOrder(4, a.date.year, b.date.year, f.date + x, f.date + y);
  }

  /** The clock is the second of the day in mixed radix. */
  lemma ClockParts(rem: nat)
    requires rem < 86_400
    ensures rem == 3600 * (rem / 3600) + 60 * (rem % 3600 / 60) + rem % 60
    ensures rem / 3600 < 24 && rem % 3600 / 60 < 60
  {
    var m := rem % 3600;
    assert m == 60 * (m / 60) + m % 60;
    assert rem == 3600 * (rem / 3600) + m;
    assert m % 60 == rem % 60;
  }

  lemma LaterClock(s: DateTime, t: DateTime)
    requires s.minute < 60 && s.second < 60 && t.minute < 60 && t.second < 60
    requires 3600 * s.hour + 60 * s.minute + s.second < 3600 * t.hour + 60 * t.minute + t.second
    ensures ClockLess(s, t)
  {
  }

  lemma SplitOrder(a: nat, b: nat)
    requires a < b
    ensures TimeLess(SplitTime(a), SplitTime(b))
  {
    hide CivilFromDays, ClockLess;
    if a / 86_400 < b / 86_400 {
      LaterDayLaterDate(a / 86_400, b / 86_400);
    } else {
      ClockParts(a % 86_400);
      ClockParts(b % 86_400);
      LaterClock(SplitTime(a), SplitTime(b));
    }
  }

  lemma YearsFromEpoch(secs: nat)
    ensures 1970 <= SplitTime(secs).date.year && ValidTime(SplitTime(secs))
  {
    hide CivilFromDays, ValidDate, DaysFromCivil;
    SplitOfSeconds(secs);
    YearOfDay(secs / 86_400);
  }

  lemma YearOfDay(day: nat)
    ensures 1970 <= CivilFromDays(day).year && ValidDate(CivilFromDays(day))
  {
    EpochIsDayZero();
    CivilIsValid(day);
    hide CivilFromDays;
    if day > 0 { LaterDayLaterDate(0, day); }
  }

  function Stamp(f: Format, secs: nat): string {
    YearsFromEpoch(secs);
    TimeText(f, SplitTime(secs))
  }

  /** As long as no year has five digits, stamps sort as text exactly as the seconds do. */
  lemma StampOrder(f: Format, a: nat, b: nat)
    requires SplitTime(a).date.year <= 9999 && SplitTime(b).date.year <= 9999
    ensures TextLess(Stamp(f, a), Stamp(f, b)) <==> a < b
  {
    hide SplitTime, TimeText, TextLess;
    YearsFromEpoch(a);
    YearsFromEpoch(b);
    TimeTextOrder(f, SplitTime(a), SplitTime(b));
    if a < b { SplitOrder(a, b); }
    if b < a { SplitOrder(b, a); }
  }

  const LAST_SECOND_OF_9999: nat := 253_402_300_799

  lemma TheYear10000()
    ensures SplitTime(LAST_SECOND_OF_9999).date.year == 9999
    ensures SplitTime(LAST_SECOND_OF_9999 + 1).date.year == 10_000
  {
    hide CivilFromDays;
    var last := Date(9999, 12, 31);
    assert DaysFromCivil(last) == 2_932_896;
    CivilOfDays(last);
    CivilSteps(2_932_896);
    assert LAST_SECOND_OF_9999 / 86_400 == 2_932_896 && (LAST_SECOND_OF_9999 + 1) / 86_400 == 2_932_897;
  }

  lemma FiveDigitsSortFirst(f: Format)
    ensures !TextLess(Stamp(f, LAST_SECOND_OF_9999), Stamp(f, LAST_SECOND_OF_9999 + 1))
  {
    hide SplitTime;
    TheYear10000();
    assert Decimal(9) == "9" && Decimal(99) == "99" && Decimal(999) == "999";
    assert Decimal(1) == "1" && Decimal(10) == "10" && Decimal(100) == "100" && Decimal(1000) == "1000";
    assert Pad(4, 9999)[0] == '9' && Pad(4, 10_000)[0] == '1';
    var a, b := Stamp(f, LAST_SECOND_OF_9999), Stamp(f, LAST_SECOND_OF_9999 + 1);
    assert a[0] == '9' && b[0] == '1';
  }

  /** Text order is time order for all stamps up to `n` exactly when `n` is before the
      year 10000. */
  lemma StampOrderIff(f: Format, n: nat)
    ensures (forall a: nat, b: nat :: a <= n && b <= n ==> (TextLess(Stamp(f, a), Stamp(f, b)) <==> a < b))
      <==> SplitTime(n).date.year <= 9999
  {
    hide SplitTime, Stamp, TextLess;
    if SplitTime(n).date.year <= 9999 {
      forall a: nat, b: nat | a <= n && b <= n ensures TextLess(Stamp(f, a), Stamp(f, b)) <==> a < b {
        if a < n { SplitOrder(a, n); }
        if b < n { SplitOrder(b, n); }
        StampOrder(f, a, b);
      }
    } else {
      TheYear10000();
      if n <= LAST_SECOND_OF_9999 {
        if n < LAST_SECOND_OF_9999 { SplitOrder(n, LAST_SECOND_OF_9999); }
        assert false;
      }
      FiveDigitsSortFirst(f);
    }
  }

  lemma KnownSplit()
    ensures SplitTime(1_784_712_667) == DateTime(Date(2026, 7, 22), 9, 31, 7)
  {
    hide CivilFromDays, SplitTime;
    var t := DateTime(Date(2026, 7, 22), 9, 31, 7);
    assert DaysFromCivil(t.date) == 20_656;
    SecondsOfSplit(t);
  }

  lemma KnownDigits()
    ensures Pad(4, 2026) == "2026" && Pad(2, 7) == "07" && Pad(2, 22) == "22" && Pad(2, 9) == "09" && Pad(2, 31) == "31"
  {
    assert Decimal(2) == "2" && Decimal(3) == "3" && Decimal(7) == "7" && Decimal(9) == "9";
    assert Decimal(20) == "20" && Decimal(202) == "202" && Decimal(2026) == "2026";
    assert Zeros(1) == "0" by { assert Zeros(0) == ""; }
  }

  /** A known instant in the two formats. */
  lemma KnownStamps()
    ensures Stamp(RFC3339, 1_784_712_667) == "2026-07-22T09:31:07Z"
    ensures Stamp(COMPACT, 1_784_712_667) == "20260722-093107"
  {
    KnownSplit();
    KnownDigits();
    hide SplitTime, Pad;
  }
}
