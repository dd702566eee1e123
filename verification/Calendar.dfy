/** Epoch seconds to a civil date and an RFC 1123 string, against the calendar counted day by day. */
module Calendar {

  datatype Date = Date(year: nat, month: nat, day: nat)
  datatype Time = Time(date: Date, hour: nat, min: nat, sec: nat)

  // ---------------------------------------------------------------------
  // The arithmetic of the source
  // ---------------------------------------------------------------------

  function YearOfEra(doe: nat): int {
    (doe - doe / 1460 + doe / 36524 - doe / 146096) / 365
  }

  function DayOfYear(doe: nat, yoe: int): int {
    doe - (365 * yoe + yoe / 4 - yoe / 100)
  }

  function MonthIndex(doy: int): int {
    (5 * doy + 2) / 153
  }

  /** The year starting in March that a day lies in, and the day within it; the day count starts at
      the March of year 0. */
  function MarchDate(z: nat): (r: (nat, nat))
    ensures r.1 <= 365
  {
    EraSplit(z);
    var era := z / 146097;
    MarchInEra(era, z - era * 146097)
  }

  function MarchInEra(era: nat, doe: nat): (r: (nat, nat))
    requires doe < 146097
    ensures r.1 <= 365
  {
    hide YearOfEra, DayOfYear, March;
    MarchOf(era, doe);
    var yoe := YearOfEra(doe);
    (yoe + era * 400, DayOfYear(doe, yoe))
  }

  /** The date in the March year `y`. */
  function InMarchYear(y: nat, doy: nat): Date
    requires doy <= 365
  {
    MonthRange(doy);
    var mp := MonthIndex(doy);
    var d := doy - (153 * mp + 2) / 5 + 1;
    var m := if mp < 10 then mp + 3 else mp - 9;
    Date(if m <= 2 then y + 1 else y, m, d)
  }

  function CivilFromDays(days: nat): Date {
    var (y, doy) := MarchDate(days + 719468);
    InMarchYear(y, doy)
  }

  function EpochToCalendar(secs: nat): Time {
    var mins := secs / 60;
    var hours := mins / 60;
    Time(CivilFromDays(hours / 24), hours % 24, mins % 60, secs % 60)
  }

  function Weekday(secs: nat): (dow: nat)
    ensures dow < 7
  {
    (secs / 86400 + 4) % 7
  }

  // ---------------------------------------------------------------------
  // The calendar, day by day
  // ---------------------------------------------------------------------

  predicate Leap(y: nat) {
    y % 4 == 0 && (y % 100 != 0 || y % 400 == 0)
  }

  function DaysIn(y: nat, m: nat): nat {
    if m == 2 then (if Leap(y) then 29 else 28)
    else if m == 4 || m == 6 || m == 9 || m == 11 then 30
    else 31
  }

  function NextDay(t: Date): Date {
    if t.day < DaysIn(t.year, t.month) then t.(day := t.day + 1)
    else if t.month < 12 then Date(t.year, t.month + 1, 1)
    else Date(t.year + 1, 1, 1)
  }

  /** The date `n` days after 1 January 1970. */
  function Nth(n: nat): Date {
    if n == 0 then Date(1970, 1, 1) else NextDay(Nth(n - 1))
  }

  // ---------------------------------------------------------------------
  // Years that start in March
  // ---------------------------------------------------------------------

  /** Days before the March of year `y`, counted from the March of year 0. */
  function March(y: nat): nat {
    365 * y + y / 4 - y / 100 + y / 400
  }

  lemma Quarter(y: nat, n: nat)
    requires n == 4 || n == 100 || n == 400
    ensures (y + 1) / n == y / n + if (y + 1) % n == 0 then 1 else 0
  {
  }

  lemma LeapParts(y: nat)
    ensures y % 100 == 0 ==> y % 4 == 0
    ensures y % 400 == 0 ==> y % 100 == 0
  {
    if y % 100 == 0 { Multiple(25 * (y / 100)); }
    if y % 400 == 0 { Multiple(4 * (y / 400)); }
  }

  lemma Multiple(x: nat)
    ensures (4 * x) % 4 == 0 && (100 * x) % 100 == 0
  {
  }

  lemma MarchYearLength(y: nat)
    ensures March(y + 1) == March(y) + if Leap(y + 1) then 366 else 365
  {
    Quarter(y, 4);
    Quarter(y, 100);
    Quarter(y, 400);
    LeapParts(y + 1);
  }

  lemma {:induction false} MarchGrows(y: nat, y': nat)
    requires y < y'
    ensures March(y + 1) <= March(y')
    decreases y' - y
  {
    if y + 1 < y' {
      MarchYearLength(y + 1);
      MarchGrows(y + 1, y');
    }
  }

  /** A day lies in one March year only. */
  lemma MarchUnique(z: nat, y: nat, y': nat)
    requires March(y) <= z < March(y + 1) && March(y') <= z < March(y' + 1)
    ensures y == y'
  {
    if y < y' { MarchGrows(y, y'); }
    if y' < y { MarchGrows(y', y); }
  }

  // ---------------------------------------------------------------------
  // The year of the era
  // ---------------------------------------------------------------------

  lemma EraSplit(z: nat)
    ensures 0 <= z - z / 146097 * 146097 < 146097
  {
  }

  /** Centuries, four-year cycles, years and days within an era. */
  lemma Split(doe: nat) returns (c: nat, q: nat, s: nat, doy: nat)
    requires doe < 146097
    ensures c <= 3 && q <= 24 && s <= 3 && doy <= 365
    ensures doe == 36524 * c + 1461 * q + 365 * s + doy
    ensures doy == 365 ==> s == 3 && (q < 24 || c == 3)
  {
    c := if doe / 36524 <= 3 then doe / 36524 else 3;
    var r := doe - 36524 * c;
    q := r / 1461;
    var r2 := r - 1461 * q;
    s := if r2 / 365 <= 3 then r2 / 365 else 3;
    doy := r2 - 365 * s;
  }

  lemma By36524(c: nat, q: nat, s: nat, doy: nat, doe: nat)
    requires c <= 3 && q <= 24 && s <= 3 && doy <= 365
    requires doy == 365 ==> s == 3 && (q < 24 || c == 3)
    requires doe == 36524 * c + 1461 * q + 365 * s + doy
    ensures doe / 36524 - doe / 146096 == c
  {
    var rest := 1461 * q + 365 * s + doy;
    assert rest <= 36524;
    if rest == 36524 {
      assert c == 3;
    }
  }

  lemma By1460(c: nat, q: nat, s: nat, doy: nat, doe: nat)
    requires c <= 3 && q <= 24 && s <= 3 && doy <= 365
    requires doe == 36524 * c + 1461 * q + 365 * s + doy
    ensures var t := 24 * c + q + 365 * s + doy; doe / 1460 == 25 * c + q + if t >= 1460 then 1 else 0
  {
    var t := 24 * c + q + 365 * s + doy;
    assert doe == 1460 * (25 * c + q) + t;
    assert t < 2920;
    Divide(25 * c + q, t);
  }

  lemma Divide(a: nat, t: nat)
    requires t < 2920
    ensures (1460 * a + t) / 1460 == a + if t >= 1460 then 1 else 0
  {
  }

  lemma YearParts(c: nat, q: nat, s: nat)
    requires q <= 24 && s <= 3
    ensures (100 * c + 4 * q + s) / 4 == 25 * c + q
    ensures (100 * c + 4 * q + s) / 100 == c
  {
  }

  lemma YearOfEraIs(doe: nat, c: nat, q: nat, s: nat, doy: nat)
    requires c <= 3 && q <= 24 && s <= 3 && doy <= 365
    requires doy == 365 ==> s == 3 && (q < 24 || c == 3)
    requires doe == 36524 * c + 1461 * q + 365 * s + doy
    ensures YearOfEra(doe) == 100 * c + 4 * q + s
    ensures DayOfYear(doe, YearOfEra(doe)) == doy
  {
    By36524(c, q, s, doy, doe);
    By1460(c, q, s, doy, doe);
    YearParts(c, q, s);
    var y := 100 * c + 4 * q + s;
    var x := doe - doe / 1460 + doe / 36524 - doe / 146096;
    assert 365 * y <= x < 365 * y + 365;
    DivideBy365(x, y);
    assert YearOfEra(doe) == y;
    hide YearOfEra;
  }

  lemma DivideBy365(x: int, y: int)
    requires 365 * y <= x < 365 * y + 365
    ensures x / 365 == y
  {
  }

  /** The year and day computed for a day of an era are those of its March year. */
  lemma MarchOf(era: nat, doe: nat)
    requires doe < 146097
    ensures YearOfEra(doe) >= 0 && 0 <= DayOfYear(doe, YearOfEra(doe)) <= 365
    ensures era * 146097 + doe == March(era * 400 + YearOfEra(doe)) + DayOfYear(doe, YearOfEra(doe))
    ensures era * 146097 + doe < March(era * 400 + YearOfEra(doe) + 1)
  {
    var c, q, s, doy := Split(doe);
    YearOfEraIs(doe, c, q, s, doy);
    hide YearOfEra, DayOfYear, March, Leap;
    EraYear(era, c, q, s);
    MarchYearLength(era * 400 + 100 * c + 4 * q + s);
  }

  lemma EraYear(era: nat, c: nat, q: nat, s: nat)
    requires c <= 3 && q <= 24 && s <= 3
    ensures March(era * 400 + 100 * c + 4 * q + s) == era * 146097 + 36524 * c + 1461 * q + 365 * s
    ensures Leap(era * 400 + 100 * c + 4 * q + s + 1) <==> s == 3 && (q < 24 || c == 3)
  {
    var y := 100 * c + 4 * q + s;
    YearParts(c, q, s);
    EraDivides(era, y);
    EraRemainders(era, c, q, s);
  }

  lemma EraDivides(era: nat, y: nat)
    requires y < 400
    ensures (era * 400 + y) / 4 == era * 100 + y / 4
    ensures (era * 400 + y) / 100 == era * 4 + y / 100
    ensures (era * 400 + y) / 400 == era
  {
  }

  lemma EraRemainders(era: nat, c: nat, q: nat, s: nat)
    requires c <= 3 && q <= 24 && s <= 3
    ensures var n := era * 400 + 100 * c + 4 * q + s + 1;
            && (n % 4 == 0 <==> s == 3)
            && (n % 100 == 0 <==> s == 3 && q == 24)
            && (n % 400 == 0 <==> s == 3 && q == 24 && c == 3)
  {
    Remainder4(era * 100 + 25 * c + q, s + 1);
    Remainder100(era * 4 + c, 4 * q + s + 1);
    Remainder400(era, 100 * c + 4 * q + s + 1);
  }

  lemma Remainder4(a: nat, b: nat)
    requires b <= 4
    ensures (4 * a + b) % 4 == 0 <==> b == 0 || b == 4
  {
  }

  lemma Remainder100(a: nat, b: nat)
    requires b <= 100
    ensures (100 * a + b) % 100 == 0 <==> b == 0 || b == 100
  {
  }

  lemma Remainder400(a: nat, b: nat)
    requires b <= 400
    ensures (400 * a + b) % 400 == 0 <==> b == 0 || b == 400
  {
  }

  // ---------------------------------------------------------------------
  // Months and days of a March year
  // ---------------------------------------------------------------------

  lemma MonthRange(doy: int)
    requires 0 <= doy <= 365
    ensures 0 <= MonthIndex(doy) <= 11
    ensures 1 <= doy - (153 * MonthIndex(doy) + 2) / 5 + 1 <= 31
  {
  }

  /** The first day of each month, counted from 1 March, and the last of the year. */
  function FirstOf(mp: nat): nat {
    (153 * mp + 2) / 5
  }

  function MonthOf(mp: nat): nat
    requires mp <= 11
  {
    if mp < 10 then mp + 3 else mp - 9
  }

  lemma InMonth(y: nat, doy: nat, mp: nat)
    requires mp <= 11 && FirstOf(mp) <= doy && (if mp < 11 then doy < FirstOf(mp + 1) else doy <= 365)
    ensures InMarchYear(y, doy) == Date(if mp < 10 then y else y + 1, MonthOf(mp), doy - FirstOf(mp) + 1)
  {
    assert MonthIndex(doy) == mp;
  }

  lemma MonthLength(y: nat, mp: nat)
    requires mp <= 10
    ensures DaysIn(y, MonthOf(mp)) == FirstOf(mp + 1) - FirstOf(mp)
  {
  }

  lemma MonthAt(doy: nat) returns (mp: nat)
    requires doy <= 365
    ensures mp <= 11 && FirstOf(mp) <= doy && (if mp < 11 then doy < FirstOf(mp + 1) else doy <= 365)
  {
    mp := MonthIndex(doy);
  }

  /** Within a year the date moves on as the calendar does. */
  lemma NextInYear(y: nat, doy: nat)
    requires doy < 365 && (doy == 364 ==> Leap(y + 1))
    ensures InMarchYear(y, doy + 1) == NextDay(InMarchYear(y, doy))
  {
    var mp := MonthAt(doy);
    InMonth(y, doy, mp);
    assert FirstOf(11) == 337;
    hide InMarchYear, MonthIndex, FirstOf;
    if mp < 11 {
      MonthLength(if mp < 10 then y else y + 1, mp);
      hide DaysIn;
      if doy + 1 < FirstOf(mp + 1) {
        InMonth(y, doy + 1, mp);
      } else {
        FirstDays(mp);
        InMonth(y, doy + 1, mp + 1);
      }
    } else {
      InMonth(y, doy + 1, mp);
    }
  }

  lemma FirstDays(mp: nat)
    requires mp <= 10
    ensures FirstOf(mp + 1) < if mp < 10 then FirstOf(mp + 2) else 365
  {
  }

  lemma NextAcrossYears(y: nat)
    ensures InMarchYear(y + 1, 0) == NextDay(InMarchYear(y, if Leap(y + 1) then 365 else 364))
  {
  }

  // ---------------------------------------------------------------------
  // Main results
  // ---------------------------------------------------------------------

  lemma MarchInEraIs(era: nat, doe: nat)
    requires doe < 146097
    ensures var (y, doy) := MarchInEra(era, doe);
            era * 146097 + doe == March(y) + doy < March(y + 1)
  {
    hide YearOfEra, DayOfYear, March;
    MarchOf(era, doe);
  }

  /** A day lies in the March year that the arithmetic finds, at the day that it finds. */
  lemma MarchDateBounds(z: nat)
    ensures var (y, doy) := MarchDate(z);
            March(y) <= z < March(y + 1) && doy == z - March(y)
  {
    hide March, MarchInEra;
    EraSplit(z);
    MarchInEraIs(z / 146097, z - z / 146097 * 146097);
  }

  /** The March year is known from its bounds. */
  lemma MarchDateIs(z: nat, y: nat)
    requires March(y) <= z < March(y + 1)
    ensures MarchDate(z) == (y, z - March(y))
  {
    hide MarchDate, March;
    MarchDateBounds(z);
    MarchUnique(z, y, MarchDate(z).0);
  }

  /** The day after is the next day of the same March year, or the first of the next one. */
  lemma MarchDateNext(z: nat)
    ensures var (y, doy) := MarchDate(z);
            MarchDate(z + 1) == if doy + 1 < (if Leap(y + 1) then 366 else 365) then (y, doy + 1) else (y + 1, 0)
  {
    hide MarchDate, March, Leap;
    var (y, doy) := MarchDate(z);
    MarchDateBounds(z);
    MarchYearLength(y);
    MarchYearLength(y + 1);
    MarchDateIs(z + 1, if z + 1 < March(y + 1) then y else y + 1);
  }

  /** One more day is the next day of the calendar. */
  lemma CivilNext(days: nat)
    ensures CivilFromDays(days + 1) == NextDay(CivilFromDays(days))
  {
    hide MarchDate, March, InMarchYear, NextDay, Leap;
    var z := days + 719468;
    var (y, doy) := MarchDate(z);
    MarchDateBounds(z);
    MarchDateNext(z);
    MarchYearLength(y);
    if doy + 1 < if Leap(y + 1) then 366 else 365 {
      NextInYear(y, doy);
    } else {
      NextAcrossYears(y);
    }
  }

  lemma CivilEpoch()
    ensures CivilFromDays(0) == Date(1970, 1, 1)
  {
    hide MarchDate;
    assert March(1969) == 719162 && March(1970) == 719527;
    MarchDateIs(719468, 1969);
  }

  /** The arithmetic agrees with the calendar counted day by day, for every day. */
  lemma {:induction false} CivilIsNth(days: nat)
    ensures CivilFromDays(days) == Nth(days)
  {
    hide CivilFromDays, NextDay;
    if days == 0 {
      CivilEpoch();
    } else {
      CivilIsNth(days - 1);
      CivilNext(days - 1);
    }
  }

  /** Every date given is a date of the calendar. */
  lemma {:induction false} NthValid(n: nat)
    ensures 1 <= Nth(n).month <= 12 && 1 <= Nth(n).day <= DaysIn(Nth(n).year, Nth(n).month) && Nth(n).year >= 1970
  {
    if n > 0 { NthValid(n - 1); }
  }

  predicate Before(a: Date, b: Date) {
    a.year < b.year || (a.year == b.year && (a.month < b.month || (a.month == b.month && a.day < b.day)))
  }

  /** Later days have later dates, so no two days share one. */
  lemma {:induction false} NthIncreases(n: nat, m: nat)
    requires n < m
    ensures Before(Nth(n), Nth(m))
    decreases m
  {
    NthValid(m - 1);
    if n < m - 1 { NthIncreases(n, m - 1); }
  }

  /** The calendar fields give back the seconds, and the date is that of the day they lie in. */
  lemma CalendarExact(secs: nat)
    ensures var t := EpochToCalendar(secs);
            && t.hour < 24 && t.min < 60 && t.sec < 60
            && t.date == Nth(secs / 86400)
            && secs == secs / 86400 * 86400 + t.hour * 3600 + t.min * 60 + t.sec
  {
    assert secs / 60 / 60 / 24 == secs / 86400;
    CivilIsNth(secs / 86400);
  }

  /** The epoch was a Thursday and weekdays follow each other day by day. */
  lemma WeekdayCycles(secs: nat)
    ensures secs < 86400 ==> Weekday(secs) == 4
    ensures Weekday(secs + 86400) == (Weekday(secs) + 1) % 7
  {
    assert (secs + 86400) / 86400 == secs / 86400 + 1;
    NextOfSeven(secs / 86400 + 4);
  }

  lemma NextOfSeven(n: nat)
    ensures (n + 1) % 7 == (n % 7 + 1) % 7
  {
  }

  // ---------------------------------------------------------------------
  // RFC 1123 dates (section 5.2.14 of RFC 1123)
  // ---------------------------------------------------------------------

  const DAY_NAMES: seq<string> := ["Sun", "Mon", "Tue", "Wed", "Thu", "Fri", "Sat"]
  const MONTH_NAMES: seq<string> :=
    ["Jan", "Feb", "Mar", "Apr", "May", "Jun", "Jul", "Aug", "Sep", "Oct", "Nov", "Dec"]

  function Digits(n: nat, width: nat): (s: string)
    ensures |s| >= width
    ensures n < Pow10(width) ==> |s| == width
    decreases n + width
  {
    var digit := ['0' + (n % 10) as char];
    if width == 0 then (if n == 0 then "" else Digits(n / 10, 0) + digit)
    else Digits(n / 10, width - 1) + digit
  }

  function Pow10(width: nat): nat {
    if width == 0 then 1 else 10 * Pow10(width - 1)
  }

  /** Every table index is in range and every number but the year fits its field. */
  lemma FieldsInRange(secs: nat)
    ensures var t := EpochToCalendar(secs);
            t.hour < 24 && t.min < 60 && t.sec < 60 && 1 <= t.date.month <= 12 && 1 <= t.date.day <= 31
  {
    hide CivilFromDays, Nth;
    CalendarExact(secs);
    NthValid(secs / 86400);
  }

  function TwoDigits(n: nat): (s: string)
    ensures n < 100 ==> |s| == 2
  {
    assert Pow10(2) == 100;
    Digits(n, 2)
  }

  function FourDigits(n: nat): (s: string)
    ensures n < 10000 ==> |s| == 4
  {
    assert Pow10(3) == 1000;
    Digits(n, 4)
  }

  function Rfc1123(secs: nat): (s: string)
    ensures EpochToCalendar(secs).date.year <= 9999 ==> |s| == 29
  {
    FieldsInRange(secs);
    hide EpochToCalendar, Weekday, TwoDigits, FourDigits;
    var t := EpochToCalendar(secs);
    DAY_NAMES[Weekday(secs)] + ", " + DateText(t.date) + " " + TimeText(t) + " GMT"
  }

  function DateText(d: Date): (s: string)
    requires 1 <= d.month <= 12
    ensures d.day < 100 && d.year <= 9999 ==> |s| == 11
  {
    TwoDigits(d.day) + " " + MONTH_NAMES[d.month - 1] + " " + FourDigits(d.year)
  }

  function TimeText(t: Time): (s: string)
    ensures t.hour < 100 && t.min < 100 && t.sec < 100 ==> |s| == 8
  {
    TwoDigits(t.hour) + ":" + TwoDigits(t.min) + ":" + TwoDigits(t.sec)
  }

  // ---------------------------------------------------------------------
  // Reading the string
  // ---------------------------------------------------------------------

  predicate AllDigits(s: string) {
    forall i :: 0 <= i < |s| ==> '0' <= s[i] <= '9'
  }

  /** A decimal number, most significant digit first. */
  function ReadDecimal(s: string): nat
    requires AllDigits(s)
  {
    if s == "" then 0 else 10 * ReadDecimal(s[..|s| - 1]) + (s[|s| - 1] as int - '0' as int)
  }

  predicate Reads(s: string, n: nat) {
    AllDigits(s) && ReadDecimal(s) == n
  }

  /** The number of a month name; 0 for any other text. */
  function MonthNumber(name: string): nat {
    if name == "Jan" then 1 else if name == "Feb" then 2 else if name == "Mar" then 3 else if name == "Apr" then 4
    else if name == "May" then 5 else if name == "Jun" then 6 else if name == "Jul" then 7 else if name == "Aug" then 8
    else if name == "Sep" then 9 else if name == "Oct" then 10 else if name == "Nov" then 11
    else if name == "Dec" then 12 else 0
  }

  /** The number of days from Sunday to the day named; 7 for any other text. */
  function DayNumber(name: string): nat {
    if name == "Sun" then 0 else if name == "Mon" then 1 else if name == "Tue" then 2 else if name == "Wed" then 3
    else if name == "Thu" then 4 else if name == "Fri" then 5 else if name == "Sat" then 6 else 7
  }

  lemma MonthNumberIs(m: nat)
    requires 1 <= m <= 12
    ensures MonthNumber(MONTH_NAMES[m - 1]) == m && |MONTH_NAMES[m - 1]| == 3
  {
    var name := MONTH_NAMES[m - 1];
    assert |name| == 3;
    assert name[0] != 'J' ==> name != "Jan" && name != "Jun" && name != "Jul";
    assert name[0] != 'D' ==> name != "Dec";
  }

  lemma DayNumberIs(d: nat)
    requires d < 7
    ensures DayNumber(DAY_NAMES[d]) == d && |DAY_NAMES[d]| == 3
  {
    var name := DAY_NAMES[d];
    assert |name| == 3;
    assert name[0] != 'S' ==> name != "Sun" && name != "Sat";
  }

  lemma {:induction false} DigitsRead(n: nat, width: nat)
    ensures Reads(Digits(n, width), n)
    decreases n + width
  {
    if n > 0 || width > 0 {
      var front := Digits(n / 10, if width == 0 then 0 else width - 1);
      DigitsRead(n / 10, if width == 0 then 0 else width - 1);
      var s := Digits(n, width);
      assert s[..|s| - 1] == front;
    }
  }

  lemma DateTextReads(d: Date)
    requires 1 <= d.month <= 12 && d.day < 100 && d.year <= 9999
    ensures var s := DateText(d);
            && |s| == 11 && Reads(s[..2], d.day) && s[2] == ' ' && MonthNumber(s[3..6]) == d.month
            && s[6] == ' ' && Reads(s[7..], d.year)
  {
    var s, month := DateText(d), MONTH_NAMES[d.month - 1];
    MonthNumberIs(d.month);
    DigitsRead(d.day, 2);
    DigitsRead(d.year, 4);
    assert s[..2] == TwoDigits(d.day) && s[3..6] == month && s[7..] == FourDigits(d.year);
    hide Digits, MonthNumber, Reads;
  }

  lemma TimeTextReads(t: Time)
    requires t.hour < 100 && t.min < 100 && t.sec < 100
    ensures var s := TimeText(t);
            && |s| == 8 && Reads(s[..2], t.hour) && s[2] == ':' && Reads(s[3..5], t.min)
            && s[5] == ':' && Reads(s[6..], t.sec)
  {
    var s := TimeText(t);
    DigitsRead(t.hour, 2);
    DigitsRead(t.min, 2);
    DigitsRead(t.sec, 2);
    assert s[..2] == TwoDigits(t.hour) && s[3..5] == TwoDigits(t.min) && s[6..] == TwoDigits(t.sec);
    hide Digits, Reads;
  }

  /** Every field of the string, read at its fixed place. */
  ghost predicate Names(s: string, weekday: nat, t: Time) {
    && |s| == 29
    && DayNumber(s[..3]) == weekday && s[3..5] == ", "
    && Reads(s[5..7], t.date.day) && s[7] == ' ' && MonthNumber(s[8..11]) == t.date.month && s[11] == ' '
    && Reads(s[12..16], t.date.year) && s[16] == ' '
    && Reads(s[17..19], t.hour) && s[19] == ':' && Reads(s[20..22], t.min) && s[22] == ':'
    && Reads(s[23..25], t.sec) && s[25..] == " GMT"
  }

  /** The weekday, date and time that a reader finds at the fixed places of the string are those of the
      second it was made from. */
  lemma Rfc1123Reads(secs: nat)
    requires EpochToCalendar(secs).date.year <= 9999
    ensures Names(Rfc1123(secs), Weekday(secs), EpochToCalendar(secs))
  {
    FieldsInRange(secs);
    hide EpochToCalendar, Weekday, TwoDigits, FourDigits;
    var s, t, day := Rfc1123(secs), EpochToCalendar(secs), DAY_NAMES[Weekday(secs)];
    DayNumberIs(Weekday(secs));
    DateTextReads(t.date);
    TimeTextReads(t);
    var date, time := DateText(t.date), TimeText(t);
    assert s == day + ", " + date + " " + time + " GMT";
    hide Rfc1123, DateText, TimeText, Reads, MonthNumber, DayNumber;
    Assembled(day, date, time, s);
  }

  lemma Assembled(day: string, date: string, time: string, s: string)
    requires |day| == 3 && |date| == 11 && |time| == 8 && s == day + ", " + date + " " + time + " GMT"
    ensures |s| == 29 && s[..3] == day && s[3..5] == ", " && s[16] == ' ' && s[25..] == " GMT"
    ensures s[5..7] == date[..2] && s[7] == date[2] && s[8..11] == date[3..6]
    ensures s[11] == date[6] && s[12..16] == date[7..]
    ensures s[17..19] == time[..2] && s[19] == time[2] && s[20..22] == time[3..5] && s[22] == time[5]
    ensures s[23..25] == time[6..]
  {
  }

  /** A second that a string names is the only one. */
  lemma NamesDetermine(s: string, a: nat, b: nat)
    requires Names(s, Weekday(a), EpochToCalendar(a)) && Names(s, Weekday(b), EpochToCalendar(b))
    ensures a == b
  {
    FieldsInRange(a);
    FieldsInRange(b);
    CalendarExact(a);
    CalendarExact(b);
    hide EpochToCalendar, Weekday, Nth, MonthNumber, DayNumber, ReadDecimal;
    SameDay(a / 86400, b / 86400);
  }

  lemma SameDay(m: nat, n: nat)
    requires Nth(m) == Nth(n)
    ensures m == n
  {
    hide Nth;
    if m < n { NthIncreases(m, n); }
    if n < m { NthIncreases(n, m); }
  }

  /** Up to the year 9999 no two seconds have the same string. */
  lemma Rfc1123Determines(a: nat, b: nat)
    requires EpochToCalendar(a).date.year <= 9999 && EpochToCalendar(b).date.year <= 9999
    requires Rfc1123(a) == Rfc1123(b)
    ensures a == b
  {
    hide EpochToCalendar, Weekday, Rfc1123, Names;
    Rfc1123Reads(a);
    Rfc1123Reads(b);
    NamesDetermine(Rfc1123(a), a, b);
  }
}
