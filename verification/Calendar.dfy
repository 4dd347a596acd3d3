/** The timestamp formatter: day arithmetic with truncating division, and the calendar it must follow. */
module Calendar {
  import opened Base
  import Decimal

  // ----- The code -----

  /** Rust's `/` and `%`, which round toward zero. */
  function Div(a: int, b: int): int
    requires b > 0
  {
    if a >= 0 then a / b else -(-a / b)
  }

  function Rem(a: int, b: int): int
    requires b > 0
  {
    a - Div(a, b) * b
  }

  datatype Date = Date(year: int, month: int, day: int)

  datatype Stamp = Stamp(date: Date, hour: int, minute: int, second: int)

  function YearOfEra(doe: int): int {
    (doe - doe / 1460 + doe / 36524 - doe / 146096) / 365
  }

  function DayOfYear(doe: int): int {
    var yoe := YearOfEra(doe);
    doe - (365 * yoe + yoe / 4 - yoe / 100)
  }

  /** Days since 1970-01-01 to a date. Years run from March inside the computation. */
  function CivilFromDays(days: int): Date {
    var adj := days + 719468;
    var era := Div(if adj >= 0 then adj else adj - 146096, 146097);
    var doe := adj - era * 146097;
    var yoe := YearOfEra(doe);
    var y := yoe + era * 400;
    var doy := DayOfYear(doe);
    var mp := Div(5 * doy + 2, 153);
    var d := doy - Div(153 * mp + 2, 5) + 1;
    var m := if mp < 10 then mp + 3 else mp - 9;
    Date(if m <= 2 then y + 1 else y, m, d)
  }

  /** The day and the second of the day, from truncating division. */
  function DayAndSecond(ts: i64): (int, int) {
    var days := Div(ts, 86400);
    var daySecs := Rem(Rem(ts, 86400) + 86400, 86400);
    (if ts < 0 && daySecs > 0 then days - 1 else days, daySecs)
  }

  function StampOf(ts: i64): Stamp {
    var (days, daySecs) := DayAndSecond(ts);
    Stamp(CivilFromDays(days), Div(daySecs, 3600), Div(Rem(daySecs, 3600), 60), Rem(daySecs, 60))
  }

  // ----- The calendar: proleptic Gregorian, by its own rules -----

  predicate Leap(year: int) { year % 4 == 0 && (year % 100 != 0 || year % 400 == 0) }

  function DaysIn(year: int, month: int): int {
    if month == 2 then (if Leap(year) then 29 else 28)
    else if month == 4 || month == 6 || month == 9 || month == 11 then 30
    else 31
  }

  predicate ValidDate(date: Date) {
    1 <= date.month <= 12 && 1 <= date.day <= DaysIn(date.year, date.month)
  }

  function NextDay(date: Date): Date {
    if date.day < DaysIn(date.year, date.month) then date.(day := date.day + 1)
    else if date.month < 12 then Date(date.year, date.month + 1, 1)
    else Date(date.year + 1, 1, 1)
  }

  // ----- Inside an era of 400 years: centuries, four-year spans, years, days -----

  datatype Parts = Parts(c: int, q: int, k: int, t: int) {
    function Year(): int { 100 * c + 4 * q + k }

    /** March-based years end with February, so the long ones are those before a leap year. */
    predicate Long() { k == 3 && (q < 24 || c == 3) }

    ghost predicate Valid() {
      0 <= c < 4 && 0 <= q < 25 && 0 <= k < 4 && 0 <= t <= (if Long() then 365 else 364)
    }

    function DayOfEra(): int { 36524 * c + 1461 * q + 365 * k + t }
  }

  function Split(doe: int): (p: Parts)
    requires 0 <= doe < 146097
    ensures p.Valid() && p.DayOfEra() == doe
  {
    var c := if doe == 146096 then 3 else doe / 36524;
    var r := doe - 36524 * c;
    var q := r / 1461;
    var s := r - 1461 * q;
    var k := if s == 1460 then 3 else s / 365;
    Parts(c, q, k, s - 365 * k)
  }

  lemma QuotientIs(a: nat, b: nat, q: nat)
    requires b > 0 && b * q <= a < b * q + b
    ensures a / b == q
  {
    DivModUnique(q, a - b * q, b);
  }

  lemma Quotients(p: Parts)
    requires p.Valid()
    ensures var doe, last := p.DayOfEra(), p == Parts(3, 24, 3, 365);
      && doe / 36524 == (if last then 4 else p.c) && doe / 146096 == (if last then 1 else 0)
  {
    var doe, last := p.DayOfEra(), p == Parts(3, 24, 3, 365);
    QuotientIs(doe, 36524, if last then 4 else p.c);
    QuotientIs(doe, 146096, if last then 1 else 0);
  }

  lemma SpanQuotient(p: Parts)
    requires p.Valid()
    ensures var e := 24 * p.c + p.q + 365 * p.k + p.t;
      p.DayOfEra() / 1460 == 25 * p.c + p.q + if e >= 1460 then 1 else 0
  {
    var e := 24 * p.c + p.q + 365 * p.k + p.t;
    QuotientIs(p.DayOfEra(), 1460, 25 * p.c + p.q + if e >= 1460 then 1 else 0);
  }

  lemma YearQuotients(p: Parts)
    requires p.Valid()
    ensures p.Year() / 4 == 25 * p.c + p.q && p.Year() / 100 == p.c
  {
    QuotientIs(p.Year(), 4, 25 * p.c + p.q);
    QuotientIs(p.Year(), 100, p.c);
  }

  /** The two corrections leave exactly 365 days a year: the formula finds the year and the day. */
  lemma EraYear(p: Parts)
    requires p.Valid()
    ensures YearOfEra(p.DayOfEra()) == p.Year() && DayOfYear(p.DayOfEra()) == p.t
  {
    var doe := p.DayOfEra();
    Quotients(p);
    SpanQuotient(p);
    QuotientIs(doe - doe / 1460 + doe / 36524 - doe / 146096, 365, p.Year());
    YearQuotients(p);
  }

  /** The day after, within the era. */
  function NextPart(p: Parts): Parts {
    if p.t < (if p.Long() then 365 else 364) then p.(t := p.t + 1)
    else if p.k < 3 then Parts(p.c, p.q, p.k + 1, 0)
    else if p.q < 24 then Parts(p.c, p.q + 1, 0, 0)
    else Parts(p.c + 1, 0, 0, 0)
  }

  /** The date of day `t` of the year that starts in March of `y`. */
  function FromMarch(y: int, t: int): Date {
    var mp := (5 * t + 2) / 153;
    var d := t - (153 * mp + 2) / 5 + 1;
    var m := if mp < 10 then mp + 3 else mp - 9;
    Date(if m <= 2 then y + 1 else y, m, d)
  }

  lemma MonthOf(t: int)
    requires 0 <= t <= 365
    ensures var mp := (5 * t + 2) / 153;
      0 <= mp <= 11 && (153 * mp + 2) / 5 <= t < (153 * mp + 155) / 5
  {
  }

  /** Each day is inside its month, month by month. */
  lemma MonthEnds(y: int, t: int)
    requires 0 <= t <= (if Leap(y + 1) then 365 else 364)
    ensures var mp := (5 * t + 2) / 153;
      (mp == 0 ==> 0 <= t <= 30) && (mp == 1 ==> 31 <= t <= 60) && (mp == 2 ==> 61 <= t <= 91)
      && (mp == 3 ==> 92 <= t <= 121) && (mp == 4 ==> 122 <= t <= 152) && (mp == 5 ==> 153 <= t <= 183)
      && (mp == 6 ==> 184 <= t <= 213) && (mp == 7 ==> 214 <= t <= 244) && (mp == 8 ==> 245 <= t <= 274)
      && (mp == 9 ==> 275 <= t <= 305) && (mp == 10 ==> 306 <= t <= 336) && (mp == 11 ==> 337 <= t <= 365)
  {
  }

  lemma MarchValid(y: int, t: int)
    requires 0 <= t <= (if Leap(y + 1) then 365 else 364)
    ensures ValidDate(FromMarch(y, t))
  {
    hide Leap;
    MonthOf(t);
    MonthEnds(y, t);
  }

  /** The months of the March-based year, and the days they start on. */
  function MonthStart(mp: int): int { (153 * mp + 2) / 5 }

  lemma MonthLengths(y: int, mp: int)
    requires 0 <= mp <= 11
    ensures var m := if mp < 10 then mp + 3 else mp - 9;
      mp < 11 ==> MonthStart(mp + 1) - MonthStart(mp) == DaysIn(if m <= 2 then y + 1 else y, m)
    ensures mp == 11 ==> MonthStart(mp) + DaysIn(y + 1, 2) == if Leap(y + 1) then 366 else 365
  {
    hide Leap;
  }

  lemma MonthAt(t: int, mp: int)
    requires 0 <= t <= 365 && 0 <= mp <= 11 && MonthStart(mp) <= t && (mp < 11 ==> t < MonthStart(mp + 1))
    ensures (5 * t + 2) / 153 == mp
  {
    QuotientIs(5 * t + 2, 153, mp);
  }

  /** A day of month `mp`, counted from its start. */
  lemma InMonth(y: int, t: int, mp: int)
    requires 0 <= mp <= 11 && (5 * t + 2) / 153 == mp
    ensures FromMarch(y, t)
         == Date(if mp < 10 then y else y + 1, if mp < 10 then mp + 3 else mp - 9, t - MonthStart(mp) + 1)
  {
  }

  lemma MarchNext(y: int, t: int)
    requires 0 <= t < (if Leap(y + 1) then 365 else 364)
    ensures FromMarch(y, t + 1) == NextDay(FromMarch(y, t))
  {
    hide Leap, DaysIn, MonthStart, FromMarch;
    MonthOf(t);
    var mp := (5 * t + 2) / 153;
    StartsAt(mp);
    StartsAt(mp + 1);
    MonthLengths(y, mp);
    InMonth(y, t, mp);
    if mp < 11 && t + 1 == MonthStart(mp + 1) {
      StartsAt(mp + 2);
      MonthAt(t + 1, mp + 1);
      InMonth(y, t + 1, mp + 1);
    } else {
      MonthAt(t + 1, mp);
      InMonth(y, t + 1, mp);
    }
  }

  lemma StartsAt(mp: int)
    ensures MonthStart(mp) == (153 * mp + 2) / 5 && MonthStart(mp) < MonthStart(mp + 1)
  {
  }

  lemma MarchLast(y: int)
    ensures FromMarch(y + 1, 0) == NextDay(FromMarch(y, if Leap(y + 1) then 365 else 364))
  {
    hide Leap;
  }

  // ----- All days -----

  lemma EraIs(adj: int, era: int, doe: int)
    requires 0 <= doe < 146097 && adj == era * 146097 + doe
    ensures Div(if adj >= 0 then adj else adj - 146096, 146097) == era
  {
    if adj >= 0 {
      QuotientIs(adj, 146097, era);
    } else {
      QuotientIs(146096 - adj, 146097, -era);
    }
  }

  lemma DivPositive(a: int, b: int)
    requires a >= 0 && b > 0
    ensures Div(a, b) == a / b
  {
  }

  lemma EraBounds(p: Parts)
    requires p.Valid()
    ensures 0 <= p.DayOfEra() < 146097 && 0 <= p.t
  {
  }

  lemma CivilIs(days: int, era: int, p: Parts)
    requires p.Valid() && days + 719468 == era * 146097 + p.DayOfEra()
    ensures CivilFromDays(days) == FromMarch(era * 400 + p.Year(), p.t)
  {
    hide YearOfEra, DayOfYear, Div, Parts.DayOfEra, Parts.Year, Parts.Long;
    EraYear(p);
    EraBounds(p);
    EraIs(days + 719468, era, p.DayOfEra());
    var mp := (5 * p.t + 2) / 153;
    DivPositive(5 * p.t + 2, 153);
    DivPositive(153 * mp + 2, 5);
  }

  lemma ModIs(m: nat, q: int, r: int)
    requires 0 <= r < m
    ensures (m * q + r) % m == r
  {
    var n := m * q + r;
    if q < n / m {
      MulMonotone(q + 1, n / m, m);
    } else if n / m < q {
      MulMonotone(n / m + 1, q, m);
    }
  }

  lemma LongIsLeap(era: int, p: Parts)
    requires p.Valid()
    ensures Leap(era * 400 + p.Year() + 1) <==> p.Long()
  {
    var y := era * 400 + p.Year() + 1;
    var a, b := 100 * era + 25 * p.c + p.q, 4 * era + p.c;
    if p.k < 3 {
      ModIs(4, a, p.k + 1);
    } else {
      ModIs(4, a + 1, 0);
      if p.q < 24 {
        ModIs(100, b, 4 * (p.q + 1));
      } else {
        ModIs(100, b + 1, 0);
        if p.c < 3 { ModIs(400, era, 100 * (p.c + 1)); } else { ModIs(400, era + 1, 0); }
      }
    }
  }

  lemma NextPlace(p: Parts)
    requires p.Valid()
    ensures var n, last := NextPart(p), if p.Long() then 365 else 364;
      && (p.t < last ==> n.Year() == p.Year() && n.t == p.t + 1)
      && (p.t == last ==> n.t == 0 && n.Year() == p.Year() + 1)
      && (n.c < 4 ==> n.Valid() && n.DayOfEra() == p.DayOfEra() + 1)
      && (n.c >= 4 ==> p.DayOfEra() == 146096 && p.t == last && p.Year() == 399)
  {
  }

  /** Where a day falls: its era and its place in it. */
  lemma Locate(days: int) returns (era: int, p: Parts)
    ensures p.Valid() && days + 719468 == era * 146097 + p.DayOfEra()
  {
    era := (days + 719468) / 146097;
    p := Split(days + 719468 - era * 146097);
  }

  lemma EpochIsRight()
    ensures CivilFromDays(0) == Date(1970, 1, 1)
  {
  }

  /** Every computed date exists, and each day is the calendar's successor of the day before: with the
      epoch this fixes the date of every day, before and after 1970. */
  lemma FollowsCalendar(days: int)
    ensures ValidDate(CivilFromDays(days))
    ensures CivilFromDays(days + 1) == NextDay(CivilFromDays(days))
  {
    hide CivilFromDays, FromMarch, NextDay, ValidDate, Leap, NextPart, Parts.Long, Parts.DayOfEra, Parts.Year;
    var era, p := Locate(days);
    CivilIs(days, era, p);
    LongIsLeap(era, p);
    var y := era * 400 + p.Year();
    MarchValid(y, p.t);
    NextPlace(p);
    var next := NextPart(p);
    if next.c < 4 {
      CivilIs(days + 1, era, next);
    } else {
      FirstOfEra();
      CivilIs(days + 1, era + 1, Parts(0, 0, 0, 0));
    }
    if p.t < (if p.Long() then 365 else 364) {
      MarchNext(y, p.t);
    } else {
      MarchLast(y);
    }
  }

  lemma FirstOfEra()
    ensures var p := Parts(0, 0, 0, 0); p.Valid() && p.DayOfEra() == 0 && p.Year() == 0
  {
  }

  lemma RemNonNegative(a: int, b: int)
    requires a >= 0 && b > 0
    ensures Rem(a, b) == a % b && Div(a, b) == a / b
  {
    DivMod(a, b);
  }

  lemma DayFloor(ts: i64)
    ensures DayAndSecond(ts) == (ts / 86400, ts % 86400)
  {
    hide Rem;
    if ts >= 0 {
      RemNonNegative(ts, 86400);
      RemNonNegative(ts % 86400 + 86400, 86400);
    } else {
      RemNegative(ts);
    }
  }

  lemma RemNegative(ts: int)
    requires ts < 0
    ensures Rem(Rem(ts, 86400) + 86400, 86400) == ts % 86400
    ensures Div(ts, 86400) == if ts % 86400 == 0 then ts / 86400 else ts / 86400 + 1
  {
    var q, r := ts / 86400, ts % 86400;
    if r == 0 {
      QuotientIs(-ts, 86400, -q);
    } else {
      QuotientIs(-ts, 86400, -q - 1);
    }
    assert Rem(ts, 86400) == if r == 0 then 0 else r - 86400;
    RemNonNegative(86400, 86400);
    RemNonNegative(r, 86400);
  }

  /** The date is that of the day the timestamp falls in, and the time of day makes up the rest. */
  lemma StampExact(ts: i64)
    ensures var s := StampOf(ts);
      && s.date == CivilFromDays(ts / 86400)
      && 0 <= s.hour < 24 && 0 <= s.minute < 60 && 0 <= s.second < 60
      && ts == ts / 86400 * 86400 + s.hour * 3600 + s.minute * 60 + s.second
  {
    hide CivilFromDays, Rem, Div, DayAndSecond;
    DayFloor(ts);
    var secs := ts % 86400;
    RemNonNegative(secs, 3600);
    RemNonNegative(secs % 3600, 60);
    RemNonNegative(secs, 60);
    assert (secs % 3600) % 60 == secs % 60;
  }

  // ----- Order -----

  ghost predicate Before(a: Date, b: Date) {
    a.year < b.year || (a.year == b.year && (a.month < b.month || (a.month == b.month && a.day < b.day)))
  }

  lemma {:induction false} DaysInOrder(days: int, later: int)
    requires days < later
    ensures Before(CivilFromDays(days), CivilFromDays(later))
    decreases later - days
  {
    hide CivilFromDays, Leap;
    FollowsCalendar(later - 1);
    if days < later - 1 {
      DaysInOrder(days, later - 1);
    }
  }

  function Text(s: Stamp): string
    requires 0 <= s.date.year && 0 <= s.date.month && 0 <= s.date.day && 0 <= s.hour && 0 <= s.minute && 0 <= s.second
  {
    Decimal.Padded(s.date.year, 4) + ("-" + (Decimal.Padded(s.date.month, 2) + ("-" + (Decimal.Padded(s.date.day, 2)
    + (" " + (Decimal.Padded(s.hour, 2) + (":" + (Decimal.Padded(s.minute, 2)
    + (":" + Decimal.Padded(s.second, 2))))))))))
  }

  /** `format_expiry`: only years that print in four digits and are not before the epoch. */
  function FormatExpiry(ts: i64): Option<string> {
    StampExact(ts);
    FollowsCalendar(ts / 86400);
    var s := StampOf(ts);
    if 1970 <= s.date.year <= 9999 then Some(Text(s)) else None
  }

  predicate TextLess(a: string, b: string) {
    b != "" && (a == "" || a[0] < b[0] || (a[0] == b[0] && TextLess(a[1..], b[1..])))
  }

  lemma {:induction false} TextLessConcat(a: string, b: string, s: string, t: string)
    requires |a| == |b| && (TextLess(a, b) || (a == b && TextLess(s, t)))
    ensures TextLess(a + s, b + t)
  {
    if a == "" {
      assert a + s == s && b + t == t;
    } else {
      assert (a + s)[1..] == a[1..] + s && (b + t)[1..] == b[1..] + t;
      if a[0] == b[0] {
        if a == b {
          assert a[1..] == b[1..];
        }
        TextLessConcat(a[1..], b[1..], s, t);
      }
    }
  }

  lemma {:induction false} PaddedLess(m: nat, n: nat, w: nat)
    requires m < n < Pow(10, w)
    ensures TextLess(Decimal.Padded(m, w), Decimal.Padded(n, w))
  {
    var c, d := [Decimal.Digit(m % 10)], [Decimal.Digit(n % 10)];
    if m / 10 < n / 10 {
      PaddedLess(m / 10, n / 10, w - 1);
    } else {
      assert TextLess(c, d);
    }
    TextLessConcat(Decimal.Padded(m / 10, w - 1), Decimal.Padded(n / 10, w - 1), c, d);
  }

  /** One field of the text: it decides, or the rest does. */
  lemma FieldLess(m: nat, n: nat, w: nat, s: string, t: string)
    requires m <= n < Pow(10, w) && (m == n ==> TextLess(s, t))
    ensures TextLess(Decimal.Padded(m, w) + s, Decimal.Padded(n, w) + t)
  {
    if m < n {
      PaddedLess(m, n, w);
    }
    TextLessConcat(Decimal.Padded(m, w), Decimal.Padded(n, w), s, t);
  }

  ghost predicate StampBefore(a: Stamp, b: Stamp) {
    Before(a.date, b.date) || (a.date == b.date &&
      (a.hour < b.hour || (a.hour == b.hour && (a.minute < b.minute || (a.minute == b.minute && a.second < b.second)))))
  }

  ghost predicate Printable(s: Stamp) {
    0 <= s.date.year <= 9999 && ValidDate(s.date) && 0 <= s.hour < 24 && 0 <= s.minute < 60 && 0 <= s.second < 60
  }

  lemma TextOrder(a: Stamp, b: Stamp)
    requires Printable(a) && Printable(b) && StampBefore(a, b)
    ensures TextLess(Text(a), Text(b))
  {
    hide Decimal.Padded, TextLess, Leap;
    assert Pow(10, 2) == 100 && Pow(10, 4) == 10000;
    TimeOrder(a, b);
    var a6, b6 := TimeText(a), TimeText(b);
    var a5, b5 := " " + a6, " " + b6;
    var a4, b4 := Decimal.Padded(a.date.day, 2) + a5, Decimal.Padded(b.date.day, 2) + b5;
    var a2, b2 := Decimal.Padded(a.date.month, 2) + ("-" + a4), Decimal.Padded(b.date.month, 2) + ("-" + b4);
    if a.date == b.date {
      TextLessConcat(" ", " ", a6, b6);
    }
    if a.date.year == b.date.year {
      if a.date.month == b.date.month {
        FieldLess(a.date.day, b.date.day, 2, a5, b5);
        TextLessConcat("-", "-", a4, b4);
      }
      FieldLess(a.date.month, b.date.month, 2, "-" + a4, "-" + b4);
      TextLessConcat("-", "-", a2, b2);
    }
    FieldLess(a.date.year, b.date.year, 4, "-" + a2, "-" + b2);
  }

  function TimeText(s: Stamp): string
    requires 0 <= s.hour && 0 <= s.minute && 0 <= s.second
  {
    Decimal.Padded(s.hour, 2) + (":" + (Decimal.Padded(s.minute, 2) + (":" + Decimal.Padded(s.second, 2))))
  }

  lemma TimeOrder(a: Stamp, b: Stamp)
    requires Printable(a) && Printable(b) && StampBefore(a, b)
    ensures a.date == b.date ==> TextLess(TimeText(a), TimeText(b))
  {
    hide Decimal.Padded, TextLess, Leap;
    assert Pow(10, 2) == 100;
    if a.date == b.date {
      var a2, b2 := Decimal.Padded(a.second, 2), Decimal.Padded(b.second, 2);
      if a.hour == b.hour {
        if a.minute == b.minute {
          PaddedLess(a.second, b.second, 2);
          TextLessConcat(":", ":", a2, b2);
        }
        FieldLess(a.minute, b.minute, 2, ":" + a2, ":" + b2);
        TextLessConcat(":", ":", Decimal.Padded(a.minute, 2) + (":" + a2), Decimal.Padded(b.minute, 2) + (":" + b2));
      }
      FieldLess(a.hour, b.hour, 2, ":" + (Decimal.Padded(a.minute, 2) + (":" + a2)),
                ":" + (Decimal.Padded(b.minute, 2) + (":" + b2)));
    }
  }

  /** Accepted timestamps print in the order they are in, so no two share a text. */
  lemma ExpiryOrder(ts: i64, later: i64)
    requires ts < later && FormatExpiry(ts).Some? && FormatExpiry(later).Some?
    ensures TextLess(FormatExpiry(ts).value, FormatExpiry(later).value)
  {
    hide StampOf, CivilFromDays, Text, TextLess, Leap;
    StampExact(ts);
    StampExact(later);
    FollowsCalendar(ts / 86400);
    FollowsCalendar(later / 86400);
    if ts / 86400 < later / 86400 {
      DaysInOrder(ts / 86400, later / 86400);
    }
    TextOrder(StampOf(ts), StampOf(later));
  }

  lemma DateRange(day: int)
    ensures 1970 <= CivilFromDays(day).year <= 9999 <==> 0 <= day <= 2_932_896
  {
    hide CivilFromDays, Leap, NextDay, ValidDate;
    EpochIsRight();
    LastDay();
    DayAfter();
    if day < 0 {
      DaysInOrder(day, 0);
      FollowsCalendar(day);
      NoneBefore(CivilFromDays(day));
    } else if day <= 2_932_896 {
      if day > 0 { DaysInOrder(0, day); }
      if day < 2_932_896 { DaysInOrder(day, 2_932_896); }
    } else if day > 2_932_897 {
      DaysInOrder(2_932_897, day);
    }
  }

  lemma NoneBefore(date: Date)
    requires Before(date, Date(1970, 1, 1)) && ValidDate(date)
    ensures date.year < 1970
  {
  }

  /** Timestamps are accepted from the epoch to the end of the year 9999. */
  lemma AcceptedRange(ts: i64)
    ensures FormatExpiry(ts).Some? <==> 0 <= ts < 253_402_300_800
  {
    hide CivilFromDays, Text, Leap, StampOf;
    StampExact(ts);
    DateRange(ts / 86400);
    DayRange(ts);
  }

  lemma DayRange(ts: int)
    ensures 0 <= ts / 86400 <= 2_932_896 <==> 0 <= ts < 253_402_300_800
  {
  }

  lemma LastDay()
    ensures CivilFromDays(2_932_896) == Date(9999, 12, 31)
  {
  }

  lemma DayAfter()
    ensures CivilFromDays(2_932_897) == Date(10000, 1, 1)
  {
  }

  /** The number that some digits of a text spell. */
  predicate Digits(text: string, from: nat, to: nat, n: int) {
    from <= to <= |text| && Decimal.AllDigits(text[from..to]) && Decimal.Placed(text[from..to]) == n
  }

  /** An accepted text is `YYYY-MM-DD HH:MM:SS`, with the fields of the timestamp. */
  lemma TextFields(ts: i64)
    requires FormatExpiry(ts).Some?
    ensures var text, s := FormatExpiry(ts).value, StampOf(ts);
      && |text| == 19 && text[4] == '-' && text[7] == '-' && text[10] == ' ' && text[13] == ':' && text[16] == ':'
      && Digits(text, 0, 4, s.date.year) && Digits(text, 5, 7, s.date.month) && Digits(text, 8, 10, s.date.day)
      && Digits(text, 11, 13, s.hour) && Digits(text, 14, 16, s.minute) && Digits(text, 17, 19, s.second)
  {
    hide StampOf, CivilFromDays, Leap, Decimal.Padded, Digits, Text;
    StampExact(ts);
    FollowsCalendar(ts / 86400);
    PartsOfText(StampOf(ts));
  }

  lemma PaddedDigits(a: string, n: nat, w: nat, b: string)
    requires n < Pow(10, w)
    ensures Digits(a + (Decimal.Padded(n, w) + b), |a|, |a| + w, n)
  {
    hide Decimal.Padded, Decimal.Placed, Decimal.ValueOf;
    var text := a + (Decimal.Padded(n, w) + b);
    assert text[|a|..|a| + w] == Decimal.Padded(n, w);
    Decimal.PaddedValue(n, w);
    Decimal.ValueIsPlaced(Decimal.Padded(n, w));
  }

  lemma PartsOfText(s: Stamp)
    requires Printable(s)
    ensures var text := Text(s);
      && |text| == 19 && text[4] == '-' && text[7] == '-' && text[10] == ' ' && text[13] == ':' && text[16] == ':'
      && Digits(text, 0, 4, s.date.year) && Digits(text, 5, 7, s.date.month) && Digits(text, 8, 10, s.date.day)
      && Digits(text, 11, 13, s.hour) && Digits(text, 14, 16, s.minute) && Digits(text, 17, 19, s.second)
  {
    hide Decimal.Padded, Digits, Leap;
    assert Pow(10, 2) == 100 && Pow(10, 4) == 10000;
    var t6 := Decimal.Padded(s.second, 2);
    var t5 := Decimal.Padded(s.minute, 2) + (":" + t6);
    var t4 := Decimal.Padded(s.hour, 2) + (":" + t5);
    var t3 := Decimal.Padded(s.date.day, 2) + (" " + t4);
    var t2 := Decimal.Padded(s.date.month, 2) + ("-" + t3);
    var a1 := Decimal.Padded(s.date.year, 4) + "-";
    var a2 := a1 + Decimal.Padded(s.date.month, 2) + "-";
    var a3 := a2 + Decimal.Padded(s.date.day, 2) + " ";
    var a4 := a3 + Decimal.Padded(s.hour, 2) + ":";
    var a5 := a4 + Decimal.Padded(s.minute, 2) + ":";
    PaddedDigits("", s.date.year, 4, "-" + t2);
    Nothing(Decimal.Padded(s.date.year, 4) + ("-" + t2));
    PaddedDigits(a1, s.date.month, 2, "-" + t3);
    Assoc(Decimal.Padded(s.date.year, 4), "-", t2);
    Assoc(a1, Decimal.Padded(s.date.month, 2), "-" + t3);
    Assoc(a1 + Decimal.Padded(s.date.month, 2), "-", t3);
    PaddedDigits(a2, s.date.day, 2, " " + t4);
    Assoc(a2, Decimal.Padded(s.date.day, 2), " " + t4);
    Assoc(a2 + Decimal.Padded(s.date.day, 2), " ", t4);
    PaddedDigits(a3, s.hour, 2, ":" + t5);
    Assoc(a3, Decimal.Padded(s.hour, 2), ":" + t5);
    Assoc(a3 + Decimal.Padded(s.hour, 2), ":", t5);
    PaddedDigits(a4, s.minute, 2, ":" + t6);
    Assoc(a4, Decimal.Padded(s.minute, 2), ":" + t6);
    Assoc(a4 + Decimal.Padded(s.minute, 2), ":", t6);
    PaddedDigits(a5, s.second, 2, "");
    Nothing(t6);
    Nothing(a5 + t6);
  }
}
