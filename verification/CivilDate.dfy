/** Civil dates from day counts, and the HTTP date they are printed as (src/responses.rs). */
module CivilDate {
  import opened Decimal
  import opened Runs

  datatype Date = Date(year: int, month: int, day: int)

  // ---- The calendar ----

  predicate Leap(y: int) {
    y % 4 == 0 && (y % 100 != 0 || y % 400 == 0)
  }

  function MonthLength(y: int, m: int): int {
    if m == 2 then (if Leap(y) then 29 else 28)
    else if m == 4 || m == 6 || m == 9 || m == 11 then 30
    else 31
  }

  predicate Valid(t: Date) {
    1 <= t.month <= 12 && 1 <= t.day <= MonthLength(t.year, t.month)
  }

  /** The day after, by the rules of the calendar alone. */
  function NextDate(t: Date): Date {
    if t.day < MonthLength(t.year, t.month) then t.(day := t.day + 1)
    else if t.month < 12 then Date(t.year, t.month + 1, 1)
    else Date(t.year + 1, 1, 1)
  }

  // ---- The code ----

  /** Division as Rust does it, rounding towards zero. */
  function TruncDiv(a: int, b: int): int
    requires b > 0
  {
    if a >= 0 then a / b else -((-a) / b)
  }

  /** `days_to_ymd`: the date `days` days after 1970-01-01. */
  function DaysToYmd(days: int): Date {
    var z := days + 719_468;
    DateInEra(EraOf(z), z - EraOf(z) * 146_097)
  }

  function EraOf(z: int): (era: int)
    ensures era == z / 146_097
  {
    if z >= 0 then TruncDiv(z, 146_097) else TruncDiv(z - 146_096, 146_097)
  }

  function DateInEra(era: int, doe: int): Date {
    DateOfDay(era, YearOfEra(doe), doe)
  }

  /** Day `doe` of the era, which lies in its year `yoe`. */
  function DateOfDay(era: int, yoe: int, doe: int): Date {
    DateInYear(yoe + era * 400, doe - YearStart(yoe))
  }

  /** Day `doy` of the year that starts on 1 March of year `y`. */
  function DateInYear(y: int, doy: int): Date {
    var mp := (5 * doy + 2) / 153;
    var d := doy - (153 * mp + 2) / 5 + 1;
    var m := if mp < 10 then mp + 3 else mp - 9;
    Date(if m <= 2 then y + 1 else y, m, d)
  }

  function YearOfEra(doe: int): int {
    (doe - doe / 1460 + doe / 36_524 - doe / 146_096) / 365
  }

  /** First day of year `y` of an era, whose years start on 1 March. */
  function YearStart(y: int): int {
    365 * y + y / 4 - y / 100
  }

  /** A day of an era as century, four-year group within it, and day of the group. The
  formula for the year comes out right on either side of the group's leap day. */
  lemma YearFromParts(c: int, q: int, s: int)
    requires 0 <= c <= 3 && 0 <= q <= 24 && 0 <= s <= 1460 && (q == 24 ==> s < 1460)
    ensures YearOfEra(36_524 * c + 1461 * q + s) == 100 * c + 4 * q + (if s == 1460 then 3 else s / 365)
  {
    var doe := 36_524 * c + 1461 * q + s;
    var e := if 24 * c + q + s >= 1460 then 1 else 0;
    assert doe / 36_524 == c;
    assert doe / 146_096 == 0;
    assert doe == 1460 * (25 * c + q + e) + (24 * c + q + s - 1460 * e);
    assert doe / 1460 == 25 * c + q + e;
    assert doe - doe / 1460 + doe / 36_524 == 365 * (100 * c + 4 * q) + (s - e);
  }

  lemma YearStartFromParts(c: int, q: int, r: int)
    requires 0 <= c <= 3 && 0 <= q <= 24 && 0 <= r <= 3
    ensures YearStart(100 * c + 4 * q + r) == 36_524 * c + 1461 * q + 365 * r
  {
    var y := 100 * c + 4 * q + r;
    assert y / 4 == 25 * c + q;
    assert y / 100 == c;
  }

  /** Day `doe` of an era falls in year `y` of it. */
  predicate InYear(doe: int, y: int) {
    && 0 <= y <= 399
    && YearStart(y) <= doe <= YearStart(y) + 365
    && (doe == YearStart(y) + 365 ==> Leap(y + 1))
  }

  lemma LeapInCentury(c: int, q: int)
    requires 1 <= q <= 24
    ensures Leap(100 * c + 4 * q)
  {
    assert 100 * c + 4 * q == 4 * (25 * c + q);
    assert (100 * c + 4 * q) % 100 == 4 * q;
  }

  lemma InYearFromParts(c: int, q: int, s: int)
    requires 0 <= c <= 3 && 0 <= q <= 24 && 0 <= s <= 1460 && (q == 24 ==> s < 1460)
    ensures InYear(36_524 * c + 1461 * q + s, 100 * c + 4 * q + (if s == 1460 then 3 else s / 365))
  {
    var r := if s == 1460 then 3 else s / 365;
    YearStartFromParts(c, q, r);
    if s == 1460 {
      LeapInCentury(c, q + 1);
    }
  }

  lemma YearOfParts(doe: int, c: int, q: int, s: int)
    requires 0 <= c <= 3 && 0 <= q <= 24 && 0 <= s <= 1460 && (q == 24 ==> s < 1460)
    requires doe == 36_524 * c + 1461 * q + s
    ensures InYear(doe, YearOfEra(doe))
  {
    InYearFromParts(c, q, s);
    YearFromParts(c, q, s);
  }

  lemma LastDayOfEra()
    ensures InYear(146_096, YearOfEra(146_096))
  {
  }

  lemma YearOfEraRight(doe: int)
    requires 0 <= doe < 146_097
    ensures InYear(doe, YearOfEra(doe))
  {
    if doe < 146_096 {
      var r := doe % 36_524;
      YearOfParts(doe, doe / 36_524, r / 1461, r % 1461);
    } else {
      LastDayOfEra();
    }
  }

  // ---- Months ----

  /** Days from 1 March to the first of the month `mp` months later. */
  function MonthStart(mp: int): int {
    (153 * mp + 2) / 5
  }

  lemma MonthRight(doy: int)
    requires 0 <= doy <= 365
    ensures var mp := (5 * doy + 2) / 153;
            && 0 <= mp <= 11
            && MonthStart(mp) <= doy
            && (mp < 11 ==> doy < MonthStart(mp + 1))
  {
  }

  // ---- Day numbers ----

  /** Days from 1970-01-01 to 1 January of year `y`. */
  function JanuaryFirst(y: int): int {
    365 * (y - 1970) + ((y - 1) / 4 - 492) - ((y - 1) / 100 - 19) + ((y - 1) / 400 - 4)
  }

  function DaysBeforeMonth(y: int, m: int): int
    requires 1 <= m
    decreases m
  {
    if m == 1 then 0 else DaysBeforeMonth(y, m - 1) + MonthLength(y, m - 1)
  }

  /** Days from 1970-01-01 to `t`, counted month by month. */
  function DayNumber(t: Date): int
    requires 1 <= t.month
  {
    JanuaryFirst(t.year) + DaysBeforeMonth(t.year, t.month) + t.day - 1
  }

  lemma Fourths(y: int)
    ensures y / 4 == (y - 1) / 4 + (if y % 4 == 0 then 1 else 0)
  {
  }

  lemma Centuries(y: int)
    ensures y / 100 == (y - 1) / 100 + (if y % 100 == 0 then 1 else 0)
  {
  }

  lemma Eras(y: int)
    ensures y / 400 == (y - 1) / 400 + (if y % 400 == 0 then 1 else 0)
  {
  }

  lemma Hundreds(k: int)
    ensures (100 * k) % 100 == 0 && (100 * k) % 4 == 0
  {
    assert 100 * k == 4 * (25 * k);
  }

  lemma LeapDivides(y: int)
    ensures y % 400 == 0 ==> y % 100 == 0
    ensures y % 100 == 0 ==> y % 4 == 0
  {
    Hundreds(4 * (y / 400));
    Hundreds(y / 100);
  }

  lemma YearLength(y: int)
    ensures JanuaryFirst(y + 1) == JanuaryFirst(y) + (if Leap(y) then 366 else 365)
  {
    Fourths(y);
    Centuries(y);
    Eras(y);
    LeapDivides(y);
  }

  lemma MonthTable(y: int)
    ensures var l := if Leap(y) then 1 else 0;
            && DaysBeforeMonth(y, 2) == 31
            && DaysBeforeMonth(y, 3) == 59 + l
            && DaysBeforeMonth(y, 4) == 90 + l
            && DaysBeforeMonth(y, 5) == 120 + l
            && DaysBeforeMonth(y, 6) == 151 + l
            && DaysBeforeMonth(y, 7) == 181 + l
            && DaysBeforeMonth(y, 8) == 212 + l
            && DaysBeforeMonth(y, 9) == 243 + l
            && DaysBeforeMonth(y, 10) == 273 + l
            && DaysBeforeMonth(y, 11) == 304 + l
            && DaysBeforeMonth(y, 12) == 334 + l
  {
    assert DaysBeforeMonth(y, 1) == 0;
    assert DaysBeforeMonth(y, 4) == 90 + (if Leap(y) then 1 else 0);
    assert DaysBeforeMonth(y, 7) == 181 + (if Leap(y) then 1 else 0);
    assert DaysBeforeMonth(y, 10) == 273 + (if Leap(y) then 1 else 0);
  }

  /** The day numbering agrees with the calendar: the next date has the next number. */
  lemma NextDateNumber(t: Date)
    requires Valid(t)
    ensures Valid(NextDate(t)) && DayNumber(NextDate(t)) == DayNumber(t) + 1
  {
    if t.month == 12 {
      YearLength(t.year);
      MonthTable(t.year);
    }
  }

  /** The calendar repeats every 400 years. */
  lemma LeapPeriod(y: int, era: int)
    ensures Leap(y + 400 * era) <==> Leap(y)
  {
    assert (y + 400 * era) / 4 == y / 4 + 100 * era;
    assert (y + 400 * era) / 100 == y / 100 + 4 * era;
    assert (y + 400 * era) / 400 == y / 400 + era;
  }

  lemma JanuaryPeriod(y: int, era: int)
    ensures JanuaryFirst(y + 400 * era) == JanuaryFirst(y) + 146_097 * era
  {
    var x := y - 1;
    assert (x + 400 * era) / 4 == x / 4 + 100 * era;
    assert (x + 400 * era) / 100 == x / 100 + 4 * era;
    assert (x + 400 * era) / 400 == x / 400 + era;
  }

  /** 1 March of year `yoe` of era `era`, counted from 1970-01-01. */
  function MarchFirst(era: int, yoe: int): int {
    146_097 * era + YearStart(yoe) - 719_468
  }

  lemma MarchOfEraZero(yoe: int)
    requires 0 <= yoe <= 399
    ensures JanuaryFirst(yoe) + 59 + (if Leap(yoe) then 1 else 0) == MarchFirst(0, yoe)
  {
    assert yoe / 4 == (yoe - 1) / 4 + (if yoe % 4 == 0 then 1 else 0);
    assert yoe / 100 == (yoe - 1) / 100 + (if yoe % 100 == 0 then 1 else 0);
    assert (yoe - 1) / 400 == if yoe == 0 then -1 else 0;
  }

  lemma MarchIsMarch(era: int, yoe: int)
    requires 0 <= yoe <= 399
    ensures var y := yoe + 400 * era;
            && JanuaryFirst(y) + 59 + (if Leap(y) then 1 else 0) == MarchFirst(era, yoe)
            && JanuaryFirst(y + 1) == MarchFirst(era, yoe) + 306
  {
    LeapPeriod(yoe, era);
    JanuaryPeriod(yoe, era);
    MarchOfEraZero(yoe);
    YearLength(yoe + 400 * era);
  }

  lemma DateInYearRight(y: int, doy: int)
    requires 0 <= doy <= 365 && (doy == 365 ==> Leap(y + 1))
    ensures var t := DateInYear(y, doy);
            && Valid(t)
            && (t.year == y || t.year == y + 1)
            && (t.year == y ==> DaysBeforeMonth(y, t.month) + t.day - 1 == 59 + (if Leap(y) then 1 else 0) + doy)
            && (t.year == y + 1 ==> DaysBeforeMonth(y + 1, t.month) + t.day - 1 == doy - 306)
  {
    MonthRight(doy);
    MonthTable(y);
    MonthTable(y + 1);
  }

  /** A real date, so many days from 1970-01-01. */
  predicate IsDay(t: Date, n: int) {
    Valid(t) && DayNumber(t) == n
  }

  lemma DateFromMarch(era: int, yoe: int, y: int, doy: int, n: int)
    requires 0 <= yoe <= 399 && y == yoe + 400 * era && 0 <= doy <= 365 && (doy == 365 ==> Leap(yoe + 1))
    requires n == 146_097 * era + YearStart(yoe) - 719_468 + doy
    ensures IsDay(DateInYear(y, doy), n)
  {
    LeapPeriod(yoe + 1, era);
    MarchIsMarch(era, yoe);
    DateInYearRight(y, doy);
  }

  lemma DateFromEra(era: int, yoe: int, doe: int, n: int)
    requires InYear(doe, yoe) && n == 146_097 * era + doe - 719_468
    ensures IsDay(DateOfDay(era, yoe, doe), n)
  {
    DateFromMarch(era, yoe, yoe + era * 400, doe - YearStart(yoe), n);
  }

  lemma DateInEraRight(era: int, doe: int, n: int)
    requires 0 <= doe < 146_097 && n == 146_097 * era + doe - 719_468
    ensures IsDay(DateInEra(era, doe), n)
  {
    YearOfEraRight(doe);
    DateFromEra(era, YearOfEra(doe), doe, n);
  }

  // ---- Main results ----

  /** For every day count, before or after 1970, the code yields a real date, and that date
  is the one so many days from 1970-01-01. */
  lemma DateIsExact(days: int)
    ensures Valid(DaysToYmd(days)) && DayNumber(DaysToYmd(days)) == days
  {
    var z := days + 719_468;
    assert z - EraOf(z) * 146_097 == z % 146_097;
    DateInEraRight(EraOf(z), z % 146_097, days);
  }

  lemma {:induction false} JanuaryOrdered(y: int, y': int)
    requires y < y'
    ensures JanuaryFirst(y + 1) <= JanuaryFirst(y')
    decreases y' - y
  {
    if y + 1 == y' {
    } else {
      YearLength(y + 1);
      JanuaryOrdered(y + 1, y');
    }
  }

  predicate Before(t: Date, u: Date) {
    || t.year < u.year
    || (t.year == u.year && t.month < u.month)
    || (t.year == u.year && t.month == u.month && t.day < u.day)
  }

  /** A date lies within its year. */
  lemma NumberInYear(t: Date)
    requires Valid(t)
    ensures JanuaryFirst(t.year) <= DayNumber(t) < JanuaryFirst(t.year + 1)
  {
    MonthTable(t.year);
    YearLength(t.year);
  }

  lemma {:induction false} MonthsOrdered(y: int, m: int, k: int)
    requires 1 <= m < k <= 12
    ensures DaysBeforeMonth(y, m) + MonthLength(y, m) <= DaysBeforeMonth(y, k)
  {
    if k == m + 1 {
    } else {
      MonthsOrdered(y, m, k - 1);
    }
  }

  lemma NumberOrdered(t: Date, u: Date)
    requires Valid(t) && Valid(u) && Before(t, u)
    ensures DayNumber(t) < DayNumber(u)
  {
    if t.year < u.year {
      NumberInYear(t);
      NumberInYear(u);
      JanuaryOrdered(t.year, u.year);
    } else if t.month < u.month {
      MonthsOrdered(t.year, t.month, u.month);
    }
  }

  /** The code inverts the calendar's own numbering. */
  lemma DateInverts(t: Date)
    requires Valid(t)
    ensures DaysToYmd(DayNumber(t)) == t
  {
    var u := DaysToYmd(DayNumber(t));
    DateIsExact(DayNumber(t));
    if Before(t, u) {
      NumberOrdered(t, u);
    } else if Before(u, t) {
      NumberOrdered(u, t);
    }
  }

  lemma DayOfDate(t: Date, n: int)
    requires IsDay(t, n)
    ensures DaysToYmd(n) == t
  {
    DateInverts(t);
  }

  lemma JanuaryOf1970()
    ensures JanuaryFirst(1970) == 0
  {
    assert 1969 / 4 == 492 && 1969 / 100 == 19 && 1969 / 400 == 4;
  }

  lemma FirstIsZero(t: Date)
    requires t == Date(1970, 1, 1)
    ensures IsDay(t, 0)
  {
    JanuaryOf1970();
    assert DaysBeforeMonth(t.year, t.month) == 0;
  }

  /** Day zero is 1970-01-01. */
  lemma Epoch()
    ensures DaysToYmd(0) == Date(1970, 1, 1)
  {
    FirstIsZero(Date(1970, 1, 1));
    DayOfDate(Date(1970, 1, 1), 0);
  }

  /** One more day gives the calendar's next date. Every day count is the number of some
  date, so with the epoch this fixes the date of every day. */
  lemma DatesSucceed(t: Date)
    requires Valid(t)
    ensures DaysToYmd(DayNumber(t) + 1) == NextDate(t)
  {
    NextDateNumber(t);
    DateInverts(NextDate(t));
  }

  // ---- The printed form ----

  const WEEKDAYS := ["Sun", "Mon", "Tue", "Wed", "Thu", "Fri", "Sat"]

  const MONTHS := ["Jan", "Feb", "Mar", "Apr", "May", "Jun", "Jul", "Aug", "Sep", "Oct", "Nov", "Dec"]

  const SECS_PER_DAY := 86_400

  /** `{n:02}` for a number of at most two digits. */
  function TwoDigits(n: nat): (s: string)
    requires n < 100
    ensures |s| == 2 && AllDigits(s) && ReadDec(s) == n
  {
    var s := [DigitChar(n / 10), DigitChar(n % 10)];
    assert s[..1][..0] == [];
    assert ReadDec(s[..1]) == n / 10;
    s
  }

  /** `{n:04}`. */
  function FourDigits(n: nat): (s: string)
    ensures AllDigits(s) && ReadDec(s) == n
    ensures n < 10_000 ==> |s| == 4
  {
    ReadDecOfDec(n);
    var s := Dec(n);
    DecLength(n);
    var zeros := seq(if |s| < 4 then 4 - |s| else 0, _ => '0');
    ReadDecZeros(zeros, s);
    zeros + s
  }

  lemma DecLength(n: nat)
    ensures n < 10_000 ==> |Dec(n)| <= 4
  {
    if n < 10_000 {
      assert n / 10 / 10 / 10 < 10;
      assert |Dec(n / 10 / 10 / 10)| == 1;
      assert |Dec(n / 10 / 10)| <= 2;
      assert |Dec(n / 10)| <= 3;
    }
  }

  /** `format_http_date`: the IMF-fixdate of `secs` seconds after 1970-01-01 00:00:00 GMT. */
  function FormatHttpDate(secs: nat): string {
    var days, rem := secs / SECS_PER_DAY, secs % SECS_PER_DAY;
    var t := DaysToYmd(days);
    DateIsExact(days);
    YearIsNatural(days);
    FormatAt(t, (days + 4) % 7, rem)
  }

  function FormatAt(t: Date, dow: nat, rem: nat): string
    requires Valid(t) && t.year >= 0 && dow < 7 && rem < SECS_PER_DAY
  {
    DayPart(dow, t.day, t.month) + FourDigits(t.year) + TimePart(rem / 3600, rem % 3600 / 60, rem % 60)
  }

  function DayPart(dow: nat, d: nat, m: nat): (s: string)
    requires dow < 7 && d < 100 && 1 <= m <= 12
    ensures |s| == 12
  {
    NameLengths();
    WEEKDAYS[dow] + ", " + TwoDigits(d) + " " + MONTHS[m - 1] + " "
  }

  function TimePart(h: nat, mi: nat, sec: nat): (s: string)
    requires h < 100 && mi < 100 && sec < 100
    ensures |s| == 13
  {
    " " + TwoDigits(h) + ":" + TwoDigits(mi) + ":" + TwoDigits(sec) + " GMT"
  }

  lemma NameLengths()
    ensures forall i :: 0 <= i < 7 ==> |WEEKDAYS[i]| == 3
    ensures forall i :: 0 <= i < 12 ==> |MONTHS[i]| == 3
  {
  }

  lemma YearIsNatural(days: nat)
    ensures DaysToYmd(days).year >= 1970
  {
    DateIsExact(days);
    var t := DaysToYmd(days);
    if t.year < 1970 {
      NumberOrdered(t, Date(1970, 1, 1));
    }
  }

  // ---- Reading it back ----

  /** Where `name` stands in `names`. */
  function IndexOf(names: seq<string>, name: string): (r: Option<nat>)
    ensures r.Some? ==> r.value < |names| && names[r.value] == name
    ensures r.None? ==> name !in names
  {
    if names == [] then None
    else if names[0] == name then Some(0)
    else
      match IndexOf(names[1..], name)
      case None => None
      case Some(i) => Some(i + 1)
  }

  /** `Sun, 06 Nov `: weekday, day of the month, month, the first two counted from zero. */
  function ReadDayPart(s: string): Option<(nat, nat, nat)>
    requires |s| == 12
  {
    if s[3..5] != ", " || s[7] != ' ' || s[11] != ' ' || !AllDigits(s[5..7]) then None
    else
      match (IndexOf(WEEKDAYS, s[..3]), IndexOf(MONTHS, s[8..11]))
      case (Some(dow), Some(m)) => Some((dow, ReadDec(s[5..7]), m + 1))
      case _ => None
  }

  /** ` 08:49:37 GMT`, in seconds. */
  function ReadTimePart(s: string): Option<nat>
    requires |s| == 13
  {
    if s[0] != ' ' || s[3] != ':' || s[6] != ':' || s[9..] != " GMT" then None
    else if !AllDigits(s[1..3]) || !AllDigits(s[4..6]) || !AllDigits(s[7..9]) then None
    else Some(3600 * ReadDec(s[1..3]) + 60 * ReadDec(s[4..6]) + ReadDec(s[7..9]))
  }

  /** A reader of HTTP dates that knows nothing of the printer: it splits the text by
  position, looks the names up, and counts days by the calendar. */
  function ReadHttpDate(s: string): Option<int> {
    if |s| < 25 || !AllDigits(s[12..|s| - 13]) then None
    else
      match (ReadDayPart(s[..12]), ReadTimePart(s[|s| - 13..]))
      case (Some((dow, d, m)), Some(time)) => SecondOf(dow, Date(ReadDec(s[12..|s| - 13]), m, d), time)
      case _ => None
  }

  function SecondOf(dow: nat, t: Date, time: nat): Option<int> {
    if Valid(t) && dow == (DayNumber(t) + 4) % 7 then Some(DayNumber(t) * SECS_PER_DAY + time) else None
  }

  lemma {:induction false} IndexOfDistinct(names: seq<string>, i: nat)
    requires i < |names| && forall a, b :: 0 <= a < b < |names| ==> names[a] != names[b]
    ensures IndexOf(names, names[i]) == Some(i)
  {
    if i == 0 {
    } else {
      IndexOfDistinct(names[1..], i - 1);
    }
  }

  lemma MonthNamesDistinct(m: nat)
    requires m < 12
    ensures IndexOf(MONTHS, MONTHS[m]) == Some(m)
  {
    IndexOfDistinct(MONTHS, m);
  }

  lemma WeekdayNamesDistinct(d: nat)
    requires d < 7
    ensures IndexOf(WEEKDAYS, WEEKDAYS[d]) == Some(d)
  {
    IndexOfDistinct(WEEKDAYS, d);
  }

  lemma DayPartSlices(weekday: string, day: string, month: string)
    requires |weekday| == 3 && |day| == 2 && |month| == 3
    ensures var s := weekday + ", " + day + " " + month + " ";
      |s| == 12 && s[..3] == weekday && s[3..5] == ", " && s[5..7] == day && s[7] == ' ' && s[8..11] == month && s[11] == ' '
  {
  }

  lemma DayPartReads(s: string, dow: nat, m: nat)
    requires |s| == 12 && s[3..5] == ", " && s[7] == ' ' && s[11] == ' ' && AllDigits(s[5..7])
    requires IndexOf(WEEKDAYS, s[..3]) == Some(dow) && IndexOf(MONTHS, s[8..11]) == Some(m)
    ensures ReadDayPart(s) == Some((dow, ReadDec(s[5..7]), m + 1))
  {
  }

  lemma DayPartRoundTrip(dow: nat, d: nat, m: nat)
    requires dow < 7 && d < 100 && 1 <= m <= 12
    ensures ReadDayPart(DayPart(dow, d, m)) == Some((dow, d, m))
  {
    NameLengths();
    WeekdayNamesDistinct(dow);
    MonthNamesDistinct(m - 1);
    DayPartSlices(WEEKDAYS[dow], TwoDigits(d), MONTHS[m - 1]);
    DayPartReads(DayPart(dow, d, m), dow, m - 1);
  }

  lemma TimePartRoundTrip(h: nat, mi: nat, sec: nat)
    requires h < 100 && mi < 100 && sec < 100
    ensures ReadTimePart(TimePart(h, mi, sec)) == Some(3600 * h + 60 * mi + sec)
  {
    var s := TimePart(h, mi, sec);
    assert s[1..3] == TwoDigits(h) && s[4..6] == TwoDigits(mi) && s[7..9] == TwoDigits(sec) && s[9..] == " GMT";
  }

  lemma TimeSplit(rem: nat)
    ensures 3600 * (rem / 3600) + 60 * (rem % 3600 / 60) + rem % 60 == rem
  {
    assert rem % 3600 % 60 == rem % 60;
  }

  /** The text is twelve characters of day, the year, and thirteen characters of time, which
  the readers turn back into the weekday, date and second they were printed from. */
  ghost predicate Reads(s: string, dow: nat, t: Date, time: nat) {
    && |s| >= 25 && t.day >= 0 && t.month >= 0
    && ReadDayPart(s[..12]) == Some((dow, t.day, t.month))
    && AllDigits(s[12..|s| - 13]) && ReadDec(s[12..|s| - 13]) == t.year
    && ReadTimePart(s[|s| - 13..]) == Some(time)
  }

  lemma ReadsParts(day: string, year: string, time: string, dow: nat, t: Date, rem: nat)
    requires |day| == 12 && |time| == 13 && AllDigits(year) && t.day >= 0 && t.month >= 0
    requires ReadDayPart(day) == Some((dow, t.day, t.month))
    requires ReadDec(year) == t.year
    requires ReadTimePart(time) == Some(rem)
    ensures Reads(day + year + time, dow, t, rem)
  {
    var s := day + year + time;
    assert s[..12] == day && s[12..|s| - 13] == year && s[|s| - 13..] == time;
  }

  lemma TimeOfDay(rem: nat)
    requires rem < SECS_PER_DAY
    ensures ReadTimePart(TimePart(rem / 3600, rem % 3600 / 60, rem % 60)) == Some(rem)
  {
    TimeSplit(rem);
    TimePartRoundTrip(rem / 3600, rem % 3600 / 60, rem % 60);
  }

  lemma ReadsAt(t: Date, dow: nat, rem: nat)
    requires Valid(t) && t.year >= 0 && dow < 7 && rem < SECS_PER_DAY
    ensures Reads(FormatAt(t, dow, rem), dow, t, rem)
  {
    var time := TimePart(rem / 3600, rem % 3600 / 60, rem % 60);
    DayPartRoundTrip(dow, t.day, t.month);
    TimeOfDay(rem);
    ReadsParts(DayPart(dow, t.day, t.month), FourDigits(t.year), time, dow, t, rem);
  }

  lemma ReadsAsSecond(s: string, dow: nat, t: Date, rem: nat)
    requires Reads(s, dow, t, rem)
    ensures ReadHttpDate(s) == SecondOf(dow, t, rem)
  {
  }

  lemma SecondOfDay(secs: nat, days: int, t: Date)
    requires days == secs / SECS_PER_DAY && IsDay(t, days)
    ensures SecondOf((days + 4) % 7, t, secs % SECS_PER_DAY) == Some(secs)
  {
    assert secs == days * SECS_PER_DAY + secs % SECS_PER_DAY;
  }

  lemma FormattedBack(t: Date, days: int, secs: nat)
    requires days == secs / SECS_PER_DAY && IsDay(t, days) && t.year >= 0
    ensures ReadHttpDate(FormatAt(t, (days + 4) % 7, secs % SECS_PER_DAY)) == Some(secs)
  {
    var dow, rem := (days + 4) % 7, secs % SECS_PER_DAY;
    ReadsAt(t, dow, rem);
    ReadsAsSecond(FormatAt(t, dow, rem), dow, t, rem);
    SecondOfDay(secs, days, t);
  }

  /** Every timestamp survives being printed and read: the weekday, the date and the time of
  day in the header are those of the very second. */
  lemma HttpDateRoundTrip(secs: nat)
    ensures ReadHttpDate(FormatHttpDate(secs)) == Some(secs)
  {
    var days := secs / SECS_PER_DAY;
    DateIsExact(days);
    YearIsNatural(days);
    FormattedBack(DaysToYmd(days), days, secs);
  }

  /** Up to the year 9999 the text has the fixed 29 characters of an IMF-fixdate. */
  lemma HttpDateLength(secs: nat)
    requires DaysToYmd(secs / SECS_PER_DAY).year <= 9999
    ensures |FormatHttpDate(secs)| == 29
  {
    DateIsExact(secs / SECS_PER_DAY);
    YearIsNatural(secs / SECS_PER_DAY);
  }
}
