/** Timestamps: writing seconds since 1970 as RFC 3339 text (store.rs) and reading them back
    (the CLI's format.rs). The Gregorian calendar is stated by its rules, a day at a time, and
    the program's arithmetic on eras of 400 years, counted from March 1, is proved to follow
    them for every day number; the text is proved to read back and to sort like the time. */
module Calendar {
  import opened Common

  datatype Civil = Civil(year: nat, month: nat, day: nat)

  // ── The Gregorian calendar, by its rules ───────────────────────────────────

  predicate Leap(y: nat) {
    y % 4 == 0 && (y % 100 != 0 || y % 400 == 0)
  }

  function DaysInMonth(y: nat, m: nat): nat {
    if m == 2 then (if Leap(y) then 29 else 28)
    else if m in {4, 6, 9, 11} then 30
    else 31
  }

  /** A date that exists (section 5.7 of RFC 3339). */
  predicate Valid(c: Civil) {
    1 <= c.month <= 12 && 1 <= c.day <= DaysInMonth(c.year, c.month)
  }

  /** The day after. */
  function Tomorrow(c: Civil): Civil
    requires Valid(c)
  {
    if c.day < DaysInMonth(c.year, c.month) then c.(day := c.day + 1)
    else if c.month < 12 then Civil(c.year, c.month + 1, 1)
    else Civil(c.year + 1, 1, 1)
  }

  predicate Earlier(a: Civil, b: Civil) {
    a.year < b.year || (a.year == b.year && (a.month < b.month || (a.month == b.month && a.day < b.day)))
  }

  // ── The program's arithmetic ───────────────────────────────────────────────

  /** Days from 0000-03-01 to 1970-01-01. */
  const EPOCH: nat := 719_468

  /** A date as the program counts: years from March 1, days from 0. */
  datatype MarchDate = MarchDate(year: nat, day: nat)

  /** The March-based date of a day number counted from 0000-03-01 (`format_rfc3339`). */
  function MarchOf(z: nat): (m: MarchDate)
    ensures m.day <= 365
  {
    var era, doe := z / 146_097, z % 146_097;
    YearOfEra(doe);
    var yoe := (doe - doe / 1460 + doe / 36524 - doe / 146_096) / 365;
    MarchDate(yoe + era * 400, doe - (365 * yoe + yoe / 4 - yoe / 100))
  }

  function FromMarch(m: MarchDate): (c: Civil)
    requires m.day <= 365
  {
    var mp := (5 * m.day + 2) / 153;
    var d := m.day - (153 * mp + 2) / 5 + 1;
    var mo := if mp < 10 then mp + 3 else mp - 9;
    Civil(if mo <= 2 then m.year + 1 else m.year, mo, d)
  }

  /** The date of a day number counted from 1970-01-01. */
  function CivilOf(days: nat): Civil {
    FromMarch(MarchOf(days + EPOCH))
  }

  /** A day of a 400-year era, counted from March 1, split into whole centuries, whole
      four-year spans, whole years and days. */
  datatype Split = Split(centuries: nat, quads: nat, years: nat, days: nat)

  function YearOf(s: Split): nat {
    100 * s.centuries + 4 * s.quads + s.years
  }

  predicate SplitOk(s: Split) {
    && s.centuries <= 3 && s.quads <= 24 && s.years <= 3 && s.days <= 365
    && (s.days == 365 ==> s.years == 3 && (s.quads < 24 || s.centuries == 3))
  }

  function SplitDay(doe: nat): (s: Split)
    requires doe < 146_097
    ensures SplitOk(s) && doe == 36524 * s.centuries + 1461 * s.quads + 365 * s.years + s.days
  {
    var c := if doe / 36524 > 3 then 3 else doe / 36524;
    var inCentury := doe - 36524 * c;
    var q := inCentury / 1461;
    var inQuad := inCentury - 1461 * q;
    var y := if inQuad / 365 > 3 then 3 else inQuad / 365;
    Split(c, q, y, inQuad - 365 * y)
  }

  /** The days of an era before its `yoe`-th March 1 (`365 * yoe + yoe / 4 - yoe / 100`). */
  lemma DaysBeforeYear(s: Split)
    requires SplitOk(s)
    ensures var yoe := YearOf(s);
            365 * yoe + yoe / 4 - yoe / 100 == 36524 * s.centuries + 1461 * s.quads + 365 * s.years
  {
    var yoe := YearOf(s);
    assert yoe / 4 == 25 * s.centuries + s.quads;
    assert yoe / 100 == s.centuries;
  }

  /** The program's quotient finds the year of the era, and what is left is the day of that
      year counted from March 1. */
  lemma YearOfEra(doe: nat)
    requires doe < 146_097
    ensures var yoe := (doe - doe / 1460 + doe / 36524 - doe / 146_096) / 365;
            var s := SplitDay(doe);
            && yoe == YearOf(s)
            && doe - (365 * yoe + yoe / 4 - yoe / 100) == s.days
  {
    var s := SplitDay(doe);
    var c, q, y, t := s.centuries, s.quads, s.years, s.days;
    assert doe / 36524 - doe / 146_096 == c;
    var k := (24 * c + q + 365 * y + t) / 1460;
    assert doe / 1460 == 25 * c + q + k;
    assert k <= 1 && (k == 1 ==> y == 3 && t >= 1) && (t == 365 ==> k == 1);
    var n := doe - doe / 1460 + c;
    assert n == 365 * YearOf(s) + (t - k) && 0 <= t - k < 365;
    assert n / 365 == YearOf(s);
    DaysBeforeYear(s);
  }

  /** What reading a timestamp gives: a number, a rejection, or unsigned arithmetic that
      falls below zero. */
  datatype Reading = Number(value: nat) | Rejected | Underflow

  /** The day number of a date, counted from 1970-01-01 (`parse_rfc3339_utc`). */
  function DaysOf(c: Civil): Reading {
    if c.month <= 2 && c.year == 0 then Underflow
    else
      var y := if c.month <= 2 then c.year - 1 else c.year;
      var mo := if c.month <= 2 then c.month + 9 else c.month - 3;
      var era, yoe := y / 400, y % 400;
      if (153 * mo + 2) / 5 + c.day == 0 then Underflow
      else
        var doy := (153 * mo + 2) / 5 + c.day - 1;
        var days := era * 146_097 + (yoe * 365 + yoe / 4 - yoe / 100 + doy);
        if days < EPOCH then Rejected else Number(days - EPOCH)
  }

  // ── The arithmetic follows the calendar ────────────────────────────────────

  /** Days from 0000-03-01 to March 1 of year `y`. */
  function DaysBefore(y: nat): int {
    365 * y + y / 4 - y / 100 + y / 400
  }

  /** The days from March 1 of `y` to the next March 1. */
  function YearLength(y: nat): nat {
    if Leap(y + 1) then 366 else 365
  }

  lemma DaysBeforeNext(y: nat)
    ensures DaysBefore(y + 1) == DaysBefore(y) + YearLength(y)
  {
    assert (y + 1) / 4 == y / 4 + (if (y + 1) % 4 == 0 then 1 else 0);
    assert (y + 1) / 100 == y / 100 + (if (y + 1) % 100 == 0 then 1 else 0);
    assert (y + 1) / 400 == y / 400 + (if (y + 1) % 400 == 0 then 1 else 0);
    assert (y + 1) % 100 == 0 ==> (y + 1) % 4 == 0;
    assert (y + 1) % 400 == 0 ==> (y + 1) % 100 == 0;
  }

  lemma {:induction false} DaysBeforeGrows(a: nat, b: nat)
    requires a < b
    ensures DaysBefore(a) + YearLength(a) <= DaysBefore(b)
    decreases b
  {
    DaysBeforeNext(b - 1);
    if a + 1 < b {
      DaysBeforeGrows(a, b - 1);
    } else {
      assert b == a + 1;
    }
  }

  lemma EraDays(era: nat, yoe: nat)
    requires yoe < 400
    ensures DaysBefore(era * 400 + yoe) == era * 146_097 + 365 * yoe + yoe / 4 - yoe / 100
  {
    var y := era * 400 + yoe;
    assert y / 4 == era * 100 + yoe / 4;
    assert y / 100 == era * 4 + yoe / 100;
    assert y / 400 == era;
  }

  lemma Mod4(a: nat, q: nat)
    requires a == 4 * q
    ensures a % 4 == 0
  {
  }

  lemma Mod100(a: nat, q: nat, r: nat)
    requires a == 100 * q + r && r < 100
    ensures a % 100 == r
  {
  }

  lemma Mod400(a: nat, q: nat)
    requires a == 400 * q
    ensures a % 400 == 0
  {
  }

  lemma LeapWithinCentury(century: nat, quad: nat)
    requires 1 <= quad <= 24
    ensures Leap(100 * century + 4 * quad)
  {
    var y := 100 * century + 4 * quad;
    Mod4(y, 25 * century + quad);
    Mod100(y, century, 4 * quad);
  }

  lemma LeapAtEra(era: nat)
    ensures Leap(400 * era)
  {
    Mod4(400 * era, 100 * era);
    Mod400(400 * era, era);
  }

  lemma LastDayIsLeap(era: nat, s: Split)
    requires SplitOk(s) && s.days == 365
    ensures Leap(era * 400 + YearOf(s) + 1)
  {
    var y := era * 400 + YearOf(s) + 1;
    if s.quads < 24 {
      assert y == 100 * (4 * era + s.centuries) + 4 * (s.quads + 1);
      LeapWithinCentury(4 * era + s.centuries, s.quads + 1);
    } else {
      assert y == 400 * (era + 1);
      LeapAtEra(era + 1);
    }
  }

  lemma MarchOfSplit(z: nat)
    ensures var s := SplitDay(z % 146_097);
            MarchOf(z) == MarchDate(YearOf(s) + z / 146_097 * 400, s.days)
  {
    YearOfEra(z % 146_097);
  }

  /** The year found is the one that contains the day. */
  lemma MarchOfContains(z: nat)
    ensures var m := MarchOf(z);
            m.day < YearLength(m.year) && z == DaysBefore(m.year) + m.day
  {
    MarchOfSplit(z);
    var era, s := z / 146_097, SplitDay(z % 146_097);
    var m := MarchDate(YearOf(s) + era * 400, s.days);
    EraDays(era, YearOf(s));
    DaysBeforeYear(s);
    if s.days == 365 {
      LastDayIsLeap(era, s);
    }
    assert m.day < YearLength(m.year) && z == DaysBefore(m.year) + m.day;
  }

  lemma MarchIsUnique(a: MarchDate, b: MarchDate)
    requires a.day < YearLength(a.year) && b.day < YearLength(b.year)
    requires DaysBefore(a.year) + a.day == DaysBefore(b.year) + b.day
    ensures a == b
  {
    if a.year < b.year {
      DaysBeforeGrows(a.year, b.year);
    } else if b.year < a.year {
      DaysBeforeGrows(b.year, a.year);
    }
  }

  function MarchTomorrow(m: MarchDate): MarchDate {
    if m.day + 1 < YearLength(m.year) then m.(day := m.day + 1) else MarchDate(m.year + 1, 0)
  }

  /** The month arithmetic, month by month from March: each day of the year falls in the month
      whose first day is the last one not after it. */
  lemma MonthOfDay(day: nat)
    requires day <= 365
    ensures var mp := (5 * day + 2) / 153;
            mp <= 11 && (153 * mp + 2) / 5 <= day < (153 * (mp + 1) + 2) / 5
  {
    var mp := (5 * day + 2) / 153;
    assert mp in {0, 1, 2, 3, 4, 5, 6, 7, 8, 9, 10, 11};
  }

  lemma FromMarchIsValid(m: MarchDate)
    requires m.day < YearLength(m.year)
    ensures Valid(FromMarch(m))
  {
    MonthOfDay(m.day);
    assert (5 * m.day + 2) / 153 in {0, 1, 2, 3, 4, 5, 6, 7, 8, 9, 10, 11};
  }

  lemma SameMonthFollows(m: MarchDate)
    requires m.day + 1 < YearLength(m.year) && (5 * m.day + 2) / 153 == (5 * m.day + 7) / 153
    ensures FromMarch(m.(day := m.day + 1)) == Tomorrow(FromMarch(m))
  {
    FromMarchIsValid(m);
    FromMarchIsValid(m.(day := m.day + 1));
    MonthOfDay(m.day);
  }

  lemma NextMonthFollows(m: MarchDate)
    requires m.day + 1 < YearLength(m.year) && (5 * m.day + 2) / 153 != (5 * m.day + 7) / 153
    ensures FromMarch(m.(day := m.day + 1)) == Tomorrow(FromMarch(m))
  {
    FromMarchIsValid(m);
    MonthOfDay(m.day);
    MonthOfDay(m.day + 1);
    var mp := (5 * m.day + 2) / 153;
    MonthStarts(mp);
    assert m.day + 1 == (153 * (mp + 1) + 2) / 5;
    assert FromMarch(m.(day := m.day + 1)).day == 1;
  }

  /** The length of each month but February, counted from March. */
  lemma MonthStarts(mp: nat)
    requires mp <= 10
    ensures (153 * (mp + 1) + 2) / 5 - (153 * mp + 2) / 5 == if mp in {1, 3, 6, 8} then 30 else 31
  {
  }

  lemma WithinYearFollows(m: MarchDate)
    requires m.day + 1 < YearLength(m.year)
    ensures FromMarch(m.(day := m.day + 1)) == Tomorrow(FromMarch(m))
  {
    if (5 * m.day + 2) / 153 == (5 * m.day + 7) / 153 {
      SameMonthFollows(m);
    } else {
      NextMonthFollows(m);
    }
  }

  lemma YearEndFollows(m: MarchDate)
    requires m.day + 1 == YearLength(m.year)
    ensures FromMarch(MarchDate(m.year + 1, 0)) == Tomorrow(FromMarch(m))
  {
    FromMarchIsValid(m);
    assert FromMarch(MarchDate(m.year + 1, 0)) == Civil(m.year + 1, 3, 1);
    assert m.day == 364 ==> FromMarch(m) == Civil(m.year + 1, 2, 28);
    assert m.day == 365 ==> FromMarch(m) == Civil(m.year + 1, 2, 29);
  }

  lemma FromMarchFollows(m: MarchDate)
    requires m.day < YearLength(m.year)
    ensures Valid(FromMarch(m)) && FromMarch(MarchTomorrow(m)) == Tomorrow(FromMarch(m))
  {
    FromMarchIsValid(m);
    if m.day + 1 < YearLength(m.year) {
      WithinYearFollows(m);
    } else {
      YearEndFollows(m);
    }
  }

  lemma NextMarch(z: nat)
    ensures MarchOf(z).day < YearLength(MarchOf(z).year)
    ensures MarchOf(z + 1) == MarchTomorrow(MarchOf(z))
  {
    var m, next := MarchOf(z), MarchOf(z + 1);
    MarchOfContains(z);
    MarchOfContains(z + 1);
    DaysBeforeNext(m.year);
    MarchIsUnique(next, MarchTomorrow(m));
  }

  lemma EpochIsNewYear()
    ensures CivilOf(0) == Civil(1970, 1, 1)
  {
    MarchOfContains(EPOCH);
    var m := MarchDate(1969, 306);
    assert DaysBefore(m.year) + m.day == EPOCH;
    MarchIsUnique(MarchOf(EPOCH), m);
    assert FromMarch(m) == Civil(1970, 1, 1);
  }

  /** Each day number gives the day after the one before it, by the rules of the calendar;
      day 0 is 1970-01-01. */
  lemma NextDayIsTomorrow(days: nat)
    ensures CivilOf(0) == Civil(1970, 1, 1)
    ensures Valid(CivilOf(days)) && CivilOf(days + 1) == Tomorrow(CivilOf(days))
  {
    EpochIsNewYear();
    NextMarch(days + EPOCH);
    FromMarchFollows(MarchOf(days + EPOCH));
  }

  /** The day number of a March-based date, as reading computes it. */
  lemma DaysOfMarch(m: MarchDate, days: nat)
    requires m.day < YearLength(m.year) && days + EPOCH == DaysBefore(m.year) + m.day
    ensures DaysOf(FromMarch(m)) == Number(days)
  {
    var mp := (5 * m.day + 2) / 153;
    assert mp in {0, 1, 2, 3, 4, 5, 6, 7, 8, 9, 10, 11};
    EraDays(m.year / 400, m.year % 400);
    assert m.year == m.year / 400 * 400 + m.year % 400;
  }

  /** Reading a date gives back the day number it was written from. */
  lemma DaysOfCivil(days: nat)
    ensures DaysOf(CivilOf(days)) == Number(days)
  {
    MarchOfContains(days + EPOCH);
    DaysOfMarch(MarchOf(days + EPOCH), days);
  }

  /** The March-based date of a date that exists. */
  function ToMarch(c: Civil): MarchDate
    requires Valid(c) && (c.month <= 2 ==> c.year > 0)
  {
    var mo := if c.month <= 2 then c.month + 9 else c.month - 3;
    MarchDate(if c.month <= 2 then c.year - 1 else c.year, (153 * mo + 2) / 5 + c.day - 1)
  }

  lemma ToMarchAndBack(c: Civil)
    requires Valid(c) && (c.month <= 2 ==> c.year > 0)
    ensures ToMarch(c).day < YearLength(ToMarch(c).year) && FromMarch(ToMarch(c)) == c
  {
    assert c.month in {1, 2, 3, 4, 5, 6, 7, 8, 9, 10, 11, 12};
  }

  lemma DaysOfIsFromMarch(c: Civil)
    requires Valid(c) && (c.month <= 2 ==> c.year > 0)
    ensures var z := DaysBefore(ToMarch(c).year) + ToMarch(c).day;
            DaysOf(c) == if z < EPOCH then Rejected else Number(z - EPOCH)
  {
    var y := ToMarch(c).year;
    EraDays(y / 400, y % 400);
    assert y == y / 400 * 400 + y % 400;
  }

  /** What is read of any date that exists: from 1970 on the day with that date, before 1970
      nothing, and before March of year 0 the subtraction goes below zero. */
  lemma DateIsRead(c: Civil)
    requires Valid(c)
    ensures c.year >= 1970 <==> DaysOf(c).Number?
    ensures c.year >= 1970 ==> CivilOf(DaysOf(c).value) == c
    ensures c.year == 0 && c.month <= 2 <==> DaysOf(c) == Underflow
  {
    if c.year > 0 || c.month > 2 {
      var m := ToMarch(c);
      var z := DaysBefore(m.year) + m.day;
      ToMarchAndBack(c);
      DaysOfIsFromMarch(c);
      assert DaysBefore(1969) + 306 == EPOCH;
      if m.year < 1969 {
        DaysBeforeGrows(m.year, 1969);
      } else if m.year > 1969 {
        DaysBeforeGrows(1969, m.year);
      }
      BeforeNewYear(c);
      if z >= EPOCH {
        MarchOfContains(z);
        MarchIsUnique(MarchOf(z), m);
      }
    }
  }

  lemma BeforeNewYear(c: Civil)
    requires Valid(c) && (c.month <= 2 ==> c.year > 0)
    ensures c.year >= 1970 <==> ToMarch(c).year > 1969 || (ToMarch(c).year == 1969 && ToMarch(c).day >= 306)
  {
    assert c.month in {1, 2, 3, 4, 5, 6, 7, 8, 9, 10, 11, 12};
  }

  lemma TomorrowIsLater(c: Civil)
    requires Valid(c)
    ensures Earlier(c, Tomorrow(c))
  {
  }

  lemma DayIsEarlierThanNext(days: nat)
    ensures Earlier(CivilOf(days), CivilOf(days + 1))
  {
    NextDayIsTomorrow(days);
    TomorrowIsLater(CivilOf(days));
  }

  lemma EarlierTransitive(a: Civil, b: Civil, c: Civil)
    requires Earlier(a, b) && Earlier(b, c)
    ensures Earlier(a, c)
  {
  }

  lemma {:induction false} Ascending(dates: nat -> Civil, a: nat, b: nat)
    requires a < b && forall d: nat :: Earlier(dates(d), dates(d + 1))
    ensures Earlier(dates(a), dates(b))
    decreases b
  {
    assert Earlier(dates(b - 1), dates(b - 1 + 1));
    if a + 1 < b {
      Ascending(dates, a, b - 1);
      EarlierTransitive(dates(a), dates(b - 1), dates(b));
    }
  }

  /** Later days have later dates. */
  lemma LaterDayIsLater(a: nat, b: nat)
    ensures a < b ==> Earlier(CivilOf(a), CivilOf(b))
  {
    forall d: nat
      ensures Earlier(CivilOf(d), CivilOf(d + 1))
    {
      DayIsEarlierThanNext(d);
    }
    if a < b {
      Ascending(CivilOf, a, b);
    }
  }

  // ── Text ───────────────────────────────────────────────────────────────────

  predicate IsDigit(c: char) {
    '0' <= c <= '9'
  }

  predicate AllDigits(s: string) {
    forall i | 0 <= i < |s| :: IsDigit(s[i])
  }

  function Digit(n: nat): char
    requires n < 10
  {
    ('0' as int + n) as char
  }

  function Decimal(n: nat): (s: string)
    ensures s != [] && AllDigits(s)
  {
    if n < 10 then [Digit(n)] else Decimal(n / 10) + [Digit(n % 10)]
  }

  function Zeros(n: nat): (s: string)
    ensures |s| == n && AllDigits(s)
  {
    if n == 0 then [] else ['0'] + Zeros(n - 1)
  }

  /** `{n:0width}`. */
  function Pad(n: nat, width: nat): (s: string)
    ensures s != [] && AllDigits(s)
  {
    var s := Decimal(n);
    if |s| < width then Zeros(width - |s|) + s else s
  }

  /** `format_rfc3339`. */
  function Format(secs: nat): string {
    var c, time := CivilOf(secs / 86_400), secs % 86_400;
    Pad(c.year, 4) + "-" + Pad(c.month, 2) + "-" + Pad(c.day, 2) + "T" +
    Pad(time / 3600, 2) + ":" + Pad(time % 3600 / 60, 2) + ":" + Pad(time % 60, 2) + "Z"
  }

  /** `split_once`: around the first `c`. */
  function SplitOnce(s: string, c: char): Option<(string, string)> {
    if s == [] then None
    else if s[0] == c then Some(([], s[1..]))
    else
      match SplitOnce(s[1..], c)
      case None => None
      case Some(parts) => Some(([s[0]] + parts.0, parts.1))
  }

  function TrimEnd(s: string, c: char): string {
    if s != [] && s[|s| - 1] == c then TrimEnd(s[..|s| - 1], c) else s
  }

  function DigitsValue(s: string): nat
    requires AllDigits(s)
  {
    if s == [] then 0 else 10 * DigitsValue(s[..|s| - 1]) + (s[|s| - 1] as int - '0' as int)
  }

  const U64_MAX: nat := 0xFFFF_FFFF_FFFF_FFFF

  /** `parse::<u64>`: digits with an optional plus sign, within range. */
  function ParseU64(s: string): Option<nat> {
    var digits := if s != [] && s[0] == '+' then s[1..] else s;
    if digits == [] || !AllDigits(digits) || DigitsValue(digits) > U64_MAX then None else Some(DigitsValue(digits))
  }

  /** Three numbers separated by `c`; `missing` stands in for an absent third one. */
  function ParseThree(s: string, c: char, missing: Option<string>): Option<(nat, nat, nat)> {
    match SplitOnce(s, c)
    case None => None
    case Some((first, rest)) =>
      var (second, third) := match SplitOnce(rest, c) case Some((a, b)) => (a, Some(b)) case None => (rest, missing);
      if third.None? then None
      else
        match (ParseU64(first), ParseU64(second), ParseU64(third.value))
        case (Some(a), Some(b), Some(d)) => Some((a, b, d))
        case _ => None
  }

  function AddClock(days: Reading, h: nat, m: nat, s: nat): Reading {
    match days
    case Number(n) => Number(n * 86_400 + h * 3600 + m * 60 + s)
    case Rejected => Rejected
    case Underflow => Underflow
  }

  function ParseParts(date: string, time: string): Reading {
    match (ParseThree(date, '-', None), ParseThree(time, ':', Some("0")))
    case (Some((y, mo, d)), Some((h, m, s))) => AddClock(DaysOf(Civil(y, mo, d)), h, m, s)
    case _ => Rejected
  }

  /** `parse_rfc3339_utc`. */
  function Parse(ts: string): Reading {
    match SplitOnce(TrimEnd(ts, 'Z'), 'T')
    case None => Rejected
    case Some((date, time)) => ParseParts(date, time)
  }

  // ── Round trip ─────────────────────────────────────────────────────────────

  lemma {:induction false} DecimalValue(n: nat)
    ensures DigitsValue(Decimal(n)) == n
  {
    if n >= 10 {
      DecimalValue(n / 10);
      var s := Decimal(n);
      assert s[..|s| - 1] == Decimal(n / 10);
    }
  }

  lemma {:induction false} LeadingZeros(k: nat, s: string)
    requires AllDigits(s)
    ensures DigitsValue(Zeros(k) + s) == DigitsValue(s)
    decreases |s|, k
  {
    if s != [] {
      LeadingZeros(k, s[..|s| - 1]);
      assert (Zeros(k) + s)[..k + |s| - 1] == Zeros(k) + s[..|s| - 1];
    } else if k > 0 {
      LeadingZeros(k - 1, s);
      ZerosSnoc(k - 1);
      assert (Zeros(k) + s)[..k - 1] == Zeros(k - 1) + s;
    }
  }

  lemma {:induction false} ZerosSnoc(k: nat)
    ensures Zeros(k + 1) == Zeros(k) + ['0']
  {
    if k > 0 {
      ZerosSnoc(k - 1);
    }
  }

  lemma PadParses(n: nat, width: nat)
    requires n <= U64_MAX
    ensures ParseU64(Pad(n, width)) == Some(n)
  {
    var s := Decimal(n);
    DecimalValue(n);
    if |s| < width {
      LeadingZeros(width - |s|, s);
    }
    assert IsDigit(Pad(n, width)[0]);
  }

  lemma {:induction false} SplitsAtFirst(a: string, c: char, b: string)
    requires c !in a
    ensures SplitOnce(a + [c] + b, c) == Some((a, b))
  {
    var s := a + [c] + b;
    if a == [] {
      assert s[1..] == b;
    } else {
      assert a == [a[0]] + a[1..];
      SplitsAtFirst(a[1..], c, b);
      assert s[1..] == a[1..] + [c] + b;
    }
  }

  lemma ThreeSplit(x: string, y: string, z: string, c: char, missing: Option<string>)
    requires c !in x && c !in y
    requires ParseU64(x).Some? && ParseU64(y).Some? && ParseU64(z).Some?
    ensures ParseThree(x + [c] + y + [c] + z, c, missing)
         == Some((ParseU64(x).value, ParseU64(y).value, ParseU64(z).value))
  {
    var rest := y + [c] + z;
    assert x + [c] + y + [c] + z == x + [c] + rest;
    SplitsAtFirst(x, c, rest);
    SplitsAtFirst(y, c, z);
  }

  lemma ThreeParse(a: nat, b: nat, d: nat, wa: nat, c: char, missing: Option<string>)
    requires a <= U64_MAX && b <= U64_MAX && d <= U64_MAX && !IsDigit(c)
    ensures ParseThree(Pad(a, wa) + [c] + Pad(b, 2) + [c] + Pad(d, 2), c, missing) == Some((a, b, d))
  {
    PadParses(a, wa);
    PadParses(b, 2);
    PadParses(d, 2);
    ThreeSplit(Pad(a, wa), Pad(b, 2), Pad(d, 2), c, missing);
  }

  lemma YearIsSmall(days: nat)
    ensures CivilOf(days).year <= days + 2000
  {
    MarchOfContains(days + EPOCH);
    var m := MarchOf(days + EPOCH);
    assert m.year + 1 <= days + 2000 by {
      assert 365 * m.year + m.year / 4 - m.year / 100 + m.year / 400 <= days + EPOCH;
      assert 365 * m.year <= days + EPOCH;
    }
  }

  lemma ParseSplits(date: string, clock: string)
    requires 'T' !in date && clock != [] && clock[|clock| - 1] != 'Z'
    ensures Parse(date + "T" + clock + "Z") == ParseParts(date, clock)
  {
    var trimmed := date + "T" + clock;
    assert (trimmed + "Z")[..|trimmed|] == trimmed;
    assert trimmed[|trimmed| - 1] == clock[|clock| - 1];
    assert TrimEnd(trimmed + "Z", 'Z') == TrimEnd(trimmed, 'Z') == trimmed;
    SplitsAtFirst(date, 'T', clock);
  }

  lemma PartsRead(date: string, clock: string, c: Civil, h: nat, m: nat, s: nat)
    requires ParseThree(date, '-', None) == Some((c.year, c.month, c.day))
    requires ParseThree(clock, ':', Some("0")) == Some((h, m, s))
    ensures ParseParts(date, clock) == AddClock(DaysOf(c), h, m, s)
  {
    assert Civil(c.year, c.month, c.day) == c;
  }

  function DateText(c: Civil): string {
    Pad(c.year, 4) + "-" + Pad(c.month, 2) + "-" + Pad(c.day, 2)
  }

  function ClockText(time: nat): string {
    Pad(time / 3600, 2) + ":" + Pad(time % 3600 / 60, 2) + ":" + Pad(time % 60, 2)
  }

  lemma DateReads(c: Civil)
    requires c.year <= U64_MAX && Valid(c)
    ensures 'T' !in DateText(c)
    ensures ParseThree(DateText(c), '-', None) == Some((c.year, c.month, c.day))
  {
    ThreeParse(c.year, c.month, c.day, 4, '-', None);
  }

  lemma ClockReads(time: nat)
    requires time < 86_400
    ensures ClockText(time) != [] && ClockText(time)[|ClockText(time)| - 1] != 'Z'
    ensures ParseThree(ClockText(time), ':', Some("0")) == Some((time / 3600, time % 3600 / 60, time % 60))
  {
    ThreeParse(time / 3600, time % 3600 / 60, time % 60, 2, ':', Some("0"));
    assert ClockText(time)[|ClockText(time)| - 1] == Pad(time % 60, 2)[|Pad(time % 60, 2)| - 1];
  }

  lemma FormatIsTwoTexts(secs: nat)
    ensures Format(secs) == DateText(CivilOf(secs / 86_400)) + "T" + ClockText(secs % 86_400) + "Z"
  {
    var c, time := CivilOf(secs / 86_400), secs % 86_400;
    var y, mo, d := Pad(c.year, 4), Pad(c.month, 2), Pad(c.day, 2);
    var h, m, s := Pad(time / 3600, 2), Pad(time % 3600 / 60, 2), Pad(time % 60, 2);
    assert y + "-" + mo + "-" + d + "T" + h + ":" + m + ":" + s + "Z"
        == (y + "-" + mo + "-" + d) + "T" + (h + ":" + m + ":" + s) + "Z";
  }

  lemma Mod60(a: nat, q: nat, r: nat)
    requires a == 60 * q + r && r < 60
    ensures a % 60 == r
  {
  }

  lemma ClockSum(time: nat)
    ensures time == 3600 * (time / 3600) + 60 * (time % 3600 / 60) + time % 60
    ensures time % 3600 / 60 < 60 && time % 60 < 60
  {
    var h, rest := time / 3600, time % 3600;
    var m, s := rest / 60, rest % 60;
    assert time == 3600 * h + rest && rest == 60 * m + s;
    Mod60(time, 60 * h + m, s);
  }

  lemma TextReadsBack(c: Civil, time: nat)
    requires Valid(c) && c.year <= U64_MAX && time < 86_400
    ensures Parse(DateText(c) + "T" + ClockText(time) + "Z")
         == AddClock(DaysOf(c), time / 3600, time % 3600 / 60, time % 60)
  {
    var (h, m, s) := (time / 3600, time % 3600 / 60, time % 60);
    DateReads(c);
    ClockReads(time);
    ParseSplits(DateText(c), ClockText(time));
    PartsRead(DateText(c), ClockText(time), c, h, m, s);
  }

  lemma ClockAddsUp(days: nat, time: nat)
    ensures AddClock(Number(days), time / 3600, time % 3600 / 60, time % 60) == Number(days * 86_400 + time)
  {
    ClockSum(time);
  }

  /** For every `u64` number of seconds, reading the written timestamp gives the number back. */
  lemma RoundTrip(secs: nat)
    requires secs <= U64_MAX
    ensures Parse(Format(secs)) == Number(secs)
  {
    var days := secs / 86_400;
    NextDayIsTomorrow(days);
    YearIsSmall(days);
    DaysOfCivil(days);
    FormatIsTwoTexts(secs);
    TextReadsBack(CivilOf(days), secs % 86_400);
    ClockAddsUp(days, secs % 86_400);
  }

  lemma MinutesRead(h: nat, m: nat)
    requires h < 24 && m < 60
    ensures var clock := Pad(h, 2) + ":" + Pad(m, 2);
            clock[|clock| - 1] != 'Z' && ParseThree(clock, ':', Some("0")) == Some((h, m, 0))
  {
    PadParses(h, 2);
    PadParses(m, 2);
    SplitsAtFirst(Pad(h, 2), ':', Pad(m, 2));
    HasNoSplit(Pad(m, 2), ':');
    DecimalValue(0);
  }

  /** Seconds may be missing, and then count as zero. */
  lemma MinutesReadBack(c: Civil, h: nat, m: nat)
    requires Valid(c) && c.year <= U64_MAX && h < 24 && m < 60
    ensures Parse(DateText(c) + "T" + (Pad(h, 2) + ":" + Pad(m, 2)) + "Z") == AddClock(DaysOf(c), h, m, 0)
  {
    var clock := Pad(h, 2) + ":" + Pad(m, 2);
    DateReads(c);
    MinutesRead(h, m);
    ParseSplits(DateText(c), clock);
    PartsRead(DateText(c), clock, c, h, m, 0);
  }

  lemma {:induction false} HasNoSplit(s: string, c: char)
    requires c !in s
    ensures SplitOnce(s, c).None?
  {
    if s != [] {
      HasNoSplit(s[1..], c);
    }
  }

  lemma {:induction false} TrimmedIsPrefix(s: string, c: char)
    ensures TrimEnd(s, c) <= s
  {
    if s != [] && s[|s| - 1] == c {
      TrimmedIsPrefix(s[..|s| - 1], c);
    }
  }

  /** A text without a `T` is no timestamp. */
  lemma DateAloneIsRejected(ts: string)
    requires 'T' !in ts
    ensures Parse(ts) == Rejected
  {
    TrimmedIsPrefix(ts, 'Z');
    HasNoSplit(TrimEnd(ts, 'Z'), 'T');
  }

  // ── Order ──────────────────────────────────────────────────────────────────

  /** The last `width` decimal digits of a number. */
  function Fixed(n: nat, width: nat): (s: string)
    ensures |s| == width
  {
    if width == 0 then [] else Fixed(n / 10, width - 1) + [Digit(n % 10)]
  }

  function Pow10(k: nat): nat {
    if k == 0 then 1 else 10 * Pow10(k - 1)
  }

  lemma {:induction false} FixedZeros(width: nat)
    ensures Fixed(0, width) == Zeros(width)
  {
    if width > 0 {
      FixedZeros(width - 1);
      ZerosSnoc(width - 1);
    }
  }

  lemma PadOfDigit(n: nat, width: nat)
    requires n < 10 && width > 0
    ensures Pad(n, width) == Fixed(n, width)
  {
    FixedZeros(width - 1);
    assert Decimal(n) == [Digit(n)];
    assert width == 1 ==> Zeros(width - 1) + [Digit(n)] == [Digit(n)];
  }

  lemma {:induction false} PadIsFixed(n: nat, width: nat)
    requires n < Pow10(width) && width > 0
    ensures |Decimal(n)| <= width && Pad(n, width) == Fixed(n, width)
    decreases n
  {
    if n < 10 {
      PadOfDigit(n, width);
    } else {
      assert n / 10 < Pow10(width - 1) && width > 1;
      PadIsFixed(n / 10, width - 1);
      var s, k := Decimal(n / 10), width - 1 - |Decimal(n / 10)|;
      assert Decimal(n) == s + [Digit(n % 10)];
      assert Zeros(k) + Decimal(n) == (Zeros(k) + s) + [Digit(n % 10)];
      assert Pad(n / 10, width - 1) == Zeros(k) + s by {
        if k == 0 {
          assert Zeros(k) + s == s;
        }
      }
    }
  }

  /** Texts of one length compare by their heads first. */
  lemma {:induction false} StrLessByParts(a: string, x: string, b: string, y: string)
    requires |a| == |b|
    ensures StrLess(a + x, b + y) <==> StrLess(a, b) || (a == b && StrLess(x, y))
  {
    if a == [] {
      assert a + x == x && b + y == y;
    } else {
      assert (a + x)[1..] == a[1..] + x && (b + y)[1..] == b[1..] + y;
      assert a == [a[0]] + a[1..] && b == [b[0]] + b[1..];
      StrLessByParts(a[1..], x, b[1..], y);
    }
  }

  lemma {:induction false} FixedOrder(a: nat, b: nat, width: nat)
    requires a < Pow10(width) && b < Pow10(width)
    ensures StrLess(Fixed(a, width), Fixed(b, width)) <==> a < b
    ensures Fixed(a, width) == Fixed(b, width) <==> a == b
  {
    if width > 0 {
      FixedOrder(a / 10, b / 10, width - 1);
      StrLessByParts(Fixed(a / 10, width - 1), [Digit(a % 10)], Fixed(b / 10, width - 1), [Digit(b % 10)]);
      var x, y := [Digit(a % 10)], [Digit(b % 10)];
      assert StrLess(x, y) <==> a % 10 < b % 10;
      assert x == y <==> a % 10 == b % 10;
      assert Fixed(a, width)[..width - 1] == Fixed(a / 10, width - 1);
      assert Fixed(b, width)[..width - 1] == Fixed(b / 10, width - 1);
      assert Fixed(a, width)[width - 1] == Digit(a % 10) && Fixed(b, width)[width - 1] == Digit(b % 10);
    }
  }

  /** A fixed-width field followed by the rest of a text. */
  lemma FieldOrder(a: nat, x: string, b: nat, y: string, width: nat)
    requires a < Pow10(width) && b < Pow10(width) && width > 0
    ensures StrLess(Pad(a, width) + x, Pad(b, width) + y) <==> a < b || (a == b && StrLess(x, y))
    ensures |Pad(a, width)| == |Pad(b, width)| == width
  {
    PadIsFixed(a, width);
    PadIsFixed(b, width);
    FixedOrder(a, b, width);
    StrLessByParts(Pad(a, width), x, Pad(b, width), y);
  }

  lemma SeparatorOrder(c: char, x: string, y: string)
    ensures StrLess([c] + x, [c] + y) <==> StrLess(x, y)
  {
    StrLessByParts([c], x, [c], y);
    StrLessIrreflexive([c]);
  }

  /** A separator and a two-digit field followed by the rest of a text. */
  lemma SeparatedFieldOrder(c: char, a: nat, x: string, b: nat, y: string)
    requires a < 100 && b < 100
    ensures StrLess([c] + (Pad(a, 2) + x), [c] + (Pad(b, 2) + y)) <==> a < b || (a == b && StrLess(x, y))
  {
    assert Pow10(2) == 100;
    SeparatorOrder(c, Pad(a, 2) + x, Pad(b, 2) + y);
    FieldOrder(a, x, b, y, 2);
  }

  function Fields(c: char, first: string, second: nat, third: nat): string {
    first + [c] + Pad(second, 2) + [c] + Pad(third, 2)
  }

  lemma FieldsNest(c: char, first: string, second: nat, third: nat, x: string)
    ensures Fields(c, first, second, third) + x == first + ([c] + (Pad(second, 2) + ([c] + (Pad(third, 2) + x))))
  {
    var p, q := Pad(second, 2), Pad(third, 2);
    assert first + [c] + p + [c] + q + x == first + ([c] + (p + ([c] + (q + x))));
  }

  lemma FieldsOrder(c: char, width: nat, a: (nat, nat, nat), x: string, b: (nat, nat, nat), y: string)
    requires width > 0 && a.0 < Pow10(width) && b.0 < Pow10(width) && a.1 < 100 && b.1 < 100 && a.2 < 100 && b.2 < 100
    ensures StrLess(Fields(c, Pad(a.0, width), a.1, a.2) + x, Fields(c, Pad(b.0, width), b.1, b.2) + y) <==>
            a.0 < b.0 || (a.0 == b.0 && (a.1 < b.1 || (a.1 == b.1 && (a.2 < b.2 || (a.2 == b.2 && StrLess(x, y))))))
  {
    FieldsNest(c, Pad(a.0, width), a.1, a.2, x);
    FieldsNest(c, Pad(b.0, width), b.1, b.2, y);
    var x2, y2 := [c] + (Pad(a.2, 2) + x), [c] + (Pad(b.2, 2) + y);
    FieldOrder(a.0, [c] + (Pad(a.1, 2) + x2), b.0, [c] + (Pad(b.1, 2) + y2), width);
    SeparatedFieldOrder(c, a.1, x2, b.1, y2);
    SeparatedFieldOrder(c, a.2, x, b.2, y);
  }

  lemma DateOrder(a: Civil, x: string, b: Civil, y: string)
    requires Valid(a) && Valid(b) && a.year <= 9999 && b.year <= 9999
    ensures StrLess(DateText(a) + x, DateText(b) + y) <==> Earlier(a, b) || (a == b && StrLess(x, y))
  {
    assert Pow10(4) == 10_000;
    FieldsOrder('-', 4, (a.year, a.month, a.day), x, (b.year, b.month, b.day), y);
    assert DateText(a) == Fields('-', Pad(a.year, 4), a.month, a.day);
    assert DateText(b) == Fields('-', Pad(b.year, 4), b.month, b.day);
  }

  lemma ClockOrder(a: nat, b: nat)
    requires a < 86_400 && b < 86_400
    ensures StrLess(ClockText(a) + "Z", ClockText(b) + "Z") <==> a < b
  {
    var (ha, ma, sa) := (a / 3600, a % 3600 / 60, a % 60);
    var (hb, mb, sb) := (b / 3600, b % 3600 / 60, b % 60);
    assert Pow10(2) == 100;
    ClockSum(a);
    ClockSum(b);
    FieldsOrder(':', 2, (ha, ma, sa), "Z", (hb, mb, sb), "Z");
    assert ClockText(a) == Fields(':', Pad(ha, 2), ma, sa) && ClockText(b) == Fields(':', Pad(hb, 2), mb, sb);
    StrLessIrreflexive("Z");
    MixedRadixOrder(ha, ma, sa, hb, mb, sb);
  }

  lemma MixedRadixOrder(ha: nat, ma: nat, sa: nat, hb: nat, mb: nat, sb: nat)
    requires ma < 60 && sa < 60 && mb < 60 && sb < 60
    ensures (3600 * ha + 60 * ma + sa < 3600 * hb + 60 * mb + sb) <==>
            (ha < hb || (ha == hb && (ma < mb || (ma == mb && sa < sb))))
  {
  }

  lemma Regroup(date: string, clock: string)
    ensures date + "T" + clock + "Z" == date + (['T'] + (clock + "Z"))
  {
  }

  lemma TextOrderOf(a: Civil, ta: nat, b: Civil, tb: nat)
    requires Valid(a) && Valid(b) && a.year <= 9999 && b.year <= 9999 && ta < 86_400 && tb < 86_400
    ensures StrLess(DateText(a) + "T" + ClockText(ta) + "Z", DateText(b) + "T" + ClockText(tb) + "Z") <==>
            Earlier(a, b) || (a == b && ta < tb)
  {
    var x, y := ClockText(ta) + "Z", ClockText(tb) + "Z";
    Regroup(DateText(a), ClockText(ta));
    Regroup(DateText(b), ClockText(tb));
    DateOrder(a, ['T'] + x, b, ['T'] + y);
    SeparatorOrder('T', x, y);
    ClockOrder(ta, tb);
  }

  /** Dates and day numbers compare alike. */
  lemma DateOrderIsDayOrder(a: nat, b: nat)
    ensures Earlier(CivilOf(a), CivilOf(b)) <==> a < b
    ensures CivilOf(a) == CivilOf(b) <==> a == b
  {
    var ca, cb := CivilOf(a), CivilOf(b);
    LaterDayIsLater(a, b);
    LaterDayIsLater(b, a);
    assert !(Earlier(ca, cb) && Earlier(cb, ca)) && !Earlier(ca, ca);
  }

  /** Through the year 9999, comparing timestamps as text compares the times. */
  lemma TextOrderIsTimeOrder(a: nat, b: nat)
    requires CivilOf(a / 86_400).year <= 9999 && CivilOf(b / 86_400).year <= 9999
    ensures StrLess(Format(a), Format(b)) <==> a < b
  {
    FormatIsTwoTexts(a);
    FormatIsTwoTexts(b);
    NextDayIsTomorrow(a / 86_400);
    NextDayIsTomorrow(b / 86_400);
    DateOrderIsDayOrder(a / 86_400, b / 86_400);
    TextOrderOf(CivilOf(a / 86_400), a % 86_400, CivilOf(b / 86_400), b % 86_400);
  }

  // ── The shape of a timestamp ───────────────────────────────────────────────

  lemma PadIsShort(n: nat, width: nat)
    requires n < Pow10(width) && width > 0
    ensures |Pad(n, width)| == width
  {
    PadIsFixed(n, width);
  }

  /** `YYYY-MM-DDTHH:MM:SSZ` through year 9999 (section 5.6 of RFC 3339). */
  lemma FormatShape(secs: nat)
    requires CivilOf(secs / 86_400).year <= 9999
    ensures var s := Format(secs);
            && |s| == 20 && s[4] == '-' && s[7] == '-' && s[10] == 'T' && s[13] == ':' && s[16] == ':' && s[19] == 'Z'
            && AllDigits(s[..4]) && AllDigits(s[5..7]) && AllDigits(s[8..10])
            && AllDigits(s[11..13]) && AllDigits(s[14..16]) && AllDigits(s[17..19])
  {
    var c, time := CivilOf(secs / 86_400), secs % 86_400;
    NextDayIsTomorrow(secs / 86_400);
    assert Pow10(2) == 100 && Pow10(4) == 10_000;
    PadIsShort(c.year, 4);
    PadIsShort(c.month, 2);
    PadIsShort(c.day, 2);
    PadIsShort(time / 3600, 2);
    PadIsShort(time % 3600 / 60, 2);
    PadIsShort(time % 60, 2);
    ShapeOf(Pad(c.year, 4), Pad(c.month, 2), Pad(c.day, 2), Pad(time / 3600, 2), Pad(time % 3600 / 60, 2), Pad(time % 60, 2));
  }

  lemma ShapeOf(y: string, mo: string, d: string, h: string, m: string, s: string)
    requires |y| == 4 && |mo| == |d| == |h| == |m| == |s| == 2
    ensures var t := y + "-" + mo + "-" + d + "T" + h + ":" + m + ":" + s + "Z";
            && |t| == 20 && t[4] == '-' && t[7] == '-' && t[10] == 'T' && t[13] == ':' && t[16] == ':' && t[19] == 'Z'
            && t[..4] == y && t[5..7] == mo && t[8..10] == d && t[11..13] == h && t[14..16] == m && t[17..19] == s
  {
    var date, time := y + "-" + mo + "-" + d, h + ":" + m + ":" + s;
    var t := y + "-" + mo + "-" + d + "T" + h + ":" + m + ":" + s + "Z";
    assert t == date + "T" + time + "Z";
    assert t[..10] == date && t[11..19] == time;
    assert t[..4] == date[..4] == y && t[5..7] == date[5..7] == mo && t[8..10] == date[8..10] == d;
    assert t[11..13] == time[..2] == h && t[14..16] == time[3..5] == m && t[17..19] == time[6..8] == s;
  }
}
