/**
 * The log's own calendar (logger.rs): days since 1970-01-01 to a Gregorian
 * date, and the fields of a time stamp.
 */
module Calendar {
  datatype Date = Date(year: int, month: int, day: int)

  /** Rust's `/` on `i64`: truncation toward zero. */
  function TruncDiv(a: int, b: int): int
    requires b > 0
  {
    if a >= 0 then a / b else -((-a) / b)
  }

  // The intermediate values of `civil_from_days`, by the names it gives them.

  function EraOf(z: int): int { TruncDiv(if z >= 0 then z else z - 146096, 146097) }

  function DoeOf(z: int): int { z - EraOf(z) * 146097 }

  function YoeOf(doe: int): int
  {
    TruncDiv(doe - TruncDiv(doe, 1460) + TruncDiv(doe, 36524) - TruncDiv(doe, 146096), 365)
  }

  /** Days before the year `yoe` of an era. */
  function DaysBeforeYear(yoe: int): int
  {
    365 * yoe + TruncDiv(yoe, 4) - TruncDiv(yoe, 100)
  }

  function DateInYear(y: int, doy: int): Date
  {
    var mp := TruncDiv(5 * doy + 2, 153);
    var d := doy - TruncDiv(153 * mp + 2, 5) + 1;
    var m := if mp < 10 then mp + 3 else mp - 9;
    Date(if m <= 2 then y + 1 else y, m, d)
  }

  /** `civil_from_days`. */
  function CivilFromDays(days: int): Date
  {
    var z := days + 719468;
    var era, doe := EraOf(z), DoeOf(z);
    var yoe := YoeOf(doe);
    DateInYear(yoe + era * 400, doe - DaysBeforeYear(yoe))
  }

  // ------------------------------------------------------ Gregorian reference

  predicate IsLeap(y: int) { y % 4 == 0 && (y % 100 != 0 || y % 400 == 0) }

  function DaysInMonth(y: int, m: int): int
    requires 1 <= m <= 12
  {
    if m == 2 then (if IsLeap(y) then 29 else 28)
    else if m == 4 || m == 6 || m == 9 || m == 11 then 30
    else 31
  }

  predicate Valid(d: Date)
  {
    1 <= d.month <= 12 && 1 <= d.day <= DaysInMonth(d.year, d.month)
  }

  function NextDate(d: Date): Date
    requires Valid(d)
  {
    if d.day < DaysInMonth(d.year, d.month) then Date(d.year, d.month, d.day + 1)
    else if d.month < 12 then Date(d.year, d.month + 1, 1)
    else Date(d.year + 1, 1, 1)
  }

  // ------------------------------------------------------------------- proof

  /** A year that starts in March is long when the February that ends it is. */
  function YearLength(y: int): int { if IsLeap(y + 1) then 366 else 365 }

  /** The era decomposition: 400 years of 146097 days, for any sign of `z`. */
  lemma EraDecomposes(z: int)
    ensures 0 <= DoeOf(z) < 146097 && z == EraOf(z) * 146097 + DoeOf(z)
    ensures DoeOf(z) < 146096 ==> EraOf(z + 1) == EraOf(z) && DoeOf(z + 1) == DoeOf(z) + 1
    ensures DoeOf(z) == 146096 ==> EraOf(z + 1) == EraOf(z) + 1 && DoeOf(z + 1) == 0
  {
  }

  /** A day of an era as century, four-year cycle, year and day of year. */
  datatype Place = Place(c: int, q: int, r: int, k: int)
  {
    predicate Valid()
    {
      && 0 <= c <= 3 && 0 <= q <= 24 && 0 <= r <= 3 && 0 <= k <= 365
      && (k == 365 ==> r == 3 && (q < 24 || c == 3))
    }

    function Year(): int { 100 * c + 4 * q + r }

    function Doe(): int { 36524 * c + 1461 * q + 365 * r + k }
  }

  lemma PlaceOf(doe: int) returns (p: Place)
    requires 0 <= doe < 146097
    ensures p.Valid() && p.Doe() == doe
  {
    var c := if doe / 36524 > 3 then 3 else doe / 36524;
    var inCentury := doe - 36524 * c;
    var q := inCentury / 1461;
    var inCycle := inCentury - 1461 * q;
    var r := if inCycle / 365 > 3 then 3 else inCycle / 365;
    p := Place(c, q, r, inCycle - 365 * r);
  }

  lemma PlaceStartsYear(p: Place)
    requires p.Valid()
    ensures p.Doe() == DaysBeforeYear(p.Year()) + p.k && 0 <= p.Year() < 400
    ensures p.k < YearLength(p.Year())
  {
    assert p.Year() / 4 == 25 * p.c + p.q && p.Year() / 100 == p.c;
    if p.k == 365 {
      assert (p.Year() + 1) % 4 == 0;
    }
  }

  /** The three corrections cancel the leap days that precede the day. */
  lemma PlaceQuotients(p: Place)
    requires p.Valid()
    ensures var over := if 24 * p.c + p.q + 365 * p.r + p.k >= 1460 then 1 else 0;
      p.Doe() / 1460 == 25 * p.c + p.q + over
    ensures p.Doe() / 36524 - p.Doe() / 146096 == p.c
  {
    assert p.Doe() == 1460 * (25 * p.c + p.q) + (24 * p.c + p.q + 365 * p.r + p.k);
    if p.k == 365 && p.q == 24 {
      assert p.Doe() == 146096;
    } else {
      assert 1461 * p.q + 365 * p.r + p.k < 36524;
    }
  }

  lemma YoeOfPlace(p: Place)
    requires p.Valid()
    ensures YoeOf(p.Doe()) == p.Year()
  {
    PlaceQuotients(p);
    var doe := p.Doe();
    var n := doe - doe / 1460 + doe / 36524 - doe / 146096;
    assert 365 * p.Year() <= n < 365 * p.Year() + 365;
  }

  lemma NextYearStart(yoe: int)
    requires 0 <= yoe < 399
    ensures DaysBeforeYear(yoe + 1) == DaysBeforeYear(yoe) + YearLength(yoe)
  {
  }

  lemma LastYear()
    ensures DaysBeforeYear(0) == 0 && DaysBeforeYear(399) + YearLength(399) == 146097
  {
  }

  /** Day-of-year within a March-first year gives a valid date, and dates advance with it. */
  lemma DateInYearValid(y: int, doy: int)
    requires 0 <= doy < YearLength(y)
    ensures Valid(DateInYear(y, doy))
    ensures doy + 1 < YearLength(y) ==> DateInYear(y, doy + 1) == NextDate(DateInYear(y, doy))
    ensures doy + 1 == YearLength(y) ==> NextDate(DateInYear(y, doy)) == Date(y + 1, 3, 1)
  {
    var mp := (5 * doy + 2) / 153;
    assert 0 <= mp <= 11;
  }

  lemma FirstOfYear(y: int)
    ensures DateInYear(y, 0) == Date(y, 3, 1)
  {
  }

  lemma YearShift(yoe: int, era: int)
    ensures YearLength(yoe + era * 400) == YearLength(yoe)
  {
    SameRemainder(yoe + 1, 100 * era, 4);
    SameRemainder(yoe + 1, 4 * era, 100);
    SameRemainder(yoe + 1, era, 400);
  }

  lemma SameRemainder(y: int, k: int, m: int)
    requires m == 4 || m == 100 || m == 400
    ensures (y + m * k) % m == y % m
  {
  }

  /** Year `y` of an era is the one that contains day `doe`. */
  predicate InYear(doe: int, y: int)
  {
    0 <= y < 400 && 0 <= doe - DaysBeforeYear(y) < YearLength(y)
  }

  lemma YoeIsYear(doe: int)
    requires 0 <= doe < 146097
    ensures InYear(doe, YoeOf(doe))
  {
    var p := PlaceOf(doe);
    YoeOfPlace(p);
    PlaceStartsYear(p);
  }

  lemma {:induction false} YearsIncrease(a: int, b: int)
    requires 0 <= a < b < 400
    ensures DaysBeforeYear(a) + YearLength(a) <= DaysBeforeYear(b)
    decreases b - a
  {
    NextYearStart(a);
    if a + 1 < b {
      YearsIncrease(a + 1, b);
    }
  }

  /** Only one year contains a day. */
  lemma OneYear(doe: int, y: int, y': int)
    requires InYear(doe, y) && InYear(doe, y')
    ensures y == y'
  {
    if y < y' {
      YearsIncrease(y, y');
    } else if y' < y {
      YearsIncrease(y', y);
    }
  }

  /** The next day of an era stays in its year or opens the next one. */
  lemma DayInEraAdvances(doe: int, y: int, y': int)
    requires InYear(doe, y) && InYear(doe + 1, y') && doe < 146096
    ensures if doe - DaysBeforeYear(y) + 1 < YearLength(y) then y' == y
      else y' == y + 1 && doe + 1 == DaysBeforeYear(y')
  {
    LastYear();
    if doe - DaysBeforeYear(y) + 1 < YearLength(y) {
      OneYear(doe + 1, y, y');
    } else {
      NextYearStart(y);
      OneYear(doe + 1, y + 1, y');
    }
  }

  lemma EraEnds(y: int, y': int)
    requires InYear(146096, y) && InYear(0, y')
    ensures y == 399 && 146096 - DaysBeforeYear(y) + 1 == YearLength(y) && y' == 0 && DaysBeforeYear(y') == 0
  {
    LastYear();
    OneYear(146096, y, 399);
    OneYear(0, y', 0);
  }

  /** The same across the whole count: the next day's year and day of year. */
  lemma DayAdvances(era: int, doe: int, y: int, era': int, doe': int, y': int)
    requires InYear(doe, y) && InYear(doe', y') && doe < 146097
    requires if doe < 146096 then era' == era && doe' == doe + 1 else era' == era + 1 && doe' == 0
    ensures 0 <= doe - DaysBeforeYear(y) < YearLength(y + era * 400)
    ensures if doe - DaysBeforeYear(y) + 1 < YearLength(y + era * 400)
      then y' + era' * 400 == y + era * 400 && doe' - DaysBeforeYear(y') == doe - DaysBeforeYear(y) + 1
      else y' + era' * 400 == y + era * 400 + 1 && doe' - DaysBeforeYear(y') == 0
  {
    YearShift(y, era);
    if doe == 146096 {
      EraEnds(y, y');
    } else {
      DayInEraAdvances(doe, y, y');
    }
  }

  lemma DatesAdvance(y: int, doy: int, y': int, doy': int, d: Date, d': Date)
    requires 0 <= doy < YearLength(y) && d == DateInYear(y, doy) && d' == DateInYear(y', doy')
    requires if doy + 1 < YearLength(y) then y' == y && doy' == doy + 1 else y' == y + 1 && doy' == 0
    ensures Valid(d) && d' == NextDate(d)
  {
    DateInYearValid(y, doy);
    FirstOfYear(y + 1);
  }

  lemma Epoch()
    ensures CivilFromDays(0) == Date(1970, 1, 1)
  {
  }

  /** A day's place in the cycle of eras, and its date in terms of it. */
  datatype Position = Position(era: int, doe: int, year: int)
  {
    predicate Valid() { 0 <= doe < 146097 && InYear(doe, year) }

    function ToDate(): Date
      requires Valid()
    {
      DateInYear(year + era * 400, doe - DaysBeforeYear(year))
    }

    predicate Next(to: Position)
    {
      if doe < 146096 then to.era == era && to.doe == doe + 1 else to.era == era + 1 && to.doe == 0
    }
  }

  lemma PositionOf(days: int) returns (p: Position)
    ensures p.Valid() && p.ToDate() == CivilFromDays(days)
    ensures p.era == EraOf(days + 719468) && p.doe == DoeOf(days + 719468)
  {
    EraDecomposes(days + 719468);
    var doe := DoeOf(days + 719468);
    YoeIsYear(doe);
    p := Position(EraOf(days + 719468), doe, YoeOf(doe));
  }

  lemma PositionsAdvance(days: int) returns (p: Position, q: Position)
    ensures p.Valid() && q.Valid() && p.Next(q)
    ensures p.ToDate() == CivilFromDays(days) && q.ToDate() == CivilFromDays(days + 1)
  {
    p := PositionOf(days);
    q := PositionOf(days + 1);
    EraDecomposes(days + 719468);
  }

  lemma NextPositionNextDate(p: Position, q: Position)
    requires p.Valid() && q.Valid() && p.Next(q)
    ensures Valid(p.ToDate()) && q.ToDate() == NextDate(p.ToDate())
  {
    DayAdvances(p.era, p.doe, p.year, q.era, q.doe, q.year);
    DatesAdvance(p.year + p.era * 400, p.doe - DaysBeforeYear(p.year),
                 q.year + q.era * 400, q.doe - DaysBeforeYear(q.year), p.ToDate(), q.ToDate());
  }

  lemma NextDay(days: int, d: Date, d': Date)
    requires d == CivilFromDays(days) && d' == CivilFromDays(days + 1)
    ensures Valid(d) && d' == NextDate(d)
  {
    var p, q := PositionsAdvance(days);
    NextPositionNextDate(p, q);
  }

  /**
   * Calendar exactness: day 0 is 1970-01-01, every day is a valid Gregorian
   * date, and each next day is the next date, for every integer day.
   */
  lemma CivilIsGregorian(days: int)
    ensures CivilFromDays(0) == Date(1970, 1, 1)
    ensures Valid(CivilFromDays(days))
    ensures CivilFromDays(days + 1) == NextDate(CivilFromDays(days))
  {
    Epoch();
    NextDay(days, CivilFromDays(days), CivilFromDays(days + 1));
  }

  // ------------------------------------------------------------------- stamp

  /** The seven fields `stamp` prints, most significant first. */
  datatype Stamp = Stamp(date: Date, hour: nat, minute: nat, second: nat, milli: nat)

  function StampOf(ms: nat): Stamp
  {
    var secs := ms / 1000;
    var days, tod := secs / 86400, secs % 86400;
    Stamp(CivilFromDays(days), tod / 3600, tod % 3600 / 60, tod % 60, ms % 1000)
  }

  predicate DateBefore(a: Date, b: Date)
  {
    a.year < b.year || (a.year == b.year && (a.month < b.month || (a.month == b.month && a.day < b.day)))
  }

  /** Lexicographic order of the fields. */
  predicate StampBefore(a: Stamp, b: Stamp)
  {
    || DateBefore(a.date, b.date)
    || (a.date == b.date && (a.hour < b.hour
        || (a.hour == b.hour && (a.minute < b.minute
            || (a.minute == b.minute && (a.second < b.second
                || (a.second == b.second && a.milli < b.milli)))))))
  }

  lemma NextDateIsLater(d: Date)
    requires Valid(d)
    ensures DateBefore(d, NextDate(d))
  {
  }

  lemma OneDayLater(day: int)
    ensures DateBefore(CivilFromDays(day), CivilFromDays(day + 1))
  {
    CivilIsGregorian(day);
    NextDateIsLater(CivilFromDays(day));
  }

  ghost predicate StepsForward(f: int -> Date, k: int) { DateBefore(f(k), f(k + 1)) }

  /** Dates that advance at every step are in order at any distance. */
  lemma {:induction false} StepsAddUp(f: int -> Date, a: int, b: int)
    requires a < b && forall k :: StepsForward(f, k)
    ensures DateBefore(f(a), f(b))
    decreases b - a
  {
    assert StepsForward(f, a);
    if a + 1 < b {
      StepsAddUp(f, a + 1, b);
      DateBeforeTransitive(f(a), f(a + 1), f(b));
    }
  }

  lemma LaterDays(a: int, b: int)
    requires a < b
    ensures DateBefore(CivilFromDays(a), CivilFromDays(b))
  {
    var f := day => CivilFromDays(day);
    forall k
      ensures StepsForward(f, k)
    {
      OneDayLater(k);
    }
    StepsAddUp(f, a, b);
  }

  lemma DateBeforeTransitive(a: Date, b: Date, c: Date)
    requires DateBefore(a, b) && DateBefore(b, c)
    ensures DateBefore(a, c)
  {
  }

  /** The clock fields determine, and are ordered like, the millisecond of the day. */
  lemma ClockOrder(a: nat, b: nat)
    requires a < b && a / 1000 / 86400 == b / 1000 / 86400
    ensures StampBefore(StampOf(a), StampOf(b))
  {
    var s, t := a / 1000 % 86400, b / 1000 % 86400;
    assert s <= t;
    ClockFields(s);
    ClockFields(t);
  }

  lemma ClockFields(tod: nat)
    requires tod < 86400
    ensures tod == 3600 * (tod / 3600) + 60 * (tod % 3600 / 60) + tod % 60
    ensures tod / 3600 < 24 && tod % 3600 / 60 < 60
  {
    assert tod % 3600 == 60 * (tod % 3600 / 60) + tod % 3600 % 60;
    assert tod % 3600 % 60 == tod % 60;
  }

  /** Later times have strictly later stamps, field by field, and every field is in range. */
  lemma StampsIncrease(a: nat, b: nat)
    requires a < b
    ensures StampBefore(StampOf(a), StampOf(b))
    ensures Valid(StampOf(a).date) && StampOf(a).hour < 24 && StampOf(a).minute < 60
    ensures StampOf(a).second < 60 && StampOf(a).milli < 1000
  {
    var x, y := a / 1000 / 86400, b / 1000 / 86400;
    CivilIsGregorian(x);
    ClockFields(a / 1000 % 86400);
    if x < y {
      LaterDays(x, y);
    } else {
      ClockOrder(a, b);
    }
  }
}
