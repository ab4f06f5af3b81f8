/** The proleptic Gregorian calendar of ECMAScript's Date, in days and milliseconds since 1970-01-01. */
module Calendar {
  const MINUTE := 60_000
  const HOUR := 3_600_000
  const DAY := 86_400_000

  predicate IsLeap(y: int) {
    y % 4 == 0 && (y % 100 != 0 || y % 400 == 0)
  }

  /** The day on which year y begins. */
  function DayFromYear(y: int): int {
    365 * (y - 1970) + (y - 1969) / 4 - (y - 1901) / 100 + (y - 1601) / 400
  }

  const MONTH_START: seq<int> := [0, 31, 59, 90, 120, 151, 181, 212, 243, 273, 304, 334]

  /** The first day of month k, counted in months from January of year 0; k may be any integer. */
  function MonthDay(k: int): int {
    var m := k % 12;
    DayFromYear(k / 12) + MONTH_START[m] + (if m > 1 && IsLeap(k / 12) then 1 else 0)
  }

  /** Date.UTC's day number: month counts from 0, and months and dates out of range carry over. */
  function MakeDay(year: int, month: int, date: int): int {
    MonthDay(12 * year + month) + date - 1
  }

  function UtcMs(year: int, month: int, date: int, hour: int, minute: int): int {
    MakeDay(year, month, date) * DAY + hour * HOUR + minute * MINUTE
  }

  lemma FoursBefore(y: int)
    ensures (y - 1968) / 4 == (y - 1969) / 4 + (if y % 4 == 0 then 1 else 0)
  {
  }

  lemma HundredsBefore(y: int)
    ensures (y - 1900) / 100 == (y - 1901) / 100 + (if y % 100 == 0 then 1 else 0)
  {
  }

  lemma FourHundredsBefore(y: int)
    ensures (y - 1600) / 400 == (y - 1601) / 400 + (if y % 400 == 0 then 1 else 0)
  {
  }

  lemma Multiples(y: int)
    ensures y % 400 == 0 ==> y % 100 == 0
    ensures y % 100 == 0 ==> y % 4 == 0
  {
  }

  lemma YearLength(y: int)
    ensures DayFromYear(y + 1) == DayFromYear(y) + (if IsLeap(y) then 366 else 365)
  {
    FoursBefore(y);
    HundredsBefore(y);
    FourHundredsBefore(y);
    Multiples(y);
  }

  lemma MonthBegins(y: int, m: nat)
    requires m < 12
    ensures MonthDay(12 * y + m) == DayFromYear(y) + MONTH_START[m] + (if m > 1 && IsLeap(y) then 1 else 0)
  {
    hide DayFromYear, IsLeap;
    assert (12 * y + m) / 12 == y && (12 * y + m) % 12 == m;
  }

  /** The exact length of each month; the leap years are those divisible by 4 and not by 100, or by 400. */
  lemma MonthLengths(y: int, m: nat)
    requires m < 12
    ensures MonthDay(12 * y + m + 1) - MonthDay(12 * y + m) ==
      if m == 1 then if (y % 4 == 0 && y % 100 != 0) || y % 400 == 0 then 29 else 28
      else [31, 0, 31, 30, 31, 30, 31, 31, 30, 31, 30, 31][m]
  {
    hide MonthDay, DayFromYear, IsLeap;
    MonthBegins(y, m);
    LeapYears(y);
    if m == 11 {
      assert 12 * y + m + 1 == 12 * (y + 1) + 0;
      MonthBegins(y + 1, 0);
      YearLength(y);
    } else {
      MonthBegins(y, m + 1);
    }
  }

  lemma LeapYears(y: int)
    ensures IsLeap(y) <==> (y % 4 == 0 && y % 100 != 0) || y % 400 == 0
  {
    Multiples(y);
  }

  /** Days are counted from 1 January 1970, a Thursday, and weekdays follow each other. */
  lemma DaysAreCounted(day: int)
    ensures MakeDay(1970, 0, 1) == 0 && DayOfWeek(0) == 4
    ensures DayOfWeek(day + 1) == (DayOfWeek(day) + 1) % 7
  {
    hide MonthDay;
    MonthBegins(1970, 0);
    assert DayFromYear(1970) == 0;
  }

  /** Dates count the days of their month on, and months those of their year. */
  lemma DatesGoOn(y: int, m: int, date: int)
    ensures MakeDay(y, m, date + 1) == MakeDay(y, m, date) + 1
    ensures MakeDay(y, m + 12, date) == MakeDay(y + 1, m, date)
  {
    hide MonthDay;
    assert 12 * y + (m + 12) == 12 * (y + 1) + m;
  }

  lemma MonthLength(k: int)
    ensures 28 <= MonthDay(k + 1) - MonthDay(k) <= 31
  {
    hide MonthDay;
    assert k == 12 * (k / 12) + k % 12;
    MonthLengths(k / 12, k % 12);
  }

  lemma {:induction false} MonthsGrow(a: int, b: int)
    requires a < b
    ensures MonthDay(a) + 28 * (b - a) <= MonthDay(b)
    decreases b - a
  {
    hide MonthDay;
    MonthLength(b - 1);
    if a < b - 1 {
      MonthsGrow(a, b - 1);
    }
  }

  function MonthUp(day: int, k: int): (r: int)
    requires MonthDay(k) <= day
    ensures MonthDay(r) <= day < MonthDay(r + 1)
    decreases day - MonthDay(k)
  {
    hide MonthDay;
    MonthLength(k);
    if day < MonthDay(k + 1) then k else MonthUp(day, k + 1)
  }

  function MonthDown(day: int, k: int): (r: int)
    requires day < MonthDay(k + 1)
    ensures MonthDay(r) <= day < MonthDay(r + 1)
    decreases MonthDay(k + 1) - day
  {
    hide MonthDay;
    MonthLength(k);
    if MonthDay(k) <= day then k else MonthDown(day, k - 1)
  }

  /** The month a day lies in. */
  function MonthOf(day: int): (k: int)
    ensures MonthDay(k) <= day < MonthDay(k + 1)
  {
    hide MonthDay;
    var epoch := 12 * 1970;
    if MonthDay(epoch) <= day then MonthUp(day, epoch) else MonthDown(day, epoch - 1)
  }

  lemma MonthOfUnique(day: int, k: int)
    requires MonthDay(k) <= day < MonthDay(k + 1)
    ensures MonthOf(day) == k
  {
    hide MonthDay;
    var r := MonthOf(day);
    if r < k {
      MonthLength(r);
      if r + 1 < k {
        MonthsGrow(r + 1, k);
      }
    } else if k < r {
      if k + 1 < r {
        MonthsGrow(k + 1, r);
      }
    }
  }

  function YearOf(day: int): int {
    MonthOf(day) / 12
  }

  /** getUTCMonth: 0 to 11. */
  function MonthInYear(day: int): int {
    MonthOf(day) % 12
  }

  function DateOf(day: int): (d: int)
    ensures 1 <= d <= 31
  {
    hide MonthDay;
    MonthLength(MonthOf(day));
    day - MonthDay(MonthOf(day)) + 1
  }

  /** getUTCDay: 1970-01-01 was a Thursday. */
  function DayOfWeek(day: int): int {
    (day + 4) % 7
  }

  /** Any date of a day's own month. */
  lemma DateInMonth(day: int, date: int)
    ensures MakeDay(YearOf(day), MonthInYear(day), date) == MonthDay(MonthOf(day)) + date - 1
  {
    hide MonthDay;
    var k := MonthOf(day);
    assert 12 * (k / 12) + k % 12 == k;
  }

  /** A day is rebuilt from its own parts. */
  lemma PartsRebuildDay(day: int)
    ensures MakeDay(YearOf(day), MonthInYear(day), DateOf(day)) == day
  {
    hide MonthDay;
    var k := MonthOf(day);
    assert 12 * (k / 12) + k % 12 == k;
  }
}

/** Report schedules: the next run is the least daily, weekly or monthly occurrence after a given instant, and the
    worker turns the occurrences into jobs one after another. Zones are fixed offsets of whole minutes. */
module ReportSchedule {
  import opened Common
  import opened Calendar

  datatype Result<T> = Ok(value: T) | Invalid

  datatype Frequency = DAILY | WEEKLY | MONTHLY | UNSUPPORTED

  /** hour and minute are the two numbers of localTime; offset is the zone's, in minutes. */
  datatype Schedule = Schedule(
    frequency: Frequency, hour: int, minute: int, dayOfWeek: Option<int>, dayOfMonth: Option<int>, offset: int)

  function Local(s: Schedule, t: int): int {
    t + s.offset * MINUTE
  }

  function LocalDay(s: Schedule, t: int): int {
    Local(s, t) / DAY
  }

  // ---- what a schedule means ----

  predicate ValidTime(s: Schedule) {
    0 <= s.hour <= 23 && 0 <= s.minute <= 59
  }

  predicate ValidSchedule(s: Schedule) {
    && ValidTime(s)
    && match s.frequency
       case DAILY => true
       case WEEKLY => s.dayOfWeek.Some? && 0 <= s.dayOfWeek.value <= 6
       case MONTHLY => s.dayOfMonth.Some? && 1 <= s.dayOfMonth.value <= 28
       case UNSUPPORTED => false
  }

  predicate OnDay(s: Schedule, day: int) {
    match s.frequency
    case DAILY => true
    case WEEKLY => s.dayOfWeek.Some? && DayOfWeek(day) == s.dayOfWeek.value
    case MONTHLY => s.dayOfMonth.Some? && DateOf(day) == s.dayOfMonth.value
    case UNSUPPORTED => false
  }

  /** t is a moment at which the report is due. */
  predicate Occurs(s: Schedule, t: int) {
    Local(s, t) % DAY == s.hour * HOUR + s.minute * MINUTE && OnDay(s, LocalDay(s, t))
  }

  /** r is the least occurrence after t. */
  ghost predicate IsNext(s: Schedule, t: int, r: int) {
    t < r && Occurs(s, r) && forall u :: t < u < r ==> !Occurs(s, u)
  }

  // ---- the zone conversion ----

  datatype Parts = Parts(year: int, month: int, day: int, hour: int, minute: int)

  /** What the formatter shows: seconds and milliseconds are cut off; month counts from 1. */
  function ZonedParts(t: int, offset: int): Parts {
    var local := t + offset * MINUTE;
    var day := local / DAY;
    Parts(YearOf(day), MonthInYear(day) + 1, DateOf(day), local % DAY / HOUR, local % HOUR / MINUTE)
  }

  function PartsEpoch(p: Parts): int {
    UtcMs(p.year, p.month - 1, p.day, p.hour, p.minute)
  }

  lemma EpochOfDay(day: int, hour: int, minute: int)
    ensures PartsEpoch(Parts(YearOf(day), MonthInYear(day) + 1, DateOf(day), hour, minute)) == day * DAY + hour * HOUR + minute * MINUTE
  {
    PartsRebuildDay(day);
    hide MakeDay, YearOf, MonthInYear, DateOf;
  }

  lemma PartsTruncate(t: int, offset: int)
    ensures PartsEpoch(ZonedParts(t, offset)) == (t + offset * MINUTE) / MINUTE * MINUTE
  {
    var local := t + offset * MINUTE;
    SplitDay(local);
    hide PartsEpoch, YearOf, MonthInYear, DateOf;
    EpochOfDay(local / DAY, local % DAY / HOUR, local % HOUR / MINUTE);
  }

  lemma SplitDay(local: int)
    ensures local / MINUTE * MINUTE == local / DAY * DAY + local % DAY / HOUR * HOUR + local % HOUR / MINUTE * MINUTE
  {
    SplitHour(local);
    var q, h := local / DAY, local / HOUR;
    assert h == q * 24 + local % DAY / HOUR;
  }

  lemma SplitHour(local: int)
    ensures local / MINUTE * MINUTE == local / HOUR * HOUR + local % HOUR / MINUTE * MINUTE
  {
    var h := local / HOUR;
    assert local / MINUTE == h * 60 + local % HOUR / MINUTE;
  }

  lemma WholeMinutesShow(guess: int, offset: int)
    requires guess % MINUTE == 0
    ensures PartsEpoch(ZonedParts(guess, offset)) == guess + offset * MINUTE
  {
    PartsTruncate(guess, offset);
    hide PartsEpoch, ZonedParts;
    assert (guess + offset * MINUTE) % MINUTE == 0;
  }

  lemma UtcIsWholeMinutes(year: int, month: int, date: int, hour: int, minute: int, offset: int)
    ensures UtcMs(year, month, date, hour, minute) % MINUTE == 0
    ensures (UtcMs(year, month, date, hour, minute) - offset * MINUTE) % MINUTE == 0
  {
    hide MakeDay;
    assert UtcMs(year, month, date, hour, minute) == (MakeDay(year, month, date) * 1440 + hour * 60 + minute) * MINUTE;
  }

  /** At most three corrections; with a fixed offset the first is exact and the second confirms it. */
  method LocalToUtc(year: int, month: int, day: int, hour: int, minute: int, offset: int) returns (guess: int)
    ensures guess + offset * MINUTE == UtcMs(year, month - 1, day, hour, minute)
  {
    hide UtcMs, ZonedParts, PartsEpoch;
    var localEpoch := UtcMs(year, month - 1, day, hour, minute);
    UtcIsWholeMinutes(year, month - 1, day, hour, minute, offset);
    guess := localEpoch;
    for i := 0 to 3
      invariant guess == if i == 0 then localEpoch else localEpoch - offset * MINUTE
    {
      var actualEpoch := PartsEpoch(ZonedParts(guess, offset));
      WholeMinutesShow(guess, offset);
      var delta := actualEpoch - localEpoch;
      if delta == 0 {
        return;
      }
      guess := guess - delta;
    }
  }

  // ---- the next run ----

  /** setUTCDate(getUTCDate() + days), for the day number of a date. */
  function ShiftDate(day: int, days: int): int {
    MakeDay(YearOf(day), MonthInYear(day), DateOf(day) + days)
  }

  lemma ShiftAddsDays(day: int, days: int)
    ensures ShiftDate(day, days) == day + days
  {
    PartsRebuildDay(day);
    hide MonthDay, YearOf, MonthInYear, DateOf;
  }

  /** The instant of a local day's scheduled time. */
  function Moment(s: Schedule, day: int): int {
    day * DAY + s.hour * HOUR + s.minute * MINUTE - s.offset * MINUTE
  }

  lemma MomentParts(s: Schedule, day: int)
    requires ValidTime(s)
    ensures LocalDay(s, Moment(s, day)) == day && Local(s, Moment(s, day)) % DAY == s.hour * HOUR + s.minute * MINUTE
  {
    var time := s.hour * HOUR + s.minute * MINUTE;
    assert 0 <= time < DAY;
  }

  /** Occurrences are the moments of the days that match. */
  lemma OccursIsMoment(s: Schedule, t: int)
    requires ValidTime(s)
    ensures Occurs(s, t) <==> OnDay(s, LocalDay(s, t)) && t == Moment(s, LocalDay(s, t))
  {
    hide OnDay;
    assert Local(s, t) == LocalDay(s, t) * DAY + Local(s, t) % DAY;
  }

  lemma MomentsOrdered(s: Schedule, a: int, b: int)
    requires a < b
    ensures Moment(s, a) + DAY <= Moment(s, b)
  {
  }

  /** The moment of the first matching day not before t's own, or of the first one after it. */
  ghost predicate FirstFrom(s: Schedule, from: int, day: int) {
    from <= day && OnDay(s, day) && forall d :: from <= d < day ==> !OnDay(s, d)
  }

  /** If the first matching day from today on is still ahead, its moment is the next occurrence. */
  lemma FirstIsNext(s: Schedule, t: int, day: int)
    requires ValidTime(s) && FirstFrom(s, LocalDay(s, t), day) && t < Moment(s, day)
    ensures IsNext(s, t, Moment(s, day))
  {
    hide OnDay, Local;
    var r := Moment(s, day);
    MomentParts(s, day);
    OccursIsMoment(s, r);
    forall u | t < u < r ensures !Occurs(s, u) {
      OccursIsMoment(s, u);
      DaysOrdered(s, t, u);
      if LocalDay(s, u) > day {
        MomentsOrdered(s, day, LocalDay(s, u));
      }
    }
  }

  lemma DaysOrdered(s: Schedule, t: int, u: int)
    requires t <= u
    ensures LocalDay(s, t) <= LocalDay(s, u)
  {
  }

  /** If today's moment has passed, the next occurrence is that of the first matching day after today. */
  lemma SecondIsNext(s: Schedule, t: int, today: int, day: int)
    requires ValidTime(s) && today == LocalDay(s, t) && Moment(s, today) <= t && FirstFrom(s, today + 1, day)
    ensures IsNext(s, t, Moment(s, day))
  {
    hide OnDay, Local;
    var r := Moment(s, day);
    MomentParts(s, day);
    OccursIsMoment(s, r);
    TodayEnds(s, t);
    if today + 1 < day {
      MomentsOrdered(s, today + 1, day);
    }
    forall u | t < u < r ensures !Occurs(s, u) {
      OccursIsMoment(s, u);
      DaysOrdered(s, t, u);
      if LocalDay(s, u) > day {
        MomentsOrdered(s, day, LocalDay(s, u));
      }
    }
  }

  lemma TodayEnds(s: Schedule, t: int)
    requires ValidTime(s)
    ensures t < Moment(s, LocalDay(s, t) + 1)
  {
    var local := Local(s, t);
    assert local == LocalDay(s, t) * DAY + local % DAY;
  }

  // ---- the matching days ----

  function DaysAhead(dayOfWeek: int, currentDow: int): int {
    (dayOfWeek - currentDow + 7) % 7
  }

  lemma WeeklyDays(s: Schedule, today: int)
    requires s.frequency == WEEKLY && ValidSchedule(s)
    ensures var ahead := DaysAhead(s.dayOfWeek.value, DayOfWeek(today));
      ahead >= 0 && FirstFrom(s, today, today + ahead) && (ahead == 0 ==> FirstFrom(s, today + 1, today + 7))
  {
  }

  /** The scheduled date in month k. */
  function MonthlyDay(s: Schedule, k: int): int
    requires s.dayOfMonth.Some?
  {
    MonthDay(k) + s.dayOfMonth.value - 1
  }

  lemma OneDayAMonth(s: Schedule, k: int, d: int)
    requires s.frequency == MONTHLY && ValidSchedule(s) && MonthDay(k) <= d < MonthDay(k + 1)
    ensures OnDay(s, d) <==> d == MonthlyDay(s, k)
    ensures MonthDay(k) <= MonthlyDay(s, k) < MonthDay(k + 1)
  {
    hide MonthDay;
    MonthOfUnique(d, k);
    MonthLength(k);
  }

  lemma MonthSpan(s: Schedule, k: int)
    requires s.frequency == MONTHLY && ValidSchedule(s)
    ensures MonthDay(k) <= MonthlyDay(s, k) < MonthDay(k + 1) <= MonthlyDay(s, k + 1)
    ensures forall d :: MonthDay(k) <= d <= MonthlyDay(s, k + 1) ==> (OnDay(s, d) <==> d == MonthlyDay(s, k) || d == MonthlyDay(s, k + 1))
  {
    hide MonthDay, OnDay;
    MonthLength(k);
    MonthLength(k + 1);
    forall d | MonthDay(k) <= d <= MonthlyDay(s, k + 1)
      ensures OnDay(s, d) <==> d == MonthlyDay(s, k) || d == MonthlyDay(s, k + 1)
    {
      if d < MonthDay(k + 1) {
        OneDayAMonth(s, k, d);
      } else {
        OneDayAMonth(s, k + 1, d);
      }
    }
  }

  lemma MonthlyDays(s: Schedule, today: int)
    requires s.frequency == MONTHLY && ValidSchedule(s)
    ensures var k := MonthOf(today);
      && MonthOf(MonthlyDay(s, k)) == k && today < MonthlyDay(s, k + 1)
      && (today <= MonthlyDay(s, k) ==> FirstFrom(s, today, MonthlyDay(s, k)))
      && (MonthlyDay(s, k) < today ==> FirstFrom(s, today, MonthlyDay(s, k + 1)))
      && (MonthlyDay(s, k) == today ==> FirstFrom(s, today + 1, MonthlyDay(s, k + 1)))
  {
    hide MonthDay, MonthlyDay, OnDay, FirstFrom;
    var k := MonthOf(today);
    MonthSpan(s, k);
    MonthOfUnique(MonthlyDay(s, k), k);
    FirstInSpan(s, MonthDay(k), today, MonthlyDay(s, k), MonthlyDay(s, k + 1));
  }

  lemma FirstInSpan(s: Schedule, low: int, today: int, a: int, b: int)
    requires low <= today && low <= a < b && today < b
    requires forall d :: low <= d <= b ==> (OnDay(s, d) <==> d == a || d == b)
    ensures today <= a ==> FirstFrom(s, today, a)
    ensures a < today ==> FirstFrom(s, today, b)
    ensures a == today ==> FirstFrom(s, today + 1, b)
  {
    hide OnDay;
  }

  // ---- the method ----

  lemma MomentOfDate(s: Schedule, day: int)
    ensures UtcMs(YearOf(day), MonthInYear(day), DateOf(day), s.hour, s.minute) == Moment(s, day) + s.offset * MINUTE
  {
    PartsRebuildDay(day);
    hide MakeDay, YearOf, MonthInYear, DateOf;
  }

  /** localDate's conversion: the date is given by its day number, its time is the schedule's. */
  method Candidate(s: Schedule, localDay: int) returns (candidate: int)
    ensures candidate == Moment(s, localDay)
  {
    hide UtcMs, Moment;
    candidate := LocalToUtc(YearOf(localDay), MonthInYear(localDay) + 1, DateOf(localDay), s.hour, s.minute, s.offset);
    MomentOfDate(s, localDay);
  }

  lemma CurrentParts(s: Schedule, after: int)
    ensures var current, today := ZonedParts(after, s.offset), LocalDay(s, after);
      current.year == YearOf(today) && current.month == MonthInYear(today) + 1 && current.day == DateOf(today)
  {
    hide YearOf, MonthInYear, DateOf;
  }

  lemma CurrentDay(s: Schedule, after: int)
    ensures var current := ZonedParts(after, s.offset);
      && MakeDay(current.year, current.month - 1, current.day) == LocalDay(s, after)
      && (s.dayOfMonth.Some? ==> MakeDay(current.year, current.month - 1, s.dayOfMonth.value) == MonthlyDay(s, MonthOf(LocalDay(s, after))))
  {
    var today := LocalDay(s, after);
    CurrentParts(s, after);
    hide ZonedParts, LocalDay;
    PartsRebuildDay(today);
    if s.dayOfMonth.Some? {
      DateInMonth(today, s.dayOfMonth.value);
    }
    hide MakeDay, MonthDay, MonthOf, YearOf, MonthInYear, DateOf;
  }

  lemma NextMonth(s: Schedule, k: int, c: int)
    requires s.dayOfMonth.Some? && MonthOf(c) == k
    ensures MakeDay(YearOf(c), MonthInYear(c) + 1, s.dayOfMonth.value) == MonthlyDay(s, k + 1)
  {
    hide MonthDay;
  }

  /** The day whose time is tried first. */
  function FirstDay(s: Schedule, today: int): int
    requires ValidSchedule(s)
  {
    match s.frequency
    case WEEKLY => today + DaysAhead(s.dayOfWeek.value, DayOfWeek(today))
    case MONTHLY => MonthlyDay(s, MonthOf(today))
    case _ => today
  }

  /** The day whose time is taken when the first has passed. */
  function SecondDay(s: Schedule, today: int): int
    requires ValidSchedule(s)
  {
    match s.frequency
    case WEEKLY => FirstDay(s, today) + 7
    case MONTHLY => MonthlyDay(s, MonthOf(today) + 1)
    case _ => today + 1
  }

  lemma DaysOf(s: Schedule, today: int)
    requires ValidSchedule(s)
    ensures Candidates(s, today, FirstDay(s, today), SecondDay(s, today))
    ensures s.frequency == MONTHLY ==> MonthOf(FirstDay(s, today)) == MonthOf(today)
  {
    hide FirstFrom, DaysAhead, DayOfWeek, MonthlyDay, MonthOf;
    match s.frequency
    case WEEKLY => WeeklyDays(s, today);
    case MONTHLY => MonthlyDays(s, today);
    case _ => DailyDays(s, today);
  }

  /** What an occurrence is, in plain numbers: the local time of day is right, and so is the weekday, counted from a
      Sunday, or the day of some month, counted from January of year 0. */
  lemma OccursPlainly(s: Schedule, t: int)
    requires ValidSchedule(s)
    ensures Occurs(s, t) <==>
      var local := t + s.offset * 60_000;
      var day := local / 86_400_000;
      && local % 86_400_000 == s.hour * 3_600_000 + s.minute * 60_000
      && match s.frequency
         case DAILY => true
         case WEEKLY => (day + 4) % 7 == s.dayOfWeek.value
         case MONTHLY => exists month :: MakeDay(0, month, s.dayOfMonth.value) == day
         case UNSUPPORTED => false
  {
    if s.frequency == MONTHLY {
      DateIsInMonth(LocalDay(s, t), s.dayOfMonth.value);
    }
  }

  lemma DateIsInMonth(day: int, date: int)
    requires 1 <= date <= 28
    ensures DateOf(day) == date <==> exists month :: MakeDay(0, month, date) == day
  {
    hide MonthDay;
    if DateOf(day) == date {
      assert MakeDay(0, MonthOf(day), date) == day;
    }
    if month :| MakeDay(0, month, date) == day {
      MonthLength(month);
      MonthOfUnique(day, month);
    }
  }

  method NextReportScheduleRun(after: int, s: Schedule) returns (r: Result<int>)
    ensures r.Ok? <==>
      && 0 <= s.hour <= 23 && 0 <= s.minute <= 59
      && match s.frequency
         case DAILY => true
         case WEEKLY => s.dayOfWeek.Some? && 0 <= s.dayOfWeek.value <= 6
         case MONTHLY => s.dayOfMonth.Some? && 1 <= s.dayOfMonth.value <= 28
         case UNSUPPORTED => false
    ensures r.Ok? ==> ValidSchedule(s) && IsNext(s, after, r.value)
    ensures r.Ok? && s.frequency == WEEKLY ==> ((r.value + s.offset * 60_000) / 86_400_000 + 4) % 7 == s.dayOfWeek.value
    ensures r.Ok? ==> (r.value + s.offset * 60_000) % 86_400_000 == s.hour * 3_600_000 + s.minute * 60_000
  {
    hide MakeDay, YearOf, MonthInYear, DateOf, MonthOf, Moment, ZonedParts, LocalDay, MonthlyDay, DayOfWeek, DaysAhead, ShiftDate,
      IsNext, Candidates;
    if s.frequency == UNSUPPORTED || !ValidTime(s) {
      return Invalid;
    }
    var current := ZonedParts(after, s.offset);
    CurrentDay(s, after);
    var localDay := MakeDay(current.year, current.month - 1, current.day);
    ghost var today := localDay;
    if s.frequency == WEEKLY {
      if s.dayOfWeek.None? || s.dayOfWeek.value < 0 || s.dayOfWeek.value > 6 {
        return Invalid;
      }
      var currentDow := DayOfWeek(MakeDay(current.year, current.month - 1, current.day));
      ShiftAddsDays(localDay, DaysAhead(s.dayOfWeek.value, currentDow));
      localDay := ShiftDate(localDay, DaysAhead(s.dayOfWeek.value, currentDow));
    } else if s.frequency == MONTHLY {
      if s.dayOfMonth.None? || s.dayOfMonth.value < 1 || s.dayOfMonth.value > 28 {
        return Invalid;
      }
      localDay := MakeDay(current.year, current.month - 1, s.dayOfMonth.value);
    }
    DaysOf(s, today);
    assert localDay == FirstDay(s, today);
    var candidate := Candidate(s, localDay);
    if candidate <= after {
      if s.frequency == DAILY {
        ShiftAddsDays(localDay, 1);
        localDay := ShiftDate(localDay, 1);
      } else if s.frequency == WEEKLY {
        ShiftAddsDays(localDay, 7);
        localDay := ShiftDate(localDay, 7);
      } else {
        NextMonth(s, MonthOf(today), localDay);
        localDay := MakeDay(YearOf(localDay), MonthInYear(localDay) + 1, s.dayOfMonth.value);
      }
      assert localDay == SecondDay(s, today);
      candidate := Candidate(s, localDay);
      SecondTry(s, after, FirstDay(s, today), localDay);
    } else {
      FirstTry(s, after, localDay, SecondDay(s, today));
    }
    NextOccursPlainly(s, after, candidate);
    return Ok(candidate);
  }

  lemma NextOccursPlainly(s: Schedule, after: int, r: int)
    requires ValidSchedule(s) && IsNext(s, after, r)
    ensures s.frequency == WEEKLY ==> ((r + s.offset * 60_000) / 86_400_000 + 4) % 7 == s.dayOfWeek.value
    ensures (r + s.offset * 60_000) % 86_400_000 == s.hour * 3_600_000 + s.minute * 60_000
  {
    OccursPlainly(s, r);
  }

  lemma FirstTry(s: Schedule, t: int, first: int, second: int)
    requires ValidTime(s) && t < Moment(s, first) && Candidates(s, LocalDay(s, t), first, second)
    ensures IsNext(s, t, Moment(s, first))
  {
    hide Moment, LocalDay, IsNext, FirstFrom;
    AheadIsNotPast(s, t, first);
    FirstIsNext(s, t, first);
  }

  /** What each frequency gives: the first candidate day, and the one tried when that has passed. */
  ghost predicate Candidates(s: Schedule, today: int, first: int, second: int) {
    && (today <= first ==> FirstFrom(s, today, first))
    && (today == first ==> FirstFrom(s, today + 1, second))
    && (first < today ==> FirstFrom(s, today, second) && today < second)
  }

  lemma SecondTry(s: Schedule, t: int, first: int, second: int)
    requires ValidTime(s) && Moment(s, first) <= t && Candidates(s, LocalDay(s, t), first, second)
    ensures IsNext(s, t, Moment(s, second))
  {
    hide Moment, LocalDay, IsNext, FirstFrom;
    var today := LocalDay(s, t);
    NotAhead(s, t, first);
    if first == today {
      SecondIsNext(s, t, today, second);
    } else {
      LaterDayAhead(s, t, second);
      FirstIsNext(s, t, second);
    }
  }

  lemma DailyDays(s: Schedule, today: int)
    requires s.frequency == DAILY
    ensures FirstFrom(s, today, today) && FirstFrom(s, today + 1, today + 1)
  {
  }

  /** A moment that has passed is not on a later day. */
  lemma NotAhead(s: Schedule, t: int, day: int)
    requires ValidTime(s) && Moment(s, day) <= t
    ensures day <= LocalDay(s, t)
  {
    if LocalDay(s, t) < day {
      LaterDayAhead(s, t, day);
    }
  }

  lemma LaterDayAhead(s: Schedule, t: int, day: int)
    requires ValidTime(s) && LocalDay(s, t) < day
    ensures t < Moment(s, day)
  {
    TodayEnds(s, t);
    if LocalDay(s, t) + 1 < day {
      MomentsOrdered(s, LocalDay(s, t) + 1, day);
    }
  }

  lemma AheadIsNotPast(s: Schedule, t: int, day: int)
    requires ValidTime(s) && t < Moment(s, day)
    ensures LocalDay(s, t) <= day
  {
    MomentParts(s, day);
    DaysOrdered(s, t, Moment(s, day));
  }

  // ---- turning occurrences into jobs ----

  const LATE := 1000

  /** The schedule row, the jobs made from it in order, and the instants the workers read from the row; since when the
      schedule is there. */
  datatype System = System(since: int, now: int, active: bool, nextRunAt: int, jobs: seq<int>, reading: map<nat, int>)

  datatype Step =
    | Tick(elapsed: nat)
    | Update(active: bool, at: int, next: int)  // the API's update: it found the schedule, worked out the next run at an
                                                // instant, and writes it now
    | Read(w: nat)
    | Commit(w: nat, next: int)
    | Fail(w: nat)

  predicate Claims(s: System, w: nat) {
    w in s.reading && s.active && s.nextRunAt == s.reading[w]
  }

  /** A worker reads a due row, computes the next run, and claims the row only if it still shows what it read; a second
      job for one instant is refused by the database. It may fail at any time, also before it has read the row. */
  ghost predicate Enabled(s: System, schedule: Schedule, step: Step) {
    match step
    case Tick(_) => true
    case Update(_, at, next) => s.since <= at <= s.now && IsNext(schedule, at, next)
    case Read(w) => s.active && s.nextRunAt <= s.now
    case Commit(w, next) =>
      w in s.reading && IsNext(schedule, s.reading[w] + LATE, next) && (Claims(s, w) ==> s.reading[w] !in s.jobs)
    case Fail(_) => true
  }

  function Apply(s: System, step: Step): System
    requires step.Commit? ==> step.w in s.reading
  {
    match step
    case Tick(elapsed) => s.(now := s.now + elapsed)
    case Update(active, _, next) => s.(active := active, nextRunAt := next)
    case Read(w) => s.(reading := s.reading[w := s.nextRunAt])
    case Commit(w, next) =>
      if Claims(s, w) then s.(nextRunAt := next, jobs := s.jobs + [s.reading[w]], reading := s.reading - {w})
      else s.(reading := s.reading - {w})
    case Fail(w) => s.(nextRunAt := s.now + HOUR, reading := s.reading - {w})
  }

  ghost predicate Runs(s: System, schedule: Schedule, steps: seq<Step>)
    decreases |steps|
  {
    steps == [] || (Enabled(s, schedule, steps[0]) && Runs(Apply(s, steps[0]), schedule, steps[1..]))
  }

  ghost function After(s: System, schedule: Schedule, steps: seq<Step>): System
    requires Runs(s, schedule, steps)
    decreases |steps|
  {
    if steps == [] then s else After(Apply(s, steps[0]), schedule, steps[1..])
  }

  /** The last run that was made, or when the schedule was created. */
  function LastRun(s: System): int {
    if s.jobs == [] then s.since else s.jobs[|s.jobs| - 1]
  }

  /** A failure that puts the row where it stands, or an update that worked out its date after the last run was made and
      before the next was due; every other step. */
  predicate Harmless(s: System, step: Step) {
    match step
    case Fail(_) => s.now + HOUR == s.nextRunAt
    case Update(_, at, _) => LastRun(s) <= at < s.nextRunAt
    case _ => true
  }

  ghost predicate Undisturbed(s: System, schedule: Schedule, steps: seq<Step>)
    requires Runs(s, schedule, steps)
    decreases |steps|
  {
    steps != [] ==> Harmless(s, steps[0]) && Undisturbed(Apply(s, steps[0]), schedule, steps[1..])
  }

  /** Each instant is the least occurrence after the one before. */
  ghost predicate Consecutive(schedule: Schedule, times: seq<int>) {
    forall i :: 0 <= i < |times| - 1 ==> IsNext(schedule, times[i], times[i + 1])
  }

  /** The creation, the runs made, and the next. */
  function Timeline(s: System): seq<int> {
    [s.since] + s.jobs + [s.nextRunAt]
  }

  ghost predicate InStep(s: System, schedule: Schedule) {
    Consecutive(schedule, Timeline(s))
  }

  /** Occurrences are whole minutes, so none hides in the second the worker adds. */
  lemma LateIsNext(schedule: Schedule, t: int, r: int)
    requires ValidTime(schedule) && Occurs(schedule, t) && IsNext(schedule, t + LATE, r)
    ensures IsNext(schedule, t, r)
  {
    forall u | t < u < r ensures !Occurs(schedule, u) {
      if Occurs(schedule, u) && u <= t + LATE {
        OccursIsMoment(schedule, t);
        OccursIsMoment(schedule, u);
        var a, b := LocalDay(schedule, t), LocalDay(schedule, u);
        if a < b {
          MomentsOrdered(schedule, a, b);
        } else if b < a {
          MomentsOrdered(schedule, b, a);
        }
        assert false;
      }
    }
  }

  lemma NextIsOnly(schedule: Schedule, t: int, a: int, b: int)
    requires IsNext(schedule, t, a) && IsNext(schedule, t, b)
    ensures a == b
  {
  }

  /** What the row shows is the run after the last one made, whatever came before. */
  lemma StepOfLast(s: System, schedule: Schedule)
    requires InStep(s, schedule)
    ensures IsNext(schedule, LastRun(s), s.nextRunAt)
  {
    hide IsNext;
    var times, n := Timeline(s), |s.jobs|;
    assert times[n] == LastRun(s) && times[n + 1] == s.nextRunAt;
  }

  /** Rewriting the row keeps the sequence if and only if it shows the run after the last one made. */
  lemma RewriteIff(s: System, schedule: Schedule, next: int)
    requires InStep(s, schedule)
    ensures InStep(s.(nextRunAt := next), schedule) <==> IsNext(schedule, LastRun(s), next)
  {
    hide IsNext;
    var t := s.(nextRunAt := next);
    var before, later, n := Timeline(s), Timeline(t), |s.jobs|;
    assert forall i :: 0 <= i <= n ==> before[i] == later[i];
    assert later[n] == LastRun(s) && later[n + 1] == next;
    if IsNext(schedule, LastRun(s), next) {
      forall i | 0 <= i < |later| - 1
        ensures IsNext(schedule, later[i], later[i + 1])
      {
        assert i < n ==> IsNext(schedule, before[i], before[i + 1]);
      }
    }
  }

  lemma InStepOnRow(s: System, t: System, schedule: Schedule)
    requires s.since == t.since && s.jobs == t.jobs && s.nextRunAt == t.nextRunAt
    ensures InStep(s, schedule) <==> InStep(t, schedule)
  {
  }

  lemma CommitKeepsInStep(s: System, schedule: Schedule, w: nat, next: int)
    requires ValidTime(schedule) && InStep(s, schedule) && Enabled(s, schedule, Commit(w, next))
    ensures InStep(Apply(s, Commit(w, next)), schedule)
  {
    var t := Apply(s, Commit(w, next));
    if Claims(s, w) {
      StepOfLast(s, schedule);
      LateIsNext(schedule, s.nextRunAt, next);
      hide IsNext, Occurs;
      var before, later := Timeline(s), Timeline(t);
      assert later == before + [next];
      assert later[|before| - 1] == s.nextRunAt;
      assert forall i :: 0 <= i < |before| ==> later[i] == before[i];
    } else {
      InStepOnRow(s, t, schedule);
    }
  }

  lemma StepKeepsInStepIff(s: System, schedule: Schedule, step: Step)
    requires ValidTime(schedule) && InStep(s, schedule) && Enabled(s, schedule, step)
    ensures InStep(Apply(s, step), schedule) <==> Harmless(s, step)
    ensures Apply(s, step).since == s.since
  {
    hide InStep, IsNext;
    match step {
      case Commit(w, next) => CommitKeepsInStep(s, schedule, w, next);
      case Update(active, at, next) => UpdateKeepsStepIff(s, schedule, active, at, next);
      case Fail(w) => FailKeepsStepIff(s, schedule, w);
      case _ => InStepOnRow(s, Apply(s, step), schedule);
    }
  }

  ghost predicate AlwaysInStep(s: System, schedule: Schedule, steps: seq<Step>)
    requires Runs(s, schedule, steps)
    decreases |steps|
  {
    InStep(s, schedule) && (steps != [] ==> AlwaysInStep(Apply(s, steps[0]), schedule, steps[1..]))
  }

  /** Over every run of any number of workers the jobs are consecutive occurrences all along if and only if no failure
      and no update disturbs them. */
  lemma {:induction false} JobsAreConsecutive(s: System, schedule: Schedule, steps: seq<Step>)
    requires ValidTime(schedule) && InStep(s, schedule) && Runs(s, schedule, steps)
    ensures AlwaysInStep(s, schedule, steps) <==> Undisturbed(s, schedule, steps)
    ensures Undisturbed(s, schedule, steps) ==> InStep(After(s, schedule, steps), schedule)
    ensures After(s, schedule, steps).since == s.since
    decreases |steps|
  {
    SinceStays(s, schedule, steps);
    if steps != [] {
      StepKeepsInStepIff(s, schedule, steps[0]);
      hide InStep, Enabled, Apply, Harmless;
      if Harmless(s, steps[0]) {
        JobsAreConsecutive(Apply(s, steps[0]), schedule, steps[1..]);
      }
    }
  }

  lemma {:induction false} SinceStays(s: System, schedule: Schedule, steps: seq<Step>)
    requires Runs(s, schedule, steps)
    ensures After(s, schedule, steps).since == s.since
    decreases |steps|
  {
    if steps != [] {
      SinceStays(Apply(s, steps[0]), schedule, steps[1..]);
    }
  }

  lemma {:induction false} ConsecutiveGrow(schedule: Schedule, times: seq<int>, i: nat, j: nat)
    requires Consecutive(schedule, times) && i < j < |times|
    ensures times[i] < times[j]
    decreases j - i
  {
    if i + 1 < j {
      ConsecutiveGrow(schedule, times, i, j - 1);
    }
    assert IsNext(schedule, times[j - 1], times[j - 1 + 1]);
  }

  /** No gap: every occurrence after the first instant and up to the last is one of them. */
  lemma {:induction false} NoGap(schedule: Schedule, times: seq<int>, t: int)
    requires Consecutive(schedule, times) && times != [] && times[0] < t <= times[|times| - 1] && Occurs(schedule, t)
    ensures exists i :: 0 < i < |times| && times[i] == t
    decreases |times|
  {
    var n := |times| - 1;
    if t == times[n] {
      assert n > 0;
    } else {
      assert IsNext(schedule, times[n - 1], times[n - 1 + 1]);
      var init := times[..n];
      NoGap(schedule, init, t);
      var i :| 0 < i < n && init[i] == t;
      assert times[i] == t;
    }
  }

  /** While the sequence is in step, the jobs are exactly the occurrences since the creation and before the next run,
      each once and in order. */
  lemma JobsAreOccurrences(s: System, schedule: Schedule, t: int)
    requires InStep(s, schedule)
    ensures t in s.jobs <==> s.since < t < s.nextRunAt && Occurs(schedule, t)
    ensures forall i, j :: 0 <= i < j < |s.jobs| ==> s.jobs[i] < s.jobs[j]
  {
    hide Occurs;
    var times, n := Timeline(s), |s.jobs|;
    forall i, j | 0 <= i < j < |times| ensures times[i] < times[j] {
      ConsecutiveGrow(schedule, times, i, j);
    }
    assert forall i :: 0 <= i < n ==> s.jobs[i] == times[i + 1];
    if i :| 0 <= i < n && s.jobs[i] == t {
      assert times[0] < times[i + 1] < times[n + 1];
      assert IsNext(schedule, times[i], times[i + 1]);
    }
    if s.since < t < s.nextRunAt && Occurs(schedule, t) {
      NoGap(schedule, times, t);
      var i :| 0 < i < |times| && times[i] == t;
      assert s.jobs[i - 1] == t;
    }
  }

  /** From its creation up to the next run every occurrence has exactly one job. */
  lemma OneJobPerOccurrence(s: System, schedule: Schedule, steps: seq<Step>, t: int)
    requires ValidTime(schedule) && s.jobs == [] && IsNext(schedule, s.since, s.nextRunAt)
    requires Runs(s, schedule, steps) && Undisturbed(s, schedule, steps)
    ensures var u := After(s, schedule, steps); t in u.jobs <==> s.since < t < u.nextRunAt && Occurs(schedule, t)
    ensures var u := After(s, schedule, steps); forall i, j :: 0 <= i < j < |u.jobs| ==> u.jobs[i] < u.jobs[j]
  {
    hide IsNext, Occurs;
    assert Timeline(s) == [s.since, s.nextRunAt];
    JobsAreConsecutive(s, schedule, steps);
    JobsAreOccurrences(After(s, schedule, steps), schedule, t);
  }

  // ---- failures and updates ----

  /** A failure write puts the row an hour from now, whatever it shows. The sequence stays one of consecutive
      occurrences if and only if that is where it stood. */
  lemma FailKeepsStepIff(s: System, schedule: Schedule, w: nat)
    requires InStep(s, schedule)
    ensures InStep(Apply(s, Fail(w)), schedule) <==> s.now + HOUR == s.nextRunAt
  {
    hide InStep;
    var next := s.now + HOUR;
    InStepOnRow(Apply(s, Fail(w)), s.(nextRunAt := next), schedule);
    RewriteIff(s, schedule, next);
    StepOfLast(s, schedule);
    if IsNext(schedule, LastRun(s), next) {
      NextIsOnly(schedule, LastRun(s), s.nextRunAt, next);
    }
  }

  /** What an update does to the row depends only on when it worked out its date: between the last run and the next, it
      leaves the sequence alone; once the next run was due, it skips it; before the last run was made, it shows a run
      that is made already. */
  lemma UpdateKeepsStepIff(s: System, schedule: Schedule, active: bool, at: int, next: int)
    requires InStep(s, schedule) && Enabled(s, schedule, Update(active, at, next))
    ensures var t := Apply(s, Update(active, at, next));
      && (InStep(t, schedule) <==> LastRun(s) <= at < s.nextRunAt)
      && (InStep(t, schedule) <==> t.nextRunAt == s.nextRunAt)
      && (t.nextRunAt > s.nextRunAt <==> s.nextRunAt <= at)
      && (t.nextRunAt in t.jobs <==> at < LastRun(s))
  {
    hide InStep;
    InStepOnRow(Apply(s, Update(active, at, next)), s.(nextRunAt := next), schedule);
    RewriteIff(s, schedule, next);
    StepOfLast(s, schedule);
    JobsAreOccurrences(s, schedule, next);
    JobsAreOccurrences(s, schedule, LastRun(s));
    if IsNext(schedule, LastRun(s), next) {
      NextIsOnly(schedule, LastRun(s), s.nextRunAt, next);
    }
  }

  /** A run the row has passed over is made by no continuation, unless an update still works with an older date. */
  lemma {:induction false} PassedOverStays(s: System, schedule: Schedule, steps: seq<Step>, t: int)
    requires Runs(s, schedule, steps) && t !in s.jobs && t <= s.now && t < s.nextRunAt
    requires forall step :: step in steps && step.Update? ==> t <= step.at
    ensures t !in After(s, schedule, steps).jobs
    decreases |steps|
  {
    hide Occurs;
    if steps != [] {
      assert steps[0] in steps;
      PassedOverStays(Apply(s, steps[0]), schedule, steps[1..], t);
    }
  }

  lemma NextNotMade(s: System, schedule: Schedule)
    requires InStep(s, schedule)
    ensures s.nextRunAt !in s.jobs && Occurs(schedule, s.nextRunAt)
  {
    StepOfLast(s, schedule);
    JobsAreOccurrences(s, schedule, s.nextRunAt);
  }

  /** A failure while a run is due loses that run for ever. */
  lemma FailureSkips(s: System, schedule: Schedule, w: nat, steps: seq<Step>)
    requires InStep(s, schedule) && s.nextRunAt <= s.now
    requires Runs(Apply(s, Fail(w)), schedule, steps)
    requires forall step :: step in steps && step.Update? ==> s.nextRunAt <= step.at
    ensures Occurs(schedule, s.nextRunAt)
    ensures s.nextRunAt !in After(Apply(s, Fail(w)), schedule, steps).jobs
  {
    hide Occurs, InStep;
    NextNotMade(s, schedule);
    PassedOverStays(Apply(s, Fail(w)), schedule, steps, s.nextRunAt);
  }

  /** So does an update with every run that was due when it worked out its date: a schedule switched off and on again
      never makes the runs it missed, nor one that was due when it was switched off. */
  lemma UpdateSkips(s: System, schedule: Schedule, active: bool, at: int, next: int, steps: seq<Step>, t: int)
    requires InStep(s, schedule) && Enabled(s, schedule, Update(active, at, next)) && s.nextRunAt <= t <= at
    requires Runs(Apply(s, Update(active, at, next)), schedule, steps)
    requires forall step :: step in steps && step.Update? ==> t <= step.at
    ensures t !in After(Apply(s, Update(active, at, next)), schedule, steps).jobs
  {
    hide Occurs, InStep;
    JobsAreOccurrences(s, schedule, t);
    PassedOverStays(Apply(s, Update(active, at, next)), schedule, steps, t);
  }

  /** Two workers read the same due run; one commits, the other then fails and moves the row the winner had advanced.
      The sequence survives only if an hour from now is the next occurrence. When that is sooner than the next
      occurrence, the row shows a moment that is none. */
  lemma LoserOverwritesWinner(s: System, schedule: Schedule, v: nat, w: nat, next: int)
    requires ValidTime(schedule) && InStep(s, schedule) && v != w && v in s.reading && w in s.reading
    requires s.active && s.reading[v] == s.reading[w] == s.nextRunAt <= s.now
    requires IsNext(schedule, s.nextRunAt + LATE, next)
    ensures var steps := [Commit(v, next)] + [Fail(w)];
      && Runs(s, schedule, steps)
      && var u := After(s, schedule, steps);
         && u.jobs == s.jobs + [s.nextRunAt] && u.nextRunAt == s.now + HOUR
         && (InStep(u, schedule) <==> s.now + HOUR == next)
         && (s.now + HOUR < next ==> !Occurs(schedule, u.nextRunAt))
  {
    var s1 := Apply(s, Commit(v, next));
    var s2 := Apply(s1, Fail(w));
    assert ([Commit(v, next)] + [Fail(w)])[1..] == [Fail(w)] && [Fail(w)][1..] == [];
    NextNotMade(s, schedule);
    assert Runs(s2, schedule, []) && Runs(s1, schedule, [Fail(w)]);
    assert After(s1, schedule, [Fail(w)]) == s2;
    StepKeepsInStepIff(s, schedule, Commit(v, next));
    FailKeepsStepIff(s1, schedule, w);
    hide Occurs;
  }
}
