/** Schedules of weekly and daily windows (internals/timeutil/schedule.go), in UTC with days of 24 hours. */
module Schedules {
  import opened Options

  // Times are nanoseconds since 1970-01-01T00:00Z, a Thursday.

  const MINUTE: int := 60_000_000_000
  const HOUR: int := 3_600_000_000_000
  const DAY: int := 86_400_000_000_000

  function DayOf(t: int): int {
    t / DAY
  }

  /** Sunday is 0. */
  function Weekday(day: int): (w: int)
    ensures 0 <= w < 7
  {
    (day + 4) % 7
  }

  /** The civil calendar of the time package, as the first day of the month a day belongs to. */
  datatype Calendar = Calendar(monthStart: int -> int) {
    function DayOfMonth(day: int): int {
      day - monthStart(day) + 1
    }

    predicate SameMonth(a: int, b: int) {
      monthStart(a) == monthStart(b)
    }

    /** Months are runs of 28 to 31 days. */
    ghost predicate Valid() {
      && (forall d :: monthStart(d) <= d < monthStart(d) + 31)
      && (forall d, e :: monthStart(d) <= e && (e <= d || e < monthStart(d) + 28) ==> monthStart(e) == monthStart(d))
    }
  }

  // ---------- Week spans ----------

  const EVERY_WEEK: nat := 0
  const LAST_WEEK: nat := 5

  datatype Week = Week(weekday: int, pos: nat)

  datatype WeekSpan = WeekSpan(start: Week, end: Week) {
    /** What the parser lets through. */
    predicate Valid() {
      && 0 <= start.weekday < 7 && 0 <= end.weekday < 7
      && start.pos <= end.pos <= LAST_WEEK
      && (start.pos == EVERY_WEEK <==> end.pos == EVERY_WEEK)
    }

    /** In every month some day is in the span, whatever weekday the month begins with. */
    predicate Recurs() {
      || start.pos == EVERY_WEEK || start.pos == LAST_WEEK
      || (end.pos < LAST_WEEK && (start.pos < end.pos || start.weekday == end.weekday))
    }
  }

  /** Days from `from` to the next day that is a `weekday`, 0 if it is one. */
  function DaysUntil(from: int, weekday: int): (n: int)
    requires 0 <= weekday < 7
    ensures 0 <= n < 7 && Weekday(from + n) == weekday
  {
    (weekday - Weekday(from)) % 7
  }

  /** The `nth` day, from the start of the month of `day` on, that is a `weekday`. */
  function NthWeekday(cal: Calendar, day: int, weekday: int, nth: nat): int
    requires 0 <= weekday < 7 && nth > 0
  {
    cal.monthStart(day) + DaysUntil(cal.monthStart(day), weekday) + 7 * (nth - 1)
  }

  method FindNthWeekDay(cal: Calendar, day: int, weekday: int, nthInMonth: nat) returns (t: int)
    requires 0 <= weekday < 7 && nthInMonth > 0
    ensures t == NthWeekday(cal, day, weekday, nthInMonth)
  {
    t := day - cal.DayOfMonth(day) + 1;
    ghost var first := t + DaysUntil(t, weekday);
    var nth := 0;
    while true
      invariant 0 <= nth < nthInMonth
      invariant first + 7 * (nth - 1) < t <= first + 7 * nth
      decreases first + 7 * nthInMonth - t
    {
      WeekdayPeriod(first, t);
      if Weekday(t) == weekday {
        nth := nth + 1;
        if nth == nthInMonth {
          break;
        }
      }
      t := t + 1;
    }
  }

  lemma WeekdayPeriod(a: int, b: int)
    ensures Weekday(a) == Weekday(b) <==> (b - a) % 7 == 0
  {
  }

  predicate InWeekdays(ws: WeekSpan, day: int) {
    if ws.start.weekday <= ws.end.weekday then
      ws.start.weekday <= Weekday(day) <= ws.end.weekday
    else
      Weekday(day) >= ws.start.weekday || Weekday(day) <= ws.end.weekday
  }

  predicate Matches(cal: Calendar, ws: WeekSpan, day: int)
    requires ws.Valid()
  {
    if ws.start.pos == EVERY_WEEK then
      InWeekdays(ws, day)
    else if ws.start.pos == LAST_WEEK then
      !cal.SameMonth(day, day + 7) && InWeekdays(ws, day)
    else
      var startDay := NthWeekday(cal, day, ws.start.weekday, ws.start.pos);
      var endDay := NthWeekday(cal, day, ws.end.weekday, ws.end.pos);
      cal.DayOfMonth(startDay) <= cal.DayOfMonth(day) <= cal.DayOfMonth(endDay)
  }

  method Match(cal: Calendar, ws: WeekSpan, day: int) returns (b: bool)
    requires ws.Valid()
    ensures b == Matches(cal, ws, day)
  {
    var wdStart, wdEnd := ws.start.weekday, ws.end.weekday;
    if ws.start.pos != EVERY_WEEK {
      if ws.start.pos == LAST_WEEK {
        if cal.SameMonth(day, day + 7) {
          return false;
        }
      } else {
        var startDay := FindNthWeekDay(cal, day, wdStart, ws.start.pos);
        var endDay := FindNthWeekDay(cal, day, wdEnd, ws.end.pos);
        return !(cal.DayOfMonth(day) < cal.DayOfMonth(startDay) || cal.DayOfMonth(day) > cal.DayOfMonth(endDay));
      }
    }
    if wdStart <= wdEnd {
      return Weekday(day) >= wdStart && Weekday(day) <= wdEnd;
    }
    return Weekday(day) >= wdStart || Weekday(day) <= wdEnd;
  }

  // ---------- What week numbers mean ----------

  lemma NthWeekdayInMonth(cal: Calendar, day: int, weekday: int, nth: nat)
    requires cal.Valid() && 0 <= weekday < 7 && 0 < nth < 5
    ensures cal.SameMonth(NthWeekday(cal, day, weekday, nth), day)
  {
  }

  /** Days 29 to 35 counted from the start of a month are in it, or among the first seven of the next. */
  lemma FifthWeek(cal: Calendar, day: int, x: int)
    requires cal.Valid() && cal.monthStart(day) + 28 <= x < cal.monthStart(day) + 35
    ensures cal.SameMonth(x, day) || 1 <= cal.DayOfMonth(x) <= 7
  {
    var m, n := cal.monthStart(day), cal.monthStart(x);
    assert cal.monthStart(n) == n;
    if n <= m {
      assert cal.monthStart(m) == n;
    }
  }

  /** A single numbered weekday, "mon2", is the one day of the month that is its second Monday. */
  lemma NumberedWeekday(cal: Calendar, w: Week, day: int)
    requires cal.Valid() && 0 <= w.weekday < 7 && 0 < w.pos < LAST_WEEK
    ensures Matches(cal, WeekSpan(w, w), day) <==>
              Weekday(day) == w.weekday && (cal.DayOfMonth(day) - 1) / 7 == w.pos - 1
  {
    NumberedSpan(cal, WeekSpan(w, w), day);
    var m := cal.monthStart(day);
    WeekdayPeriod(m + DaysUntil(m, w.weekday), day);
    hide Matches;
    SevenDays(day - m, DaysUntil(m, w.weekday), w.pos - 1);
  }

  lemma SevenDays(x: int, offset: int, weeks: int)
    requires 0 <= offset < 7
    ensures x == offset + 7 * weeks <==> (x - offset) % 7 == 0 && x / 7 == weeks
  {
  }

  /** "mon5" is the last Monday of the month: a week later it is another month. */
  lemma LastWeekday(cal: Calendar, weekday: int, day: int)
    requires 0 <= weekday < 7
    ensures Matches(cal, WeekSpan(Week(weekday, 5), Week(weekday, 5)), day) <==>
            Weekday(day) == weekday && !cal.SameMonth(day, day + 7)
  {
  }

  /** A span of weekdays covers as many days from its start as it takes to get to its end, round the week if need be. */
  lemma WeekdaySpan(cal: Calendar, ws: WeekSpan, day: int)
    requires ws.Valid() && ws.start.pos == EVERY_WEEK
    ensures Matches(cal, ws, day) <==>
              (Weekday(day) - ws.start.weekday) % 7 <= (ws.end.weekday - ws.start.weekday) % 7
  {
  }

  /** The same in the last week of a month. */
  lemma LastWeekSpan(cal: Calendar, ws: WeekSpan, day: int)
    requires ws.Valid() && ws.start.pos == LAST_WEEK
    ensures Matches(cal, ws, day) <==>
              && (Weekday(day) - ws.start.weekday) % 7 <= (ws.end.weekday - ws.start.weekday) % 7
              && !cal.SameMonth(day, day + 7)
  {
  }

  /** A numbered span runs from its start weekday to its end weekday within the month. */
  lemma NumberedSpan(cal: Calendar, ws: WeekSpan, day: int)
    requires cal.Valid() && ws.Valid() && 0 < ws.start.pos && ws.end.pos < LAST_WEEK
    ensures Matches(cal, ws, day) <==>
            NthWeekday(cal, day, ws.start.weekday, ws.start.pos) <= day
            <= NthWeekday(cal, day, ws.end.weekday, ws.end.pos)
  {
  }

  /** A numbered span up to week 5 takes 5 for the fifth occurrence. Without one in the month, the day that would be it
      is in the next month, and its number there is taken for the end. */
  lemma SpanToWeekFive(cal: Calendar, ws: WeekSpan, day: int)
    requires cal.Valid() && ws.Valid() && 0 < ws.start.pos < LAST_WEEK && ws.end.pos == LAST_WEEK
    ensures var fifth := NthWeekday(cal, day, ws.end.weekday, 5);
            Matches(cal, ws, day) <==>
              && NthWeekday(cal, day, ws.start.weekday, ws.start.pos) <= day
              && (if cal.SameMonth(fifth, day) then day <= fifth else cal.DayOfMonth(day) <= cal.DayOfMonth(fifth))
  {
    NthWeekdayInMonth(cal, day, ws.start.weekday, ws.start.pos);
    FifthWeek(cal, day, NthWeekday(cal, day, ws.end.weekday, 5));
  }

  /** The last such weekday of the month of `day`. */
  function LastOf(cal: Calendar, day: int, weekday: int): int
    requires 0 <= weekday < 7
  {
    NthWeekday(cal, day, weekday, if cal.SameMonth(NthWeekday(cal, day, weekday, 5), day) then 5 else 4)
  }

  lemma LastOfIsLast(cal: Calendar, day: int, weekday: int)
    requires cal.Valid() && 0 <= weekday < 7
    ensures var last := LastOf(cal, day, weekday);
            Weekday(last) == weekday && cal.SameMonth(last, day) && !cal.SameMonth(last + 7, day)
  {
    NthWeekdayInMonth(cal, day, weekday, 4);
    var m := cal.monthStart(day);
    WeekdayPeriod(m + DaysUntil(m, weekday), LastOf(cal, day, weekday));
    hide Weekday;
  }

  /** The days from the start of the span to the last such weekday of the month, as documented. */
  predicate UpToLast(cal: Calendar, ws: WeekSpan, day: int)
    requires ws.Valid() && ws.start.pos > 0
  {
    NthWeekday(cal, day, ws.start.weekday, ws.start.pos) <= day <= LastOf(cal, day, ws.end.weekday)
  }

  /** In a month, a numbered span up to week 5 ends at the last such weekday exactly when the month has a fifth one,
      or the span is over before it starts. */
  lemma SpanEndsAtLast(cal: Calendar, ws: WeekSpan, day: int)
    requires cal.Valid() && ws.Valid() && 0 < ws.start.pos < LAST_WEEK && ws.end.pos == LAST_WEEK
    ensures (forall d :: cal.SameMonth(d, day) ==> (Matches(cal, ws, d) <==> UpToLast(cal, ws, d)))
            <==> || cal.SameMonth(NthWeekday(cal, day, ws.end.weekday, 5), day)
                 || LastOf(cal, day, ws.end.weekday) < NthWeekday(cal, day, ws.start.weekday, ws.start.pos)
  {
    hide Matches;
    var first, last := NthWeekday(cal, day, ws.start.weekday, ws.start.pos), LastOf(cal, day, ws.end.weekday);
    var fifth := NthWeekday(cal, day, ws.end.weekday, 5);
    NthWeekdayInMonth(cal, day, ws.start.weekday, ws.start.pos);
    NthWeekdayInMonth(cal, day, ws.end.weekday, 4);
    FifthWeek(cal, day, fifth);
    forall d | cal.SameMonth(d, day)
      ensures UpToLast(cal, ws, d) <==> first <= d <= last
      ensures Matches(cal, ws, d) <==>
                first <= d
                  && (if cal.SameMonth(fifth, day) then d <= fifth else cal.DayOfMonth(d) <= cal.DayOfMonth(fifth))
    {
      SpanToWeekFive(cal, ws, d);
    }
    if !cal.SameMonth(fifth, day) && first <= last {
      assert cal.SameMonth(last, day) && UpToLast(cal, ws, last) && !Matches(cal, ws, last);
    }
  }

  /** February 2021 begins on a Monday and has four: "mon1-mon5" matches the first of them only, and "mon2-mon5"
      nothing. */
  lemma February2021(cal: Calendar, day: int)
    requires cal.Valid() && cal.monthStart(18659) == 18659 && cal.monthStart(18687) == 18687 && 18659 <= day < 18687
    ensures LastOf(cal, day, 1) == 18680
    ensures Matches(cal, WeekSpan(Week(1, 1), Week(1, 5)), day) <==> day == 18659
    ensures !Matches(cal, WeekSpan(Week(1, 2), Week(1, 5)), day)
  {
    assert cal.monthStart(day) == 18659;
  }

  // ---------- Clock spans ----------

  datatype Clock = Clock(hour: int, minute: int) {
    predicate Valid() {
      (0 <= hour < 24 && 0 <= minute < 60) || this == Clock(24, 0)
    }

    function Nanos(): int {
      hour * HOUR + minute * MINUTE
    }

    /** The duration back to `other`; it comes out negative when that is on the day before. */
    function Sub(other: Clock): int {
      var dur := Nanos() - other.Nanos();
      if dur < 0 then -(dur + DAY) else dur
    }

    /** Seconds are dropped, and the clock goes round. */
    function Add(dur: int): Clock {
      var t := Nanos() + dur;
      Clock(t / HOUR % 24, t / MINUTE % 60)
    }

    function Time(day: int): int {
      day * DAY + Nanos()
    }
  }

  datatype Window = Window(start: int, end: int, spread: bool) {
    predicate Includes(t: int) {
      !(t < start || t > end)
    }
  }

  datatype ClockSpan = ClockSpan(start: Clock, end: Clock, split: nat, spread: bool) {
    predicate Valid() {
      start.Valid() && end.Valid()
    }

    /** The window that starts on `day`; it may end on the next. */
    function WindowOn(day: int): (w: Window)
    {
      var from, to := start.Time(day), end.Time(day);
      Window(from, if to < from then to + DAY else to, spread)
    }

    function Step(): int
      requires split > 0
    {
      var span := end.Sub(start);
      (if span < 0 then -span else span) / split
    }

    function Part(i: nat): ClockSpan
      requires split > 0
    {
      var from := start.Add(i * Step());
      ClockSpan(from, from.Add(Step()), 0, spread)
    }

    predicate Splits() {
      !(split == 0 || split == 1 || end == start)
    }

    function Parts(): (spans: seq<ClockSpan>)
      ensures |spans| == if Splits() then split else 1
    {
      if Splits() then seq(split, i requires 0 <= i < split => Part(i)) else [this]
    }

    method ClockSpans() returns (spans: seq<ClockSpan>)
      ensures spans == Parts()
    {
      if split == 0 || split == 1 || end == start {
        return [this];
      }
      spans := [];
      var i := 0;
      while i < split
        invariant 0 <= i == |spans| <= split
        invariant forall j :: 0 <= j < i ==> spans[j] == Part(j)
      {
        spans := spans + [Part(i)];
        i := i + 1;
      }
    }
  }

  // ---------- What splitting a span gives ----------

  lemma MulMonotone(a: int, b: int, c: int)
    requires a <= b && 0 <= c
    ensures a * c <= b * c
  {
  }

  lemma NanosRange(c: Clock)
    requires c.Valid()
    ensures 0 <= c.Nanos() <= DAY
    ensures c.Nanos() < DAY <==> c.hour < 24
    ensures c.Nanos() % MINUTE == 0
  {
  }

  /** A window begins on its day at the start of the span and is over when the clock next shows the end, at once if that
      is the same. It never takes more than a day, and a whole day only from 0:00 to 24:00. */
  lemma WindowMeans(ts: ClockSpan, day: int)
    requires ts.Valid()
    ensures var w := ts.WindowOn(day);
            && w.start == day * DAY + ts.start.hour * HOUR + ts.start.minute * MINUTE
            && (w.end - (ts.end.hour * HOUR + ts.end.minute * MINUTE)) % DAY == 0
            && w.start <= w.end <= w.start + DAY
            && (w.end == w.start + DAY <==> ts.start == Clock(0, 0) && ts.end == Clock(24, 0))
  {
    assert (day * DAY) % DAY == 0 && (day * DAY + DAY) % DAY == 0;
  }

  /** From the start of a span to its end, going round the clock if need be. */
  function Length(ts: ClockSpan): int {
    if ts.start.Nanos() <= ts.end.Nanos() then ts.end.Nanos() - ts.start.Nanos()
    else ts.end.Nanos() - ts.start.Nanos() + DAY
  }

  lemma DivideFits(a: int, n: int)
    requires 0 <= a && 0 < n
    ensures 0 <= a / n && n * (a / n) <= a
  {
  }

  lemma StepIs(ts: ClockSpan)
    requires ts.Valid() && ts.split > 0
    ensures 0 <= Length(ts) <= DAY && ts.Step() == Length(ts) / ts.split
  {
    NanosRange(ts.start);
    NanosRange(ts.end);
    hide Clock.Nanos;
    assert Length(ts) == if ts.end.Sub(ts.start) < 0 then -ts.end.Sub(ts.start) else ts.end.Sub(ts.start);
  }

  lemma StepsFit(ts: ClockSpan)
    requires ts.Valid() && ts.split > 0
    ensures 0 <= Length(ts) <= DAY && ts.Step() == Length(ts) / ts.split
    ensures 0 <= ts.Step() && ts.split * ts.Step() <= Length(ts)
  {
    hide Length, ClockSpan.Step;
    StepIs(ts);
    DivideFits(Length(ts), ts.split);
  }

  /** When part `i` starts, counted from midnight of the day of the span, before going round the clock. */
  function PartStart(ts: ClockSpan, i: nat): int
    requires ts.split > 0
  {
    ts.start.Nanos() + i * ts.Step()
  }

  function WholeMinutes(t: int): int {
    t / MINUTE * MINUTE
  }

  lemma HoursAndMinutes(t: int)
    requires 0 <= t < 2 * DAY
    ensures var q := t / MINUTE;
            t / HOUR == q / 60 && (if t < DAY then t else t - DAY) / MINUTE == q % 1440 == (q / 60 % 24) * 60 + q % 60
  {
  }

  lemma AddOnClock(c: Clock, dur: int)
    requires 0 <= dur && 0 <= c.Nanos() + dur < 2 * DAY
    ensures c.Add(dur).Valid() && c.Add(dur).hour < 24
    ensures var t := c.Nanos() + dur;
            c.Add(dur).Nanos() == WholeMinutes(if t < DAY then t else t - DAY)
  {
    HoursAndMinutes(c.Nanos() + dur);
  }

  lemma WholeMinutesAdd(a: int, b: int)
    requires a % MINUTE == 0
    ensures WholeMinutes(a + b) == a + WholeMinutes(b)
    ensures b - MINUTE < WholeMinutes(b) <= b && WholeMinutes(b) % MINUTE == 0
  {
  }

  /** The parts of a span come one after the other, none longer than a step. */
  lemma PartStarts(ts: ClockSpan, i: nat)
    requires ts.Valid() && ts.Splits() && i < ts.split
    ensures ts.start.Nanos() <= PartStart(ts, i) && PartStart(ts, i) + ts.Step() <= ts.start.Nanos() + Length(ts)
    ensures 0 <= ts.Step() <= DAY / 2 && PartStart(ts, i) + ts.Step() < 2 * DAY
  {
    StepsFit(ts);
    MulMonotone(i + 1, ts.split, ts.Step());
    MulMonotone(0, i, ts.Step());
    MulMonotone(2, ts.split, ts.Step());
    assert (i + 1) * ts.Step() == i * ts.Step() + ts.Step();
    NanosRange(ts.start);
    NanosRange(ts.end);
  }

  /** A span of at most half a day ends that many whole minutes after it starts, be it on the next day. */
  lemma ShortWindow(c: Clock, step: int, spread: bool, day: int)
    requires c.Valid() && c.hour < 24 && 0 <= step <= DAY / 2
    ensures var w := ClockSpan(c, c.Add(step), 0, spread).WindowOn(day);
            w.start == day * DAY + c.Nanos() && w.end == w.start + WholeMinutes(step)
  {
    hide Clock.Add, Clock.Nanos;
    NanosRange(c);
    WholeMinutesAdd(c.Nanos(), step);
    AddOnClock(c, step);
    WholeMinutesAdd(c.Nanos() - DAY, step);
  }

  lemma SpreadKept(ts: ClockSpan, i: nat, day: int)
    requires ts.split > 0
    ensures ts.Part(i).WindowOn(day).spread == ts.spread
  {
  }

  /** The window of part `i`, on the day its span starts. */
  lemma PartWindow(ts: ClockSpan, i: nat, day: int)
    requires ts.Valid() && ts.Splits() && i < ts.split
    ensures var from, w := PartStart(ts, i), ts.Part(i).WindowOn(day);
            && w.start == day * DAY + WholeMinutes(if from < DAY then from else from - DAY)
            && w.end == w.start + WholeMinutes(ts.Step()) && w.spread == ts.spread
            && ts.Step() == Length(ts) / ts.split
  {
    StepIs(ts);
    SpreadKept(ts, i, day);
    hide Clock.Add, Clock.Nanos, Length, WholeMinutes, ClockSpan.WindowOn;
    PartStarts(ts, i);
    StartNotNegative(ts.start);
    AddOnClock(ts.start, i * ts.Step());
    ShortWindow(ts.start.Add(i * ts.Step()), ts.Step(), ts.spread, day);
  }

  lemma StartNotNegative(c: Clock)
    requires c.Valid()
    ensures 0 <= c.Nanos()
  {
  }

  /** Window `v` lies inside window `w`. */
  predicate Inside(v: Window, w: Window) {
    w.start <= v.start && v.end <= w.end
  }

  /** The parts of a span lie inside it, on the day it starts, exactly when the last part starts before midnight. */
  lemma PartsInside(ts: ClockSpan, day: int)
    requires ts.Valid() && ts.Splits()
    ensures (forall i :: 0 <= i < ts.split ==> Inside(ts.Part(i).WindowOn(day), ts.WindowOn(day)))
            <==> PartStart(ts, ts.split - 1) < DAY
  {
    var n := ts.split;
    if PartStart(ts, n - 1) < DAY {
      forall i | 0 <= i < n
        ensures Inside(ts.Part(i).WindowOn(day), ts.WindowOn(day))
      {
        PartInside(ts, i, day);
      }
    } else {
      PartOutside(ts, day);
    }
  }

  /** 23:00-01:00/2: the second part is midnight to one o'clock of the same day, before the span begins. */
  lemma SplitAcrossMidnight(day: int)
    ensures var ts := ClockSpan(Clock(23, 0), Clock(1, 0), 2, false);
            && ts.Part(1).WindowOn(day) == Window(day * DAY, day * DAY + HOUR, false)
            && ts.WindowOn(day).start == day * DAY + 23 * HOUR
            && !Inside(ts.Part(1).WindowOn(day), ts.WindowOn(day))
  {
    var ts := ClockSpan(Clock(23, 0), Clock(1, 0), 2, false);
    assert ts.Step() == HOUR;
    assert ts.Part(1) == ClockSpan(Clock(0, 0), Clock(1, 0), 0, false);
    hide ClockSpan.Part;
  }

  lemma PartInside(ts: ClockSpan, i: nat, day: int)
    requires ts.Valid() && ts.Splits() && i < ts.split && PartStart(ts, ts.split - 1) < DAY
    ensures Inside(ts.Part(i).WindowOn(day), ts.WindowOn(day))
  {
    hide Clock.Add, Clock.Nanos, ClockSpan.Part;
    StepsFit(ts);
    MulMonotone(i, ts.split - 1, ts.Step());
    PartStarts(ts, i);
    PartWindow(ts, i, day);
    NanosRange(ts.start);
    WholeMinutesAdd(ts.start.Nanos(), i * ts.Step());
    WholeMinutesAdd(0, i * ts.Step());
    WholeMinutesAdd(0, ts.Step());
  }

  lemma PartOutside(ts: ClockSpan, day: int)
    requires ts.Valid() && ts.Splits() && PartStart(ts, ts.split - 1) >= DAY
    ensures !Inside(ts.Part(ts.split - 1).WindowOn(day), ts.WindowOn(day))
  {
    hide Clock.Add, Clock.Nanos, ClockSpan.Part;
    var i := ts.split - 1;
    PartStarts(ts, i);
    PartWindow(ts, i, day);
    NanosRange(ts.start);
    NanosRange(ts.end);
    WholeMinutesAdd(0, PartStart(ts, i) - DAY);
  }

  /** Parts do not overlap: of two before midnight, or two after it, the earlier ends before the later starts;
      one after midnight, placed on the same day, ends before one before midnight starts. */
  lemma PartsApart(ts: ClockSpan, i: nat, j: nat, day: int)
    requires ts.Valid() && ts.Splits() && i < j < ts.split
    ensures var v, w := ts.Part(i).WindowOn(day), ts.Part(j).WindowOn(day);
            if PartStart(ts, i) < DAY <= PartStart(ts, j) then w.end <= v.start else v.end <= w.start
  {
    hide Clock.Add, Clock.Nanos, ClockSpan.Part, ClockSpan.WindowOn, WholeMinutes;
    PartStarts(ts, i);
    PartStarts(ts, j);
    PartWindow(ts, i, day);
    PartWindow(ts, j, day);
    StepsFit(ts);
    MulMonotone(i + 1, j, ts.Step());
    assert PartStart(ts, i) + ts.Step() <= PartStart(ts, j);
    NanosRange(ts.start);
    PlacedApart(PartStart(ts, i), PartStart(ts, j), ts.Step(), ts.start.Nanos());
  }

  lemma PlacedApart(from: int, to: int, step: int, start: int)
    requires start <= from && from + step <= to && to + step <= start + DAY && start % MINUTE == 0
    ensures var a := WholeMinutes(if from < DAY then from else from - DAY);
            var b := WholeMinutes(if to < DAY then to else to - DAY);
            if from < DAY <= to then b + WholeMinutes(step) <= a else a + WholeMinutes(step) <= b
  {
    if from < DAY <= to {
      WholeMinutesSum(to - DAY, step);
      WholeMinutesAdd(start, from - start);
      WholeMinutesAdd(0, from - start);
      WholeMinutesAdd(0, to - DAY + step);
      WholeMinutesUp(start, from);
    } else {
      var f, t := if from < DAY then from else from - DAY, if to < DAY then to else to - DAY;
      WholeMinutesSum(f, step);
      WholeMinutesUp(f + step, t);
    }
  }

  lemma WholeMinutesUp(a: int, b: int)
    requires a <= b
    ensures WholeMinutes(a) <= WholeMinutes(b)
  {
  }

  lemma WholeMinutesSum(a: int, b: int)
    ensures WholeMinutes(a) + WholeMinutes(b) <= WholeMinutes(a + b)
  {
  }

  // ---------- Schedules ----------

  function AllParts(spans: seq<ClockSpan>): seq<ClockSpan> {
    if spans == [] then [] else AllParts(spans[..|spans| - 1]) + spans[|spans| - 1].Parts()
  }

  lemma {:induction false} AllPartsAre(spans: seq<ClockSpan>, p: ClockSpan)
    ensures p in AllParts(spans) <==> exists i :: 0 <= i < |spans| && p in spans[i].Parts()
  {
    if spans != [] {
      var front := spans[..|spans| - 1];
      AllPartsAre(front, p);
      assert forall i :: 0 <= i < |front| ==> front[i] == spans[i];
    }
  }

  lemma {:induction false} AllPartsValid(spans: seq<ClockSpan>)
    requires forall i :: 0 <= i < |spans| ==> spans[i].Valid()
    ensures forall p :: p in AllParts(spans) ==> p.Valid()
  {
    if spans != [] {
      AllPartsValid(spans[..|spans| - 1]);
      var ts := spans[|spans| - 1];
      forall p | p in ts.Parts()
        ensures p.Valid()
      {
        if ts.Splits() {
          var i :| 0 <= i < ts.split && ts.Parts()[i] == ts.Part(i) == p;
          PartStarts(ts, i);
          StartNotNegative(ts.start);
          AddOnClock(ts.start, i * ts.Step());
          NanosRange(ts.start.Add(i * ts.Step()));
          AddOnClock(ts.start.Add(i * ts.Step()), ts.Step());
        }
      }
    }
  }

  datatype Schedule = Schedule(weekSpans: seq<WeekSpan>, clockSpans: seq<ClockSpan>) {
    predicate Valid() {
      && (forall i :: 0 <= i < |weekSpans| ==> weekSpans[i].Valid())
      && (forall i :: 0 <= i < |clockSpans| ==> clockSpans[i].Valid())
    }

    /** A schedule without clock spans happens at midnight. */
    function BaseTimes(): seq<ClockSpan> {
      if clockSpans == [] then [ClockSpan(Clock(0, 0), Clock(0, 0), 0, false)] else clockSpans
    }

    function Times(): seq<ClockSpan> {
      AllParts(BaseTimes())
    }

    predicate OnDay(cal: Calendar, day: int)
      requires Valid()
    {
      weekSpans == [] || exists i :: 0 <= i < |weekSpans| && Matches(cal, weekSpans[i], day)
    }

    /** `w` is a window of the schedule on `day` that is still open at `now` and in which `last` does not fall. */
    ghost predicate Candidate(cal: Calendar, last: int, now: int, day: int, w: Window)
      requires Valid()
    {
      && OnDay(cal, day)
      && (exists i :: 0 <= i < |Times()| && w == Times()[i].WindowOn(day))
      && now <= w.end && !(w.start <= last <= w.end)
    }

    ghost predicate Productive(cal: Calendar, last: int, now: int, day: int)
      requires Valid()
    {
      exists w :: Candidate(cal, last, now, day, w)
    }

    // ---------- The code ----------

    method FlattenedClockSpans() returns (times: seq<ClockSpan>)
      ensures times == Times()
    {
      var baseTimes := BaseTimes();
      times := [];
      var i := 0;
      while i < |baseTimes|
        invariant 0 <= i <= |baseTimes|
        invariant times == AllParts(baseTimes[..i])
      {
        var parts := baseTimes[i].ClockSpans();
        times := times + parts;
        assert baseTimes[..i + 1][..i] == baseTimes[..i];
        i := i + 1;
      }
      assert baseTimes[..i] == baseTimes;
    }

    method MatchesDay(cal: Calendar, day: int) returns (b: bool)
      requires Valid()
      ensures b == OnDay(cal, day)
    {
      if |weekSpans| > 0 {
        var i := 0;
        while i < |weekSpans|
          invariant 0 <= i <= |weekSpans|
          invariant forall j :: 0 <= j < i ==> !Matches(cal, weekSpans[j], day)
        {
          var m := Match(cal, weekSpans[i], day);
          if m {
            return true;
          }
          i := i + 1;
        }
        return false;
      }
      return true;
    }

    /** The earliest candidate window of one day. */
    method Earliest(times: seq<ClockSpan>, last: int, now: int, day: int) returns (window: Option<Window>)
      ensures window.Some? ==>
                && (exists i :: 0 <= i < |times| && window.value == times[i].WindowOn(day))
                && window.value.end >= now && !window.value.Includes(last)
      ensures forall i :: 0 <= i < |times| && times[i].WindowOn(day).end >= now
                          && !times[i].WindowOn(day).Includes(last) ==>
                window.Some? && window.value.start <= times[i].WindowOn(day).start
    {
      hide ClockSpan.WindowOn;
      window := None;
      var i := 0;
      while i < |times|
        invariant 0 <= i <= |times|
        invariant window.Some? ==>
                    && (exists j :: 0 <= j < i && window.value == times[j].WindowOn(day))
                    && window.value.end >= now && !window.value.Includes(last)
        invariant forall j :: 0 <= j < i && times[j].WindowOn(day).end >= now
                              && !times[j].WindowOn(day).Includes(last) ==>
                    window.Some? && window.value.start <= times[j].WindowOn(day).start
      {
        var newWindow := times[i].WindowOn(day);
        i := i + 1;
        if newWindow.end < now {
          continue;
        }
        if newWindow.Includes(last) {
          continue;
        }
        if window.None? || newWindow.start < window.value.start {
          window := Some(newWindow);
        }
      }
    }

    // ---------- Why the first productive day decides ----------

    lemma TimesValid()
      requires Valid()
      ensures forall i :: 0 <= i < |Times()| ==> Times()[i].Valid()
    {
      AllPartsValid(BaseTimes());
    }

    lemma CandidateStart(cal: Calendar, last: int, now: int, day: int, w: Window)
      requires Valid() && Candidate(cal, last, now, day, w)
      ensures day * DAY <= w.start <= (day + 1) * DAY && w.start <= w.end
    {
      TimesValid();
      var i :| 0 <= i < |Times()| && w == Times()[i].WindowOn(day);
      NanosRange(Times()[i].start);
      NanosRange(Times()[i].end);
    }

    /** A window that starts before the day of `last` is over by now, or `last` falls in it. */
    lemma NoneBefore(cal: Calendar, last: int, now: int, day: int, w: Window)
      requires Valid() && last <= now && day < DayOf(last)
      ensures !Candidate(cal, last, now, day, w)
    {
      if Candidate(cal, last, now, day, w) {
        CandidateStart(cal, last, now, day, w);
      }
    }

    ghost predicate EarliestOfDay(cal: Calendar, last: int, now: int, day: int, w: Window)
      requires Valid()
    {
      Candidate(cal, last, now, day, w) && forall v :: Candidate(cal, last, now, day, v) ==> w.start <= v.start
    }

    lemma FirstDayDecides(cal: Calendar, last: int, now: int, day: int, w: Window)
      requires Valid() && day >= DayOf(last) && EarliestOfDay(cal, last, now, day, w)
      requires forall d :: DayOf(last) <= d < day ==> !Productive(cal, last, now, d)
      ensures forall d, v :: d >= DayOf(last) && Candidate(cal, last, now, d, v) ==> w.start <= v.start
      ensures last <= now ==> forall d, v :: Candidate(cal, last, now, d, v) ==> w.start <= v.start
    {
      hide Candidate, DayOf;
      CandidateStart(cal, last, now, day, w);
      forall d, v | Candidate(cal, last, now, d, v) && (d >= DayOf(last) || last <= now)
        ensures w.start <= v.start
      {
        assert Productive(cal, last, now, d);
        CandidateStart(cal, last, now, d, v);
        if d < DayOf(last) {
          NoneBefore(cal, last, now, d, v);
        }
      }
    }

    lemma EarliestFound(cal: Calendar, last: int, now: int, day: int, window: Option<Window>)
      requires Valid() && OnDay(cal, day)
      requires window.Some? ==>
                 && (exists i :: 0 <= i < |Times()| && window.value == Times()[i].WindowOn(day))
                 && window.value.end >= now && !window.value.Includes(last)
      requires forall i :: 0 <= i < |Times()| && Times()[i].WindowOn(day).end >= now
                           && !Times()[i].WindowOn(day).Includes(last) ==>
                 window.Some? && window.value.start <= Times()[i].WindowOn(day).start
      ensures window.Some? ==> EarliestOfDay(cal, last, now, day, window.value)
      ensures window.None? ==> !Productive(cal, last, now, day)
    {
    }

    /** The earliest window after `last` that is not over at `now`. The search goes on for ever when there is none. */
    method Next(cal: Calendar, last: int, now: int) returns (window: Window)
      requires Valid()
      requires exists day :: day >= DayOf(last) && Productive(cal, last, now, day)
      ensures exists day :: day >= DayOf(last) && Candidate(cal, last, now, day, window)
      ensures forall day, w :: day >= DayOf(last) && Candidate(cal, last, now, day, w) ==> window.start <= w.start
      ensures last <= now ==> forall day, w :: Candidate(cal, last, now, day, w) ==> window.start <= w.start
    {
      hide OnDay, ClockSpan.WindowOn, Candidate, EarliestOfDay, Productive;
      var times := FlattenedClockSpans();
      ghost var final :| final >= DayOf(last) && Productive(cal, last, now, final);
      var t := last;
      while true
        invariant DayOf(last) <= DayOf(t) <= final
        invariant forall day :: DayOf(last) <= day < DayOf(t) ==> !Productive(cal, last, now, day)
        decreases final - DayOf(t)
      {
        var day := DayOf(t);
        var onDay := MatchesDay(cal, day);
        if onDay {
          var found := Earliest(times, last, now, day);
          EarliestFound(cal, last, now, day, found);
          if found.Some? {
            window := found.value;
            FirstDayDecides(cal, last, now, day, window);
            assert Candidate(cal, last, now, day, window) by { EarliestIsCandidate(cal, last, now, day, window); }
            return;
          }
        } else {
          OtherDays(cal, last, now, day);
        }
        t := t + DAY;
      }
    }

    lemma EarliestIsCandidate(cal: Calendar, last: int, now: int, day: int, w: Window)
      requires Valid() && EarliestOfDay(cal, last, now, day, w)
      ensures Candidate(cal, last, now, day, w)
    {
    }

    lemma OtherDays(cal: Calendar, last: int, now: int, day: int)
      requires Valid() && !OnDay(cal, day)
      ensures !Productive(cal, last, now, day)
    {
    }

    // ---------- When there is a window, and where ----------

    predicate Weekly()
      requires Valid()
    {
      weekSpans == [] || exists i :: 0 <= i < |weekSpans| && weekSpans[i].start.pos == EVERY_WEEK
    }

    /** Within any seven days there is one of a schedule with a span without week numbers, or without spans. */
    lemma WeeklyOnDay(cal: Calendar, day: int) returns (d: int)
      requires Valid() && Weekly()
      ensures day <= d < day + 7 && OnDay(cal, d)
    {
      d := day;
      if weekSpans != [] {
        var i :| 0 <= i < |weekSpans| && weekSpans[i].start.pos == EVERY_WEEK;
        d := day + DaysUntil(day, weekSpans[i].start.weekday);
        assert Matches(cal, weekSpans[i], d);
      }
    }

    predicate Recurring()
      requires Valid()
    {
      weekSpans == [] || exists i :: 0 <= i < |weekSpans| && weekSpans[i].Recurs()
    }

    lemma RecurringOnDay(cal: Calendar, day: int) returns (d: int)
      requires cal.Valid() && Valid() && Recurring()
      ensures day <= d < day + 62 && OnDay(cal, d)
    {
      d := day;
      if weekSpans != [] {
        var i :| 0 <= i < |weekSpans| && weekSpans[i].Recurs();
        d := RecursOnDay(cal, weekSpans[i], day);
        assert Matches(cal, weekSpans[i], d);
      }
    }

    lemma FutureDayProductive(cal: Calendar, last: int, now: int, day: int)
      requires Valid() && OnDay(cal, day) && day > DayOf(last) && day > DayOf(now)
      ensures Productive(cal, last, now, day)
    {
      TimesValid();
      TimesNotEmpty();
      var w := Times()[0].WindowOn(day);
      NanosRange(Times()[0].start);
      NanosRange(Times()[0].end);
      assert w.start > now && w.start > last && w.end >= w.start;
      assert Candidate(cal, last, now, day, w);
    }

    lemma TimesNotEmpty()
      requires Valid()
      ensures Times() != []
    {
    }

    /** Without week numbers, Next finds a window, at most seven days after the later of `last` and `now`. */
    lemma WeeklyTerminates(cal: Calendar, last: int, now: int) returns (day: int)
      requires Valid() && Weekly()
      ensures DayOf(last) < day && DayOf(now) < day
      ensures day <= DayOf(last) + 7 || day <= DayOf(now) + 7
      ensures Productive(cal, last, now, day)
    {
      var later := if last > now then last else now;
      day := WeeklyOnDay(cal, DayOf(later) + 1);
      FutureDayProductive(cal, last, now, day);
    }

    /** With week numbers too, as long as some span recurs every month: at most 62 days after. */
    lemma RecurringTerminates(cal: Calendar, last: int, now: int) returns (day: int)
      requires cal.Valid() && Valid() && Recurring()
      ensures DayOf(last) < day && DayOf(now) < day
      ensures day <= DayOf(last) + 62 || day <= DayOf(now) + 62
      ensures Productive(cal, last, now, day)
    {
      var later := if last > now then last else now;
      day := RecurringOnDay(cal, DayOf(later) + 1);
      FutureDayProductive(cal, last, now, day);
    }

    // ---------- Includes ----------

    /** The times at which the schedule is on: from the start of a window up to its end; a moment lasts a minute. */
    ghost predicate On(cal: Calendar, t: int)
      requires Valid()
    {
      OnDay(cal, DayOf(t)) && exists i :: 0 <= i < |Times()| && InSpan(Times()[i], t)
    }

    method Includes(cal: Calendar, t: int) returns (b: bool)
      requires Valid()
      ensures b == On(cal, t)
    {
      var onDay := MatchesDay(cal, DayOf(t));
      if !onDay {
        return false;
      }
      var times := FlattenedClockSpans();
      var i := 0;
      while i < |times|
        invariant 0 <= i <= |times|
        invariant forall j :: 0 <= j < i ==> !InSpan(times[j], t)
      {
        var window := times[i].WindowOn(DayOf(t));
        if window.end == window.start {
          window := window.(end := window.end + MINUTE);
        }
        if window.Includes(t) && t < window.end {
          return true;
        }
        i := i + 1;
      }
      return false;
    }

    /** Without clock spans, a schedule is on for the first minute of its days. */
    lemma MidnightByDefault(cal: Calendar, t: int)
      requires Valid() && clockSpans == []
      ensures On(cal, t) <==> OnDay(cal, DayOf(t)) && t % DAY < MINUTE
    {
      hide OnDay;
      var ts := ClockSpan(Clock(0, 0), Clock(0, 0), 0, false);
      assert BaseTimes() == [ts] && [ts][..0] == [] && AllParts([]) == [] && ts.Parts() == [ts];
      assert Times() == [ts];
      hide Times, BaseTimes, AllParts, ClockSpan.Parts;
      assert InSpan(ts, t) <==> t % DAY < MINUTE;
      assert (exists i :: 0 <= i < |Times()| && InSpan(Times()[i], t)) <==> InSpan(Times()[0], t);
    }

    /** A time in a window of whatever day: the schedule is on, or a window of the day before reaches past midnight. */
    lemma OnOrCarriedOver(cal: Calendar, t: int)
      requires Valid()
      ensures (exists day, i :: OnDay(cal, day) && 0 <= i < |Times()| && InSpanOf(Times()[i], day, t))
              <==> || On(cal, t)
                   || (OnDay(cal, DayOf(t) - 1) &&
                       exists i :: 0 <= i < |Times()| && t < SpanEnd(Times()[i], DayOf(t) - 1))
    {
      TimesValid();
      hide InSpanOf, SpanEnd, DayOf, OnDay, Times, BaseTimes;
      forall day, i | 0 <= i < |Times()|
        ensures InSpanOf(Times()[i], day, t) ==> day == DayOf(t) || day == DayOf(t) - 1
        ensures day == DayOf(t) - 1 ==> (InSpanOf(Times()[i], day, t) <==> t < SpanEnd(Times()[i], day))
      {
        SpanReaches(Times()[i], day, t);
      }
      if i :| 0 <= i < |Times()| && t < SpanEnd(Times()[i], DayOf(t) - 1) {
        assert InSpanOf(Times()[i], DayOf(t) - 1, t);
      }
    }

    /** The schedule is on at the start of a window that Next can return, unless that start is written 24:00. */
    lemma OnAtStart(cal: Calendar, last: int, now: int, day: int, w: Window)
      requires Valid() && Candidate(cal, last, now, day, w) && w.start < (day + 1) * DAY
      ensures On(cal, w.start)
    {
      CandidateStart(cal, last, now, day, w);
      assert DayOf(w.start) == day;
      var i :| 0 <= i < |Times()| && w == Times()[i].WindowOn(day);
      assert InSpan(Times()[i], w.start);
    }
  }

  /** Where a window ends as the schedule's being on goes: a moment lasts a minute. */
  function SpanEnd(ts: ClockSpan, day: int): int {
    var w := ts.WindowOn(day);
    if w.end == w.start then w.end + MINUTE else w.end
  }

  predicate InSpanOf(ts: ClockSpan, day: int, t: int) {
    ts.WindowOn(day).start <= t < SpanEnd(ts, day)
  }

  predicate InSpan(ts: ClockSpan, t: int) {
    InSpanOf(ts, DayOf(t), t)
  }

  lemma SpanReaches(ts: ClockSpan, day: int, t: int)
    requires ts.Valid()
    ensures InSpanOf(ts, day, t) ==> day == DayOf(t) || day == DayOf(t) - 1
    ensures day == DayOf(t) - 1 ==> (InSpanOf(ts, day, t) <==> t < SpanEnd(ts, day))
  {
    hide Clock.Nanos;
    NanosRange(ts.start);
    NanosRange(ts.end);
    WholeMinutesAdd(ts.end.Nanos(), 0);
  }

  // ---------- Months ----------

  lemma NextMonth(cal: Calendar, day: int) returns (n: int)
    requires cal.Valid()
    ensures day < n <= day + 31 && cal.monthStart(n) == n
    ensures forall x :: cal.monthStart(day) <= x < n ==> cal.SameMonth(x, day)
  {
    var m := cal.monthStart(day);
    n := cal.monthStart(m + 31);
    assert cal.monthStart(m) == m && cal.monthStart(n) == n;
    forall x | m <= x < n
      ensures cal.SameMonth(x, day)
    {
      assert cal.monthStart(cal.monthStart(x)) == cal.monthStart(x);
    }
  }

  lemma RecursOnDay(cal: Calendar, ws: WeekSpan, day: int) returns (d: int)
    requires cal.Valid() && ws.Valid() && ws.Recurs()
    ensures day <= d < day + 62 && Matches(cal, ws, d)
  {
    if ws.start.pos == EVERY_WEEK {
      d := day + DaysUntil(day, ws.start.weekday);
    } else {
      var n := NextMonth(cal, day);
      if ws.start.pos == LAST_WEEK {
        var m := NextMonth(cal, n);
        assert n + 28 <= m;
        d := m - 7 + DaysUntil(m - 7, ws.start.weekday);
        assert cal.SameMonth(d, n) && cal.monthStart(d + 7) == m;
      } else {
        d := NthWeekday(cal, n, ws.start.weekday, ws.start.pos);
        NthWeekdayInMonth(cal, n, ws.start.weekday, ws.start.pos);
        NumberedSpan(cal, ws, d);
      }
    }
  }

  /** Half past midnight is in the window of 23:00-01:00 that began the day before, but that schedule is not on. */
  lemma HalfPastMidnight(cal: Calendar, day: int)
    ensures var ts := ClockSpan(Clock(23, 0), Clock(1, 0), 0, false);
            var t := day * DAY + 30 * MINUTE;
            InSpanOf(ts, day - 1, t) && !Schedule([], [ts]).On(cal, t)
  {
    var ts := ClockSpan(Clock(23, 0), Clock(1, 0), 0, false);
    var s := Schedule([], [ts]);
    assert [ts][..0] == [] && AllParts([]) == [] && ts.Parts() == [ts];
    assert s.Times() == [ts];
    assert DayOf(day * DAY + 30 * MINUTE) == day;
  }
}
