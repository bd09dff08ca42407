/** Printing and parsing schedules (internals/timeutil/schedule.go). */
module ScheduleTexts {
  import opened Options
  import opened Text
  import opened Schedules

  // ---------- Printing ----------

  /** At least two digits. */
  function PadTwo(n: int): string {
    if 0 <= n < 10 then "0" + Digits(n) else Itoa(n)
  }

  function ClockText(c: Clock): string {
    PadTwo(c.hour) + [':'] + PadTwo(c.minute)
  }

  /** The first three letters of the weekday's name; other numbers print as a formatting error. */
  function DayName(weekday: int): string {
    match weekday
    case 0 => "sun"
    case 1 => "mon"
    case 2 => "tue"
    case 3 => "wed"
    case 4 => "thu"
    case 5 => "fri"
    case 6 => "sat"
    case _ => "%!w"
  }

  function WeekText(w: Week): string {
    if w.pos == EVERY_WEEK then DayName(w.weekday) else DayName(w.weekday) + Itoa(w.pos)
  }

  function WeekSpanText(ws: WeekSpan): string {
    if ws.end != ws.start then WeekText(ws.start) + ['-'] + WeekText(ws.end) else WeekText(ws.start)
  }

  function ClockSpanText(ts: ClockSpan): string {
    var sep := if ts.spread then '~' else '-';
    if ts.end != ts.start then
      var s := ClockText(ts.start) + [sep] + ClockText(ts.end);
      if ts.split > 0 then s + ['/'] + Itoa(ts.split) else s
    else ClockText(ts.start)
  }

  /** The texts of the spans, week spans first. */
  function Fragments(s: Schedule): (f: seq<string>)
    ensures |f| == |s.weekSpans| + |s.clockSpans|
  {
    seq(|s.weekSpans|, i requires 0 <= i < |s.weekSpans| => WeekSpanText(s.weekSpans[i])) +
    seq(|s.clockSpans|, i requires 0 <= i < |s.clockSpans| => ClockSpanText(s.clockSpans[i]))
  }

  lemma {:induction false} JoinSnoc(parts: seq<string>, p: string, c: char)
    ensures Join(parts + [p], c) == if parts == [] then p else Join(parts, c) + [c] + p
  {
    if |parts| > 0 {
      JoinSnoc(parts[1..], p, c);
      assert (parts + [p])[1..] == parts[1..] + [p];
    }
  }

  lemma JoinOneMore(f: seq<string>, i: nat)
    requires i < |f|
    ensures Join(f[..i + 1], ',') == if i == 0 then f[0] else Join(f[..i], ',') + [','] + f[i]
  {
    assert f[..i + 1] == f[..i] + [f[i]];
    JoinSnoc(f[..i], f[i], ',');
  }

  lemma FragmentAt(s: Schedule, i: nat)
    ensures i < |s.weekSpans| ==> Fragments(s)[i] == WeekSpanText(s.weekSpans[i])
    ensures i < |s.clockSpans| ==> Fragments(s)[|s.weekSpans| + i] == ClockSpanText(s.clockSpans[i])
  {
    hide WeekSpanText, ClockSpanText;
  }

  method String(s: Schedule) returns (text: string)
    ensures text == Join(Fragments(s), ',')
  {
    hide Join, WeekSpanText, ClockSpanText, Fragments;
    ghost var f := Fragments(s);
    var m, n := |s.weekSpans|, |s.clockSpans|;
    text := "";
    assert Join(f[..0], ',') == "" by { JoinNone(f[..0], ','); }
    var i := 0;
    while i < m
      invariant 0 <= i <= m && text == Join(f[..i], ',')
    {
      if i > 0 {
        text := text + [','];
      }
      text := text + WeekSpanText(s.weekSpans[i]);
      FragmentAt(s, i);
      JoinOneMore(f, i);
      i := i + 1;
    }
    if m > 0 && n > 0 {
      text := text + [','];
    }
    i := 0;
    while i < n
      invariant 0 <= i <= n
      invariant text == Join(f[..m + i], ',') + if i == 0 && m > 0 && n > 0 then [','] else []
    {
      if i > 0 {
        text := text + [','];
      }
      text := text + ClockSpanText(s.clockSpans[i]);
      FragmentAt(s, i);
      JoinOneMore(f, m + i);
      i := i + 1;
    }
    assert f[..m + i] == f;
  }

  lemma JoinNone(parts: seq<string>, c: char)
    requires parts == []
    ensures Join(parts, c) == ""
  {
  }

  // ---------- Parsing spans ----------

  predicate HourText(h: string) {
    || (|h| == 1 && IsDigit(h[0]))
    || (|h| == 2 && '0' <= h[0] <= '1' && IsDigit(h[1]))
    || (|h| == 2 && h[0] == '2' && '0' <= h[1] <= '3')
  }

  predicate MinuteText(m: string) {
    |m| == 2 && '0' <= m[0] <= '5' && IsDigit(m[1])
  }

  function ParseClock(s: string): Option<Clock> {
    var i := Find(s, ':');
    if s == "24:00" then Some(Clock(24, 0))
    else if i < |s| && HourText(s[..i]) && MinuteText(s[i + 1..]) then Some(Clock(Value(s[..i]), Value(s[i + 1..])))
    else None
  }

  function DayNumber(name: string): Option<int> {
    if name == "sun" then Some(0)
    else if name == "mon" then Some(1)
    else if name == "tue" then Some(2)
    else if name == "wed" then Some(3)
    else if name == "thu" then Some(4)
    else if name == "fri" then Some(5)
    else if name == "sat" then Some(6)
    else None
  }

  const UINT32_BOUND: nat := 0x1_0000_0000

  function ParseWeekday(s: string): Option<Week> {
    if |s| != 3 && |s| != 4 then None else
      var pos := if |s| == 4 then ParseUint(s[3..], UINT32_BOUND) else Some(EVERY_WEEK);
      if pos.None? || (|s| == 4 && !(1 <= pos.value <= 5)) then None else
        match DayNumber(s[..3])
        case None => None
        case Some(weekday) => Some(Week(weekday, pos.value))
  }

  function ParseWeekSpan(s: string): Option<WeekSpan> {
    var split := Split(s, '-');
    if |split| > 2 then None else
      var start := ParseWeekday(split[0]);
      var end := if |split| == 2 then ParseWeekday(split[1]) else start;
      if start.None? || end.None? then None
      else if end.value.pos < start.value.pos then None
      else if (start.value.pos != EVERY_WEEK) != (end.value.pos != EVERY_WEEK) then None
      else Some(WeekSpan(start.value, end.value))
  }

  /** The count after a slash, 0 if there is none, and the text before it. */
  function ParseCount(s: string): Option<(nat, string)> {
    if '/' !in s then Some((0, s)) else
      var split := Split(s, '/');
      if |split| != 2 then None else
        match ParseUint(split[1], UINT32_BOUND)
        case Some(c) => if c == 0 then None else Some((c, split[0]))
        case None => None
  }

  /** The times before and after the first dash. */
  function ParseClockRange(s: string): Option<(Clock, Clock)> {
    var i := Find(s, '-');
    if i == |s| then None else
      var start, end := ParseClock(s[..i]), ParseClock(s[i + 1..]);
      if start.None? || end.None? then None else Some((start.value, end.value))
  }

  /** The first tilde replaced by a dash. */
  function Dashed(s: string): string {
    if '~' in s then s[Find(s, '~') := '-'] else s
  }

  function ParseTimes(rest: string): Option<(Clock, Clock)> {
    if rest == "-" then Some((Clock(0, 0), Clock(24, 0)))
    else if '-' in rest then ParseClockRange(rest)
    else match ParseClock(rest)
         case Some(c) => Some((c, c))
         case None => None
  }

  function ParseClockSpan(s: string): Option<ClockSpan> {
    match ParseCount(s)
    case None => None
    case Some((count, text)) =>
      match ParseTimes(Dashed(text))
      case None => None
      case Some((start, end)) => Some(ClockSpan(start, end, count, '~' in text))
  }

  // ---------- Parsing schedules ----------

  /** Week spans, then clock spans; a fragment is a clock span just when it holds a colon. */
  ghost predicate Describes(fragments: seq<string>, s: Schedule) {
    var n := |s.weekSpans|;
    && |fragments| == n + |s.clockSpans|
    && (forall i :: 0 <= i < n ==> ':' !in fragments[i] && ParseWeekSpan(fragments[i]) == Some(s.weekSpans[i]))
    && (forall i :: n <= i < |fragments| ==>
        ':' in fragments[i] && ParseClockSpan(fragments[i]) == Some(s.clockSpans[i - n]))
  }

  /** The first two commas in a row, or the length if there are none. */
  function FindPair(s: string): (i: nat)
    ensures i <= |s| && (forall j :: 0 <= j < i && j + 1 < |s| ==> !(s[j] == s[j + 1] == ','))
    ensures i < |s| ==> i + 1 < |s| && s[i] == s[i + 1] == ','
  {
    if |s| < 2 then |s| else if s[0] == s[1] == ',' then 0 else 1 + FindPair(s[1..])
  }

  function EventSets(s: string): (sets: seq<string>)
    ensures sets != []
    decreases |s|
  {
    var i := FindPair(s);
    if i == |s| then [s] else [s[..i]] + EventSets(s[i + 2..])
  }

  /** The schedules that a text stands for, one for each event set. */
  ghost predicate Denotes(spec: string, scheds: seq<Schedule>) {
    var sets := EventSets(spec);
    |scheds| == |sets| && forall i :: 0 <= i < |sets| ==> Describes(Split(sets[i], ','), scheds[i])
  }

  lemma DescribesBefore(fragments: seq<string>, i: nat, s: Schedule, t: Schedule)
    requires i < |fragments| && Describes(fragments[..i], s) && Describes(fragments, t)
    ensures ':' in fragments[i] ==> ParseClockSpan(fragments[i]).Some?
    ensures ':' !in fragments[i] ==> s.clockSpans == [] && ParseWeekSpan(fragments[i]).Some?
  {
    var n := |s.weekSpans|;
    assert s.clockSpans != [] ==> ':' in fragments[..i][n];
  }

  method ParseEventSet(s: string) returns (r: Option<Schedule>)
    ensures r.Some? ==> Describes(Split(s, ','), r.value)
    ensures r.None? ==> forall t :: !Describes(Split(s, ','), t)
  {
    hide ParseClockSpan, ParseWeekSpan;
    var fragments := Split(s, ',');
    var schedule := Schedule([], []);
    var expectTime := false;
    var i := 0;
    while i < |fragments|
      invariant 0 <= i <= |fragments|
      invariant Describes(fragments[..i], schedule)
      invariant expectTime <==> schedule.clockSpans != []
    {
      var fragment := fragments[i];
      forall t | Describes(fragments, t)
        ensures ':' in fragment ==> ParseClockSpan(fragment).Some?
        ensures ':' !in fragment ==> !expectTime && ParseWeekSpan(fragment).Some?
      {
        DescribesBefore(fragments, i, schedule, t);
      }
      assert fragments[..i + 1] == fragments[..i] + [fragment];
      if fragment == "" {
        NoEmptyFragment();
        return None;
      }
      if ':' in fragment {
        var span := ParseClockSpan(fragment);
        if span.None? {
          return None;
        }
        schedule := schedule.(clockSpans := schedule.clockSpans + [span.value]);
        expectTime := true;
      } else if !expectTime {
        var span := ParseWeekSpan(fragment);
        if span.None? {
          return None;
        }
        schedule := schedule.(weekSpans := schedule.weekSpans + [span.value]);
      } else {
        return None;
      }
      i := i + 1;
    }
    assert fragments[..i] == fragments;
    r := Some(schedule);
  }

  lemma NoEmptyFragment()
    ensures ParseWeekSpan("").None?
  {
  }

  method ParseSchedule(spec: string) returns (r: Option<seq<Schedule>>)
    ensures r.Some? ==> Denotes(spec, r.value)
    ensures r.None? ==> forall scheds :: !Denotes(spec, scheds)
  {
    hide Describes;
    var sets := EventSets(spec);
    var scheds := [];
    var i := 0;
    while i < |sets|
      invariant 0 <= i == |scheds| <= |sets|
      invariant forall j :: 0 <= j < i ==> Describes(Split(sets[j], ','), scheds[j])
    {
      var sched := ParseEventSet(sets[i]);
      if sched.None? {
        return None;
      }
      scheds := scheds + [sched.value];
      i := i + 1;
    }
    r := Some(scheds);
  }

  // ---------- Texts stand for one schedule, and that is well formed ----------

  /** How many fragments come before the first with a colon. */
  function Leading(fragments: seq<string>): (n: nat)
    ensures n <= |fragments| && (forall i :: 0 <= i < n ==> ':' !in fragments[i])
    ensures n < |fragments| ==> ':' in fragments[n]
  {
    if fragments == [] || ':' in fragments[0] then 0 else 1 + Leading(fragments[1..])
  }

  lemma WeekSpansLead(fragments: seq<string>, s: Schedule)
    requires Describes(fragments, s)
    ensures |s.weekSpans| == Leading(fragments)
  {
    hide ParseClockSpan, ParseWeekSpan;
    if |s.weekSpans| < |fragments| {
      assert ':' in fragments[|s.weekSpans|];
    }
  }

  lemma DescribesOne(fragments: seq<string>, s: Schedule, t: Schedule)
    requires Describes(fragments, s) && Describes(fragments, t)
    ensures s == t
  {
    hide ParseClockSpan, ParseWeekSpan;
    WeekSpansLead(fragments, s);
    WeekSpansLead(fragments, t);
    var n := |s.weekSpans|;
    assert s.weekSpans == t.weekSpans;
    forall i | 0 <= i < |s.clockSpans|
      ensures s.clockSpans[i] == t.clockSpans[i]
    {
      assert ParseClockSpan(fragments[n + i]) == Some(s.clockSpans[n + i - n]);
      assert ParseClockSpan(fragments[n + i]) == Some(t.clockSpans[n + i - n]);
    }
  }

  /** A text stands for at most one list of schedules. */
  lemma DenotesOne(spec: string, a: seq<Schedule>, b: seq<Schedule>)
    requires Denotes(spec, a) && Denotes(spec, b)
    ensures a == b
  {
    hide Describes;
    var sets := EventSets(spec);
    forall i | 0 <= i < |sets|
      ensures a[i] == b[i]
    {
      DescribesOne(Split(sets[i], ','), a[i], b[i]);
    }
  }

  /** What parsing can return: valid spans, with counts of 32 bits, one at least. */
  predicate WellFormed(s: Schedule) {
    && s.Valid()
    && (forall i :: 0 <= i < |s.clockSpans| ==> s.clockSpans[i].split < UINT32_BOUND)
    && !(s.weekSpans == [] && s.clockSpans == [])
  }

  lemma ValueOfTwo(s: string)
    requires |s| == 2 && IsDigit(s[0]) && IsDigit(s[1])
    ensures Value(s) == 10 * ValueOf(s[0]) + ValueOf(s[1])
  {
    assert s[..1] == [s[0]];
    ValueOfOne([s[0]]);
  }

  lemma ValueOfOne(s: string)
    requires |s| == 1 && IsDigit(s[0])
    ensures Value(s) == ValueOf(s[0])
  {
  }

  lemma ParsedClock(s: string)
    requires ParseClock(s).Some?
    ensures ParseClock(s).value.Valid()
  {
    if s != "24:00" {
      var i := Find(s, ':');
      var h, m := s[..i], s[i + 1..];
      if |h| == 1 {
        ValueOfOne(h);
      } else {
        ValueOfTwo(h);
      }
      ValueOfTwo(m);
    }
  }

  lemma ParsedClockSpan(s: string)
    requires ParseClockSpan(s).Some?
    ensures ParseClockSpan(s).value.Valid() && ParseClockSpan(s).value.split < UINT32_BOUND
  {
    hide ParseClock;
    var rest := Dashed(ParseCount(s).value.1);
    if rest != "-" {
      var i := Find(rest, '-');
      if i < |rest| {
        ParsedClock(rest[..i]);
        ParsedClock(rest[i + 1..]);
      } else {
        ParsedClock(rest);
      }
    }
  }

  lemma ParsedWeekSpan(s: string)
    requires ParseWeekSpan(s).Some?
    ensures ParseWeekSpan(s).value.Valid()
  {
  }

  /** Every schedule that parsing returns is well formed, so that its windows can be computed. */
  lemma ParsedIsWellFormed(spec: string, scheds: seq<Schedule>, k: nat)
    requires Denotes(spec, scheds) && k < |scheds|
    ensures WellFormed(scheds[k])
  {
    hide ParseClockSpan, ParseWeekSpan, EventSets;
    var fragments, s := Split(EventSets(spec)[k], ','), scheds[k];
    assert Describes(fragments, s);
    forall i | 0 <= i < |s.weekSpans|
      ensures s.weekSpans[i].Valid()
    {
      ParsedWeekSpan(fragments[i]);
    }
    forall i | 0 <= i < |s.clockSpans|
      ensures s.clockSpans[i].Valid() && s.clockSpans[i].split < UINT32_BOUND
    {
      ParsedClockSpan(fragments[|s.weekSpans| + i]);
      assert s.clockSpans[i] == s.clockSpans[|s.weekSpans| + i - |s.weekSpans|];
    }
  }

  lemma CountHasDigits(s: string)
    requires '/' in s && ParseCount(s).Some?
    ensures exists d :: AllDigits(d) && s == ParseCount(s).value.1 + ['/'] + d
  {
    var i := Find(s, '/');
    var text, d := s[..i], s[i + 1..];
    assert s == text + ['/'] + d;
    SplitMore(text, '/', d);
    SplitAlone(d, '/');
  }

  lemma SplitAlone(s: string, c: char)
    requires |Split(s, c)| == 1
    ensures Split(s, c) == [s]
  {
  }

  /** The whole-day forms "-" and "~", with or without a count, hold no colon: no clock-span fragment is one. */
  lemma WholeDayUnreachable(fragment: string)
    requires ':' in fragment && ParseCount(fragment).Some?
    ensures Dashed(ParseCount(fragment).value.1) != "-"
  {
    var text := ParseCount(fragment).value.1;
    if '/' in fragment {
      CountHasDigits(fragment);
      var d :| AllDigits(d) && fragment == text + ['/'] + d;
      assert ':' !in d;
    }
    assert ':' in text;
    DashedHolds(text, ':');
  }

  lemma DashedHolds(s: string, c: char)
    requires c in s && c != '~'
    ensures c in Dashed(s)
  {
  }

  // ---------- Printing and parsing back ----------

  /** Printing leaves the spread and the count of a moment out. */
  function PlainSpan(ts: ClockSpan): ClockSpan {
    if ts.start == ts.end then ClockSpan(ts.start, ts.end, 0, false) else ts
  }

  function Plain(s: Schedule): (p: Schedule)
    ensures |p.clockSpans| == |s.clockSpans|
  {
    Schedule(s.weekSpans, seq(|s.clockSpans|, i requires 0 <= i < |s.clockSpans| => PlainSpan(s.clockSpans[i])))
  }

  lemma TwoDigits(n: int)
    requires 0 <= n < 100
    ensures PadTwo(n) == [DigitOf(n / 10), DigitOf(n % 10)]
  {
    if n >= 10 {
      assert Digits(n) == Digits(n / 10) + [DigitOf(n % 10)];
    }
  }

  lemma ClockTextIs(c: Clock)
    requires c.Valid()
    ensures ClockText(c) ==
            [DigitOf(c.hour / 10), DigitOf(c.hour % 10), ':', DigitOf(c.minute / 10), DigitOf(c.minute % 10)]
  {
    TwoDigits(c.hour);
    TwoDigits(c.minute);
  }

  lemma ClockRoundTrip(c: Clock)
    requires c.Valid()
    ensures ParseClock(ClockText(c)) == Some(c)
  {
    hide ClockText, PadTwo;
    ClockTextIs(c);
    var s := ClockText(c);
    if c == Clock(24, 0) {
      assert s == "24:00";
    } else {
      var h, m := s[..2], s[3..];
      assert s == h + [':'] + m;
      FindIs(h, ':', m);
      TwoDigitsParse(c.hour, h);
      TwoDigitsParse(c.minute, m);
      assert s == "24:00" ==> h == "24";
      hide Value, Find;
    }
  }

  lemma TwoDigitsParse(n: int, s: string)
    requires 0 <= n < 60 && s == [DigitOf(n / 10), DigitOf(n % 10)]
    ensures MinuteText(s) && (n < 24 ==> HourText(s)) && Value(s) == n && (s == "24" ==> n == 24)
  {
    ValueOfTwo(s);
  }

  lemma ClockTextHolds(c: Clock, x: char)
    requires c.Valid() && !IsDigit(x)
    ensures x in ClockText(c) <==> x == ':'
    ensures |ClockText(c)| == 5
  {
    ClockTextIs(c);
    assert ClockText(c)[2] == ':';
  }

  lemma WeekRoundTrip(w: Week)
    requires 0 <= w.weekday < 7 && w.pos <= LAST_WEEK
    ensures ParseWeekday(WeekText(w)) == Some(w)
    ensures forall x :: x in WeekText(w) ==> IsDigit(x) || 'a' <= x <= 'z'
  {
    var s, name := WeekText(w), DayName(w.weekday);
    assert |name| == 3 && DayNumber(name) == Some(w.weekday);
    assert s[..3] == name;
    if w.pos != EVERY_WEEK {
      assert s[3..] == Itoa(w.pos) == [DigitOf(w.pos)];
      ValueOfOne(s[3..]);
    }
  }

  lemma WeekSpanRoundTrip(ws: WeekSpan)
    requires ws.Valid()
    ensures ParseWeekSpan(WeekSpanText(ws)) == Some(ws)
    ensures forall x :: x in WeekSpanText(ws) ==> IsDigit(x) || 'a' <= x <= 'z' || x == '-'
    ensures WeekSpanText(ws) != ""
  {
    hide ParseWeekday, WeekText;
    WeekRoundTrip(ws.start);
    WeekRoundTrip(ws.end);
    SplitOne(WeekText(ws.start), '-');
    SplitOne(WeekText(ws.end), '-');
    SplitMore(WeekText(ws.start), '-', WeekText(ws.end));
    assert WeekText(ws.start) != "" by { NoEmptyWeek(); }
  }

  lemma NoEmptyWeek()
    ensures ParseWeekday("").None?
  {
  }

  lemma DashedIs(a: string, b: string, sep: char)
    requires '~' !in a && '~' !in b && (sep == '~' || sep == '-')
    ensures Dashed(a + [sep] + b) == a + ['-'] + b
    ensures '~' in a + [sep] + b <==> sep == '~'
  {
  }

  lemma NotDashed(s: string)
    ensures '~' !in s ==> Dashed(s) == s
    ensures '~' in s ==> '-' in Dashed(s)
  {
    if '~' in s {
      assert Dashed(s)[Find(s, '~')] == '-';
    }
  }

  // ---------- Exactly which texts parse ----------

  /** Two digits each for hour and minute, or one for an hour below 10. */
  predicate IsClockText(s: string, c: Clock) {
    c.Valid() && (s == ClockText(c) || (c.hour < 10 && s == ClockText(c)[1..]))
  }

  lemma DigitBack(d: char)
    requires IsDigit(d)
    ensures DigitOf(ValueOf(d)) == d
  {
  }

  lemma TwoDigitsBack(s: string)
    requires |s| == 2 && IsDigit(s[0]) && IsDigit(s[1])
    ensures Value(s) / 10 == ValueOf(s[0]) && Value(s) % 10 == ValueOf(s[1])
    ensures s == [DigitOf(Value(s) / 10), DigitOf(Value(s) % 10)]
  {
    ValueOfTwo(s);
    DigitBack(s[0]);
    DigitBack(s[1]);
  }

  lemma ParsedClockText(s: string)
    requires ParseClock(s).Some?
    ensures IsClockText(s, ParseClock(s).value)
  {
    hide ClockText, Value;
    ParsedClock(s);
    var c := ParseClock(s).value;
    ClockTextIs(c);
    if s != "24:00" {
      var i := Find(s, ':');
      var h, m := s[..i], s[i + 1..];
      assert s == h + [':'] + m;
      TwoDigitsBack(m);
      if |h| == 1 {
        ValueOfOne(h);
        DigitBack(h[0]);
      } else {
        TwoDigitsBack(h);
      }
    }
  }

  lemma ShortClockParses(c: Clock)
    requires c.Valid() && c.hour < 10
    ensures ParseClock(ClockText(c)[1..]) == Some(c)
  {
    ClockTextIs(c);
    hide ClockText;
    var s := ClockText(c)[1..];
    var h, m := s[..1], s[2..];
    assert s == h + [':'] + m;
    FindIs(h, ':', m);
    ValueOfOne(h);
    ValueOfTwo(m);
  }

  /** A clock parses from its printed form, and from the one without the leading 0, and from nothing else. */
  lemma ParseClockMeans(s: string, c: Clock)
    ensures ParseClock(s) == Some(c) <==> IsClockText(s, c)
  {
    hide ParseClock, ClockText;
    if ParseClock(s) == Some(c) {
      ParsedClockText(s);
    }
    if IsClockText(s, c) {
      ClockRoundTrip(c);
      if c.hour < 10 {
        ShortClockParses(c);
      }
    }
  }

  lemma IsClockTextHolds(s: string, c: Clock, x: char)
    requires IsClockText(s, c) && !IsDigit(x) && x != ':'
    ensures x !in s && |s| >= 4
  {
    ClockTextHolds(c, x);
  }

  /** A weekday parses from its printed form only. */
  lemma ParseWeekdayMeans(s: string, w: Week)
    ensures ParseWeekday(s) == Some(w) <==> 0 <= w.weekday < 7 && w.pos <= LAST_WEEK && s == WeekText(w)
  {
    if ParseWeekday(s) == Some(w) {
      assert s[..3] == DayName(w.weekday);
      if |s| == 4 {
        ValueOfOne(s[3..]);
        DigitBack(s[3]);
        assert s == s[..3] + [s[3]];
      } else {
        assert s == s[..3];
      }
    }
    if 0 <= w.weekday < 7 && w.pos <= LAST_WEEK {
      WeekRoundTrip(w);
    }
  }

  /** Exactly the texts of two weekdays of a valid span parse to it, or that of the one weekday if it is just that. */
  lemma ParseWeekSpanMeans(s: string, ws: WeekSpan)
    ensures ParseWeekSpan(s) == Some(ws) <==>
            ws.Valid() && (s == WeekText(ws.start) + ['-'] + WeekText(ws.end)
                           || (ws.start == ws.end && s == WeekText(ws.start)))
  {
    hide ParseWeekday, WeekText;
    var split := Split(s, '-');
    SplitParts(s, '-');
    if ParseWeekSpan(s) == Some(ws) {
      ParseWeekdayMeans(split[0], ws.start);
      ParseWeekdayMeans(split[|split| - 1], ws.end);
    }
    if ws.Valid() {
      WeekRoundTrip(ws.start);
      WeekRoundTrip(ws.end);
      SplitOne(WeekText(ws.start), '-');
      SplitOne(WeekText(ws.end), '-');
      SplitMore(WeekText(ws.start), '-', WeekText(ws.end));
    }
  }

  lemma SplitParts(s: string, c: char)
    ensures |Split(s, c)| == 1 ==> s == Split(s, c)[0] && c !in s
    ensures |Split(s, c)| == 2 ==> s == Split(s, c)[0] + [c] + Split(s, c)[1] && c !in Split(s, c)[0]
  {
    var i := Find(s, c);
    if i < |s| {
      assert s == s[..i] + [c] + s[i + 1..];
      if |Split(s, c)| == 2 {
        SplitAlone(s[i + 1..], c);
      }
    }
  }

  /** The text, behind it a slash and a number if there is a count. */
  ghost predicate IsCounted(s: string, count: nat, text: string) {
    && '/' !in text
    && if count == 0 then s == text
       else count < UINT32_BOUND && exists d :: AllDigits(d) && Value(d) == count && s == text + ['/'] + d
  }

  lemma ParseCountMeans(s: string, count: nat, text: string)
    ensures ParseCount(s) == Some((count, text)) <==> IsCounted(s, count, text)
  {
    hide Value;
    if ParseCount(s) == Some((count, text)) {
      SplitParts(s, '/');
    }
    if IsCounted(s, count, text) && count != 0 {
      var d :| AllDigits(d) && Value(d) == count && s == text + ['/'] + d;
      assert s[|text|] == '/';
      SplitMore(text, '/', d);
      SplitOne(d, '/');
    }
  }

  /** Two clocks with a dash between them, a tilde for a spread; or one; or a dash or tilde alone for the whole day. */
  ghost predicate IsTimes(text: string, start: Clock, end: Clock, spread: bool) {
    var sep := if spread then '~' else '-';
    || (text == [sep] && start == Clock(0, 0) && end == Clock(24, 0))
    || (!spread && start == end && IsClockText(text, start))
    || exists a, b :: IsClockText(a, start) && IsClockText(b, end) && text == a + [sep] + b
  }

  lemma ParseRangeMeans(s: string, start: Clock, end: Clock)
    ensures ParseClockRange(s) == Some((start, end)) <==>
            exists a, b :: IsClockText(a, start) && IsClockText(b, end) && s == a + ['-'] + b
  {
    hide ParseClock, IsClockText;
    if ParseClockRange(s) == Some((start, end)) {
      var i := Find(s, '-');
      ParseClockMeans(s[..i], start);
      ParseClockMeans(s[i + 1..], end);
      assert s == s[..i] + ['-'] + s[i + 1..];
    }
    forall a, b | IsClockText(a, start) && IsClockText(b, end) && s == a + ['-'] + b
      ensures ParseClockRange(s) == Some((start, end))
    {
      IsClockTextHolds(a, start, '-');
      FindIs(a, '-', b);
      assert s[..|a|] == a && s[|a| + 1..] == b;
      ParseClockMeans(a, start);
      ParseClockMeans(b, end);
    }
  }

  lemma TimesParse(text: string, start: Clock, end: Clock, spread: bool)
    requires IsTimes(text, start, end, spread)
    ensures ParseTimes(Dashed(text)) == Some((start, end)) && (spread <==> '~' in text)
  {
    hide ParseClock, ParseClockRange, IsClockText;
    var sep := if spread then '~' else '-';
    if text == [sep] && start == Clock(0, 0) && end == Clock(24, 0) {
      assert Dashed(text) == "-";
    } else if exists a, b :: IsClockText(a, start) && IsClockText(b, end) && text == a + [sep] + b {
      var a, b :| IsClockText(a, start) && IsClockText(b, end) && text == a + [sep] + b;
      IsClockTextHolds(a, start, '~');
      IsClockTextHolds(b, end, '~');
      DashedIs(a, b, sep);
      assert Dashed(text)[|a|] == '-';
      ParseRangeMeans(Dashed(text), start, end);
    } else {
      IsClockTextHolds(text, start, '~');
      IsClockTextHolds(text, start, '-');
      NotDashed(text);
      ParseClockMeans(text, start);
    }
  }

  lemma TimesParsed(text: string)
    requires ParseTimes(Dashed(text)).Some?
    ensures var (start, end) := ParseTimes(Dashed(text)).value; IsTimes(text, start, end, '~' in text)
  {
    hide ParseClock, IsClockText;
    var (start, end) := ParseTimes(Dashed(text)).value;
    var rest, sep := Dashed(text), if '~' in text then '~' else '-';
    if rest == "-" {
      assert text == [sep];
    } else if '-' in rest {
      ParseRangeMeans(rest, start, end);
      var a, b :| IsClockText(a, start) && IsClockText(b, end) && rest == a + ['-'] + b;
      IsClockTextHolds(a, start, '-');
      IsClockTextHolds(b, end, '-');
      OneDash(a, b, text);
    } else {
      NotDashed(text);
      ParseClockMeans(rest, start);
    }
  }

  lemma OneDash(a: string, b: string, text: string)
    requires '-' !in a && '-' !in b && Dashed(text) == a + ['-'] + b
    ensures text == a + [if '~' in text then '~' else '-'] + b
  {
    if '~' in text {
      var rest, t := Dashed(text), Find(text, '~');
      OnlyDash(a, b, t);
      assert text == rest[t := '~'];
    }
  }

  lemma OnlyDash(a: string, b: string, t: nat)
    requires '-' !in a && '-' !in b && t <= |a| + |b| && (a + ['-'] + b)[t] == '-'
    ensures t == |a|
  {
  }

  /** Which clock-span fragments parse, and to what. */
  lemma ParseClockSpanMeans(s: string, ts: ClockSpan)
    ensures ParseClockSpan(s) == Some(ts) <==>
            exists text :: IsCounted(s, ts.split, text) && IsTimes(text, ts.start, ts.end, ts.spread)
  {
    hide ParseCount, ParseTimes, Dashed, IsCounted, IsTimes;
    if ParseClockSpan(s) == Some(ts) {
      var text := ParseCount(s).value.1;
      ParseCountMeans(s, ts.split, text);
      TimesParsed(text);
    }
    forall text | IsCounted(s, ts.split, text) && IsTimes(text, ts.start, ts.end, ts.spread)
      ensures ParseClockSpan(s) == Some(ts)
    {
      ParseCountMeans(s, ts.split, text);
      TimesParse(text, ts.start, ts.end, ts.spread);
    }
  }

  /** A printed clock span parses to the span without what printing leaves out. */
  lemma ClockSpanRoundTrip(ts: ClockSpan)
    requires ts.Valid() && ts.split < UINT32_BOUND
    ensures ParseClockSpan(ClockSpanText(ts)) == Some(PlainSpan(ts))
  {
    hide ParseClockSpan, ClockText;
    var a, b, sep := ClockText(ts.start), ClockText(ts.end), if ts.spread then '~' else '-';
    ClockTextHolds(ts.start, '/');
    ClockTextHolds(ts.end, '/');
    ParseClockSpanMeans(ClockSpanText(ts), PlainSpan(ts));
    if ts.start == ts.end {
      assert IsCounted(a, 0, a) && IsTimes(a, ts.start, ts.end, false);
    } else {
      var text := a + [sep] + b;
      assert IsClockText(a, ts.start) && IsClockText(b, ts.end);
      assert IsTimes(text, ts.start, ts.end, ts.spread);
      ValueOfDigits(ts.split);
      assert IsCounted(ClockSpanText(ts), ts.split, text);
    }
  }

  lemma ClockSpanTextHolds(ts: ClockSpan)
    requires ts.Valid()
    ensures ':' in ClockSpanText(ts) && ',' !in ClockSpanText(ts)
  {
    hide ClockText;
    ClockTextHolds(ts.start, ':');
    ClockTextHolds(ts.start, ',');
    ClockTextHolds(ts.end, ',');
    ItoaPlain(ts.split, ',');
    var k :| 0 <= k < |ClockText(ts.start)| && ClockText(ts.start)[k] == ':';
    assert ClockSpanText(ts)[k] == ':';
  }

  /** The fragments of a well-formed schedule describe it, as far as they can, and hold no comma. */
  lemma FragmentsDescribe(s: Schedule)
    requires WellFormed(s)
    ensures Describes(Fragments(s), Plain(s))
    ensures AllFree(Fragments(s), ',') && forall i :: 0 <= i < |Fragments(s)| ==> Fragments(s)[i] != ""
  {
    hide ParseClockSpan, ParseWeekSpan, ClockSpanText, WeekSpanText;
    forall i | 0 <= i < |s.weekSpans|
      ensures var f := Fragments(s)[i];
              ':' !in f && ',' !in f && f != "" && ParseWeekSpan(f) == Some(s.weekSpans[i])
    {
      WeekSpanRoundTrip(s.weekSpans[i]);
    }
    forall i | 0 <= i < |s.clockSpans|
      ensures var f := Fragments(s)[|s.weekSpans| + i];
              ':' in f && ',' !in f && f != "" && ParseClockSpan(f) == Some(PlainSpan(s.clockSpans[i]))
    {
      ClockSpanRoundTrip(s.clockSpans[i]);
      ClockSpanTextHolds(s.clockSpans[i]);
    }
  }

  /** Joining parts that are not empty and hold no comma puts no two commas in a row. */
  lemma {:induction false} JoinHasNoPair(parts: seq<string>)
    requires parts != [] && AllFree(parts, ',') && forall i :: 0 <= i < |parts| ==> parts[i] != ""
    ensures var j := Join(parts, ',');
            && j != "" && j[0] != ',' && j[|j| - 1] != ','
            && forall i :: 0 <= i < |j| - 1 ==> !(j[i] == j[i + 1] == ',')
  {
    var j := Join(parts, ',');
    if |parts| > 1 {
      JoinHasNoPair(parts[1..]);
      var p, rest := parts[0], Join(parts[1..], ',');
      assert j == p + [','] + rest;
      forall i | 0 <= i < |j| - 1
        ensures !(j[i] == j[i + 1] == ',')
      {
        if i > |p| {
          assert j[i] == rest[i - |p| - 1] && j[i + 1] == rest[i - |p| - 1 + 1];
        }
      }
    }
  }

  /** Printing a well-formed schedule and parsing the text gives the schedule without what printing leaves out. */
  lemma PrintedDenotes(s: Schedule)
    requires WellFormed(s)
    ensures Denotes(Join(Fragments(s), ','), [Plain(s)])
  {
    hide Describes, Fragments, Plain;
    FragmentsDescribe(s);
    var text := Join(Fragments(s), ',');
    FragmentCount(s);
    JoinHasNoPair(Fragments(s));
    SplitOfFree(Fragments(s), ',');
    assert EventSets(text) == [text];
  }

  lemma FragmentCount(s: Schedule)
    requires WellFormed(s)
    ensures Fragments(s) != []
  {
  }

  /** The texts of several schedules, with two commas between any two. */
  function ListText(ss: seq<Schedule>): string {
    if ss == [] then ""
    else if |ss| == 1 then Join(Fragments(ss[0]), ',')
    else Join(Fragments(ss[0]), ',') + ",," + ListText(ss[1..])
  }

  lemma EventSetFirst(text: string, rest: string)
    requires text != "" && text[|text| - 1] != ','
    requires forall i :: 0 <= i < |text| - 1 ==> !(text[i] == text[i + 1] == ',')
    ensures EventSets(text + ",," + rest) == [text] + EventSets(rest)
  {
    var s := text + ",," + rest;
    var n := |text|;
    assert s[n] == s[n + 1] == ',';
    assert forall i :: 0 <= i < n ==> s[i] == text[i];
    assert FindPair(s) == n;
    assert s[..n] == text && s[n + 2..] == rest;
  }

  lemma DenotesMore(text: string, rest: string, s: Schedule, ss: seq<Schedule>, both: string)
    requires EventSets(text) == [text] && Denotes(text, [s]) && Denotes(rest, ss)
    requires EventSets(both) == [text] + EventSets(rest)
    ensures Denotes(both, [s] + ss)
  {
    hide Describes, EventSets;
    assert Describes(Split(EventSets(text)[0], ','), [s][0]);
  }

  /** Printing several well-formed schedules and parsing the text gives all of them, without what printing leaves
      out. */
  lemma {:induction false} ListDenotes(ss: seq<Schedule>)
    requires ss != [] && forall k :: 0 <= k < |ss| ==> WellFormed(ss[k])
    ensures Denotes(ListText(ss), seq(|ss|, k requires 0 <= k < |ss| => Plain(ss[k])))
  {
    hide Denotes, Fragments, Plain, WellFormed, Join;
    PrintedDenotes(ss[0]);
    var plain := seq(|ss|, k requires 0 <= k < |ss| => Plain(ss[k]));
    if |ss| > 1 {
      var text, rest := Join(Fragments(ss[0]), ','), ss[1..];
      FragmentsDescribe(ss[0]);
      FragmentCount(ss[0]);
      JoinHasNoPair(Fragments(ss[0]));
      assert EventSets(text) == [text];
      hide EventSets;
      EventSetFirst(text, ListText(rest));
      ListDenotes(rest);
      var plainRest := seq(|rest|, k requires 0 <= k < |rest| => Plain(rest[k]));
      DenotesMore(text, ListText(rest), Plain(ss[0]), plainRest, ListText(ss));
      assert plain == [Plain(ss[0])] + plainRest;
    } else {
      assert plain == [Plain(ss[0])];
    }
  }

  /** Printing a schedule and parsing the text gives it back, alone,
      exactly when it is well formed and its moments have neither spread nor count. */
  lemma RoundTrip(s: Schedule)
    ensures Denotes(Join(Fragments(s), ','), [s]) <==>
            WellFormed(s) && forall i :: 0 <= i < |s.clockSpans| && s.clockSpans[i].start == s.clockSpans[i].end ==>
                               s.clockSpans[i].split == 0 && !s.clockSpans[i].spread
  {
    hide Denotes, WellFormed, Fragments, Join;
    var text := Join(Fragments(s), ',');
    if Denotes(text, [s]) {
      ParsedIsWellFormed(text, [s], 0);
    }
    if WellFormed(s) {
      PrintedDenotes(s);
      if Denotes(text, [s]) {
        DenotesOne(text, [s], [Plain(s)]);
        assert [s][0] == [Plain(s)][0];
      }
      PlainIs(s);
    }
  }

  lemma PlainIs(s: Schedule)
    ensures Plain(s) == s <==> forall i :: 0 <= i < |s.clockSpans| && s.clockSpans[i].start == s.clockSpans[i].end ==>
                                 s.clockSpans[i].split == 0 && !s.clockSpans[i].spread
  {
  }

  // ---------- Printing does not change when a schedule is on ----------

  predicate SameTimes(a: seq<ClockSpan>, b: seq<ClockSpan>) {
    |a| == |b| && forall i :: 0 <= i < |a| ==> a[i].start == b[i].start && a[i].end == b[i].end
  }

  lemma {:induction false} PlainParts(spans: seq<ClockSpan>, plain: seq<ClockSpan>)
    requires |plain| == |spans| && forall i :: 0 <= i < |spans| ==> plain[i] == PlainSpan(spans[i])
    ensures SameTimes(AllParts(spans), AllParts(plain))
  {
    hide ClockSpan.Part, ClockSpan.Step;
    if spans != [] {
      var n := |spans| - 1;
      PlainParts(spans[..n], plain[..n]);
      assert SameTimes(spans[n].Parts(), plain[n].Parts());
    }
  }

  /** What comes back from printing and parsing is on at the same times, whatever printing leaves out. */
  lemma PlainIsOn(s: Schedule, cal: Calendar, t: int)
    requires s.Valid()
    ensures Plain(s).Valid() && (Plain(s).On(cal, t) <==> s.On(cal, t))
  {
    hide AllParts, ClockSpan.Parts, Matches;
    PlainParts(s.BaseTimes(), Plain(s).BaseTimes());
    var a, b := s.Times(), Plain(s).Times();
    forall i | 0 <= i < |a|
      ensures InSpan(a[i], t) <==> InSpan(b[i], t)
    {
      assert a[i].start == b[i].start && a[i].end == b[i].end;
    }
    assert forall d :: s.OnDay(cal, d) == Plain(s).OnDay(cal, d);
  }

  /** So a schedule that was parsed, printed and parsed again is on at the same times as the first one. */
  lemma ParsePrintParse(spec: string, scheds: seq<Schedule>, k: nat, again: seq<Schedule>, cal: Calendar, t: int)
    requires Denotes(spec, scheds) && k < |scheds| && Denotes(Join(Fragments(scheds[k]), ','), again)
    ensures |again| == 1 && scheds[k].Valid() && again[0].Valid()
    ensures again[0].On(cal, t) <==> scheds[k].On(cal, t)
  {
    hide Denotes, Fragments, Join, Plain;
    var s := scheds[k];
    ParsedIsWellFormed(spec, scheds, k);
    PrintedDenotes(s);
    DenotesOne(Join(Fragments(s), ','), again, [Plain(s)]);
    PlainIsOn(s, cal, t);
  }
}
