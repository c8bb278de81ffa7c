/** The generated time rules against the evaluator of shared/src/schedule.ts. */
module ScheduleTranslation {
  import opened Text
  import opened Topologies
  import opened Schedules
  import opened Dialplans
  import opened Generator

  /** First match over the conditional jumps from step k on: where the call goes. */
  function Decide(steps: seq<Step>, k: nat, clock: Clock): Option<Target>
    decreases |steps| - k
  {
    if k >= |steps| then None
    else match steps[k].app
         case Goto(t) => Some(t)
         case GotoIfDate(timezone, date, t) =>
           if clock(timezone).date == date then Some(t) else Decide(steps, k + 1, clock)
         case GotoIfTime(from, until, weekdays, timezone, t) =>
           if TimeMatches(from, until, weekdays, clock(timezone)) then Some(t) else Decide(steps, k + 1, clock)
         case _ => None
  }

  lemma {:induction false} DecideShift(a: seq<Step>, b: seq<Step>, k: nat, clock: Clock)
    requires k >= |a|
    ensures Decide(a + b, k, clock) == Decide(b, k - |a|, clock)
    decreases |a| + |b| - k
  {
    if k < |a| + |b| {
      DecideShift(a, b, k + 1, clock);
    }
  }

  lemma DecideCons(s: Step, rest: seq<Step>, clock: Clock)
    ensures Decide([s] + rest, 1, clock) == Decide(rest, 0, clock)
  {
    DecideShift([s], rest, 1, clock);
  }

  // ---------------------------------------------------------------- one window

  lemma DaysWrap(day: int)
    requires 1 <= day <= 7
    ensures PreviousDay(NextDay(day)) == day && NextDay(PreviousDay(day)) == day && 1 <= NextDay(day) <= 7
  {
  }

  lemma {:induction false} FollowingDay(days: seq<int>, day: int)
    requires 1 <= day <= 7 && forall d | d in days :: 1 <= d <= 7
    ensures day in FollowingDays(days) <==> PreviousDay(day) in days
  {
    if days != [] {
      assert forall d :: d in days <==> d == days[0] || d in days[1..];
      assert days[0] in days;
      DaysWrap(day);
      DaysWrap(days[0]);
      FollowingDay(days[1..], day);
    }
  }

  /** The window is overnight and ends at midnight: its tail on the following day is empty. */
  predicate EndsAtMidnight(w: Window)
    requires ValidTime(w.start) && ValidTime(w.end)
  {
    Minutes(w.start) > 0 && Minutes(w.end) == 0
  }

  predicate Spills(w: Window, m: Moment)
    requires ValidTime(w.start) && ValidTime(w.end)
  {
    EndsAtMidnight(w) && PreviousDay(m.weekday) in w.weekdays
  }

  predicate ClauseMatches(s: Step, m: Moment)
  {
    s.app.GotoIfTime? && TimeMatches(s.app.from, s.app.until, s.app.weekdays, m)
  }

  predicate SomeClauseMatches(steps: seq<Step>, m: Moment) { exists s | s in steps :: ClauseMatches(s, m) }

  /** The clauses of a window hold when the evaluator holds it open, and all day after a midnight end. */
  lemma WindowClauses(w: Window, timezone: string, open: Target, m: Moment)
    requires ValidWindow(w) && ValidMoment(m)
    ensures SomeClauseMatches(WindowStepsOf(w, timezone, open), m) <==> WindowOpen(w, m) || Spills(w, m)
  {
    var steps, start, end := WindowStepsOf(w, timezone, open), Minutes(w.start), Minutes(w.end);
    if start < end {
      OneStep(steps[0], m);
      assert ClauseMatches(steps[0], m) <==> m.weekday in w.weekdays && start <= m.minute < end;
    } else {
      TwoSteps(steps[0], steps[1], m);
      FollowingDay(w.weekdays, m.weekday);
      assert ClauseMatches(steps[0], m) <==> m.weekday in w.weekdays && start <= m.minute;
      assert ClauseMatches(steps[1], m) <==> PreviousDay(m.weekday) in w.weekdays && m.minute <= PreviousMinute(end);
    }
  }

  lemma OneStep(s: Step, m: Moment)
    ensures SomeClauseMatches([s], m) <==> ClauseMatches(s, m)
  {
    assert s in [s];
  }

  lemma TwoSteps(s: Step, r: Step, m: Moment)
    ensures SomeClauseMatches([s, r], m) <==> ClauseMatches(s, m) || ClauseMatches(r, m)
  {
    assert s in [s, r] && r in [s, r];
  }

  // ---------------------------------------------------------------- a whole schedule

  predicate Spill(n: Node, m: Moment)
    requires n.Schedule? && forall w | w in n.windows :: ValidTime(w.start) && ValidTime(w.end)
  {
    exists w | w in n.windows :: Spills(w, m)
  }

  /** What the generated clauses decide. */
  predicate CompiledOpen(n: Node, m: Moment)
    requires n.Schedule? && forall w | w in n.windows :: ValidTime(w.start) && ValidTime(w.end)
  {
    m.date !in n.holidays && ((exists w | w in n.windows :: WindowOpen(w, m)) || Spill(n, m))
  }

  ghost predicate SomeWindowOpens(windows: seq<Window>, m: Moment)
    requires forall w | w in windows :: ValidTime(w.start) && ValidTime(w.end)
  {
    exists w :: w in windows && (WindowOpen(w, m) || Spills(w, m))
  }

  lemma SomeWindowCons(w: Window, rest: seq<Window>, m: Moment)
    requires forall v | v in [w] + rest :: ValidTime(v.start) && ValidTime(v.end)
    ensures SomeWindowOpens([w] + rest, m) <==> WindowOpen(w, m) || Spills(w, m) || SomeWindowOpens(rest, m)
  {
    assert forall v :: v in [w] + rest <==> v == w || v in rest;
  }

  lemma {:induction false} DecideWindows(windows: seq<Window>, timezone: string, open: Target, closed: Target,
                                         clock: Clock)
    requires ValidWindows(windows)
    ensures Decide(WindowSteps(windows, timezone, open) + [Line(Goto(closed))], 0, clock)
            == Some(if SomeWindowOpens(windows, clock(timezone)) then open else closed)
  {
    var m: Moment := clock(timezone);
    var last := [Line(Goto(closed))];
    if windows == [] {
      assert WindowSteps(windows, timezone, open) + last == last;
    } else {
      var w, first, rest :=
          windows[0], WindowStepsOf(windows[0], timezone, open), WindowSteps(windows[1..], timezone, open);
      DecideWindows(windows[1..], timezone, open, closed, clock);
      WindowClauses(w, timezone, open, m);
      assert windows == [w] + windows[1..];
      SomeWindowCons(w, windows[1..], m);
      FirstClauses(first, rest + last, timezone, open, clock);
      assert WindowSteps(windows, timezone, open) + last == first + (rest + last);
    }
  }

  /** Clauses that all lead to the same target: taken if one matches, otherwise the rest decides. */
  lemma {:induction false} FirstClauses(first: seq<Step>, rest: seq<Step>, timezone: string, open: Target, clock: Clock)
    requires forall s | s in first :: s.app.GotoIfTime? && s.app.timezone == timezone && s.app.target == open
    ensures Decide(first + rest, 0, clock)
            == if SomeClauseMatches(first, clock(timezone)) then Some(open) else Decide(rest, 0, clock)
  {
    if first == [] {
      assert first + rest == rest;
    } else {
      var s, more := first[0], first[1..];
      assert first + rest == [s] + (more + rest);
      assert s in first && forall x :: x in first <==> x == s || x in more;
      FirstClauses(more, rest, timezone, open, clock);
      DecideCons(s, more + rest, clock);
    }
  }

  lemma {:induction false} DecideHolidays(holidays: seq<string>, timezone: string, closed: Target, rest: seq<Step>,
                                          clock: Clock)
    ensures Decide(HolidaySteps(holidays, timezone, closed) + rest, 0, clock)
            == if clock(timezone).date in holidays then Some(closed) else Decide(rest, 0, clock)
  {
    var steps := HolidaySteps(holidays, timezone, closed);
    if holidays == [] {
      assert steps + rest == rest;
    } else {
      var more := HolidaySteps(holidays[1..], timezone, closed);
      assert steps + rest == [steps[0]] + (more + rest);
      DecideHolidays(holidays[1..], timezone, closed, rest, clock);
      DecideCons(steps[0], more + rest, clock);
    }
  }

  /** First match over a schedule's generated steps: closed on holidays, then by window. */
  lemma DecideSchedule(n: Node, open: Target, closed: Target, clock: Clock)
    requires n.Schedule? && ValidWindows(n.windows)
    ensures Decide(ScheduleBody(n, open, closed), 0, clock)
            == Some(if CompiledOpen(n, clock(n.timezone)) then open else closed)
  {
    var holidays := HolidaySteps(n.holidays, n.timezone, closed);
    var windows := WindowSteps(n.windows, n.timezone, open);
    var last := [Line(Goto(closed))];
    assert ScheduleBody(n, open, closed) == holidays + (windows + last);
    DecideHolidays(n.holidays, n.timezone, closed, windows + last, clock);
    DecideWindows(n.windows, n.timezone, open, closed, clock);
  }

  // ---------------------------------------------------------------- where the two differ

  /** No overnight window of the schedule ends at midnight. */
  predicate NoMidnightEnd(n: Node)
    requires n.Schedule? && forall w | w in n.windows :: ValidTime(w.start) && ValidTime(w.end)
  {
    forall w | w in n.windows :: !EndsAtMidnight(w)
  }

  /**
   * The generated rules reach the open target exactly when the evaluator says open, except on the days
   * following an overnight window that ends at midnight, at times no holiday or other window decides.
   */
  lemma TranslationDiffersExactly(n: Node, open: Target, closed: Target, clock: Clock)
    requires n.Schedule? && ValidWindows(n.windows) && open != closed
    ensures var m := clock(n.timezone);
            (Decide(ScheduleBody(n, open, closed), 0, clock) == Some(open) <==> IsScheduleOpen(n, m))
            <==> !(Spill(n, m) && m.date !in n.holidays && !IsScheduleOpen(n, m))
  {
    DecideSchedule(n, open, closed, clock);
  }

  /** Without midnight ends the generated rules and the evaluator agree at every moment. */
  lemma TranslationPreservesMeaning(n: Node, open: Target, closed: Target, clock: Clock)
    requires n.Schedule? && ValidWindows(n.windows) && NoMidnightEnd(n)
    ensures Decide(ScheduleBody(n, open, closed), 0, clock)
            == Some(if IsScheduleOpen(n, clock(n.timezone)) then open else closed)
  {
    DecideSchedule(n, open, closed, clock);
  }

  ghost predicate AgreesAt(n: Node, m: LocalMoment)
    requires n.Schedule? && ValidWindows(n.windows)
  {
    CompiledOpen(n, m) <==> IsScheduleOpen(n, m)
  }

  /** The clauses and the evaluator agree at every moment that can be. */
  ghost predicate AgreesAlways(n: Node, occurs: LocalMoment -> bool)
    requires n.Schedule? && ValidWindows(n.windows)
  {
    forall m: LocalMoment | occurs(m) :: AgreesAt(n, m)
  }

  type Weekday = d: int | 1 <= d <= 7 witness 1

  /** The minutes of these dates, each on its own weekday. */
  function OnCalendar(dates: set<string>, weekday: string -> Weekday): LocalMoment -> bool
  {
    (m: LocalMoment) => m.date in dates && m.weekday == weekday(m.date)
  }

  /** Every minute of `day` lies in some window. */
  ghost predicate OpenAllDay(n: Node, day: int)
    requires n.Schedule? && ValidWindows(n.windows)
  {
    forall minute: nat | minute < DAY :: exists w :: w in n.windows && WindowOpen(w, Moment("", day, minute))
  }

  /** Some overnight window that ends at midnight starts on the day before. */
  ghost predicate FollowsMidnightEnd(n: Node, day: int)
    requires n.Schedule? && ValidWindows(n.windows)
  {
    exists w :: w in n.windows && EndsAtMidnight(w) && PreviousDay(day) in w.weekdays
  }

  lemma OpenIgnoresDate(w: Window, a: Moment, b: Moment)
    requires ValidTime(w.start) && ValidTime(w.end) && a.weekday == b.weekday && a.minute == b.minute
    ensures WindowOpen(w, a) <==> WindowOpen(w, b)
  {
  }

  /** The only disagreement: after a midnight end, at a moment no window covers, on no holiday. */
  lemma AgreesAtIff(n: Node, m: LocalMoment)
    requires n.Schedule? && ValidWindows(n.windows)
    ensures AgreesAt(n, m) <==>
              || m.date in n.holidays || !FollowsMidnightEnd(n, m.weekday)
              || exists w :: w in n.windows && WindowOpen(w, Moment("", m.weekday, m.minute))
  {
    forall w | w in n.windows ensures WindowOpen(w, m) <==> WindowOpen(w, Moment("", m.weekday, m.minute)) {
      OpenIgnoresDate(w, m, Moment("", m.weekday, m.minute));
    }
    assert Spill(n, m) <==> FollowsMidnightEnd(n, m.weekday);
  }

  /**
   * Exactly which schedules are translated faithfully on a calendar: those whose windows cover every
   * working date that follows an overnight window with its end at midnight.
   */
  lemma AgreesExactlyWhen(n: Node, dates: set<string>, weekday: string -> Weekday)
    requires n.Schedule? && ValidWindows(n.windows)
    ensures AgreesAlways(n, OnCalendar(dates, weekday)) <==>
              forall date | date in dates && date !in n.holidays && FollowsMidnightEnd(n, weekday(date)) ::
                OpenAllDay(n, weekday(date))
  {
    var occurs := OnCalendar(dates, weekday);
    if AgreesAlways(n, occurs) {
      forall date, minute: nat
        | date in dates && date !in n.holidays && FollowsMidnightEnd(n, weekday(date)) && minute < DAY
        ensures exists w :: w in n.windows && WindowOpen(w, Moment("", weekday(date), minute))
      {
        var m: LocalMoment := Moment(date, weekday(date), minute);
        assert occurs(m);
        AgreesAtIff(n, m);
      }
    } else {
      var m: LocalMoment :| occurs(m) && !AgreesAt(n, m);
      AgreesAtIff(n, m);
    }
  }

  /** A concrete schedule the generator opens too long: Monday 22:00 to 00:00 stays open all Tuesday. */
  lemma MidnightEndStaysOpen() returns (n: Node, m: LocalMoment)
    ensures n.Schedule? && ValidWindows(n.windows)
    ensures !IsScheduleOpen(n, m) && CompiledOpen(n, m)
  {
    var w := Window("late", [1], "22:00", "00:00");
    n := Schedule("hours", "Europe/Berlin", [w], []);
    m := Moment("2026-01-13", 2, 12 * 60);
    assert Minutes(w.start) == 22 * 60 && Minutes(w.end) == 0;
    assert 1 in w.weekdays && Spills(w, m) && w in n.windows;
  }
}
