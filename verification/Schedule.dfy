/**
 * Opening hours: the evaluator of shared/src/schedule.ts and the segment expansion and overlap
 * check of shared/src/validator.ts.
 */
module Schedules {
  import opened Text
  import opened Topologies

  const DAY: nat := 24 * 60

  /** A local date, weekday (Monday is 1) and minute of the day, as a timezone database yields them. */
  datatype Moment = Moment(date: string, weekday: int, minute: nat)

  predicate ValidMoment(m: Moment) { 1 <= m.weekday <= 7 && m.minute < DAY }

  function NextDay(day: int): int { if day == 7 then 1 else day + 1 }

  function PreviousDay(day: int): int { if day == 1 then 7 else day - 1 }

  // ---------------------------------------------------------------- three readers of HH:MM

  predicate LooksLikeTime(s: string)
  {
    |s| == 5 && IsDigit(s[0]) && IsDigit(s[1]) && s[2] == ':' && IsDigit(s[3]) && IsDigit(s[4])
  }

  function TwoDigitNumber(a: char, b: char): nat
    requires IsDigit(a) && IsDigit(b)
  {
    DigitValue(a) * 10 + DigitValue(b)
  }

  /** The validator's test; it alone rejects malformed times. */
  predicate ValidTime(s: string)
  {
    LooksLikeTime(s) && TwoDigitNumber(s[0], s[1]) <= 23 && TwoDigitNumber(s[3], s[4]) <= 59
  }

  function Minutes(s: string): (m: nat)
    requires ValidTime(s)
    ensures m < DAY
  {
    TwoDigitNumber(s[0], s[1]) * 60 + TwoDigitNumber(s[3], s[4])
  }

  /** The evaluator and previousMinute split at the colon; the generator takes fixed slices. */
  lemma ReadersAgree(s: string)
    requires ValidTime(s)
    ensures Split(s, ":") == [s[..2], s[3..]]
    ensures Minutes(s) == DecimalValue(s[..2]) * 60 + DecimalValue(s[3..])
  {
    assert s == Join([s[..2], s[3..]], ":");
    SplitJoin([s[..2], s[3..]], ':');
    TwoDigitValue(s[..2]);
    TwoDigitValue(s[3..]);
  }

  /** `HH:MM` for a minute of the day; every reader gets the minute back. */
  function FormatTime(m: nat): (s: string)
    requires m < DAY
    ensures ValidTime(s) && Minutes(s) == m
  {
    var s := TwoDigits(m / 60) + ":" + TwoDigits(m % 60);
    TwoDigitValue(TwoDigits(m / 60));
    TwoDigitValue(TwoDigits(m % 60));
    s
  }

  /** The last minute a half-open window still includes; midnight wraps to 23:59. */
  function PreviousMinute(m: nat): (p: nat)
    requires m < DAY
    ensures p < DAY
  {
    if m == 0 then DAY - 1 else m - 1
  }

  /** The text `previousMinute` prints for the text of a window's end. */
  function PreviousMinuteText(end: string): string
    requires ValidTime(end)
  {
    FormatTime((Minutes(end) + DAY - 1) % DAY)
  }

  lemma PreviousMinuteWraps(m: nat)
    requires m < DAY
    ensures (m + DAY - 1) % DAY == PreviousMinute(m)
  {
  }

  lemma SixtySplits(h: nat, m: nat, i: nat, n: nat)
    requires h * 60 + m == i * 60 + n && m < 60 && n < 60
    ensures h == i && m == n
  {
  }

  lemma SameNumberSameDigits(a: char, b: char, c: char, d: char)
    requires IsDigit(a) && IsDigit(b) && IsDigit(c) && IsDigit(d) && TwoDigitNumber(a, b) == TwoDigitNumber(c, d)
    ensures a == c && b == d
  {
  }

  /** A time of day has one spelling. */
  lemma SameMinuteSameText(a: string, b: string)
    requires ValidTime(a) && ValidTime(b) && Minutes(a) == Minutes(b)
    ensures a == b
  {
    SixtySplits(TwoDigitNumber(a[0], a[1]), TwoDigitNumber(a[3], a[4]), TwoDigitNumber(b[0], b[1]),
        TwoDigitNumber(b[3], b[4]));
    SameNumberSameDigits(a[0], a[1], b[0], b[1]);
    SameNumberSameDigits(a[3], a[4], b[3], b[4]);
    assert a == [a[0], a[1], a[2], a[3], a[4]] && b == [b[0], b[1], b[2], b[3], b[4]];
  }

  const MIDNIGHT := "00:00"
  const LAST_MINUTE := "23:59"

  lemma NamedTimes()
    ensures ValidTime(MIDNIGHT) && Minutes(MIDNIGHT) == 0
    ensures ValidTime(LAST_MINUTE) && Minutes(LAST_MINUTE) == DAY - 1
  {
  }

  /** The printed end of a clause reads back as the minute before the window's end; midnight prints 23:59. */
  lemma PrintedEndReadsBack(end: string)
    requires ValidTime(end)
    ensures ValidTime(PreviousMinuteText(end)) && Minutes(PreviousMinuteText(end)) == PreviousMinute(Minutes(end))
    ensures if end == MIDNIGHT then PreviousMinuteText(end) == LAST_MINUTE
            else Minutes(PreviousMinuteText(end)) == Minutes(end) - 1
  {
    PreviousMinuteWraps(Minutes(end));
    NamedTimes();
    if end == MIDNIGHT {
      SameMinuteSameText(PreviousMinuteText(end), LAST_MINUTE);
    } else if Minutes(end) == 0 {
      SameMinuteSameText(end, MIDNIGHT);
    }
  }

  // ---------------------------------------------------------------- the evaluator

  ghost predicate ValidWindow(w: Window)
  {
    && ValidTime(w.start) && ValidTime(w.end) && Minutes(w.start) != Minutes(w.end)
    && forall d | d in w.weekdays :: 1 <= d <= 7
  }

  ghost predicate ValidWindows(windows: seq<Window>) { forall w | w in windows :: ValidWindow(w) }

  predicate OpenBetween(start: nat, end: nat, days: seq<int>, m: Moment)
  {
    if start < end then
      m.weekday in days && m.minute >= start && m.minute < end
    else
      || (m.weekday in days && m.minute >= start)
      || (PreviousDay(m.weekday) in days && m.minute < end)
  }

  predicate WindowOpen(w: Window, m: Moment)
    requires ValidTime(w.start) && ValidTime(w.end)
  {
    OpenBetween(Minutes(w.start), Minutes(w.end), w.weekdays, m)
  }

  predicate IsScheduleOpen(s: Node, m: Moment)
    requires s.Schedule? && forall w | w in s.windows :: ValidTime(w.start) && ValidTime(w.end)
  {
    m.date !in s.holidays && exists w | w in s.windows :: WindowOpen(w, m)
  }

  // ---------------------------------------------------------------- the validator's expansion

  datatype Segment = Segment(id: string, day: int, start: nat, end: nat)

  function DaySegments(w: Window, day: int): seq<Segment>
    requires ValidTime(w.start) && ValidTime(w.end)
  {
    var start, end := Minutes(w.start), Minutes(w.end);
    if start < end then [Segment(w.id, day, start, end)]
    else [Segment(w.id, day, start, DAY), Segment(w.id, NextDay(day), 0, end)]
  }

  function SegmentsOfDays(w: Window, days: seq<int>): (gs: seq<Segment>)
    requires ValidTime(w.start) && ValidTime(w.end)
    ensures forall g :: g in gs <==> exists d :: d in days && g in DaySegments(w, d)
  {
    if days == [] then []
    else
      var rest := SegmentsOfDays(w, days[1..]);
      assert forall d :: d in days <==> d == days[0] || d in days[1..];
      DaySegments(w, days[0]) + rest
  }

  function WindowSegments(w: Window): seq<Segment>
  {
    if !ValidTime(w.start) || !ValidTime(w.end) || Minutes(w.start) == Minutes(w.end) then []
    else SegmentsOfDays(w, w.weekdays)
  }

  predicate ValidWeekdays(days: seq<int>) { days != [] && forall d | d in days :: 1 <= d <= 7 }

  /** Only windows with valid weekdays are expanded. */
  function AllSegments(windows: seq<Window>): seq<Segment>
  {
    if windows == [] then []
    else (if ValidWeekdays(windows[0].weekdays) then WindowSegments(windows[0]) else [])
         + AllSegments(windows[1..])
  }

  predicate Holds(g: Segment, day: int, minute: nat) { g.day == day && g.start <= minute < g.end }

  ghost predicate Covers(gs: seq<Segment>, day: int, minute: nat)
  {
    exists g :: g in gs && Holds(g, day, minute)
  }

  lemma DayCovers(w: Window, d: int, day: int, minute: nat)
    requires ValidWindow(w) && 1 <= d <= 7 && 1 <= day <= 7 && minute < DAY
    ensures Covers(DaySegments(w, d), day, minute)
            <==> var start, end := Minutes(w.start), Minutes(w.end);
                 if start < end then d == day && start <= minute < end
                 else (d == day && start <= minute) || (d == PreviousDay(day) && minute < end)
  {
    var gs := DaySegments(w, d);
    assert gs[0] in gs;
    if |gs| == 2 {
      assert gs[1] in gs;
    }
  }

  /** The expansion of a valid window covers exactly the minutes at which the evaluator holds it open. */
  lemma SegmentsMatchEvaluator(w: Window, m: Moment)
    requires ValidWindow(w) && ValidMoment(m)
    ensures Covers(WindowSegments(w), m.weekday, m.minute) <==> WindowOpen(w, m)
  {
    if Covers(WindowSegments(w), m.weekday, m.minute) {
      CoveredIsOpen(w, m);
    }
    if WindowOpen(w, m) {
      OpenIsCovered(w, m);
    }
  }

  lemma CoveredIsOpen(w: Window, m: Moment)
    requires ValidWindow(w) && ValidMoment(m) && Covers(WindowSegments(w), m.weekday, m.minute)
    ensures WindowOpen(w, m)
  {
    var g :| g in WindowSegments(w) && Holds(g, m.weekday, m.minute);
    var d :| d in w.weekdays && g in DaySegments(w, d);
    assert Covers(DaySegments(w, d), m.weekday, m.minute);
    DayCovers(w, d, m.weekday, m.minute);
  }

  lemma OpenIsCovered(w: Window, m: Moment)
    requires ValidWindow(w) && ValidMoment(m) && WindowOpen(w, m)
    ensures Covers(WindowSegments(w), m.weekday, m.minute)
  {
    var start, end := Minutes(w.start), Minutes(w.end);
    var today := m.weekday in w.weekdays && start <= m.minute && (start < end ==> m.minute < end);
    var d := if today then m.weekday else PreviousDay(m.weekday);
    DayCovers(w, d, m.weekday, m.minute);
    CoveredBy(w, d, m);
  }

  lemma CoveredBy(w: Window, d: int, m: Moment)
    requires ValidWindow(w) && d in w.weekdays && Covers(DaySegments(w, d), m.weekday, m.minute)
    ensures Covers(WindowSegments(w), m.weekday, m.minute)
  {
    var g :| g in DaySegments(w, d) && Holds(g, m.weekday, m.minute);
    assert g in WindowSegments(w);
  }

  // ---------------------------------------------------------------- the overlap check

  predicate Overlap(a: Segment, b: Segment)
  {
    a.id != b.id && a.day == b.day && a.start < b.end && b.start < a.end
  }

  /** The nested loop of validateScheduleNode: it stops at the first overlapping pair. */
  method FindOverlap(segments: seq<Segment>) returns (found: bool)
    ensures found <==> exists i, j :: 0 <= i < j < |segments| && Overlap(segments[i], segments[j])
  {
    found := false;
    var left := 0;
    while left < |segments| && !found
      invariant 0 <= left <= |segments|
      invariant !found ==> forall i, j :: 0 <= i < left && i < j < |segments| ==> !Overlap(segments[i], segments[j])
      invariant found ==> exists i, j :: 0 <= i < j < |segments| && Overlap(segments[i], segments[j])
      decreases |segments| - left, !found
    {
      var right := left + 1;
      while right < |segments| && !found
        invariant left < right <= |segments|
        invariant !found ==> forall j :: left < j < right ==> !Overlap(segments[left], segments[j])
        invariant found ==> exists i, j :: 0 <= i < j < |segments| && Overlap(segments[i], segments[j])
        decreases |segments| - right, !found
      {
        if Overlap(segments[left], segments[right]) {
          found := true;
        } else {
          right := right + 1;
        }
      }
      left := left + 1;
    }
  }

  ghost predicate DoublyCovered(gs: seq<Segment>, day: int, minute: nat)
  {
    exists a, b :: a in gs && b in gs && a.id != b.id && Holds(a, day, minute) && Holds(b, day, minute)
  }

  ghost predicate SomeMinuteShared(gs: seq<Segment>)
  {
    exists day, minute :: DoublyCovered(gs, day, minute)
  }

  /** The pairwise interval test is exact, empty tails and the Sunday-to-Monday wrap included. */
  lemma OverlapIsExact(gs: seq<Segment>)
    requires forall g | g in gs :: g.start < g.end || g.start == 0
    ensures (exists i, j :: 0 <= i < j < |gs| && Overlap(gs[i], gs[j])) <==> SomeMinuteShared(gs)
  {
    if i, j :| 0 <= i < j < |gs| && Overlap(gs[i], gs[j]) {
      var a, b := gs[i], gs[j];
      var minute := if a.start < b.start then b.start else a.start;
      assert a in gs && b in gs && Holds(a, a.day, minute) && Holds(b, a.day, minute);
      assert DoublyCovered(gs, a.day, minute);
    }
    if SomeMinuteShared(gs) {
      var day, minute :| DoublyCovered(gs, day, minute);
      var a, b :| a in gs && b in gs && a.id != b.id && Holds(a, day, minute) && Holds(b, day, minute);
      var i :| 0 <= i < |gs| && gs[i] == a;
      var j :| 0 <= j < |gs| && gs[j] == b;
      assert Overlap(a, b) && Overlap(b, a);
    }
  }

  lemma {:induction false} AllSegmentsShape(windows: seq<Window>)
    ensures forall g | g in AllSegments(windows) :: g.start < g.end || g.start == 0
  {
    if windows != [] {
      AllSegmentsShape(windows[1..]);
    }
  }

  lemma {:induction false} SegmentOrigin(windows: seq<Window>, g: Segment) returns (w: Window)
    requires g in AllSegments(windows)
    ensures w in windows && ValidWeekdays(w.weekdays) && g in WindowSegments(w) && g.id == w.id
  {
    if g in AllSegments(windows[1..]) {
      w := SegmentOrigin(windows[1..], g);
    } else {
      w := windows[0];
    }
  }

  lemma {:induction false} SegmentKept(windows: seq<Window>, w: Window, g: Segment)
    requires w in windows && ValidWeekdays(w.weekdays) && g in WindowSegments(w)
    ensures g in AllSegments(windows)
  {
    if w != windows[0] {
      SegmentKept(windows[1..], w, g);
    }
  }

  ghost predicate BothOpen(windows: seq<Window>, a: Window, b: Window, m: Moment)
    requires ValidWindows(windows)
  {
    a in windows && b in windows && a.id != b.id && ValidMoment(m) && WindowOpen(a, m) && WindowOpen(b, m)
  }

  /** For valid windows the check fires exactly when two differently named windows are open at the same minute. */
  lemma OverlapMeansBothOpen(windows: seq<Window>)
    requires ValidWindows(windows)
    ensures SomeMinuteShared(AllSegments(windows)) <==> exists a, b, m :: BothOpen(windows, a, b, m)
  {
    var gs := AllSegments(windows);
    if SomeMinuteShared(gs) {
      var day, minute :| DoublyCovered(gs, day, minute);
      var g, h :| g in gs && h in gs && g.id != h.id && Holds(g, day, minute) && Holds(h, day, minute);
      var a, m := OpenWindowOf(windows, g, minute);
      var b, n := OpenWindowOf(windows, h, minute);
      assert BothOpen(windows, a, b, m);
    }
    if a, b, m :| BothOpen(windows, a, b, m) {
      var g := SegmentOf(windows, a, m);
      var h := SegmentOf(windows, b, m);
      assert DoublyCovered(gs, m.weekday, m.minute);
    }
  }

  lemma OpenWindowOf(windows: seq<Window>, g: Segment, minute: nat) returns (w: Window, m: Moment)
    requires ValidWindows(windows) && g in AllSegments(windows) && Holds(g, g.day, minute)
    ensures w in windows && w.id == g.id && m == Moment("", g.day, minute) && ValidMoment(m) && WindowOpen(w, m)
  {
    w := SegmentOrigin(windows, g);
    m := Moment("", g.day, minute);
    assert Covers(WindowSegments(w), g.day, minute);
    SegmentsMatchEvaluator(w, m);
  }

  lemma SegmentOf(windows: seq<Window>, w: Window, m: Moment) returns (g: Segment)
    requires ValidWindows(windows) && w in windows && ValidMoment(m) && WindowOpen(w, m)
    ensures g in AllSegments(windows) && g.id == w.id && Holds(g, m.weekday, m.minute)
  {
    SegmentsMatchEvaluator(w, m);
    g :| g in WindowSegments(w) && Holds(g, m.weekday, m.minute);
    SegmentKept(windows, w, g);
  }
}
