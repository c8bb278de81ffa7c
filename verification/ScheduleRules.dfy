/** validateScheduleNode (shared/src/validator.ts): the rules of one schedule node. */
module ScheduleRules {
  import opened Text
  import opened Topologies
  import opened Schedules
  import opened Issues

  /** What time-zone data, the date parser and the sound inventory accept. */
  datatype Environment = Environment(zones: set<string>, dates: set<string>, sounds: Option<set<string>>)

  /** `/^\d{4}-\d{2}-\d{2}$/` */
  predicate LooksLikeDate(s: string)
  {
    |s| == 10 && s[4] == '-' && s[7] == '-' && AllDigits(s[..4]) && AllDigits(s[5..7]) && AllDigits(s[8..])
  }

  predicate ValidDate(env: Environment, s: string) { LooksLikeDate(s) && s in env.dates }

  predicate ProperTimes(w: Window)
  {
    ValidTime(w.start) && ValidTime(w.end) && Minutes(w.start) != Minutes(w.end)
  }

  /** Two different times of day, and at least one weekday, Monday to Sunday; it may run past midnight. */
  ghost predicate WindowOk(w: Window)
  {
    && ValidTime(w.start) && ValidTime(w.end) && Minutes(w.start) != Minutes(w.end)
    && w.weekdays != [] && forall d | d in w.weekdays :: d in {1, 2, 3, 4, 5, 6, 7}
  }

  /** Ten characters, digits but for two hyphens (45), that name a date. */
  ghost predicate DateOk(env: Environment, s: string)
  {
    && |s| == 10 && s in env.dates
    && forall i | 0 <= i < 10 :: if i == 4 || i == 7 then s[i] as int == 45 else 48 <= s[i] as int <= 57
  }

  ghost predicate WindowsOk(windows: seq<Window>)
  {
    && (forall i | 0 <= i < |windows| :: WindowOk(windows[i]))
    && (forall i, j | 0 <= i < j < |windows| :: windows[i].id != windows[j].id)
  }

  ghost predicate HolidaysOk(env: Environment, holidays: seq<string>)
  {
    && (forall i | 0 <= i < |holidays| :: DateOk(env, holidays[i]))
    && (forall i, j | 0 <= i < j < |holidays| :: holidays[i] != holidays[j])
  }

  ghost predicate ScheduleOk(env: Environment, n: Node)
    requires n.Schedule?
  {
    && n.timezone != "" && n.timezone in env.zones
    && n.windows != [] && WindowsOk(n.windows) && !SomeMinuteShared(AllSegments(n.windows))
    && HolidaysOk(env, n.holidays)
  }

  function UsableSegments(w: Window): seq<Segment> { if ValidWeekdays(w.weekdays) then WindowSegments(w) else [] }

  lemma AllSegmentsCons(w: Window, rest: seq<Window>)
    ensures AllSegments([w] + rest) == UsableSegments(w) + AllSegments(rest)
  {
    assert ([w] + rest)[0] == w && ([w] + rest)[1..] == rest;
  }

  lemma {:induction false} AllSegmentsSnoc(windows: seq<Window>, w: Window)
    ensures AllSegments(windows + [w]) == AllSegments(windows) + UsableSegments(w)
  {
    if windows == [] {
      assert windows + [w] == [w] + [];
      AllSegmentsCons(w, []);
    } else {
      var first, rest := windows[0], windows[1..];
      assert windows == [first] + rest && windows + [w] == [first] + (rest + [w]);
      AllSegmentsSnoc(rest, w);
      AllSegmentsCons(first, rest);
      AllSegmentsCons(first, rest + [w]);
    }
  }

  /** None of the findings that are told apart by their code. */
  ghost predicate Unnamed(issues: seq<Issue>)
  {
    !Reports(issues, OVERLAP) && !Reports(issues, COLLISION) && !Reports(issues, NO_PASSWORD)
  }

  /** What the loop over the windows has found after k of them. */
  ghost predicate WindowsSeen(windows: seq<Window>, k: nat, issues: seq<Issue>, segments: seq<Segment>,
                              ids: set<string>)
    requires k <= |windows|
  {
    && ids == WindowIds(windows[..k]) && segments == AllSegments(windows[..k])
    && (HasErrors(issues) <==> !WindowsOk(windows[..k])) && Unnamed(issues)
  }

  lemma NoWindowsSeen(windows: seq<Window>)
    ensures WindowsSeen(windows, 0, [], [], {})
  {
    assert windows[..0] == [];
  }

  lemma WindowsSeenNext(n: Node, k: nat, issues: seq<Issue>, segments: seq<Segment>, ids: set<string>)
    requires n.Schedule? && k < |n.windows| && WindowsSeen(n.windows, k, issues, segments, ids)
    ensures var w := n.windows[k];
            WindowsSeen(n.windows, k + 1, Plus(issues, WindowIssues(n, w, w.id in ids)), segments + UsableSegments(w),
                        ids + {w.id})
  {
    var before, w := n.windows[..k], n.windows[k];
    assert n.windows[..k + 1] == before + [w];
    WindowsOkSnoc(before, w);
    AllSegmentsSnoc(before, w);
  }

  lemma AllWindowsSeen(windows: seq<Window>, issues: seq<Issue>, segments: seq<Segment>, ids: set<string>)
    requires WindowsSeen(windows, |windows|, issues, segments, ids)
    ensures (HasErrors(issues) <==> !WindowsOk(windows)) && segments == AllSegments(windows)
  {
    assert windows[..|windows|] == windows;
  }

  method CheckWindows(n: Node) returns (issues: seq<Issue>, segments: seq<Segment>)
    requires n.Schedule?
    ensures HasErrors(issues) <==> !WindowsOk(n.windows)
    ensures segments == AllSegments(n.windows)
    ensures !Reports(issues, OVERLAP) && !Reports(issues, COLLISION) && !Reports(issues, NO_PASSWORD)
  {
    issues, segments := [], [];
    var ids: set<string> := {};
    var k := 0;
    NoWindowsSeen(n.windows);
    while k < |n.windows|
      invariant 0 <= k <= |n.windows| && WindowsSeen(n.windows, k, issues, segments, ids)
    {
      var w := n.windows[k];
      WindowsSeenNext(n, k, issues, segments, ids);
      issues := Plus(issues, WindowIssues(n, w, w.id in ids));
      ids := ids + {w.id};
      assert segments + [] == segments;
      if ValidWeekdays(w.weekdays) {
        segments := segments + WindowSegments(w);
      }
      k := k + 1;
    }
    AllWindowsSeen(n.windows, issues, segments, ids);
  }

  function WindowIssues(n: Node, w: Window, repeated: bool): (r: seq<Issue>)
    ensures HasErrors(r) <==> repeated || !WindowOk(w)
    ensures !Reports(r, OVERLAP) && !Reports(r, COLLISION) && !Reports(r, NO_PASSWORD)
  {
    Plus(Err(repeated, "schedule-invalid-window-id", n.id),
         Plus(Err(!ProperTimes(w), "schedule-invalid-time-window", n.id),
              Err(!ValidWeekdays(w.weekdays), "schedule-invalid-weekdays", n.id)))
  }

  ghost function WindowIds(windows: seq<Window>): set<string> { set w | w in windows :: w.id }

  lemma WindowsOkSnoc(windows: seq<Window>, w: Window)
    ensures WindowsOk(windows + [w])
            <==> WindowsOk(windows) && WindowOk(w) && w.id !in WindowIds(windows)
    ensures WindowIds(windows + [w]) == WindowIds(windows) + {w.id}
  {
    var all := windows + [w];
    if WindowsOk(all) {
      assert all[|windows|] == w;
      forall i | 0 <= i < |windows|
        ensures windows[i] == all[i] && windows[i].id != w.id
      {
      }
    }
    assert forall v :: v in all <==> v in windows || v == w;
  }

  method CheckHolidays(env: Environment, n: Node) returns (issues: seq<Issue>)
    requires n.Schedule?
    ensures HasErrors(issues) <==> !HolidaysOk(env, n.holidays)
    ensures !Reports(issues, OVERLAP) && !Reports(issues, COLLISION) && !Reports(issues, NO_PASSWORD)
  {
    issues := [];
    var dates: set<string> := {};
    var k := 0;
    while k < |n.holidays|
      invariant 0 <= k <= |n.holidays|
      invariant dates == set d | d in n.holidays[..k]
      invariant HasErrors(issues) <==> !HolidaysOk(env, n.holidays[..k])
      invariant !Reports(issues, OVERLAP) && !Reports(issues, COLLISION) && !Reports(issues, NO_PASSWORD)
    {
      var d := n.holidays[k];
      ghost var before := n.holidays[..k];
      assert n.holidays[..k + 1] == before + [d];
      HolidaysOkSnoc(env, before, d);
      DateTestIsRight(env, d);
      if !ValidDate(env, d) {
        issues := Plus(issues, Err(true, "schedule-invalid-holiday", n.id));
      } else if d in dates {
        issues := Plus(issues, Err(true, "schedule-duplicate-holiday", n.id));
      }
      dates := dates + {d};
      k := k + 1;
    }
    assert n.holidays[..k] == n.holidays;
  }

  lemma DateTestIsRight(env: Environment, s: string)
    ensures ValidDate(env, s) <==> DateOk(env, s)
  {
    if |s| == 10 {
      assert forall i | 0 <= i < 4 :: s[..4][i] == s[i];
      assert forall i | 0 <= i < 2 :: s[5..7][i] == s[5 + i] && s[8..][i] == s[8 + i];
      if LooksLikeDate(s) {
        assert IsDigit(s[..4][0]) && IsDigit(s[..4][1]) && IsDigit(s[..4][2]) && IsDigit(s[..4][3]);
        assert IsDigit(s[5..7][0]) && IsDigit(s[5..7][1]) && IsDigit(s[8..][0]) && IsDigit(s[8..][1]);
      }
    }
  }

  lemma HolidaysOkSnoc(env: Environment, holidays: seq<string>, d: string)
    ensures HolidaysOk(env, holidays + [d]) <==> HolidaysOk(env, holidays) && DateOk(env, d) && d !in holidays
  {
    var all := holidays + [d];
    if HolidaysOk(env, all) {
      assert all[|holidays|] == d;
      forall i | 0 <= i < |holidays|
        ensures holidays[i] == all[i] && holidays[i] != d
      {
      }
    }
  }

  /**
   * A schedule is accepted exactly when it obeys its rules, and the overlap is reported exactly when
   * two differently named windows share a minute of some weekday.
   */
  method ValidateScheduleNode(env: Environment, n: Node) returns (issues: seq<Issue>)
    requires n.Schedule?
    ensures HasErrors(issues) <==> !ScheduleOk(env, n)
    ensures Reports(issues, OVERLAP) <==> SomeMinuteShared(AllSegments(n.windows))
    ensures !Reports(issues, COLLISION) && !Reports(issues, NO_PASSWORD)
  {
    issues := Plus(Err(n.timezone == "" || n.timezone !in env.zones, "schedule-invalid-timezone", n.id),
                   Err(n.windows == [], "schedule-without-windows", n.id));
    var windowIssues, segments := CheckWindows(n);
    issues := Plus(issues, windowIssues);
    var found := FindOverlap(segments);
    AllSegmentsShape(n.windows);
    OverlapIsExact(segments);
    issues := Plus(issues, Err(found, OVERLAP, n.id));
    var holidayIssues := CheckHolidays(env, n);
    issues := Plus(issues, holidayIssues);
  }
}
