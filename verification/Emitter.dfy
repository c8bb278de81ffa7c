/** The loops that push dialplan lines (backend/src/asterisk/configGenerator.ts), against the functions of Generator. */
module Emitter {
  import opened Text
  import opened Topologies
  import opened Schedules
  import opened Dialplans
  import opened NodeRules
  import opened Generator

  lemma Regroup<T>(a: seq<T>, b: seq<T>, c: seq<T>)
    ensures a + (b + c) == a + b + c
  {
  }

  method GenerateIvrContext(t: Topology, ivr: Node) returns (lines: seq<Entry>)
    requires ivr.Ivr?
    ensures lines == IvrEntries(t, ivr)
  {
    var context, edges := IvrContext(ivr.id), Outgoing(t, ivr.id);
    var start := [Entry(context, "s", StartSteps(ivr))];
    lines := start;
    var k := 0;
    while k < |edges|
      invariant 0 <= k <= |edges|
      invariant lines + KeyEntries(context, edges[k..]) == start + KeyEntries(context, edges)
    {
      var rest := edges[k..];
      assert rest[0] == edges[k] && rest[1..] == edges[k + 1..];
      match edges[k].condition {
        case Some(Digit(value)) =>
          lines := lines + [Entry(context, value, [Line(Goto(ToNode(edges[k].target)))])];
        case _ =>
      }
      k := k + 1;
    }
    lines := lines + [Entry(context, "t", TimeoutSteps(edges)), Entry(context, "i", InvalidSteps(ivr, edges)),
                      Entry(context, "giveup", [Line(Hangup)])];
  }

  method ScheduleDialplan(t: Topology, n: Node) returns (lines: seq<Step>)
    requires n.Schedule? && ValidWindows(n.windows)
    ensures lines == ScheduleSteps(t, n)
  {
    var edges := Outgoing(t, n.id);
    var openEdge, closedEdge := FirstWith(edges, Open), FirstWith(edges, Closed);
    lines := [Line(NoOp)];
    if openEdge.None? || closedEdge.None? {
      lines := lines + [Line(Hangup)];
      return;
    }
    var open, closed := ToNode(openEdge.value.target), ToNode(closedEdge.value.target);
    lines := PushHolidays(n, closed, lines);
    lines := PushWindows(n, open, lines);
    lines := lines + [Line(Goto(closed))];
    InOneBody(HolidaySteps(n.holidays, n.timezone, closed), WindowSteps(n.windows, n.timezone, open), closed);
  }

  lemma InOneBody(holidays: seq<Step>, windows: seq<Step>, closed: Target)
    ensures [Line(NoOp)] + holidays + windows + [Line(Goto(closed))]
         == [Line(NoOp)] + (holidays + windows + [Line(Goto(closed))])
  {
  }

  method PushHolidays(n: Node, closed: Target, before: seq<Step>) returns (lines: seq<Step>)
    requires n.Schedule?
    ensures lines == before + HolidaySteps(n.holidays, n.timezone, closed)
  {
    lines := before;
    var k := 0;
    while k < |n.holidays|
      invariant 0 <= k <= |n.holidays|
      invariant lines == before + HolidaySteps(n.holidays, n.timezone, closed)[..k]
    {
      lines := lines + [Line(GotoIfDate(n.timezone, n.holidays[k], closed))];
      k := k + 1;
    }
  }

  method PushWindows(n: Node, open: Target, before: seq<Step>) returns (lines: seq<Step>)
    requires n.Schedule? && ValidWindows(n.windows)
    ensures lines == before + WindowSteps(n.windows, n.timezone, open)
  {
    lines := before;
    var k := 0;
    while k < |n.windows|
      invariant 0 <= k <= |n.windows|
      invariant lines + WindowSteps(n.windows[k..], n.timezone, open)
                == before + WindowSteps(n.windows, n.timezone, open)
    {
      WindowStepsSplit(n.windows, k, n.timezone, open);
      var w := n.windows[k];
      var clauses := WindowClausesFor(w, n.timezone, open);
      Regroup(lines, clauses, WindowSteps(n.windows[k + 1..], n.timezone, open));
      lines := lines + clauses;
      k := k + 1;
    }
  }

  /** One clause for a window within a day, two for one that crosses midnight. */
  method WindowClausesFor(w: Window, timezone: string, open: Target) returns (lines: seq<Step>)
    requires ValidWindow(w)
    ensures lines == WindowStepsOf(w, timezone, open)
  {
    var startMinutes, endMinutes := Minutes(w.start), Minutes(w.end);
    if startMinutes < endMinutes {
      lines := [Line(GotoIfTime(startMinutes, PreviousMinute(endMinutes), w.weekdays, timezone, open))];
    } else {
      lines := [Line(GotoIfTime(startMinutes, DAY - 1, w.weekdays, timezone, open))];
      lines := lines + [Line(GotoIfTime(0, PreviousMinute(endMinutes), FollowingDays(w.weekdays), timezone, open))];
    }
  }

  lemma WindowStepsSplit(windows: seq<Window>, k: nat, timezone: string, open: Target)
    requires ValidWindows(windows) && k < |windows|
    ensures ValidWindow(windows[k])
    ensures WindowSteps(windows[k..], timezone, open)
         == WindowStepsOf(windows[k], timezone, open) + WindowSteps(windows[k + 1..], timezone, open)
  {
    assert windows[k] in windows;
    assert windows[k..][0] == windows[k] && windows[k..][1..] == windows[k + 1..];
  }

  method GenerateCallflowEntry(t: Topology, n: Node) returns (lines: seq<Entry>)
    requires Translatable(n)
    ensures lines == CallflowEntry(t, n)
  {
    var fallback := FallbackEdge(Outgoing(t, n.id));
    var steps: seq<Step> := [Line(NoOp)];
    match n {
      case Ivr(id, _, _, _) =>
        steps := steps + [Line(Goto(Target(IvrContext(id), "s", Priority(1))))];
        assert steps == [Line(NoOp), Line(Goto(Target(IvrContext(id), "s", Priority(1))))];
      case Extension(_, _, _, _, _, _) =>
        steps := steps + [Line(Dial([Device(n)], 20.0))];
        assert steps == [Line(NoOp), Line(Dial([Device(n)], 20.0))];
        steps := steps + Finish(fallback, OwnMailbox(n));
      case RingGroup(_, _, _) =>
        steps := steps + RingGroupDialLines(t, n);
        steps := steps + Finish(fallback, "");
      case Queue(id, _, _, maxWaitTime, _, _) =>
        steps := steps + [Line(EnterQueue(Sanitize(id), maxWaitTime))];
        assert steps == [Line(NoOp), Line(EnterQueue(Sanitize(id), maxWaitTime))];
        steps := steps + Finish(fallback, "");
      case Schedule(_, _, _, _) => steps := ScheduleDialplan(t, n);
      case VoicemailBox(_, mailbox) =>
        steps := steps + [Line(VoiceMail(mailbox)), Line(Hangup)];
        assert steps == [Line(NoOp), Line(VoiceMail(mailbox)), Line(Hangup)];
      case _ => return [];
    }
    assert CallflowSteps(t, n) == Some(steps);
    lines := [Entry(CALLFLOW, NodeName(n.id), steps)];
  }

  method PushInternal(t: Topology) returns (lines: seq<Entry>)
    ensures lines == InternalEntries(t, t.nodes)
  {
    lines := [];
    var k := 0;
    while k < |t.nodes|
      invariant 0 <= k <= |t.nodes|
      invariant lines + InternalEntries(t, t.nodes[k..]) == InternalEntries(t, t.nodes)
    {
      var n := t.nodes[k];
      assert t.nodes[k..][0] == n && t.nodes[k..][1..] == t.nodes[k + 1..];
      if n.Extension? {
        lines := lines + [Entry("internal", n.number, InternalSteps(t, n))];
      }
      k := k + 1;
    }
  }

  method PushEntryPoints(t: Topology) returns (lines: seq<Entry>)
    ensures lines == EntryPoints(t.nodes, ENTRYPOINT_BASE)
  {
    lines := [];
    var k := 0;
    while k < |t.nodes|
      invariant 0 <= k <= |t.nodes|
      invariant lines + EntryPoints(t.nodes[k..], ENTRYPOINT_BASE + k) == EntryPoints(t.nodes, ENTRYPOINT_BASE)
    {
      assert t.nodes[k..][0] == t.nodes[k] && t.nodes[k..][1..] == t.nodes[k + 1..];
      lines := lines + [Entry("entrypoints", Decimal(ENTRYPOINT_BASE + k), [Line(Goto(ToNode(t.nodes[k].id)))])];
      k := k + 1;
    }
  }

  method PushCallflow(t: Topology) returns (lines: seq<Entry>)
    requires Compilable(t)
    ensures lines == CallflowEntries(t, t.nodes)
  {
    lines := [];
    var k := 0;
    while k < |t.nodes|
      invariant 0 <= k <= |t.nodes|
      invariant lines + CallflowEntries(t, t.nodes[k..]) == CallflowEntries(t, t.nodes)
    {
      CallflowEntriesSplit(t, k);
      var entry := GenerateCallflowEntry(t, t.nodes[k]);
      ghost var rest := CallflowEntries(t, t.nodes[k + 1..]);
      Regroup(lines, entry, rest);
      lines := lines + entry;
      k := k + 1;
    }
  }

  lemma CallflowEntriesSplit(t: Topology, k: nat)
    requires Compilable(t) && k < |t.nodes|
    ensures Translatable(t.nodes[k])
    ensures CallflowEntries(t, t.nodes[k..]) == CallflowEntry(t, t.nodes[k]) + CallflowEntries(t, t.nodes[k + 1..])
  {
    assert t.nodes[k] in t.nodes;
    assert t.nodes[k..][0] == t.nodes[k] && t.nodes[k..][1..] == t.nodes[k + 1..];
  }

  method PushIvrContexts(t: Topology) returns (lines: seq<Entry>)
    ensures lines == AllIvrEntries(t, t.nodes)
  {
    lines := [];
    var k := 0;
    while k < |t.nodes|
      invariant 0 <= k <= |t.nodes|
      invariant lines + AllIvrEntries(t, t.nodes[k..]) == AllIvrEntries(t, t.nodes)
    {
      IvrEntriesSplit(t, k);
      ghost var rest := AllIvrEntries(t, t.nodes[k + 1..]);
      if t.nodes[k].Ivr? {
        var context := GenerateIvrContext(t, t.nodes[k]);
        Regroup(lines, context, rest);
        lines := lines + context;
      }
      k := k + 1;
    }
  }

  lemma IvrEntriesSplit(t: Topology, k: nat)
    requires k < |t.nodes|
    ensures AllIvrEntries(t, t.nodes[k..])
         == (if t.nodes[k].Ivr? then IvrEntries(t, t.nodes[k]) else []) + AllIvrEntries(t, t.nodes[k + 1..])
  {
    assert t.nodes[k..][0] == t.nodes[k] && t.nodes[k..][1..] == t.nodes[k + 1..];
  }

  /** The emitted file is the dialplan whose runs CallTheorems and CallBounds are about. */
  method GenerateExtensionsConf(t: Topology) returns (dp: Dialplan)
    requires Compilable(t)
    ensures dp == ExtensionsConf(t)
  {
    var lines := PushInternal(t);
    var entryPoints := PushEntryPoints(t);
    lines := lines + entryPoints;
    var callflow := PushCallflow(t);
    lines := lines + callflow;
    var ivrContexts := PushIvrContexts(t);
    lines := lines + ivrContexts;
    dp := Dialplan(lines, [("internal", "entrypoints")]);
  }
}
