/** Exactly when the compiled call flow keeps the documented opening hours. */
module OpeningHours {
  import opened Text
  import opened Topologies
  import opened Schedules
  import opened Dialplans
  import opened ScheduleRules
  import opened Generator
  import opened ScheduleTranslation
  import opened Callflow
  import opened Linking
  import opened CallTheorems
  import opened Validator

  // ---------------------------------------------------------------- times that can be

  ghost predicate ClockOccurs(occurs: LocalMoment -> bool, clock: Clock) { forall zone: string :: occurs(clock(zone)) }

  /** Now, and at every event to come, it is a moment that can be. */
  ghost predicate TimesOccur(occurs: LocalMoment -> bool, clock: Clock, inbox: seq<Event>)
  {
    ClockOccurs(occurs, clock) && forall i: nat | i < |inbox| :: ClockOccurs(occurs, inbox[i].clock)
  }

  /** The two outputs of a schedule lead to the same node. */
  ghost predicate SameOutputs(t: Topology, n: Node)
  {
    var open, closed := FirstWith(Outgoing(t, n.id), Open), FirstWith(Outgoing(t, n.id), Closed);
    open.Some? && closed.Some? && open.value.target == closed.value.target
  }

  /** It does not matter when the clauses of this schedule differ from the evaluator, or they never do. */
  ghost predicate HoursKept(t: Topology, n: Node, occurs: LocalMoment -> bool)
    requires n.Schedule? && ValidWindows(n.windows)
  {
    SameOutputs(t, n) || AgreesAlways(n, occurs)
  }

  ghost predicate AllHoursKept(t: Topology, occurs: LocalMoment -> bool)
    requires Compilable(t)
  {
    forall n | n in t.nodes && n.Schedule? :: HoursKept(t, n, occurs)
  }

  // ---------------------------------------------------------------- calls under the two rules

  /** The same call, apart from which edges it remembers to have taken. */
  ghost predicate UpToEdges(c: Call, d: Call) { d == c.(taken := d.taken) }

  lemma ArriveUnread(t: Topology, rule: OpeningRule, c: Call, d: Call, n: Node)
    requires Translatable(n) && UpToEdges(c, d)
    ensures UpToEdges(Arrive(t, rule, c, n), Arrive(t, rule, d, n))
  {
  }

  lemma RingUnread(t: Topology, c: Call, d: Call, n: Node, k: nat)
    requires UpToEdges(c, d)
    ensures UpToEdges(Ring(t, c, n, k), Ring(t, d, n, k))
  {
    if k < |Attempts(t, n)| {
      AttemptUnread(c, d, Attempts(t, n)[k], NextRing(t, n, k));
    }
  }

  lemma AttemptUnread(c: Call, d: Call, a: Attempt, next: Place)
    requires UpToEdges(c, d)
    ensures UpToEdges(AfterAttempt(c, a, next), AfterAttempt(d, a, next))
  {
  }

  lemma MenuUnread(t: Topology, c: Call, d: Call, n: Node, k: nat, o: Outcome)
    requires UpToEdges(c, d) && n.Ivr?
    ensures UpToEdges(Choose(t, c, n, k, o), Choose(t, d, n, k, o))
    ensures UpToEdges(Reject(t, c, n, k), Reject(t, d, n, k))
  {
  }

  /** A step does not look at the edges taken before. */
  lemma StepUnread(t: Topology, rule: OpeningRule, c: Call, d: Call)
    requires Compilable(t) && UpToEdges(c, d)
    ensures UpToEdges(Advance(t, rule, c), Advance(t, rule, d))
  {
    if c.place.Arriving? && NodeById(t, c.place.id).Some? {
      var a := Entered(NodeName(c.place.id));
      ArriveUnread(t, rule, c.Says(a), d.Says(a), NodeById(t, c.place.id).value);
    } else if c.place.Ringing? && NodeById(t, c.place.id).Some? {
      RingUnread(t, c, d, NodeById(t, c.place.id).value, c.place.attempt);
    } else if (c.place.Choosing? || c.place.Rejecting?) && NodeById(t, c.place.id).Some? {
      var n := NodeById(t, c.place.id).value;
      if n.Ivr? && c.place.Choosing? && c.inbox != [] {
        var o := c.inbox[0].outcome;
        var a := Asked(n.timeout, o);
        MenuUnread(t, c.Hears().Says(a), d.Hears().Says(a), n, c.place.invalid, o);
      } else if n.Ivr? && c.place.Rejecting? {
        var a := Played("invalid");
        MenuUnread(t, c.Says(a), d.Says(a), n, c.place.invalid, Silence);
      }
    }
  }

  /** At a schedule that keeps its hours both rules lead to the same node. */
  lemma ArriveMeets(t: Topology, occurs: LocalMoment -> bool, c: Call, n: Node)
    requires Translatable(n) && (n.Schedule? ==> HoursKept(t, n, occurs)) && ClockOccurs(occurs, c.clock)
    ensures UpToEdges(Arrive(t, AsCompiled, c, n), Arrive(t, Documented, c, n))
  {
    if n.Schedule? && !SameOutputs(t, n) {
      assert occurs(c.clock(n.timezone));
      assert AgreesAt(n, c.clock(n.timezone));
    }
  }

  /** Elsewhere they do not differ. */
  lemma RuleUnread(t: Topology, c: Call)
    requires Compilable(t) && (c.place.Arriving? ==> NodeById(t, c.place.id).None?)
    ensures Advance(t, AsCompiled, c) == Advance(t, Documented, c)
  {
  }

  lemma StepMeets(t: Topology, occurs: LocalMoment -> bool, c: Call, d: Call)
    requires Compilable(t) && AllHoursKept(t, occurs) && ClockOccurs(occurs, c.clock) && UpToEdges(c, d)
    ensures UpToEdges(Advance(t, AsCompiled, c), Advance(t, Documented, d))
  {
    StepUnread(t, Documented, c, d);
    if c.place.Arriving? && NodeById(t, c.place.id).Some? {
      ArriveMeets(t, occurs, c.Says(Entered(NodeName(c.place.id))), NodeById(t, c.place.id).value);
    } else {
      RuleUnread(t, c);
    }
  }

  /** A step waits for at most one event. */
  ghost predicate HearsOne(c: Call, next: Call)
  {
    || (next.clock == c.clock && next.inbox == c.inbox)
    || (c.inbox != [] && next.clock == c.inbox[0].clock && next.inbox == c.inbox[1..])
  }

  lemma RingHearsOne(t: Topology, c: Call, n: Node, k: nat)
    ensures HearsOne(c, Ring(t, c, n, k))
  {
    if k < |Attempts(t, n)| {
      AttemptHearsOne(c, Attempts(t, n)[k], NextRing(t, n, k));
    }
  }

  lemma AttemptHearsOne(c: Call, a: Attempt, next: Place)
    ensures HearsOne(c, AfterAttempt(c, a, next))
  {
  }

  lemma StepHearsOne(t: Topology, rule: OpeningRule, c: Call)
    requires Compilable(t)
    ensures HearsOne(c, Advance(t, rule, c))
  {
    if c.place.Ringing? && NodeById(t, c.place.id).Some? {
      RingHearsOne(t, c, NodeById(t, c.place.id).value, c.place.attempt);
    }
  }

  lemma TimesGoOn(occurs: LocalMoment -> bool, c: Call, next: Call)
    requires TimesOccur(occurs, c.clock, c.inbox) && HearsOne(c, next)
    ensures TimesOccur(occurs, next.clock, next.inbox)
  {
  }

  lemma {:induction false} RunsMeet(t: Topology, occurs: LocalMoment -> bool, c: Call, d: Call, k: nat)
    requires Compilable(t) && AllHoursKept(t, occurs) && TimesOccur(occurs, c.clock, c.inbox) && UpToEdges(c, d)
    ensures UpToEdges(AdvanceN(t, AsCompiled, c, k), AdvanceN(t, Documented, d, k))
    decreases k
  {
    if k > 0 {
      StepMeets(t, occurs, c, d);
      StepHearsOne(t, AsCompiled, c);
      TimesGoOn(occurs, c, Advance(t, AsCompiled, c));
      RunsMeet(t, occurs, Advance(t, AsCompiled, c), Advance(t, Documented, d), k - 1);
    }
  }

  lemma SameTracesSameRuns(t: Topology, dp: Dialplan, c: Call, m: Machine)
    requires Compilable(t) && SameRuns(t, dp, AsCompiled, c, m)
    requires forall k: nat :: AdvanceN(t, AsCompiled, c, k).trace == AdvanceN(t, Documented, c, k).trace
    ensures SameRuns(t, dp, Documented, c, m)
  {
    forall j ensures MachineMatched(t, dp, Documented, c, m, j) {
      assert MachineMatched(t, dp, AsCompiled, c, m, j);
      var k :| RunN(dp, m, j).trace == AdvanceN(t, AsCompiled, c, k).trace;
      assert RunN(dp, m, j).trace == AdvanceN(t, Documented, c, k).trace;
    }
    forall k ensures CallMatched(t, dp, Documented, c, m, k) {
      assert CallMatched(t, dp, AsCompiled, c, m, k);
      var j :| RunN(dp, m, j).trace == AdvanceN(t, AsCompiled, c, k).trace;
      assert RunN(dp, m, j).trace == AdvanceN(t, Documented, c, k).trace;
    }
  }

  /** Where all schedules keep their hours, every run has the documented meaning. */
  lemma KeptHoursMeet(env: Environment, t: Topology, occurs: LocalMoment -> bool, id: string, vars: map<string, nat>,
                      clock: Clock, inbox: seq<Event>)
    requires WellFormed(env, t) && NodeById(t, id).Some?
    requires Compilable(t) && AllHoursKept(t, occurs) && TimesOccur(occurs, clock, inbox)
    ensures SameRuns(t, ExtensionsConf(t), Documented, StartCall(id, clock, inbox),
                     StartMachine(id, vars, clock, inbox))
  {
    CompiledCallflowIsFaithful(env, t, id, vars, clock, inbox);
    var c := StartCall(id, clock, inbox);
    forall k: nat ensures AdvanceN(t, AsCompiled, c, k).trace == AdvanceN(t, Documented, c, k).trace {
      RunsMeet(t, occurs, c, c, k);
    }
    SameTracesSameRuns(t, ExtensionsConf(t), c, StartMachine(id, vars, clock, inbox));
  }

  // ---------------------------------------------------------------- a schedule that does not keep its hours

  ghost predicate Begins(first: seq<Action>, trace: seq<Action>) { |first| <= |trace| && trace[..|first|] == first }

  lemma RingGrows(t: Topology, c: Call, n: Node, k: nat)
    ensures Begins(c.trace, Ring(t, c, n, k).trace)
  {
    if k < |Attempts(t, n)| {
      AttemptGrows(c, Attempts(t, n)[k], NextRing(t, n, k));
    }
  }

  lemma AttemptGrows(c: Call, a: Attempt, next: Place)
    ensures Begins(c.trace, AfterAttempt(c, a, next).trace)
  {
  }

  lemma StepGrows(t: Topology, rule: OpeningRule, c: Call)
    requires Compilable(t)
    ensures Begins(c.trace, Advance(t, rule, c).trace)
  {
    if c.place.Ringing? && NodeById(t, c.place.id).Some? {
      RingGrows(t, c, NodeById(t, c.place.id).value, c.place.attempt);
    }
  }

  lemma BeginsOn(a: seq<Action>, b: seq<Action>, c: seq<Action>)
    requires Begins(a, b) && Begins(b, c)
    ensures Begins(a, c)
  {
    assert c[..|a|] == c[..|b|][..|a|];
  }

  lemma {:induction false} RunGrows(t: Topology, rule: OpeningRule, c: Call, k: nat)
    requires Compilable(t)
    ensures Begins(c.trace, AdvanceN(t, rule, c, k).trace)
    decreases k
  {
    if k > 0 {
      StepGrows(t, rule, c);
      RunGrows(t, rule, Advance(t, rule, c), k - 1);
      BeginsOn(c.trace, Advance(t, rule, c).trace, AdvanceN(t, rule, c, k).trace);
    }
  }

  /** Where a schedule sends a call under a rule. */
  function TakenOutput(t: Topology, rule: OpeningRule, n: Node, m: Moment): Option<Edge>
    requires n.Schedule? && ValidWindows(n.windows)
  {
    FirstWith(Outgoing(t, n.id), if Opens(rule, n, m) then Open else Closed)
  }

  lemma FirstEntry(t: Topology, rule: OpeningRule, n: Node, c: Call, e: Edge)
    requires Compilable(t) && n.Schedule? && ValidWindows(n.windows) && NodeById(t, n.id) == Some(n)
    requires TakenOutput(t, rule, n, c.clock(n.timezone)) == Some(e) && c.place == Arriving(n.id)
    ensures Advance(t, rule, c) == c.Says(Entered(NodeName(n.id))).Follows(e)
  {
  }

  /** From one entry on, the trace is that entry or goes on with the next. */
  lemma SecondTraces(t: Topology, rule: OpeningRule, c: Call, k: nat)
    requires Compilable(t) && c.place.Arriving? && NodeById(t, c.place.id).Some? && |c.trace| == 1
    ensures var trace := AdvanceN(t, rule, c, k).trace;
      && (|trace| >= 2 ==> trace[1] == Entered(NodeName(c.place.id)))
      && (k == 1 ==> |trace| == 2)
  {
    SecondEntry(t, rule, c);
    if k > 0 {
      var second := Advance(t, rule, c).trace;
      RunGrows(t, rule, Advance(t, rule, c), k - 1);
      assert Begins(second, AdvanceN(t, rule, c, k).trace);
      assert second[1] == second[..2][1];
    }
  }

  lemma OneStepMore(t: Topology, rule: OpeningRule, c: Call, k: nat)
    requires Compilable(t)
    ensures AdvanceN(t, rule, c, k + 1) == AdvanceN(t, rule, Advance(t, rule, c), k)
  {
  }

  /** The traces of a call that starts at a schedule: nothing, its entry, and then always the same second entry. */
  lemma ScheduleTraces(t: Topology, rule: OpeningRule, n: Node, c: Call, e: Edge, k: nat)
    requires Compilable(t) && n.Schedule? && ValidWindows(n.windows) && NodeById(t, n.id) == Some(n)
    requires NodeById(t, e.target).Some? && TakenOutput(t, rule, n, c.clock(n.timezone)) == Some(e)
    requires c.place == Arriving(n.id) && c.trace == []
    ensures var trace := AdvanceN(t, rule, c, k).trace;
      && (|trace| >= 2 ==> trace[1] == Entered(NodeName(e.target)))
      && (k == 2 ==> |trace| == 2)
  {
    if k > 0 {
      FirstEntry(t, rule, n, c, e);
      OneStepMore(t, rule, c, k - 1);
      SecondTraces(t, rule, c.Says(Entered(NodeName(n.id))).Follows(e), k - 1);
    }
  }

  lemma SecondEntry(t: Topology, rule: OpeningRule, c: Call)
    requires Compilable(t) && c.place.Arriving? && NodeById(t, c.place.id).Some?
    ensures Advance(t, rule, c).trace == c.trace + [Entered(NodeName(c.place.id))]
  {
  }

  /** If the rules send a call to differently named nodes, the dialplan does not do what is documented. */
  lemma DifferenceShows(t: Topology, dp: Dialplan, n: Node, c: Call, m: Machine, e: Edge, f: Edge)
    requires Compilable(t) && n.Schedule? && ValidWindows(n.windows) && NodeById(t, n.id) == Some(n)
    requires c.place == Arriving(n.id) && c.trace == []
    requires TakenOutput(t, AsCompiled, n, c.clock(n.timezone)) == Some(e) && NodeById(t, e.target).Some?
    requires TakenOutput(t, Documented, n, c.clock(n.timezone)) == Some(f) && NodeById(t, f.target).Some?
    requires NodeName(e.target) != NodeName(f.target) && SameRuns(t, dp, AsCompiled, c, m)
    ensures !SameRuns(t, dp, Documented, c, m)
  {
    if CallMatched(t, dp, Documented, c, m, 2) {
      var j :| RunN(dp, m, j).trace == AdvanceN(t, Documented, c, 2).trace;
      assert MachineMatched(t, dp, AsCompiled, c, m, j);
      var k :| RunN(dp, m, j).trace == AdvanceN(t, AsCompiled, c, k).trace;
      ScheduleTraces(t, Documented, n, c, f, 2);
      ScheduleTraces(t, AsCompiled, n, c, e, k);
    }
  }

  /** Every run that can be has the documented meaning. */
  ghost predicate RunsAsDocumented(t: Topology, occurs: LocalMoment -> bool)
    requires Compilable(t)
  {
    forall id, vars, clock, inbox | NodeById(t, id).Some? && TimesOccur(occurs, clock, inbox) ::
      SameRuns(t, ExtensionsConf(t), Documented, StartCall(id, clock, inbox), StartMachine(id, vars, clock, inbox))
  }

  lemma TargetNamesDiffer(t: Topology, e: Edge, f: Edge)
    requires NamesDiffer(t.nodes) && NodeById(t, e.target).Some? && NodeById(t, f.target).Some? && e.target != f.target
    ensures NodeName(e.target) != NodeName(f.target)
  {
    var i := NodeInOrder(t, NodeById(t, e.target).value);
    var j := NodeInOrder(t, NodeById(t, f.target).value);
    NodeNamesDiffer(e.target, f.target);
  }

  /** Where the two rules send a call at a moment at which they differ. */
  lemma OutputsDiffer(t: Topology, n: Node, m: LocalMoment) returns (e: Edge, f: Edge)
    requires NamesDiffer(t.nodes) && NodeSound(t, n) && n.Schedule? && !AgreesAt(n, m) && !SameOutputs(t, n)
    ensures TakenOutput(t, AsCompiled, n, m) == Some(e) && NodeById(t, e.target).Some?
    ensures TakenOutput(t, Documented, n, m) == Some(f) && NodeById(t, f.target).Some?
    ensures NodeName(e.target) != NodeName(f.target)
  {
    e := TakenOutput(t, AsCompiled, n, m).value;
    f := TakenOutput(t, Documented, n, m).value;
    TargetNamesDiffer(t, e, f);
  }

  /** A run that starts at the schedule at such a moment, and stays there. */
  lemma UnkeptRun(t: Topology, dp: Dialplan, n: Node, m: LocalMoment, c: Call, machine: Machine)
    requires Compilable(t) && NamesDiffer(t.nodes) && NodeSound(t, n) && n.Schedule?
    requires !AgreesAt(n, m) && !SameOutputs(t, n)
    requires c.place == Arriving(n.id) && c.trace == [] && c.clock(n.timezone) == m
    requires SameRuns(t, dp, AsCompiled, c, machine)
    ensures !SameRuns(t, dp, Documented, c, machine)
  {
    var e, f := OutputsDiffer(t, n, m);
    DifferenceShows(t, dp, n, c, machine, e, f);
  }

  /** A schedule that does not keep its hours is seen by a call that starts there at such a moment. */
  lemma UnkeptHoursShow(env: Environment, t: Topology, occurs: LocalMoment -> bool, n: Node, m: LocalMoment)
    requires WellFormed(env, t) && n in t.nodes && n.Schedule? && Translatable(n)
    requires occurs(m) && !AgreesAt(n, m) && !SameOutputs(t, n)
    ensures Compilable(t) && !RunsAsDocumented(t, occurs)
  {
    AcceptedCompiles(env, t);
    SoundNode(env, t, n);
    var clock: Clock := (zone: string) => m;
    var c, machine := StartCall(n.id, clock, []), StartMachine(n.id, map[], clock, []);
    CompiledCallflowIsFaithful(env, t, n.id, map[], clock, []);
    UnkeptRun(t, ExtensionsConf(t), n, m, c, machine);
    assert TimesOccur(occurs, clock, []);
  }

  /**
   * The compiled call flow keeps the documented opening hours, in every run whose moments can be, if and
   * only if every schedule leads to the same node either way or its clauses agree with the evaluator at
   * every such moment.
   */
  lemma DocumentedHoursIff(env: Environment, t: Topology, occurs: LocalMoment -> bool)
    requires WellFormed(env, t)
    ensures Compilable(t) && (RunsAsDocumented(t, occurs) <==> AllHoursKept(t, occurs))
  {
    AcceptedCompiles(env, t);
    if AllHoursKept(t, occurs) {
      forall id, vars, clock, inbox | NodeById(t, id).Some? && TimesOccur(occurs, clock, inbox)
        ensures SameRuns(t, ExtensionsConf(t), Documented, StartCall(id, clock, inbox),
                         StartMachine(id, vars, clock, inbox))
      {
        KeptHoursMeet(env, t, occurs, id, vars, clock, inbox);
      }
    } else {
      var n :| n in t.nodes && n.Schedule? && !HoursKept(t, n, occurs);
      var m: LocalMoment :| occurs(m) && !AgreesAt(n, m);
      UnkeptHoursShow(env, t, occurs, n, m);
    }
  }

  /** In particular at any moment whatever. */
  lemma DocumentedHoursAnytime(env: Environment, t: Topology)
    requires WellFormed(env, t)
    ensures Compilable(t)
    ensures RunsAsDocumented(t, (m: LocalMoment) => true) <==>
              forall n | n in t.nodes && n.Schedule? :: SameOutputs(t, n) || forall m: LocalMoment :: AgreesAt(n, m)
  {
    DocumentedHoursIff(env, t, (m: LocalMoment) => true);
  }

  /** The windows of the schedule cover every working date that follows a midnight end. */
  ghost predicate CoversCalendar(n: Node, dates: set<string>, weekday: string -> Weekday)
    requires n.Schedule? && ValidWindows(n.windows)
  {
    forall date | date in dates && date !in n.holidays && FollowsMidnightEnd(n, weekday(date)) ::
      OpenAllDay(n, weekday(date))
  }

  /** And on a calendar, told from the windows of the schedules alone. */
  lemma DocumentedHoursOnCalendar(env: Environment, t: Topology, dates: set<string>, weekday: string -> Weekday)
    requires WellFormed(env, t)
    ensures Compilable(t)
    ensures RunsAsDocumented(t, OnCalendar(dates, weekday)) <==>
              forall n | n in t.nodes && n.Schedule? :: SameOutputs(t, n) || CoversCalendar(n, dates, weekday)
  {
    DocumentedHoursIff(env, t, OnCalendar(dates, weekday));
    forall n | n in t.nodes && n.Schedule?
      ensures AgreesAlways(n, OnCalendar(dates, weekday)) <==> CoversCalendar(n, dates, weekday)
    {
      AgreesExactlyWhen(n, dates, weekday);
    }
  }
}
