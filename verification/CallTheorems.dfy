/** Whole runs: the compiled dialplan behaves as the topology means, and calls cannot loop unnoticed. */
module CallTheorems {
  import opened Text
  import opened Topologies
  import opened Schedules
  import opened Dialplans
  import opened ScheduleRules
  import opened Generator
  import opened ScheduleTranslation
  import opened Callflow
  import opened Linking
  import opened Simulation
  import opened Validator

  // ---------------------------------------------------------------- lockstep over whole runs

  /** How many steps the machine may need for one step of the call at this node. */
  ghost function NodeLimit(t: Topology, n: Node): nat
    requires Translatable(n)
  {
    if n.Schedule? then 4 + |ScheduleSteps(t, n)| else 4
  }

  /** And at any of these nodes. */
  ghost function StepLimit(t: Topology, nodes: seq<Node>): (r: nat)
    requires forall n | n in nodes :: Translatable(n)
    ensures r >= 4
  {
    if nodes == [] then 4
    else
      var first, rest := NodeLimit(t, nodes[0]), StepLimit(t, nodes[1..]);
      if first <= rest then rest else first
  }

  lemma {:induction false} LimitHolds(t: Topology, nodes: seq<Node>, n: Node)
    requires n in nodes && forall x | x in nodes :: Translatable(x)
    ensures NodeLimit(t, n) <= StepLimit(t, nodes)
  {
    if n != nodes[0] {
      LimitHolds(t, nodes[1..], n);
    }
  }

  /** Every step of a call is followed by the machine. */
  lemma FollowStep(t: Topology, dp: Dialplan, c: Call, m: Machine) returns (j: nat)
    requires Sound(t, dp) && Related(t, dp, c, m)
    ensures Follows(t, dp, Advance(t, AsCompiled, c), m, j) && j <= StepLimit(t, t.nodes)
  {
    if c.place.Leaving? || c.place.Recording? || c.place.Gone? {
      FollowLast(t, dp, c, m);
      j := 1;
    } else {
      var n := NodeById(t, c.place.id).value;
      assert NodeSound(t, n) && Linked(t, dp, n);
      if c.place.Arriving? {
        j := FollowArriving(t, dp, c, m, n);
        LimitHolds(t, t.nodes, n);
      } else if c.place.Ringing? || c.place.Queueing? || c.place.GivingUp? {
        FollowCalling(t, dp, c, m, n);
        j := 1;
      } else {
        j := FollowMenu(t, dp, c, m, n);
      }
    }
  }

  lemma FollowCalling(t: Topology, dp: Dialplan, c: Call, m: Machine, n: Node)
    requires Compilable(t) && NodeSound(t, n) && Linked(t, dp, n) && Related(t, dp, c, m)
    requires (c.place.Ringing? || c.place.Queueing? || c.place.GivingUp?) && c.place.id == n.id
    ensures Follows(t, dp, Advance(t, AsCompiled, c), m, 1)
  {
    if c.place.Ringing? {
      WhereItRings(t, dp, c, m, n);
      FetchRinging(t, dp, n, m.at, c.place.attempt);
      FollowRinging(t, dp, c, m, n);
    } else if c.place.Queueing? {
      FetchQueueing(t, dp, n, m.at);
      FollowQueueing(t, dp, c, m, n);
    } else {
      WhereItGivesUp(t, dp, c, m, n);
      FollowGivingUp(t, dp, c, m, n);
    }
  }

  lemma WhereItGivesUp(t: Topology, dp: Dialplan, c: Call, m: Machine, n: Node)
    requires NodeSound(t, n) && Linked(t, dp, n) && Related(t, dp, c, m) && c.place == GivingUp(n.id)
    ensures FetchesFinish(t, dp, n, m.at)
  {
    var p, steps, finish := GivingUpSteps(t, n);
    FetchGivingUp(t, dp, n, m.at, steps, p, finish);
  }

  lemma FollowMenu(t: Topology, dp: Dialplan, c: Call, m: Machine, n: Node) returns (j: nat)
    requires Compilable(t) && NodeSound(t, n) && n.Ivr? && IvrLinked(t, dp, n) && Related(t, dp, c, m)
    requires (c.place.Greeting? || c.place.Choosing? || c.place.Rejecting?) && c.place.id == n.id
    ensures Follows(t, dp, Advance(t, AsCompiled, c), m, j) && j <= 4
  {
    match c.place {
      case Greeting(_, _) =>
        FollowGreeting(t, dp, c, m, n);
        j := 1;
      case Choosing(_, _) =>
        j := FollowChoosing(t, dp, c, m, n);
      case Rejecting(_, _) =>
        j := FollowRejecting(t, dp, c, m, n);
    }
  }

  lemma FollowArriving(t: Topology, dp: Dialplan, c: Call, m: Machine, n: Node) returns (j: nat)
    requires Compilable(t) && NodeSound(t, n) && Linked(t, dp, n)
    requires Related(t, dp, c, m) && c.place == Arriving(n.id)
    ensures Follows(t, dp, Advance(t, AsCompiled, c), m, j) && j <= NodeLimit(t, n)
  {
    if n.Ivr? {
      FollowIvrArrival(t, dp, c, m, n);
      j := 4;
    } else if n.Schedule? {
      ScheduleIsReady(t, dp, n);
      ArrivesAt(t, dp, c, m, n);
      j := FollowScheduleArrival(t, dp, c, m, n);
    } else {
      FollowOtherArrival(t, dp, c, m, n);
      j := 1;
    }
  }

  /** Where the machine is when the call arrives. */
  lemma ArrivesAt(t: Topology, dp: Dialplan, c: Call, m: Machine, n: Node)
    requires Related(t, dp, c, m) && c.place == Arriving(n.id) && NodeById(t, n.id) == Some(n)
    ensures Alike(c, m) && m.at == Running(CALLFLOW, NodeName(n.id), 1)
  {
  }

  lemma FollowIvrArrival(t: Topology, dp: Dialplan, c: Call, m: Machine, n: Node)
    requires Compilable(t) && NodeSound(t, n) && Linked(t, dp, n)
    requires Related(t, dp, c, m) && c.place == Arriving(n.id)
    requires n.Ivr?
    ensures Follows(t, dp, Advance(t, AsCompiled, c), m, 4)
  {
    EnterIvr(t, dp, m, n);
    FollowArrivingIvr(t, dp, c, m, n);
  }

  lemma FollowScheduleArrival(t: Topology, dp: Dialplan, c: Call, m: Machine, n: Node) returns (j: nat)
    requires Compilable(t) && ScheduleReady(t, dp, n) && c.place == Arriving(n.id)
    requires Alike(c, m) && m.at == Running(CALLFLOW, NodeName(n.id), 1)
    ensures Follows(t, dp, Advance(t, AsCompiled, c), m, j) && j <= NodeLimit(t, n)
  {
    var e;
    j, e := FollowDecision(t, dp, c, m, n);
    AdvanceSchedule(t, c, n, e);
  }

  /** The output a schedule takes now. */
  ghost predicate TakenNow(t: Topology, n: Node, clock: Clock, e: Edge)
    requires n.Schedule? && ValidWindows(n.windows)
  {
    Some(e) == FirstWith(Outgoing(t, n.id), if CompiledOpen(n, clock(n.timezone)) then Open else Closed)
  }

  lemma AdvanceSchedule(t: Topology, c: Call, n: Node, e: Edge)
    requires Compilable(t) && n.Schedule? && ValidWindows(n.windows) && NodeById(t, n.id) == Some(n)
    requires c.place == Arriving(n.id) && TakenNow(t, n, c.clock, e)
    ensures Advance(t, AsCompiled, c) == c.Says(Entered(NodeName(n.id))).Follows(e)
  {
  }

  lemma FollowDecision(t: Topology, dp: Dialplan, c: Call, m: Machine, n: Node) returns (j: nat, e: Edge)
    requires ScheduleReady(t, dp, n) && Alike(c, m) && m.at == Running(CALLFLOW, NodeName(n.id), 1)
    ensures TakenNow(t, n, c.clock, e)
    ensures Follows(t, dp, c.Says(Entered(NodeName(n.id))).Follows(e), m, j) && j <= |ScheduleSteps(t, n)|
  {
    var steps;
    steps, e := EnterSchedule(t, dp, m, n);
    FollowArrivingSchedule(t, dp, c, m, NodeName(n.id), steps, e);
    j := steps + 1;
  }

  lemma FollowOtherArrival(t: Topology, dp: Dialplan, c: Call, m: Machine, n: Node)
    requires Compilable(t) && NodeSound(t, n) && Linked(t, dp, n)
    requires Related(t, dp, c, m) && c.place == Arriving(n.id)
    requires !n.Ivr? && !n.Schedule?
    ensures Follows(t, dp, Advance(t, AsCompiled, c), m, 1)
  {
    EnterOther(t, dp, m, n);
    if n.VoicemailBox? {
      FollowArrivingMailbox(t, dp, c, m, n);
    } else {
      FollowArrivingPlain(t, dp, c, m, n);
    }
  }

  lemma EnterIvr(t: Topology, dp: Dialplan, m: Machine, n: Node)
    requires NodeSound(t, n) && Linked(t, dp, n) && n.Ivr? && m.at == Running(CALLFLOW, NodeName(n.id), 1)
    ensures var k := Run1(dp, m);
            && k == m.Next().Says(Entered(NodeName(n.id)))
            && Reaches(dp, k, 3, k.Goes(Running(IvrContext(n.id), "s", 3)).(vars := k.vars[RetryVar(n.id) := 0]),
                k.trace, k.trace)
  {
    FetchArriving(t, dp, n, m);
    EnterMenu(t, dp, n, Run1(dp, m));
  }

  lemma EnterSchedule(t: Topology, dp: Dialplan, m: Machine, n: Node) returns (j: nat, e: Edge)
    requires ScheduleReady(t, dp, n) && m.at == Running(CALLFLOW, NodeName(n.id), 1)
    ensures NodeById(t, e.target).Some? && TakenNow(t, n, m.clock, e)
    ensures EntersAndTakes(dp, m, NodeName(n.id), j, e) && j < |ScheduleSteps(t, n)|
  {
    assert ScheduleSteps(t, n)[0] == Line(NoOp);
    j, e := DecideFromNode(t, dp, n, Run1(dp, m));
  }

  lemma EnterOther(t: Topology, dp: Dialplan, m: Machine, n: Node)
    requires NodeSound(t, n) && Linked(t, dp, n) && !n.Ivr? && !n.Schedule?
             && m.at == Running(CALLFLOW, NodeName(n.id), 1)
    ensures Run1(dp, m) == m.Next().Says(Entered(NodeName(n.id)))
    ensures n.VoicemailBox? ==> At(t, dp, Recording(n.mailbox), Running(CALLFLOW, NodeName(n.id), 2), m.vars)
    ensures n.RingGroup? ==> Attempts(t, n) != []
  {
    FetchArriving(t, dp, n, m);
    if n.VoicemailBox? {
      FetchMessage(t, dp, n, Running(CALLFLOW, NodeName(n.id), 2));
    } else if n.RingGroup? {
      RingSteps(t, n);
    }
  }

  /** k times the limit. */
  ghost function Times(k: nat, limit: nat): nat { if k == 0 then 0 else Times(k - 1, limit) + limit }

  lemma {:induction false} TimesIsProduct(k: nat, limit: nat)
    ensures Times(k, limit) == k * limit
  {
    if k > 0 {
      TimesIsProduct(k - 1, limit);
      assert (k - 1) * limit + limit == k * limit;
    }
  }

  /** After j steps the machine is where the call is after k. */
  ghost predicate Catches(t: Topology, dp: Dialplan, c: Call, m: Machine, k: nat, j: nat)
    requires Compilable(t)
  {
    k <= j <= Times(k, StepLimit(t, t.nodes)) && Related(t, dp, AdvanceN(t, AsCompiled, c, k), RunN(dp, m, j))
  }

  lemma {:induction false} AdvanceLast(t: Topology, rule: OpeningRule, c: Call, k: nat)
    requires Compilable(t)
    ensures AdvanceN(t, rule, c, k + 1) == Advance(t, rule, AdvanceN(t, rule, c, k))
    decreases k
  {
    if k > 0 {
      AdvanceLast(t, rule, Advance(t, rule, c), k - 1);
    }
  }

  /** After one more step of the call. */
  lemma CatchesNext(t: Topology, dp: Dialplan, c: Call, m: Machine, k: nat, j: nat, s: nat)
    requires Sound(t, dp) && Catches(t, dp, c, m, k, j)
    requires 1 <= s <= StepLimit(t, t.nodes)
    requires Related(t, dp, Advance(t, AsCompiled, AdvanceN(t, AsCompiled, c, k)), RunN(dp, RunN(dp, m, j), s))
    ensures Catches(t, dp, c, m, k + 1, j + s)
  {
    RunAdd(dp, m, j, s);
    AdvanceLast(t, AsCompiled, c, k);
  }

  /** However far a call gets, the machine gets there too. */
  lemma {:induction false} MachineFollowsCall(t: Topology, dp: Dialplan, c: Call, m: Machine, k: nat) returns (j: nat)
    requires Sound(t, dp) && Related(t, dp, c, m)
    ensures Catches(t, dp, c, m, k, j)
  {
    if k == 0 {
      j := 0;
    } else {
      var i := MachineFollowsCall(t, dp, c, m, k - 1);
      var s := FollowStep(t, dp, AdvanceN(t, AsCompiled, c, k - 1), RunN(dp, m, i));
      CatchesNext(t, dp, c, m, k - 1, i, s);
      j := i + s;
    }
  }

  /** On the way through one step of the call the machine has done what the call did before or after it. */
  lemma MatchedWithin(t: Topology, dp: Dialplan, c: Call, m: Machine, s: nat, j: nat) returns (k: nat)
    requires Compilable(t) && Follows(t, dp, Advance(t, AsCompiled, c), m, s) && j <= s && c.trace == m.trace
    ensures k <= 1 && RunN(dp, m, j).trace == AdvanceN(t, AsCompiled, c, k).trace
  {
    k := if RunN(dp, m, j).trace == c.trace then 0 else 1;
    assert AdvanceN(t, AsCompiled, c, 1) == AdvanceN(t, AsCompiled, Advance(t, AsCompiled, c), 0);
  }

  lemma MatchedLater(t: Topology, dp: Dialplan, c: Call, m: Machine, s: nat, j: nat, k: nat)
    requires Compilable(t) && j >= s
    requires RunN(dp, RunN(dp, m, s), j - s).trace == AdvanceN(t, AsCompiled, Advance(t, AsCompiled, c), k).trace
    ensures RunN(dp, m, j).trace == AdvanceN(t, AsCompiled, c, k + 1).trace
  {
    RunAdd(dp, m, s, j - s);
  }

  /** However far the machine gets, it has done exactly what the call does in some number of steps. */
  lemma {:induction false} CallFollowsMachine(t: Topology, dp: Dialplan, c: Call, m: Machine, j: nat) returns (k: nat)
    requires Sound(t, dp) && Related(t, dp, c, m)
    ensures k <= j + 1 && RunN(dp, m, j).trace == AdvanceN(t, AsCompiled, c, k).trace
    decreases j
  {
    var s := FollowStep(t, dp, c, m);
    if j < s {
      k := MatchedWithin(t, dp, c, m, s, j);
    } else {
      var rest := CallFollowsMachine(t, dp, Advance(t, AsCompiled, c), RunN(dp, m, s), j - s);
      MatchedLater(t, dp, c, m, s, j, rest);
      k := rest + 1;
    }
  }

  lemma SoundFile(env: Environment, t: Topology)
    requires WellFormed(env, t)
    ensures Compilable(t) && Sound(t, ExtensionsConf(t))
  {
    AcceptedCompiles(env, t);
    forall n | n in t.nodes ensures NodeSound(t, n) && Linked(t, ExtensionsConf(t), n) {
      SoundNode(env, t, n);
      LinkedNode(env, t, n);
    }
  }

  // ---------------------------------------------------------------- the compiler theorem

  ghost function StartCall(id: string, clock: Clock, inbox: seq<Event>): Call
  {
    Call(Arriving(id), clock, inbox, [], [])
  }

  ghost function StartMachine(id: string, vars: map<string, nat>, clock: Clock, inbox: seq<Event>): Machine
  {
    Machine(Running(CALLFLOW, NodeName(id), 1), vars, clock, inbox, [])
  }

  /** No schedule has an overnight window that ends at midnight. */
  ghost predicate NoMidnightEnds(t: Topology)
    requires Compilable(t)
  {
    forall n | n in t.nodes && n.Schedule? :: NoMidnightEnd(n)
  }

  lemma AdvanceAgrees(t: Topology, c: Call)
    requires Compilable(t) && NoMidnightEnds(t)
    ensures Advance(t, Documented, c) == Advance(t, AsCompiled, c)
  {
    if c.place.Arriving? {
      var n := NodeById(t, c.place.id);
      if n.Some? && n.value.Schedule? {
        assert NoMidnightEnd(n.value);
        RulesAgree(n.value, c.clock(n.value.timezone));
      }
    }
  }

  lemma RulesAgree(n: Node, m: Moment)
    requires n.Schedule? && ValidWindows(n.windows) && NoMidnightEnd(n)
    ensures Opens(Documented, n, m) == Opens(AsCompiled, n, m)
  {
  }

  lemma {:induction false} AdvanceNAgrees(t: Topology, c: Call, k: nat)
    requires Compilable(t) && NoMidnightEnds(t)
    ensures AdvanceN(t, Documented, c, k) == AdvanceN(t, AsCompiled, c, k)
    decreases k
  {
    if k > 0 {
      AdvanceAgrees(t, c);
      AdvanceNAgrees(t, Advance(t, AsCompiled, c), k - 1);
    }
  }

  /** The first j steps of the machine did what some number of steps of the call do. */
  ghost predicate MachineMatched(t: Topology, dp: Dialplan, rule: OpeningRule, c: Call, m: Machine, j: nat)
    requires Compilable(t)
  {
    exists k :: RunN(dp, m, j).trace == AdvanceN(t, rule, c, k).trace
  }

  /** The first k steps of the call did what some number of steps of the machine do. */
  ghost predicate CallMatched(t: Topology, dp: Dialplan, rule: OpeningRule, c: Call, m: Machine, k: nat)
    requires Compilable(t)
  {
    exists j :: RunN(dp, m, j).trace == AdvanceN(t, rule, c, k).trace
  }

  ghost predicate SameRuns(t: Topology, dp: Dialplan, rule: OpeningRule, c: Call, m: Machine)
    requires Compilable(t)
  {
    && (forall j :: MachineMatched(t, dp, rule, c, m, j))
    && (forall k :: CallMatched(t, dp, rule, c, m, k))
  }

  lemma RelatedRuns(t: Topology, dp: Dialplan, c: Call, m: Machine)
    requires Compilable(t) && Sound(t, dp) && Related(t, dp, c, m)
    ensures SameRuns(t, dp, AsCompiled, c, m)
  {
    forall j ensures MachineMatched(t, dp, AsCompiled, c, m, j) {
      var k := CallFollowsMachine(t, dp, c, m, j);
    }
    forall k ensures CallMatched(t, dp, AsCompiled, c, m, k) {
      var j := MachineFollowsCall(t, dp, c, m, k);
    }
  }

  /**
   * Compiler correctness: for every topology that validates without errors, entered at any node, at
   * any time and with any future events, the generated dialplan performs exactly the actions and node
   * moves that the topology means: the opening hours are the ones the clauses encode, and the
   * documented ones whenever no overnight window ends at midnight.
   */
  lemma CompiledCallflowIsFaithful(env: Environment, t: Topology, id: string, vars: map<string, nat>, clock: Clock,
                                   inbox: seq<Event>)
    requires WellFormed(env, t) && NodeById(t, id).Some?
    ensures Compilable(t)
    ensures var c, m := StartCall(id, clock, inbox), StartMachine(id, vars, clock, inbox);
            && SameRuns(t, ExtensionsConf(t), AsCompiled, c, m)
            && (NoMidnightEnds(t) ==> SameRuns(t, ExtensionsConf(t), Documented, c, m))
  {
    SoundFile(env, t);
    var dp, c, m := ExtensionsConf(t), StartCall(id, clock, inbox), StartMachine(id, vars, clock, inbox);
    RelatedRuns(t, dp, c, m);
    if NoMidnightEnds(t) {
      DocumentedRuns(t, dp, c, m);
    }
  }

  lemma DocumentedRuns(t: Topology, dp: Dialplan, c: Call, m: Machine)
    requires Compilable(t) && NoMidnightEnds(t) && SameRuns(t, dp, AsCompiled, c, m)
    ensures SameRuns(t, dp, Documented, c, m)
  {
    forall j ensures MachineMatched(t, dp, Documented, c, m, j) {
      assert MachineMatched(t, dp, AsCompiled, c, m, j);
      var k :| RunN(dp, m, j).trace == AdvanceN(t, AsCompiled, c, k).trace;
      AdvanceNAgrees(t, c, k);
    }
    forall k ensures CallMatched(t, dp, Documented, c, m, k) {
      assert CallMatched(t, dp, AsCompiled, c, m, k);
      AdvanceNAgrees(t, c, k);
    }
  }
}
