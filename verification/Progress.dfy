/** No call loops silently: with no more events every run comes to its end or to a wait, within a bound. */
module Progress {
  import opened Text
  import opened Topologies
  import opened Graphs
  import opened Dialplans
  import opened CycleTheorems
  import opened ScheduleRules
  import opened Generator
  import opened Callflow
  import opened Linking
  import opened Simulation
  import opened CallTheorems
  import opened CallBounds
  import opened Validator

  // ---------------------------------------------------------------- loops through schedules alone

  /** The edge that its schedule takes at this time. */
  ghost predicate TakenAt(t: Topology, rule: OpeningRule, clock: Clock, e: Edge)
    requires Compilable(t)
  {
    var n := NodeById(t, e.source);
    && n.Some? && n.value.Schedule? && Translatable(n.value)
    && Some(e) == FirstWith(Outgoing(t, e.source),
                            if Opens(rule, n.value, clock(n.value.timezone)) then Open else Closed)
  }

  ghost predicate AllTaken(t: Topology, rule: OpeningRule, clock: Clock, w: seq<Edge>)
    requires Compilable(t)
  {
    forall e | e in w :: TakenAt(t, rule, clock, e)
  }

  /** A caller can be sent around through schedules alone, which wait for nothing. */
  ghost predicate SilentLoop(t: Topology, rule: OpeningRule, clock: Clock)
    requires Compilable(t)
  {
    exists w :: IsClosed(w) && AllTaken(t, rule, clock, w)
  }

  lemma TakenEnds(t: Topology, rule: OpeningRule, clock: Clock, e: Edge)
    requires Compilable(t) && TargetsKnown(t) && TakenAt(t, rule, clock, e)
    ensures e in t.edges && e.source in NodeIds(t) && e.target in NodeIds(t) && !IsExit(e)
  {
    assert NodeById(t, e.target).value in t.nodes;
    assert NodeById(t, e.source).value in t.nodes;
  }

  lemma SilentWalkIsShort(t: Topology, rule: OpeningRule, clock: Clock, w: seq<Edge>)
    requires Compilable(t) && TargetsKnown(t) && !SilentLoop(t, rule, clock)
    requires IsTrail(w) && AllTaken(t, rule, clock, w) && w != []
    ensures |w| < |t.nodes|
  {
    NodeIdsCount(t);
    if |w| >= |t.nodes| {
      forall i | 0 <= i < |w| ensures w[i].source in NodeIds(t) && w[i].target in NodeIds(t) {
        TakenEnds(t, rule, clock, w[i]);
      }
      var d := LongTrailCloses(w, NodeIds(t));
      assert AllTaken(t, rule, clock, d);
    }
  }

  /** Such a loop has no exit. */
  lemma SilentLoopIsUnsafe(t: Topology, rule: OpeningRule, clock: Clock)
    requires Compilable(t) && TargetsKnown(t) && SilentLoop(t, rule, clock)
    ensures !LongWalksExit(t)
  {
    var w :| IsClosed(w) && AllTaken(t, rule, clock, w);
    var r := GoAround(w, |t.nodes|);
    forall e | e in r ensures e in t.edges && !IsExit(e) {
      TakenEnds(t, rule, clock, e);
    }
    assert Within(r, t.edges) && ExitFree(r);
  }

  // ---------------------------------------------------------------- what a step costs

  predicate Waits(p: Place) { p.Ringing? || p.Queueing? || p.Choosing? }

  /** Over, or waiting although nothing more happens. */
  predicate AtRest(c: Call) { c.place.Gone? || (Waits(c.place) && c.inbox == []) }

  /** How many steps a call takes at most before its next wait, `walked` schedules lying behind it. */
  ghost function Rank(size: nat, p: Place, walked: nat): nat
  {
    match p
    case Gone => 0
    case Leaving => 1
    case Recording(_) => 2
    case Ringing(_, _) => 1
    case Queueing(_) => 1
    case Choosing(_, _) => 1
    case Greeting(_, _) => 2
    case Arriving(_) => if walked <= size then size - walked + 2 else 2
    case _ => size + 3
  }

  ghost function Cost(size: nat, c: Call, walked: nat): nat { Times(|c.inbox|, size + 3) + Rank(size, c.place, walked) }

  /** The schedules just passed, at the same time, lead here. */
  ghost predicate Behind(t: Topology, rule: OpeningRule, c: Call, w: seq<Edge>)
    requires Compilable(t)
  {
    && IsTrail(w) && AllTaken(t, rule, c.clock, w)
    && (w != [] ==> c.place.Arriving? && w[|w| - 1].target == c.place.id)
  }

  /** No silent loop now, nor at the time of any event to come. */
  ghost predicate NeverSilent(t: Topology, rule: OpeningRule, clock: Clock, inbox: seq<Event>)
    requires Compilable(t)
  {
    !SilentLoop(t, rule, clock) && forall i: nat | i < |inbox| :: !SilentLoop(t, rule, inbox[i].clock)
  }

  ghost predicate GroupsRing(t: Topology) { forall n | n in t.nodes && n.RingGroup? :: Attempts(t, n) != [] }

  /** A step that hears nothing. */
  ghost predicate Unheard(c: Call, next: Call) { next.clock == c.clock && next.inbox == c.inbox }

  /** A step that hears the next event. */
  ghost predicate Heard(c: Call, next: Call)
  {
    c.inbox != [] && next.clock == c.inbox[0].clock && next.inbox == c.inbox[1..]
  }

  lemma RingHears(t: Topology, c: Call, n: Node, k: nat)
    requires c.inbox != []
    ensures var next := Ring(t, c, n, k); Heard(c, next) || (Unheard(c, next) && next.place.Gone?)
  {
  }

  lemma ChooseHears(t: Topology, c: Call, n: Node, k: nat, o: Outcome)
    requires n.Ivr?
    ensures Unheard(c, Choose(t, c, n, k, o))
  {
  }

  /** Where the call waits, something happens to it, or it is over. */
  lemma WaitHears(t: Topology, rule: OpeningRule, c: Call)
    requires Compilable(t) && Waits(c.place) && c.inbox != []
    ensures var next := Advance(t, rule, c); Heard(c, next) || (Unheard(c, next) && next.place.Gone?)
  {
    var n := NodeById(t, c.place.id);
    if n.Some? && c.place.Ringing? {
      RingHears(t, c, n.value, c.place.attempt);
    } else if n.Some? && n.value.Ivr? && c.place.Choosing? {
      var o := c.inbox[0].outcome;
      ChooseHears(t, c.Hears().Says(Asked(n.value.timeout, o)), n.value, c.place.invalid, o);
    }
  }

  lemma GiveUpGoesOn(t: Topology, size: nat, c: Call, n: Node)
    ensures var next := GiveUp(t, c, n); Unheard(c, next) && Rank(size, next.place, 0) < size + 3
  {
  }

  lemma RejectGoesOn(t: Topology, size: nat, c: Call, n: Node, k: nat)
    requires n.Ivr?
    ensures var next := Reject(t, c, n, k); Unheard(c, next) && Rank(size, next.place, 0) < size + 3
  {
  }

  /** Elsewhere, but on arrival, the next wait comes closer. */
  lemma InsideGoesOn(t: Topology, rule: OpeningRule, size: nat, c: Call)
    requires Compilable(t) && !Waits(c.place) && !c.place.Arriving? && !c.place.Gone?
    ensures var next := Advance(t, rule, c); Unheard(c, next) && Rank(size, next.place, 0) < Rank(size, c.place, 0)
  {
    if c.place.GivingUp? && NodeById(t, c.place.id).Some? {
      GiveUpGoesOn(t, size, c, NodeById(t, c.place.id).value);
    } else if c.place.Rejecting? && NodeById(t, c.place.id).Some? && NodeById(t, c.place.id).value.Ivr? {
      RejectGoesOn(t, size, c.Says(Played("invalid")), NodeById(t, c.place.id).value, c.place.invalid);
    }
  }

  lemma ArriveGoesOn(t: Topology, rule: OpeningRule, c: Call, n: Node)
    requires Translatable(n) && !n.Schedule? && (n.RingGroup? ==> Attempts(t, n) != [])
    ensures var next := Arrive(t, rule, c, n);
            Unheard(c, next) && !next.place.Arriving? && forall size: nat :: Rank(size, next.place, 0) <= 2
  {
  }

  /** A schedule's own edge is taken, or the call is about to end. */
  lemma ScheduleGoesOn(t: Topology, rule: OpeningRule, c: Call, n: Node) returns (e: Option<Edge>)
    requires Compilable(t) && Translatable(n) && n.Schedule? && NodeById(t, n.id) == Some(n)
    ensures Arrive(t, rule, c, n) == c.FollowsOrLeaves(e)
    ensures e.Some? ==> TakenAt(t, rule, c.clock, e.value) && e.value.source == n.id
  {
    e := FirstWith(Outgoing(t, n.id), if Opens(rule, n, c.clock(n.timezone)) then Open else Closed);
  }

  lemma AdvanceArrives(t: Topology, rule: OpeningRule, c: Call, n: Node)
    requires Compilable(t) && c.place == Arriving(n.id) && NodeById(t, n.id) == Some(n)
    ensures Translatable(n) && Advance(t, rule, c) == Arrive(t, rule, c.Says(Entered(NodeName(n.id))), n)
  {
  }

  lemma WalkOn(t: Topology, rule: OpeningRule, clock: Clock, w: seq<Edge>, e: Edge)
    requires Compilable(t) && IsTrail(w) && AllTaken(t, rule, clock, w) && TakenAt(t, rule, clock, e)
    requires w != [] ==> w[|w| - 1].target == e.source
    ensures IsTrail(w + [e]) && AllTaken(t, rule, clock, w + [e])
  {
  }

  /** A step to another node without hearing anything is one along a schedule's edge. */
  lemma ArrivalCosts(t: Topology, rule: OpeningRule, c: Call, w: seq<Edge>, n: Node) returns (v: seq<Edge>)
    requires Compilable(t) && TargetsKnown(t) && GroupsRing(t) && !SilentLoop(t, rule, c.clock)
    requires c.place == Arriving(n.id) && NodeById(t, n.id) == Some(n) && Behind(t, rule, c, w)
    ensures var next := Advance(t, rule, c);
      && Unheard(c, next) && Behind(t, rule, next, v)
      && Rank(|t.nodes|, next.place, |v|) < Rank(|t.nodes|, c.place, |w|)
  {
    AdvanceArrives(t, rule, c, n);
    var entered := c.Says(Entered(NodeName(n.id)));
    v := [];
    if w != [] {
      SilentWalkIsShort(t, rule, c.clock, w);
    }
    if n.Schedule? {
      var e := ScheduleGoesOn(t, rule, entered, n);
      if e.Some? {
        v := w + [e.value];
        WalkOn(t, rule, c.clock, w, e.value);
        SilentWalkIsShort(t, rule, c.clock, v);
      }
    } else {
      ArriveGoesOn(t, rule, entered, n);
    }
  }

  lemma RankBound(size: nat, p: Place)
    ensures Rank(size, p, 0) <= size + 3
  {
  }

  /** Every step of a call that is not at rest costs something. */
  lemma StepCosts(t: Topology, rule: OpeningRule, c: Call, w: seq<Edge>) returns (v: seq<Edge>)
    requires Compilable(t) && TargetsKnown(t) && GroupsRing(t) && NeverSilent(t, rule, c.clock, c.inbox)
    requires Behind(t, rule, c, w) && !AtRest(c)
    ensures var next := Advance(t, rule, c);
      && NeverSilent(t, rule, next.clock, next.inbox) && Behind(t, rule, next, v)
      && Cost(|t.nodes|, next, |v|) < Cost(|t.nodes|, c, |w|)
  {
    v := [];
    if c.place.Arriving? && NodeById(t, c.place.id).Some? {
      v := ArrivalCosts(t, rule, c, w, NodeById(t, c.place.id).value);
    } else if Waits(c.place) {
      WaitHears(t, rule, c);
      RankBound(|t.nodes|, Advance(t, rule, c).place);
    } else if !c.place.Arriving? {
      InsideGoesOn(t, rule, |t.nodes|, c);
    }
  }

  lemma {:induction false} Settles(t: Topology, rule: OpeningRule, c: Call, w: seq<Edge>) returns (k: nat)
    requires Compilable(t) && TargetsKnown(t) && GroupsRing(t) && NeverSilent(t, rule, c.clock, c.inbox)
    requires Behind(t, rule, c, w)
    ensures k <= Cost(|t.nodes|, c, |w|) && AtRest(AdvanceN(t, rule, c, k))
    decreases Cost(|t.nodes|, c, |w|)
  {
    if AtRest(c) {
      k := 0;
    } else {
      var v := StepCosts(t, rule, c, w);
      k := Settles(t, rule, Advance(t, rule, c), v);
      k := k + 1;
    }
  }

  // ---------------------------------------------------------------- the machine comes to rest with the call

  predicate WaitsFor(app: App) { app.Dial? || app.EnterQueue? || app.WaitExten? }

  /** The call has ended, or the dialplan waits although nothing more happens. */
  predicate Rests(dp: Dialplan, m: Machine)
  {
    m.at.Ended? || (m.inbox == [] && Fetch(dp, m.at).Some? && WaitsFor(Fetch(dp, m.at).value))
  }

  lemma {:induction false} RestsForEver(dp: Dialplan, m: Machine, n: nat)
    requires Rests(dp, m)
    ensures RunN(dp, m, n) == m
    decreases n
  {
    if n > 0 {
      RestsForEver(dp, m, n - 1);
    }
  }

  lemma RestsLater(dp: Dialplan, m: Machine, j: nat, n: nat)
    requires Rests(dp, RunN(dp, m, j)) && j <= n
    ensures RunN(dp, m, n) == RunN(dp, m, j)
  {
    RunAdd(dp, m, j, n - j);
    RestsForEver(dp, RunN(dp, m, j), n - j);
  }

  lemma RestIsRelated(t: Topology, dp: Dialplan, c: Call, m: Machine)
    requires Sound(t, dp) && Related(t, dp, c, m) && AtRest(c)
    ensures Rests(dp, m)
  {
    if !c.place.Gone? {
      var n := NodeById(t, c.place.id).value;
      assert NodeSound(t, n) && Linked(t, dp, n);
      WaitIsFetched(t, dp, c, m, n);
    }
  }

  lemma WaitIsFetched(t: Topology, dp: Dialplan, c: Call, m: Machine, n: Node)
    requires Compilable(t) && NodeSound(t, n) && Linked(t, dp, n) && Related(t, dp, c, m)
    requires Waits(c.place) && c.place.id == n.id
    ensures Fetch(dp, m.at).Some? && WaitsFor(Fetch(dp, m.at).value)
  {
    if c.place.Ringing? {
      WhereItRings(t, dp, c, m, n);
      FetchRinging(t, dp, n, m.at, c.place.attempt);
    } else if c.place.Queueing? {
      FetchQueueing(t, dp, n, m.at);
    }
  }

  // ---------------------------------------------------------------- the bound

  /** How many steps a call can take until it ends or waits in vain, if this many things happen to it. */
  ghost function CallBound(t: Topology, events: nat): nat { (events + 1) * (|t.nodes| + 3) }

  /** And its machine. */
  ghost function MachineBound(t: Topology, events: nat): nat
    requires Compilable(t)
  {
    Times(CallBound(t, events), StepLimit(t, t.nodes))
  }

  lemma CostBound(t: Topology, c: Call)
    ensures Cost(|t.nodes|, c, 0) <= CallBound(t, |c.inbox|)
  {
    var size, n := |t.nodes| + 3, |c.inbox|;
    TimesIsProduct(n, size);
    TimesIsProduct(n + 1, size);
    RankBound(|t.nodes|, c.place);
  }

  lemma {:induction false} TimesGrows(k: nat, n: nat, limit: nat)
    requires k <= n
    ensures Times(k, limit) <= Times(n, limit)
  {
    if k < n {
      TimesGrows(k, n - 1, limit);
    }
  }

  lemma WithinBound(t: Topology, events: nat, k: nat, j: nat)
    requires Compilable(t) && k <= CallBound(t, events) && j <= Times(k, StepLimit(t, t.nodes))
    ensures j <= MachineBound(t, events)
  {
    TimesGrows(k, CallBound(t, events), StepLimit(t, t.nodes));
  }

  lemma SoundGroupsRing(t: Topology, dp: Dialplan)
    requires Sound(t, dp)
    ensures GroupsRing(t)
  {
    forall n | n in t.nodes && n.RingGroup? ensures Attempts(t, n) != [] {
      assert NodeSound(t, n);
      RingSteps(t, n);
    }
  }

  /** A compiled call rests after so many steps, if no silent loop is open at any time it comes to. */
  lemma MachineSettles(t: Topology, dp: Dialplan, c: Call, m: Machine)
    requires Sound(t, dp) && TargetsKnown(t) && Related(t, dp, c, m)
    requires NeverSilent(t, AsCompiled, c.clock, c.inbox)
    ensures Rests(dp, RunN(dp, m, MachineBound(t, |c.inbox|)))
  {
    SoundGroupsRing(t, dp);
    var k := Settles(t, AsCompiled, c, []);
    CostBound(t, c);
    var j := MachineFollowsCall(t, dp, c, m, k);
    RestIsRelated(t, dp, AdvanceN(t, AsCompiled, c, k), RunN(dp, m, j));
    WithinBound(t, |c.inbox|, k, j);
    RestsLater(dp, m, j, MachineBound(t, |c.inbox|));
  }

  // ---------------------------------------------------------------- a silent loop goes on for ever

  /** The step along edge i of the loop. */
  lemma LoopStep(t: Topology, rule: OpeningRule, c: Call, w: seq<Edge>, i: nat) returns (next: nat)
    requires Compilable(t) && IsClosed(w) && AllTaken(t, rule, c.clock, w)
    requires i < |w| && c.place == Arriving(w[i].source)
    ensures next < |w| && Advance(t, rule, c).place == Arriving(w[next].source)
    ensures Advance(t, rule, c).clock == c.clock && |Advance(t, rule, c).trace| == |c.trace| + 1
  {
    assert TakenAt(t, rule, c.clock, w[i]);
    next := if i + 1 < |w| then i + 1 else 0;
    assert w[i].target == w[next].source;
  }

  lemma {:induction false} LoopGoesOn(t: Topology, rule: OpeningRule, c: Call, w: seq<Edge>, i: nat, k: nat)
    requires Compilable(t) && IsClosed(w) && AllTaken(t, rule, c.clock, w)
    requires i < |w| && c.place == Arriving(w[i].source)
    ensures |AdvanceN(t, rule, c, k).trace| == |c.trace| + k
    decreases k
  {
    if k > 0 {
      var next := LoopStep(t, rule, c, w, i);
      LoopGoesOn(t, rule, Advance(t, rule, c), w, next, k - 1);
    }
  }

  /** The compiled call then never rests, whatever else happens. */
  lemma NeverRests(t: Topology, dp: Dialplan, c: Call, m: Machine, w: seq<Edge>, j: nat)
    requires Sound(t, dp) && Related(t, dp, c, m)
    requires IsClosed(w) && AllTaken(t, AsCompiled, c.clock, w) && c.place == Arriving(w[0].source)
    ensures !Rests(dp, RunN(dp, m, j))
  {
    if Rests(dp, RunN(dp, m, j)) {
      var k := |RunN(dp, m, j).trace| + j + 1;
      var n := MachineFollowsCall(t, dp, c, m, k);
      LoopGoesOn(t, AsCompiled, c, w, 0, k);
      RestsLater(dp, m, j, n);
    }
  }

  // ---------------------------------------------------------------- whole runs

  /** Whatever happens, no call that enters this node runs on for ever by itself. */
  ghost predicate CallsSettle(t: Topology, id: string)
    requires Compilable(t)
  {
    forall vars, clock, inbox :: SettlesFrom(t, id, vars, clock, inbox)
  }

  ghost predicate SettlesFrom(t: Topology, id: string, vars: map<string, nat>, clock: Clock, inbox: seq<Event>)
    requires Compilable(t)
  {
    exists j :: Rests(ExtensionsConf(t), RunN(ExtensionsConf(t), StartMachine(id, vars, clock, inbox), j))
  }

  lemma SettlesWithin(env: Environment, t: Topology, id: string, vars: map<string, nat>, clock: Clock,
                      inbox: seq<Event>)
    requires WellFormed(env, t) && NodeById(t, id).Some?
    requires Compilable(t) && NeverSilent(t, AsCompiled, clock, inbox)
    ensures Rests(ExtensionsConf(t),
                  RunN(ExtensionsConf(t), StartMachine(id, vars, clock, inbox), MachineBound(t, |inbox|)))
  {
    SoundFile(env, t);
    EdgesReachNodes(t);
    MachineSettles(t, ExtensionsConf(t), StartCall(id, clock, inbox), StartMachine(id, vars, clock, inbox));
  }

  lemma LoopDoesNotSettle(env: Environment, t: Topology, clock: Clock) returns (id: string)
    requires WellFormed(env, t) && Compilable(t) && SilentLoop(t, AsCompiled, clock)
    ensures NodeById(t, id).Some? && !CallsSettle(t, id)
  {
    var w: seq<Edge> :| IsClosed(w) && AllTaken(t, AsCompiled, clock, w);
    id := w[0].source;
    assert TakenAt(t, AsCompiled, clock, w[0]);
    SoundFile(env, t);
    var dp, c, m := ExtensionsConf(t), StartCall(id, clock, []), StartMachine(id, map[], clock, []);
    forall j ensures !Rests(dp, RunN(dp, m, j)) {
      NeverRests(t, dp, c, m, w, j);
    }
    assert !SettlesFrom(t, id, map[], clock, []);
  }

  /**
   * Every call of an accepted topology comes to its end or to a wait, whatever happens to it, if and only
   * if there is no time at which schedules alone send a caller around.
   */
  lemma CallsSettleIff(env: Environment, t: Topology)
    requires WellFormed(env, t)
    ensures Compilable(t)
    ensures (forall id | NodeById(t, id).Some? :: CallsSettle(t, id))
            <==> forall clock :: !SilentLoop(t, AsCompiled, clock)
  {
    SoundFile(env, t);
    if clock :| SilentLoop(t, AsCompiled, clock) {
      var id := LoopDoesNotSettle(env, t, clock);
    } else {
      forall id, vars, clock, inbox | NodeById(t, id).Some? ensures SettlesFrom(t, id, vars, clock, inbox) {
        SettlesWithin(env, t, id, vars, clock, inbox);
      }
    }
  }

  /**
   * No call of an accepted topology without overlooked cycles loops silently: within a bound on the
   * machine's steps that depends on the topology and the number of events alone, it has ended or waits.
   */
  lemma CompiledCallsSettle(env: Environment, t: Topology, id: string, vars: map<string, nat>, clock: Clock,
                            inbox: seq<Event>)
    requires Accepted(env, t) && !Overlooked(t) && NodeById(t, id).Some?
    ensures Compilable(t)
    ensures Rests(ExtensionsConf(t),
                  RunN(ExtensionsConf(t), StartMachine(id, vars, clock, inbox), MachineBound(t, |inbox|)))
  {
    SoundFile(env, t);
    EdgesReachNodes(t);
    AcceptedWalksExit(env, t);
    forall clock ensures !SilentLoop(t, AsCompiled, clock) {
      if SilentLoop(t, AsCompiled, clock) {
        SilentLoopIsUnsafe(t, AsCompiled, clock);
      }
    }
    SettlesWithin(env, t, id, vars, clock, inbox);
  }

  /** Which holds, in particular, for edge ids without commas and a search that was not cut short. */
  lemma CommaFreeCallsSettle(env: Environment, t: Topology, id: string, vars: map<string, nat>, clock: Clock,
                             inbox: seq<Event>)
    requires Accepted(env, t) && CommaFree(t) && !Truncated(t) && NodeById(t, id).Some?
    ensures Compilable(t)
    ensures Rests(ExtensionsConf(t),
                  RunN(ExtensionsConf(t), StartMachine(id, vars, clock, inbox), MachineBound(t, |inbox|)))
  {
    WellFormedIds(env, t);
    CommaFreeOverlooksNothing(t);
    CompiledCallsSettle(env, t, id, vars, clock, inbox);
  }
}
