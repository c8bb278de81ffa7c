/** End to end: how long a call can run before it takes a timeout or invalid edge, and how often a menu rejects. */
module CallBounds {
  import opened Text
  import opened Topologies
  import opened Graphs
  import opened Dialplans
  import opened CycleTheorems
  import opened ScheduleRules
  import opened NodeRules
  import opened EdgeRules
  import opened Generator
  import opened Callflow
  import opened Linking
  import opened Simulation
  import opened CallTheorems
  import opened Validator

  // ---------------------------------------------------------------- node moves in a trace

  /** The names of the nodes a trace enters, in order. */
  ghost function Moves(trace: seq<Action>): seq<string>
  {
    if trace == [] then []
    else
      var last := trace[|trace| - 1];
      Moves(trace[..|trace| - 1]) + if last.Entered? then [last.name] else []
  }

  lemma MovesSnoc(trace: seq<Action>, a: Action)
    ensures Moves(trace + [a]) == Moves(trace) + if a.Entered? then [a.name] else []
  {
    assert (trace + [a])[..|trace|] == trace;
  }

  /** The names of the nodes a walk from `origin` passes. */
  ghost function Stops(origin: string, w: seq<Edge>): seq<string>
  {
    if w == [] then [NodeName(origin)] else Stops(origin, w[..|w| - 1]) + [NodeName(w[|w| - 1].target)]
  }

  lemma StopsSnoc(origin: string, w: seq<Edge>, e: Edge)
    ensures Stops(origin, w + [e]) == Stops(origin, w) + [NodeName(e.target)]
  {
    assert (w + [e])[..|w|] == w;
  }

  ghost function LastStop(origin: string, w: seq<Edge>): string
  {
    if w == [] then origin else w[|w| - 1].target
  }

  predicate HasId(p: Place) { !p.Recording? && !p.Leaving? && !p.Gone? }

  /** The edges form a walk of the graph from its origin. */
  ghost predicate IsWalkFrom(t: Topology, origin: string, w: seq<Edge>)
  {
    IsTrail(w) && Within(w, t.edges) && (w != [] ==> w[0].source == origin)
  }

  /** The edges a call took form a walk from its origin to its place, and its trace enters that walk's nodes. */
  ghost predicate OnWalk(t: Topology, origin: string, c: Call)
  {
    && IsWalkFrom(t, origin, c.taken)
    && (HasId(c.place) ==> c.place.id == LastStop(origin, c.taken) && NodeById(t, c.place.id).Some?)
    && (if c.place.Arriving? then Moves(c.trace) + [NodeName(c.place.id)] == Stops(origin, c.taken)
        else Moves(c.trace) == Stops(origin, c.taken))
  }

  ghost predicate TargetsKnown(t: Topology) { forall e | e in t.edges :: NodeById(t, e.target).Some? }

  lemma WalkSnoc(t: Topology, origin: string, w: seq<Edge>, e: Edge)
    requires IsWalkFrom(t, origin, w) && e in t.edges && e.source == LastStop(origin, w)
    ensures IsWalkFrom(t, origin, w + [e]) && LastStop(origin, w + [e]) == e.target
    ensures Stops(origin, w + [e]) == Stops(origin, w) + [NodeName(e.target)]
  {
    StopsSnoc(origin, w, e);
  }

  lemma WalkFollows(t: Topology, origin: string, c: Call, e: Edge)
    requires TargetsKnown(t) && e in t.edges && e.source == LastStop(origin, c.taken)
    requires IsWalkFrom(t, origin, c.taken) && Moves(c.trace) == Stops(origin, c.taken)
    ensures OnWalk(t, origin, c.Follows(e))
  {
    WalkSnoc(t, origin, c.taken, e);
  }

  /** The second trace is the first with one more action. */
  ghost predicate Adds(before: seq<Action>, after: seq<Action>)
  {
    |after| == |before| + 1 && after[..|before|] == before
  }

  /** A step within a node, or out of the graph, that adds at most one action. */
  ghost predicate Stays(c: Call, next: Call)
  {
    && !next.place.Arriving? && next.taken == c.taken
    && (HasId(next.place) ==> HasId(c.place) && next.place.id == c.place.id)
    && (next.trace == c.trace || (Adds(c.trace, next.trace) && !next.trace[|c.trace|].Entered?))
  }

  lemma WalkGoesOn(t: Topology, origin: string, c: Call, next: Call)
    requires OnWalk(t, origin, c) && !c.place.Arriving? && Stays(c, next)
    ensures OnWalk(t, origin, next)
  {
    if next.trace != c.trace {
      var a := next.trace[|c.trace|];
      assert next.trace == c.trace + [a];
      MovesSnoc(c.trace, a);
    }
  }

  lemma WalkArrives(t: Topology, rule: OpeningRule, origin: string, c: Call, n: Node)
    requires Compilable(t) && TargetsKnown(t) && OnWalk(t, origin, c) && c.place == Arriving(n.id)
             && NodeById(t, n.id) == Some(n)
    ensures OnWalk(t, origin, Advance(t, rule, c))
  {
    MovesSnoc(c.trace, Entered(NodeName(n.id)));
    var entered := c.Says(Entered(NodeName(n.id)));
    if n.Schedule? {
      var e := FirstWith(Outgoing(t, n.id), if Opens(rule, n, c.clock(n.timezone)) then Open else Closed);
      if e.Some? {
        WalkFollows(t, origin, entered, e.value);
      }
    }
  }

  lemma WalkGivesUp(t: Topology, origin: string, c: Call, n: Node)
    requires TargetsKnown(t) && OnWalk(t, origin, c) && c.place == GivingUp(n.id)
    ensures OnWalk(t, origin, GiveUp(t, c, n))
  {
    if Outgoing(t, n.id) != [] {
      assert Outgoing(t, n.id)[0] in Outgoing(t, n.id);
      WalkFollows(t, origin, c, Outgoing(t, n.id)[0]);
    } else {
      WalkGoesOn(t, origin, c, GiveUp(t, c, n));
    }
  }

  lemma WalkLeavesMenu(t: Topology, origin: string, c: Call, a: Action, e: Option<Edge>, p: Place, heard: Call)
    requires TargetsKnown(t) && OnWalk(t, origin, c) && HasId(c.place) && !c.place.Arriving? && !a.Entered?
    requires heard.taken == c.taken && heard.trace == c.trace + [a]
    requires e.Some? ==> e.value in Outgoing(t, c.place.id)
    requires !p.Arriving? && (HasId(p) ==> p.id == c.place.id)
    ensures OnWalk(t, origin, if e.Some? then heard.Follows(e.value) else heard.Goes(p))
  {
    MovesSnoc(c.trace, a);
    if e.Some? {
      WalkFollows(t, origin, heard, e.value);
    }
  }

  lemma WalkChooses(t: Topology, origin: string, c: Call, n: Node, k: nat)
    requires TargetsKnown(t) && OnWalk(t, origin, c) && c.place == Choosing(n.id, k) && n.Ivr? && c.inbox != []
    ensures var o := c.inbox[0].outcome; OnWalk(t, origin, Choose(t, c.Hears().Says(Asked(n.timeout, o)), n, k, o))
  {
    var o := c.inbox[0].outcome;
    var heard := c.Hears().Says(Asked(n.timeout, o));
    match o {
      case CallerGone => WalkLeavesMenu(t, origin, c, Asked(n.timeout, o), None, Gone, heard);
      case Pressed(key) =>
        WalkLeavesMenu(t, origin, c, Asked(n.timeout, o), KeyEdge(Outgoing(t, n.id), key), Rejecting(n.id, k), heard);
      case _ => WalkLeavesMenu(t, origin, c, Asked(n.timeout, o), FirstWith(Outgoing(t, n.id), Timeout), Leaving,
          heard);
    }
  }

  lemma WalkRejects(t: Topology, origin: string, c: Call, n: Node, k: nat)
    requires TargetsKnown(t) && OnWalk(t, origin, c) && c.place == Rejecting(n.id, k) && n.Ivr?
    ensures OnWalk(t, origin, Reject(t, c.Says(Played("invalid")), n, k))
  {
    var heard := c.Says(Played("invalid"));
    if (k + 1) as real >= n.invalidRetries {
      WalkLeavesMenu(t, origin, c, Played("invalid"), FirstWith(Outgoing(t, n.id), Invalid), Leaving, heard);
    } else {
      WalkLeavesMenu(t, origin, c, Played("invalid"), None, Greeting(n.id, k + 1), heard);
    }
  }

  lemma StaysTrying(c: Call, a: Attempt, next: Place)
    requires c.place.Ringing? && (next.Ringing? || next.GivingUp?) && next.id == c.place.id
    ensures Stays(c, AfterAttempt(c, a, next)) && Quiet(c, AfterAttempt(c, a, next))
  {
  }

  lemma StaysRinging(t: Topology, c: Call, n: Node, k: nat)
    requires c.place == Ringing(n.id, k)
    ensures Stays(c, Ring(t, c, n, k)) && Quiet(c, Ring(t, c, n, k))
  {
    if k < |Attempts(t, n)| {
      StaysTrying(c, Attempts(t, n)[k], NextRing(t, n, k));
    }
  }

  lemma StaysOutside(t: Topology, rule: OpeningRule, c: Call)
    requires Compilable(t) && !HasId(c.place)
    ensures Stays(c, Advance(t, rule, c))
  {
  }

  /** The steps that take no edge whatever happens. */
  lemma StaysInside(t: Topology, rule: OpeningRule, c: Call)
    requires Compilable(t) && (c.place.Queueing? || c.place.Greeting?)
    ensures Stays(c, Advance(t, rule, c))
  {
  }

  /** The steps of a menu place that is no menu, or that nothing happens to. */
  lemma StaysIdle(t: Topology, rule: OpeningRule, c: Call, n: Node)
    requires Compilable(t) && NodeById(t, n.id) == Some(n) && (c.place.Choosing? || c.place.Rejecting?)
    requires c.place.id == n.id && (!n.Ivr? || (c.place.Choosing? && c.inbox == []))
    ensures Stays(c, Advance(t, rule, c))
  {
  }

  lemma WalkStays(t: Topology, rule: OpeningRule, origin: string, c: Call)
    requires Compilable(t) && OnWalk(t, origin, c) && !c.place.Arriving? && Stays(c, Advance(t, rule, c))
    ensures OnWalk(t, origin, Advance(t, rule, c))
  {
    WalkGoesOn(t, origin, c, Advance(t, rule, c));
  }

  lemma WalkChoosing(t: Topology, rule: OpeningRule, origin: string, c: Call, n: Node, k: nat)
    requires Compilable(t) && TargetsKnown(t) && OnWalk(t, origin, c) && NodeById(t, n.id) == Some(n)
    requires c.place == Choosing(n.id, k)
    ensures OnWalk(t, origin, Advance(t, rule, c))
  {
    if n.Ivr? && c.inbox != [] {
      WalkChooses(t, origin, c, n, k);
    } else {
      StaysIdle(t, rule, c, n);
      WalkStays(t, rule, origin, c);
    }
  }

  lemma WalkRejecting(t: Topology, rule: OpeningRule, origin: string, c: Call, n: Node, k: nat)
    requires Compilable(t) && TargetsKnown(t) && OnWalk(t, origin, c) && NodeById(t, n.id) == Some(n)
    requires c.place == Rejecting(n.id, k)
    ensures OnWalk(t, origin, Advance(t, rule, c))
  {
    if n.Ivr? {
      WalkRejects(t, origin, c, n, k);
    } else {
      StaysIdle(t, rule, c, n);
      WalkStays(t, rule, origin, c);
    }
  }

  lemma WalkStep(t: Topology, rule: OpeningRule, origin: string, c: Call)
    requires Compilable(t) && TargetsKnown(t) && OnWalk(t, origin, c)
    ensures OnWalk(t, origin, Advance(t, rule, c))
  {
    if !HasId(c.place) {
      StaysOutside(t, rule, c);
      WalkStays(t, rule, origin, c);
    } else {
      var n := NodeById(t, c.place.id).value;
      match c.place
      case Arriving(_) => WalkArrives(t, rule, origin, c, n);
      case GivingUp(_) => WalkGivesUp(t, origin, c, n);
      case Ringing(_, k) =>
        StaysRinging(t, c, n, k);
        WalkStays(t, rule, origin, c);
      case Queueing(_) =>
        StaysInside(t, rule, c);
        WalkStays(t, rule, origin, c);
      case Greeting(_, _) =>
        StaysInside(t, rule, c);
        WalkStays(t, rule, origin, c);
      case Choosing(_, k) => WalkChoosing(t, rule, origin, c, n, k);
      case Rejecting(_, k) => WalkRejecting(t, rule, origin, c, n, k);
    }
  }

  lemma {:induction false} WalkSteps(t: Topology, rule: OpeningRule, origin: string, c: Call, k: nat)
    requires Compilable(t) && TargetsKnown(t) && OnWalk(t, origin, c)
    ensures OnWalk(t, origin, AdvanceN(t, rule, c, k))
    decreases k
  {
    if k > 0 {
      WalkStep(t, rule, origin, c);
      WalkSteps(t, rule, origin, Advance(t, rule, c), k - 1);
    }
  }

  // ---------------------------------------------------------------- exits are taken again and again

  /** The `count` edges from position i on include a timeout or invalid edge, if there are so many. */
  ghost predicate ExitsFrom(w: seq<Edge>, i: nat, count: nat)
  {
    i + count <= |w| ==> !ExitFree(w[i..i + count])
  }

  /** Among any `count` consecutive edges of the walk there is a timeout or invalid edge. */
  ghost predicate ExitsEvery(w: seq<Edge>, count: nat) { forall i: nat :: ExitsFrom(w, i, count) }

  lemma SliceOfWalk(t: Topology, w: seq<Edge>, i: nat, count: nat)
    requires IsTrail(w) && Within(w, t.edges) && i + count <= |w|
    ensures IsTrail(w[i..i + count]) && Within(w[i..i + count], t.edges)
  {
  }

  lemma SliceExits(t: Topology, w: seq<Edge>, i: nat)
    requires LongWalksExit(t) && t.nodes != [] && IsTrail(w) && Within(w, t.edges)
    ensures ExitsFrom(w, i, |t.nodes|)
  {
    if i + |t.nodes| <= |w| {
      SliceOfWalk(t, w, i, |t.nodes|);
    }
  }

  lemma WalkExits(t: Topology, w: seq<Edge>)
    requires LongWalksExit(t) && t.nodes != [] && IsTrail(w) && Within(w, t.edges)
    ensures ExitsEvery(w, |t.nodes|)
  {
    forall i: nat ensures ExitsFrom(w, i, |t.nodes|) {
      SliceExits(t, w, i);
    }
  }

  /** The edges taken by the call that did exactly what the first j steps of the machine did. */
  ghost predicate TakenBy(t: Topology, dp: Dialplan, c: Call, m: Machine, j: nat, w: seq<Edge>)
    requires Compilable(t)
  {
    exists k :: RunN(dp, m, j).trace == AdvanceN(t, AsCompiled, c, k).trace
                && w == AdvanceN(t, AsCompiled, c, k).taken
  }

  /** Every run of the machine from a node follows the walk of edges that its call takes, and enters its nodes. */
  lemma MachineFollowsWalk(t: Topology, dp: Dialplan, id: string, m: Machine, j: nat) returns (w: seq<Edge>)
    requires Sound(t, dp) && TargetsKnown(t) && NodeById(t, id).Some?
    requires m.at == Running(CALLFLOW, NodeName(id), 1) && m.trace == []
    ensures IsTrail(w) && Within(w, t.edges) && (w != [] ==> w[0].source == id)
    ensures var moves := Moves(RunN(dp, m, j).trace);
            moves == Stops(id, w) || exists last :: moves + [last] == Stops(id, w)
    ensures TakenBy(t, dp, StartCall(id, m.clock, m.inbox), m, j, w)
  {
    var c := StartCall(id, m.clock, m.inbox);
    var k := CallFollowsMachine(t, dp, c, m, j);
    assert Moves([]) == [];
    WalkSteps(t, AsCompiled, id, c, k);
    w := AdvanceN(t, AsCompiled, c, k).taken;
  }

  lemma EdgesReachNodes(t: Topology)
    requires EdgesOk(t)
    ensures TargetsKnown(t)
  {
    forall e | e in t.edges ensures NodeById(t, e.target).Some? {
      EdgeIsOk(t, e);
    }
  }

  /**
   * End to end: in the dialplan of an accepted topology without overlooked cycles every run from a node follows
   * the walk of edges its call takes, entering exactly the walk's nodes (or all but the last), and any |nodes|
   * consecutive edges of it include a timeout or invalid edge.
   */
  lemma CompiledCallsKeepTakingExits(env: Environment, t: Topology, id: string, vars: map<string, nat>, clock: Clock,
                                     inbox: seq<Event>, j: nat)
    returns (w: seq<Edge>)
    requires Accepted(env, t) && !Overlooked(t) && NodeById(t, id).Some?
    ensures Compilable(t) && IsTrail(w) && Within(w, t.edges) && (w != [] ==> w[0].source == id)
    ensures var moves := Moves(RunN(ExtensionsConf(t), StartMachine(id, vars, clock, inbox), j).trace);
            moves == Stops(id, w) || exists last :: moves + [last] == Stops(id, w)
    ensures TakenBy(t, ExtensionsConf(t), StartCall(id, clock, inbox), StartMachine(id, vars, clock, inbox), j, w)
    ensures ExitsEvery(w, |t.nodes|)
  {
    SoundFile(env, t);
    EdgesReachNodes(t);
    w := MachineFollowsWalk(t, ExtensionsConf(t), id, StartMachine(id, vars, clock, inbox), j);
    AcceptedWalksExit(env, t);
    WalkExits(t, w);
  }

  /** Which holds, in particular, for edge ids without commas and a search that was not cut short. */
  lemma CommaFreeCallsKeepTakingExits(env: Environment, t: Topology, id: string, vars: map<string, nat>, clock: Clock,
                                      inbox: seq<Event>, j: nat)
    returns (w: seq<Edge>)
    requires Accepted(env, t) && CommaFree(t) && !Truncated(t) && NodeById(t, id).Some?
    ensures Compilable(t) && IsTrail(w) && Within(w, t.edges) && (w != [] ==> w[0].source == id)
    ensures var moves := Moves(RunN(ExtensionsConf(t), StartMachine(id, vars, clock, inbox), j).trace);
            moves == Stops(id, w) || exists last :: moves + [last] == Stops(id, w)
    ensures TakenBy(t, ExtensionsConf(t), StartCall(id, clock, inbox), StartMachine(id, vars, clock, inbox), j, w)
    ensures ExitsEvery(w, |t.nodes|)
  {
    WellFormedIds(env, t);
    CommaFreeOverlooksNothing(t);
    w := CompiledCallsKeepTakingExits(env, t, id, vars, clock, inbox, j);
  }

  // ---------------------------------------------------------------- wrong keys

  /** How often "invalid" was played since the last node was entered. */
  ghost function Rejections(trace: seq<Action>): nat
  {
    if trace == [] || trace[|trace| - 1].Entered? then 0
    else Rejections(trace[..|trace| - 1]) + if trace[|trace| - 1].Played? then 1 else 0
  }

  lemma RejectionsSnoc(trace: seq<Action>, a: Action)
    ensures Rejections(trace + [a]) == if a.Entered? then 0 else Rejections(trace) + if a.Played? then 1 else 0
  {
    assert (trace + [a])[..|trace|] == trace;
  }

  /** The menu entered last has not rejected more keys than its limit allows. */
  ghost predicate WithinRetries(t: Topology, trace: seq<Action>)
  {
    Rejections(trace) == 0 || exists n :: n in t.nodes && AllowsRejections(n, trace)
  }

  ghost predicate AllowsRejections(n: Node, trace: seq<Action>)
  {
    && n.Ivr? && Moves(trace) != [] && Moves(trace)[|Moves(trace)| - 1] == NodeName(n.id)
    && Rejections(trace) >= 1 && (Rejections(trace) - 1) as real < n.invalidRetries
  }

  ghost predicate InMenu(p: Place) { p.Greeting? || p.Choosing? || p.Rejecting? }

  ghost predicate CountsRejections(t: Topology, c: Call)
  {
    && WithinRetries(t, c.trace)
    && (InMenu(c.place) ==>
          && NodeById(t, c.place.id).Some? && NodeById(t, c.place.id).value.Ivr?
          && Rejections(c.trace) == c.place.invalid
              && c.place.invalid as real < NodeById(t, c.place.id).value.invalidRetries
          && Moves(c.trace) != [] && Moves(c.trace)[|Moves(c.trace)| - 1] == NodeName(c.place.id))
  }

  ghost predicate RetriesPositive(t: Topology) { forall n | n in t.nodes && n.Ivr? :: n.invalidRetries >= 1.0 }

  lemma QuietKeepsRetries(t: Topology, trace: seq<Action>, a: Action)
    requires WithinRetries(t, trace) && !a.Entered? && !a.Played?
    ensures WithinRetries(t, trace + [a]) && Rejections(trace + [a]) == Rejections(trace)
            && Moves(trace + [a]) == Moves(trace)
  {
    RejectionsSnoc(trace, a);
    MovesSnoc(trace, a);
    if Rejections(trace) != 0 {
      var n :| n in t.nodes && AllowsRejections(n, trace);
      assert AllowsRejections(n, trace + [a]);
    }
  }

  lemma ArriveShape(t: Topology, rule: OpeningRule, c: Call, n: Node)
    requires Translatable(n)
    ensures Arrive(t, rule, c, n).trace == c.trace
    ensures InMenu(Arrive(t, rule, c, n).place) ==> n.Ivr? && Arrive(t, rule, c, n).place == Greeting(n.id, 0)
  {
  }

  lemma RetriesArrive(t: Topology, rule: OpeningRule, c: Call, n: Node)
    requires Compilable(t) && RetriesPositive(t) && NodeById(t, n.id) == Some(n) && c.place == Arriving(n.id)
    ensures CountsRejections(t, Advance(t, rule, c))
  {
    var entered := c.Says(Entered(NodeName(n.id)));
    ArriveShape(t, rule, entered, n);
    RejectionsSnoc(c.trace, Entered(NodeName(n.id)));
    MovesSnoc(c.trace, Entered(NodeName(n.id)));
    assert Advance(t, rule, c) == Arrive(t, rule, entered, n);
  }

  lemma RetriesReject(t: Topology, c: Call, n: Node, k: nat)
    requires CountsRejections(t, c) && NodeById(t, n.id) == Some(n) && n.Ivr? && c.place == Rejecting(n.id, k)
    ensures CountsRejections(t, Reject(t, c.Says(Played("invalid")), n, k))
  {
    RejectionsSnoc(c.trace, Played("invalid"));
    MovesSnoc(c.trace, Played("invalid"));
    assert AllowsRejections(n, c.trace + [Played("invalid")]);
  }

  lemma RetriesQuiet(t: Topology, c: Call, next: Call)
    requires CountsRejections(t, c)
    requires Quiet(c, next)
    ensures CountsRejections(t, next)
  {
    if next.trace != c.trace {
      var a := next.trace[|c.trace|];
      assert next.trace == c.trace + [a];
      QuietKeepsRetries(t, c.trace, a);
    }
  }

  /** A step that adds at most one action, no move and no rejection, and starts no menu. */
  ghost predicate Quiet(c: Call, next: Call)
  {
    && (next.trace == c.trace
        || (Adds(c.trace, next.trace) && !next.trace[|c.trace|].Entered? && !next.trace[|c.trace|].Played?))
    && (InMenu(next.place) ==> InMenu(c.place) && next.place.id == c.place.id && next.place.invalid == c.place.invalid)
  }

  lemma QuietGiveUp(t: Topology, c: Call, n: Node)
    ensures Quiet(c, GiveUp(t, c, n))
  {
  }

  lemma QuietChoose(t: Topology, c: Call, n: Node, k: nat)
    requires n.Ivr? && c.place == Choosing(n.id, k) && c.inbox != []
    ensures var o := c.inbox[0].outcome; Quiet(c, Choose(t, c.Hears().Says(Asked(n.timeout, o)), n, k, o))
  {
  }

  lemma QuietShape(t: Topology, rule: OpeningRule, c: Call)
    requires Compilable(t) && !c.place.Rejecting? && (c.place.Arriving? ==> NodeById(t, c.place.id).None?)
    ensures Quiet(c, Advance(t, rule, c))
  {
    if HasId(c.place) && NodeById(t, c.place.id).Some? {
      var n := NodeById(t, c.place.id).value;
      if c.place.Ringing? {
        StaysRinging(t, c, n, c.place.attempt);
      }
      QuietGiveUp(t, c, n);
      if c.place.Choosing? && n.Ivr? && c.inbox != [] {
        QuietChoose(t, c, n, c.place.invalid);
      }
    }
  }

  lemma RetriesStep(t: Topology, rule: OpeningRule, c: Call)
    requires Compilable(t) && RetriesPositive(t) && CountsRejections(t, c)
    ensures CountsRejections(t, Advance(t, rule, c))
  {
    if c.place.Rejecting? {
      RetriesReject(t, c, NodeById(t, c.place.id).value, c.place.invalid);
    } else if c.place.Arriving? && NodeById(t, c.place.id).Some? {
      RetriesArrive(t, rule, c, NodeById(t, c.place.id).value);
    } else {
      QuietShape(t, rule, c);
      RetriesQuiet(t, c, Advance(t, rule, c));
    }
  }

  lemma {:induction false} RetriesSteps(t: Topology, rule: OpeningRule, c: Call, k: nat)
    requires Compilable(t) && RetriesPositive(t) && CountsRejections(t, c)
    ensures CountsRejections(t, AdvanceN(t, rule, c, k))
    decreases k
  {
    if k > 0 {
      RetriesStep(t, rule, c);
      RetriesSteps(t, rule, Advance(t, rule, c), k - 1);
    }
  }

  lemma PositiveRetries(env: Environment, t: Topology)
    requires NodesOk(env, t.nodes)
    ensures RetriesPositive(t)
  {
    forall n | n in t.nodes && n.Ivr? ensures n.invalidRetries >= 1.0 {
      var i := NodeInOrder(t, n);
      assert NodeOk(env, t.nodes[i]);
    }
  }

  /** Call and machine correspond, and the call's counts are right. */
  ghost predicate Counting(t: Topology, dp: Dialplan, c: Call, m: Machine)
  {
    Sound(t, dp) && Related(t, dp, c, m) && RetriesPositive(t) && CountsRejections(t, c)
  }

  lemma StartsCounting(env: Environment, t: Topology, id: string, vars: map<string, nat>, clock: Clock,
                       inbox: seq<Event>)
    requires WellFormed(env, t) && NodeById(t, id).Some?
    ensures Compilable(t)
    ensures Counting(t, ExtensionsConf(t), StartCall(id, clock, inbox), StartMachine(id, vars, clock, inbox))
  {
    SoundFile(env, t);
    PositiveRetries(env, t);
  }

  lemma MachineWithinRetries(t: Topology, dp: Dialplan, c: Call, m: Machine, j: nat)
    requires Counting(t, dp, c, m)
    ensures WithinRetries(t, RunN(dp, m, j).trace)
  {
    var k := CallFollowsMachine(t, dp, c, m, j);
    RetriesSteps(t, AsCompiled, c, k);
  }

  /**
   * In every run of the compiled dialplan, the menu entered last has played "invalid" fewer than
   * invalidRetries + 1 times since it was entered: at most N times for a whole number N.
   */
  lemma CompiledRetriesAreBounded(env: Environment, t: Topology, id: string, vars: map<string, nat>, clock: Clock,
                                  inbox: seq<Event>, j: nat)
    requires WellFormed(env, t) && NodeById(t, id).Some?
    ensures Compilable(t)
    ensures WithinRetries(t, RunN(ExtensionsConf(t), StartMachine(id, vars, clock, inbox), j).trace)
  {
    StartsCounting(env, t, id, vars, clock, inbox);
    MachineWithinRetries(t, ExtensionsConf(t), StartCall(id, clock, inbox), StartMachine(id, vars, clock, inbox), j);
  }

  ghost predicate CountsKeys(c: Call, m: Machine)
  {
    && m.trace == c.trace
    && (InMenu(c.place) ==> RetryVar(c.place.id) in m.vars && m.vars[RetryVar(c.place.id)] == Rejections(m.trace))
  }

  lemma RelatedCounts(t: Topology, dp: Dialplan, c: Call, m: Machine)
    requires Related(t, dp, c, m) && CountsRejections(t, c)
    ensures CountsKeys(c, m)
  {
    assert InMenu(c.place) ==> NodeById(t, c.place.id).value.id == c.place.id;
  }

  lemma MachineCountsKeys(t: Topology, dp: Dialplan, c: Call, m: Machine, k: nat) returns (j: nat)
    requires Counting(t, dp, c, m)
    ensures j >= k && CountsKeys(AdvanceN(t, AsCompiled, c, k), RunN(dp, m, j))
  {
    j := MachineFollowsCall(t, dp, c, m, k);
    RetriesSteps(t, AsCompiled, c, k);
    RelatedCounts(t, dp, AdvanceN(t, AsCompiled, c, k), RunN(dp, m, j));
  }

  /**
   * Whatever the machine's variables held before, whenever the call is in a menu the retry variable of
   * that menu equals the number of wrong keys since it was entered.
   */
  lemma RetryVariableCounts(env: Environment, t: Topology, id: string, vars: map<string, nat>, clock: Clock,
                            inbox: seq<Event>, k: nat)
    returns (j: nat)
    requires WellFormed(env, t) && NodeById(t, id).Some?
    ensures Compilable(t) && j >= k
    ensures CountsKeys(AdvanceN(t, AsCompiled, StartCall(id, clock, inbox), k),
                       RunN(ExtensionsConf(t), StartMachine(id, vars, clock, inbox), j))
  {
    StartsCounting(env, t, id, vars, clock, inbox);
    j := MachineCountsKeys(t, ExtensionsConf(t), StartCall(id, clock, inbox), StartMachine(id, vars, clock, inbox), k);
  }
}
