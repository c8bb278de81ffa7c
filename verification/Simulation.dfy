/** The generated dialplan and the meaning of the topology run in lockstep. */
module Simulation {
  import opened Text
  import opened Topologies
  import opened Schedules
  import opened Dialplans
  import opened Generator
  import opened ScheduleTranslation
  import opened Callflow
  import opened Linking

  // ---------------------------------------------------------------- silent stretches of a run

  /** n steps lead from m to k, and on the way the trace is one of two. */
  ghost predicate Reaches(dp: Dialplan, m: Machine, n: nat, k: Machine, before: seq<Action>, after: seq<Action>)
  {
    RunN(dp, m, n) == k && forall j: nat | j <= n :: RunN(dp, m, j).trace == before || RunN(dp, m, j).trace == after
  }

  lemma ReachHere(dp: Dialplan, m: Machine, before: seq<Action>, after: seq<Action>)
    requires m.trace == before || m.trace == after
    ensures Reaches(dp, m, 0, m, before, after)
  {
  }

  lemma ReachNext(dp: Dialplan, m: Machine, n: nat, k: Machine, before: seq<Action>, after: seq<Action>)
    requires Reaches(dp, Run1(dp, m), n, k, before, after) && (m.trace == before || m.trace == after)
    ensures Reaches(dp, m, n + 1, k, before, after)
  {
    forall j: nat | j <= n + 1 ensures RunN(dp, m, j).trace == before || RunN(dp, m, j).trace == after {
      if j > 0 {
        assert RunN(dp, m, j) == RunN(dp, Run1(dp, m), j - 1);
      }
    }
  }

  lemma ReachOne(dp: Dialplan, m: Machine, k: Machine)
    requires k == Run1(dp, m)
    ensures Reaches(dp, m, 1, k, m.trace, k.trace)
  {
    ReachHere(dp, k, m.trace, k.trace);
    ReachNext(dp, m, 0, k, m.trace, k.trace);
  }

  lemma ReachTwo(dp: Dialplan, m: Machine, k1: Machine, k2: Machine)
    requires k1 == Run1(dp, m) && k2 == Run1(dp, k1) && (k1.trace == m.trace || k1.trace == k2.trace)
    ensures Reaches(dp, m, 2, k2, m.trace, k2.trace)
  {
    ReachHere(dp, k2, m.trace, k2.trace);
    ReachNext(dp, k1, 0, k2, m.trace, k2.trace);
    ReachNext(dp, m, 1, k2, m.trace, k2.trace);
  }

  lemma ReachThree(dp: Dialplan, m: Machine, k1: Machine, k2: Machine, k3: Machine)
    requires k1 == Run1(dp, m) && k2 == Run1(dp, k1) && k3 == Run1(dp, k2)
    requires (k1.trace == m.trace || k1.trace == k3.trace) && (k2.trace == m.trace || k2.trace == k3.trace)
    ensures Reaches(dp, m, 3, k3, m.trace, k3.trace)
  {
    ReachHere(dp, k3, m.trace, k3.trace);
    ReachNext(dp, k2, 0, k3, m.trace, k3.trace);
    ReachNext(dp, k1, 1, k3, m.trace, k3.trace);
    ReachNext(dp, m, 2, k3, m.trace, k3.trace);
  }

  /** Conditional jumps take the machine, without a sound, to where the first match leads. */
  lemma {:induction false} ReachDecision(dp: Dialplan, m: Machine, steps: seq<Step>, k: nat, target: Target)
    returns (n: nat)
    requires m.at.Running? && StepsOf(dp, m.at.context, m.at.exten) == Some(steps) && m.at.priority == k + 1
    requires Decide(steps, k, m.clock) == Some(target)
    ensures Reaches(dp, m, n, m.Goes(Resolve(dp, target)), m.trace, m.trace) && n <= |steps| - k
    decreases |steps| - k
  {
    var next := Run1(dp, m);
    if Decide(steps, k + 1, m.clock) == Some(target) && next == m.Next() {
      n := ReachDecision(dp, next, steps, k + 1, target);
      ReachNext(dp, m, n, m.Goes(Resolve(dp, target)), m.trace, m.trace);
      n := n + 1;
    } else {
      assert next == m.Goes(Resolve(dp, target));
      ReachOne(dp, m, next);
      n := 1;
    }
  }

  // ---------------------------------------------------------------- corresponding places

  /** Position p of the node's own steps, in the callflow context or behind the extension's number. */
  ghost predicate Home(n: Node, at: Cursor, p: nat)
  {
    at == Running(CALLFLOW, NodeName(n.id), p) || (n.Extension? && at == Running("internal", n.number, p))
  }

  ghost predicate Counts(n: Node, at: Cursor, exten: string, p: nat, vars: map<string, nat>, invalid: nat)
  {
    n.Ivr? && at == Running(IvrContext(n.id), exten, p) && RetryVar(n.id) in vars && vars[RetryVar(n.id)] == invalid
  }

  ghost predicate AtNode(t: Topology, n: Node, p: Place, at: Cursor, vars: map<string, nat>)
  {
    match p
    case Arriving(_) => at == Running(CALLFLOW, NodeName(n.id), 1)
    case Ringing(_, k) => (n.Extension? || n.RingGroup?) && k < |Attempts(t, n)| && Home(n, at, 2 + k)
    case Queueing(_) => n.Queue? && Home(n, at, 2)
    case GivingUp(_) =>
      || ((n.Extension? || n.RingGroup?) && Home(n, at, 2 + |Attempts(t, n)|))
      || (n.Queue? && Home(n, at, 3))
    case Greeting(_, invalid) => Counts(n, at, "s", 3, vars, invalid)
    case Choosing(_, invalid) => Counts(n, at, "s", 4, vars, invalid)
    case Rejecting(_, invalid) => Counts(n, at, "i", 1, vars, invalid)
    case _ => false
  }

  ghost predicate At(t: Topology, dp: Dialplan, p: Place, at: Cursor, vars: map<string, nat>)
  {
    match p
    case Gone => at.Ended?
    case Leaving => Fetch(dp, at) == Some(Hangup)
    case Recording(mailbox) =>
      at.Running? && Fetch(dp, at) == Some(VoiceMail(mailbox))
          && Fetch(dp, at.(priority := at.priority + 1)) == Some(Hangup)
    case _ => NodeById(t, p.id).Some? && AtNode(t, NodeById(t, p.id).value, p, at, vars)
  }

  /** The same time, the same future and the same past. */
  ghost predicate Alike(c: Call, m: Machine) { c.clock == m.clock && c.inbox == m.inbox && c.trace == m.trace }

  ghost predicate Related(t: Topology, dp: Dialplan, c: Call, m: Machine)
  {
    Alike(c, m) && At(t, dp, c.place, m.at, m.vars)
  }

  ghost predicate Sound(t: Topology, dp: Dialplan)
  {
    Compilable(t) && forall n | n in t.nodes :: NodeSound(t, n) && Linked(t, dp, n)
  }

  /** The machine follows one step of the call by at least one step of its own. */
  ghost predicate Follows(t: Topology, dp: Dialplan, c: Call, m: Machine, n: nat)
  {
    n >= 1 && Related(t, dp, c, RunN(dp, m, n)) && Reaches(dp, m, n, RunN(dp, m, n), m.trace, c.trace)
  }

  lemma FollowOne(t: Topology, dp: Dialplan, d: Call, m: Machine, k: Machine)
    requires Run1(dp, m) == k && Related(t, dp, d, k)
    ensures Follows(t, dp, d, m, 1)
  {
    ReachOne(dp, m, k);
  }

  lemma FollowTwo(t: Topology, dp: Dialplan, d: Call, m: Machine, k1: Machine, k2: Machine)
    requires Run1(dp, m) == k1 && Run1(dp, k1) == k2 && k1.trace == k2.trace && Related(t, dp, d, k2)
    ensures Follows(t, dp, d, m, 2)
  {
    ReachTwo(dp, m, k1, k2);
  }

  lemma FollowThree(t: Topology, dp: Dialplan, d: Call, m: Machine, k1: Machine, k2: Machine, k3: Machine)
    requires Run1(dp, m) == k1 && Run1(dp, k1) == k2 && Run1(dp, k2) == k3
    requires (k1.trace == m.trace || k1.trace == k3.trace) && k2.trace == k3.trace && Related(t, dp, d, k3)
    ensures Follows(t, dp, d, m, 3)
  {
    ReachThree(dp, m, k1, k2, k3);
  }

  /** An edge taken by the call is a jump of the machine. */
  lemma EdgeTaken(t: Topology, dp: Dialplan, c: Call, e: Edge, m: Machine)
    requires Alike(c, m) && NodeById(t, e.target).Some?
    ensures Related(t, dp, c.Follows(e), m.Goes(Running(CALLFLOW, NodeName(e.target), 1)))
  {
  }

  // ---------------------------------------------------------------- one lemma per kind of place

  lemma FollowLast(t: Topology, dp: Dialplan, c: Call, m: Machine)
    requires Compilable(t) && Related(t, dp, c, m) && (c.place.Leaving? || c.place.Recording? || c.place.Gone?)
    ensures Follows(t, dp, Advance(t, AsCompiled, c), m, 1)
  {
    ReachOne(dp, m, Run1(dp, m));
  }

  lemma FetchHome(t: Topology, dp: Dialplan, n: Node, at: Cursor, p: nat)
    requires Translatable(n) && Linked(t, dp, n) && Home(n, at, p) && 1 <= p <= |CallflowSteps(t, n).value|
    ensures Fetch(dp, at) == Some(CallflowSteps(t, n).value[p - 1].app)
  {
  }

  /** An extension or ring group: first its attempts, then the steps taken when nobody was reached. */
  lemma RingSteps(t: Topology, n: Node)
    requires NodeSound(t, n) && (n.Extension? || n.RingGroup?)
    ensures Attempts(t, n) != []
    ensures CallflowSteps(t, n)
            == Some([Line(NoOp)] + DialSteps(Attempts(t, n))
                    + Finish(FallbackEdge(Outgoing(t, n.id)), if n.Extension? then OwnMailbox(n) else ""))
  {
    if n.RingGroup? {
      var devices := Devices(MembersOf(t, n.id));
      if n.strategy == "ringall" {
        assert RingGroupDialLines(t, n) == DialSteps([Attempt(devices, n.ringTimeout)]);
      } else {
        EachDialled(devices, n.ringTimeout);
      }
    } else {
      var finish := Finish(FallbackEdge(Outgoing(t, n.id)), OwnMailbox(n));
      assert DialSteps(Attempts(t, n)) == [Line(Dial([Device(n)], 20.0))];
      assert [Line(NoOp), Line(Dial([Device(n)], 20.0))] + finish
             == [Line(NoOp)] + [Line(Dial([Device(n)], 20.0))] + finish;
    }
  }

  function DialSteps(attempts: seq<Attempt>): (r: seq<Step>)
    ensures |r| == |attempts|
    ensures forall k | 0 <= k < |r| :: r[k] == Line(Dial(attempts[k].devices, attempts[k].seconds))
  {
    if attempts == [] then [] else [Line(Dial(attempts[0].devices, attempts[0].seconds))] + DialSteps(attempts[1..])
  }

  lemma EachDialled(devices: seq<string>, seconds: real)
    ensures DialEach(devices, seconds) == DialSteps(AttemptEach(devices, seconds))
  {
  }

  lemma RingStep(t: Topology, n: Node, k: nat)
    requires NodeSound(t, n) && (n.Extension? || n.RingGroup?) && k < |Attempts(t, n)|
    ensures CallflowSteps(t, n).Some? && 1 + k < |CallflowSteps(t, n).value|
    ensures CallflowSteps(t, n).value[1 + k] == Line(Dial(Attempts(t, n)[k].devices, Attempts(t, n)[k].seconds))
  {
    RingSteps(t, n);
    var finish := Finish(FallbackEdge(Outgoing(t, n.id)), if n.Extension? then OwnMailbox(n) else "");
    DialAt(DialSteps(Attempts(t, n)), finish, k);
  }

  lemma DialAt(dials: seq<Step>, finish: seq<Step>, k: nat)
    requires k < |dials|
    ensures ([Line(NoOp)] + dials + finish)[1 + k] == dials[k]
  {
  }

  lemma FetchRinging(t: Topology, dp: Dialplan, n: Node, at: Cursor, k: nat)
    requires NodeSound(t, n) && Linked(t, dp, n) && (n.Extension? || n.RingGroup?)
    requires k < |Attempts(t, n)| && Home(n, at, 2 + k)
    ensures Fetch(dp, at) == Some(Dial(Attempts(t, n)[k].devices, Attempts(t, n)[k].seconds))
  {
    RingStep(t, n, k);
    FetchHome(t, dp, n, at, 2 + k);
  }

  lemma DialMachine(dp: Dialplan, m: Machine, a: Attempt)
    requires m.at.Running? && Fetch(dp, m.at) == Some(Dial(a.devices, a.seconds))
    ensures m.inbox == [] ==> Run1(dp, m) == m
    ensures m.inbox != [] ==>
              var o := m.inbox[0].outcome;
              Run1(dp, m) == m.Hears().Says(Dialled(a.devices, a.seconds, o)).Goes(
                if EndsCall(o) then Ended else m.Next().at)
  {
  }

  lemma AdvanceRinging(t: Topology, c: Call, n: Node, k: nat)
    requires Compilable(t) && NodeById(t, n.id) == Some(n) && c.place == Ringing(n.id, k) && k < |Attempts(t, n)|
    ensures Advance(t, AsCompiled, c) == AfterAttempt(c, Attempts(t, n)[k], NextRing(t, n, k))
  {
  }

  lemma HomeNext(n: Node, at: Cursor, p: nat)
    requires Home(n, at, p)
    ensures at.Running? && Home(n, at.(priority := at.priority + 1), p + 1)
  {
  }

  lemma RingingAt(t: Topology, dp: Dialplan, n: Node, at: Cursor, vars: map<string, nat>, k: nat)
    requires NodeById(t, n.id) == Some(n) && (n.Extension? || n.RingGroup?)
    requires k < |Attempts(t, n)| && Home(n, at, 2 + k)
    ensures At(t, dp, Ringing(n.id, k), at, vars)
  {
  }

  lemma GivingUpAt(t: Topology, dp: Dialplan, n: Node, at: Cursor, vars: map<string, nat>)
    requires NodeById(t, n.id) == Some(n) && (n.Extension? || n.RingGroup?) && Home(n, at, 2 + |Attempts(t, n)|)
    ensures At(t, dp, GivingUp(n.id), at, vars)
  {
  }

  lemma RingsOn(t: Topology, dp: Dialplan, n: Node, at: Cursor, vars: map<string, nat>, k: nat)
    requires NodeById(t, n.id) == Some(n) && (n.Extension? || n.RingGroup?)
    requires k < |Attempts(t, n)| && Home(n, at, 2 + k)
    ensures at.Running? && At(t, dp, NextRing(t, n, k), at.(priority := at.priority + 1), vars)
  {
    HomeNext(n, at, 2 + k);
    if k + 1 < |Attempts(t, n)| {
      RingingAt(t, dp, n, at.(priority := at.priority + 1), vars, k + 1);
    } else {
      GivingUpAt(t, dp, n, at.(priority := at.priority + 1), vars);
    }
  }

  /** The place of a ringing call. */
  lemma WhereItRings(t: Topology, dp: Dialplan, c: Call, m: Machine, n: Node)
    requires Related(t, dp, c, m) && NodeById(t, n.id) == Some(n) && c.place.Ringing? && c.place.id == n.id
    ensures Alike(c, m) && (n.Extension? || n.RingGroup?)
    ensures c.place.attempt < |Attempts(t, n)| && Home(n, m.at, 2 + c.place.attempt)
  {
  }

  /** Call and machine hear the same thing and go on to corresponding places. */
  lemma BothHear(t: Topology, dp: Dialplan, c: Call, m: Machine, a: Action, p: Place, at: Cursor)
    requires Alike(c, m) && c.inbox != [] && At(t, dp, p, at, m.vars)
    requires Run1(dp, m) == m.Hears().Says(a).Goes(at)
    ensures Follows(t, dp, c.Hears().Says(a).Goes(p), m, 1)
  {
    FollowOne(t, dp, c.Hears().Says(a).Goes(p), m, m.Hears().Says(a).Goes(at));
  }

  lemma FollowAttempt(t: Topology, dp: Dialplan, c: Call, m: Machine, a: Attempt, next: Place)
    requires Related(t, dp, c, m) && Alike(c, m) && m.at.Running? && Fetch(dp, m.at) == Some(Dial(a.devices, a.seconds))
    requires At(t, dp, next, m.Next().at, m.vars)
    ensures Follows(t, dp, AfterAttempt(c, a, next), m, 1)
  {
    DialMachine(dp, m, a);
    if c.inbox == [] {
      FollowOne(t, dp, c, m, m);
    } else {
      var o := c.inbox[0].outcome;
      BothHear(t, dp, c, m, Dialled(a.devices, a.seconds, o), if EndsCall(o) then Gone else next,
               if EndsCall(o) then Ended else m.Next().at);
    }
  }

  lemma FollowRinging(t: Topology, dp: Dialplan, c: Call, m: Machine, n: Node)
    requires Compilable(t) && NodeById(t, n.id) == Some(n)
    requires Related(t, dp, c, m) && c.place.Ringing? && c.place.id == n.id
    requires var a := Attempts(t, n)[c.place.attempt]; Fetch(dp, m.at) == Some(Dial(a.devices, a.seconds))
    ensures Follows(t, dp, Advance(t, AsCompiled, c), m, 1)
  {
    var k := c.place.attempt;
    WhereItRings(t, dp, c, m, n);
    AdvanceRinging(t, c, n, k);
    RingsOn(t, dp, n, m.at, m.vars, k);
    FollowAttempt(t, dp, c, m, Attempts(t, n)[k], NextRing(t, n, k));
  }

  lemma FetchQueueing(t: Topology, dp: Dialplan, n: Node, at: Cursor)
    requires NodeSound(t, n) && Linked(t, dp, n) && n.Queue? && Home(n, at, 2)
    ensures Fetch(dp, at) == Some(EnterQueue(Sanitize(n.id), n.maxWaitTime))
  {
    FetchHome(t, dp, n, at, 2);
  }

  lemma FollowQueueing(t: Topology, dp: Dialplan, c: Call, m: Machine, n: Node)
    requires Compilable(t) && NodeById(t, n.id) == Some(n) && n.Queue?
    requires Related(t, dp, c, m) && c.place.Queueing? && c.place.id == n.id
    requires Fetch(dp, m.at) == Some(EnterQueue(Sanitize(n.id), n.maxWaitTime))
    ensures Follows(t, dp, Advance(t, AsCompiled, c), m, 1)
  {
    ReachOne(dp, m, Run1(dp, m));
  }

  /** The only outgoing edge is the one the generator falls back to. */
  lemma FallbackIsOnlyEdge(t: Topology, n: Node)
    requires NodeSound(t, n) && (n.Extension? || n.RingGroup? || n.Queue?)
    ensures FallbackEdge(Outgoing(t, n.id)) == if Outgoing(t, n.id) == [] then None else Some(Outgoing(t, n.id)[0])
  {
    if Outgoing(t, n.id) != [] {
      assert Outgoing(t, n.id)[0] in Outgoing(t, n.id);
    }
  }

  /** What the dialplan does when nobody was reached, and what it does after taking a message. */
  ghost predicate FetchesFinish(t: Topology, dp: Dialplan, n: Node, at: Cursor)
  {
    && at.Running?
    && var edges := Outgoing(t, n.id);
       if edges != [] then Fetch(dp, at) == Some(Goto(ToNode(edges[0].target)))
       else if n.Extension? && n.voicemail.Some? && n.voicemail.value.enabled then
         && Fetch(dp, at) == Some(VoiceMail(n.voicemail.value.mailbox))
         && Fetch(dp, at.(priority := at.priority + 1)) == Some(Hangup)
       else Fetch(dp, at) == Some(Hangup)
  }

  lemma FetchGivingUp(t: Topology, dp: Dialplan, n: Node, at: Cursor, steps: seq<Step>, p: nat, finish: seq<Step>)
    requires NodeSound(t, n) && Linked(t, dp, n) && (n.Extension? || n.RingGroup? || n.Queue?)
    requires CallflowSteps(t, n) == Some(steps) && 1 <= p && |steps| == p - 1 + |finish| && steps[p - 1..] == finish
    requires finish == Finish(FallbackEdge(Outgoing(t, n.id)), if n.Extension? then OwnMailbox(n) else "")
    requires Home(n, at, p)
    ensures FetchesFinish(t, dp, n, at)
  {
    FallbackIsOnlyEdge(t, n);
    assert steps[p - 1] == finish[0];
    FetchHome(t, dp, n, at, p);
    if |finish| == 2 {
      assert steps[p] == finish[1];
      FetchHome(t, dp, n, at.(priority := p + 1), p + 1);
    }
  }

  lemma GivingUpSteps(t: Topology, n: Node) returns (p: nat, steps: seq<Step>, finish: seq<Step>)
    requires NodeSound(t, n) && (n.Extension? || n.RingGroup? || n.Queue?)
    ensures p == if n.Queue? then 3 else 2 + |Attempts(t, n)|
    ensures finish == Finish(FallbackEdge(Outgoing(t, n.id)), if n.Extension? then OwnMailbox(n) else "")
    ensures CallflowSteps(t, n) == Some(steps) && |steps| == p - 1 + |finish| && steps[p - 1..] == finish
  {
    steps := CallflowSteps(t, n).value;
    finish := Finish(FallbackEdge(Outgoing(t, n.id)), if n.Extension? then OwnMailbox(n) else "");
    if n.Queue? {
      p := 3;
    } else {
      RingSteps(t, n);
      p := 2 + |Attempts(t, n)|;
    }
  }

  lemma AdvanceGivingUp(t: Topology, c: Call, n: Node)
    requires Compilable(t) && NodeById(t, n.id) == Some(n) && c.place == GivingUp(n.id)
    ensures Advance(t, AsCompiled, c) == GiveUp(t, c, n)
  {
  }

  lemma FollowGivingUp(t: Topology, dp: Dialplan, c: Call, m: Machine, n: Node)
    requires Compilable(t) && NodeById(t, n.id) == Some(n)
    requires forall e | e in Outgoing(t, n.id) :: NodeById(t, e.target).Some?
    requires Related(t, dp, c, m) && c.place == GivingUp(n.id) && FetchesFinish(t, dp, n, m.at)
    ensures Follows(t, dp, Advance(t, AsCompiled, c), m, 1)
  {
    AdvanceGivingUp(t, c, n);
    var edges := Outgoing(t, n.id);
    if edges != [] {
      assert edges[0] in edges;
      FallBack(t, dp, c, m, edges[0]);
    } else {
      NobodyThere(t, dp, c, m, n);
    }
  }

  /** A jump to the target of an edge. */
  lemma FallBack(t: Topology, dp: Dialplan, c: Call, m: Machine, e: Edge)
    requires Alike(c, m) && NodeById(t, e.target).Some? && m.at.Running?
             && Fetch(dp, m.at) == Some(Goto(ToNode(e.target)))
    ensures Follows(t, dp, c.Follows(e), m, 1)
  {
    EdgeTaken(t, dp, c, e, m);
    FollowOne(t, dp, c.Follows(e), m, m.Goes(Running(CALLFLOW, NodeName(e.target), 1)));
  }

  /** A message, if the phone has a mailbox, and the end of the call. */
  lemma NobodyThere(t: Topology, dp: Dialplan, c: Call, m: Machine, n: Node)
    requires Alike(c, m) && Outgoing(t, n.id) == [] && FetchesFinish(t, dp, n, m.at)
    ensures Follows(t, dp, GiveUp(t, c, n), m, 1)
  {
    FollowOne(t, dp, GiveUp(t, c, n), m, Run1(dp, m));
  }

  // ---------------------------------------------------------------- arriving at a node

  lemma FetchArriving(t: Topology, dp: Dialplan, n: Node, m: Machine)
    requires NodeSound(t, n) && Linked(t, dp, n) && m.at == Running(CALLFLOW, NodeName(n.id), 1)
    ensures Run1(dp, m) == m.Next().Says(Entered(NodeName(n.id)))
  {
    var steps := CallflowSteps(t, n).value;
    if n.Extension? || n.RingGroup? {
      RingSteps(t, n);
    }
    assert steps[0] == Line(NoOp);
    FetchHome(t, dp, n, m.at, 1);
  }

  lemma FollowArrivingPlain(t: Topology, dp: Dialplan, c: Call, m: Machine, n: Node)
    requires Compilable(t) && NodeById(t, n.id) == Some(n) && (n.Extension? || n.RingGroup? || n.Queue?)
    requires n.RingGroup? ==> Attempts(t, n) != []
    requires Related(t, dp, c, m) && c.place.Arriving? && c.place.id == n.id
    requires Run1(dp, m) == m.Next().Says(Entered(NodeName(n.id)))
    ensures Follows(t, dp, Advance(t, AsCompiled, c), m, 1)
  {
    ReachOne(dp, m, Run1(dp, m));
  }

  lemma FetchMessage(t: Topology, dp: Dialplan, n: Node, at: Cursor)
    requires NodeSound(t, n) && Linked(t, dp, n) && n.VoicemailBox? && at == Running(CALLFLOW, NodeName(n.id), 2)
    ensures Fetch(dp, at) == Some(VoiceMail(n.mailbox)) && Fetch(dp, at.(priority := 3)) == Some(Hangup)
  {
    FetchHome(t, dp, n, at, 2);
    FetchHome(t, dp, n, at.(priority := 3), 3);
  }

  lemma FollowArrivingMailbox(t: Topology, dp: Dialplan, c: Call, m: Machine, n: Node)
    requires Compilable(t) && NodeById(t, n.id) == Some(n) && n.VoicemailBox?
    requires Related(t, dp, c, m) && c.place.Arriving? && c.place.id == n.id
    requires Run1(dp, m) == m.Next().Says(Entered(NodeName(n.id)))
    requires At(t, dp, Recording(n.mailbox), Running(CALLFLOW, NodeName(n.id), 2), m.vars)
    ensures Follows(t, dp, Advance(t, AsCompiled, c), m, 1)
  {
    ReachOne(dp, m, Run1(dp, m));
  }

  lemma EnterMenu(t: Topology, dp: Dialplan, n: Node, m: Machine)
    requires NodeSound(t, n) && Linked(t, dp, n) && n.Ivr? && m.at == Running(CALLFLOW, NodeName(n.id), 2)
    ensures var k := m.Goes(Running(IvrContext(n.id), "s", 3)).(vars := m.vars[RetryVar(n.id) := 0]);
            Reaches(dp, m, 3, k, m.trace, m.trace)
  {
    var context := IvrContext(n.id);
    FetchHome(t, dp, n, m.at, 2);
    var k1 := m.Goes(Running(context, "s", 1));
    var k2 := m.Goes(Running(context, "s", 2));
    var k3 := m.Goes(Running(context, "s", 3)).(vars := m.vars[RetryVar(n.id) := 0]);
    assert Run1(dp, m) == k1;
    assert context != CALLFLOW by { NamesOfContexts(); assert IsIvrContext(context); }
    assert Run1(dp, k1) == k2;
    assert Run1(dp, k2) == k3;
    ReachThree(dp, m, k1, k2, k3);
  }

  lemma FollowArrivingIvr(t: Topology, dp: Dialplan, c: Call, m: Machine, n: Node)
    requires Compilable(t) && NodeById(t, n.id) == Some(n) && n.Ivr?
    requires Related(t, dp, c, m) && c.place.Arriving? && c.place.id == n.id
    requires Run1(dp, m) == m.Next().Says(Entered(NodeName(n.id)))
    requires var k := Run1(dp, m);
             Reaches(dp, k, 3, k.Goes(Running(IvrContext(n.id), "s", 3)).(vars := k.vars[RetryVar(n.id) := 0]),
                 k.trace, k.trace)
    ensures Follows(t, dp, Advance(t, AsCompiled, c), m, 4)
  {
    var k := Run1(dp, m);
    var k4 := k.Goes(Running(IvrContext(n.id), "s", 3)).(vars := k.vars[RetryVar(n.id) := 0]);
    assert Reaches(dp, k, 3, k4, m.trace, k4.trace);
    ReachNext(dp, m, 3, k4, m.trace, k4.trace);
  }

  ghost predicate ScheduleReady(t: Topology, dp: Dialplan, n: Node)
  {
    && n.Schedule? && ValidWindows(n.windows) && NodeById(t, n.id) == Some(n)
    && StepsOf(dp, CALLFLOW, NodeName(n.id)) == Some(ScheduleSteps(t, n))
    && var open, closed := FirstWith(Outgoing(t, n.id), Open), FirstWith(Outgoing(t, n.id), Closed);
       && open.Some? && closed.Some?
       && NodeById(t, open.value.target).Some? && NodeById(t, closed.value.target).Some?
  }

  lemma ScheduleIsReady(t: Topology, dp: Dialplan, n: Node)
    requires NodeSound(t, n) && Linked(t, dp, n) && n.Schedule?
    ensures ScheduleReady(t, dp, n)
  {
  }

  lemma DecideFromNode(t: Topology, dp: Dialplan, n: Node, m: Machine) returns (j: nat, e: Edge)
    requires ScheduleReady(t, dp, n) && m.at == Running(CALLFLOW, NodeName(n.id), 2)
    ensures Some(e) == FirstWith(Outgoing(t, n.id), if CompiledOpen(n, m.clock(n.timezone)) then Open else Closed)
    ensures NodeById(t, e.target).Some?
    ensures Reaches(dp, m, j, m.Goes(Running(CALLFLOW, NodeName(e.target), 1)), m.trace, m.trace)
    ensures j < |ScheduleSteps(t, n)|
  {
    var edges := Outgoing(t, n.id);
    var open, closed := FirstWith(edges, Open).value, FirstWith(edges, Closed).value;
    var body := ScheduleBody(n, ToNode(open.target), ToNode(closed.target));
    DecideSchedule(n, ToNode(open.target), ToNode(closed.target), m.clock);
    DecideCons(Line(NoOp), body, m.clock);
    e := if CompiledOpen(n, m.clock(n.timezone)) then open else closed;
    j := ReachDecision(dp, m, [Line(NoOp)] + body, 1, ToNode(e.target));
  }

  /** The machine enters a node and, `j` silent steps later, jumps along the edge. */
  ghost predicate EntersAndTakes(dp: Dialplan, m: Machine, name: string, j: nat, e: Edge)
  {
    && m.at.Running? && Run1(dp, m) == m.Next().Says(Entered(name))
    && var k := Run1(dp, m); Reaches(dp, k, j, k.Goes(Running(CALLFLOW, NodeName(e.target), 1)), k.trace, k.trace)
  }

  lemma FollowArrivingSchedule(t: Topology, dp: Dialplan, c: Call, m: Machine, name: string, j: nat, e: Edge)
    requires NodeById(t, e.target).Some? && Alike(c, m) && EntersAndTakes(dp, m, name, j, e)
    ensures Follows(t, dp, c.Says(Entered(name)).Follows(e), m, j + 1)
  {
    var k := Run1(dp, m);
    var last := k.Goes(Running(CALLFLOW, NodeName(e.target), 1));
    EdgeTaken(t, dp, c.Says(Entered(name)), e, k);
    assert Reaches(dp, k, j, last, m.trace, last.trace);
    ReachNext(dp, m, j, last, m.trace, last.trace);
  }

  // ---------------------------------------------------------------- inside a menu

  lemma FollowGreeting(t: Topology, dp: Dialplan, c: Call, m: Machine, n: Node)
    requires Compilable(t) && NodeById(t, n.id) == Some(n) && n.Ivr? && IvrLinked(t, dp, n)
    requires Related(t, dp, c, m) && c.place.Greeting? && c.place.id == n.id
    ensures Follows(t, dp, Advance(t, AsCompiled, c), m, 1)
  {
    ReachOne(dp, m, Run1(dp, m));
  }

  /** The machine waits for a key; with nothing to happen it stays where it is. */
  lemma AskMachine(t: Topology, dp: Dialplan, n: Node, m: Machine)
    requires n.Ivr? && IvrLinked(t, dp, n) && m.at == Running(IvrContext(n.id), "s", 4)
    ensures m.inbox == [] ==> Run1(dp, m) == m
    ensures m.inbox != [] ==>
              var o := m.inbox[0].outcome;
              Run1(dp, m) == m.Hears().Says(Asked(n.timeout, o)).Goes(
                match o
                case CallerGone => Ended
                case Pressed(key) => KeyCursor(dp, IvrContext(n.id), key)
                case _ => Running(IvrContext(n.id), "t", 1))
  {
  }

  /** What the call does once it has heard how the wait for a key ended. */
  lemma AdvanceChoosing(t: Topology, c: Call, n: Node)
    requires Compilable(t) && NodeById(t, n.id) == Some(n) && n.Ivr? && c.place.Choosing? && c.place.id == n.id
    requires c.inbox != []
    ensures var o := c.inbox[0].outcome;
            Advance(t, AsCompiled, c) == Choose(t, c.Hears().Says(Asked(n.timeout, o)), n, c.place.invalid, o)
  {
  }

  lemma FollowChoosingKey(t: Topology, dp: Dialplan, c: Call, m: Machine, n: Node, key: Key) returns (j: nat)
    requires Compilable(t) && NodeById(t, n.id) == Some(n) && n.Ivr? && KeyLinked(t, dp, n, key)
    requires forall e | e in Outgoing(t, n.id) :: NodeById(t, e.target).Some?
    requires Related(t, dp, c, m) && c.place.Choosing? && c.place.id == n.id && m.inbox != []
    requires m.inbox[0].outcome == Pressed(key)
    requires Run1(dp, m) == m.Hears().Says(Asked(n.timeout, Pressed(key))).Goes(KeyCursor(dp, IvrContext(n.id), key))
    ensures Follows(t, dp, Advance(t, AsCompiled, c), m, j) && j <= 4
  {
    AdvanceChoosing(t, c, n);
    var heard, k := c.Hears().Says(Asked(n.timeout, Pressed(key))), Run1(dp, m);
    var e := KeyEdge(Outgoing(t, n.id), key);
    if e.Some? {
      KeyMachine(dp, IvrContext(n.id), key, e.value, k);
      FollowKey(t, dp, heard, m, k, e.value);
      j := 2;
    } else {
      FollowOne(t, dp, heard.Goes(Rejecting(n.id, c.place.invalid)), m, k);
      j := 1;
    }
  }

  /** The machine behind an offered key. */
  lemma KeyMachine(dp: Dialplan, context: string, key: Key, e: Edge, k: Machine)
    requires StepsOf(dp, context, [key]) == Some([Line(Goto(ToNode(e.target)))]) && k.at == KeyCursor(dp, context, key)
    ensures Run1(dp, k) == k.Goes(Running(CALLFLOW, NodeName(e.target), 1))
  {
  }

  lemma FollowKey(t: Topology, dp: Dialplan, heard: Call, m: Machine, k: Machine, e: Edge)
    requires Run1(dp, m) == k && Alike(heard, k) && NodeById(t, e.target).Some?
    requires Run1(dp, k) == k.Goes(Running(CALLFLOW, NodeName(e.target), 1))
    ensures Follows(t, dp, heard.Follows(e), m, 2)
  {
    EdgeTaken(t, dp, heard, e, k);
    FollowTwo(t, dp, heard.Follows(e), m, k, k.Goes(Running(CALLFLOW, NodeName(e.target), 1)));
  }

  /** The machine behind a menu's timeout. */
  lemma TimeoutMachine(dp: Dialplan, context: string, edges: seq<Edge>, k: Machine)
    requires context != CALLFLOW && StepsOf(dp, context, "t") == Some(TimeoutSteps(edges))
    requires k.at == Running(context, "t", 1)
    ensures Run1(dp, k) == k.Next()
    ensures var e := FirstWith(edges, Timeout);
            if e.Some? then Run1(dp, k.Next()) == k.Goes(Running(CALLFLOW, NodeName(e.value.target), 1))
            else Fetch(dp, k.Next().at) == Some(Hangup)
  {
  }

  lemma FollowChoosingTimeout(t: Topology, dp: Dialplan, c: Call, m: Machine, n: Node) returns (j: nat)
    requires Compilable(t) && NodeById(t, n.id) == Some(n) && n.Ivr? && IvrContext(n.id) != CALLFLOW
    requires StepsOf(dp, IvrContext(n.id), "t") == Some(TimeoutSteps(Outgoing(t, n.id)))
    requires forall e | e in Outgoing(t, n.id) :: NodeById(t, e.target).Some?
    requires Related(t, dp, c, m) && c.place.Choosing? && c.place.id == n.id && m.inbox != []
    requires !m.inbox[0].outcome.Pressed? && !m.inbox[0].outcome.CallerGone?
    requires Run1(dp, m)
             == m.Hears().Says(Asked(n.timeout, m.inbox[0].outcome)).Goes(Running(IvrContext(n.id), "t", 1))
    ensures Follows(t, dp, Advance(t, AsCompiled, c), m, j) && j <= 4
  {
    AdvanceChoosing(t, c, n);
    var heard, k := c.Hears().Says(Asked(n.timeout, m.inbox[0].outcome)), Run1(dp, m);
    TimeoutMachine(dp, IvrContext(n.id), Outgoing(t, n.id), k);
    j := FollowTimeout(t, dp, heard, m, k, FirstWith(Outgoing(t, n.id), Timeout));
  }

  /** Call and machine take the timeout edge, or come to the end of the call. */
  lemma FollowTimeout(t: Topology, dp: Dialplan, heard: Call, m: Machine, k: Machine, e: Option<Edge>) returns (j: nat)
    requires Run1(dp, m) == k && k.at.Running? && Run1(dp, k) == k.Next() && Alike(heard, k)
    requires e.Some? ==> NodeById(t, e.value.target).Some?
    requires if e.Some? then Run1(dp, k.Next()) == k.Goes(Running(CALLFLOW, NodeName(e.value.target), 1))
             else Fetch(dp, k.Next().at) == Some(Hangup)
    ensures Follows(t, dp, heard.FollowsOrLeaves(e), m, j) && j <= 4
  {
    if e.Some? {
      EdgeTaken(t, dp, heard, e.value, k);
      FollowThree(t, dp, heard.Follows(e.value), m, k, k.Next(),
          k.Goes(Running(CALLFLOW, NodeName(e.value.target), 1)));
      j := 3;
    } else {
      FollowTwo(t, dp, heard.Goes(Leaving), m, k, k.Next());
      j := 2;
    }
  }

  lemma FollowChoosing(t: Topology, dp: Dialplan, c: Call, m: Machine, n: Node) returns (j: nat)
    requires Compilable(t) && NodeSound(t, n) && n.Ivr? && IvrLinked(t, dp, n)
    requires Related(t, dp, c, m) && c.place.Choosing? && c.place.id == n.id
    ensures Follows(t, dp, Advance(t, AsCompiled, c), m, j) && j <= 4
  {
    AskMachine(t, dp, n, m);
    if m.inbox != [] && m.inbox[0].outcome.Pressed? {
      assert KeyLinked(t, dp, n, m.inbox[0].outcome.key);
      j := FollowChoosingKey(t, dp, c, m, n, m.inbox[0].outcome.key);
    } else if m.inbox != [] && !m.inbox[0].outcome.CallerGone? {
      assert IvrContext(n.id) != CALLFLOW by { NamesOfContexts(); assert IsIvrContext(IvrContext(n.id)); }
      j := FollowChoosingTimeout(t, dp, c, m, n);
    } else {
      ReachOne(dp, m, Run1(dp, m));
      j := 1;
    }
  }

  // ---------------------------------------------------------------- wrong keys

  /** The machine's course after a wrong key: count, play, compare, then leave or ask again. */
  lemma RejectMachine(t: Topology, dp: Dialplan, n: Node, m: Machine, invalid: nat)
      returns (k1: Machine, k2: Machine, k3: Machine)
    requires n.Ivr? && IvrLinked(t, dp, n) && Counts(n, m.at, "i", 1, m.vars, invalid)
    ensures k1 == m.Next().(vars := m.vars[RetryVar(n.id) := invalid + 1]) && k2 == k1.Next().Says(Played("invalid"))
    ensures Run1(dp, m) == k1 && Run1(dp, k1) == k2 && Run1(dp, k2) == k3
    ensures (invalid + 1) as real >= n.invalidRetries ==>
              var e := FirstWith(Outgoing(t, n.id), Invalid);
              k3 == k2.Goes(if e.Some? then Running(CALLFLOW, NodeName(e.value.target), 1)
                            else Running(IvrContext(n.id), "giveup", 1))
    ensures (invalid + 1) as real < n.invalidRetries ==> k3 == k2.Next()
  {
    k1 := m.Next().(vars := m.vars[RetryVar(n.id) := invalid + 1]);
    k2 := k1.Next().Says(Played("invalid"));
    k3 := Run1(dp, k2);
  }

  lemma AskAgain(t: Topology, dp: Dialplan, n: Node, m: Machine)
    requires n.Ivr? && IvrLinked(t, dp, n) && m.at == Running(IvrContext(n.id), "i", 4)
    ensures Run1(dp, m) == m.Goes(Running(IvrContext(n.id), "s", 3))
  {
    var steps := StartSteps(n);
    assert steps[0].tag == "" && steps[1].tag == "" && steps[2].tag == "menu";
    assert "menu" != "" && steps[1..][0] == steps[1] && steps[1..][1..] == steps[2..] && steps[2..][0] == steps[2];
    assert FindTag(steps[2..], "menu") == Some(0);
    assert FindTag(steps[1..], "menu") == Some(1);
    assert FindTag(steps, "menu") == Some(2);
  }

  lemma FollowRejecting(t: Topology, dp: Dialplan, c: Call, m: Machine, n: Node) returns (j: nat)
    requires Compilable(t) && NodeById(t, n.id) == Some(n) && n.Ivr? && IvrLinked(t, dp, n)
    requires forall e | e in Outgoing(t, n.id) :: NodeById(t, e.target).Some?
    requires Related(t, dp, c, m) && c.place.Rejecting? && c.place.id == n.id
    ensures Follows(t, dp, Advance(t, AsCompiled, c), m, j) && j <= 4
  {
    var k1, k2, k3 := RejectMachine(t, dp, n, m, c.place.invalid);
    if (c.place.invalid + 1) as real >= n.invalidRetries {
      ReachThree(dp, m, k1, k2, k3);
      j := 3;
    } else {
      AskAgain(t, dp, n, k3);
      var k4 := k3.Goes(Running(IvrContext(n.id), "s", 3));
      ReachHere(dp, k4, m.trace, k4.trace);
      ReachNext(dp, k3, 0, k4, m.trace, k4.trace);
      ReachNext(dp, k2, 1, k4, m.trace, k4.trace);
      ReachNext(dp, k1, 2, k4, m.trace, k4.trace);
      ReachNext(dp, m, 3, k4, m.trace, k4.trace);
      j := 4;
    }
  }
}
