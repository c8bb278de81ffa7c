/** Which edges of a topology show in its dialplan. */
module CompiledEdges {
  import opened Text
  import opened Topologies
  import opened Dialplans
  import opened ScheduleRules
  import opened EdgeRules
  import opened Generator
  import opened Callflow
  import opened Linking
  import opened Validator
  import opened FileTheorems

  // ---------------------------------------------------------------- unconditional edges of menus

  predicate MenuDefault(t: Topology, e: Edge)
  {
    NodeById(t, e.source).Some? && NodeById(t, e.source).value.Ivr? && ConditionOf(e) == Unconditional
  }

  function WithoutMenuDefaults(t: Topology, edges: seq<Edge>): seq<Edge>
  {
    if edges == [] then []
    else if MenuDefault(t, edges[0]) then WithoutMenuDefaults(t, edges[1..])
    else [edges[0]] + WithoutMenuDefaults(t, edges[1..])
  }

  function Stripped(t: Topology): Topology { t.(edges := WithoutMenuDefaults(t, t.edges)) }

  lemma {:induction false} StrippedOutgoing(t: Topology, edges: seq<Edge>, n: Node)
    requires NodeById(t, n.id) == Some(n) && !n.Ivr?
    ensures EdgesFrom(WithoutMenuDefaults(t, edges), n.id) == EdgesFrom(edges, n.id)
  {
    if edges != [] {
      StrippedOutgoing(t, edges[1..], n);
    }
  }

  lemma {:induction false} StrippedFirst(t: Topology, edges: seq<Edge>, id: string, c: Condition)
    requires c != Unconditional
    ensures FirstWith(EdgesFrom(WithoutMenuDefaults(t, edges), id), c) == FirstWith(EdgesFrom(edges, id), c)
  {
    if edges != [] {
      StrippedFirst(t, edges[1..], id, c);
    }
  }

  lemma {:induction false} StrippedKeys(t: Topology, edges: seq<Edge>, id: string)
    ensures KeyEntries(IvrContext(id), EdgesFrom(WithoutMenuDefaults(t, edges), id))
            == KeyEntries(IvrContext(id), EdgesFrom(edges, id))
  {
    if edges != [] {
      StrippedKeys(t, edges[1..], id);
    }
  }

  lemma {:induction false} StrippedMembers(t: Topology, ms: seq<Membership>, id: string)
    ensures MembersStored(Stripped(t), ms, id) == MembersStored(t, ms, id)
  {
    if ms != [] {
      StrippedMembers(t, ms[1..], id);
    }
  }

  lemma StrippedIvr(t: Topology, n: Node)
    requires n.Ivr?
    ensures IvrEntries(Stripped(t), n) == IvrEntries(t, n)
  {
    StrippedFirst(t, t.edges, n.id, Timeout);
    StrippedFirst(t, t.edges, n.id, Invalid);
    StrippedKeys(t, t.edges, n.id);
  }

  lemma StrippedNode(t: Topology, n: Node)
    requires NodeById(t, n.id) == Some(n) && Translatable(n)
    ensures CallflowSteps(Stripped(t), n) == CallflowSteps(t, n)
    ensures n.Extension? ==> InternalSteps(Stripped(t), n) == InternalSteps(t, n)
  {
    StrippedMembers(t, t.memberships, n.id);
    if !n.Ivr? {
      StrippedOutgoing(t, t.edges, n);
    }
  }

  lemma {:induction false} StrippedNodes(t: Topology, nodes: seq<Node>)
    requires forall n | n in nodes :: Translatable(n) && NodeById(t, n.id) == Some(n)
    ensures InternalEntries(Stripped(t), nodes) == InternalEntries(t, nodes)
    ensures CallflowEntries(Stripped(t), nodes) == CallflowEntries(t, nodes)
    ensures AllIvrEntries(Stripped(t), nodes) == AllIvrEntries(t, nodes)
  {
    if nodes != [] {
      StrippedNodes(t, nodes[1..]);
      StrippedNode(t, nodes[0]);
      if nodes[0].Ivr? {
        StrippedIvr(t, nodes[0]);
      }
    }
  }

  /** An unconditional edge out of an IVR is never compiled: without it the dialplan is the same. */
  lemma MenuDefaultsAreNotCompiled(t: Topology)
    requires Compilable(t) && UniqueNodeIds(t)
    ensures Compilable(Stripped(t)) && ExtensionsConf(Stripped(t)) == ExtensionsConf(t)
  {
    forall n | n in t.nodes ensures Translatable(n) && NodeById(t, n.id) == Some(n) {
      var i := NodeInOrder(t, n);
      FindUnique(t.nodes, i);
    }
    StrippedNodes(t, t.nodes);
  }

  // ---------------------------------------------------------------- a topology without one of its edges

  function DropEdge(edges: seq<Edge>, e: Edge): (r: seq<Edge>)
    ensures forall f :: f in r <==> f in edges && f != e
  {
    if edges == [] then [] else (if edges[0] == e then [] else [edges[0]]) + DropEdge(edges[1..], e)
  }

  function Without(t: Topology, e: Edge): Topology { t.(edges := DropEdge(t.edges, e)) }

  lemma DropCons(first: Edge, rest: seq<Edge>, e: Edge)
    ensures DropEdge([first] + rest, e) == if first == e then DropEdge(rest, e) else [first] + DropEdge(rest, e)
  {
    assert ([first] + rest)[1..] == rest;
  }

  lemma FromCons(first: Edge, rest: seq<Edge>, id: string)
    ensures EdgesFrom([first] + rest, id) == if first.source == id then [first] + EdgesFrom(rest, id)
            else EdgesFrom(rest, id)
  {
    assert ([first] + rest)[1..] == rest;
  }

  lemma {:induction false} DropOutgoing(edges: seq<Edge>, e: Edge, id: string)
    ensures EdgesFrom(DropEdge(edges, e), id) == DropEdge(EdgesFrom(edges, id), e)
  {
    if edges != [] {
      DropOutgoing(edges[1..], e, id);
      DropCons(edges[0], edges[1..], e);
      DropCons(edges[0], EdgesFrom(edges[1..], id), e);
      FromCons(edges[0], DropEdge(edges[1..], e), id);
      assert edges == [edges[0]] + edges[1..];
    }
  }

  lemma {:induction false} DropMenuDefault(t: Topology, edges: seq<Edge>, e: Edge)
    requires MenuDefault(t, e)
    ensures WithoutMenuDefaults(Without(t, e), DropEdge(edges, e)) == WithoutMenuDefaults(t, edges)
  {
    if edges != [] {
      DropMenuDefault(t, edges[1..], e);
      assert MenuDefault(Without(t, e), edges[0]) <==> MenuDefault(t, edges[0]);
      DropCons(edges[0], edges[1..], e);
      assert edges == [edges[0]] + edges[1..];
      assert ([edges[0]] + DropEdge(edges[1..], e))[1..] == DropEdge(edges[1..], e);
    }
  }

  /** Dropping a default edge of a menu does not change the file. */
  lemma MenuDefaultUnseen(t: Topology, e: Edge)
    requires Compilable(t) && UniqueNodeIds(t) && MenuDefault(t, e)
    ensures Compilable(Without(t, e)) && ExtensionsConf(Without(t, e)) == ExtensionsConf(t)
  {
    DropMenuDefault(t, t.edges, e);
    assert Stripped(Without(t, e)) == Stripped(t);
    MenuDefaultsAreNotCompiled(t);
    MenuDefaultsAreNotCompiled(Without(t, e));
  }

  // ---------------------------------------------------------------- any other edge is seen

  ghost predicate Jumps(steps: seq<Step>) { exists s :: s in steps && JumpOf(s.app).Some? }

  lemma NodeSteps(t: Topology, i: nat)
    requires Compilable(t) && NamesDiffer(t.nodes) && i < |t.nodes|
    ensures StepsOf(ExtensionsConf(t), CALLFLOW, NodeName(t.nodes[i].id)) == CallflowSteps(t, t.nodes[i])
  {
    var name := NodeName(t.nodes[i].id);
    NamesOfContexts();
    FindCallflow(t, t.nodes, i);
    FileContexts(t, CALLFLOW, name);
    NoInclude(t, CALLFLOW, name);
  }

  /** The edge is the only one of its node with its condition. */
  ghost predicate Alone(edges: seq<Edge>, e: Edge)
  {
    e in edges && forall f | f in edges && f != e :: ConditionOf(f) != ConditionOf(e)
  }

  lemma AcceptedAlone(t: Topology, e: Edge)
    requires EdgesOk(t) && e in t.edges
    ensures Alone(Outgoing(t, e.source), e)
  {
    var i :| 0 <= i < |t.edges| && t.edges[i] == e;
    forall f | f in Outgoing(t, e.source) && f != e ensures ConditionOf(f) != ConditionOf(e) {
      var j :| 0 <= j < |t.edges| && t.edges[j] == f;
      assert if i < j then EdgesApart(e, f) else EdgesApart(f, e);
    }
  }

  lemma FallbackJumps(e: Edge, mailbox: string, start: seq<Step>)
    ensures Jumps(start + Finish(Some(e), mailbox))
  {
    var steps := start + Finish(Some(e), mailbox);
    assert steps[|start|] == Line(Goto(ToNode(e.target)));
    assert steps[|start|] in steps;
  }

  lemma NoFallbackNoJump(mailbox: string, start: seq<Step>)
    requires forall s | s in start :: JumpOf(s.app) == None
    ensures !Jumps(start + Finish(None, mailbox))
  {
  }

  /** A phone, ring group or queue jumps exactly where it has a fallback edge. */
  lemma CallStepsJump(t: Topology, n: Node)
    requires n.Extension? || n.RingGroup? || n.Queue?
    requires forall e | e in Outgoing(t, n.id) :: IsFallback(e)
    ensures CallflowSteps(t, n).Some? && (Jumps(CallflowSteps(t, n).value) <==> Outgoing(t, n.id) != [])
  {
    var edges := Outgoing(t, n.id);
    var start := if n.Extension? then [Line(NoOp), Line(Dial([Device(n)], 20.0))]
                 else if n.RingGroup? then [Line(NoOp)] + RingGroupDialLines(t, n)
                 else [Line(NoOp), Line(EnterQueue(Sanitize(n.id), n.maxWaitTime))];
    var mailbox := if n.Extension? then OwnMailbox(n) else "";
    if n.RingGroup? {
      RingJumps(t, n);
    }
    assert CallflowSteps(t, n) == Some(start + Finish(FallbackEdge(edges), mailbox));
    if edges != [] {
      assert edges[0] in edges;
      FallbackJumps(FallbackEdge(edges).value, mailbox, start);
    } else {
      NoFallbackNoJump(mailbox, start);
    }
  }

  /** A schedule jumps exactly where it has both of its outputs. */
  lemma ScheduleStepsJump(t: Topology, n: Node)
    requires n.Schedule? && Translatable(n)
    ensures CallflowSteps(t, n).Some?
    ensures Jumps(CallflowSteps(t, n).value) <==>
              FirstWith(Outgoing(t, n.id), Open).Some? && FirstWith(Outgoing(t, n.id), Closed).Some?
  {
    var open, closed := FirstWith(Outgoing(t, n.id), Open), FirstWith(Outgoing(t, n.id), Closed);
    var steps := CallflowSteps(t, n).value;
    if open.Some? && closed.Some? {
      assert steps[|steps| - 1] == Line(Goto(ToNode(closed.value.target)));
      assert steps[|steps| - 1] in steps;
    }
  }

  lemma DroppedCallSteps(t: Topology, e: Edge, n: Node)
    requires Translatable(n) && NodeSound(t, n) && e in Outgoing(t, n.id) && e.source == n.id
    requires n.Extension? || n.RingGroup? || n.Queue?
    ensures CallflowSteps(Without(t, e), n) != CallflowSteps(t, n)
  {
    DropOutgoing(t.edges, e, n.id);
    assert Outgoing(t, n.id) == [e] && DropEdge([e], e) == [];
    CallStepsJump(t, n);
    CallStepsJump(Without(t, e), n);
  }

  lemma DroppedScheduleSteps(t: Topology, e: Edge, n: Node)
    requires Translatable(n) && NodeSound(t, n) && n.Schedule? && Alone(Outgoing(t, n.id), e)
    requires ConditionOf(e).Open? || ConditionOf(e).Closed?
    ensures CallflowSteps(Without(t, e), n) != CallflowSteps(t, n)
  {
    DropOutgoing(t.edges, e, n.id);
    ScheduleStepsJump(t, n);
    ScheduleStepsJump(Without(t, e), n);
  }

  lemma IvrFixed(t: Topology, i: nat, exten: string)
    requires Compilable(t) && NamesDiffer(t.nodes) && i < |t.nodes| && t.nodes[i].Ivr?
    requires forall e | e in Outgoing(t, t.nodes[i].id) && ConditionOf(e).Digit? :: IsKey(ConditionOf(e).value)
    requires exten == "t" || exten == "i"
    ensures StepsOf(ExtensionsConf(t), IvrContext(t.nodes[i].id), exten)
         == Some(if exten == "t" then TimeoutSteps(Outgoing(t, t.nodes[i].id))
                 else InvalidSteps(t.nodes[i], Outgoing(t, t.nodes[i].id)))
  {
    FixedNames();
    IvrLookup(t, i, exten);
    FindFixed(t, t.nodes[i], exten);
  }

  lemma TimeoutStepsDiffer(present: seq<Edge>, absent: seq<Edge>)
    requires FirstWith(present, Timeout).Some? && FirstWith(absent, Timeout).None?
    ensures TimeoutSteps(present) != TimeoutSteps(absent)
  {
    assert TimeoutSteps(present)[1] != TimeoutSteps(absent)[1];
  }

  lemma InvalidStepsDiffer(n: Node, present: seq<Edge>, absent: seq<Edge>)
    requires n.Ivr? && FirstWith(present, Invalid).Some? && FirstWith(absent, Invalid).None?
    ensures InvalidSteps(n, present) != InvalidSteps(n, absent)
  {
    NamesOfContexts();
    assert IsIvrContext(IvrContext(n.id));
    assert InvalidSteps(n, present)[2] != InvalidSteps(n, absent)[2];
  }

  /** Node `i` is a menu whose keys are keys, in a topology whose file has distinct names. */
  ghost predicate IsMenu(t: Topology, i: nat)
  {
    && Compilable(t) && NamesDiffer(t.nodes) && i < |t.nodes| && t.nodes[i].Ivr?
    && forall e | e in Outgoing(t, t.nodes[i].id) && ConditionOf(e).Digit? :: IsKey(ConditionOf(e).value)
  }

  /** The two files give different steps to some extension of the menu. */
  ghost predicate MenuChanges(t: Topology, u: Topology, id: string)
    requires Compilable(t) && Compilable(u)
  {
    exists exten ::
      StepsOf(ExtensionsConf(t), IvrContext(id), exten) != StepsOf(ExtensionsConf(u), IvrContext(id), exten)
  }

  lemma FixedChanges(t: Topology, u: Topology, i: nat, exten: string)
    requires IsMenu(t, i) && IsMenu(u, i) && t.nodes[i] == u.nodes[i] && (exten == "t" || exten == "i")
    requires var n, present, absent := t.nodes[i], Outgoing(t, t.nodes[i].id), Outgoing(u, t.nodes[i].id);
      if exten == "t" then TimeoutSteps(present) != TimeoutSteps(absent)
      else InvalidSteps(n, present) != InvalidSteps(n, absent)
    ensures MenuChanges(t, u, t.nodes[i].id)
  {
    IvrFixed(t, i, exten);
    IvrFixed(u, i, exten);
    FixedNames();
    assert StepsOf(ExtensionsConf(t), IvrContext(t.nodes[i].id), exten)
        != StepsOf(ExtensionsConf(u), IvrContext(t.nodes[i].id), exten);
  }

  lemma KeyChanges(t: Topology, u: Topology, i: nat, key: Key)
    requires IsMenu(t, i) && IsMenu(u, i) && t.nodes[i] == u.nodes[i]
    requires KeyEdge(Outgoing(t, t.nodes[i].id), key).Some? && KeyEdge(Outgoing(u, t.nodes[i].id), key).None?
    ensures MenuChanges(t, u, t.nodes[i].id)
  {
    IvrLookup(t, i, [key]);
    IvrLookup(u, i, [key]);
    FindPressed(t, t.nodes[i], key);
    FindPressed(u, t.nodes[i], key);
    assert StepsOf(ExtensionsConf(t), IvrContext(t.nodes[i].id), [key])
        != StepsOf(ExtensionsConf(u), IvrContext(t.nodes[i].id), [key]);
  }

  /** Without its only edge of a condition, a list has no first edge with it. */
  lemma DroppedFirst(edges: seq<Edge>, e: Edge, c: Condition)
    requires Alone(edges, e) && e.condition == Some(c)
    ensures FirstWith(edges, c).Some? && FirstWith(DropEdge(edges, e), c).None?
  {
  }

  /** Without the edge, one of the extensions of its menu changes. */
  lemma DroppedIvrSteps(t: Topology, e: Edge, i: nat)
    requires IsMenu(t, i) && IsMenu(Without(t, e), i) && Alone(Outgoing(t, t.nodes[i].id), e)
    requires Outgoing(Without(t, e), t.nodes[i].id) == DropEdge(Outgoing(t, t.nodes[i].id), e)
    requires ConditionOf(e).Timeout? || ConditionOf(e).Invalid? || ConditionOf(e).Digit?
    ensures MenuChanges(t, Without(t, e), t.nodes[i].id)
  {
    var u, n := Without(t, e), t.nodes[i];
    DroppedFirst(Outgoing(t, n.id), e, ConditionOf(e));
    match ConditionOf(e)
    case Timeout =>
      TimeoutStepsDiffer(Outgoing(t, n.id), Outgoing(u, n.id));
      FixedChanges(t, u, i, "t");
    case Invalid =>
      InvalidStepsDiffer(n, Outgoing(t, n.id), Outgoing(u, n.id));
      FixedNames();
      FixedChanges(t, u, i, "i");
    case Digit(value) =>
      DroppedKey(t, e, i, value);
  }

  lemma KeyText(value: string)
    requires IsKey(value)
    ensures value == [value[0]] && value[0] in KEYS
  {
  }

  lemma DroppedKey(t: Topology, e: Edge, i: nat, value: string)
    requires IsMenu(t, i) && IsMenu(Without(t, e), i) && e in Outgoing(t, t.nodes[i].id)
             && ConditionOf(e) == Digit(value)
    requires FirstWith(Outgoing(t, t.nodes[i].id), Digit(value)).Some?
    requires FirstWith(Outgoing(Without(t, e), t.nodes[i].id), Digit(value)).None?
    ensures MenuChanges(t, Without(t, e), t.nodes[i].id)
  {
    assert IsKey(value);
    KeyText(value);
    KeyChanges(t, Without(t, e), i, value[0]);
  }

  // ---------------------------------------------------------------- the theorem

  /** What a topology without the edge keeps. */
  lemma WithoutKeeps(env: Environment, t: Topology, e: Edge, i: nat)
    requires WellFormed(env, t) && i < |t.nodes| && t.nodes[i].Ivr?
    ensures IsMenu(t, i) && IsMenu(Without(t, e), i)
    ensures Outgoing(Without(t, e), t.nodes[i].id) == DropEdge(Outgoing(t, t.nodes[i].id), e)
  {
    AcceptedCompiles(env, t);
    SoundNode(env, t, t.nodes[i]);
    DropOutgoing(t.edges, e, t.nodes[i].id);
  }

  lemma MenuEdgeSeen(env: Environment, t: Topology, e: Edge, i: nat)
    requires WellFormed(env, t) && e in t.edges && i < |t.nodes| && t.nodes[i].Ivr? && t.nodes[i].id == e.source
    requires NodeById(t, e.source) == Some(t.nodes[i]) && !MenuDefault(t, e)
    ensures Compilable(t) && ExtensionsConf(Without(t, e)) != ExtensionsConf(t)
  {
    EdgeIsOk(t, e);
    AcceptedAlone(t, e);
    WithoutKeeps(env, t, e, i);
    assert ConditionFits(t.nodes[i], ConditionOf(e));
    DroppedIvrSteps(t, e, i);
  }

  lemma CallEdgeSeen(env: Environment, t: Topology, e: Edge, i: nat)
    requires WellFormed(env, t) && e in t.edges && i < |t.nodes| && !t.nodes[i].Ivr? && t.nodes[i].id == e.source
    requires NodeById(t, e.source) == Some(t.nodes[i])
    ensures Compilable(t) && ExtensionsConf(Without(t, e)) != ExtensionsConf(t)
  {
    var n := t.nodes[i];
    AcceptedCompiles(env, t);
    SoundNode(env, t, n);
    StepsChange(env, t, e, n);
    NodeSteps(t, i);
    NodeSteps(Without(t, e), i);
  }

  lemma StepsChange(env: Environment, t: Topology, e: Edge, n: Node)
    requires EdgesOk(t) && e in t.edges && NodeById(t, e.source) == Some(n) && NodeSound(t, n) && !n.Ivr?
    ensures CallflowSteps(Without(t, e), n) != CallflowSteps(t, n)
  {
    EdgeIsOk(t, e);
    AcceptedAlone(t, e);
    assert ConditionFits(n, ConditionOf(e)) && IsTransitionAllowed(n, NodeById(t, e.target).value);
    if n.Schedule? {
      DroppedScheduleSteps(t, e, n);
    } else {
      DroppedCallSteps(t, e, n);
    }
  }

  /** Of an accepted topology's edges, exactly the defaults of menus do not show in its dialplan. */
  lemma CompiledIff(env: Environment, t: Topology, e: Edge)
    requires WellFormed(env, t) && e in t.edges
    ensures Compilable(t) && (ExtensionsConf(Without(t, e)) == ExtensionsConf(t) <==> MenuDefault(t, e))
  {
    AcceptedCompiles(env, t);
    WellFormedIds(env, t);
    EdgeIsOk(t, e);
    var n := NodeById(t, e.source).value;
    var i := NodeInOrder(t, n);
    if MenuDefault(t, e) {
      MenuDefaultUnseen(t, e);
    } else if n.Ivr? {
      MenuEdgeSeen(env, t, e, i);
    } else {
      CallEdgeSeen(env, t, e, i);
    }
  }
}
