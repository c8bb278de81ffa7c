/** Name resolution in the generated dialplan: every name leads to the entry it was generated for. */
module Linking {
  import opened Text
  import opened Topologies
  import opened Schedules
  import opened Dialplans
  import opened NodeRules
  import opened EdgeRules
  import opened ScheduleRules
  import opened Generator
  import opened Callflow
  import opened Validator

  // ---------------------------------------------------------------- first definition wins

  lemma {:induction false} FindAppend(a: seq<Entry>, b: seq<Entry>, context: string, exten: string)
    ensures FindEntry(a + b, context, exten)
            == if FindEntry(a, context, exten).Some? then FindEntry(a, context, exten) else FindEntry(b, context, exten)
  {
    if a == [] {
      assert a + b == b;
    } else {
      assert (a + b)[0] == a[0] && (a + b)[1..] == a[1..] + b;
      FindAppend(a[1..], b, context, exten);
    }
  }

  ghost predicate AllIn(entries: seq<Entry>, context: string) { forall e | e in entries :: e.context == context }

  lemma {:induction false} NotIn(entries: seq<Entry>, context: string, exten: string)
    requires forall e | e in entries :: e.context != context || e.exten != exten
    ensures FindEntry(entries, context, exten) == None
  {
    if entries != [] {
      NotIn(entries[1..], context, exten);
    }
  }

  lemma OtherContext(entries: seq<Entry>, own: string, context: string, exten: string)
    requires AllIn(entries, own) && own != context
    ensures FindEntry(entries, context, exten) == None
  {
    NotIn(entries, context, exten);
  }

  lemma {:induction false} InternalContext(t: Topology, nodes: seq<Node>)
    ensures AllIn(InternalEntries(t, nodes), "internal")
  {
    if nodes != [] {
      InternalContext(t, nodes[1..]);
    }
  }

  lemma {:induction false} EntryPointContext(nodes: seq<Node>, first: nat)
    ensures AllIn(EntryPoints(nodes, first), "entrypoints")
  {
    if nodes != [] {
      EntryPointContext(nodes[1..], first + 1);
    }
  }

  lemma {:induction false} CallflowContext(t: Topology, nodes: seq<Node>)
    requires forall n | n in nodes :: Translatable(n)
    ensures AllIn(CallflowEntries(t, nodes), CALLFLOW)
  {
    if nodes != [] {
      CallflowContext(t, nodes[1..]);
    }
  }

  lemma {:induction false} KeyContext(context: string, edges: seq<Edge>)
    ensures AllIn(KeyEntries(context, edges), context)
    ensures forall e | e in KeyEntries(context, edges) :: exists f :: f in edges && f.condition == Some(Digit(e.exten))
  {
    if edges != [] {
      KeyContext(context, edges[1..]);
    }
  }

  lemma IvrEntriesContext(t: Topology, n: Node)
    requires n.Ivr?
    ensures AllIn(IvrEntries(t, n), IvrContext(n.id))
  {
    KeyContext(IvrContext(n.id), Outgoing(t, n.id));
  }

  predicate IsIvrContext(context: string) { |context| >= 4 && context[..4] == "ivr_" }

  lemma {:induction false} IvrContexts(t: Topology, nodes: seq<Node>)
    ensures forall e | e in AllIvrEntries(t, nodes) :: IsIvrContext(e.context)
  {
    if nodes != [] {
      IvrContexts(t, nodes[1..]);
      if nodes[0].Ivr? {
        IvrEntriesContext(t, nodes[0]);
      }
    }
  }

  // ---------------------------------------------------------------- names are injective

  lemma NodeNamesDiffer(a: string, b: string)
    requires Sanitize(a) != Sanitize(b)
    ensures NodeName(a) != NodeName(b) && IvrContext(a) != IvrContext(b) && RetryVar(a) != RetryVar(b)
  {
    assert NodeName(a)[5..] == Sanitize(a) && NodeName(b)[5..] == Sanitize(b);
    assert IvrContext(a)[4..] == Sanitize(a) && IvrContext(b)[4..] == Sanitize(b);
    assert RetryVar(a)[6..] == Sanitize(a) && RetryVar(b)[6..] == Sanitize(b);
  }

  ghost predicate NamesDiffer(nodes: seq<Node>)
  {
    forall i, j | 0 <= i < j < |nodes| :: Sanitize(nodes[i].id) != Sanitize(nodes[j].id)
  }

  lemma {:induction false} FindCallflow(t: Topology, nodes: seq<Node>, i: nat)
    requires i < |nodes| && NamesDiffer(nodes) && forall n | n in nodes :: Translatable(n)
    ensures FindEntry(CallflowEntries(t, nodes), CALLFLOW, NodeName(nodes[i].id)) == CallflowSteps(t, nodes[i])
    decreases |nodes|
  {
    var name, first, rest := NodeName(nodes[i].id), CallflowEntry(t, nodes[0]), CallflowEntries(t, nodes[1..]);
    FindAppend(first, rest, CALLFLOW, name);
    if i > 0 {
      NodeNamesDiffer(nodes[0].id, nodes[i].id);
      NotIn(first, CALLFLOW, name);
      FindCallflow(t, nodes[1..], i - 1);
    } else {
      AbsentCallflow(t, nodes[1..], name, nodes[0].id);
    }
  }

  lemma {:induction false} AbsentCallflow(t: Topology, nodes: seq<Node>, name: string, id: string)
    requires forall n | n in nodes :: Translatable(n)
    requires name == NodeName(id) && forall j | 0 <= j < |nodes| :: Sanitize(id) != Sanitize(nodes[j].id)
    ensures FindEntry(CallflowEntries(t, nodes), CALLFLOW, name) == None
  {
    if nodes != [] {
      AbsentCallflow(t, nodes[1..], name, id);
      NodeNamesDiffer(id, nodes[0].id);
      NotIn(CallflowEntry(t, nodes[0]), CALLFLOW, name);
      FindAppend(CallflowEntry(t, nodes[0]), CallflowEntries(t, nodes[1..]), CALLFLOW, name);
    }
  }

  ghost predicate NumbersDiffer(nodes: seq<Node>)
  {
    forall a, b | 0 <= a < b < |nodes| && nodes[a].Extension? && nodes[b].Extension? ::
        nodes[a].number != nodes[b].number
  }

  lemma {:induction false} FindInternal(t: Topology, nodes: seq<Node>, i: nat)
    requires i < |nodes| && nodes[i].Extension?
    requires NumbersDiffer(nodes)
    ensures FindEntry(InternalEntries(t, nodes), "internal", nodes[i].number) == Some(InternalSteps(t, nodes[i]))
    decreases |nodes|
  {
    var first := if nodes[0].Extension? then [Entry("internal", nodes[0].number, InternalSteps(t, nodes[0]))] else [];
    FindAppend(first, InternalEntries(t, nodes[1..]), "internal", nodes[i].number);
    if i > 0 {
      NotIn(first, "internal", nodes[i].number);
      FindInternal(t, nodes[1..], i - 1);
    }
  }

  lemma {:induction false} FindIvr(t: Topology, nodes: seq<Node>, i: nat, exten: string)
    requires i < |nodes| && nodes[i].Ivr? && NamesDiffer(nodes)
    ensures FindEntry(AllIvrEntries(t, nodes), IvrContext(nodes[i].id), exten)
            == FindEntry(IvrEntries(t, nodes[i]), IvrContext(nodes[i].id), exten)
    decreases |nodes|
  {
    var context := IvrContext(nodes[i].id);
    var first := if nodes[0].Ivr? then IvrEntries(t, nodes[0]) else [];
    FindAppend(first, AllIvrEntries(t, nodes[1..]), context, exten);
    if i > 0 {
      SkipIvr(t, nodes[0], nodes[i].id, exten);
      FindIvr(t, nodes[1..], i - 1, exten);
    } else {
      AbsentIvr(t, nodes[1..], nodes[0].id, exten);
    }
  }

  lemma {:induction false} AbsentIvr(t: Topology, nodes: seq<Node>, id: string, exten: string)
    requires forall j | 0 <= j < |nodes| :: Sanitize(id) != Sanitize(nodes[j].id)
    ensures FindEntry(AllIvrEntries(t, nodes), IvrContext(id), exten) == None
  {
    if nodes != [] {
      AbsentIvr(t, nodes[1..], id, exten);
      var first := if nodes[0].Ivr? then IvrEntries(t, nodes[0]) else [];
      FindAppend(first, AllIvrEntries(t, nodes[1..]), IvrContext(id), exten);
      SkipIvr(t, nodes[0], id, exten);
    }
  }

  lemma SkipIvr(t: Topology, n: Node, id: string, exten: string)
    requires Sanitize(n.id) != Sanitize(id)
    ensures FindEntry(if n.Ivr? then IvrEntries(t, n) else [], IvrContext(id), exten) == None
  {
    if n.Ivr? {
      IvrEntriesContext(t, n);
      NodeNamesDiffer(n.id, id);
      OtherContext(IvrEntries(t, n), IvrContext(n.id), IvrContext(id), exten);
    }
  }

  // ---------------------------------------------------------------- inside one IVR context

  lemma {:induction false} FindKey(context: string, edges: seq<Edge>, exten: string)
    ensures FindEntry(KeyEntries(context, edges), context, exten)
            == var e := FirstWith(edges, Digit(exten));
               if e.Some? then Some([Line(Goto(ToNode(e.value.target)))]) else None
  {
    if edges != [] {
      FindKey(context, edges[1..], exten);
      match edges[0].condition {
        case Some(Digit(value)) =>
          var head := [Entry(context, value, [Line(Goto(ToNode(edges[0].target)))])];
          assert KeyEntries(context, edges) == head + KeyEntries(context, edges[1..]);
        case _ =>
      }
    }
  }

  lemma FixedNames()
    ensures "s" != "t" && "s" != "i" && "s" != "giveup" && "t" != "i" && "t" != "giveup" && "i" != "giveup"
    ensures !IsKey("s") && !IsKey("t") && !IsKey("i") && !IsKey("giveup")
  {
    assert "s"[0] == 's' && "t"[0] == 't' && "i"[0] == 'i' && |"giveup"| == 6;
  }

  lemma FindLast(context: string, timeout: seq<Step>, invalid: seq<Step>, giveup: seq<Step>, exten: string)
    ensures FindEntry([Entry(context, "t", timeout), Entry(context, "i", invalid), Entry(context, "giveup", giveup)],
                      context, exten)
            == if exten == "t" then Some(timeout) else if exten == "i" then Some(invalid)
               else if exten == "giveup" then Some(giveup) else None
  {
    var e1, e2, e3 := Entry(context, "t", timeout), Entry(context, "i", invalid), Entry(context, "giveup", giveup);
    var last := [e1, e2, e3];
    assert last[1..] == [e2, e3] && [e2, e3][1..] == [e3] && [e3][1..] == [];
    assert FindEntry([e3], context, exten) == if exten == "giveup" then Some(giveup) else None;
    assert FindEntry([e2, e3], context, exten)
        == if exten == "i" then Some(invalid) else FindEntry([e3], context, exten);
  }

  lemma FindInIvr(t: Topology, n: Node, exten: string)
    requires n.Ivr?
    ensures FindEntry(IvrEntries(t, n), IvrContext(n.id), exten)
            == if exten == "s" then Some(StartSteps(n))
               else if FirstWith(Outgoing(t, n.id), Digit(exten)).Some? then
                 Some([Line(Goto(ToNode(FirstWith(Outgoing(t, n.id), Digit(exten)).value.target)))])
               else if exten == "t" then Some(TimeoutSteps(Outgoing(t, n.id)))
               else if exten == "i" then Some(InvalidSteps(n, Outgoing(t, n.id)))
               else if exten == "giveup" then Some([Line(Hangup)]) else None
  {
    var context, edges := IvrContext(n.id), Outgoing(t, n.id);
    var keys, start := KeyEntries(context, edges), [Entry(context, "s", StartSteps(n))];
    var timeout, invalid, giveup := TimeoutSteps(edges), InvalidSteps(n, edges), [Line(Hangup)];
    var last := [Entry(context, "t", timeout), Entry(context, "i", invalid), Entry(context, "giveup", giveup)];
    FindAppend(start + keys, last, context, exten);
    FindAppend(start, keys, context, exten);
    FindKey(context, edges, exten);
    FindLast(context, timeout, invalid, giveup, exten);
  }

  /** The fixed extensions of an IVR context are not single keys, so no digit edge can shadow them. */
  lemma FindFixed(t: Topology, n: Node, exten: string)
    requires n.Ivr? && (exten == "s" || exten == "t" || exten == "i" || exten == "giveup")
    requires forall e | e in Outgoing(t, n.id) && ConditionOf(e).Digit? :: IsKey(ConditionOf(e).value)
    ensures FindEntry(IvrEntries(t, n), IvrContext(n.id), exten)
            == Some(if exten == "s" then StartSteps(n) else if exten == "t" then TimeoutSteps(Outgoing(t, n.id))
                    else if exten == "i" then InvalidSteps(n, Outgoing(t, n.id)) else [Line(Hangup)])
  {
    FixedNames();
    FindInIvr(t, n, exten);
    assert forall e | e in Outgoing(t, n.id) :: e.condition == Some(Digit(exten)) ==> IsKey(exten);
  }

  lemma FindPressed(t: Topology, n: Node, key: Key)
    requires n.Ivr?
    ensures FindEntry(IvrEntries(t, n), IvrContext(n.id), [key])
            == var e := KeyEdge(Outgoing(t, n.id), key);
               if e.Some? then Some([Line(Goto(ToNode(e.value.target)))]) else None
  {
    FixedNames();
    FindInIvr(t, n, [key]);
    assert key in KEYS && [key][0] == key && "s"[0] == 's' && "t"[0] == 't' && "i"[0] == 'i';
  }

  // ---------------------------------------------------------------- the whole dialplan

  /** Every name the dialplan uses for a node resolves to the steps generated for that node. */
  ghost predicate Linked(t: Topology, dp: Dialplan, n: Node)
    requires Translatable(n)
  {
    && CallflowSteps(t, n).Some? && StepsOf(dp, CALLFLOW, NodeName(n.id)) == CallflowSteps(t, n)
    && (n.Extension? ==> StepsOf(dp, "internal", n.number) == CallflowSteps(t, n))
    && (n.Ivr? ==> IvrLinked(t, dp, n))
  }

  ghost predicate IvrLinked(t: Topology, dp: Dialplan, n: Node)
    requires n.Ivr?
  {
    var context := IvrContext(n.id);
    && StepsOf(dp, context, "s") == Some(StartSteps(n))
    && StepsOf(dp, context, "t") == Some(TimeoutSteps(Outgoing(t, n.id)))
    && StepsOf(dp, context, "i") == Some(InvalidSteps(n, Outgoing(t, n.id)))
    && StepsOf(dp, context, "giveup") == Some([Line(Hangup)])
    && forall key: Key :: KeyLinked(t, dp, n, key)
  }

  ghost predicate KeyLinked(t: Topology, dp: Dialplan, n: Node, key: Key)
  {
    StepsOf(dp, IvrContext(n.id), [key])
    == var e := KeyEdge(Outgoing(t, n.id), key);
       if e.Some? then Some([Line(Goto(ToNode(e.value.target)))]) else None
  }

  lemma FileContexts(t: Topology, context: string, exten: string)
    requires Compilable(t)
    ensures ContextNamesDiffer()
    ensures context == CALLFLOW ==>
              FindEntry(ExtensionsConf(t).entries, context, exten)
                  == FindEntry(CallflowEntries(t, t.nodes), context, exten)
    ensures context == "internal" && FindEntry(InternalEntries(t, t.nodes), context, exten).Some? ==>
              FindEntry(ExtensionsConf(t).entries, context, exten)
                  == FindEntry(InternalEntries(t, t.nodes), context, exten)
    ensures IsIvrContext(context) ==>
              FindEntry(ExtensionsConf(t).entries, context, exten)
                  == FindEntry(AllIvrEntries(t, t.nodes), context, exten)
  {
    var a, b := InternalEntries(t, t.nodes), EntryPoints(t.nodes, ENTRYPOINT_BASE);
    var c, d := CallflowEntries(t, t.nodes), AllIvrEntries(t, t.nodes);
    FindAppend(a + b + c, d, context, exten);
    FindAppend(a + b, c, context, exten);
    FindAppend(a, b, context, exten);
    InternalContext(t, t.nodes);
    EntryPointContext(t.nodes, ENTRYPOINT_BASE);
    CallflowContext(t, t.nodes);
    IvrContexts(t, t.nodes);
    NamesOfContexts();
    if context == CALLFLOW {
      OtherContext(a, "internal", context, exten);
      OtherContext(b, "entrypoints", context, exten);
      NotIn(d, context, exten);
    } else if IsIvrContext(context) {
      OtherContext(a, "internal", context, exten);
      OtherContext(b, "entrypoints", context, exten);
      OtherContext(c, CALLFLOW, context, exten);
    }
  }

  ghost predicate ContextNamesDiffer()
  {
    && CALLFLOW != "internal" && CALLFLOW != "entrypoints" && "internal" != "entrypoints"
    && !IsIvrContext(CALLFLOW) && !IsIvrContext("internal") && !IsIvrContext("entrypoints")
  }

  lemma NamesOfContexts()
    ensures ContextNamesDiffer()
  {
    assert CALLFLOW[0] == 'c' && "internal"[0] == 'i' && "internal"[1] == 'n' && "entrypoints"[0] == 'e';
    assert "ivr_"[0] == 'i' && "ivr_"[1] == 'v';
    assert forall s: string | IsIvrContext(s) :: s[0] == s[..4][0] && s[1] == s[..4][1];
  }

  /** Contexts other than [internal] include nothing. */
  lemma NoInclude(t: Topology, context: string, exten: string)
    requires Compilable(t) && context != "internal"
    ensures StepsOf(ExtensionsConf(t), context, exten) == FindEntry(ExtensionsConf(t).entries, context, exten)
  {
    var dp := ExtensionsConf(t);
    assert dp.includes[0] == ("internal", "entrypoints") && dp.includes[1..] == [];
    assert FindIncluded(dp, dp.includes[1..], context, exten) == None;
  }

  // ---------------------------------------------------------------- what validation guarantees

  /** What the simulation needs to know about a node of an accepted topology. */
  ghost predicate NodeSound(t: Topology, n: Node)
  {
    && Translatable(n) && NodeById(t, n.id) == Some(n) && !n.Trunk? && !n.External?
    && (forall e | e in Outgoing(t, n.id) :: e in t.edges && NodeById(t, e.target).Some?)
    && (forall e | e in Outgoing(t, n.id) && ConditionOf(e).Digit? :: IsKey(ConditionOf(e).value))
    && (n.Extension? || n.RingGroup? || n.Queue? ==>
          |Outgoing(t, n.id)| <= 1 && forall e | e in Outgoing(t, n.id) :: IsFallback(e))
    && (n.Schedule? ==> FirstWith(Outgoing(t, n.id), Open).Some? && FirstWith(Outgoing(t, n.id), Closed).Some?)
    && (n.Extension? && n.voicemail.Some? && n.voicemail.value.enabled ==> n.voicemail.value.mailbox != "")
    && (n.RingGroup? ==> MembersOf(t, n.id) != [])
  }

  lemma {:induction false} StoredMember(t: Topology, ms: seq<Membership>, m: Membership)
    requires m in ms && NodeById(t, m.memberId).Some? && NodeById(t, m.memberId).value.Extension?
    ensures MembersStored(t, ms, m.groupId) != []
  {
    if m != ms[0] {
      StoredMember(t, ms[1..], m);
    }
  }

  lemma GroupHasMembers(t: Topology, n: Node)
    requires MembershipsOk(t, t.memberships) && HasMember(t, n)
    ensures MembersOf(t, n.id) != []
  {
    var m :| m in t.memberships && m.groupId == n.id;
    var i :| 0 <= i < |t.memberships| && t.memberships[i] == m;
    assert EndsOk(t, t.memberships[i]);
    StoredMember(t, t.memberships, m);
    assert |MembersOf(t, n.id)| == |MembersStored(t, t.memberships, n.id)|;
  }

  lemma NodeTranslatable(env: Environment, n: Node)
    requires NodeOk(env, n)
    ensures Translatable(n)
  {
    if n.Schedule? {
      forall w | w in n.windows ensures ValidWindow(w) {
        var i :| 0 <= i < |n.windows| && n.windows[i] == w;
        assert ProperTimes(n.windows[i]);
      }
    }
  }

  lemma AcceptedCompiles(env: Environment, t: Topology)
    requires WellFormed(env, t)
    ensures Compilable(t) && NamesDiffer(t.nodes)
  {
    WellFormedIds(env, t);
    forall n | n in t.nodes ensures Translatable(n) {
      var i :| 0 <= i < |t.nodes| && t.nodes[i] == n;
      NodeTranslatable(env, t.nodes[i]);
    }
  }

  lemma NodeInOrder(t: Topology, n: Node) returns (i: nat)
    requires n in t.nodes
    ensures i < |t.nodes| && t.nodes[i] == n
  {
    i :| 0 <= i < |t.nodes| && t.nodes[i] == n;
  }

  lemma OutgoingKnown(t: Topology, n: Node)
    requires EdgesOk(t)
    ensures forall e | e in Outgoing(t, n.id) :: e in t.edges && NodeById(t, e.target).Some?
    ensures forall e | e in Outgoing(t, n.id) && ConditionOf(e).Digit? :: IsKey(ConditionOf(e).value)
  {
    forall e | e in Outgoing(t, n.id)
      ensures e in t.edges && NodeById(t, e.target).Some? && (ConditionOf(e).Digit? ==> IsKey(ConditionOf(e).value))
    {
      EdgeIsOk(t, e);
    }
  }

  lemma OutgoingFallback(t: Topology, n: Node)
    requires EdgesOk(t) && n in t.nodes && NodeById(t, n.id) == Some(n)
    requires n.Extension? || n.RingGroup? || n.Queue?
    ensures |Outgoing(t, n.id)| <= 1 && forall e | e in Outgoing(t, n.id) :: IsFallback(e)
  {
    assert OutputsOk(t, n);
    forall e | e in Outgoing(t, n.id) ensures IsFallback(e) {
      EdgeIsOk(t, e);
      assert ConditionFits(n, ConditionOf(e));
    }
  }

  lemma ScheduleOutputs(t: Topology, n: Node)
    requires EdgesOk(t) && n in t.nodes && n.Schedule?
    ensures FirstWith(Outgoing(t, n.id), Open).Some? && FirstWith(Outgoing(t, n.id), Closed).Some?
  {
    assert OutputsOk(t, n);
    var e :| e in t.edges && e.source == n.id && ConditionOf(e) == Open;
    var f :| f in t.edges && f.source == n.id && ConditionOf(f) == Closed;
    assert e in Outgoing(t, n.id) && f in Outgoing(t, n.id);
  }

  lemma NodeBasics(env: Environment, t: Topology, n: Node)
    requires NodesOk(env, t.nodes) && UniqueNodeIds(t) && n in t.nodes
    ensures Translatable(n) && NodeById(t, n.id) == Some(n) && !n.Trunk? && !n.External?
    ensures n.Extension? && n.voicemail.Some? && n.voicemail.value.enabled ==> n.voicemail.value.mailbox != ""
  {
    var i := NodeInOrder(t, n);
    FindUnique(t.nodes, i);
    assert NodeOk(env, t.nodes[i]);
    NodeTranslatable(env, n);
  }

  lemma NodeConnections(t: Topology, n: Node)
    requires EdgesOk(t) && MembershipsOk(t, t.memberships) && GroupsHaveMembers(t) && n in t.nodes
    requires Translatable(n) && NodeById(t, n.id) == Some(n) && !n.Trunk? && !n.External?
    requires n.Extension? && n.voicemail.Some? && n.voicemail.value.enabled ==> n.voicemail.value.mailbox != ""
    ensures NodeSound(t, n)
  {
    OutgoingKnown(t, n);
    if n.Extension? || n.RingGroup? || n.Queue? {
      OutgoingFallback(t, n);
    }
    if n.Schedule? {
      ScheduleOutputs(t, n);
    }
    if n.RingGroup? {
      GroupHasMembers(t, n);
    }
  }

  lemma SoundNode(env: Environment, t: Topology, n: Node)
    requires WellFormed(env, t) && n in t.nodes
    ensures NodeSound(t, n)
  {
    WellFormedIds(env, t);
    NodeBasics(env, t, n);
    NodeConnections(t, n);
  }

  /** Name resolution: every node of an accepted topology is linked to the steps generated for it. */
  lemma LinkedNode(env: Environment, t: Topology, n: Node)
    requires WellFormed(env, t) && n in t.nodes
    ensures Compilable(t) && Linked(t, ExtensionsConf(t), n)
  {
    AcceptedCompiles(env, t);
    SoundNode(env, t, n);
    var i := NodeInOrder(t, n);
    NamesOfContexts();
    FindCallflow(t, t.nodes, i);
    FileContexts(t, CALLFLOW, NodeName(n.id));
    NoInclude(t, CALLFLOW, NodeName(n.id));
    if n.Extension? {
      LinkedNumber(env, t, i);
    }
    if n.Ivr? {
      LinkedIvr(env, t, i);
    }
  }

  lemma AcceptedNumbers(env: Environment, nodes: seq<Node>)
    requires NodesOk(env, nodes)
    ensures NumbersDiffer(nodes)
  {
    forall a, b | 0 <= a < b < |nodes| && nodes[a].Extension? && nodes[b].Extension?
      ensures nodes[a].number != nodes[b].number
    {
      assert Apart(nodes[a], nodes[b]);
    }
  }

  /** The two copies of an extension's steps differ only for an enabled voicemail without a mailbox. */
  lemma SameSteps(t: Topology, n: Node)
    requires n.Extension? && NodeSound(t, n)
    ensures CallflowSteps(t, n) == Some(InternalSteps(t, n))
  {
    assert InternalSteps(t, n)
        == [Line(NoOp), Line(Dial([Device(n)], 20.0))] + Finish(FallbackEdge(Outgoing(t, n.id)), OwnMailbox(n));
  }

  lemma LinkedNumber(env: Environment, t: Topology, i: nat)
    requires WellFormed(env, t) && i < |t.nodes| && t.nodes[i].Extension? && NodeSound(t, t.nodes[i]) && Compilable(t)
    ensures StepsOf(ExtensionsConf(t), "internal", t.nodes[i].number) == CallflowSteps(t, t.nodes[i])
  {
    AcceptedNumbers(env, t.nodes);
    FindInternal(t, t.nodes, i);
    FileContexts(t, "internal", t.nodes[i].number);
    SameSteps(t, t.nodes[i]);
  }

  lemma IvrLookup(t: Topology, i: nat, exten: string)
    requires Compilable(t) && NamesDiffer(t.nodes) && i < |t.nodes| && t.nodes[i].Ivr?
    ensures StepsOf(ExtensionsConf(t), IvrContext(t.nodes[i].id), exten)
            == FindEntry(IvrEntries(t, t.nodes[i]), IvrContext(t.nodes[i].id), exten)
  {
    var context := IvrContext(t.nodes[i].id);
    assert IsIvrContext(context);
    FileContexts(t, context, exten);
    FindIvr(t, t.nodes, i, exten);
    NoInclude(t, context, exten);
  }

  lemma LinkedIvr(env: Environment, t: Topology, i: nat)
    requires WellFormed(env, t) && i < |t.nodes| && t.nodes[i].Ivr? && NodeSound(t, t.nodes[i])
    requires Compilable(t) && NamesDiffer(t.nodes)
    ensures IvrLinked(t, ExtensionsConf(t), t.nodes[i])
  {
    var n := t.nodes[i];
    FixedNames();
    IvrLookup(t, i, "s");
    IvrLookup(t, i, "t");
    IvrLookup(t, i, "i");
    IvrLookup(t, i, "giveup");
    FindFixed(t, n, "s");
    FindFixed(t, n, "t");
    FindFixed(t, n, "i");
    FindFixed(t, n, "giveup");
    forall key: Key ensures KeyLinked(t, ExtensionsConf(t), n, key) {
      IvrLookup(t, i, [key]);
      FindPressed(t, n, key);
    }
  }
}
