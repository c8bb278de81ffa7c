/** The generated file as a whole: everything is defined once, and every jump lands on a step. */
module FileTheorems {
  import opened Text
  import opened Topologies
  import opened Schedules
  import opened Dialplans
  import opened ScheduleRules
  import opened NodeRules
  import opened EdgeRules
  import opened Generator
  import opened Linking
  import opened Validator

  // ---------------------------------------------------------------- one definition per extension

  predicate SameName(x: Entry, y: Entry) { x.context == y.context && x.exten == y.exten }

  ghost predicate DefinedOnce(entries: seq<Entry>)
  {
    forall i, j | 0 <= i < j < |entries| :: !SameName(entries[i], entries[j])
  }

  ghost predicate NoneShared(a: seq<Entry>, b: seq<Entry>)
  {
    forall x, y | x in a && y in b :: !SameName(x, y)
  }

  lemma OnceAppend(a: seq<Entry>, b: seq<Entry>)
    requires DefinedOnce(a) && DefinedOnce(b) && NoneShared(a, b)
    ensures DefinedOnce(a + b)
  {
    forall i, j | 0 <= i < j < |a + b| ensures !SameName((a + b)[i], (a + b)[j]) {
      if i < |a| <= j {
        assert a[i] in a && b[j - |a|] in b;
      }
    }
  }

  lemma {:induction false} InternalNames(t: Topology, nodes: seq<Node>)
    ensures forall x | x in InternalEntries(t, nodes) ::
              exists i :: 0 <= i < |nodes| && nodes[i].Extension? && nodes[i].number == x.exten
  {
    if nodes != [] {
      InternalNames(t, nodes[1..]);
      forall x | x in InternalEntries(t, nodes)
        ensures exists i :: 0 <= i < |nodes| && nodes[i].Extension? && nodes[i].number == x.exten
      {
        if x in InternalEntries(t, nodes[1..]) {
          var i :| 0 <= i < |nodes[1..]| && nodes[1..][i].Extension? && nodes[1..][i].number == x.exten;
          assert nodes[i + 1].number == x.exten;
        } else {
          assert nodes[0].number == x.exten;
        }
      }
    }
  }

  lemma {:induction false} InternalOnce(t: Topology, nodes: seq<Node>)
    requires NumbersDiffer(nodes)
    ensures DefinedOnce(InternalEntries(t, nodes))
  {
    if nodes != [] {
      InternalOnce(t, nodes[1..]);
      InternalNames(t, nodes[1..]);
      var first := if nodes[0].Extension? then [Entry("internal", nodes[0].number, InternalSteps(t, nodes[0]))] else [];
      forall x, y | x in first && y in InternalEntries(t, nodes[1..]) ensures !SameName(x, y) {
        var i :| 0 <= i < |nodes[1..]| && nodes[1..][i].Extension? && nodes[1..][i].number == y.exten;
        assert nodes[0].number != nodes[i + 1].number;
      }
      OnceAppend(first, InternalEntries(t, nodes[1..]));
    }
  }

  lemma {:induction false} EntryPointNames(nodes: seq<Node>, first: nat)
    ensures forall x | x in EntryPoints(nodes, first) :: AllDigits(x.exten) && DecimalValue(x.exten) >= first
    decreases |nodes|
  {
    if nodes != [] {
      EntryPointNames(nodes[1..], first + 1);
    }
  }

  lemma {:induction false} EntryPointsOnce(nodes: seq<Node>, first: nat)
    ensures DefinedOnce(EntryPoints(nodes, first))
    decreases |nodes|
  {
    if nodes != [] {
      EntryPointsOnce(nodes[1..], first + 1);
      EntryPointNames(nodes[1..], first + 1);
      var own := [Entry("entrypoints", Decimal(first), [Line(Goto(ToNode(nodes[0].id)))])];
      assert DecimalValue(own[0].exten) == first;
      OnceAppend(own, EntryPoints(nodes[1..], first + 1));
    }
  }

  lemma {:induction false} CallflowNames(t: Topology, nodes: seq<Node>)
    requires forall n | n in nodes :: Translatable(n)
    ensures forall x | x in CallflowEntries(t, nodes) ::
              exists i :: 0 <= i < |nodes| && x.exten == NodeName(nodes[i].id)
  {
    if nodes != [] {
      CallflowNames(t, nodes[1..]);
      forall x | x in CallflowEntries(t, nodes)
        ensures exists i :: 0 <= i < |nodes| && x.exten == NodeName(nodes[i].id)
      {
        if x in CallflowEntries(t, nodes[1..]) {
          var i :| 0 <= i < |nodes[1..]| && x.exten == NodeName(nodes[1..][i].id);
          assert x.exten == NodeName(nodes[i + 1].id);
        } else {
          assert x.exten == NodeName(nodes[0].id);
        }
      }
    }
  }

  lemma {:induction false} CallflowOnce(t: Topology, nodes: seq<Node>)
    requires NamesDiffer(nodes) && forall n | n in nodes :: Translatable(n)
    ensures DefinedOnce(CallflowEntries(t, nodes))
  {
    if nodes != [] {
      CallflowOnce(t, nodes[1..]);
      CallflowNames(t, nodes[1..]);
      forall x, y | x in CallflowEntry(t, nodes[0]) && y in CallflowEntries(t, nodes[1..]) ensures !SameName(x, y) {
        var i :| 0 <= i < |nodes[1..]| && y.exten == NodeName(nodes[1..][i].id);
        NodeNamesDiffer(nodes[0].id, nodes[i + 1].id);
      }
      OnceAppend(CallflowEntry(t, nodes[0]), CallflowEntries(t, nodes[1..]));
    }
  }

  /** Outgoing edges in order, with different conditions on any two of them. */
  ghost predicate ConditionsDiffer(edges: seq<Edge>)
  {
    forall i, j | 0 <= i < j < |edges| :: ConditionOf(edges[i]) != ConditionOf(edges[j])
  }

  lemma {:induction false} OutgoingDiffer(edges: seq<Edge>, id: string)
    requires forall i, j | 0 <= i < j < |edges| :: EdgesApart(edges[i], edges[j])
    ensures ConditionsDiffer(EdgesFrom(edges, id))
  {
    if edges != [] {
      OutgoingDiffer(edges[1..], id);
      if edges[0].source == id {
        var rest := EdgesFrom(edges[1..], id);
        forall j | 0 <= j < |rest| ensures ConditionOf(edges[0]) != ConditionOf(rest[j]) {
          assert rest[j] in edges[1..];
          var k :| 0 <= k < |edges[1..]| && edges[1..][k] == rest[j];
          assert EdgesApart(edges[0], edges[k + 1]);
        }
      }
    }
  }

  lemma {:induction false} KeysOnce(context: string, edges: seq<Edge>)
    requires ConditionsDiffer(edges)
    ensures DefinedOnce(KeyEntries(context, edges))
  {
    if edges != [] {
      KeysOnce(context, edges[1..]);
      KeyContext(context, edges[1..]);
      match edges[0].condition {
        case Some(Digit(value)) =>
          var own := [Entry(context, value, [Line(Goto(ToNode(edges[0].target)))])];
          forall x, y | x in own && y in KeyEntries(context, edges[1..]) ensures !SameName(x, y) {
            var e :| e in edges[1..] && e.condition == Some(Digit(y.exten));
            var k :| 0 <= k < |edges[1..]| && edges[1..][k] == e;
            assert ConditionOf(edges[0]) != ConditionOf(edges[k + 1]);
          }
          OnceAppend(own, KeyEntries(context, edges[1..]));
        case _ =>
      }
    }
  }

  ghost predicate MenuReady(t: Topology, n: Node)
  {
    && ConditionsDiffer(Outgoing(t, n.id))
    && forall e | e in Outgoing(t, n.id) && ConditionOf(e).Digit? :: IsKey(ConditionOf(e).value)
  }

  lemma MenuOnce(t: Topology, n: Node)
    requires n.Ivr? && MenuReady(t, n)
    ensures DefinedOnce(IvrEntries(t, n))
  {
    var context, edges := IvrContext(n.id), Outgoing(t, n.id);
    var keys := KeyEntries(context, edges);
    var first := [Entry(context, "s", StartSteps(n))];
    var last := [Entry(context, "t", TimeoutSteps(edges)), Entry(context, "i", InvalidSteps(n, edges)),
                 Entry(context, "giveup", [Line(Hangup)])];
    KeysOnce(context, edges);
    KeyContext(context, edges);
    forall x | x in keys ensures IsKey(x.exten) {
      var e :| e in edges && e.condition == Some(Digit(x.exten));
      assert ConditionOf(e).Digit?;
    }
    FixedNames();
    OnceAppend(first, keys);
    OnceAppend(first + keys, last);
  }

  lemma {:induction false} MenuContexts(t: Topology, nodes: seq<Node>)
    ensures forall x | x in AllIvrEntries(t, nodes) ::
              exists i :: 0 <= i < |nodes| && x.context == IvrContext(nodes[i].id)
  {
    if nodes != [] {
      MenuContexts(t, nodes[1..]);
      forall x | x in AllIvrEntries(t, nodes)
        ensures exists i :: 0 <= i < |nodes| && x.context == IvrContext(nodes[i].id)
      {
        if x in AllIvrEntries(t, nodes[1..]) {
          var i :| 0 <= i < |nodes[1..]| && x.context == IvrContext(nodes[1..][i].id);
          assert x.context == IvrContext(nodes[i + 1].id);
        } else {
          IvrEntriesContext(t, nodes[0]);
          assert x.context == IvrContext(nodes[0].id);
        }
      }
    }
  }

  lemma {:induction false} MenusOnce(t: Topology, nodes: seq<Node>)
    requires NamesDiffer(nodes) && forall n | n in nodes :: MenuReady(t, n)
    ensures DefinedOnce(AllIvrEntries(t, nodes))
  {
    if nodes != [] {
      MenusOnce(t, nodes[1..]);
      MenuContexts(t, nodes[1..]);
      assert MenuReady(t, nodes[0]);
      if nodes[0].Ivr? {
        MenuOnce(t, nodes[0]);
        IvrEntriesContext(t, nodes[0]);
        forall x, y | x in IvrEntries(t, nodes[0]) && y in AllIvrEntries(t, nodes[1..]) ensures !SameName(x, y) {
          var i :| 0 <= i < |nodes[1..]| && y.context == IvrContext(nodes[1..][i].id);
          NodeNamesDiffer(nodes[0].id, nodes[i + 1].id);
        }
        OnceAppend(IvrEntries(t, nodes[0]), AllIvrEntries(t, nodes[1..]));
      }
    }
  }

  lemma AcceptedMenus(env: Environment, t: Topology)
    requires WellFormed(env, t)
    ensures forall n | n in t.nodes :: MenuReady(t, n)
  {
    forall n | n in t.nodes ensures MenuReady(t, n) {
      OutgoingDiffer(t.edges, n.id);
      OutgoingKnown(t, n);
    }
  }

  /** In the file of an accepted topology no extension of any context is defined twice. */
  lemma EverythingDefinedOnce(env: Environment, t: Topology)
    requires WellFormed(env, t)
    ensures Compilable(t) && DefinedOnce(ExtensionsConf(t).entries)
  {
    AcceptedCompiles(env, t);
    AcceptedNumbers(env, t.nodes);
    AcceptedMenus(env, t);
    var a, b := InternalEntries(t, t.nodes), EntryPoints(t.nodes, ENTRYPOINT_BASE);
    var c, d := CallflowEntries(t, t.nodes), AllIvrEntries(t, t.nodes);
    InternalOnce(t, t.nodes);
    EntryPointsOnce(t.nodes, ENTRYPOINT_BASE);
    CallflowOnce(t, t.nodes);
    MenusOnce(t, t.nodes);
    InternalContext(t, t.nodes);
    EntryPointContext(t.nodes, ENTRYPOINT_BASE);
    CallflowContext(t, t.nodes);
    IvrContexts(t, t.nodes);
    NamesOfContexts();
    OnceAppend(a, b);
    OnceAppend(a + b, c);
    OnceAppend(a + b + c, d);
  }

  // ---------------------------------------------------------------- no dangling jumps

  function JumpOf(app: App): Option<Target>
  {
    match app
    case Goto(target) => Some(target)
    case GotoIfAtLeast(_, _, target) => Some(target)
    case GotoIfDate(_, _, target) => Some(target)
    case GotoIfTime(_, _, _, _, target) => Some(target)
    case _ => None
  }

  /** There is a step where the jump leads. */
  ghost predicate Lands(dp: Dialplan, target: Target) { Fetch(dp, Resolve(dp, target)).Some? }

  ghost predicate JumpsLand(dp: Dialplan, steps: seq<Step>)
  {
    forall s | s in steps && JumpOf(s.app).Some? :: Lands(dp, JumpOf(s.app).value)
  }

  ghost predicate AllLand(dp: Dialplan, entries: seq<Entry>) { forall x | x in entries :: JumpsLand(dp, x.steps) }

  /** The places that generated steps jump to for a node. */
  ghost predicate Reachable(dp: Dialplan, t: Topology, n: Node)
  {
    && Lands(dp, ToNode(n.id))
    && (forall e | e in Outgoing(t, n.id) :: Lands(dp, ToNode(e.target)))
    && (n.Ivr? ==>
          && Lands(dp, Target(IvrContext(n.id), "s", Priority(1)))
          && Lands(dp, Target(IvrContext(n.id), "s", Labelled("menu")))
          && Lands(dp, Target(IvrContext(n.id), "giveup", Priority(1))))
  }

  lemma NodeLands(env: Environment, t: Topology, n: Node)
    requires WellFormed(env, t) && n in t.nodes
    ensures Compilable(t) && Lands(ExtensionsConf(t), ToNode(n.id))
  {
    LinkedNode(env, t, n);
    assert |CallflowSteps(t, n).value| >= 1;
  }

  lemma MenuLands(t: Topology, dp: Dialplan, n: Node)
    requires n.Ivr? && IvrLinked(t, dp, n)
    ensures Lands(dp, Target(IvrContext(n.id), "s", Priority(1)))
    ensures Lands(dp, Target(IvrContext(n.id), "giveup", Priority(1)))
    ensures Lands(dp, Target(IvrContext(n.id), "s", Labelled("menu")))
  {
    var steps := StartSteps(n);
    assert steps[1..][1..][0] == steps[2] && steps[2].tag == "menu";
    assert steps[0].tag == "" && steps[1..][0].tag == "";
    assert FindTag(steps[1..][1..], "menu") == Some(0);
    assert FindTag(steps[1..], "menu") == Some(1);
    assert FindTag(steps, "menu") == Some(2);
  }

  lemma NodeReachable(env: Environment, t: Topology, n: Node)
    requires WellFormed(env, t) && n in t.nodes
    ensures Compilable(t) && Reachable(ExtensionsConf(t), t, n)
  {
    NodeLands(env, t, n);
    OutgoingKnown(t, n);
    forall e | e in Outgoing(t, n.id) ensures Lands(ExtensionsConf(t), ToNode(e.target)) {
      NodeLands(env, t, NodeById(t, e.target).value);
    }
    if n.Ivr? {
      LinkedNode(env, t, n);
      MenuLands(t, ExtensionsConf(t), n);
    }
  }

  lemma {:induction false} WindowJumps(windows: seq<Window>, timezone: string, open: Target)
    requires ValidWindows(windows)
    ensures forall s | s in WindowSteps(windows, timezone, open) :: JumpOf(s.app) == Some(open)
  {
    if windows != [] {
      assert windows[0] in windows;
      WindowJumps(windows[1..], timezone, open);
    }
  }

  lemma ScheduleJumps(t: Topology, dp: Dialplan, n: Node)
    requires n.Schedule? && Translatable(n) && Reachable(dp, t, n)
    ensures JumpsLand(dp, ScheduleSteps(t, n))
  {
    var edges := Outgoing(t, n.id);
    var open, closed := FirstWith(edges, Open), FirstWith(edges, Closed);
    if open.Some? && closed.Some? {
      WindowJumps(n.windows, n.timezone, ToNode(open.value.target));
      forall s | s in HolidaySteps(n.holidays, n.timezone, ToNode(closed.value.target))
        ensures JumpOf(s.app) == Some(ToNode(closed.value.target))
      {
      }
    }
  }

  lemma RingJumps(t: Topology, n: Node)
    requires n.RingGroup?
    ensures forall s | s in RingGroupDialLines(t, n) :: JumpOf(s.app) == None
  {
  }

  lemma QuietSteps(dp: Dialplan, steps: seq<Step>)
    requires forall s | s in steps :: JumpOf(s.app) == None
    ensures JumpsLand(dp, steps)
  {
  }

  lemma JumpsAppend(dp: Dialplan, a: seq<Step>, b: seq<Step>)
    requires JumpsLand(dp, a) && JumpsLand(dp, b)
    ensures JumpsLand(dp, a + b)
  {
  }

  lemma FallbackJump(t: Topology, dp: Dialplan, n: Node, rest: seq<Step>)
    requires Reachable(dp, t, n) && JumpsLand(dp, rest)
    ensures var fallback := FallbackEdge(Outgoing(t, n.id));
            fallback.Some? ==> JumpsLand(dp, [Line(Goto(ToNode(fallback.value.target)))] + rest)
  {
  }

  lemma FinishJumps(t: Topology, dp: Dialplan, n: Node, mailbox: string)
    requires Reachable(dp, t, n)
    ensures JumpsLand(dp, Finish(FallbackEdge(Outgoing(t, n.id)), mailbox))
  {
    FallbackJump(t, dp, n, [Line(Hangup)]);
  }

  lemma CallJumps(t: Topology, dp: Dialplan, n: Node)
    requires (n.Extension? || n.RingGroup? || n.Queue?) && Reachable(dp, t, n)
    ensures JumpsLand(dp, CallflowSteps(t, n).value)
  {
    var fallback := FallbackEdge(Outgoing(t, n.id));
    if n.Extension? {
      FinishJumps(t, dp, n, OwnMailbox(n));
      JumpsAppend(dp, [Line(NoOp), Line(Dial([Device(n)], 20.0))], Finish(fallback, OwnMailbox(n)));
    } else if n.RingGroup? {
      RingJumps(t, n);
      FinishJumps(t, dp, n, "");
      QuietSteps(dp, [Line(NoOp)] + RingGroupDialLines(t, n));
      JumpsAppend(dp, [Line(NoOp)] + RingGroupDialLines(t, n), Finish(fallback, ""));
    } else {
      FinishJumps(t, dp, n, "");
      JumpsAppend(dp, [Line(NoOp), Line(EnterQueue(Sanitize(n.id), n.maxWaitTime))], Finish(fallback, ""));
    }
  }

  lemma CallflowJumps(t: Topology, dp: Dialplan, n: Node)
    requires Translatable(n) && Reachable(dp, t, n)
    ensures AllLand(dp, CallflowEntry(t, n))
  {
    if n.Schedule? {
      ScheduleJumps(t, dp, n);
    } else if n.Extension? || n.RingGroup? || n.Queue? {
      CallJumps(t, dp, n);
    }
  }

  lemma InternalJumps(t: Topology, dp: Dialplan, n: Node)
    requires n.Extension? && Reachable(dp, t, n)
    ensures JumpsLand(dp, InternalSteps(t, n))
  {
    var fallback := FallbackEdge(Outgoing(t, n.id));
    var start := [Line(NoOp), Line(Dial([Device(n)], 20.0))];
    if fallback.Some? {
      FallbackJump(t, dp, n, [Line(Hangup)]);
      JumpsAppend(dp, start, [Line(Goto(ToNode(fallback.value.target)))] + [Line(Hangup)]);
      assert InternalSteps(t, n) == start + ([Line(Goto(ToNode(fallback.value.target)))] + [Line(Hangup)]);
    } else {
      QuietSteps(dp, InternalSteps(t, n));
    }
  }

  lemma {:induction false} KeyJumps(dp: Dialplan, context: string, edges: seq<Edge>)
    requires forall e | e in edges :: Lands(dp, ToNode(e.target))
    ensures AllLand(dp, KeyEntries(context, edges))
  {
    if edges != [] {
      KeyJumps(dp, context, edges[1..]);
    }
  }

  lemma TimeoutJumps(t: Topology, dp: Dialplan, n: Node)
    requires n.Ivr? && Reachable(dp, t, n)
    ensures JumpsLand(dp, TimeoutSteps(Outgoing(t, n.id)))
  {
    var e := FirstWith(Outgoing(t, n.id), Timeout);
    assert e.Some? ==> Lands(dp, ToNode(e.value.target));
  }

  lemma InvalidJumps(t: Topology, dp: Dialplan, n: Node)
    requires n.Ivr? && Reachable(dp, t, n)
    ensures JumpsLand(dp, InvalidSteps(n, Outgoing(t, n.id)))
  {
    var e := FirstWith(Outgoing(t, n.id), Invalid);
    assert e.Some? ==> Lands(dp, ToNode(e.value.target));
  }

  lemma MenuJumps(t: Topology, dp: Dialplan, n: Node)
    requires n.Ivr? && Reachable(dp, t, n)
    ensures AllLand(dp, IvrEntries(t, n))
  {
    var context, edges := IvrContext(n.id), Outgoing(t, n.id);
    KeyJumps(dp, context, edges);
    TimeoutJumps(t, dp, n);
    InvalidJumps(t, dp, n);
    var last := [Entry(context, "t", TimeoutSteps(edges)), Entry(context, "i", InvalidSteps(n, edges)),
                 Entry(context, "giveup", [Line(Hangup)])];
    QuietSteps(dp, StartSteps(n));
    QuietSteps(dp, last[2].steps);
    assert IvrEntries(t, n) == [Entry(context, "s", StartSteps(n))] + KeyEntries(context, edges) + last;
  }

  lemma {:induction false} SectionsLand(t: Topology, dp: Dialplan, nodes: seq<Node>, first: nat)
    requires forall n | n in nodes :: Translatable(n) && Reachable(dp, t, n)
    ensures AllLand(dp, InternalEntries(t, nodes)) && AllLand(dp, EntryPoints(nodes, first))
    ensures AllLand(dp, CallflowEntries(t, nodes)) && AllLand(dp, AllIvrEntries(t, nodes))
    decreases |nodes|
  {
    if nodes != [] {
      var n := nodes[0];
      assert n in nodes && Reachable(dp, t, n);
      SectionsLand(t, dp, nodes[1..], first + 1);
      CallflowJumps(t, dp, n);
      if n.Extension? {
        InternalJumps(t, dp, n);
      }
      if n.Ivr? {
        MenuJumps(t, dp, n);
      }
    }
  }

  /** In the file of an accepted topology every jump of every step lands on a step. */
  lemma EveryJumpLands(env: Environment, t: Topology)
    requires WellFormed(env, t)
    ensures Compilable(t) && AllLand(ExtensionsConf(t), ExtensionsConf(t).entries)
  {
    AcceptedCompiles(env, t);
    forall n | n in t.nodes ensures Reachable(ExtensionsConf(t), t, n) {
      NodeReachable(env, t, n);
    }
    SectionsLand(t, ExtensionsConf(t), t.nodes, ENTRYPOINT_BASE);
  }
}
