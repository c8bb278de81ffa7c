/** Dialling numbers and entry points, and the order of ring group members. */
module Dialling {
  import opened Text
  import opened Topologies
  import opened Dialplans
  import opened ScheduleRules
  import opened NodeRules
  import opened Generator
  import opened Linking
  import opened CallTheorems
  import opened Validator

  // ---------------------------------------------------------------- extension numbers

  function Prefixed(prefix: seq<Action>, m: Machine): Machine { m.(trace := prefix + m.trace) }

  /** What happened before does not matter to a step. */
  lemma Run1Prefixed(dp: Dialplan, prefix: seq<Action>, m: Machine)
    ensures Run1(dp, Prefixed(prefix, m)) == Prefixed(prefix, Run1(dp, m))
  {
    if m.at.Running? && Fetch(dp, m.at).Some? {
      ExecutePrefixed(dp, prefix, m, Fetch(dp, m.at).value);
    }
  }

  lemma ExecutePrefixed(dp: Dialplan, prefix: seq<Action>, m: Machine, app: App)
    requires m.at.Running?
    ensures Execute(dp, Prefixed(prefix, m), app) == Prefixed(prefix, Execute(dp, m, app))
  {
    forall a: Action ensures prefix + m.trace + [a] == prefix + (m.trace + [a]) {
    }
  }

  /** The same position behind the extension's number and in the callflow context. */
  ghost predicate Twins(n: Node, a: Cursor, b: Cursor)
    requires n.Extension?
  {
    a == b || (a.Running? && b.Running? && a.priority == b.priority >= 2
               && a == Running(CALLFLOW, NodeName(n.id), a.priority) && b == Running("internal", n.number, b.priority))
  }

  ghost predicate Mirror(n: Node, a: Machine, b: Machine)
    requires n.Extension?
  {
    a == Prefixed([Entered(NodeName(n.id))], b.(at := a.at)) && Twins(n, a.at, b.at)
  }

  lemma ExtensionApps(t: Topology, n: Node, i: nat)
    requires n.Extension? && 1 <= i < |CallflowSteps(t, n).value|
    ensures var app := CallflowSteps(t, n).value[i].app; app.Dial? || app.Goto? || app.VoiceMail? || app.Hangup?
  {
  }

  lemma SameFetch(t: Topology, dp: Dialplan, n: Node, a: Cursor, b: Cursor)
    requires NodeSound(t, n) && Linked(t, dp, n) && n.Extension? && Twins(n, a, b) && a != b
    ensures Fetch(dp, a) == Fetch(dp, b)
    ensures Fetch(dp, a).Some?
            ==> var app := Fetch(dp, a).value; app.Dial? || app.Goto? || app.VoiceMail? || app.Hangup?
  {
    if 1 <= a.priority <= |CallflowSteps(t, n).value| {
      ExtensionApps(t, n, a.priority - 1);
    }
  }

  lemma MirrorExecute(dp: Dialplan, n: Node, a: Machine, b: Machine, app: App)
    requires n.Extension? && Mirror(n, a, b) && a.at != b.at && a.at.Running?
    requires app.Dial? || app.Goto? || app.VoiceMail? || app.Hangup?
    ensures Mirror(n, Execute(dp, a, app), Execute(dp, b, app))
  {
    ExecutePrefixed(dp, [Entered(NodeName(n.id))], b, app);
  }

  lemma MirrorStep(t: Topology, dp: Dialplan, n: Node, a: Machine, b: Machine)
    requires NodeSound(t, n) && Linked(t, dp, n) && n.Extension? && Mirror(n, a, b)
    ensures Mirror(n, Run1(dp, a), Run1(dp, b))
  {
    if a.at == b.at {
      assert b == b.(at := a.at);
      Run1Prefixed(dp, [Entered(NodeName(n.id))], b);
    } else {
      SameFetch(t, dp, n, a.at, b.at);
      if Fetch(dp, a.at).Some? {
        MirrorExecute(dp, n, a, b, Fetch(dp, a.at).value);
      }
    }
  }

  lemma {:induction false} MirrorRun(t: Topology, dp: Dialplan, n: Node, a: Machine, b: Machine, j: nat)
    requires NodeSound(t, n) && Linked(t, dp, n) && n.Extension? && Mirror(n, a, b)
    ensures Mirror(n, RunN(dp, a, j), RunN(dp, b, j))
    decreases j
  {
    if j > 0 {
      MirrorStep(t, dp, n, a, b);
      MirrorRun(t, dp, n, Run1(dp, a), Run1(dp, b), j - 1);
    }
  }

  /** Dialling an extension's number runs like entering its node, apart from recording that the node was entered. */
  lemma DiallingIsEntering(env: Environment, t: Topology, n: Node, vars: map<string, nat>, clock: Clock,
                           inbox: seq<Event>, j: nat)
    requires WellFormed(env, t) && n in t.nodes && n.Extension?
    ensures Compilable(t)
    ensures var dp := ExtensionsConf(t);
            RunN(dp, StartMachine(n.id, vars, clock, inbox), j + 1).trace
            == [Entered(NodeName(n.id))]
                + RunN(dp, Machine(Running("internal", n.number, 1), vars, clock, inbox, []), j + 1).trace
  {
    SoundFile(env, t);
    var dp := ExtensionsConf(t);
    FirstSteps(t, dp, n, vars, clock, inbox);
    var a, b := StartMachine(n.id, vars, clock, inbox),
        Machine(Running("internal", n.number, 1), vars, clock, inbox, []);
    MirrorRun(t, dp, n, Run1(dp, a), Run1(dp, b), j);
  }

  lemma FirstSteps(t: Topology, dp: Dialplan, n: Node, vars: map<string, nat>, clock: Clock, inbox: seq<Event>)
    requires NodeSound(t, n) && Linked(t, dp, n) && n.Extension?
    ensures Mirror(n, Run1(dp, StartMachine(n.id, vars, clock, inbox)),
                   Run1(dp, Machine(Running("internal", n.number, 1), vars, clock, inbox, [])))
  {
    NamesOfContexts();
    assert CallflowSteps(t, n).value[0] == Line(NoOp);
  }

  // ---------------------------------------------------------------- generated entry points

  lemma {:induction false} FindEntryPoint(nodes: seq<Node>, first: nat, i: nat)
    requires i < |nodes|
    ensures FindEntry(EntryPoints(nodes, first), "entrypoints", Decimal(first + i))
            == Some([Line(Goto(ToNode(nodes[i].id)))])
    decreases |nodes|
  {
    var head := [Entry("entrypoints", Decimal(first), [Line(Goto(ToNode(nodes[0].id)))])];
    FindAppend(head, EntryPoints(nodes[1..], first + 1), "entrypoints", Decimal(first + i));
    if i > 0 {
      assert DecimalValue(Decimal(first)) != DecimalValue(Decimal(first + i));
      NotIn(head, "entrypoints", Decimal(first + i));
      FindEntryPoint(nodes[1..], first + 1, i - 1);
    }
  }

  ghost predicate Shadowed(t: Topology, number: string)
  {
    exists n :: n in t.nodes && n.Extension? && n.number == number
  }

  lemma {:induction false} NumberAbsent(t: Topology, nodes: seq<Node>, number: string)
    requires forall n | n in nodes && n.Extension? :: n.number != number
    ensures FindEntry(InternalEntries(t, nodes), "internal", number) == None
  {
    if nodes != [] {
      var head := if nodes[0].Extension? then [Entry("internal", nodes[0].number, InternalSteps(t, nodes[0]))] else [];
      NumberAbsent(t, nodes[1..], number);
      NotIn(head, "internal", number);
      FindAppend(head, InternalEntries(t, nodes[1..]), "internal", number);
    }
  }

  lemma FileEntryPoint(t: Topology, i: nat, number: string)
    requires Compilable(t) && i < |t.nodes| && number == Decimal(ENTRYPOINT_BASE + i) && !Shadowed(t, number)
    ensures StepsOf(ExtensionsConf(t), "internal", number) == Some([Line(Goto(ToNode(t.nodes[i].id)))])
  {
    var dp := ExtensionsConf(t);
    NumberAbsent(t, t.nodes, number);
    FindEntryPoint(t.nodes, ENTRYPOINT_BASE, i);
    FileSections(t, "internal", number);
    FileSections(t, "entrypoints", number);
    assert dp.includes[0] == ("internal", "entrypoints");
  }

  /** Outside the call flow only the first two sections of the file can define anything. */
  lemma FileSections(t: Topology, context: string, exten: string)
    requires Compilable(t) && (context == "internal" || context == "entrypoints")
    ensures FindEntry(ExtensionsConf(t).entries, context, exten)
            == if context == "internal" then FindEntry(InternalEntries(t, t.nodes), context, exten)
               else FindEntry(EntryPoints(t.nodes, ENTRYPOINT_BASE), context, exten)
  {
    var a, b := InternalEntries(t, t.nodes), EntryPoints(t.nodes, ENTRYPOINT_BASE);
    var c, d := CallflowEntries(t, t.nodes), AllIvrEntries(t, t.nodes);
    FindAppend(a + b + c, d, context, exten);
    FindAppend(a + b, c, context, exten);
    FindAppend(a, b, context, exten);
    InternalContext(t, t.nodes);
    EntryPointContext(t.nodes, ENTRYPOINT_BASE);
    CallflowContext(t, t.nodes);
    IvrContexts(t, t.nodes);
    NamesOfContexts();
    OtherContext(c, CALLFLOW, context, exten);
    NotIn(d, context, exten);
    if context == "internal" {
      OtherContext(b, "entrypoints", context, exten);
    } else {
      OtherContext(a, "internal", context, exten);
    }
  }

  /** Dialling 600 + i enters node i when no extension has exactly that number. */
  lemma EntryPointLeadsToNode(env: Environment, t: Topology, i: nat, m: Machine)
    requires WellFormed(env, t) && i < |t.nodes| && m.at == Running("internal", Decimal(600 + i), 1)
    requires !Shadowed(t, Decimal(600 + i))
    ensures Compilable(t)
    ensures Run1(ExtensionsConf(t), m) == m.Goes(Running(CALLFLOW, NodeName(t.nodes[i].id), 1))
  {
    AcceptedCompiles(env, t);
    FileEntryPoint(t, i, Decimal(600 + i));
    JumpOnly(ExtensionsConf(t), m, ToNode(t.nodes[i].id));
  }

  lemma JumpOnly(dp: Dialplan, m: Machine, target: Target)
    requires m.at.Running? && m.at.priority == 1 && StepsOf(dp, m.at.context, m.at.exten) == Some([Line(Goto(target))])
    ensures Run1(dp, m) == m.Goes(Resolve(dp, target))
  {
  }

  /** Otherwise it runs that extension's steps, and the validator has warned of the collision. */
  lemma ShadowedEntryPoint(env: Environment, t: Topology, i: nat, n: Node)
    requires WellFormed(env, t) && i < |t.nodes| && n in t.nodes && n.Extension?
             && n.number == Decimal(600 + i)
    ensures Compilable(t)
            && StepsOf(ExtensionsConf(t), "internal", Decimal(600 + i)) == Some(InternalSteps(t, n))
    ensures SomeInEntryRange(t.nodes, |t.nodes|)
  {
    SoundNode(env, t, n);
    LinkedNode(env, t, n);
    SameSteps(t, n);
    assert InEntryRange(n, |t.nodes|);
  }

  // ---------------------------------------------------------------- the collision warning

  /** A number without the zeros in front of it. */
  function Stripped(s: string): string { if |s| > 1 && s[0] == '0' then Stripped(s[1..]) else s }

  lemma {:induction false} ZeroInFront(s: string)
    requires |s| > 1 && AllDigits(s) && s[0] == '0'
    ensures DecimalValue(s) == DecimalValue(s[1..])
  {
    var k := |s| - 1;
    assert s[1..][..k - 1] == s[..k][1..];
    if k > 1 {
      ZeroInFront(s[..k]);
    } else {
      assert s[..1] == "0" && s[..1][..0] == "" && s[1..][..0] == "";
      assert DecimalValue(s[..1]) == DecimalValue("") * 10 + DigitValue('0');
    }
  }

  lemma {:induction false} StrippedValue(s: string)
    requires s != "" && AllDigits(s)
    ensures Stripped(s) != "" && AllDigits(Stripped(s)) && DecimalValue(Stripped(s)) == DecimalValue(s)
    ensures |Stripped(s)| > 1 ==> Stripped(s)[0] != '0'
  {
    if |s| > 1 && s[0] == '0' {
      ZeroInFront(s);
      StrippedValue(s[1..]);
    }
  }

  lemma {:induction false} LeadingDigitCounts(s: string)
    requires s != "" && AllDigits(s) && s[0] != '0'
    ensures DecimalValue(s) >= 1
  {
    if |s| > 1 {
      LeadingDigitCounts(s[..|s| - 1]);
    } else {
      assert s[..0] == "";
    }
  }

  lemma PrintedStep(m: nat, d: nat)
    requires m >= 1 && d < 10
    ensures Decimal(m * 10 + d) == Decimal(m) + [DigitChar(d)]
  {
    assert (m * 10 + d) / 10 == m && (m * 10 + d) % 10 == d;
  }

  /** A numeral without zeros in front is the one that is printed for its value. */
  lemma {:induction false} NumeralIsPrinted(s: string)
    requires s != "" && AllDigits(s) && (|s| > 1 ==> s[0] != '0')
    ensures Decimal(DecimalValue(s)) == s
  {
    var k := |s| - 1;
    assert s == s[..k] + [s[k]];
    if k > 0 {
      NumeralIsPrinted(s[..k]);
      LeadingDigitCounts(s[..k]);
      PrintedStep(DecimalValue(s[..k]), DigitValue(s[k]));
    } else {
      assert s[..0] == "" && s == [s[0]];
    }
  }

  /** The validator warns of exactly the extension numbers that read, zeros in front aside, as an entry point's. */
  lemma WarnedOfEntryPoints(n: Node, count: nat)
    requires n.Extension? && n.number != "" && AllDigits(n.number)
    ensures InEntryRange(n, count) <==> exists k: nat :: 600 <= k < 600 + count && Stripped(n.number) == Decimal(k)
  {
    StrippedValue(n.number);
    NumeralIsPrinted(Stripped(n.number));
    if InEntryRange(n, count) {
      assert Stripped(n.number) == Decimal(DecimalValue(n.number));
    }
  }

  // ---------------------------------------------------------------- ring group members

  ghost predicate InPositionOrder(ms: seq<Member>)
  {
    forall i, j | 0 <= i < j < |ms| :: ms[i].position <= ms[j].position
  }

  lemma {:induction false} InsertKeepsOrder(x: Member, sorted: seq<Member>)
    requires InPositionOrder(sorted)
    ensures InPositionOrder(InsertMember(x, sorted))
  {
    if sorted != [] && !(x.position <= sorted[0].position) {
      InsertKeepsOrder(x, sorted[1..]);
      var r := InsertMember(x, sorted[1..]);
      forall y | y in r ensures sorted[0].position <= y.position {
        assert y in multiset(r) && (y == x || y in multiset(sorted[1..]));
      }
    }
  }

  function AtPosition(ms: seq<Member>, p: real): seq<Member>
  {
    if ms == [] then []
    else if ms[0].position == p then [ms[0]] + AtPosition(ms[1..], p) else AtPosition(ms[1..], p)
  }

  lemma {:induction false} InsertIsStable(x: Member, sorted: seq<Member>, p: real)
    requires InPositionOrder(sorted)
    ensures AtPosition(InsertMember(x, sorted), p) == (if x.position == p then [x] else []) + AtPosition(sorted, p)
  {
    if sorted == [] || x.position <= sorted[0].position {
      assert ([x] + sorted)[1..] == sorted;
    } else {
      InsertIsStable(x, sorted[1..], p);
      var r := InsertMember(x, sorted[1..]);
      assert ([sorted[0]] + r)[1..] == r;
      if x.position == p {
        BelowPosition(sorted, p, x);
      }
    }
  }

  lemma BelowPosition(sorted: seq<Member>, p: real, x: Member)
    requires sorted != [] && x.position == p && sorted[0].position < p
    ensures AtPosition(sorted, p) == AtPosition(sorted[1..], p)
  {
  }

  /** Members are rung in ascending position, those without or with equal positions in stored order. */
  lemma {:induction false} MembersInOrder(ms: seq<Member>, p: real)
    ensures InPositionOrder(SortMembers(ms)) && AtPosition(SortMembers(ms), p) == AtPosition(ms, p)
  {
    if ms != [] {
      MembersInOrder(ms[1..], p);
      InsertKeepsOrder(ms[0], SortMembers(ms[1..]));
      InsertIsStable(ms[0], SortMembers(ms[1..]), p);
    }
  }
}
