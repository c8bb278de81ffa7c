/** Topologies that the validator misjudges because it compares joined texts (shared/src/validator.ts). */
module Oversights {
  import opened Text
  import opened Topologies
  import opened Graphs
  import opened CycleCheck
  import opened CycleTheorems
  import opened ScheduleRules
  import opened NodeRules
  import opened EdgeRules
  import opened Validator

  // ---------------------------------------------------------------- an unsafe loop that is accepted

  function Phone(id: string, number: string): Node { Extension(id, number, id, None, None, None) }

  function Menu(id: string, greeting: string): Node { Ivr(id, greeting, 5.0, 3.0) }

  /** Two menus and two phones; the second menu and phone send the caller back and forth for ever. */
  function TwoMenus(greeting: string): Topology
  {
    Topology([Menu("a", greeting), Phone("b", "100"), Phone("c", "101"), Menu("d", greeting)],
             [Edge("1,2", "a", "b", Some(Timeout)), Edge("3", "b", "a", None),
              Edge("1", "c", "d", None), Edge("2,3", "d", "c", Some(Digit("1")))],
             [])
  }

  lemma SingleNames()
    ensures Sanitize("a") == "a" && Sanitize("b") == "b" && Sanitize("c") == "c" && Sanitize("d") == "d"
  {
    SanitizeName("a");
    SanitizeName("b");
    SanitizeName("c");
    SanitizeName("d");
  }

  lemma SanitizeName(id: string)
    requires forall i | 0 <= i < |id| :: IsNameChar(id[i])
    ensures Sanitize(id) == id
  {
  }

  /** Four things that are fine alone and in pairs are fine as a list. */
  lemma Four<T>(fine: T -> bool, apart: (T, T) -> bool, a: T, b: T, c: T, d: T)
    requires fine(a) && fine(b) && fine(c) && fine(d)
    requires apart(a, b) && apart(a, c) && apart(a, d) && apart(b, c) && apart(b, d) && apart(c, d)
    ensures forall i | 0 <= i < 4 :: fine([a, b, c, d][i])
    ensures forall i, j | 0 <= i < j < 4 :: apart([a, b, c, d][i], [a, b, c, d][j])
  {
  }

  lemma FourNodesOk(env: Environment, a: Node, b: Node, c: Node, d: Node)
    requires NodeOk(env, a) && NodeOk(env, b) && NodeOk(env, c) && NodeOk(env, d)
    requires Apart(a, b) && Apart(a, c) && Apart(a, d) && Apart(b, c) && Apart(b, d) && Apart(c, d)
    ensures NodesOk(env, [a, b, c, d])
  {
    var fine, apart := (n: Node) => NodeOk(env, n), (m: Node, n: Node) => Apart(m, n);
    Four(fine, apart, a, b, c, d);
    var nodes := [a, b, c, d];
    forall i | 0 <= i < |nodes| ensures NodeOk(env, nodes[i]) {
      assert fine(nodes[i]);
    }
    forall i, j | 0 <= i < j < |nodes| ensures Apart(nodes[i], nodes[j]) {
      assert apart(nodes[i], nodes[j]);
    }
  }

  /** Nodes other than phones and mailboxes only compete for their names. */
  lemma NamesApart(a: Node, b: Node)
    requires a.Ivr? || a.RingGroup?
    requires Sanitize(a.id) != Sanitize(b.id)
    ensures Apart(a, b) && Apart(b, a)
  {
  }

  lemma PhoneOk(env: Environment, id: string, number: string)
    requires id != "" && forall i | 0 <= i < |id| :: IsNameChar(id[i])
    requires |number| == 3 && AllDigits(number) && number[1] == '0'
    ensures NodeOk(env, Phone(id, number))
  {
    assert number != "110" && number != "112" by {
      assert "110"[1] == '1' && "112"[1] == '1';
    }
  }

  lemma MenuOk(env: Environment, id: string, greeting: string)
    requires id != "" && IsGreeting(greeting) && (env.sounds.Some? ==> greeting in env.sounds.value)
    ensures NodeOk(env, Menu(id, greeting))
  {
    assert (5.0).Floor as real == 5.0;
  }

  lemma PhonesApart(a: string, m: string, b: string, n: string)
    requires Sanitize(a) != Sanitize(b) && m != n
    ensures Apart(Phone(a, m), Phone(b, n))
  {
  }

  lemma MenuNodesOk(env: Environment, greeting: string)
    requires IsGreeting(greeting) && (env.sounds.Some? ==> greeting in env.sounds.value)
    ensures NodesOk(env, TwoMenus(greeting).nodes)
  {
    SingleNames();
    assert "a"[0] == 'a' && "b"[0] == 'b' && "c"[0] == 'c' && "d"[0] == 'd' && "100"[2] == '0' && "101"[2] == '1';
    var a, b, c, d := Menu("a", greeting), Phone("b", "100"), Phone("c", "101"), Menu("d", greeting);
    MenuOk(env, "a", greeting);
    MenuOk(env, "d", greeting);
    PhoneOk(env, "b", "100");
    PhoneOk(env, "c", "101");
    NamesApart(a, b);
    NamesApart(a, c);
    NamesApart(a, d);
    NamesApart(d, b);
    NamesApart(d, c);
    PhonesApart("b", "100", "c", "101");
    FourNodesOk(env, a, b, c, d);
  }

  lemma EdgeFits(t: Topology, e: Edge, source: Node, target: Node)
    requires NodeById(t, e.source) == Some(source) && NodeById(t, e.target) == Some(target) && e.source != e.target
    requires IsTransitionAllowed(source, target) && ConditionFits(source, ConditionOf(e))
    ensures EdgeOk(t, e)
  {
  }

  /** Four nodes with these ids, in this order. */
  ghost predicate InOrder(t: Topology, a: Node, b: Node, c: Node, d: Node)
  {
    && t.nodes == [a, b, c, d]
    && a.id != b.id && a.id != c.id && a.id != d.id && b.id != c.id && b.id != d.id && c.id != d.id
  }

  lemma FourFound(t: Topology, a: Node, b: Node, c: Node, d: Node)
    requires InOrder(t, a, b, c, d)
    ensures NodeById(t, a.id) == Some(a) && NodeById(t, b.id) == Some(b)
    ensures NodeById(t, c.id) == Some(c) && NodeById(t, d.id) == Some(d)
  {
    FindUnique(t.nodes, 0);
    FindUnique(t.nodes, 1);
    FindUnique(t.nodes, 2);
    FindUnique(t.nodes, 3);
  }

  /** Two phones and two menus joined to two loops, as far as the edge rules care. */
  ghost predicate Loops(t: Topology, a: Node, b: Node, c: Node, d: Node)
  {
    && InOrder(t, a, b, c, d) && a.Ivr? && b.Extension? && c.Extension? && d.Ivr? && |t.edges| == 4
    && t.edges[0].source == a.id == t.edges[1].target && t.edges[1].source == b.id == t.edges[0].target
    && t.edges[2].source == c.id == t.edges[3].target && t.edges[3].source == d.id == t.edges[2].target
    && ConditionOf(t.edges[0]) == Timeout && ConditionOf(t.edges[1]) == Unconditional
    && ConditionOf(t.edges[2]) == Unconditional && ConditionOf(t.edges[3]) == Digit("1")
    && (forall i, j | 0 <= i < j < 4 :: t.edges[i].id != t.edges[j].id)
  }

  lemma LoopEdgesOk(t: Topology, a: Node, b: Node, c: Node, d: Node)
    requires Loops(t, a, b, c, d)
    ensures EdgeListOk(t, t.edges)
  {
    FourFound(t, a, b, c, d);
    EdgeFits(t, t.edges[0], a, b);
    EdgeFits(t, t.edges[1], b, a);
    EdgeFits(t, t.edges[2], c, d);
    EdgeFits(t, t.edges[3], d, c);
  }

  lemma {:induction false} NoneOutgoing(edges: seq<Edge>, id: string)
    requires forall e | e in edges :: e.source != id
    ensures EdgesFrom(edges, id) == []
  {
    if edges != [] {
      NoneOutgoing(edges[1..], id);
    }
  }

  lemma {:induction false} OneOutgoing(edges: seq<Edge>, id: string)
    requires forall i, j | 0 <= i < j < |edges| :: edges[i].source != id || edges[j].source != id
    ensures |EdgesFrom(edges, id)| <= 1
  {
    if edges != [] {
      OneOutgoing(edges[1..], id);
      if edges[0].source == id {
        NoneOutgoing(edges[1..], id);
      }
    }
  }

  lemma LoopOutputsOk(t: Topology, a: Node, b: Node, c: Node, d: Node)
    requires Loops(t, a, b, c, d)
    ensures OutputsOk(t, a) && OutputsOk(t, b) && OutputsOk(t, c) && OutputsOk(t, d)
  {
    OneOutgoing(t.edges, b.id);
    OneOutgoing(t.edges, c.id);
  }

  lemma LoopsEdgesOk(t: Topology, a: Node, b: Node, c: Node, d: Node)
    requires Loops(t, a, b, c, d)
    ensures EdgesOk(t)
  {
    LoopEdgesOk(t, a, b, c, d);
    LoopOutputsOk(t, a, b, c, d);
  }

  lemma NoGroupsOk(t: Topology)
    requires t.memberships == [] && forall n | n in t.nodes :: !IsGroup(n)
    ensures MembershipsOk(t, t.memberships) && !KeysClash(t.memberships) && GroupsHaveMembers(t)
  {
  }

  lemma AllRulesObeyed(env: Environment, t: Topology)
    requires NodesOk(env, t.nodes) && EdgesOk(t) && t.memberships == [] && forall n | n in t.nodes :: !IsGroup(n)
    ensures WellFormed(env, t)
  {
    NoGroupsOk(t);
  }

  /** If the edge ids of the two loops join to the same key, the second loop goes unreported. */
  lemma SecondLoopUnseen(t: Topology, a: Node, b: Node, c: Node, d: Node)
    requires Loops(t, a, b, c, d) && UniqueNodeIds(t) && UniqueEdgeIds(t)
    requires Key([t.edges[0], t.edges[1]]) == Key([t.edges[2], t.edges[3]])
    ensures HasUnsafeLoop(t) && !Truncated(t) && !ReportsCycle(t)
  {
    var e := t.edges;
    assert e == [e[0], e[1], e[2], e[3]];
    HiddenLoop(t, e[0], e[1], e[2], e[3]);
  }

  lemma UnseenIsAccepted(env: Environment, t: Topology)
    requires WellFormed(env, t) && UniqueNodeIds(t) && UniqueEdgeIds(t) && HasUnsafeLoop(t) && !ReportsCycle(t)
    ensures Accepted(env, t) && Overlooked(t)
  {
    UnreportedIsOverlooked(t);
  }

  lemma LoopIds(t: Topology, a: Node, b: Node, c: Node, d: Node)
    requires Loops(t, a, b, c, d)
    ensures UniqueNodeIds(t) && UniqueEdgeIds(t) && forall n | n in t.nodes :: !IsGroup(n)
  {
  }

  lemma LoopsObeyRules(env: Environment, t: Topology, a: Node, b: Node, c: Node, d: Node)
    requires NodesOk(env, t.nodes) && Loops(t, a, b, c, d) && t.memberships == []
    ensures WellFormed(env, t)
  {
    LoopIds(t, a, b, c, d);
    LoopsEdgesOk(t, a, b, c, d);
    AllRulesObeyed(env, t);
  }

  lemma TwoMenusKeys(greeting: string)
    ensures var e := TwoMenus(greeting).edges; Key([e[0], e[1]]) == Key([e[2], e[3]])
  {
    var e := TwoMenus(greeting).edges;
    KeysCollide(e[0], e[1], e[2], e[3]);
  }

  /** Everything else about it is in order, so it is accepted although a caller may never leave it. */
  lemma CommaHidesUnsafeLoop(env: Environment, greeting: string)
    requires IsGreeting(greeting) && (env.sounds.Some? ==> greeting in env.sounds.value)
    ensures var t := TwoMenus(greeting);
            Accepted(env, t) && HasUnsafeLoop(t) && !Truncated(t) && Overlooked(t)
  {
    var t := TwoMenus(greeting);
    TwoMenusLoop(greeting);
    TwoMenusKeys(greeting);
    MenuNodesOk(env, greeting);
    var a, b, c, d := t.nodes[0], t.nodes[1], t.nodes[2], t.nodes[3];
    LoopIds(t, a, b, c, d);
    LoopsObeyRules(env, t, a, b, c, d);
    SecondLoopUnseen(t, a, b, c, d);
    UnseenIsAccepted(env, t);
  }

  lemma TwoMenusLoop(greeting: string)
    ensures var t := TwoMenus(greeting); Loops(t, t.nodes[0], t.nodes[1], t.nodes[2], t.nodes[3])
  {
    assert "a"[0] == 'a' && "b"[0] == 'b' && "c"[0] == 'c' && "d"[0] == 'd';
    assert "1,2"[1] == ',' && "2,3"[0] == '2' && "3"[0] == '3' && "1"[0] == '1' && |"1,2"| == 3 && |"1"| == 1
           && |"3"| == 1;
  }

  // ---------------------------------------------------------------- different memberships that are refused

  function Group(id: string): Node { RingGroup(id, "ringall", 20.0) }

  /** A phone whose id is no name, and so not its SIP name. */
  function Desk(id: string, number: string, sipUser: string): Node
  {
    Extension(id, number, sipUser, None, None, None)
  }

  /** Two groups with one phone each; a backslash and a zero inside the ids move the border of the key. */
  function TwoGroups(): Topology
  {
    Topology([Group("a\\0b"), Group("a"), Phone("c", "100"), Desk("b\\0c", "101", "b")], [],
             [Membership("m1", "a\\0b", "c", None), Membership("m2", "a", "b\\0c", None)])
  }

  lemma GroupNames()
    ensures Sanitize("a\\0b") == "a_0b" && Sanitize("b\\0c") == "b_0c" && Sanitize("a") == "a" && Sanitize("c") == "c"
  {
    SanitizeName("a");
    SanitizeName("c");
  }

  lemma GroupOk(env: Environment, id: string)
    requires id != ""
    ensures NodeOk(env, Group(id))
  {
    assert (20.0).Floor as real == 20.0;
    assert RING_STRATEGIES[0] == "ringall";
  }

  lemma DeskOk(env: Environment, id: string, number: string, sipUser: string)
    requires id != "" && NodeOk(env, Phone(sipUser, number))
    ensures NodeOk(env, Desk(id, number, sipUser))
  {
  }

  lemma PhoneAndDeskApart(a: string, m: string, b: string, n: string, sipUser: string)
    requires Sanitize(a) != Sanitize(b) && m != n && Sanitize(a) != Sanitize(sipUser)
    ensures Apart(Phone(a, m), Desk(b, n, sipUser))
  {
  }

  lemma GroupNodesOk(env: Environment)
    ensures NodesOk(env, TwoGroups().nodes)
  {
    GroupNames();
    SingleNames();
    assert |"a_0b"| == |"b_0c"| == 4 && "a_0b"[0] == 'a' && "b_0c"[0] == 'b' && "c"[0] == 'c' && "b"[0] == 'b'
           && "a"[0] == 'a';
    assert "100"[2] == '0' && "101"[2] == '1';
    var a, b, c, d := Group("a\\0b"), Group("a"), Phone("c", "100"), Desk("b\\0c", "101", "b");
    GroupOk(env, a.id);
    GroupOk(env, b.id);
    PhoneOk(env, "c", "100");
    PhoneOk(env, "b", "101");
    DeskOk(env, d.id, "101", "b");
    NamesApart(a, b);
    NamesApart(a, c);
    NamesApart(a, d);
    NamesApart(b, c);
    NamesApart(b, d);
    PhoneAndDeskApart("c", "100", d.id, "101", "b");
    FourNodesOk(env, a, b, c, d);
  }

  /** Two groups and two phones, each phone in one group, without any edge. */
  ghost predicate Paired(t: Topology, a: Node, b: Node, c: Node, d: Node)
  {
    && InOrder(t, a, b, c, d) && a.RingGroup? && b.RingGroup? && c.Extension? && d.Extension?
    && t.edges == [] && |t.memberships| == 2 && t.memberships[0].id != t.memberships[1].id
    && t.memberships[0].groupId == a.id && t.memberships[0].memberId == c.id
    && t.memberships[1].groupId == b.id && t.memberships[1].memberId == d.id
  }

  lemma TwoMemberships(t: Topology, ms: seq<Membership>)
    requires |ms| == 2 && EndsOk(t, ms[0]) && EndsOk(t, ms[1]) && ms[0].id != ms[1].id && !SamePair(ms[0], ms[1])
    ensures MembershipsOk(t, ms)
  {
  }

  lemma MemberFits(t: Topology, m: Membership, group: Node, member: Node)
    requires NodeById(t, m.groupId) == Some(group) && group.RingGroup?
    requires NodeById(t, m.memberId) == Some(member) && member.Extension?
    ensures EndsOk(t, m)
  {
  }

  lemma PairedEnds(t: Topology, a: Node, b: Node, c: Node, d: Node)
    requires Paired(t, a, b, c, d)
    ensures EndsOk(t, t.memberships[0]) && EndsOk(t, t.memberships[1])
  {
    FourFound(t, a, b, c, d);
    MemberFits(t, t.memberships[0], a, c);
    MemberFits(t, t.memberships[1], b, d);
  }

  lemma PairedApart(t: Topology, a: Node, b: Node, c: Node, d: Node)
    requires Paired(t, a, b, c, d)
    ensures var ms := t.memberships; |ms| == 2 && ms[0].id != ms[1].id && !SamePair(ms[0], ms[1])
  {
  }

  lemma PairedGroups(t: Topology, a: Node, b: Node, c: Node, d: Node)
    requires Paired(t, a, b, c, d)
    ensures GroupsHaveMembers(t)
  {
    assert t.memberships[0] in t.memberships && t.memberships[1] in t.memberships;
    assert HasMember(t, a) && HasMember(t, b);
  }

  lemma NoEdgesOk(t: Topology, a: Node, b: Node, c: Node, d: Node)
    requires Paired(t, a, b, c, d)
    ensures EdgesOk(t)
  {
    forall n | n in t.nodes ensures OutputsOk(t, n) {
      assert Outgoing(t, n.id) == [];
    }
  }

  lemma NoEdgesNoLoop(t: Topology)
    requires UniqueNodeIds(t) && t.edges == []
    ensures !ReportsCycle(t)
  {
    ReportIsRightExactlyWhen(t);
    assert forall w | IsClosed(w) :: w[0] in w && w[0] !in t.edges;
  }

  /** Every rule is obeyed, no pair is repeated, and yet the topology is refused. */
  lemma DistinctMembershipsRefused(env: Environment)
    ensures var t := TwoGroups();
            && NodesOk(env, t.nodes) && EdgesOk(t) && MembershipsOk(t, t.memberships) && GroupsHaveMembers(t)
            && !ReportsCycle(t) && !Accepted(env, t)
  {
    var t := TwoGroups();
    var a, b, c, d := t.nodes[0], t.nodes[1], t.nodes[2], t.nodes[3];
    TwoGroupsPaired();
    GroupNodesOk(env);
    PairedEnds(t, a, b, c, d);
    PairedApart(t, a, b, c, d);
    TwoMemberships(t, t.memberships);
    PairedGroups(t, a, b, c, d);
    NoEdgesOk(t, a, b, c, d);
    NoEdgesNoLoop(t);
    TwoGroupsClash();
  }

  lemma TwoGroupsPaired()
    ensures var t := TwoGroups(); Paired(t, t.nodes[0], t.nodes[1], t.nodes[2], t.nodes[3]) && UniqueNodeIds(t)
  {
    assert |"a\\0b"| == |"b\\0c"| == 4 && |"a"| == |"c"| == 1;
    assert "a\\0b"[0] == 'a' && "b\\0c"[0] == 'b' && "a"[0] == 'a' && "c"[0] == 'c' && "m1"[1] == '1' && "m2"[1] == '2';
  }

  lemma TwoGroupsClash()
    ensures KeysClash(TwoGroups().memberships)
  {
    var ms := TwoGroups().memberships;
    assert "a\\0b" + SEPARATOR + "c" == "a\\0b\\0c" == "a" + SEPARATOR + "b\\0c";
    assert |"a\\0b"| == 4 && |"a"| == 1;
    assert !SamePair(ms[0], ms[1]) && PairKey(ms[0]) == PairKey(ms[1]);
  }
}
