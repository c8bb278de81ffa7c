/** The versioned call-flow graph: nodes, edges and group memberships (shared/src/types.ts). */
module Topologies {
  import opened Text

  datatype Condition = Digit(value: string) | Timeout | Invalid | Open | Closed | Unconditional

  datatype Edge = Edge(id: string, source: string, target: string, condition: Option<Condition>)

  datatype Voicemail = Voicemail(enabled: bool, mailbox: string)

  /** A weekly opening window; times are local wall-clock `HH:MM`, the end is exclusive. */
  datatype Window = Window(id: string, weekdays: seq<int>, start: string, end: string)

  datatype Node =
    | Extension(id: string, number: string, sipUser: string, sipPassword: Option<string>,
                configured: Option<bool>, voicemail: Option<Voicemail>)
    | Ivr(id: string, greeting: string, timeout: real, invalidRetries: real)
    | RingGroup(id: string, strategy: string, ringTimeout: real)
    | Queue(id: string, strategy: string, timeout: real, maxWaitTime: real,
            joinEmpty: string, leaveWhenEmpty: string)
    | Schedule(id: string, timezone: string, windows: seq<Window>, holidays: seq<string>)
    | VoicemailBox(id: string, mailbox: string)
    | Trunk(id: string)
    | External(id: string)

  datatype Membership = Membership(id: string, groupId: string, memberId: string, position: Option<real>)

  datatype Topology = Topology(nodes: seq<Node>, edges: seq<Edge>, memberships: seq<Membership>)

  /** `edge.condition?.type ?? 'unconditional'` */
  function ConditionOf(e: Edge): Condition
  {
    if e.condition.Some? then e.condition.value else Unconditional
  }

  /** Only timeout and invalid edges count as the exit of a cycle. */
  predicate IsExit(e: Edge) { e.condition == Some(Timeout) || e.condition == Some(Invalid) }

  /** `topology.nodes.find((n) => n.id === id)` */
  function FindNode(nodes: seq<Node>, id: string): (r: Option<Node>)
    ensures r.Some? ==> r.value in nodes && r.value.id == id
    ensures r.None? <==> forall n | n in nodes :: n.id != id
  {
    if nodes == [] then None
    else if nodes[0].id == id then Some(nodes[0])
    else
      var r := FindNode(nodes[1..], id);
      assert forall n :: n in nodes <==> n == nodes[0] || n in nodes[1..];
      r
  }

  function NodeById(t: Topology, id: string): Option<Node> { FindNode(t.nodes, id) }

  /** `edges.filter((e) => e.source === id)` */
  function EdgesFrom(edges: seq<Edge>, id: string): (r: seq<Edge>)
    ensures forall e :: e in r <==> e in edges && e.source == id
  {
    if edges == [] then []
    else if edges[0].source == id then [edges[0]] + EdgesFrom(edges[1..], id)
    else EdgesFrom(edges[1..], id)
  }

  /** Edges keep their order. */
  lemma {:induction false} EdgesFromAppend(a: seq<Edge>, b: seq<Edge>, id: string)
    ensures EdgesFrom(a + b, id) == EdgesFrom(a, id) + EdgesFrom(b, id)
  {
    if a == [] {
      assert a + b == b;
    } else {
      assert (a + b)[1..] == a[1..] + b;
      EdgesFromAppend(a[1..], b, id);
    }
  }

  function Outgoing(t: Topology, id: string): seq<Edge> { EdgesFrom(t.edges, id) }

  ghost predicate UniqueNodeIds(t: Topology)
  {
    forall i, j | 0 <= i < j < |t.nodes| :: t.nodes[i].id != t.nodes[j].id
  }

  ghost predicate UniqueEdgeIds(t: Topology)
  {
    forall i, j | 0 <= i < j < |t.edges| :: t.edges[i].id != t.edges[j].id
  }

  lemma {:induction false} FindUnique(nodes: seq<Node>, i: nat)
    requires i < |nodes|
    requires forall a, b | 0 <= a < b < |nodes| :: nodes[a].id != nodes[b].id
    ensures FindNode(nodes, nodes[i].id) == Some(nodes[i])
  {
    if i > 0 {
      FindUnique(nodes[1..], i - 1);
    }
  }
}
