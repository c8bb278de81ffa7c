/** validateTopology (shared/src/validator.ts), after the shape check: all rules together. */
module Validator {
  import opened Text
  import opened Topologies
  import opened Graphs
  import opened Issues
  import opened CycleCheck
  import opened CycleTheorems
  import opened ScheduleRules
  import opened NodeRules
  import opened EdgeRules

  /** The rules apart from the cycle check. */
  ghost predicate WellFormed(env: Environment, t: Topology)
  {
    && NodesOk(env, t.nodes) && EdgesOk(t)
    && MembershipsOk(t, t.memberships) && !KeysClash(t.memberships) && GroupsHaveMembers(t)
  }

  ghost predicate Accepted(env: Environment, t: Topology)
  {
    WellFormed(env, t) && !ReportsCycle(t)
  }

  /** Every error of the cycle check is an infinite cycle. */
  lemma {:induction false} CycleErrorsAreInfinite(r: Tally, cs: seq<seq<Edge>>)
    requires forall x | x in r.issues :: x.code == "infinite-cycle" && x.severity == Error
    ensures forall x | x in RecordAll(r, cs).issues :: x.code == "infinite-cycle" && x.severity == Error
    decreases |cs|
  {
    if cs != [] && !r.truncated {
      CycleErrorsAreInfinite(Record(r, cs[0]), cs[1..]);
    }
  }

  lemma CycleErrors(g: Search)
    requires g.Sound()
    ensures HasErrors(CheckIssues(g)) <==> Reports(CheckIssues(g), "infinite-cycle")
  {
    CycleErrorsAreInfinite(START, AllCycles(g));
  }

  /** No error is reported exactly when the topology obeys every rule and no cycle is reported. */
  method ValidateTopology(env: Environment, t: Topology) returns (issues: seq<Issue>)
    ensures HasErrors(issues) <==> !Accepted(env, t)
  {
    issues := ValidateNodes(env, t);
    var edgeIssues := ValidateEdges(t);
    issues := Plus(issues, edgeIssues);
    var membershipIssues := ValidateMemberships(t);
    issues := Plus(issues, membershipIssues);
    var groupIssues := ValidateGroupsHaveMembers(t);
    issues := Plus(issues, groupIssues);
    var cycleIssues := FindUnsafeCycles(t);
    CycleErrors(SearchOf(t));
    issues := Plus(issues, cycleIssues);
  }

  lemma WellFormedIds(env: Environment, t: Topology)
    requires WellFormed(env, t)
    ensures UniqueNodeIds(t) && UniqueEdgeIds(t)
    ensures forall i, j | 0 <= i < j < |t.nodes| :: Sanitize(t.nodes[i].id) != Sanitize(t.nodes[j].id)
  {
    forall i, j | 0 <= i < j < |t.nodes|
      ensures t.nodes[i].id != t.nodes[j].id && Sanitize(t.nodes[i].id) != Sanitize(t.nodes[j].id)
    {
      assert Apart(t.nodes[i], t.nodes[j]);
    }
    forall i, j | 0 <= i < j < |t.edges| ensures t.edges[i].id != t.edges[j].id {
      assert EdgesApart(t.edges[i], t.edges[j]);
    }
  }

  lemma EdgeIsOk(t: Topology, e: Edge)
    requires EdgesOk(t) && e in t.edges
    ensures EdgeOk(t, e) && KnownEnds(t, e)
  {
    var i :| 0 <= i < |t.edges| && t.edges[i] == e;
  }

  ghost function NodeIds(t: Topology): set<string> { set n | n in t.nodes :: n.id }

  lemma NodeIdsCount(t: Topology)
    ensures |NodeIds(t)| <= |t.nodes|
  {
    NodeIdsCountOf(t.nodes);
  }

  lemma {:induction false} NodeIdsCountOf(nodes: seq<Node>)
    ensures |(set n | n in nodes :: n.id)| <= |nodes|
  {
    if nodes != [] {
      var k := |nodes| - 1;
      NodeIdsCountOf(nodes[..k]);
      assert nodes == nodes[..k] + [nodes[k]];
      assert (set n | n in nodes :: n.id) == (set n | n in nodes[..k] :: n.id) + {nodes[k].id};
    }
  }

  /**
   * In an accepted topology without overlooked cycles, every walk of as many edges as there are nodes
   * takes a timeout or invalid edge.
   */
  lemma LongWalkTakesExit(env: Environment, t: Topology, w: seq<Edge>)
    requires Accepted(env, t) && !Overlooked(t)
    requires IsTrail(w) && Within(w, t.edges) && |w| > 0 && |w| >= |t.nodes|
    ensures !ExitFree(w)
  {
    WellFormedIds(env, t);
    NothingOverlooked(t);
    NodeIdsCount(t);
    forall i | 0 <= i < |w| ensures w[i].source in NodeIds(t) && w[i].target in NodeIds(t) && KnownEnds(t, w[i]) {
      assert w[i] in t.edges;
      EdgeIsOk(t, w[i]);
    }
    var d := LongTrailCloses(w, NodeIds(t));
    assert AlongEdges(t, w) && AlongEdges(t, d);
    assert ExitFree(w) ==> ExitFree(d);
  }

  ghost predicate LongWalksExit(t: Topology)
  {
    forall w | IsTrail(w) && Within(w, t.edges) && |w| > 0 && |w| >= |t.nodes| :: !ExitFree(w)
  }

  /** A closed walk taken again and again. */
  lemma {:induction false} GoAround(w: seq<Edge>, n: nat) returns (r: seq<Edge>)
    requires IsClosed(w)
    ensures IsTrail(r) && |r| >= n && |r| > 0 && r[0] == w[0] && forall e | e in r :: e in w
  {
    if n == 0 {
      r := w;
    } else {
      var rest := GoAround(w, n - 1);
      r := w + rest;
    }
  }

  lemma UnsafeLoopGoesOn(t: Topology)
    requires HasUnsafeLoop(t)
    ensures !LongWalksExit(t)
  {
    var w :| IsClosed(w) && ExitFree(w) && AlongEdges(t, w);
    var r := GoAround(w, |t.nodes|);
    assert IsTrail(r) && Within(r, t.edges) && |r| > 0 && |r| >= |t.nodes| && ExitFree(r);
  }

  /** An accepted topology makes every long walk take an exit if and only if no cycle was overlooked. */
  lemma AcceptedWalksExit(env: Environment, t: Topology)
    requires Accepted(env, t)
    ensures LongWalksExit(t) <==> !Overlooked(t)
  {
    if Overlooked(t) {
      WellFormedIds(env, t);
      UnreportedIsOverlooked(t);
      UnsafeLoopGoesOn(t);
    } else {
      forall w | IsTrail(w) && Within(w, t.edges) && |w| > 0 && |w| >= |t.nodes| ensures !ExitFree(w) {
        LongWalkTakesExit(env, t, w);
      }
    }
  }
}
