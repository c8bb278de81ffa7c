/** findUnsafeCycles: depth-first enumeration of simple cycles with a cap (shared/src/validator.ts). */
module CycleCheck {
  import opened Text
  import opened Topologies
  import opened Issues

  const MAX_CYCLES_EXPLORED: nat := 5000

  /** Node order, the index map built from it, and the edges whose endpoints are both known. */
  datatype Search = Search(order: seq<string>, index: map<string, nat>, arcs: seq<Edge>)
  {
    ghost predicate Sound()
    {
      && (forall i | 0 <= i < |order| :: order[i] in index)
      && (forall e | e in arcs :: e.source in index && e.target in index)
    }

    function ArcsFrom(id: string): seq<Edge> { EdgesFrom(arcs, id) }
  }

  /** `new Map(order.map((id, i) => [id, i]))`: a repeated id keeps its last position. */
  function IndexMap(order: seq<string>): (m: map<string, nat>)
    ensures forall id :: id in m <==> id in order
    ensures forall id | id in m :: m[id] < |order| && order[m[id]] == id
  {
    if order == [] then map[]
    else
      var n := |order| - 1;
      assert order == order[..n] + [order[n]];
      IndexMap(order[..n])[order[n] := n]
  }

  function KnownArcs(edges: seq<Edge>, index: map<string, nat>): (r: seq<Edge>)
    ensures forall e :: e in r <==> e in edges && e.source in index && e.target in index
  {
    if edges == [] then []
    else if edges[0].source in index && edges[0].target in index then [edges[0]] + KnownArcs(edges[1..], index)
    else KnownArcs(edges[1..], index)
  }

  function Ids(nodes: seq<Node>): (r: seq<string>)
    ensures |r| == |nodes| && forall i | 0 <= i < |r| :: r[i] == nodes[i].id
  {
    if nodes == [] then [] else [nodes[0].id] + Ids(nodes[1..])
  }

  function SearchOf(t: Topology): (g: Search)
    ensures g.Sound()
  {
    var order := Ids(t.nodes);
    var index := IndexMap(order);
    Search(order, index, KnownArcs(t.edges, index))
  }

  // ---------------------------------------------------------------- the cycles, in visiting order

  /** The cycles the walk closes from the end of `path`, leaving along `es`. */
  function Explore(g: Search, start: string, startIdx: nat, path: seq<Edge>, onPath: set<string>, es: seq<Edge>)
      : seq<seq<Edge>>
    requires g.Sound() && forall e | e in es :: e in g.arcs
    decreases g.index.Keys - onPath, |es|
  {
    if es == [] then []
    else Via(g, start, startIdx, path, onPath, es[0]) + Explore(g, start, startIdx, path, onPath, es[1..])
  }

  /** The cycles it closes when it leaves along `e`. */
  function Via(g: Search, start: string, startIdx: nat, path: seq<Edge>, onPath: set<string>, e: Edge)
      : seq<seq<Edge>>
    requires g.Sound() && e in g.arcs
    decreases g.index.Keys - onPath, 0
  {
    if g.index[e.target] < startIdx then []
    else if e.target == start then [path + [e]]
    else if e.target in onPath then []
    else Explore(g, start, startIdx, path + [e], onPath + {e.target}, g.ArcsFrom(e.target))
  }

  function CyclesAt(g: Search, s: nat): seq<seq<Edge>>
    requires g.Sound() && s < |g.order|
  {
    Explore(g, g.order[s], s, [], {g.order[s]}, g.ArcsFrom(g.order[s]))
  }

  function CyclesUpTo(g: Search, n: nat): seq<seq<Edge>>
    requires g.Sound() && n <= |g.order|
  {
    if n == 0 then [] else CyclesUpTo(g, n - 1) + CyclesAt(g, n - 1)
  }

  function AllCycles(g: Search): seq<seq<Edge>>
    requires g.Sound()
  {
    CyclesUpTo(g, |g.order|)
  }

  // ---------------------------------------------------------------- what happens to each cycle

  function EdgeIds(c: seq<Edge>): (r: seq<string>)
    ensures |r| == |c| && forall i | 0 <= i < |c| :: r[i] == c[i].id
  {
    if c == [] then [] else [c[0].id] + EdgeIds(c[1..])
  }

  predicate Precedes(a: string, b: string)
  {
    if a == "" then true
    else if b == "" then false
    else if a[0] != b[0] then a[0] < b[0]
    else Precedes(a[1..], b[1..])
  }

  function InsertSorted(s: string, sorted: seq<string>): (r: seq<string>)
    ensures multiset(r) == multiset(sorted) + multiset{s}
    ensures |r| == |sorted| + 1
  {
    if sorted == [] || Precedes(s, sorted[0]) then
      var r := [s] + sorted;
      r
    else
      assert sorted == [sorted[0]] + sorted[1..];
      [sorted[0]] + InsertSorted(s, sorted[1..])
  }

  /** `ids.sort()` */
  function Sorted(ids: seq<string>): (r: seq<string>)
    ensures multiset(r) == multiset(ids) && |r| == |ids|
  {
    if ids == [] then []
    else
      assert ids == [ids[0]] + ids[1..];
      InsertSorted(ids[0], Sorted(ids[1..]))
  }

  /** The key under which a cycle counts as already reported. */
  function Key(c: seq<Edge>): string { Join(Sorted(EdgeIds(c)), ",") }

  predicate HasExit(c: seq<Edge>) { exists e | e in c :: IsExit(e) }

  function CycleIssue(c: seq<Edge>): Issue { Issue(Error, "infinite-cycle", EdgeIds(c)) }

  datatype Tally = Tally(explored: nat, truncated: bool, reported: set<string>, issues: seq<Issue>)

  const START: Tally := Tally(0, false, {}, [])

  function Record(r: Tally, c: seq<Edge>): Tally
  {
    var n := r.explored + 1;
    if n > MAX_CYCLES_EXPLORED then r.(explored := n, truncated := true)
    else if Key(c) in r.reported then r.(explored := n)
    else Tally(n, r.truncated, r.reported + {Key(c)}, if HasExit(c) then r.issues else r.issues + [CycleIssue(c)])
  }

  function RecordAll(r: Tally, cs: seq<seq<Edge>>): Tally
    decreases |cs|
  {
    if cs == [] || r.truncated then r else RecordAll(Record(r, cs[0]), cs[1..])
  }

  lemma {:induction false} RecordAllAppend(r: Tally, a: seq<seq<Edge>>, b: seq<seq<Edge>>)
    ensures RecordAll(r, a + b) == RecordAll(RecordAll(r, a), b)
    decreases |a|
  {
    if a == [] {
      assert a + b == b;
    } else if !r.truncated {
      RecordAllAppend(Record(r, a[0]), a[1..], b);
      assert (a + b)[1..] == a[1..] + b;
    }
  }

  // ---------------------------------------------------------------- the walk itself

  /** The mutable state shared by the recursive closure `walk` and the loop around it. */
  class CycleWalk {
    const g: Search
    var onPath: set<string>
    var pathEdges: seq<Edge>
    var explored: nat
    var truncated: bool
    var reported: set<string>
    var issues: seq<Issue>

    ghost function State(): Tally reads this { Tally(explored, truncated, reported, issues) }

    constructor (g: Search)
      requires g.Sound()
      ensures this.g == g && State() == START && pathEdges == []
    {
      this.g := g;
      onPath, pathEdges := {}, [];
      explored, truncated, reported, issues := 0, false, {}, [];
    }

    method CloseCycle(edge: Edge)
      requires !truncated
      modifies this`explored, this`truncated, this`reported, this`issues
      ensures State() == Record(old(State()), pathEdges + [edge])
    {
      explored := explored + 1;
      if explored > MAX_CYCLES_EXPLORED {
        truncated := true;
        return;
      }
      var cycleEdges := pathEdges + [edge];
      var key := Key(cycleEdges);
      if key !in reported {
        reported := reported + {key};
        if !HasExit(cycleEdges) {
          issues := issues + [CycleIssue(cycleEdges)];
        }
      }
    }

    /** The body of the loop over the edges that leave the current node. */
    method Follow(start: string, startIdx: nat, edge: Edge)
      requires g.Sound() && onPath <= g.index.Keys && edge in g.arcs && !truncated
      modifies this
      ensures onPath == old(onPath) && pathEdges == old(pathEdges)
      ensures State() == RecordAll(old(State()), Via(g, start, startIdx, old(pathEdges), old(onPath), edge))
      decreases g.index.Keys - onPath, 0
    {
      if g.index[edge.target] < startIdx { return; }
      if edge.target == start {
        CloseCycle(edge);
        return;
      }
      if edge.target in onPath { return; }
      ghost var path, visited := pathEdges, onPath;
      onPath := onPath + {edge.target};
      pathEdges := pathEdges + [edge];
      Walk(start, startIdx, edge.target);
      pathEdges := pathEdges[..|pathEdges| - 1];
      onPath := onPath - {edge.target};
      assert onPath == visited && pathEdges == path;
    }

    method Walk(start: string, startIdx: nat, current: string)
      requires g.Sound() && onPath <= g.index.Keys
      modifies this
      ensures onPath == old(onPath) && pathEdges == old(pathEdges)
      ensures State() == RecordAll(old(State()),
                                   Explore(g, start, startIdx, old(pathEdges), old(onPath), g.ArcsFrom(current)))
      decreases g.index.Keys - onPath, 1
    {
      if truncated { return; }
      var es := g.ArcsFrom(current);
      ghost var all := Explore(g, start, startIdx, pathEdges, onPath, es);
      var i := 0;
      assert es[0..] == es;
      while i < |es| && !truncated
        invariant 0 <= i <= |es|
        invariant onPath == old(onPath) && pathEdges == old(pathEdges)
        invariant RecordAll(old(State()), all)
                  == RecordAll(State(), Explore(g, start, startIdx, pathEdges, onPath, es[i..]))
      {
        ghost var via := Via(g, start, startIdx, pathEdges, onPath, es[i]);
        assert es[i..][0] == es[i] && es[i..][1..] == es[i + 1..];
        RecordAllAppend(State(), via, Explore(g, start, startIdx, pathEdges, onPath, es[i + 1..]));
        Follow(start, startIdx, es[i]);
        i := i + 1;
      }
    }

    /** The search from one start node. */
    method WalkFrom(startIdx: nat)
      requires g.Sound() && startIdx < |g.order| && pathEdges == []
      modifies this
      ensures pathEdges == []
      ensures State() == RecordAll(old(State()), CyclesAt(g, startIdx))
    {
      var start := g.order[startIdx];
      onPath := {start};
      Walk(start, startIdx, start);
    }

    /** The loop over the start nodes, which ends early once the search is cut short. */
    method WalkAll()
      requires g.Sound() && State() == START && pathEdges == []
      modifies this
      ensures State() == Outcome(g)
    {
      var startIdx := 0;
      ghost var tally := START;
      NothingReached(g);
      while startIdx < |g.order| && !truncated
        invariant Reached(g, startIdx, tally)
        invariant tally == State() && pathEdges == []
      {
        WalkFrom(startIdx);
        CyclesAtNext(g, startIdx, tally, State());
        startIdx, tally := startIdx + 1, State();
      }
      LaterCyclesIgnored(g, startIdx, tally);
    }
  }

  /** The whole outcome of the check as a function of the enumerated cycles. */
  function Outcome(g: Search): Tally
    requires g.Sound()
  {
    RecordAll(START, AllCycles(g))
  }

  function CheckIssues(g: Search): seq<Issue>
    requires g.Sound()
  {
    Outcome(g).issues + if Outcome(g).truncated then [Issue(Warning, "cycle-check-truncated", [])] else []
  }

  lemma {:induction false} CyclesUpToPrefix(g: Search, n: nat)
    requires g.Sound() && n <= |g.order|
    ensures exists rest :: AllCycles(g) == CyclesUpTo(g, n) + rest
    decreases |g.order| - n
  {
    if n == |g.order| {
      assert AllCycles(g) == CyclesUpTo(g, n) + [];
    } else {
      CyclesUpToPrefix(g, n + 1);
      var rest :| AllCycles(g) == CyclesUpTo(g, n + 1) + rest;
      assert AllCycles(g) == CyclesUpTo(g, n) + (CyclesAt(g, n) + rest);
    }
  }

  /** The tally of the cycles from the first n start nodes. */
  ghost predicate Reached(g: Search, n: nat, tally: Tally)
    requires g.Sound()
  {
    n <= |g.order| && tally == RecordAll(START, CyclesUpTo(g, n))
  }

  lemma NothingReached(g: Search)
    requires g.Sound()
    ensures Reached(g, 0, START)
  {
  }

  lemma LaterCyclesIgnored(g: Search, n: nat, tally: Tally)
    requires g.Sound() && Reached(g, n, tally) && (n < |g.order| ==> tally.truncated)
    ensures tally == Outcome(g)
  {
    if n < |g.order| {
      CyclesUpToPrefix(g, n);
      var rest :| AllCycles(g) == CyclesUpTo(g, n) + rest;
      RecordAllAppend(START, CyclesUpTo(g, n), rest);
    }
  }

  /** What the search from one more start node adds. */
  lemma CyclesAtNext(g: Search, n: nat, before: Tally, after: Tally)
    requires g.Sound() && n < |g.order| && Reached(g, n, before)
    requires after == RecordAll(before, CyclesAt(g, n))
    ensures Reached(g, n + 1, after)
  {
    RecordAllAppend(START, CyclesUpTo(g, n), CyclesAt(g, n));
  }

  method EnumerateCycles(g: Search) returns (issues: seq<Issue>)
    requires g.Sound()
    ensures issues == CheckIssues(g)
  {
    var walk := new CycleWalk(g);
    walk.WalkAll();
    issues := walk.issues;
    if walk.truncated {
      issues := issues + [Issue(Warning, "cycle-check-truncated", [])];
    }
  }

  method FindUnsafeCycles(t: Topology) returns (issues: seq<Issue>)
    ensures issues == CheckIssues(SearchOf(t))
  {
    issues := EnumerateCycles(SearchOf(t));
  }
}
