/** What the cycle check finds: each simple cycle once, the cap, and the meaning of `infinite-cycle`. */
module CycleTheorems {
  import opened Text
  import opened Topologies
  import opened Graphs
  import opened Issues
  import opened CycleCheck

  ghost predicate UniqueOrder(g: Search)
  {
    && g.Sound()
    && (forall i | 0 <= i < |g.order| :: g.index[g.order[i]] == i)
    && (forall id | id in g.index :: g.index[id] < |g.order| && g.order[g.index[id]] == id)
  }

  /** The index map of distinct ids is their position. */
  lemma {:induction false} IndexOfDistinct(order: seq<string>)
    requires forall i, j | 0 <= i < j < |order| :: order[i] != order[j]
    ensures forall i | 0 <= i < |order| :: IndexMap(order)[order[i]] == i
  {
    if order != [] {
      var n := |order| - 1;
      IndexOfDistinct(order[..n]);
      assert order == order[..n] + [order[n]];
      forall i | 0 <= i < n ensures IndexMap(order)[order[i]] == i {
        assert order[i] == order[..n][i];
      }
    }
  }

  ghost predicate KnownEnds(t: Topology, e: Edge)
  {
    NodeById(t, e.source).Some? && NodeById(t, e.target).Some?
  }

  lemma SearchIsUnique(t: Topology)
    requires UniqueNodeIds(t)
    ensures UniqueOrder(SearchOf(t))
    ensures forall e :: e in SearchOf(t).arcs <==> e in t.edges && KnownEnds(t, e)
  {
    var g := SearchOf(t);
    IndexOfDistinct(g.order);
    forall id ensures id in g.index <==> NodeById(t, id).Some? {
      if NodeById(t, id).Some? {
        var i :| 0 <= i < |t.nodes| && t.nodes[i] == NodeById(t, id).value;
        assert g.order[i] == id;
      }
      if id in g.index {
        var i :| 0 <= i < |g.order| && g.order[i] == id;
        assert t.nodes[i].id == id;
      }
    }
  }

  // ---------------------------------------------------------------- the walk enumerates exactly

  /** `c` leaves `start`, comes back to it at its end only, and otherwise visits later nodes once each. */
  ghost predicate Completes(g: Search, start: string, s: nat, c: seq<Edge>)
    requires g.Sound()
  {
    && |c| > 0 && IsTrail(c) && Within(c, g.arcs)
    && c[0].source == start && c[|c| - 1].target == start
    && (forall i | 0 <= i < |c| - 1 :: c[i] in g.arcs && c[i].target != start && g.index[c[i].target] >= s)
    && (forall i, j | 0 <= i < j < |c| - 1 :: c[i].target != c[j].target)
  }

  ghost function Targets(c: seq<Edge>): set<string> { set e | e in c :: e.target }

  ghost predicate OnWay(g: Search, start: string, s: nat, path: seq<Edge>, onPath: set<string>)
    requires g.Sound()
  {
    && start in g.index && g.index[start] >= s
    && IsTrail(path) && Within(path, g.arcs) && (path != [] ==> path[0].source == start)
    && (forall i | 0 <= i < |path| :: path[i] in g.arcs && path[i].target != start && g.index[path[i].target] >= s)
    && (forall i, j | 0 <= i < j < |path| :: path[i].target != path[j].target)
    && onPath == {start} + Targets(path)
  }

  lemma OnWayStep(g: Search, start: string, s: nat, path: seq<Edge>, onPath: set<string>, e: Edge)
    requires g.Sound() && OnWay(g, start, s, path, onPath) && e in g.arcs && e.source == End(start, path)
    requires g.index[e.target] >= s && e.target !in onPath
    ensures OnWay(g, start, s, path + [e], onPath + {e.target})
  {
    assert Targets(path + [e]) == Targets(path) + {e.target};
    forall i | 0 <= i < |path| ensures path[i].target in onPath {
      assert path[i] in path;
    }
  }

  ghost function End(start: string, path: seq<Edge>): string
  {
    if path == [] then start else path[|path| - 1].target
  }

  ghost predicate Extends(c: seq<Edge>, path: seq<Edge>, e: Edge)
  {
    |c| > |path| && c[..|path|] == path && c[|path|] == e
  }

  lemma {:induction false} ExploreExact(g: Search, start: string, s: nat, path: seq<Edge>, onPath: set<string>,
                                        es: seq<Edge>, c: seq<Edge>)
    requires g.Sound() && OnWay(g, start, s, path, onPath)
    requires forall e | e in es :: e in g.arcs && e.source == End(start, path)
    ensures c in Explore(g, start, s, path, onPath, es)
            <==> Completes(g, start, s, c) && exists e :: e in es && Extends(c, path, e)
    decreases g.index.Keys - onPath, |es|
  {
    if es != [] {
      ViaExact(g, start, s, path, onPath, es[0], c);
      ExploreExact(g, start, s, path, onPath, es[1..], c);
      assert forall e :: e in es <==> e == es[0] || e in es[1..];
    }
  }

  lemma {:induction false} ViaExact(g: Search, start: string, s: nat, path: seq<Edge>, onPath: set<string>,
                                    e: Edge, c: seq<Edge>)
    requires g.Sound() && OnWay(g, start, s, path, onPath)
    requires e in g.arcs && e.source == End(start, path)
    ensures c in Via(g, start, s, path, onPath, e) <==> Completes(g, start, s, c) && Extends(c, path, e)
    decreases g.index.Keys - onPath, 0
  {
    if e.target == start {
      ClosingEdge(g, start, s, path, onPath, e, c);
    } else if g.index[e.target] < s || e.target in onPath {
      BlockedEdge(g, start, s, path, onPath, e, c);
    } else {
      OnWayStep(g, start, s, path, onPath, e);
      ExploreExact(g, start, s, path + [e], onPath + {e.target}, g.ArcsFrom(e.target), c);
      if Completes(g, start, s, c) {
        OnwardEdge(g, start, s, path, e, c);
      }
    }
  }

  lemma OnwardEdge(g: Search, start: string, s: nat, path: seq<Edge>, e: Edge, c: seq<Edge>)
    requires g.Sound() && e.target != start && Completes(g, start, s, c)
    ensures Extends(c, path, e) <==> exists f :: f in g.ArcsFrom(e.target) && Extends(c, path + [e], f)
  {
    if Extends(c, path, e) {
      TrailStep(c, |path|);
      assert Extends(c, path + [e], c[|path| + 1]);
    }
    if f :| f in g.ArcsFrom(e.target) && Extends(c, path + [e], f) {
      assert c[..|path|] == c[..|path| + 1][..|path|];
    }
  }

  lemma ClosingEdge(g: Search, start: string, s: nat, path: seq<Edge>, onPath: set<string>, e: Edge, c: seq<Edge>)
    requires g.Sound() && OnWay(g, start, s, path, onPath)
    requires e in g.arcs && e.source == End(start, path) && e.target == start
    ensures c == path + [e] <==> Completes(g, start, s, c) && Extends(c, path, e)
  {
    if c == path + [e] {
      assert Completes(g, start, s, c);
    }
    if Completes(g, start, s, c) && Extends(c, path, e) {
      assert |c| == |path| + 1;
      assert c == c[..|path|] + [c[|path|]];
    }
  }

  lemma BlockedEdge(g: Search, start: string, s: nat, path: seq<Edge>, onPath: set<string>, e: Edge, c: seq<Edge>)
    requires g.Sound() && OnWay(g, start, s, path, onPath)
    requires e in g.arcs && e.target != start && (g.index[e.target] < s || e.target in onPath)
    ensures !(Completes(g, start, s, c) && Extends(c, path, e))
  {
    if e.target in onPath {
      var k :| 0 <= k < |path| && path[k].target == e.target;
      assert Extends(c, path, e) ==> c[k] == c[..|path|][k];
    }
  }

  ghost predicate Distinct<T>(s: seq<T>) { forall i, j | 0 <= i < j < |s| :: s[i] != s[j] }

  lemma DistinctAppend<T>(a: seq<T>, b: seq<T>)
    requires Distinct(a) && Distinct(b) && forall x :: x in a ==> x !in b
    ensures Distinct(a + b)
  {
    var s := a + b;
    forall i, j | 0 <= i < j < |s| ensures s[i] != s[j] {
      assert i < |a| ==> s[i] in a;
      assert j >= |a| ==> s[j] == b[j - |a|] && s[j] in b;
    }
  }

  lemma {:induction false} ExploreDistinct(g: Search, start: string, s: nat, path: seq<Edge>, onPath: set<string>,
                                           es: seq<Edge>)
    requires g.Sound() && OnWay(g, start, s, path, onPath) && Distinct(es) && Distinct(g.arcs)
    requires forall e | e in es :: e in g.arcs && e.source == End(start, path)
    ensures Distinct(Explore(g, start, s, path, onPath, es))
    decreases g.index.Keys - onPath, |es|
  {
    if es != [] {
      var e := es[0];
      var first, rest := Via(g, start, s, path, onPath, e), Explore(g, start, s, path, onPath, es[1..]);
      ExploreDistinct(g, start, s, path, onPath, es[1..]);
      if g.index[e.target] >= s && e.target != start && e.target !in onPath {
        OnWayStep(g, start, s, path, onPath, e);
        EdgesFromDistinct(g.arcs, e.target);
        ExploreDistinct(g, start, s, path + [e], onPath + {e.target}, g.ArcsFrom(e.target));
      }
      forall c | c in first ensures c !in rest {
        ViaExact(g, start, s, path, onPath, e, c);
        ExploreExact(g, start, s, path, onPath, es[1..], c);
        assert e !in es[1..];
      }
      DistinctAppend(first, rest);
    }
  }

  lemma {:induction false} EdgesFromDistinct(edges: seq<Edge>, id: string)
    requires Distinct(edges)
    ensures Distinct(EdgesFrom(edges, id))
  {
    if edges != [] {
      EdgesFromDistinct(edges[1..], id);
      assert edges[0] !in edges[1..];
    }
  }

  lemma {:induction false} KnownArcsDistinct(edges: seq<Edge>, index: map<string, nat>)
    requires Distinct(edges)
    ensures Distinct(KnownArcs(edges, index))
  {
    if edges != [] {
      KnownArcsDistinct(edges[1..], index);
      assert edges[0] !in edges[1..];
    }
  }

  // ---------------------------------------------------------------- canonical simple cycles

  /** A simple cycle written from its node of lowest index. */
  ghost predicate IsCanonical(g: Search, c: seq<Edge>)
    requires g.Sound()
  {
    && IsSimpleCycle(c) && Within(c, g.arcs)
    && forall i | 0 <= i < |c| :: c[i] in g.arcs && c[0] in g.arcs
                                   && g.index[c[0].source] <= g.index[c[i].source]
  }

  lemma CompletesIsCanonical(g: Search, s: nat, c: seq<Edge>)
    requires UniqueOrder(g) && s < |g.order|
    ensures Completes(g, g.order[s], s, c) <==> IsCanonical(g, c) && c[0].source == g.order[s]
  {
    if Completes(g, g.order[s], s, c) {
      forall i | 0 < i < |c| ensures c[i].source == c[i - 1].target {
        TrailStep(c, i - 1);
      }
      forall i | 0 <= i < |c| ensures g.index[c[0].source] <= g.index[c[i].source] {
        if i > 0 {
          assert c[i].source == c[i - 1].target;
        }
      }
      forall i, j | 0 <= i < j < |c| ensures c[i].source != c[j].source {
        assert c[j].source == c[j - 1].target;
        if i > 0 {
          assert c[i].source == c[i - 1].target;
        }
      }
    }
    if IsCanonical(g, c) && c[0].source == g.order[s] {
      forall i | 0 <= i < |c| - 1
        ensures c[i].target != g.order[s] && g.index[c[i].target] >= s
      {
        assert c[i].target == c[i + 1].source;
      }
      forall i, j | 0 <= i < j < |c| - 1 ensures c[i].target != c[j].target {
        assert c[i].target == c[i + 1].source && c[j].target == c[j + 1].source;
      }
    }
  }

  lemma CyclesAtExact(g: Search, s: nat, c: seq<Edge>)
    requires UniqueOrder(g) && s < |g.order|
    ensures c in CyclesAt(g, s) <==> IsCanonical(g, c) && c[0].source == g.order[s]
  {
    var start := g.order[s];
    assert OnWay(g, start, s, [], {start});
    ExploreExact(g, start, s, [], {start}, g.ArcsFrom(start), c);
    CompletesIsCanonical(g, s, c);
    if IsCanonical(g, c) && c[0].source == start {
      assert Extends(c, [], c[0]) && c[0] in g.ArcsFrom(start);
    }
  }

  lemma {:induction false} CyclesUpToExact(g: Search, n: nat, c: seq<Edge>)
    requires UniqueOrder(g) && n <= |g.order|
    ensures c in CyclesUpTo(g, n) <==> IsCanonical(g, c) && g.index[c[0].source] < n
  {
    if n > 0 {
      CyclesUpToExact(g, n - 1, c);
      CyclesAtExact(g, n - 1, c);
    }
  }

  lemma {:induction false} CyclesUpToDistinct(g: Search, n: nat)
    requires UniqueOrder(g) && Distinct(g.arcs) && n <= |g.order|
    ensures Distinct(CyclesUpTo(g, n))
  {
    if n > 0 {
      CyclesUpToDistinct(g, n - 1);
      var start := g.order[n - 1];
      assert OnWay(g, start, n - 1, [], {start});
      EdgesFromDistinct(g.arcs, start);
      ExploreDistinct(g, start, n - 1, [], {start}, g.ArcsFrom(start));
      var before, now := CyclesUpTo(g, n - 1), CyclesAt(g, n - 1);
      forall c | c in before ensures c !in now {
        CyclesUpToExact(g, n - 1, c);
        CyclesAtExact(g, n - 1, c);
      }
      DistinctAppend(before, now);
    }
  }

  ghost predicate IsRotation(c: seq<Edge>, d: seq<Edge>) { exists k :: 0 <= k < |c| && d == Rotate(c, k) }

  /** Every simple cycle of the graph has a rotation that starts at its node of lowest index. */
  lemma CanonicalRotation(g: Search, c: seq<Edge>) returns (d: seq<Edge>)
    requires g.Sound() && IsSimpleCycle(c) && Within(c, g.arcs)
    ensures IsCanonical(g, d) && IsRotation(c, d)
    ensures forall e :: e in d <==> e in c
  {
    var k := LowestSource(g, c, |c|);
    d := Rotate(c, k);
    RotateSimple(c, k);
    forall i | 0 <= i < |d| ensures d[i] in g.arcs && g.index[d[0].source] <= g.index[d[i].source] {
      assert d[i] in d;
      var j :| 0 <= j < |c| && c[j] == d[i];
    }
  }

  lemma {:induction false} LowestSource(g: Search, c: seq<Edge>, n: nat) returns (k: nat)
    requires g.Sound() && Within(c, g.arcs) && 0 < n <= |c|
    ensures k < n && c[k] in g.arcs
    ensures forall i | 0 <= i < n :: c[i] in g.arcs && g.index[c[k].source] <= g.index[c[i].source]
  {
    k := 0;
    if n > 1 {
      k := LowestSource(g, c, n - 1);
    }
    if g.index[c[n - 1].source] < g.index[c[k].source] {
      k := n - 1;
    }
  }

  /** A canonical cycle is determined by its set of edges; in particular only one rotation is canonical. */
  lemma CanonicalUnique(g: Search, c: seq<Edge>, d: seq<Edge>)
    requires UniqueOrder(g) && IsCanonical(g, c) && IsCanonical(g, d)
    requires forall e :: e in c <==> e in d
    ensures c == d
  {
    assert c[0] in d && d[0] in c;
    var i :| 0 <= i < |d| && d[i] == c[0];
    var j :| 0 <= j < |c| && c[j] == d[0];
    assert g.order[g.index[c[0].source]] == g.order[g.index[d[0].source]];
    SameEdgesSameCycle(c, d);
  }

  /** With unique ids the list holds exactly the canonical simple cycles, without repetition. */
  lemma EnumeratesCanonicalCycles(t: Topology)
    requires UniqueNodeIds(t) && UniqueEdgeIds(t)
    ensures UniqueOrder(SearchOf(t)) && Distinct(AllCycles(SearchOf(t)))
    ensures forall c :: c in AllCycles(SearchOf(t)) <==> IsCanonical(SearchOf(t), c)
  {
    var g := SearchOf(t);
    SearchIsUnique(t);
    KnownArcsDistinct(t.edges, g.index);
    CyclesUpToDistinct(g, |g.order|);
    forall c ensures c in AllCycles(g) <==> IsCanonical(g, c) {
      CyclesUpToExact(g, |g.order|, c);
    }
  }

  /** The walk visits every simple cycle exactly once, up to rotation. */
  lemma EnumeratesEachCycleOnce(t: Topology, c: seq<Edge>) returns (i: nat)
    requires UniqueNodeIds(t) && UniqueEdgeIds(t)
    requires IsSimpleCycle(c) && Within(c, SearchOf(t).arcs)
    ensures i < |AllCycles(SearchOf(t))| && IsRotation(c, AllCycles(SearchOf(t))[i])
    ensures forall j | 0 <= j < |AllCycles(SearchOf(t))| :: IsRotation(c, AllCycles(SearchOf(t))[j]) ==> j == i
  {
    var g, all := SearchOf(t), AllCycles(SearchOf(t));
    EnumeratesCanonicalCycles(t);
    var d := CanonicalRotation(g, c);
    assert d in all;
    i :| 0 <= i < |all| && all[i] == d;
    forall j | 0 <= j < |all| && IsRotation(c, all[j]) ensures j == i {
      RotationUnique(g, c, all[j], d);
    }
  }

  lemma RotationUnique(g: Search, c: seq<Edge>, d: seq<Edge>, e: seq<Edge>)
    requires UniqueOrder(g) && IsSimpleCycle(c) && Within(c, g.arcs)
    requires IsCanonical(g, d) && IsRotation(c, d) && IsCanonical(g, e) && IsRotation(c, e)
    ensures d == e
  {
    var k :| 0 <= k < |c| && d == Rotate(c, k);
    var m :| 0 <= m < |c| && e == Rotate(c, m);
    RotateSimple(c, k);
    RotateSimple(c, m);
    CanonicalUnique(g, d, e);
  }

  // ---------------------------------------------------------------- the cap

  lemma {:induction false} RecordAllCount(r: Tally, cs: seq<seq<Edge>>)
    requires !r.truncated && r.explored <= MAX_CYCLES_EXPLORED
    ensures RecordAll(r, cs).truncated <==> r.explored + |cs| > MAX_CYCLES_EXPLORED
    decreases |cs|
  {
    if cs != [] && r.explored < MAX_CYCLES_EXPLORED {
      RecordAllCount(Record(r, cs[0]), cs[1..]);
    }
  }

  ghost function AsSet<T>(s: seq<T>): set<T> { set x | x in s }

  lemma {:induction false} DistinctCount<T>(s: seq<T>)
    requires Distinct(s)
    ensures |AsSet(s)| == |s|
  {
    if s != [] {
      var n := |s| - 1;
      DistinctCount(s[..n]);
      assert s == s[..n] + [s[n]];
      assert AsSet(s) == AsSet(s[..n]) + {s[n]};
    }
  }

  ghost predicate CanonicalSet(g: Search, cs: set<seq<Edge>>)
    requires g.Sound()
  {
    forall c :: c in cs <==> IsCanonical(g, c)
  }

  lemma {:induction false} RecordAllHasNoCapIssue(r: Tally, cs: seq<seq<Edge>>)
    ensures Reports(RecordAll(r, cs).issues, "cycle-check-truncated") ==> Reports(r.issues, "cycle-check-truncated")
    decreases |cs|
  {
    if cs != [] && !r.truncated {
      RecordAllHasNoCapIssue(Record(r, cs[0]), cs[1..]);
    }
  }

  /** The truncation warning is raised exactly when the graph has more than 5000 simple cycles. */
  lemma TruncatedIffTooManyCycles(t: Topology) returns (cycles: set<seq<Edge>>)
    requires UniqueNodeIds(t) && UniqueEdgeIds(t)
    ensures CanonicalSet(SearchOf(t), cycles)
    ensures Reports(CheckIssues(SearchOf(t)), "cycle-check-truncated") <==> |cycles| > 5000
  {
    var g := SearchOf(t);
    EnumeratesCanonicalCycles(t);
    cycles := AsSet(AllCycles(g));
    DistinctCount(AllCycles(g));
    RecordAllCount(START, AllCycles(g));
    RecordAllHasNoCapIssue(START, AllCycles(g));
    assert CheckIssues(g) == Outcome(g).issues + if Outcome(g).truncated
           then [Issue(Warning, "cycle-check-truncated", [])] else [];
    if Outcome(g).truncated {
      assert CheckIssues(g)[|Outcome(g).issues|].code == "cycle-check-truncated";
    }
  }

  // ---------------------------------------------------------------- which cycles are reported

  ghost predicate FirstWithKey(cs: seq<seq<Edge>>, i: nat)
    requires i < |cs|
  {
    forall j | 0 <= j < i :: Key(cs[j]) != Key(cs[i])
  }

  ghost function Keys(cs: seq<seq<Edge>>): set<string> { set c | c in cs :: Key(c) }

  /** The issue of some exit-free cycle that is the first of its key among the first n. */
  ghost predicate Logged(cs: seq<seq<Edge>>, n: nat, x: Issue)
    requires n <= |cs|
  {
    exists i :: 0 <= i < n && FirstWithKey(cs, i) && !HasExit(cs[i]) && x == CycleIssue(cs[i])
  }

  lemma FirstIffFresh(cs: seq<seq<Edge>>, k: nat)
    requires k < |cs|
    ensures FirstWithKey(cs, k) <==> Key(cs[k]) !in Keys(cs[..k])
  {
    forall j | 0 <= j < k ensures Key(cs[j]) in Keys(cs[..k]) {
      assert cs[..k][j] == cs[j];
    }
  }

  lemma {:induction false} RecordAllSnoc(r: Tally, cs: seq<seq<Edge>>, c: seq<Edge>)
    requires !RecordAll(r, cs).truncated
    ensures RecordAll(r, cs + [c]) == Record(RecordAll(r, cs), c)
    decreases |cs|
  {
    var all := cs + [c];
    if cs == [] {
      assert all[0] == c && all[1..] == [];
    } else {
      assert all[0] == cs[0] && all[1..] == cs[1..] + [c];
      RecordAllSnoc(Record(r, cs[0]), cs[1..], c);
    }
  }

  lemma KeysSnoc(cs: seq<seq<Edge>>, c: seq<Edge>)
    ensures Keys(cs + [c]) == Keys(cs) + {Key(c)}
  {
    var all := cs + [c];
    assert forall d :: d in all <==> d in cs || d == c;
  }

  ghost predicate Counts(r: Tally, cs: seq<seq<Edge>>)
  {
    !r.truncated && r.explored == |cs| && r.reported == Keys(cs)
  }

  lemma CountsStep(r: Tally, cs: seq<seq<Edge>>, c: seq<Edge>)
    requires Counts(r, cs) && |cs| < MAX_CYCLES_EXPLORED
    ensures Counts(Record(r, c), cs + [c])
  {
    KeysSnoc(cs, c);
  }

  lemma CountsNothing()
    ensures Counts(START, [])
  {
    assert Keys([]) == {};
  }

  lemma {:induction false} RecordedState(cs: seq<seq<Edge>>)
    requires |cs| <= MAX_CYCLES_EXPLORED
    ensures Counts(RecordAll(START, cs), cs)
    decreases |cs|
  {
    if cs == [] {
      CountsNothing();
    } else {
      var before, c := cs[..|cs| - 1], cs[|cs| - 1];
      assert cs == before + [c];
      RecordedState(before);
      RecordAllSnoc(START, before, c);
      CountsStep(RecordAll(START, before), before, c);
    }
  }

  lemma LoggedStep(cs: seq<seq<Edge>>, k: nat, x: Issue)
    requires k < |cs|
    ensures Logged(cs, k + 1, x) <==>
              Logged(cs, k, x) || (FirstWithKey(cs, k) && !HasExit(cs[k]) && x == CycleIssue(cs[k]))
  {
  }

  /** Below the cap, an issue is pushed for exactly the exit-free cycles that are first with their key. */
  lemma {:induction false} RecordedIssues(cs: seq<seq<Edge>>, n: nat)
    requires n <= |cs| && n <= MAX_CYCLES_EXPLORED
    ensures forall x :: x in RecordAll(START, cs[..n]).issues <==> Logged(cs, n, x)
  {
    if n > 0 {
      var k := n - 1;
      RecordedIssues(cs, k);
      RecordedState(cs[..k]);
      var r := RecordAll(START, cs[..k]);
      assert cs[..n] == cs[..k] + [cs[k]];
      RecordAllSnoc(START, cs[..k], cs[k]);
      FirstIffFresh(cs, k);
      forall x ensures x in Record(r, cs[k]).issues <==> Logged(cs, n, x) {
        LoggedStep(cs, k, x);
      }
    }
  }

  lemma {:induction false} RecordedAreCycles(r: Tally, cs: seq<seq<Edge>>, n: nat)
    requires n <= |cs|
    requires forall x | x in r.issues :: exists c :: !HasExit(c) && x == CycleIssue(c) && c in cs
    ensures forall x | x in RecordAll(r, cs[n..]).issues :: exists c :: !HasExit(c) && x == CycleIssue(c) && c in cs
    decreases |cs| - n
  {
    if n < |cs| && !r.truncated {
      assert cs[n..][1..] == cs[n + 1..];
      RecordedAreCycles(Record(r, cs[n]), cs, n + 1);
    }
  }

  /** The error that names a cycle by the ids of its edges, in order. */
  ghost predicate NamesCycle(x: Issue, c: seq<Edge>)
  {
    x.severity == Error && |x.about| == |c| && forall i | 0 <= i < |c| :: x.about[i] == c[i].id
  }

  /** Cut short or not, every reported cycle is a simple cycle of the graph, from its lowest node, without an exit. */
  lemma ReportedCyclesAreReal(t: Topology, x: Issue)
    requires UniqueNodeIds(t) && UniqueEdgeIds(t)
    requires x in CheckIssues(SearchOf(t)) && x.code == "infinite-cycle"
    ensures exists c :: IsCanonical(SearchOf(t), c) && ExitFree(c) && NamesCycle(x, c)
  {
    var all := AllCycles(SearchOf(t));
    EnumeratesCanonicalCycles(t);
    assert all[0..] == all;
    RecordedAreCycles(START, all, 0);
    var c :| !HasExit(c) && x == CycleIssue(c) && c in all;
    assert ExitFree(c) && NamesCycle(x, c);
  }

  // ---------------------------------------------------------------- keys do not depend on the order of the edges

  lemma {:induction false} PrecedesTotal(a: string, b: string)
    ensures Precedes(a, b) || Precedes(b, a)
    ensures Precedes(a, b) && Precedes(b, a) ==> a == b
    decreases |a|
  {
    if a != "" && b != "" && a[0] == b[0] {
      PrecedesTotal(a[1..], b[1..]);
      assert a == [a[0]] + a[1..] && b == [b[0]] + b[1..];
    }
  }

  lemma {:induction false} PrecedesTransitive(a: string, b: string, c: string)
    requires Precedes(a, b) && Precedes(b, c)
    ensures Precedes(a, c)
    decreases |a|
  {
    if a != "" && b != "" && c != "" && a[0] == b[0] == c[0] {
      PrecedesTransitive(a[1..], b[1..], c[1..]);
    }
  }

  /** The first comes no later than any other, and so on. */
  ghost predicate IsSorted(s: seq<string>)
  {
    s != [] ==> (forall x | x in s[1..] :: Precedes(s[0], x)) && IsSorted(s[1..])
  }

  lemma {:induction false} InsertKeepsSorted(x: string, s: seq<string>)
    requires IsSorted(s)
    ensures IsSorted(InsertSorted(x, s))
    decreases |s|
  {
    if s == [] || Precedes(x, s[0]) {
      forall y | y in s ensures Precedes(x, y) {
        if y != s[0] {
          assert y in s[1..];
          PrecedesTransitive(x, s[0], y);
        }
      }
      assert ([x] + s)[1..] == s;
    } else {
      InsertKeepsSorted(x, s[1..]);
      var rest := InsertSorted(x, s[1..]);
      assert InsertSorted(x, s)[1..] == rest;
      forall y | y in rest ensures Precedes(s[0], y) {
        assert y in multiset(rest);
        PrecedesTotal(x, s[0]);
      }
    }
  }

  lemma {:induction false} SortedIsSorted(ids: seq<string>)
    ensures IsSorted(Sorted(ids))
    decreases |ids|
  {
    if ids != [] {
      SortedIsSorted(ids[1..]);
      InsertKeepsSorted(ids[0], Sorted(ids[1..]));
    }
  }

  lemma FirstIsLeast(a: seq<string>, x: string)
    requires IsSorted(a) && x in multiset(a)
    ensures a != [] && Precedes(a[0], x)
  {
    assert x in a;
    if x == a[0] {
      PrecedesTotal(x, x);
    } else {
      assert x in a[1..];
    }
  }

  lemma TailBag(a: seq<string>)
    requires a != []
    ensures multiset(a[1..]) == multiset(a) - multiset{a[0]}
  {
    assert a == [a[0]] + a[1..];
  }

  /** There is one way to sort. */
  lemma {:induction false} SortedUnique(a: seq<string>, b: seq<string>)
    requires IsSorted(a) && IsSorted(b) && multiset(a) == multiset(b)
    ensures a == b
    decreases |a|
  {
    if a == [] || b == [] {
      assert |multiset(a)| == |a| && |multiset(b)| == |b|;
    } else {
      assert a[0] in multiset(a) && b[0] in multiset(b);
      FirstIsLeast(a, b[0]);
      FirstIsLeast(b, a[0]);
      PrecedesTotal(a[0], b[0]);
      TailBag(a);
      TailBag(b);
      SortedUnique(a[1..], b[1..]);
      assert a == [a[0]] + a[1..] && b == [b[0]] + b[1..];
    }
  }

  /** Cycles of equally named edges have the same key, wherever they start and in whatever order they go. */
  lemma KeyIgnoresOrder(c: seq<Edge>, d: seq<Edge>)
    requires multiset(EdgeIds(c)) == multiset(EdgeIds(d))
    ensures Key(c) == Key(d)
  {
    SortedIsSorted(EdgeIds(c));
    SortedIsSorted(EdgeIds(d));
    SortedUnique(Sorted(EdgeIds(c)), Sorted(EdgeIds(d)));
  }

  // ---------------------------------------------------------------- keys and commas

  ghost predicate CommaFree(t: Topology) { forall e | e in t.edges :: Free(e.id, ',') }

  /** Comma-free ids: the key of a cycle gives back the multiset of its edge ids. */
  lemma KeyGivesIds(c: seq<Edge>, d: seq<Edge>)
    requires |c| > 0 && |d| > 0 && Key(c) == Key(d)
    requires forall e | e in c || e in d :: Free(e.id, ',')
    ensures multiset(EdgeIds(c)) == multiset(EdgeIds(d))
  {
    SortedFree(c);
    SortedFree(d);
    SplitJoin(Sorted(EdgeIds(c)), ',');
    SplitJoin(Sorted(EdgeIds(d)), ',');
  }

  lemma SortedFree(c: seq<Edge>)
    requires forall e | e in c :: Free(e.id, ',')
    ensures forall p | p in Sorted(EdgeIds(c)) :: Free(p, ',')
  {
    forall p | p in Sorted(EdgeIds(c)) ensures Free(p, ',') {
      assert p in multiset(EdgeIds(c));
      var i :| 0 <= i < |c| && EdgeIds(c)[i] == p;
      assert c[i] in c;
    }
  }

  lemma SameIdsSameEdges(edges: seq<Edge>, c: seq<Edge>, d: seq<Edge>)
    requires Within(c, edges) && Within(d, edges)
    requires forall e, f | e in edges && f in edges && e.id == f.id :: e == f
    requires multiset(EdgeIds(c)) == multiset(EdgeIds(d))
    ensures forall e | e in c :: e in d
  {
    forall e | e in c ensures e in d {
      var i :| 0 <= i < |c| && c[i] == e;
      assert EdgeIds(c)[i] in multiset(EdgeIds(c));
      assert e.id in multiset(EdgeIds(d));
      var j :| 0 <= j < |d| && EdgeIds(d)[j] == e.id;
      assert d[j] in d;
    }
  }

  ghost predicate GoodIds(g: Search)
  {
    && UniqueOrder(g)
    && (forall e, f | e in g.arcs && f in g.arcs && e.id == f.id :: e == f)
    && (forall e | e in g.arcs :: Free(e.id, ','))
  }

  lemma GoodIdsOf(t: Topology)
    requires UniqueNodeIds(t) && UniqueEdgeIds(t) && CommaFree(t)
    ensures GoodIds(SearchOf(t))
  {
    SearchIsUnique(t);
    forall e, f | e in t.edges && f in t.edges && e.id == f.id ensures e == f {
      var i :| 0 <= i < |t.edges| && t.edges[i] == e;
      var j :| 0 <= j < |t.edges| && t.edges[j] == f;
      assert !(i < j) && !(j < i);
    }
  }

  /** With comma-free ids no two enumerated cycles share a key, so the deduplication never drops one. */
  lemma KeysDiffer(g: Search, c: seq<Edge>, d: seq<Edge>)
    requires GoodIds(g) && IsCanonical(g, c) && IsCanonical(g, d) && Key(c) == Key(d)
    ensures c == d
  {
    KeyGivesIds(c, d);
    SameIdsSameEdges(g.arcs, c, d);
    SameIdsSameEdges(g.arcs, d, c);
    CanonicalUnique(g, c, d);
  }

  // ---------------------------------------------------------------- the meaning of infinite-cycle

  /** Some walk comes back to its start without ever taking a timeout or invalid edge. */
  ghost predicate HasUnsafeLoop(t: Topology)
  {
    exists w :: IsClosed(w) && ExitFree(w) && AlongEdges(t, w)
  }

  ghost predicate AlongEdges(t: Topology, w: seq<Edge>)
  {
    forall e | e in w :: e in t.edges && KnownEnds(t, e)
  }

  ghost predicate Truncated(t: Topology) { Outcome(SearchOf(t)).truncated }

  /** The cycles that are looked at before the cap is reached. */
  ghost function Explored(cs: seq<seq<Edge>>): seq<seq<Edge>>
  {
    if |cs| > MAX_CYCLES_EXPLORED then cs[..MAX_CYCLES_EXPLORED] else cs
  }

  /** An earlier cycle that has an exit goes by the same key, so this one is taken for it. */
  ghost predicate Masked(cs: seq<seq<Edge>>, i: nat)
    requires i < |cs|
  {
    exists j :: 0 <= j < i && HasExit(cs[j]) && Key(cs[j]) == Key(cs[i])
  }

  ghost predicate AllMasked(cs: seq<seq<Edge>>) { forall i: nat | i < |cs| && !HasExit(cs[i]) :: Masked(cs, i) }

  /** Past the cap nothing is reported any more. */
  lemma {:induction false} CapKeepsIssues(r: Tally, cs: seq<seq<Edge>>, k: nat)
    requires !r.truncated && k <= |cs| && r.explored + k == MAX_CYCLES_EXPLORED
    ensures RecordAll(r, cs).issues == RecordAll(r, cs[..k]).issues
    decreases k
  {
    if k > 0 {
      assert cs[..k][0] == cs[0] && cs[..k][1..] == cs[1..][..k - 1];
      CapKeepsIssues(Record(r, cs[0]), cs[1..], k - 1);
    } else if cs != [] {
      assert Record(r, cs[0]).truncated;
    }
  }

  lemma ExploredDecides(cs: seq<seq<Edge>>)
    ensures RecordAll(START, cs).issues == RecordAll(START, Explored(cs)).issues
  {
    if |cs| > MAX_CYCLES_EXPLORED {
      CapKeepsIssues(START, cs, MAX_CYCLES_EXPLORED);
    }
  }

  /** A cycle that is not masked and has no exit leads to one that is also the first of its key. */
  lemma {:induction false} UnmaskedHasFirst(cs: seq<seq<Edge>>, i: nat) returns (k: nat)
    requires i < |cs| && !HasExit(cs[i]) && !Masked(cs, i)
    ensures k < |cs| && FirstWithKey(cs, k) && !HasExit(cs[k])
  {
    k := i;
    if j :| 0 <= j < i && Key(cs[j]) == Key(cs[i]) {
      k := UnmaskedHasFirst(cs, j);
    }
  }

  /** The check reports an infinite cycle exactly when some explored exit-free cycle is not masked. */
  lemma ReportedIffUnmasked(g: Search)
    requires g.Sound()
    ensures Reports(CheckIssues(g), "infinite-cycle") <==> !AllMasked(Explored(AllCycles(g)))
  {
    var seen := Explored(AllCycles(g));
    ExploredDecides(AllCycles(g));
    RecordedIssues(seen, |seen|);
    assert seen[..|seen|] == seen;
    if x :| x in CheckIssues(g) && x.code == "infinite-cycle" {
      assert x in RecordAll(START, seen).issues && Logged(seen, |seen|, x);
    }
    if !AllMasked(seen) {
      var i: nat :| i < |seen| && !HasExit(seen[i]) && !Masked(seen, i);
      var k := UnmaskedHasFirst(seen, i);
      assert Logged(seen, |seen|, CycleIssue(seen[k]));
    }
  }

  ghost predicate SomeExitFree(cs: seq<seq<Edge>>) { exists c :: c in cs && !HasExit(c) }

  /** Exit-free closed walks exist exactly when some enumerated cycle has no exit. */
  lemma UnsafeLoopIsCycle(t: Topology)
    requires UniqueNodeIds(t) && UniqueEdgeIds(t)
    ensures HasUnsafeLoop(t) <==> SomeExitFree(AllCycles(SearchOf(t)))
  {
    var g := SearchOf(t);
    EnumeratesCanonicalCycles(t);
    SearchIsUnique(t);
    if c :| c in AllCycles(g) && !HasExit(c) {
      assert IsClosed(c) && ExitFree(c) && AlongEdges(t, c);
    }
    if w :| IsClosed(w) && ExitFree(w) && AlongEdges(t, w) {
      var c := ClosedHasSimple(w);
      var d := CanonicalRotation(g, c);
      assert d in AllCycles(g) && !HasExit(d);
    }
  }

  /** Cycle `i` has no exit, and is masked or comes after the cap. */
  ghost predicate OverlookedAt(cs: seq<seq<Edge>>, i: nat)
    requires i < |cs|
  {
    !HasExit(cs[i]) && (i >= MAX_CYCLES_EXPLORED || Masked(cs, i))
  }

  ghost predicate SomeOverlooked(cs: seq<seq<Edge>>) { exists i: nat :: i < |cs| && OverlookedAt(cs, i) }

  lemma UnmaskedIsExitFree(cs: seq<seq<Edge>>)
    requires !AllMasked(Explored(cs))
    ensures SomeExitFree(cs)
  {
    var i: nat :| i < |Explored(cs)| && !HasExit(Explored(cs)[i]) && !Masked(Explored(cs), i);
    assert cs[i] in cs && cs[i] == Explored(cs)[i];
  }

  lemma ExploredUnmasked(cs: seq<seq<Edge>>, i: nat)
    requires i < |cs| && !HasExit(cs[i]) && !OverlookedAt(cs, i)
    ensures !AllMasked(Explored(cs))
  {
    var seen := Explored(cs);
    assert i < |seen| && seen[i] == cs[i] && !HasExit(seen[i]);
    assert forall j | 0 <= j < i :: seen[j] == cs[j];
    assert !Masked(seen, i);
  }

  lemma ExitFreeIsSeenOrOverlooked(cs: seq<seq<Edge>>)
    requires AllMasked(Explored(cs))
    ensures SomeExitFree(cs) <==> SomeOverlooked(cs)
  {
    if c :| c in cs && !HasExit(c) {
      var i: nat :| i < |cs| && cs[i] == c;
      if !OverlookedAt(cs, i) {
        ExploredUnmasked(cs, i);
      }
    }
    if i: nat :| i < |cs| && OverlookedAt(cs, i) {
      assert cs[i] in cs;
    }
  }

  ghost predicate ReportsCycle(t: Topology) { Reports(CheckIssues(SearchOf(t)), "infinite-cycle") }

  /**
   * Which topologies the check is right about, commas and cap included: for unique ids it reports an
   * infinite cycle exactly when there is an exit-free closed walk, if and only if not every explored
   * exit-free cycle is masked where there is such a walk.
   */
  lemma ReportIsRightExactlyWhen(t: Topology)
    requires UniqueNodeIds(t) && UniqueEdgeIds(t)
    ensures ReportsCycle(t) ==> HasUnsafeLoop(t)
    ensures (ReportsCycle(t) <==> HasUnsafeLoop(t))
       <==> (HasUnsafeLoop(t) ==> !AllMasked(Explored(AllCycles(SearchOf(t)))))
  {
    ReportedIffUnmasked(SearchOf(t));
    UnsafeLoopIsCycle(t);
    if ReportsCycle(t) {
      UnmaskedIsExitFree(AllCycles(SearchOf(t)));
    }
  }

  ghost predicate Overlooked(t: Topology) { SomeOverlooked(AllCycles(SearchOf(t))) }

  /** Where nothing is reported, an exit-free closed walk exists exactly when a cycle was overlooked. */
  lemma UnreportedIsOverlooked(t: Topology)
    requires UniqueNodeIds(t) && UniqueEdgeIds(t) && !ReportsCycle(t)
    ensures HasUnsafeLoop(t) <==> Overlooked(t)
  {
    ReportedIffUnmasked(SearchOf(t));
    UnsafeLoopIsCycle(t);
    ExitFreeIsSeenOrOverlooked(AllCycles(SearchOf(t)));
  }

  /** Where no exit-free cycle is overlooked, the check reports one exactly when there is one. */
  lemma NothingOverlooked(t: Topology)
    requires UniqueNodeIds(t) && UniqueEdgeIds(t) && !Overlooked(t)
    ensures ReportsCycle(t) <==> HasUnsafeLoop(t)
  {
    if ReportsCycle(t) {
      ReportIsRightExactlyWhen(t);
    } else {
      UnreportedIsOverlooked(t);
    }
  }

  /** Comma-free edge ids mask nothing, and a search that was not cut short has looked at everything. */
  lemma CommaFreeOverlooksNothing(t: Topology)
    requires UniqueNodeIds(t) && UniqueEdgeIds(t) && CommaFree(t) && !Truncated(t)
    ensures !Overlooked(t)
  {
    var g := SearchOf(t);
    var all := AllCycles(g);
    EnumeratesCanonicalCycles(t);
    GoodIdsOf(t);
    RecordAllCount(START, all);
    forall i, j: nat | j < i < |all| && Key(all[j]) == Key(all[i]) ensures false {
      assert all[i] in all && all[j] in all;
      KeysDiffer(g, all[i], all[j]);
    }
  }

  /** For comma-free edge ids and no truncation: an infinite cycle is reported exactly when there is one. */
  lemma UnsafeLoopReported(t: Topology)
    requires UniqueNodeIds(t) && UniqueEdgeIds(t) && CommaFree(t) && !Truncated(t)
    ensures ReportsCycle(t) <==> HasUnsafeLoop(t)
  {
    CommaFreeOverlooksNothing(t);
    NothingOverlooked(t);
  }

  // ---------------------------------------------------------------- a loop hidden by commas

  /** Two separate two-node loops, the one with lower indices leaving through a timeout edge. */
  ghost predicate TwoLoops(g: Search, e1: Edge, e2: Edge, e3: Edge, e4: Edge)
    requires g.Sound()
  {
    && (forall e :: e in g.arcs <==> e == e1 || e == e2 || e == e3 || e == e4)
    && e1.source == e2.target && e1.target == e2.source && e3.source == e4.target && e3.target == e4.source
    && e1.source in g.index && e2.source in g.index && e3.source in g.index && e4.source in g.index
    && g.index[e1.source] < g.index[e2.source] < g.index[e3.source] < g.index[e4.source]
    && IsExit(e1) && !IsExit(e3) && !IsExit(e4)
  }

  lemma OnlyTwoCycles(g: Search, e1: Edge, e2: Edge, e3: Edge, e4: Edge, c: seq<Edge>)
    requires UniqueOrder(g) && TwoLoops(g, e1, e2, e3, e4)
    ensures IsCanonical(g, c) <==> c == [e1, e2] || c == [e3, e4]
  {
    if IsCanonical(g, c) {
      assert c[0] in g.arcs && |c| > 1;
      TrailStep(c, 0);
      assert c[1] in g.arcs && (c[0] == e1 || c[0] == e3);
      TrailStep(c, 1);
      assert |c| == 2;
    }
    assert IsSimpleCycle([e1, e2]) && IsSimpleCycle([e3, e4]);
  }

  lemma SecondLoopDropped(g: Search, e1: Edge, e2: Edge, e3: Edge, e4: Edge)
    requires UniqueOrder(g) && TwoLoops(g, e1, e2, e3, e4) && Distinct(AllCycles(g))
    requires Key([e1, e2]) == Key([e3, e4])
    ensures |AllCycles(g)| <= 2
    ensures forall i | 0 <= i < |AllCycles(g)| :: FirstWithKey(AllCycles(g), i) ==> HasExit(AllCycles(g)[i])
  {
    var all, c, d, n := AllCycles(g), [e1, e2], [e3, e4], g.index[e3.source];
    var early := CyclesUpTo(g, n);
    forall x ensures (x in all <==> x == c || x == d) && (x in early ==> x != d) && (x == c ==> x in early) {
      OnlyTwoCycles(g, e1, e2, e3, e4, x);
      CyclesUpToExact(g, |g.order|, x);
      CyclesUpToExact(g, n, x);
    }
    DistinctCount(all);
    assert AsSet(all) <= {c, d};
    AtMostTwo(AsSet(all), c, d);
    CyclesUpToPrefix(g, n);
    var rest :| all == early + rest;
    assert c in early && d !in early && e1 in c;
    var j :| 0 <= j < |early| && early[j] == c;
    forall i | 0 <= i < |all| && all[i] == d ensures !FirstWithKey(all, i) {
      NotInPrefix(all, early, i);
      assert all[j] == c && j < i;
    }
    forall i | 0 <= i < |all| ensures all[i] == c || all[i] == d {
      assert all[i] in all;
    }
  }

  lemma NotInPrefix<T>(s: seq<T>, prefix: seq<T>, i: nat)
    requires i < |s| && |prefix| <= |s| && prefix == s[..|prefix|] && s[i] !in prefix
    ensures i >= |prefix|
  {
    assert forall k | 0 <= k < |prefix| :: s[k] == prefix[k] && prefix[k] in prefix;
  }

  lemma SecondLoopUnreported(g: Search, e1: Edge, e2: Edge, e3: Edge, e4: Edge)
    requires UniqueOrder(g) && TwoLoops(g, e1, e2, e3, e4) && Distinct(AllCycles(g))
    requires Key([e1, e2]) == Key([e3, e4])
    ensures !Outcome(g).truncated && !Reports(CheckIssues(g), "infinite-cycle")
  {
    SecondLoopDropped(g, e1, e2, e3, e4);
    RecordAllCount(START, AllCycles(g));
    ReportedIffUnmasked(g);
    if i: nat :| i < |AllCycles(g)| && !HasExit(AllCycles(g)[i]) && !Masked(AllCycles(g), i) {
      var k := UnmaskedHasFirst(AllCycles(g), i);
    }
  }

  lemma AtMostTwo<T>(s: set<T>, x: T, y: T)
    requires s <= {x, y}
    ensures |s| <= 2
  {
    assert s - {x} - {y} == {};
    assert |s - {x}| >= |s| - 1;
  }

  lemma KnownPosition(t: Topology, g: Search, i: nat)
    requires UniqueOrder(g) && g.order == Ids(t.nodes) && i < |t.nodes|
    ensures t.nodes[i].id in g.index && g.index[t.nodes[i].id] == i && NodeById(t, t.nodes[i].id).Some?
  {
    assert t.nodes[i] in t.nodes && g.order[i] == t.nodes[i].id;
  }

  lemma FourArcs(t: Topology, g: Search, e1: Edge, e2: Edge, e3: Edge, e4: Edge)
    requires t.edges == [e1, e2, e3, e4] && forall e :: e in g.arcs <==> e in t.edges && KnownEnds(t, e)
    requires KnownEnds(t, e1) && KnownEnds(t, e2) && KnownEnds(t, e3) && KnownEnds(t, e4)
    ensures forall e :: e in g.arcs <==> e == e1 || e == e2 || e == e3 || e == e4
  {
  }

  lemma TwoLoopsIn(t: Topology, g: Search, e1: Edge, e2: Edge, e3: Edge, e4: Edge)
    requires UniqueOrder(g) && t.edges == [e1, e2, e3, e4] && |t.nodes| == 4 && g.order == Ids(t.nodes)
    requires forall e :: e in g.arcs <==> e in t.edges && KnownEnds(t, e)
    requires t.nodes[0].id == e1.source == e2.target && t.nodes[1].id == e2.source == e1.target
    requires t.nodes[2].id == e3.source == e4.target && t.nodes[3].id == e4.source == e3.target
    requires IsExit(e1) && !IsExit(e3) && !IsExit(e4)
    ensures TwoLoops(g, e1, e2, e3, e4)
  {
    KnownPosition(t, g, 0);
    KnownPosition(t, g, 1);
    KnownPosition(t, g, 2);
    KnownPosition(t, g, 3);
    FourArcs(t, g, e1, e2, e3, e4);
  }

  /** Then the second loop, though free of exits, goes unreported. */
  lemma HiddenLoop(t: Topology, e1: Edge, e2: Edge, e3: Edge, e4: Edge)
    requires UniqueNodeIds(t) && UniqueEdgeIds(t) && t.edges == [e1, e2, e3, e4] && |t.nodes| == 4
    requires t.nodes[0].id == e1.source == e2.target && t.nodes[1].id == e2.source == e1.target
    requires t.nodes[2].id == e3.source == e4.target && t.nodes[3].id == e4.source == e3.target
    requires IsExit(e1) && !IsExit(e3) && !IsExit(e4) && Key([e1, e2]) == Key([e3, e4])
    ensures !Truncated(t) && HasUnsafeLoop(t) && !ReportsCycle(t)
  {
    EnumeratesCanonicalCycles(t);
    SearchIsUnique(t);
    var g := SearchOf(t);
    TwoLoopsIn(t, g, e1, e2, e3, e4);
    SecondLoopUnreported(g, e1, e2, e3, e4);
    var w := [e3, e4];
    UnsafeWitness(g, e1, e2, e3, e4);
    assert AlongEdges(t, w);
  }

  lemma UnsafeWitness(g: Search, e1: Edge, e2: Edge, e3: Edge, e4: Edge)
    requires UniqueOrder(g) && TwoLoops(g, e1, e2, e3, e4)
    ensures IsClosed([e3, e4]) && Within([e3, e4], g.arcs) && ExitFree([e3, e4])
  {
  }

  lemma KeysCollide(e1: Edge, e2: Edge, e3: Edge, e4: Edge)
    requires e1.id == "1,2" && e2.id == "3" && e3.id == "1" && e4.id == "2,3"
    ensures Key([e1, e2]) == "1,2,3" == Key([e3, e4])
  {
    KeyOfTwo(e1, e2);
    KeyOfTwo(e3, e4);
    assert "1,2" + "," + "3" == "1,2,3" == "1" + "," + "2,3";
  }

  lemma KeyOfTwo(e: Edge, f: Edge)
    requires e.id != "" && f.id != "" && e.id[0] < f.id[0]
    ensures Key([e, f]) == e.id + "," + f.id
  {
    var ids := EdgeIds([e, f]);
    assert ids == [e.id, f.id] && ids[1..] == [f.id] && [f.id][1..] == [];
    assert Sorted([f.id]) == InsertSorted(f.id, []) == [f.id];
    assert Sorted(ids) == InsertSorted(e.id, [f.id]) == [e.id, f.id];
    assert Join([f.id], ",") == f.id;
  }
}
