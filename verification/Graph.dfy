/** Walks along edges: trails, closed trails, simple cycles and their rotations. */
module Graphs {
  import opened Text
  import opened Topologies

  ghost predicate IsTrail(c: seq<Edge>)
  {
    forall i | 0 <= i < |c| - 1 :: c[i].target == c[i + 1].source
  }

  ghost predicate Within(c: seq<Edge>, edges: seq<Edge>) { forall e | e in c :: e in edges }

  ghost predicate IsClosed(c: seq<Edge>)
  {
    |c| > 0 && IsTrail(c) && c[|c| - 1].target == c[0].source
  }

  ghost predicate DistinctSources(c: seq<Edge>)
  {
    forall i, j | 0 <= i < j < |c| :: c[i].source != c[j].source
  }

  ghost predicate IsSimpleCycle(c: seq<Edge>) { IsClosed(c) && DistinctSources(c) }

  /** No edge is taken after a timeout or on an invalid key. */
  ghost predicate ExitFree(c: seq<Edge>)
  {
    forall e | e in c :: e.condition != Some(Timeout) && e.condition != Some(Invalid)
  }

  /** Every closed trail contains a simple cycle made of some of its edges. */
  lemma {:induction false} ClosedHasSimple(c: seq<Edge>) returns (d: seq<Edge>)
    requires IsClosed(c)
    ensures IsSimpleCycle(d) && Within(d, c)
    decreases |c|
  {
    if DistinctSources(c) {
      d := c;
    } else {
      var i, j :| 0 <= i < j < |c| && c[i].source == c[j].source;
      SliceCloses(c, i, j);
      d := ClosedHasSimple(c[i..j]);
    }
  }

  ghost function Sources(c: seq<Edge>): set<string> { set e | e in c :: e.source }

  lemma {:induction false} DistinctSourcesCount(c: seq<Edge>)
    requires DistinctSources(c)
    ensures |Sources(c)| == |c|
  {
    if c != [] {
      var last := |c| - 1;
      DistinctSourcesCount(c[..last]);
      assert c == c[..last] + [c[last]];
      assert Sources(c) == Sources(c[..last]) + {c[last].source};
      assert c[last].source !in Sources(c[..last]);
    }
  }

  lemma SubsetOfSameSize<T>(a: set<T>, b: set<T>)
    requires a <= b && |a| >= |b|
    ensures a == b
  {
    assert b == a + (b - a) && |b| == |a| + |b - a|;
  }

  lemma SliceCloses(c: seq<Edge>, i: nat, j: nat)
    requires IsTrail(c) && i < j <= |c| && c[j - 1].target == c[i].source
    ensures IsClosed(c[i..j]) && Within(c[i..j], c)
  {
  }

  /** A trail with as many edges as there are nodes passes some node twice. */
  lemma LongTrailCloses(c: seq<Edge>, ids: set<string>) returns (d: seq<Edge>)
    requires IsTrail(c) && |c| > 0 && |c| >= |ids|
    requires forall i | 0 <= i < |c| :: c[i].source in ids && c[i].target in ids
    ensures IsClosed(d) && Within(d, c)
  {
    var i, j := 0, |c|;
    if DistinctSources(c) {
      i := FirstSource(c, ids, c[|c| - 1].target);
    } else {
      i, j :| 0 <= i < j < |c| && c[i].source == c[j].source;
      assert c[j - 1].target == c[j - 1 + 1].source;
    }
    SliceCloses(c, i, j);
    d := c[i..j];
  }

  lemma FirstSource(c: seq<Edge>, ids: set<string>, id: string) returns (k: nat)
    requires DistinctSources(c) && |c| >= |ids| && id in ids
    requires forall i | 0 <= i < |c| :: c[i].source in ids
    ensures k < |c| && c[k].source == id
  {
    DistinctSourcesCount(c);
    SubsetOfSameSize(Sources(c), ids);
    assert id in Sources(c);
    k :| 0 <= k < |c| && c[k].source == id;
  }

  // ---------------------------------------------------------------- rotations

  ghost function Rotate(c: seq<Edge>, k: nat): seq<Edge>
    requires k <= |c|
  {
    c[k..] + c[..k]
  }

  lemma RotateAt(c: seq<Edge>, k: nat)
    requires k < |c|
    ensures |Rotate(c, k)| == |c|
    ensures forall i | 0 <= i < |c| :: Rotate(c, k)[i] == c[if i < |c| - k then i + k else i + k - |c|]
  {
  }

  lemma RotateSameEdges(c: seq<Edge>, k: nat)
    requires k < |c|
    ensures forall e :: e in Rotate(c, k) <==> e in c
  {
    assert c == c[..k] + c[k..];
  }

  lemma RotateClosed(c: seq<Edge>, k: nat)
    requires IsClosed(c) && k < |c|
    ensures IsClosed(Rotate(c, k))
  {
    var r := Rotate(c, k);
    RotateAt(c, k);
    forall i | 0 <= i < |r| - 1 ensures r[i].target == r[i + 1].source {
      TrailStep(c, if i < |c| - k then i + k else i + k - |c|);
    }
    TrailStep(c, k - 1);
  }

  lemma RotateSimple(c: seq<Edge>, k: nat)
    requires IsSimpleCycle(c) && k < |c|
    ensures IsSimpleCycle(Rotate(c, k)) && Rotate(c, k)[0] == c[k]
    ensures forall e :: e in Rotate(c, k) <==> e in c
  {
    RotateClosed(c, k);
    RotateSameEdges(c, k);
    RotateAt(c, k);
  }

  /** Two simple cycles with the same edges and the same first node are the same cycle. */
  lemma SameEdgesSameCycle(c: seq<Edge>, d: seq<Edge>)
    requires IsSimpleCycle(c) && IsSimpleCycle(d) && c[0].source == d[0].source
    requires forall e :: e in c <==> e in d
    ensures c == d
  {
    if |c| <= |d| {
      SamePrefix(c, d, |c|);
      NoLonger(c, d);
    } else {
      SamePrefix(c, d, |d|);
      NoLonger(d, c);
    }
  }

  lemma TrailStep(c: seq<Edge>, k: int)
    requires IsTrail(c)
    ensures 0 <= k < |c| - 1 ==> c[k].target == c[k + 1].source
  {
  }

  lemma NoLonger(c: seq<Edge>, d: seq<Edge>)
    requires IsClosed(c) && IsSimpleCycle(d) && |c| <= |d| && c == d[..|c|]
    ensures c == d
  {
    assert d[|c| - 1] == c[|c| - 1];
    TrailStep(d, |c| - 1);
  }

  lemma {:induction false} SamePrefix(c: seq<Edge>, d: seq<Edge>, n: nat)
    requires IsSimpleCycle(c) && IsSimpleCycle(d) && c[0].source == d[0].source
    requires forall e :: e in c <==> e in d
    requires n <= |c| && n <= |d|
    ensures c[..n] == d[..n]
  {
    if n > 0 {
      SamePrefix(c, d, n - 1);
      var k := n - 1;
      assert c[k].source == d[k].source by {
        if k > 0 {
          assert c[k - 1] == c[..n - 1][k - 1] == d[..n - 1][k - 1] == d[k - 1];
        }
      }
      assert c[k] in d;
      var j :| 0 <= j < |d| && d[j] == c[k];
      assert j == k;
    }
  }
}
