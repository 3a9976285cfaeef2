/**
 * Kruskal's edge selection over a pipe network: the edges, already sorted by
 * the caller, are walked in order; an edge whose endpoints are already
 * connected is skipped, any other one joins the two components and is kept,
 * and the kept edges are split by whether the pipe is active.
 *
 * `Select` states the selection as a function of the edge list; `Mst` is the
 * loop over a disjoint-set forest, proved to compute it.
 */
module Kruskal {
  import opened Partition
  import opened UnionFind

  /** A pipe between nodes `u` and `v` of cost `w`; `status` is true for an active pipe. */
  datatype Edge = Edge(u: int, v: int, w: int, status: bool)

  datatype MstResult = MstResult(
    cost: int,
    mst: seq<Edge>,
    mstActives: seq<Edge>,
    mstInactives: seq<Edge>,
    inactiveCnt: int)

  /** The components reached so far and the edges kept so far. */
  datatype Selection = Selection(labels: seq<int>, taken: seq<Edge>)

  predicate EndpointsIn(pipes: seq<Edge>, n: int)
  {
    forall e :: e in pipes ==> 0 <= e.u < n && 0 <= e.v < n
  }

  /**
   * Kruskal's decision for one edge: afterwards its endpoints are in one
   * component. An edge inside a component changes nothing; an edge between
   * two components is kept and leaves one component fewer.
   */
  function Step(s: Selection, e: Edge): (r: Selection)
    requires 0 <= e.u < |s.labels| && 0 <= e.v < |s.labels|
    ensures |r.labels| == |s.labels| && r.labels[e.u] == r.labels[e.v]
    ensures s.labels[e.u] == s.labels[e.v] ==> r == s
    ensures s.labels[e.u] != s.labels[e.v] ==>
      r.taken == s.taken + [e] && NumClasses(r.labels) == NumClasses(s.labels) - 1
  {
    if s.labels[e.u] == s.labels[e.v] then s
    else
      MergeNumClasses(s.labels, e.u, e.v);
      Selection(Merge(s.labels, e.u, e.v), s.taken + [e])
  }

  /** The selection after walking `pipes` in order over `n` nodes, starting from singletons. */
  function Select(n: nat, pipes: seq<Edge>): (s: Selection)
    requires EndpointsIn(pipes, n)
    ensures |s.labels| == n
    decreases |pipes|
  {
    if pipes == [] then Selection(Singletons(n), [])
    else Step(Select(n, pipes[..|pipes| - 1]), pipes[|pipes| - 1])
  }

  /** `a` can be obtained from `b` by deleting elements, keeping the order of the rest. */
  ghost predicate IsSubsequence<T>(a: seq<T>, b: seq<T>)
    decreases |b|
  {
    if b == [] then a == []
    else
      (a != [] && a[|a| - 1] == b[|b| - 1] && IsSubsequence(a[..|a| - 1], b[..|b| - 1])) ||
      IsSubsequence(a, b[..|b| - 1])
  }

  /** The edges of `s` whose status is `status`, in order. */
  function WithStatus(s: seq<Edge>, status: bool): (r: seq<Edge>)
    ensures forall e :: e in r <==> e in s && e.status == status
    ensures |r| <= |s|
  {
    if s == [] then []
    else
      WithStatus(s[..|s| - 1], status) + (if s[|s| - 1].status == status then [s[|s| - 1]] else [])
  }

  /** The sum of the weights, accumulated from the left; never negative when no weight is. */
  function TotalWeight(s: seq<Edge>): (t: int)
    ensures (forall i :: 0 <= i < |s| ==> s[i].w >= 0) ==> 0 <= t
    ensures |s| == 1 ==> t == s[0].w
  {
    if s == [] then 0 else TotalWeight(s[..|s| - 1]) + s[|s| - 1].w
  }

  /**
   * Every kept edge joined two components, so the number of kept edges is the
   * number of nodes minus the number of components left.
   */
  lemma {:induction false} SelectCount(n: nat, pipes: seq<Edge>)
    requires EndpointsIn(pipes, n)
    ensures |Select(n, pipes).taken| == n - NumClasses(Select(n, pipes).labels)
  {
    if pipes == [] {
      SingletonsClasses(n);
    } else {
      var prefix, e := pipes[..|pipes| - 1], pipes[|pipes| - 1];
      SelectCount(n, prefix);
      var s := Select(n, prefix);
      if s.labels[e.u] != s.labels[e.v] {
        MergeNumClasses(s.labels, e.u, e.v);
      }
    }
  }

  /** At the end, the endpoints of every edge walked, kept or not, are in one component. */
  lemma {:induction false} SelectConnectsEndpoints(n: nat, pipes: seq<Edge>)
    requires EndpointsIn(pipes, n)
    ensures forall e :: e in pipes ==> Select(n, pipes).labels[e.u] == Select(n, pipes).labels[e.v]
  {
    if pipes != [] {
      var prefix, last := pipes[..|pipes| - 1], pipes[|pipes| - 1];
      SelectConnectsEndpoints(n, prefix);
      var s := Select(n, prefix);
      MergeJoins(s.labels, last.u, last.v);
      forall e | e in pipes
        ensures Select(n, pipes).labels[e.u] == Select(n, pipes).labels[e.v]
      {
        if e != last {
          assert e in prefix;
        }
      }
    }
  }

  /** The kept edges are a subsequence of the input: input order is preserved. */
  lemma {:induction false} SelectIsSubsequence(n: nat, pipes: seq<Edge>)
    requires EndpointsIn(pipes, n)
    ensures IsSubsequence(Select(n, pipes).taken, pipes)
  {
    if pipes != [] {
      var prefix := pipes[..|pipes| - 1];
      SelectIsSubsequence(n, prefix);
      var s := Select(n, prefix);
      if s.labels[pipes[|pipes| - 1].u] != s.labels[pipes[|pipes| - 1].v] {
        assert (s.taken + [pipes[|pipes| - 1]])[..|s.taken|] == s.taken;
      }
    }
  }

  /** The active and the inactive edges together are the edges, each once. */
  lemma {:induction false} StatusPartition(s: seq<Edge>)
    ensures multiset(WithStatus(s, true)) + multiset(WithStatus(s, false)) == multiset(s)
  {
    if s != [] {
      var prefix, e := s[..|s| - 1], s[|s| - 1];
      StatusPartition(prefix);
      assert s == prefix + [e];
      WithStatusSnoc(prefix, e);
    }
  }

  /** The active and the inactive edges together are as many as the edges. */
  lemma StatusCount(s: seq<Edge>)
    ensures |WithStatus(s, true)| + |WithStatus(s, false)| == |s|
  {
    StatusPartition(s);
    assert |multiset(WithStatus(s, true)) + multiset(WithStatus(s, false))| == |multiset(s)|;
  }

  /** Appending an edge adds its weight to the total. */
  lemma TotalWeightSnoc(s: seq<Edge>, e: Edge)
    ensures TotalWeight(s + [e]) == TotalWeight(s) + e.w
  {
    assert (s + [e])[..|s|] == s;
  }

  /** The cost splits into the cost of the active and of the inactive edges. */
  lemma {:induction false} WeightSplit(s: seq<Edge>)
    ensures TotalWeight(s) == TotalWeight(WithStatus(s, true)) + TotalWeight(WithStatus(s, false))
  {
    if s != [] {
      var prefix, e := s[..|s| - 1], s[|s| - 1];
      WeightSplit(prefix);
      TotalWeightSnoc(prefix, e);
      if e.status {
        assert WithStatus(s, true) == WithStatus(prefix, true) + [e];
        assert WithStatus(s, false) == WithStatus(prefix, false);
        TotalWeightSnoc(WithStatus(prefix, true), e);
      } else {
        assert WithStatus(s, true) == WithStatus(prefix, true);
        assert WithStatus(s, false) == WithStatus(prefix, false) + [e];
        TotalWeightSnoc(WithStatus(prefix, false), e);
      }
    }
  }

  /**
   * Four nodes (numbered from 1, so five slots), three active pipes forming a
   * tree and one cheap inactive pipe, sorted by weight: Kruskal keeps the
   * first three, at cost 4, and one of them is inactive.
   */
  lemma {:induction false} FourNodeScenario()
    ensures var pipes := [Edge(1, 2, 1, true), Edge(1, 4, 1, false), Edge(2, 3, 2, true), Edge(3, 4, 3, true)];
      var kept := Select(5, pipes).taken;
      kept == pipes[..3] && TotalWeight(kept) == 4 && |WithStatus(kept, false)| == 1
  {
    var pipes := [Edge(1, 2, 1, true), Edge(1, 4, 1, false), Edge(2, 3, 2, true), Edge(3, 4, 3, true)];
    FourNodeLabels(pipes);
    SelectSnoc(5, pipes, 3);
    assert pipes[..4] == pipes;
    var kept := pipes[..3];
    assert kept[..2] == pipes[..2] && kept == pipes[..2] + [pipes[2]];
    assert pipes[..2] == pipes[..1] + [pipes[1]];
    assert pipes[..1] == [] + [pipes[0]];
    WithStatusSnoc(pipes[..2], pipes[2]);
    WithStatusSnoc(pipes[..1], pipes[1]);
    WithStatusSnoc([], pipes[0]);
    TotalWeightSnoc(pipes[..2], pipes[2]);
    TotalWeightSnoc(pipes[..1], pipes[1]);
    TotalWeightSnoc([], pipes[0]);
  }

  /** The scenario's pipes, sorted by weight. */
  predicate IsFourNodePipes(pipes: seq<Edge>)
  {
    pipes == [Edge(1, 2, 1, true), Edge(1, 4, 1, false), Edge(2, 3, 2, true), Edge(3, 4, 3, true)]
  }

  /** The first pipe of the scenario joins nodes 1 and 2. */
  lemma FourNodeFirst(pipes: seq<Edge>)
    requires IsFourNodePipes(pipes)
    ensures Select(5, pipes[..1]) == Selection([0, 2, 2, 3, 4], pipes[..1])
  {
    assert pipes[..0] == [];
    assert Singletons(5) == [0, 1, 2, 3, 4];
    SelectDecides(5, pipes, 0);
    assert Merge([0, 1, 2, 3, 4], 1, 2) == [0, 2, 2, 3, 4];
    assert pipes[..1] == [] + [pipes[0]];
  }

  /** The second pipe of the scenario joins node 4 to them. */
  lemma FourNodeSecond(pipes: seq<Edge>)
    requires IsFourNodePipes(pipes)
    ensures Select(5, pipes[..2]) == Selection([0, 4, 4, 3, 4], pipes[..2])
  {
    FourNodeFirst(pipes);
    SelectDecides(5, pipes, 1);
    assert Merge([0, 2, 2, 3, 4], 1, 4) == [0, 4, 4, 3, 4];
    assert pipes[..2] == pipes[..1] + [pipes[1]];
  }

  /** The third pipe of the scenario joins node 3, leaving nodes 1 to 4 in one component. */
  lemma FourNodeLabels(pipes: seq<Edge>)
    requires IsFourNodePipes(pipes)
    ensures Select(5, pipes[..3]) == Selection([0, 3, 3, 3, 3], pipes[..3])
  {
    FourNodeSecond(pipes);
    SelectDecides(5, pipes, 2);
    assert Merge([0, 4, 4, 3, 4], 2, 3) == [0, 3, 3, 3, 3];
    assert pipes[..3] == pipes[..2] + [pipes[2]];
  }

  /**
   * The decision for the next pipe, after any prefix: a pipe whose endpoints
   * are in different components is kept and the two components merge; a pipe
   * inside one component is skipped and nothing changes.
   */
  lemma SelectDecides(n: nat, pipes: seq<Edge>, i: int)
    requires EndpointsIn(pipes, n) && 0 <= i < |pipes|
    ensures EndpointsIn(pipes[..i], n)
    ensures var s, e := Select(n, pipes[..i]), pipes[i];
      (s.labels[e.u] != s.labels[e.v] ==>
        Select(n, pipes[..i + 1]) == Selection(Merge(s.labels, e.u, e.v), s.taken + [e])) &&
      (s.labels[e.u] == s.labels[e.v] ==> Select(n, pipes[..i + 1]) == s)
  {
    SelectSnoc(n, pipes, i);
  }

  /** Walking one more pipe is one more `Step`. */
  lemma SelectSnoc(n: nat, pipes: seq<Edge>, i: int)
    requires EndpointsIn(pipes, n) && 0 <= i < |pipes|
    ensures EndpointsIn(pipes[..i], n)
    ensures Select(n, pipes[..i + 1]) == Step(Select(n, pipes[..i]), pipes[i])
  {
    assert pipes[..i + 1][..i] == pipes[..i];
  }

  /** Appending an edge appends it to the filter of its own status only. */
  lemma WithStatusSnoc(s: seq<Edge>, e: Edge)
    ensures WithStatus(s + [e], e.status) == WithStatus(s, e.status) + [e]
    ensures WithStatus(s + [e], !e.status) == WithStatus(s, !e.status)
  {
    assert (s + [e])[..|s|] == s;
  }

  /**
   * Unions `u` and `v` in `uf`, whose classes `labels` describes, and returns
   * the labeling of the merged partition.
   */
  method Join(uf: UF, ghost labels: seq<int>, u: int, v: int) returns (ghost next: seq<int>)
    requires uf.Valid() && SameClasses(uf.rootOf, labels)
    requires 0 <= u < |labels| && 0 <= v < |labels|
    modifies uf, uf.parent, uf.size
    ensures uf.Valid() && uf.parent == old(uf.parent) && uf.size == old(uf.size)
    ensures next == Merge(labels, u, v)
    ensures SameClasses(uf.rootOf, next)
  {
    ghost var roots := uf.rootOf;
    uf.Union(u, v);
    next := Merge(labels, u, v);
    MergeSameClasses(roots, labels, u, v);
  }

  /**
   * Builds the spanning forest: walks `pipes` in order, skips an edge whose
   * endpoints are already connected, otherwise unions them and keeps the edge,
   * among the active or the inactive ones by its status. Node indices run
   * from 0 to `nodes`.
   */
  method Mst(pipes: seq<Edge>, nodes: int) returns (res: MstResult)
    requires nodes + 1 >= 0
    requires EndpointsIn(pipes, nodes + 1)
    ensures res.mst == Select(nodes + 1, pipes).taken
    ensures res.mstActives == WithStatus(res.mst, true)
    ensures res.mstInactives == WithStatus(res.mst, false)
    ensures res.inactiveCnt == |res.mstInactives|
    ensures res.cost == TotalWeight(res.mst)
    ensures |res.mst| == nodes + 1 - NumClasses(Select(nodes + 1, pipes).labels)
  {
    var mstEdges: seq<Edge> := [];
    var mstActives: seq<Edge> := [];
    var mstInactives: seq<Edge> := [];
    var uf := new UF(nodes + 1);
    ghost var labels := Singletons(nodes + 1);
    for i := 0 to |pipes|
      invariant uf.Valid() && uf.parent.Length == nodes + 1
      invariant fresh(uf.parent) && fresh(uf.size)
      invariant labels == Select(nodes + 1, pipes[..i]).labels
      invariant mstEdges == Select(nodes + 1, pipes[..i]).taken
      invariant SameClasses(uf.rootOf, labels)
      invariant mstActives == WithStatus(mstEdges, true)
      invariant mstInactives == WithStatus(mstEdges, false)
    {
      var edge := pipes[i];
      SelectSnoc(nodes + 1, pipes, i);
      var linked := uf.Connected(edge.u, edge.v);
      if linked {
        continue;
      }
      labels := Join(uf, labels, edge.u, edge.v);
      WithStatusSnoc(mstEdges, edge);
      mstEdges := mstEdges + [edge];
      if edge.status {
        mstActives := mstActives + [edge];
      } else {
        mstInactives := mstInactives + [edge];
      }
    }
    assert pipes[..|pipes|] == pipes;
    SelectCount(nodes + 1, pipes);
    SameClassesNumClasses(uf.rootOf, labels);
    assert |mstEdges| == nodes + 1 - uf.count;
    res := MstResult(TotalWeight(mstEdges), mstEdges, mstActives, mstInactives, |mstInactives|);
  }
}
