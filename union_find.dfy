/**
 * The disjoint-set forest `UF`: a parent array, a size array and a count of
 * components, with path compression in `Find` and union by size in `Union`.
 *
 * The proof keeps two ghost sequences beside the arrays: `rootOf[i]`, the root
 * that `i`'s parent links lead to, and `rank[i]`, a height that strictly grows
 * along every link that is not a self-loop, so that following links ends.
 */
module UnionFind {
  import opened Partition

  /** The error `validate` throws; `last` is the largest valid index. */
  datatype UfError = IllegalArgument(index: int, last: int)

  datatype Outcome = Pass | Fail(error: UfError)

  function Max(a: int, b: int): int
  {
    if a < b then b else a
  }

  /**
   * Parent links stay in range, `rootOf` names a root that every link
   * preserves, roots are their own representatives, and ranks grow strictly
   * along links up to the root.
   */
  ghost predicate Linked(parent: seq<int>, rank: seq<int>, rootOf: seq<int>)
  {
    |rank| == |parent| && |rootOf| == |parent| &&
    (forall i :: 0 <= i < |parent| ==> 0 <= parent[i] < |parent|) &&
    (forall i {:trigger rootOf[i]} :: 0 <= i < |parent| ==>
      0 <= rootOf[i] < |parent| && parent[rootOf[i]] == rootOf[i]) &&
    (forall i {:trigger rootOf[i]} :: 0 <= i < |parent| && parent[i] == i ==> rootOf[i] == i) &&
    (forall i {:trigger rootOf[parent[i]]} :: 0 <= i < |parent| ==> rootOf[parent[i]] == rootOf[i]) &&
    (forall i {:trigger rank[parent[i]]} :: 0 <= i < |parent| && parent[i] != i ==>
      rank[i] < rank[parent[i]] && rank[i] < rank[rootOf[i]])
  }

  /** `Linked`, and the size recorded at each root is the population of its tree. */
  ghost predicate Forest(parent: seq<int>, size: seq<int>, rank: seq<int>, rootOf: seq<int>)
  {
    Linked(parent, rank, rootOf) && |size| == |parent| &&
    forall r :: 0 <= r < |parent| && parent[r] == r ==> size[r] == |ClassOf(rootOf, r)|
  }

  /** The root reached from `x` by following parent links. */
  ghost function FollowLinks(parent: seq<int>, rank: seq<int>, rootOf: seq<int>, x: int): (r: int)
    requires Linked(parent, rank, rootOf) && 0 <= x < |parent|
    ensures r == rootOf[x] && parent[r] == r
    decreases rank[rootOf[x]] - rank[x]
  {
    if parent[x] == x then x else FollowLinks(parent, rank, rootOf, parent[x])
  }

  /** The nodes visited on the way from `x` to its root, the root excluded. */
  ghost function PathTo(parent: seq<int>, rank: seq<int>, rootOf: seq<int>, x: int): (s: set<int>)
    requires Linked(parent, rank, rootOf) && 0 <= x < |parent|
    ensures x in s <==> parent[x] != x
    ensures forall y :: y in s ==>
      0 <= y < |parent| && parent[y] != y && rootOf[y] == rootOf[x] && rank[x] <= rank[y]
    decreases rank[rootOf[x]] - rank[x]
  {
    if parent[x] == x then {} else {x} + PathTo(parent, rank, rootOf, parent[x])
  }

  /** The representatives of the classes are exactly the roots of the forest. */
  lemma RootsAreLabels(parent: seq<int>, rank: seq<int>, rootOf: seq<int>)
    requires Linked(parent, rank, rootOf)
    ensures Labels(rootOf) == set r | 0 <= r < |parent| && parent[r] == r
  {
    forall r | 0 <= r < |parent| && parent[r] == r
      ensures r in Labels(rootOf)
    {
      assert rootOf[r] == r;
    }
  }

  /** Pointing a non-root node straight at its root keeps the forest and its partition. */
  lemma CompressKeepsForest(parent: seq<int>, size: seq<int>, rank: seq<int>, rootOf: seq<int>, x: int)
    requires Forest(parent, size, rank, rootOf) && 0 <= x < |parent| && parent[x] != x
    ensures Forest(parent[x := rootOf[x]], size, rank, rootOf)
  {
    var parent', r := parent[x := rootOf[x]], rootOf[x];
    assert parent[r] == r && rootOf[r] == r;
    assert rank[x] < rank[parent[x]];
    forall i | 0 <= i < |parent|
      ensures rootOf[parent'[i]] == rootOf[i]
      ensures parent'[i] != i ==> rank[i] < rank[parent'[i]] && rank[i] < rank[rootOf[i]]
    {
      if i != x {
        assert rootOf[parent[i]] == rootOf[i];
        assert parent[i] != i ==> rank[i] < rank[parent[i]];
      }
    }
  }

  /** After hanging root `a` under root `b`, every node still names a root, and roots name themselves. */
  lemma LinkKeepsRoots(parent: seq<int>, rank: seq<int>, rootOf: seq<int>, x: int, y: int)
    requires Linked(parent, rank, rootOf)
    requires 0 <= x < |parent| && 0 <= y < |parent| && rootOf[x] != rootOf[y]
    ensures var parent', rootOf' := parent[rootOf[x] := rootOf[y]], Merge(rootOf, x, y);
      forall i :: 0 <= i < |parent| ==>
        0 <= rootOf'[i] < |parent| && parent'[rootOf'[i]] == rootOf'[i] &&
        (parent'[i] == i ==> rootOf'[i] == i)
  {
    var a, b := rootOf[x], rootOf[y];
    var parent', rootOf' := parent[a := b], Merge(rootOf, x, y);
    assert parent[a] == a && parent[b] == b;
    forall i | 0 <= i < |parent|
      ensures 0 <= rootOf'[i] < |parent| && parent'[rootOf'[i]] == rootOf'[i]
      ensures parent'[i] == i ==> rootOf'[i] == i
    {
      assert parent[rootOf[i]] == rootOf[i];
      assert parent[i] == i ==> rootOf[i] == i;
    }
  }

  /** After hanging root `a` under root `b`, every link still leads to the same root. */
  lemma LinkKeepsRootOfParent(parent: seq<int>, rank: seq<int>, rootOf: seq<int>, x: int, y: int)
    requires Linked(parent, rank, rootOf)
    requires 0 <= x < |parent| && 0 <= y < |parent| && rootOf[x] != rootOf[y]
    ensures var parent', rootOf' := parent[rootOf[x] := rootOf[y]], Merge(rootOf, x, y);
      forall i :: 0 <= i < |parent| ==> rootOf'[parent'[i]] == rootOf'[i]
  {
    var a, b := rootOf[x], rootOf[y];
    var parent', rootOf' := parent[a := b], Merge(rootOf, x, y);
    assert parent[a] == a && parent[b] == b;
    assert rootOf[a] == a && rootOf[b] == b;
    forall i | 0 <= i < |parent|
      ensures rootOf'[parent'[i]] == rootOf'[i]
    {
      if i == a {
        assert rootOf'[b] == b && rootOf'[a] == b;
      } else {
        assert rootOf[parent[i]] == rootOf[i];
      }
    }
  }

  /** After hanging root `a` under root `b` and raising `b`'s rank, ranks still grow along links. */
  lemma LinkKeepsRanks(parent: seq<int>, rank: seq<int>, rootOf: seq<int>, x: int, y: int)
    requires Linked(parent, rank, rootOf)
    requires 0 <= x < |parent| && 0 <= y < |parent| && rootOf[x] != rootOf[y]
    ensures var a, b := rootOf[x], rootOf[y];
      var parent', rank', rootOf' := parent[a := b], rank[b := Max(rank[b], rank[a] + 1)], Merge(rootOf, x, y);
      forall i :: 0 <= i < |parent| && parent'[i] != i ==>
        rank'[i] < rank'[parent'[i]] && rank'[i] < rank'[rootOf'[i]]
  {
    var a, b := rootOf[x], rootOf[y];
    var parent', rank', rootOf' := parent[a := b], rank[b := Max(rank[b], rank[a] + 1)], Merge(rootOf, x, y);
    assert parent[a] == a && parent[b] == b;
    forall i | 0 <= i < |parent| && parent'[i] != i
      ensures rank'[i] < rank'[parent'[i]] && rank'[i] < rank'[rootOf'[i]]
    {
      if i != a {
        assert rank[i] < rank[parent[i]] && rank[i] < rank[rootOf[i]];
      }
    }
  }

  /** Hanging root `a` under root `b` keeps the links well formed, with `a`'s class merged into `b`'s. */
  lemma LinkKeepsLinked(parent: seq<int>, rank: seq<int>, rootOf: seq<int>, x: int, y: int)
    requires Linked(parent, rank, rootOf)
    requires 0 <= x < |parent| && 0 <= y < |parent| && rootOf[x] != rootOf[y]
    ensures var a, b := rootOf[x], rootOf[y];
      Linked(parent[a := b], rank[b := Max(rank[b], rank[a] + 1)], Merge(rootOf, x, y))
  {
    LinkKeepsRoots(parent, rank, rootOf, x, y);
    LinkKeepsRootOfParent(parent, rank, rootOf, x, y);
    LinkKeepsRanks(parent, rank, rootOf, x, y);
  }

  /**
   * Hanging the root of `x` under the root of `y` (two different roots) gives
   * a forest whose partition is the old one with the two classes merged, and
   * whose new root records the sum of the two sizes.
   */
  lemma LinkKeepsForest(parent: seq<int>, size: seq<int>, rank: seq<int>, rootOf: seq<int>, x: int, y: int)
    requires Forest(parent, size, rank, rootOf)
    requires 0 <= x < |parent| && 0 <= y < |parent| && rootOf[x] != rootOf[y]
    ensures var a, b := rootOf[x], rootOf[y];
      Forest(parent[a := b], size[b := size[b] + size[a]], rank[b := Max(rank[b], rank[a] + 1)],
             Merge(rootOf, x, y))
  {
    var a, b := rootOf[x], rootOf[y];
    LinkKeepsLinked(parent, rank, rootOf, x, y);
    MergeClasses(rootOf, x, y);
    var parent', size', rootOf' := parent[a := b], size[b := size[b] + size[a]], Merge(rootOf, x, y);
    forall r | 0 <= r < |parent| && parent'[r] == r
      ensures size'[r] == |ClassOf(rootOf', r)|
    {
      if r == b {
        assert ClassOf(rootOf', r) == ClassOf(rootOf, a) + ClassOf(rootOf, b);
      } else {
        assert ClassOf(rootOf', r) == ClassOf(rootOf, r);
      }
    }
  }

  /**
   * The state of path compression from `p` (whose path to `root` is `path`)
   * once it has reached `q`: the nodes of `path` before `q` point at `root`,
   * every other link is as it was in `links`.
   */
  ghost predicate CompressedUpTo(cur: seq<int>, links: seq<int>, rank: seq<int>, rootOf: seq<int>,
                                 path: set<int>, q: int, root: int)
    requires Linked(links, rank, rootOf) && 0 <= q < |links|
  {
    |cur| == |links| && PathTo(links, rank, rootOf, q) <= path &&
    forall i :: 0 <= i < |cur| ==>
      cur[i] == if i in path && i !in PathTo(links, rank, rootOf, q) then root else links[i]
  }

  /** One step of path compression: `q` is pointed at the root and the walk moves to `q`'s old parent. */
  lemma CompressStep(cur: seq<int>, links: seq<int>, rank: seq<int>, rootOf: seq<int>,
                     path: set<int>, q: int, root: int)
    requires Linked(links, rank, rootOf) && 0 <= q < |links| && rootOf[q] == root && q != root
    requires CompressedUpTo(cur, links, rank, rootOf, path, q, root)
    ensures cur[q] == links[q] != q && rootOf[links[q]] == root
    ensures rank[q] < rank[links[q]] <= rank[root]
    ensures CompressedUpTo(cur[q := root], links, rank, rootOf, path, links[q], root)
  {
    var next := links[q];
    assert PathTo(links, rank, rootOf, q) == {q} + PathTo(links, rank, rootOf, next);
    assert q !in PathTo(links, rank, rootOf, next);
  }

  class UF {
    /** parent[i] is the parent of i */
    var parent: array<int>
    /** size[r] is the number of nodes in the tree rooted at r */
    var size: array<int>
    /** the number of components */
    var count: int
    ghost var rank: seq<int>
    ghost var rootOf: seq<int>

    ghost predicate Valid()
      reads this, parent, size
    {
      parent != size &&
      Forest(parent[..], size[..], rank, rootOf) &&
      count == NumClasses(rootOf)
    }

    /** `n` elements 0..n-1, each in its own set. */
    constructor (n: nat)
      ensures Valid() && fresh(parent) && fresh(size)
      ensures parent.Length == n && count == n
      ensures forall i :: 0 <= i < n ==> parent[i] == i && size[i] == 1
      ensures rootOf == Singletons(n)
    {
      var links := new int[n](_ => 0);
      for i := 0 to n
        invariant forall j :: 0 <= j < i ==> links[j] == j
      {
        links[i] := i;
      }
      count := n;
      size := new int[n](_ => 1);
      parent := links;
      rank := seq(n, _ => 0);
      rootOf := Singletons(n);
      SingletonsClasses(n);
    }

    /** The index check every operation makes before touching the arrays. */
    function Validate(p: int): (o: Outcome)
      reads this
      ensures o == Pass <==> 0 <= p < parent.Length
      ensures o.Fail? ==> o.error.index == p && o.error.last == parent.Length - 1
    {
      if 0 <= p && p < parent.Length then Pass else Fail(IllegalArgument(p, parent.Length - 1))
    }

    /**
     * The root of `p`'s tree. Every node on the way from `p` to the root is
     * pointed straight at the root; no other link changes, and neither does
     * the partition.
     */
    method Find(p: int) returns (root: int)
      requires Valid() && Validate(p) == Pass
      modifies parent
      ensures Valid()
      ensures root == rootOf[p] && parent[root] == root
      ensures root == old(FollowLinks(parent[..], rank, rootOf, p))
      ensures forall i :: 0 <= i < parent.Length ==>
        parent[i] == if i in old(PathTo(parent[..], rank, rootOf, p)) then root else old(parent[i])
    {
      ghost var links := parent[..];
      root := p;
      while root != parent[root]
        invariant 0 <= root < parent.Length && rootOf[root] == rootOf[p]
        invariant parent[..] == links
        decreases rank[rootOf[p]] - rank[root]
      {
        root := parent[root];
      }
      ghost var path := PathTo(links, rank, rootOf, p);
      var q := p;
      while q != root
        invariant 0 <= q < parent.Length && rootOf[q] == root
        invariant Forest(parent[..], size[..], rank, rootOf)
        invariant CompressedUpTo(parent[..], links, rank, rootOf, path, q, root)
        decreases rank[root] - rank[q]
      {
        CompressStep(parent[..], links, rank, rootOf, path, q, root);
        CompressKeepsForest(parent[..], size[..], rank, rootOf, q);
        var next := parent[q];
        parent[q] := root;
        q := next;
      }
    }

    /** Whether `p` and `q` are in the same set. */
    method Connected(p: int, q: int) returns (b: bool)
      requires Valid() && Validate(p) == Pass && Validate(q) == Pass
      modifies parent
      ensures Valid()
      ensures b <==> rootOf[p] == rootOf[q]
    {
      var rootP := Find(p);
      var rootQ := Find(q);
      b := rootP == rootQ;
    }

    /**
     * Merges the sets of `p` and `q`. The smaller tree's root goes under the
     * larger tree's root, `q`'s root under `p`'s on a tie; nothing changes in
     * the partition when the two are already connected.
     */
    method Union(p: int, q: int)
      requires Valid() && Validate(p) == Pass && Validate(q) == Pass
      modifies this, parent, size
      ensures Valid() && parent == old(parent) && size == old(size)
      ensures rootOf[p] == rootOf[q]
      ensures var rootP, rootQ := old(rootOf[p]), old(rootOf[q]);
        rootOf == if old(size[rootP]) < old(size[rootQ]) then Merge(old(rootOf), p, q)
                  else Merge(old(rootOf), q, p)
      ensures old(rootOf[p]) == old(rootOf[q]) ==>
        count == old(count) && size[..] == old(size[..])
      ensures var rootP, rootQ := old(rootOf[p]), old(rootOf[q]);
        rootP != rootQ ==>
          var qWins := old(size[rootP]) < old(size[rootQ]);
          var winner, loser := if qWins then rootQ else rootP, if qWins then rootP else rootQ;
          count == old(count) - 1 &&
          parent[loser] == winner &&
          size[winner] == old(size[rootP]) + old(size[rootQ]) &&
          (forall r :: 0 <= r < size.Length && r != winner ==> size[r] == old(size[r]))
    {
      var rootP := Find(p);
      var rootQ := Find(q);
      if rootP == rootQ {
        MergeJoins(rootOf, p, q);
        MergeJoins(rootOf, q, p);
        return;
      }
      if size[rootP] < size[rootQ] {
        MergeJoins(rootOf, p, q);
        Link(p, q, rootP, rootQ);
      } else {
        MergeJoins(rootOf, q, p);
        Link(q, p, rootQ, rootP);
      }
    }

    /** Hangs root `a` (the root of `x`) under root `b` (the root of `y`). */
    method Link(x: int, y: int, a: int, b: int)
      requires Valid() && 0 <= x < parent.Length && 0 <= y < parent.Length
      requires a == rootOf[x] && b == rootOf[y] && a != b
      modifies this, parent, size
      ensures Valid()
      ensures parent == old(parent) && size == old(size)
      ensures parent[..] == old(parent[..])[a := b]
      ensures size[b] == old(size[b]) + old(size[a])
      ensures forall i :: 0 <= i < size.Length && i != b ==> size[i] == old(size[i])
      ensures rootOf == Merge(old(rootOf), x, y)
      ensures count == old(count) - 1
    {
      ghost var links, sizes, roots := parent[..], size[..], rootOf;
      LinkKeepsForest(links, sizes, rank, roots, x, y);
      MergeNumClasses(roots, x, y);
      parent[a] := b;
      size[b] := size[b] + size[a];
      rank := rank[b := Max(rank[b], rank[a] + 1)];
      rootOf := Merge(rootOf, x, y);
      count := count - 1;
      assert parent[..] == links[a := b];
      assert size[..] == sizes[b := sizes[b] + sizes[a]];
    }
  }
}
