/**
 * Partitions of the elements 0..n-1, represented by labelings: two elements
 * are in the same class exactly when they carry the same label. This is the
 * abstract view of a disjoint-set forest (its labels are the roots) and the
 * state of the Kruskal edge selector's specification.
 */
module Partition {

  /** The labeling in which every element is alone in its class. */
  function Singletons(n: nat): seq<int>
  {
    seq(n, i => i)
  }

  /**
   * Joins the class of `a` into the class of `b`: every element labelled like
   * `a` takes `b`'s label, every other element keeps its own.
   */
  function Merge(l: seq<int>, a: int, b: int): (r: seq<int>)
    requires 0 <= a < |l| && 0 <= b < |l|
    ensures |r| == |l|
  {
    seq(|l|, i requires 0 <= i < |l| => if l[i] == l[a] then l[b] else l[i])
  }

  /**
   * Merging puts `a` and `b` together, and two elements end up together
   * exactly when they were together already or one was with `a` and the
   * other with `b`: the classes of `a` and `b` become one, and every other
   * pair keeps its relation.
   */
  lemma MergeJoins(l: seq<int>, a: int, b: int)
    requires 0 <= a < |l| && 0 <= b < |l|
    ensures Merge(l, a, b)[a] == Merge(l, a, b)[b]
    ensures forall x, y :: 0 <= x < |l| && 0 <= y < |l| ==>
      (Merge(l, a, b)[x] == Merge(l, a, b)[y] <==>
        l[x] == l[y] || (l[x] == l[a] && l[y] == l[b]) || (l[x] == l[b] && l[y] == l[a]))
    ensures l[a] == l[b] ==> Merge(l, a, b) == l
  {
  }

  /** The elements labelled `c`. */
  ghost function ClassOf(l: seq<int>, c: int): set<int>
  {
    set i | 0 <= i < |l| && l[i] == c
  }

  /** The labels in use, one per class. */
  ghost function Labels(l: seq<int>): set<int>
  {
    set i | 0 <= i < |l| :: l[i]
  }

  /** The number of classes. */
  ghost function NumClasses(l: seq<int>): nat
  {
    |Labels(l)|
  }

  /** `l` and `m` describe the same partition, whatever labels they use. */
  ghost predicate SameClasses(l: seq<int>, m: seq<int>)
  {
    |l| == |m| &&
    forall x, y :: 0 <= x < |l| && 0 <= y < |l| ==> (l[x] == l[y] <==> m[x] == m[y])
  }

  /** The elements 0..n-1 as a set. */
  ghost function Below(n: nat): (s: set<int>)
    ensures forall x :: x in s <==> 0 <= x < n
    ensures |s| == n
  {
    if n == 0 then {} else
      var s := Below(n - 1);
      assert n - 1 !in s;
      s + {n - 1}
  }

  /** n singletons make n classes, and the class of each element is itself. */
  lemma SingletonsClasses(n: nat)
    ensures NumClasses(Singletons(n)) == n
    ensures forall c :: 0 <= c < n ==> ClassOf(Singletons(n), c) == {c}
  {
    var l := Singletons(n);
    forall c | c in Below(n)
      ensures c in Labels(l)
    {
      assert l[c] == c;
    }
    assert Labels(l) == Below(n);
  }

  /**
   * Merging two different classes: the two become one, disjoint union of the
   * two, the class of `a`'s label disappears, and every other class is untouched.
   */
  lemma MergeClasses(l: seq<int>, a: int, b: int)
    requires 0 <= a < |l| && 0 <= b < |l| && l[a] != l[b]
    ensures ClassOf(l, l[a]) !! ClassOf(l, l[b])
    ensures ClassOf(Merge(l, a, b), l[b]) == ClassOf(l, l[a]) + ClassOf(l, l[b])
    ensures ClassOf(Merge(l, a, b), l[a]) == {}
    ensures forall c :: c != l[a] && c != l[b] ==> ClassOf(Merge(l, a, b), c) == ClassOf(l, c)
  {
  }

  /** Merging two different classes removes exactly one class. */
  lemma MergeNumClasses(l: seq<int>, a: int, b: int)
    requires 0 <= a < |l| && 0 <= b < |l| && l[a] != l[b]
    ensures NumClasses(Merge(l, a, b)) == NumClasses(l) - 1
  {
    var r := Merge(l, a, b);
    forall c | c in Labels(l) - {l[a]}
      ensures c in Labels(r)
    {
      var i :| 0 <= i < |l| && l[i] == c;
      assert r[i] == c;
    }
    assert Labels(r) == Labels(l) - {l[a]};
    assert l[a] in Labels(l);
  }

  /**
   * Merging the same two elements in two labelings of one partition gives two
   * labelings of one partition, whichever of the two elements names the target.
   */
  lemma MergeSameClasses(l: seq<int>, m: seq<int>, a: int, b: int)
    requires SameClasses(l, m) && 0 <= a < |l| && 0 <= b < |l|
    ensures SameClasses(Merge(l, a, b), Merge(m, a, b))
    ensures SameClasses(Merge(l, b, a), Merge(m, a, b))
  {
  }

  /** The labels of a labeling are those of all but its last element, plus the last one's. */
  lemma LabelsSnoc(l: seq<int>)
    requires |l| > 0
    ensures Labels(l) == Labels(l[..|l| - 1]) + {l[|l| - 1]}
  {
    var k := |l| - 1;
    forall c | c in Labels(l)
      ensures c in Labels(l[..k]) + {l[k]}
    {
      var i :| 0 <= i < |l| && l[i] == c;
      if i < k {
        assert l[..k][i] == c;
      }
    }
  }

  /** In two labelings of one partition, the last element opens a new class in both or in neither. */
  lemma SameClassesLast(l: seq<int>, m: seq<int>)
    requires SameClasses(l, m) && |l| > 0
    ensures l[|l| - 1] in Labels(l[..|l| - 1]) ==> m[|l| - 1] in Labels(m[..|l| - 1])
  {
    var k := |l| - 1;
    if l[k] in Labels(l[..k]) {
      var i :| 0 <= i < k && l[..k][i] == l[k];
      assert m[..k][i] == m[k];
    }
  }

  /** Two labelings of one partition have the same number of classes. */
  lemma {:induction false} SameClassesNumClasses(l: seq<int>, m: seq<int>)
    requires SameClasses(l, m)
    ensures NumClasses(l) == NumClasses(m)
    decreases |l|
  {
    if |l| > 0 {
      var k := |l| - 1;
      assert SameClasses(l[..k], m[..k]);
      SameClassesNumClasses(l[..k], m[..k]);
      LabelsSnoc(l);
      LabelsSnoc(m);
      SameClassesLast(l, m);
      SameClassesLast(m, l);
      if l[k] in Labels(l[..k]) {
        assert Labels(l) == Labels(l[..k]) && Labels(m) == Labels(m[..k]);
      }
    }
  }
}
