# Water-pipe network: disjoint-set forest and Kruskal selection

This project models the core of `MCF_Submission/main.swift`, a program that finds
the minimum spanning tree of a water-pipe network and counts how many currently
inactive pipes that tree uses. The model has two parts.

- `UF` is the disjoint-set (union-find) structure. It holds a parent array, a
  size array and a count of components. `find` compresses paths, `union`
  links by size, and `validate` checks that an index is in range.
- `MST` is the Kruskal loop. It walks a weight-sorted list of pipes and skips
  every pipe whose endpoints are already connected. It unions the endpoints of
  every other pipe and keeps that pipe, filed under the active or the inactive
  pipes by its status. It returns the total cost, the kept pipes, the two
  status lists and the number of inactive pipes kept.

The model has three modules.

- `Partition` (`partition.dfy`) describes partitions as labelings: two elements
  are in one class exactly when they carry the same label. It defines merging
  two classes, the classes themselves, and the number of classes.
- `UnionFind` (`union_find.dfy`) is the `UF` struct written as a class over two
  arrays. Two ghost sequences sit beside the arrays:
  - `rootOf` gives the root each node's links lead to. It is the partition the
    forest stands for.
  - `rank` grows strictly along every link. It proves that following links
    ends.
  
  `Valid()` says three things: the links form such a forest; the size stored at
  each root is the population of its tree; and `count` is the number of
  classes.
- `Kruskal` (`kruskal.dfy`) states the selection as a function of the pipe list
  (`Select`, a fold of one decision `Step` per pipe). It proves what that
  selection keeps. `Mst` is the loop over a `UF`, and its contract ties the
  loop's results to `Select`.

## Model

| member | source | states |
|---|---|---|
| Partition.MergeJoins | MCF_Submission/main.swift:63-77 | After a merge, the two merged elements are together. Two elements are together exactly when they were already, or one was with each merged element. Merging two elements of one class changes nothing. |
| Partition.MergeClasses | MCF_Submission/main.swift:69-75 | Merging two different classes: they were disjoint, and the target label's class becomes their union. The source label's class becomes empty and every other class is unchanged. |
| Partition.MergeNumClasses | MCF_Submission/main.swift:76 | Merging two different classes lowers the number of classes by exactly one, matching `count -= 1`. |
| Partition.SingletonsClasses | MCF_Submission/main.swift:22-28 | The initial labeling has n classes, and each element's class is the element alone. |
| Partition.SameClassesNumClasses | MCF_Submission/main.swift:16 | Two labelings of one partition have the same number of classes, so the forest's count equals the selection's number of components. |
| Partition.MergeSameClasses | MCF_Submission/main.swift:102-103 | Merging the same two elements in two labelings of one partition gives labelings of one partition, whichever element names the merged class. |
| UnionFind.RootsAreLabels | MCF_Submission/main.swift:15-16 | In a well-formed forest the class labels are exactly the roots, so the number of components is the number of roots. |
| UnionFind.FollowLinks | MCF_Submission/main.swift:36-39 | Following parent links from a node ends, at a node that is its own parent and is that node's root. |
| UnionFind.PathTo | MCF_Submission/main.swift:40-45 | The nodes passed on the way to the root: they include the start exactly when it is not a root. All of them are non-roots with the same root and a rank at least the start's. |
| UnionFind.CompressKeepsForest | MCF_Submission/main.swift:43 | Pointing a non-root node straight at its root keeps a well-formed forest with the same partition and sizes. |
| UnionFind.CompressStep | MCF_Submission/main.swift:41-45 | One step of the compression loop. The current node's old parent is not the node itself, has the same root, and has a higher rank no greater than the root's, so the loop ends. After the step, every path node passed so far points at the root and every other link is untouched. |
| UnionFind.LinkKeepsRoots | MCF_Submission/main.swift:69-75 | After one root is linked under another, every node names a root of the new forest, and every root names itself. |
| UnionFind.LinkKeepsRootOfParent | MCF_Submission/main.swift:69-75 | After the link, every parent link still leads to the same root. |
| UnionFind.LinkKeepsRanks | MCF_Submission/main.swift:69-75 | After the link, with the new root's rank raised, ranks still grow strictly along links. |
| UnionFind.LinkKeepsLinked | MCF_Submission/main.swift:69-75 | Linking one root under another keeps the links well formed, with the two classes merged. |
| UnionFind.LinkKeepsForest | MCF_Submission/main.swift:69-75 | Linking one root under another and adding its size to the new root keeps every root's size equal to its population. |
| UnionFind.UF.constructor | MCF_Submission/main.swift:22-29 | n elements: each is its own parent with size 1, the count is n, and every element is alone in its class. |
| UnionFind.UF.Validate | MCF_Submission/main.swift:79-84 | Passes exactly when 0 <= p < n. Otherwise it fails with the illegal-argument error carrying p and n - 1. |
| UnionFind.UF.Find | MCF_Submission/main.swift:34-47 | Needs an index that passes validation. Returns the root reached by following links from p. Afterwards the nodes on that path, and no other, point at the root. The forest stays valid and the partition does not change. |
| UnionFind.UF.Connected | MCF_Submission/main.swift:54-56 | True exactly when p and q are in the same class. The forest stays valid. |
| UnionFind.UF.Union | MCF_Submission/main.swift:63-77 | Afterwards p and q are in one class. If they already were, the count and sizes are unchanged. Otherwise the new partition is the two classes merged and the count drops by one. The smaller tree's root goes under the larger's, p's root winning a tie, and the winner's size becomes the sum of both. |
| UnionFind.UF.Link | MCF_Submission/main.swift:69-76 | Hangs one root under another, changing only that parent entry and that size entry. The new size is the sum, the partition merges the two classes, the count drops by one, and the forest stays valid. |
| Kruskal.Step | MCF_Submission/main.swift:102-104 | Afterwards the edge's endpoints are in one component. An edge inside a component leaves the selection unchanged. An edge between two components is appended to the kept edges and leaves one component fewer. |
| Kruskal.Select | MCF_Submission/main.swift:100-110 | The selection over n nodes: one component label per node, after walking the pipes in order with Kruskal's decision for each. |
| Kruskal.SelectCount | MCF_Submission/main.swift:100-110 | The number of kept pipes is the number of nodes minus the number of components left. |
| Kruskal.SelectConnectsEndpoints | MCF_Submission/main.swift:101-103 | At the end, both endpoints of every walked pipe, kept or not, are in one component. |
| Kruskal.SelectIsSubsequence | MCF_Submission/main.swift:101-104 | The kept pipes are a subsequence of the input, in input order. |
| Kruskal.SelectSnoc | MCF_Submission/main.swift:101-110 | Walking one more pipe applies one more decision to the selection so far. |
| Kruskal.SelectDecides | MCF_Submission/main.swift:102-104 | After any prefix of the pipes: a pipe whose endpoints are in different components is kept and the two components merge; a pipe inside one component is skipped and the selection is unchanged. |
| Kruskal.WithStatus | MCF_Submission/main.swift:105-109 | An edge is in the filtered list exactly when it is in the input and has the given status. The list is never longer than the input. |
| Kruskal.WithStatusSnoc | MCF_Submission/main.swift:104-109 | Appending a pipe appends it to the list of its own status and leaves the other list unchanged. |
| Kruskal.StatusPartition | MCF_Submission/main.swift:105-109 | The active and the inactive kept pipes together are the kept pipes, each exactly once (as multisets). |
| Kruskal.StatusCount | MCF_Submission/main.swift:105-112 | The number of active plus inactive kept pipes is the number of kept pipes. |
| Kruskal.TotalWeight | MCF_Submission/main.swift:112 | The sum of the weights: never negative when no weight is, and equal to the single weight for one edge. |
| Kruskal.TotalWeightSnoc | MCF_Submission/main.swift:112 | Appending a pipe adds its weight to the total, as the left-to-right sum does. |
| Kruskal.WeightSplit | MCF_Submission/main.swift:112 | The total cost is the cost of the active kept pipes plus the cost of the inactive ones. |
| Kruskal.Join | MCF_Submission/main.swift:103 | Unions the two endpoints in the forest. The forest stays valid, and its partition is the previous one with the two classes merged. |
| Kruskal.Mst | MCF_Submission/main.swift:91-113 | The returned list is exactly the selection's kept pipes, in order. The two status lists are its active and inactive filters, and the inactive count is that list's length. The cost is the sum of the kept weights. The number of kept pipes is the node slots (nodes + 1) minus the components left; inside the call this is also shown equal to the node slots minus the forest's count. |
| Kruskal.FourNodeScenario | MCF_Submission/main.swift:91-113 | Four nodes numbered from 1, three active pipes forming a tree, and one inactive pipe of weight 1, sorted by weight: the first three pipes are kept, the cost is 4, and one kept pipe is inactive. |

## Left out

- `readNext` and `solution` (main.swift:115-175) are left out. They read the input lines, build the two pipe lists and print the answer, which is I/O.
- The sorts by weight (main.swift:140, 150, 154) happen in the caller. `Mst` is modelled for pipes in any order, and no precondition demands sorting. Minimality of the kept tree, which needs sorted input, is not proved.
- The disabled "enhancer" block (main.swift:158-172) is commented out in the source, so it is not modelled.
- The top-level driver (main.swift:178-180) is left out.
- `UnionFind.UF.Validate` keeps the index and the largest valid index. It does not model the text of the error message.
- `UnionFind.UF.Find`, `UnionFind.UF.Connected` and `UnionFind.UF.Union` take a valid index as a precondition. In the source, `try!` turns a failed validation into a run-time trap, which has no result to model.
- `Kruskal.Mst` requires `nodes + 1 >= 0` and pipe endpoints inside `0..nodes`. In the source, a negative array size or an out-of-range endpoint traps.
- `Kruskal.Mst` does not model 64-bit overflow of the cost sum or of `nodes + 1`. Swift traps on overflow; the model uses unbounded integers.
- `Kruskal.Mst` does not expose the final component count of its union-find, because that structure is local to the call and the source does not return it. The count of components is stated through `Select`'s labels, and inside the call it is shown equal to the forest's count.
- `UnionFind.UF.Union` and `UnionFind.UF.Connected` do not say which links their two calls to find compressed. They say only that the forest stays valid, and `Union` says which root is linked under which.
- `UF` is a Swift struct, a value type. It is modelled as a class, and `Mst` owns a fresh instance, so no aliasing arises.
