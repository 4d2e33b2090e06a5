# Verified models of the robot's mapping core

These Dafny modules model the parts of the repository on which its maps rest, and prove what
they are for.  Where a class updates its fields in place, the model is a class with the same
fields and loops, proved against functions on values; the theorems about whole runs are lemmas
about those functions.

- **The ikd-Tree** of FAST-LIO (`Geometry`, `LazyTree`, `Balance`, `KdOrder`, `KdNode`,
  `NthElement`, `TreeOps`, `TreeBuild`, `RebuildRequest`, `TreeUpdate`, `ManualHeap`,
  `NearestSearch`, `ManualQ`, `RebuildProtocol`, `Downsample`, `KdTree`).  Nodes are linked heap
  objects; each denotes a value (`LazyTree.Tree`), whose live points form a multiset.  A point is
  live when it is not deleted and no ancestor still owes it a deletion.  Insertion, box deletion, box search,
  inline rebuild and nearest-neighbour search refine the obvious multiset operations; the
  background rebuild is a protocol between two threads whose every action keeps one coupling,
  but for two that are named and proved to be the only ones.
- **The Bayesian static-map builder** (`MapperState`, `MapperHistory`, `MapperEvidence`,
  `MapperVerdicts`, `Mapper`).  `WheelTech/wheeltec_stack/wheeltec_pointcloud_mapper` holds the same algorithm.
- **FastCRC** (`CrcTheory`, `CrcSlicing`, `CrcDetect`, `FastCrc`).  Tables are given by their
  recurrence, and the reference is the shift register that takes one message bit at a time
  (RFC 1662, Appendix C; RFC 1952, section 8).  Two more results say what the checksums are for:
  a receiver accepts exactly the frames with the right check bytes, and no burst of up to four
  bytes goes unnoticed.
- **The sliding local map** (`LocalMap`), **lidar/IMU batching** (`SyncState`, `SyncNode`),
  **rapidjson's pool allocator** (`PoolAllocator`) and **the occupancy image** (`GridMap`).

`Prelude` holds what several modules share.

Eight properties that one might expect of the code do not hold of it unconditionally; the model
keeps the code as it is and proves the exact condition:

- The background rebuild keeps the insertion of a downsampled round only if the deletion before
  it leaves no request for the root (`RebuildProtocol.RoundIff`, `RebuildProtocol.LosingRun`).
  Without the lock the two are separate: the deletion may end by handing the root to the
  background thread (`KdTree.Tree.DeleteUnlocked`), which may copy the tree before the insertion,
  and that is not logged.  The deletion leaves no request if nothing is found in the box (then
  there is none), below 1500 nodes (`RebuildRequest.SmallNeverAsks`), or if the criterion fails
  on the updated counts (`RebuildRequest.AsksRoot`, on the tree before the call).
- A round with the lock is carried out once only if it does not get the lock between a swap and
  the clearing of `rebuild_flag`, which comes after the unlock: there it leaves its entries to
  the next rebuild (`RebuildProtocol.DuplicatingRun`).  These two are all that can go wrong
  (`RebuildProtocol.RunCoupledIff`).
- A rebuilt tree meets the balance criterion for every input only if the balance parameter is
  at least 6/11 (`Balance.BuiltBalancedIff`; the default is 0.6).
- The slabs that a move of the local map deletes lie within the old box only if the move is no
  longer than the box (`LocalMap.SlabsWithinIff`), that is, if DET_RANGE is at most twice
  cube_len (`LocalMap.MoveFits`).
- The local map keeps the sensor inside only if cube_len is more than twice DET_RANGE
  (`LocalMap.KeepsSensorIff`).  With the code's defaults, 200 and 300, every position in the box
  counts as close to the lower edges, and a move of 150 can leave the sensor outside.
- A scan keeps its own stamp only if no lidar loop back clears a buffered scan
  (`SyncState.RunPairedIff`, `SyncState.StampOfEarlierScan`, `SyncState.StaleStamp`): the loop back clears
  `lidar_buffer` but not `time_buffer`.
- The grid of the occupancy image has a cell for every finite point, for any cloud, only if the
  padding is positive (`GridMap.NoneDroppedIff`), and for a given cloud only if it is, or if there
  is none and neither extent is a whole number of cells (`GridMap.AllInsideIff`).
- A user-supplied first chunk of the pool allocator stays within its buffer only if the size of
  the chunk header is a multiple of eight (`PoolAllocator.BufferFitsIff`); the model takes the
  24 bytes of 64-bit platforms.

`dafny verify dfyconfig.toml` checks the whole project.

## Model

| member | source | states |
|---|---|---|
| KdTree.Tree.NearestSearch | Scout_mini/src/FAST_LIO/include/ikd-Tree/ikd_Tree.cpp:426-461 | The returned points with their squared distances are, as a multiset, the k nearest of all live points within the radius (all of them if fewer), nearest first; the live points and the rebuild protocol state do not change.  The same in coordinates: dists[i] is (q.x - v.x)^2 + (q.y - v.y)^2 + (q.z - v.z)^2 for the i-th point v, at most k live points come back, none beyond the radius, and for every live point p within the radius that is left out there are k points v with 2 q.(p - v) <= p.p - v.v, so that q lies on the side of v. |
| NearestSearch.Query | Scout_mini/src/FAST_LIO/include/ikd-Tree/ikd_Tree.cpp:426-461 | The same for any well-formed tree: the result is a k-best selection of the brute-force candidates, sorted nearest first, and the search only pushes flags down. |
| NearestSearch.InCoordinates | Scout_mini/src/FAST_LIO/include/ikd-Tree/ikd_Tree.cpp:426-461 | Every k-best selection of the candidates has that meaning in coordinates: squared distances as sums of products, the radius, the multiplicities, and the side of the query for every point left out. |
| Geometry.NearerIff | Scout_mini/src/FAST_LIO/include/ikd-Tree/ikd_Tree.cpp:1686 | a is at most as far from q as b exactly if 2 q.(b - a) <= b.b - a.a, that is, if q is not beyond the plane midway between them on the side of b. |
| NearestSearch.Search | Scout_mini/src/FAST_LIO/include/ikd-Tree/ikd_Tree.cpp:1062-1244 | A search turns a heap of at most k candidates into the k best of what it held together with every live point of the subtree in reach, despite box pruning, son ordering, tombstones and pending push-downs. |
| NearestSearch.SearchNode | Scout_mini/src/FAST_LIO/include/ikd-Tree/ikd_Tree.cpp:1064-1084 | The early exits (deleted subtree, box further away than the radius) skip no candidate, and the push-down before the descent changes no live point. |
| NearestSearch.SearchParts | Scout_mini/src/FAST_LIO/include/ikd-Tree/ikd_Tree.cpp:1085-1242 | Own point, nearer son, further son, in the order and with the skips of the code: the heap becomes a k-best selection of the old heap and everything live below. |
| NearestSearch.SearchSon | Scout_mini/src/FAST_LIO/include/ikd-Tree/ikd_Tree.cpp:1096-1242 | Whether a son is searched or skipped, the heap becomes a k-best selection of its old content and the son's live points in reach; the other son is left alone. |
| NearestSearch.Consider | Scout_mini/src/FAST_LIO/include/ikd-Tree/ikd_Tree.cpp:1085-1095 | After the node's own point the heap is a k-best selection of the old heap and that point, which takes part exactly if it is live and within the radius. |
| NearestSearch.Offer | Scout_mini/src/FAST_LIO/include/ikd-Tree/ikd_Tree.cpp:1088-1094 | The heap becomes a k-best selection of its old content and the candidate, and never holds more than k. |
| NearestSearch.Drain | Scout_mini/src/FAST_LIO/include/ikd-Tree/ikd_Tree.cpp:451-460 | Popping the heap and inserting at the front yields every candidate of the heap once, with distances in ascending order. |
| NearestSearch.CalcBoxDist | Scout_mini/src/FAST_LIO/include/ikd-Tree/ikd_Tree.cpp:1691-1709 | The six comparisons yield the least squared distance from the query to a point of a non-empty node range; no node yields none (INFINITY). |
| NearestSearch.KBestCompose | Scout_mini/src/FAST_LIO/include/ikd-Tree/ikd_Tree.cpp:1062-1244 | A k-best selection of (a k-best selection of a) plus b is a k-best selection of a plus b, so subtrees may be searched one after the other with one heap. |
| NearestSearch.BoxPrunes | Scout_mini/src/FAST_LIO/include/ikd-Tree/ikd_Tree.cpp:1064-1069 | A deleted subtree, or one whose box is out of the radius, offers no candidate at all. |
| NearestSearch.Cands | Scout_mini/src/FAST_LIO/include/ikd-Tree/ikd_Tree.cpp:1085-1094 | The brute-force candidates: every point within the radius with its own squared distance and its multiplicity, and nothing else. |
| Geometry.BoxDistBelow | Scout_mini/src/FAST_LIO/include/ikd-Tree/ikd_Tree.cpp:1691-1709 | calc_box_dist is a lower bound of the distance to every point in the range, which is what makes pruning safe. |
| Geometry.BoxDistExact | Scout_mini/src/FAST_LIO/include/ikd-Tree/ikd_Tree.cpp:1691-1709 | The box distance is attained: it is exactly the minimum over the points of a non-empty range. |
| KdTree.Tree.AddPoints | Scout_mini/src/FAST_LIO/include/ikd-Tree/ikd_Tree.cpp:478-573 | Without downsampling, Add_Points adds exactly the given points to the live multiset, whether or not a background rebuild of the root is pending, and returns 0; below the multi-thread threshold and with no request: with a parameter from 6/11 on, a balanced tree stays balanced, of logarithmic depth (24 levels at most with the default) and without a request; and with a deletion parameter that is not negative, unless no point is given, at most that share of the tree's nodes are tombstones if it has more than 10. |
| KdTree.Tree.AddOne | Scout_mini/src/FAST_LIO/include/ikd-Tree/ikd_Tree.cpp:549-570 | One insertion, without a break, adds one point; it is a run of main-thread actions of the rebuild protocol that carries out this insertion, keeps the trees coupled, keeps the balance guarantee and leaves few tombstones. |
| KdTree.Tree.Open | Scout_mini/src/FAST_LIO/include/ikd-Tree/ikd_Tree.cpp:513 | The test at the head of a round decides, once for the round, between the lock and none. |
| KdTree.Tree.AddUnlocked | Scout_mini/src/FAST_LIO/include/ikd-Tree/ikd_Tree.cpp:519 | An insertion without the lock, in whatever phase the background thread is by then: one unlogged action that adds one point and may make or withdraw a request. |
| KdTree.Tree.DeleteUnlocked | Scout_mini/src/FAST_LIO/include/ikd-Tree/ikd_Tree.cpp:518 | A deletion without the lock: one unlogged action.  If an insertion is still to come in its round, the trees are coupled after that insertion at every interleaving exactly if no request for the root is there.  Without a request pending before, there is one afterwards exactly if the tree and the box before the call call for it (RebuildRequest.AsksRoot) and the trylock at the root succeeds; with one pending for a subtree, only if both the size and the criterion on the updated counts call for it. |
| KdTree.Tree.AddLocked | Scout_mini/src/FAST_LIO/include/ikd-Tree/ikd_Tree.cpp:559-568 | An insertion under working_flag_mutex is one action: one point more, and an entry exactly if rebuild_flag is set. |
| KdTree.Tree.DeleteLocked | Scout_mini/src/FAST_LIO/include/ikd-Tree/ikd_Tree.cpp:645-654 | So is a deletion. |
| KdTree.Tree.ReplaceLocked | Scout_mini/src/FAST_LIO/include/ikd-Tree/ikd_Tree.cpp:532-545 | So are deletion and insertion of a downsampled round together, with both entries in order. |
| KdTree.Tree.Replace | Scout_mini/src/FAST_LIO/include/ikd-Tree/ikd_Tree.cpp:513-546 | A downsampled round that found points in the box and changes the tree, without a break: with the lock one section, without it deletion and insertion as two actions with nothing in between. |
| KdTree.Tree.AddOneDownsampled | Scout_mini/src/FAST_LIO/include/ikd-Tree/ikd_Tree.cpp:489-548 | On a non-empty tree and without a break (see DeleteUnlocked and RebuildProtocol.RoundIff for what may come in between), the grid box of the new point ends up with exactly one live point, one nearest to the centre among the previous ones and the new one; outside the box nothing changes; the round is a run of main-thread actions that carries out deletion and insertion in that order; the balance guarantee covers both. |
| KdTree.Tree.AddPointsDownsampled | Scout_mini/src/FAST_LIO/include/ikd-Tree/ikd_Tree.cpp:478-573 | A whole vector is a chain of such single insertions (each without a break), the result is the number of those that took place, and balance, depth and the share of tombstones are bounded as for AddPoints, if they were before. |
| KdTree.Tree.Choose | Scout_mini/src/FAST_LIO/include/ikd-Tree/ikd_Tree.cpp:491-512 | The grid box of a point, the live points in it, and the one of them or the new point that is nearest to the centre; the new point wins ties. |
| Downsample.Select | Scout_mini/src/FAST_LIO/include/ikd-Tree/ikd_Tree.cpp:502-512 | The selection loop returns a point at minimum distance to the centre, the new point unless an old one is strictly nearer. |
| Downsample.InsertsIff | Scout_mini/src/FAST_LIO/include/ikd-Tree/ikd_Tree.cpp:515 | The test for an insertion fails exactly if the box holds a single point that is strictly nearer to the centre. |
| Downsample.OnePerBoxKept | Scout_mini/src/FAST_LIO/include/ikd-Tree/ikd_Tree.cpp:478-573 | A downsampled insertion keeps a map that has at most one live point in every grid box that way. |
| Downsample.OnePerBoxForever | Scout_mini/src/FAST_LIO/include/ikd-Tree/ikd_Tree.cpp:478-573 | From a map with at most one point per grid box, any number of downsampled insertions keeps it so. |
| Downsample.BoxUnique | Scout_mini/src/FAST_LIO/include/ikd-Tree/ikd_Tree.cpp:491-496 | Grid boxes partition space: a point inside a grid box has that grid box as its own. |
| Downsample.InOwnBox | Scout_mini/src/FAST_LIO/include/ikd-Tree/ikd_Tree.cpp:491-496 | Every point lies in its own half-open grid box. |
| Downsample.BoxOnGrid | Scout_mini/src/FAST_LIO/include/ikd-Tree/ikd_Tree.cpp:491-496 | For a positive edge, the lower corner of a point's grid box is a whole multiple of the edge on every axis, and the box is a cube with that edge. |
| Downsample.CentreInTheMiddle | Scout_mini/src/FAST_LIO/include/ikd-Tree/ikd_Tree.cpp:497-499 | The centre is as far from the lower as from the upper face, on every axis. |
| Downsample.CentreNearerIff | Scout_mini/src/FAST_LIO/include/ikd-Tree/ikd_Tree.cpp:502-512 | v is at most as far from the centre c as w exactly if 2 c.(w - v) <= w.w - v.v. |
| KdTree.Tree.DeletePointBoxes | Scout_mini/src/FAST_LIO/include/ikd-Tree/ikd_Tree.cpp:632-658 | Exactly the live points that lie in one of the half-open boxes go, the result is their number, balance and depth are kept as for AddPoints, and a tree with at most the allowed share of tombstones (or with nothing alive) is left with one such. |
| KdTree.Tree.DeleteOneBox | Scout_mini/src/FAST_LIO/include/ikd-Tree/ikd_Tree.cpp:635-656 | One box, without a break: the live points inside go and are counted; a run of main-thread actions of the rebuild protocol that carries out this deletion; the balance guarantee is kept. |
| Geometry.OutsideAllPoints | Scout_mini/src/FAST_LIO/include/ikd-Tree/ikd_Tree.cpp:632-658 | Deleting box after box leaves each point with its multiplicity exactly if it lies in none of the boxes. |
| KdTree.Tree.BoxSearch | Scout_mini/src/FAST_LIO/include/ikd-Tree/ikd_Tree.cpp:464-468 | Box_Search returns exactly the live points of the box, each as often as it is stored. |
| KdTree.Tree.BuildFrom | Scout_mini/src/FAST_LIO/include/ikd-Tree/ikd_Tree.cpp:409-423 | Build makes a fresh tree whose live points are exactly the given ones, balanced for parameters from 6/11 on and with few tombstones; a request for the old root becomes one for the new root. |
| KdTree.Tree.ValidNum | Scout_mini/src/FAST_LIO/include/ikd-Tree/ikd_Tree.cpp:140-163 | validnum is the number of live points, or -1 if the root is to be rebuilt and the working lock is taken. |
| TreeUpdate.AddByPoint | Scout_mini/src/FAST_LIO/include/ikd-Tree/ikd_Tree.cpp:995-1059 | Add_by_point adds exactly one live point to the subtree, keeps the invariant of the lazy bookkeeping, the k-d order and the balance guarantee; without permission to rebuild the node stays the root of its subtree.  With permission, no request, a deletion parameter that is not negative and fewer than 1500 nodes, more than 10 nodes imply that at most del times the nodes are tombstones afterwards, and no request is made. |
| TreeUpdate.AddNode | Scout_mini/src/FAST_LIO/include/ikd-Tree/ikd_Tree.cpp:1006-1058 | The case of an existing node: push down, descend, update, rebuild if needed. |
| TreeUpdate.DeleteByRange | Scout_mini/src/FAST_LIO/include/ikd-Tree/ikd_Tree.cpp:767-851 | Delete_by_range removes exactly the live points of the box and returns their number; the tree never vanishes; k-d order and balance guarantee as for insertion, and so the share of tombstones whenever the box neither misses nor contains the range of a root that is not deleted (otherwise a tidy subtree stays tidy).  With permission to rebuild and no request inside, the number of nodes left is a function of the tree before (RebuildRequest.CountAfter); with no request at all, one for the whole tree is made exactly if RebuildRequest.AsksRoot holds before and the trylock at the root succeeds. |
| TreeUpdate.FinishDelete | Scout_mini/src/FAST_LIO/include/ikd-Tree/ikd_Tree.cpp:842-847 | The end of the overlapping case: whether the node is rebuilt, handed over or left is decided by the counts that both sons come back with. |
| RebuildRequest.UpdatedAfter | Scout_mini/src/FAST_LIO/include/ikd-Tree/ikd_Tree.cpp:842-847 | The refreshed record of a node both of whose sons are done gives the same answer as the recursive count on the tree before: how many nodes are left, and whether it is handed to the background thread. |
| RebuildRequest.PushedAfter | Scout_mini/src/FAST_LIO/include/ikd-Tree/ikd_Tree.cpp:772 | A push-down at the node changes neither answer. |
| RebuildRequest.AfterAtMost | Scout_mini/src/FAST_LIO/include/ikd-Tree/ikd_Tree.cpp:767-851 | A deletion never adds nodes. |
| RebuildRequest.SmallNeverAsks | Scout_mini/src/FAST_LIO/include/ikd-Tree/ikd_Tree.cpp:736-747 | Below 1500 nodes no deletion asks for a background rebuild of the whole tree. |
| RebuildRequest.TombstonesAsk | Scout_mini/src/FAST_LIO/include/ikd-Tree/ikd_Tree.cpp:1335-1357 | From 1500 nodes on, a deletion that enters the root and would leave more than the allowed share of tombstones asks for a background rebuild; stated on CountAfter and the live points left, not on the criterion. |
| RebuildRequest.SettledFew | Scout_mini/src/FAST_LIO/include/ikd-Tree/ikd_Tree.cpp:842-847 | Below 1500 nodes, what the decision at the end of an update leaves has at most the allowed share of tombstones if it has more than 10 nodes. |
| TreeUpdate.DeleteNode | Scout_mini/src/FAST_LIO/include/ikd-Tree/ikd_Tree.cpp:769-850 | The three cases of a node (disjoint, contained, overlapping) together remove exactly the live points in the box. |
| TreeUpdate.MarkAll | Scout_mini/src/FAST_LIO/include/ikd-Tree/ikd_Tree.cpp:780-795 | The contained case: marking the node and leaving the sons to a later push-down makes no point of the subtree live. |
| TreeUpdate.DeletePoint | Scout_mini/src/FAST_LIO/include/ikd-Tree/ikd_Tree.cpp:796-802 | The node's record changes as specified for its own point (LazyTree.DeleteOwnLive says what that does to the live points), and the result counts the change. |
| TreeUpdate.Finish | Scout_mini/src/FAST_LIO/include/ikd-Tree/ikd_Tree.cpp:842-849 | Refreshing the cached fields, withdrawing a too small rebuild request and rebuilding change no live point, restore the invariant and keep the k-d order; a new request is made exactly if the refreshed record is at least 1500 nodes large and meets the criterion, rebuilding is allowed, the trylock succeeds and no request is as large. |
| TreeUpdate.RebuildIfNeeded | Scout_mini/src/FAST_LIO/include/ikd-Tree/ikd_Tree.cpp:845-847 | After the criterion check and a possible rebuild the same points are live; with balanced sons, permission and a size below the threshold the result is balanced; when a request is made is exact. |
| TreeUpdate.CriterionCheck | Scout_mini/src/FAST_LIO/include/ikd-Tree/ikd_Tree.cpp:1335-1357 | Criterion_Check in terms of the tree itself: it says yes exactly if the tree has more than 10 nodes and either more than del times its nodes are not alive, or the son it looks at (the left one, if there is one) has more than bal, or less than 1 - bal, times the nodes below the root. |
| Balance.CriterionIs | Scout_mini/src/FAST_LIO/include/ikd-Tree/ikd_Tree.cpp:1335-1357 | The quotients of Criterion_Check decide exactly these products. |
| TreeBuild.Rebuild | Scout_mini/src/FAST_LIO/include/ikd-Tree/ikd_Tree.cpp:736-764 | A subtree from 1500 nodes on is handed to the background thread if the trylock on the request succeeds and it is the largest request; a smaller one is replaced by a freshly built tree over exactly its live points, and by nothing exactly if none is live. |
| TreeBuild.RebuildInline | Scout_mini/src/FAST_LIO/include/ikd-Tree/ikd_Tree.cpp:751-762 | Flattening and building again keeps exactly the live points. |
| TreeBuild.BuildTree | Scout_mini/src/FAST_LIO/include/ikd-Tree/ikd_Tree.cpp:679-733 | BuildTree over l..r: permutes the vector inside l..r only; the tree has one node per point, all live, sons that differ by at most one, the at-most and at-least split on the longest axis of the exact bounding box. |
| TreeBuild.Extent | Scout_mini/src/FAST_LIO/include/ikd-Tree/ikd_Tree.cpp:689-700 | The range is the exact bounding box of the points l..r. |
| TreeBuild.Divide | Scout_mini/src/FAST_LIO/include/ikd-Tree/ikd_Tree.cpp:685-725 | Axis and median: the points left of the middle are at most, those right of it at least the median on the longest axis; nothing outside l..r moves. |
| NthElement.NthElement | Scout_mini/src/FAST_LIO/include/ikd-Tree/ikd_Tree.cpp:710-724 | The contract of nth_element within l..r: permuted, and divided at the middle on the given axis. |
| TreeOps.SearchByRange | Scout_mini/src/FAST_LIO/include/ikd-Tree/ikd_Tree.cpp:1247-1289 | Search_by_range appends exactly the live points of the subtree that lie in the half-open box. |
| TreeOps.Flatten | Scout_mini/src/FAST_LIO/include/ikd-Tree/ikd_Tree.cpp:1627-1658 | flatten appends exactly the live points of the subtree. |
| TreeOps.Prepare | Scout_mini/src/FAST_LIO/include/ikd-Tree/ikd_Tree.cpp:1360-1455 | Push_Down on a well-formed node: the same live points and shape, and afterwards no flag over an existing son, so the live points are the node's own and those of its sons. |
| TreeOps.RangeCases | Scout_mini/src/FAST_LIO/include/ikd-Tree/ikd_Tree.cpp:769-786 | The cached range decides correctly: a disjoint range means no live point in the box, a contained one means all; tree_deleted means exactly that nothing is live; size minus invalid is the live count. |
| LazyTree.PushDownKeeps | Scout_mini/src/FAST_LIO/include/ikd-Tree/ikd_Tree.cpp:1360-1455 | Pushing pending flags one level down changes no live point and keeps the invariant, below deleted nodes and fresh leaves too. |
| LazyTree.UpdateRestores | Scout_mini/src/FAST_LIO/include/ikd-Tree/ikd_Tree.cpp:1458-1624 | Update restores the invariant above updated sons: exact sizes, invalid count, tight range, deletion flags; the live points are the own point and those of the sons. |
| LazyTree.UpdateBothSummary | Scout_mini/src/FAST_LIO/include/ikd-Tree/ikd_Tree.cpp:1466-1512 | With two sons, the counters and the range that Update computes are those of the joined live points, whatever mixture of deleted and live parts there is. |
| LazyTree.UpdateOneSummary | Scout_mini/src/FAST_LIO/include/ikd-Tree/ikd_Tree.cpp:1513-1588 | The same with one son. |
| LazyTree.MarkDeletedKeeps | Scout_mini/src/FAST_LIO/include/ikd-Tree/ikd_Tree.cpp:780-793 | A whole-subtree deletion mark leaves a well-formed subtree of the same size without live points. |
| LazyTree.DeleteOwnLive | Scout_mini/src/FAST_LIO/include/ikd-Tree/ikd_Tree.cpp:796-802 | Deleting the own point removes it from the live points exactly if it was live and in the box. |
| LazyTree.SurvivorOutside | Scout_mini/src/FAST_LIO/include/ikd-Tree/ikd_Tree.cpp:780-786 | For a node that is not deleted, the box contains its range exactly if no live point survives; so a partial deletion never empties a subtree. |
| KdNode.Node.PushDown | Scout_mini/src/FAST_LIO/include/ikd-Tree/ikd_Tree.cpp:1360-1455 | The in-place method computes the specified push-down of the value that the nodes denote and keeps the footprint. |
| KdNode.Node.Update | Scout_mini/src/FAST_LIO/include/ikd-Tree/ikd_Tree.cpp:1458-1624 | The in-place method computes the specified update of the value. |
| KdNode.Node.Receive | Scout_mini/src/FAST_LIO/include/ikd-Tree/ikd_Tree.cpp:1372-1383 | What a son takes over from its father when flags are pushed. |
| KdNode.Node.InitTreeNode | Scout_mini/src/FAST_LIO/include/ikd-Tree/ikd_Tree.cpp:41-67 | A new node is blank and has no sons. |
| Geometry.MissesMeansNone | Scout_mini/src/FAST_LIO/include/ikd-Tree/ikd_Tree.cpp:774-779 | If the box misses the range on some axis, no bounded point lies in the box. |
| Geometry.CoversMeansAll | Scout_mini/src/FAST_LIO/include/ikd-Tree/ikd_Tree.cpp:780 | If the box contains the range, every bounded point lies in the box. |
| Geometry.TightJoin | Scout_mini/src/FAST_LIO/include/ikd-Tree/ikd_Tree.cpp:1473-1481 | The joined range of two exact bounding boxes is the exact bounding box of both sets of points. |
| Balance.CriterionComplete | Scout_mini/src/FAST_LIO/include/ikd-Tree/ikd_Tree.cpp:1335-1357 | Failing Criterion_Check, which looks at one son only, bounds the shares of both sons. |
| Balance.BuiltBalanced | Scout_mini/src/FAST_LIO/include/ikd-Tree/ikd_Tree.cpp:679-733 | A freshly built tree meets the criterion at every node if the balance parameter is at least 6/11. |
| Balance.BuiltBalancedIff | Scout_mini/src/FAST_LIO/include/ikd-Tree/ikd_Tree.cpp:679-733 | Exactly then: building restores balance for every tree if and only if the parameter is at least 6/11 (12 nodes divide 5 to 6). |
| Balance.BuiltDepth | Scout_mini/src/FAST_LIO/include/ikd-Tree/ikd_Tree.cpp:679-733 | A built tree over n points has depth at most floor(log2 n) + 1. |
| TreeBuild.BuiltSplitsLongest | Scout_mini/src/FAST_LIO/include/ikd-Tree/ikd_Tree.cpp:689-707 | A built tree splits along an axis on which its exact bounding box is at least as long as on each of the three. |
| Balance.BalancedDepth | Scout_mini/src/FAST_LIO/include/ikd-Tree/ikd_Tree.cpp:1335-1357 | In a balanced tree bal to the power (depth - 10), times the number of nodes, is at least one: logarithmic depth. |
| Balance.DefaultDepth | Scout_mini/src/FAST_LIO/include/ikd-Tree/ikd_Tree.cpp:1335-1357 | With the default parameter 0.6, a balanced tree of fewer than 1500 nodes has at most 24 levels. |
| TreeUpdate.FitTwice | Scout_mini/src/FAST_LIO/include/ikd-Tree/ikd_Tree.cpp:842-847 | The balance and tombstone guarantees of two updates in a row make one for both. |
| TreeUpdate.FitTwiceTidy | Scout_mini/src/FAST_LIO/include/ikd-Tree/ikd_Tree.cpp:842-847 | If the second update leaves few tombstones whatever it starts from (an insertion), so do both. |
| TreeUpdate.BalanceKeptShallow | Scout_mini/src/FAST_LIO/include/ikd-Tree/ikd_Tree.cpp:842-847 | The balance guarantee implies the depth bound. |
| TreeUpdate.NodeKeepsBalance | Scout_mini/src/FAST_LIO/include/ikd-Tree/ikd_Tree.cpp:1335-1357 | A node that fails the criterion check above balanced sons is balanced. |
| TreeUpdate.RebuiltBalance | Scout_mini/src/FAST_LIO/include/ikd-Tree/ikd_Tree.cpp:736-764 | What an inline rebuild produces is balanced for parameters from 6/11 on. |
| KdOrder.DescentKept | Scout_mini/src/FAST_LIO/include/ikd-Tree/ikd_Tree.cpp:1012-1049 | A point that goes down the side the code chooses (strictly smaller goes left) keeps the k-d order: stored points on the left at most, on the right at least the node on its axis. |
| KdOrder.StrictlySmallerGoesLeft | Scout_mini/src/FAST_LIO/include/ikd-Tree/ikd_Tree.cpp:1012 | The side a point takes: left exactly if it is strictly smaller on the node's axis. |
| KdOrder.PartsKept | Scout_mini/src/FAST_LIO/include/ikd-Tree/ikd_Tree.cpp:767-851 | Updating a node's record and shrinking what its sons store keeps the k-d order. |
| KdOrder.SameShapeKept | Scout_mini/src/FAST_LIO/include/ikd-Tree/ikd_Tree.cpp:1360-1455 | Push-downs change neither the stored points nor the k-d order. |
| KdOrder.SplitOrdered | Scout_mini/src/FAST_LIO/include/ikd-Tree/ikd_Tree.cpp:679-733 | What BuildTree produces is in k-d order. |
| TreeBuild.BuiltKept | Scout_mini/src/FAST_LIO/include/ikd-Tree/ikd_Tree.cpp:736-764 | A rebuilt subtree is in k-d order and stores only points that were stored before. |
| ManualHeap.Heap.Push | Scout_mini/src/FAST_LIO/include/ikd-Tree/ikd_Tree.h:140-148 | Below capacity push adds the element to the stored multiset and keeps the heap order; at capacity it drops it. |
| ManualHeap.Heap.Pop | Scout_mini/src/FAST_LIO/include/ikd-Tree/ikd_Tree.h:127-135 | pop removes one maximum in the (distance, x) order and keeps the heap order; nothing happens on an empty heap. |
| ManualHeap.Heap.Top | Scout_mini/src/FAST_LIO/include/ikd-Tree/ikd_Tree.h:136-139 | top is an element that no stored element exceeds in the (distance, x) order. |
| ManualHeap.Heap.MoveDown | Scout_mini/src/FAST_LIO/include/ikd-Tree/ikd_Tree.h:161-180 | Sifting the hole down restores the heap order of a permutation of the elements. |
| ManualHeap.Heap.FloatUp | Scout_mini/src/FAST_LIO/include/ikd-Tree/ikd_Tree.h:181-198 | Sifting up restores the heap order of a permutation of the elements. |
| ManualHeap.TopIsMax | Scout_mini/src/FAST_LIO/include/ikd-Tree/ikd_Tree.h:93-110 | In a heap-ordered array no element exceeds the first. |
| ManualQ.Queue.Push | Scout_mini/src/FAST_LIO/include/ikd-Tree/ikd_Tree.h:238-246 | Below capacity push appends; on a full buffer it overwrites the oldest entry and the structure is no queue any more, so the capacity bound is exactly what the log needs. |
| ManualQ.Queue.Pop | Scout_mini/src/FAST_LIO/include/ikd-Tree/ikd_Tree.h:211-221 | pop removes the oldest entry, across the wrap-around. |
| ManualQ.Queue.Front | Scout_mini/src/FAST_LIO/include/ikd-Tree/ikd_Tree.h:222-225 | front is the oldest entry. |
| RebuildProtocol.StepCoupled | Scout_mini/src/FAST_LIO/include/ikd-Tree/ikd_Tree.cpp:230-367 | An atomic action of either thread keeps the coupling (replaying the entry in flight and the log over the new tree gives the live points of the old one) exactly if it is not one of two: an unlocked operation that changes something or withdraws the request while the background thread is at work, or a section that gets the lock between a swap and the clearing of rebuild_flag.  Only main-thread operations change what is live. |
| RebuildProtocol.RunCoupledIff | Scout_mini/src/FAST_LIO/include/ikd-Tree/ikd_Tree.cpp:230-367 | Over any interleaving with any number of root rebuilds, the trees are coupled throughout exactly if no action of the run is one of those two. |
| RebuildProtocol.HarmlessInvisible | Scout_mini/src/FAST_LIO/include/ikd-Tree/ikd_Tree.cpp:230-367 | In such a run the live points are those that the main thread's operations alone would have left. |
| RebuildProtocol.RebuildInvisible | Scout_mini/src/FAST_LIO/include/ikd-Tree/ikd_Tree.cpp:230-367 | Over any interleaving with any number of root rebuilds in which the log never overflows, no unlocked operation but the last of its round leaves a request for the root, and no section falls between a swap and the clearing of rebuild_flag, the trees are coupled throughout and the live points are those that the main thread's operations alone would have left. |
| RebuildProtocol.QuietHarmless | Scout_mini/src/FAST_LIO/include/ikd-Tree/ikd_Tree.cpp:513-546 | That condition on the rounds of the main thread rules out both harmful actions. |
| RebuildProtocol.GapIff | Scout_mini/src/FAST_LIO/include/ikd-Tree/ikd_Tree.cpp:517-519 | With an insertion still to come in an unlocked round, the trees are coupled after it whatever the background thread does first, exactly if no rebuild of the root has been asked for. |
| RebuildProtocol.RoundIff | Scout_mini/src/FAST_LIO/include/ikd-Tree/ikd_Tree.cpp:513-521 | So an unlocked round of a deletion and an insertion keeps the trees coupled at every interleaving exactly if its deletion leaves no request for the root. |
| RebuildProtocol.LosingRun | Scout_mini/src/FAST_LIO/include/ikd-Tree/ikd_Tree.cpp:513-521 | From every coupled idle state without a request: if the first operation of an unlocked round leaves some point and asks for a rebuild, and the old tree is copied before the second one, the swap undoes the second one. |
| RebuildProtocol.DuplicatingRun | Scout_mini/src/FAST_LIO/include/ikd-Tree/ikd_Tree.cpp:350-352 | From every state that is ready to swap: if a round with the lock gets it right after the swap and before rebuild_flag is cleared, the next rebuild inserts its point a second time. |
| RebuildProtocol.SectionRound | Scout_mini/src/FAST_LIO/include/ikd-Tree/ikd_Tree.cpp:525-546 | From coupled trees between two rounds, a round with the lock and without a break keeps them coupled. |
| RebuildProtocol.UnlockedTwo | Scout_mini/src/FAST_LIO/include/ikd-Tree/ikd_Tree.cpp:513-521 | So does a round of two operations without the lock, if nothing comes between them. |
| KdTree.Tree.CopyTree | Scout_mini/src/FAST_LIO/include/ikd-Tree/ikd_Tree.cpp:241-277 | Copying the old tree starts the protocol: the snapshot holds exactly its live points, be there none. |
| KdTree.Tree.BuildNewTree | Scout_mini/src/FAST_LIO/include/ikd-Tree/ikd_Tree.cpp:282-284 | The new tree is built over exactly the snapshot. |
| KdTree.Tree.TakeOperation | Scout_mini/src/FAST_LIO/include/ikd-Tree/ikd_Tree.cpp:286-295 | Takes the oldest missed operation off the ring buffer. |
| KdTree.Tree.RunOperation | Scout_mini/src/FAST_LIO/include/ikd-Tree/ikd_Tree.cpp:296 | Runs the taken operation on the new tree and leaves the old tree alone. |
| KdTree.Tree.RunOn | Scout_mini/src/FAST_LIO/include/ikd-Tree/ikd_Tree.cpp:370-406 | run_operation: the live points of the new tree change by exactly the logged operation, and the new tree is never rebuilt inline. |
| KdTree.Tree.SwapTrees | Scout_mini/src/FAST_LIO/include/ikd-Tree/ikd_Tree.cpp:316-351 | The swap with an empty log; of coupled trees it leaves the same live points. |
| KdTree.Tree.ClearFlag | Scout_mini/src/FAST_LIO/include/ikd-Tree/ikd_Tree.cpp:352 | Clearing rebuild_flag is an action of its own, after the lock is released. |
| Mapper.PointcloudMapper.CloudCallback | Scout_mini/src/scout_pointcloud_mapper/src/pointcloud_mapper_node.cpp:424-471 | One point cloud takes the map state to the specified next state, and the published static points are those whose voxel is static right after their hit. |
| Mapper.PointcloudMapper.TakePoint | Scout_mini/src/scout_pointcloud_mapper/src/pointcloud_mapper_node.cpp:436-465 | One round of the accumulation loop: hit, static test, and the fine voxel starts over exactly when its generation differs. |
| Mapper.PointcloudMapper.GetOrCreateOccupancy | Scout_mini/src/scout_pointcloud_mapper/src/pointcloud_mapper_node.cpp:227-235 | A new voxel takes the next generation number, an existing one is returned unchanged. |
| Mapper.PointcloudMapper.UpdateHit | Scout_mini/src/scout_pointcloud_mapper/src/pointcloud_mapper_node.cpp:250-263 | A voxel counts at most one hit per scan; MapperVerdicts.StepWeighed says what the hits add up to. |
| Mapper.PointcloudMapper.UpdateMiss | Scout_mini/src/scout_pointcloud_mapper/src/pointcloud_mapper_node.cpp:265-284 | A stored voxel counts at most one miss per scan and is erased at or below the clearing threshold. |
| Mapper.PointcloudMapper.UpdateFreeSpace | Scout_mini/src/scout_pointcloud_mapper/src/pointcloud_mapper_node.cpp:286-326 | Whatever the order, number and overlap of the rays: exactly the stored voxels that some ray visits and no point of the scan hit are missed, once each. |
| Mapper.MissOneMore | Scout_mini/src/scout_pointcloud_mapper/src/pointcloud_mapper_node.cpp:265-284 | A further miss of a set of missed keys is the miss of the larger set, seen before or not; so rays commute. |
| Mapper.PointcloudMapper.MaybeCleanup | Scout_mini/src/scout_pointcloud_mapper/src/pointcloud_mapper_node.cpp:534-552 | Erases exactly the expired voxels that are not static, when a cleanup is due. |
| Mapper.PointcloudMapper.BuildMapCloud | Scout_mini/src/scout_pointcloud_mapper/src/pointcloud_mapper_node.cpp:495-532 | The cloud holds the mean of every exportable fine voxel once, and exactly the entries whose occupancy voxel still has their generation remain. |
| Mapper.PointcloudMapper.ResetMap | Scout_mini/src/scout_pointcloud_mapper/src/pointcloud_mapper_node.cpp:623-632 | Reset empties both maps and the scan counter, but not the generation counter. |
| MapperHistory.StepGood | Scout_mini/src/scout_pointcloud_mapper/src/pointcloud_mapper_node.cpp:401-632 | In every reachable state, across resets: generations are pairwise distinct and below the counter, also against all samples ever logged under another key, and every fine voxel holds exactly its latest run of samples. |
| MapperHistory.ExportIsOfLog | Scout_mini/src/scout_pointcloud_mapper/src/pointcloud_mapper_node.cpp:495-532 | An export shows exactly the latest runs of samples whose occupancy voxel still has their generation and is static: a function of the sample log and the occupancy grid. |
| MapperHistory.ExtraExportsInvisible | Scout_mini/src/scout_pointcloud_mapper/src/pointcloud_mapper_node.cpp:495-532 | A run with exports inserted anywhere shows the same maps at its other exports as the run without them. |
| MapperHistory.ExportTwice | Scout_mini/src/scout_pointcloud_mapper/src/pointcloud_mapper_node.cpp:495-532 | Two exports in a row are equal. |
| MapperHistory.LostIsDead | Scout_mini/src/scout_pointcloud_mapper/src/pointcloud_mapper_node.cpp:265-284 | Clearing, expiry or reset of a voxel kills its generation, even if the voxel is stored again at once. |
| MapperHistory.NoResurrection | Scout_mini/src/scout_pointcloud_mapper/src/pointcloud_mapper_node.cpp:227-235 | Once a voxel is cleared, expired or reset, no later export of any run shows a fine voxel of its generation. |
| MapperHistory.ExportedSamples | Scout_mini/src/scout_pointcloud_mapper/src/pointcloud_mapper_node.cpp:449-463 | All samples behind an exported fine voxel were taken under the generation it records. |
| MapperEvidence.GoodRun | Scout_mini/src/scout_pointcloud_mapper/src/pointcloud_mapper_node.cpp:401-632 | The invariants on generations and runs of samples hold after every run, whatever stamps and configuration. |
| MapperEvidence.LostSamplesStayLost | Scout_mini/src/scout_pointcloud_mapper/src/pointcloud_mapper_node.cpp:227-235 | After a voxel is cleared, expired or reset and any further run, an export shows sums of logged samples none of which was taken under the lost generation. |
| MapperEvidence.StepTold | Scout_mini/src/scout_pointcloud_mapper/src/pointcloud_mapper_node.cpp:237-284 | With non-zero stamps and a clearing threshold of at most zero: every stored voxel has log-odds in [-4, 4] and above the threshold, hit_scans is the number of distinct scans that hit it in its lifetime, first_hit and last_hit are the stamps of the first and last. |
| MapperEvidence.ExportedIsSupported | Scout_mini/src/scout_pointcloud_mapper/src/pointcloud_mapper_node.cpp:495-532 | An exported voxel is supported by at least min_hit_scans distinct scans that span at least min_observation_span. |
| MapperEvidence.Reachable | Scout_mini/src/scout_pointcloud_mapper/src/pointcloud_mapper_node.cpp:401-632 | Both invariants hold after every run of clouds, exports and resets. |
| MapperEvidence.GoodFromStart | Scout_mini/src/scout_pointcloud_mapper/src/pointcloud_mapper_node.cpp:401-632 | After every run from the start, whatever stamps and configuration, an export is what the log and the occupancy grid call for. |
| MapperEvidence.SupportedFromStart | Scout_mini/src/scout_pointcloud_mapper/src/pointcloud_mapper_node.cpp:401-632 | After every run from the start with non-zero stamps, an exported voxel has been hit in at least min_hit_scans distinct scans over at least min_observation_span. |
| MapperEvidence.OneMissEach | Scout_mini/src/scout_pointcloud_mapper/src/pointcloud_mapper_node.cpp:286-326 | In every state a run can reach, whatever stamps and configuration: a voxel that a ray visits and no point hits has exactly one miss more and is gone exactly if that takes it to the threshold; every other voxel is as the hits left it, and none of those just hit is missed. |
| MapperEvidence.StepApart | Scout_mini/src/scout_pointcloud_mapper/src/pointcloud_mapper_node.cpp:250-284 | Every cloud, export and reset keeps: the last hit and the last miss of a stored voxel lie in the past and in different scans. |
| MapperEvidence.NeverBoth | Scout_mini/src/scout_pointcloud_mapper/src/pointcloud_mapper_node.cpp:250-326 | So does every run. |
| MapperEvidence.NeverBothFromStart | Scout_mini/src/scout_pointcloud_mapper/src/pointcloud_mapper_node.cpp:250-326 | After every run from the start, whatever stamps and configuration, no stored voxel has its last hit and its last miss in one scan: with OneMissEach, a voxel never gets both in one. |
| MapperVerdicts.StepWeighed | Scout_mini/src/scout_pointcloud_mapper/src/pointcloud_mapper_node.cpp:250-284 | Every cloud, export and reset keeps, whatever stamps and configuration: the log-odds of a stored voxel are the sum of its lifetime's verdicts in order (a hit for each scan that hit it, a miss for each that only saw through it), held at 4 after a hit and at -4 after a miss; hit_scans and miss_scans are their numbers, last_seen the stamp of the last. |
| MapperVerdicts.WeighedFromStart | Scout_mini/src/scout_pointcloud_mapper/src/pointcloud_mapper_node.cpp:250-284 | So in every state that a run from the start can reach. |
| MapperVerdicts.HitsAccumulate | Scout_mini/src/scout_pointcloud_mapper/src/pointcloud_mapper_node.cpp:250-263 | In every reachable state, for a positive weight of a hit: a voxel that has never been missed has log-odds min(4, hit_scans times that weight). |
| MapperVerdicts.SupportedIsExported | Scout_mini/src/scout_pointcloud_mapper/src/pointcloud_mapper_node.cpp:237-248 | A voxel hit in at least min_hit_scans scans over at least min_observation_span and never missed, whose min(4, hits times the weight of one) reaches the threshold, is static, and every fine voxel whose latest run of samples was taken under its generation is exported with exactly these samples. |
| MapperVerdicts.SupportedIsExportedFromStart | Scout_mini/src/scout_pointcloud_mapper/src/pointcloud_mapper_node.cpp:495-532 | So after every run from the start with non-zero stamps, with a positive weight of a hit and a clearing threshold of at most zero. |
| MapperVerdicts.ExportedWeighs | Scout_mini/src/scout_pointcloud_mapper/src/pointcloud_mapper_node.cpp:237-248 | Conversely, after every run from the start, whatever stamps: the verdicts on an exported voxel weigh at least the threshold, with at least min_hit_scans hits among them. |
| MapperVerdicts.CleanupErasesIff | Scout_mini/src/scout_pointcloud_mapper/src/pointcloud_mapper_node.cpp:534-552 | A cleanup erases a voxel exactly if it is due, the last verdict on it has a non-zero stamp and lies further back than the timeout, and hits, weight or time span are missing for it to be static; a voxel judged within the timeout is spared. |
| MapperVerdicts.ExportedMean | Scout_mini/src/scout_pointcloud_mapper/src/pointcloud_mapper_node.cpp:518-524 | After every run from the start: an exported point times the number of samples behind it is their sum, in every coordinate and in intensity. |
| FastCrc.FastCRC32.Crc32 | Scout_mini/src/Livox-SDK2/3rdparty/FastCRC/FastCRCsw.cpp:481-486 | crc32 is the 32-bit frame check sequence, bit by bit, for every byte string, alignment and table size, and leaves the register as seed. |
| FastCrc.FastCRC32.Crc32Upd | Scout_mini/src/Livox-SDK2/3rdparty/FastCRC/FastCRCsw.cpp:445-479 | crc32_upd takes the saved register through the message bit by bit and returns its complement. |
| FastCrc.FastCRC32.Crc32OfParts | Scout_mini/src/Livox-SDK2/3rdparty/FastCRC/FastCRCsw.cpp:445-486 | Any split of the message into successive calls, each part at its own alignment, gives the check sequence of the whole. |
| FastCrc.FastCRC32.CksumOfParts | Scout_mini/src/Livox-SDK2/3rdparty/FastCRC/FastCRCsw.cpp:499-539 | The same for cksum. |
| FastCrc.FastCRC32.Cksum | Scout_mini/src/Livox-SDK2/3rdparty/FastCRC/FastCRCsw.cpp:534-539 | cksum is the complemented left-shifting register for 0x04C11DB7, started at zero, and the seed it leaves is that register, byte-swapped. |
| FastCrc.FastCRC32.CksumUpd | Scout_mini/src/Livox-SDK2/3rdparty/FastCRC/FastCRCsw.cpp:499-532 | The byte-swapped register that shifts right, reversed at the end, is the left-shifting one; the saved seed chains. |
| FastCrc.FastCRC32.Update | Scout_mini/src/Livox-SDK2/3rdparty/FastCRC/FastCRCsw.cpp:448-475 | The three loops (bytes to alignment, 16-byte blocks with either kind of table, rest) equal the byte-by-byte fold of the saved register. |
| FastCrc.FastCRC16.X25 | Scout_mini/src/Livox-SDK2/3rdparty/FastCRC/FastCRCsw.cpp:405-410 | x25 is the 16-bit frame check sequence, bit by bit, and leaves the register as seed. |
| FastCrc.FastCRC16.X25Upd | Scout_mini/src/Livox-SDK2/3rdparty/FastCRC/FastCRCsw.cpp:376-403 | x25_upd takes the saved register through the message bit by bit and returns its 16-bit complement. |
| FastCrc.FastCRC16.Kermit | Scout_mini/src/Livox-SDK2/3rdparty/FastCRC/FastCRCsw.cpp:321-327 | kermit is the reflected register for 0x1021, started at zero, and leaves it as seed. |
| FastCrc.FastCRC16.KermitUpd | Scout_mini/src/Livox-SDK2/3rdparty/FastCRC/FastCRCsw.cpp:294-319 | kermit_upd takes the saved register through the message bit by bit. |
| FastCrc.FastCRC16.Xmodem | Scout_mini/src/Livox-SDK2/3rdparty/FastCRC/FastCRCsw.cpp:363-368 | xmodem is the left-shifting register for 0x1021, started at zero, and leaves it byte-swapped as seed. |
| FastCrc.FastCRC16.MsbFirstUpd | Scout_mini/src/Livox-SDK2/3rdparty/FastCRC/FastCRCsw.cpp:335-361 | The byte-swapped 16-bit register, reversed at the end, is the left-shifting one for 0x1021; the saved seed chains. |
| FastCrc.FastCRC16.Ccitt | Scout_mini/src/Livox-SDK2/3rdparty/FastCRC/FastCRCsw.cpp:200-205 | ccitt is the left-shifting register for 0x1021, started at all ones, and leaves it byte-swapped as seed. |
| FastCrc.FastCRC16.X25OfParts | Scout_mini/src/Livox-SDK2/3rdparty/FastCRC/FastCRCsw.cpp:376-410 | Any split of the message into successive calls, each part at its own alignment, gives the x25 check sequence of the whole. |
| FastCrc.FastCRC16.KermitOfParts | Scout_mini/src/Livox-SDK2/3rdparty/FastCRC/FastCRCsw.cpp:294-327 | The same for kermit. |
| FastCrc.FastCRC16.XmodemOfParts | Scout_mini/src/Livox-SDK2/3rdparty/FastCRC/FastCRCsw.cpp:335-368 | The same for xmodem. |
| FastCrc.FastCRC16.CcittOfParts | Scout_mini/src/Livox-SDK2/3rdparty/FastCRC/FastCRCsw.cpp:173-205 | The same for ccitt. |
| CrcTheory.RightChain | Scout_mini/src/Livox-SDK2/3rdparty/FastCRC/FastCRCsw.cpp:376-410 | The right-shifting register after one part takes the next part on to the register of both. |
| CrcTheory.LeftChain | Scout_mini/src/Livox-SDK2/3rdparty/FastCRC/FastCRCsw.cpp:335-368 | The same for the left-shifting register. |
| FastCrc.FastCRC16.Update | Scout_mini/src/Livox-SDK2/3rdparty/FastCRC/FastCRCsw.cpp:378-399 | The three loops of a 16-bit checksum equal the byte-by-byte fold of the saved register. |
| CrcSlicing.SliceWordIsFourBytes | Scout_mini/src/Livox-SDK2/3rdparty/FastCRC/FastCRCsw.cpp:421-425 | crc_n4d: four lookups in the four derived tables equal four byte steps, for every polynomial and both bit orders. |
| CrcSlicing.SliceHalfIsFourBytes | Scout_mini/src/Livox-SDK2/3rdparty/FastCRC/FastCRCsw.cpp:161-165 | crc_n4: the same for a 16-bit register, whose upper word half goes straight to the tables. |
| CrcSlicing.SliceSmallIsFourBytes | Scout_mini/src/Livox-SDK2/3rdparty/FastCRC/FastCRCsw.cpp:427-431 | crcsm_n4d: adding the word first and shifting four times equals four byte steps. |
| CrcSlicing.EntryAhead | Scout_mini/src/Livox-SDK2/3rdparty/FastCRC/FastCRCsw.cpp:161-165 | The j-th derived table is the first one shifted j bytes on. |
| CrcSlicing.FoldAppend | Scout_mini/src/Livox-SDK2/3rdparty/FastCRC/FastCRCsw.cpp:445-478 | Folding a concatenation is folding its parts in turn. |
| CrcTheory.FoldReflected | Scout_mini/src/Livox-SDK2/3rdparty/FastCRC/FastCRCsw.cpp:376-402 | The byte-wise table form of a reflected checksum is the bit-serial right-shifting register. |
| CrcTheory.FoldSwapped16 | Scout_mini/src/Livox-SDK2/3rdparty/FastCRC/FastCRCsw.cpp:335-361 | The byte-swapped 16-bit form is the bit-serial left-shifting register. |
| CrcTheory.FoldSwapped32 | Scout_mini/src/Livox-SDK2/3rdparty/FastCRC/FastCRCsw.cpp:499-532 | The byte-swapped 32-bit form is the bit-serial left-shifting register. |
| CrcDetect.GoodFrame16 | Scout_mini/src/Livox-SDK2/3rdparty/FastCRC/FastCRCsw.cpp:376-410 | A receiver that runs data and check bytes through the register ends at 0xf0b8 exactly if the check bytes are the data's check sequence. |
| CrcDetect.GoodFrame32 | Scout_mini/src/Livox-SDK2/3rdparty/FastCRC/FastCRCsw.cpp:445-486 | The same with 0xdebb20e3 for crc32. |
| CrcDetect.GoodFrameMsb16 | Scout_mini/src/Livox-SDK2/3rdparty/FastCRC/FastCRCsw.cpp:335-368 | The same for the left-shifting 16-bit register with the high byte first, from any initial value: 0x1d0f exactly if the check bytes are the complement of the data's register. |
| CrcDetect.ZeroFrameMsb16 | Scout_mini/src/Livox-SDK2/3rdparty/FastCRC/FastCRCsw.cpp:335-368 | And zero exactly if they are the register itself (xmodem, ccitt). |
| CrcDetect.GoodFrameMsb32 | Scout_mini/src/Livox-SDK2/3rdparty/FastCRC/FastCRCsw.cpp:499-539 | For the left-shifting 32-bit register: 0xc704dd7b exactly if they are its complement (cksum). |
| CrcDetect.BurstDetected | Scout_mini/src/Livox-SDK2/3rdparty/FastCRC/FastCRCsw.cpp:445-478 | Messages that differ in one window of up to four bytes never have the same crc32 register. |
| LocalMap.FovSegment.Segment | Scout_mini/src/FAST_LIO/src/laserMapping.cpp:231-271 | The box is a cube of the configured side for ever, at first centred on the sensor; after that a call lists exactly the slabs of the moved axes, and each axis moves in numbers: down if the sensor is within 1.5 detection ranges of its lower edge, else up if it is so of its upper edge, else not at all, by the larger of 0.45 times (side - 3 detection ranges) and half a detection range. |
| LocalMap.MovedAxes | Scout_mini/src/FAST_LIO/src/laserMapping.cpp:231-271 | The lower corner after a move, per axis, as such a number. |
| LocalMap.FovSegment.SegmentAndDelete | Scout_mini/src/FAST_LIO/src/laserMapping.cpp:231-277 | The tree keeps exactly the live points in none of the slabs, whatever the parameters; if 0 < DET_RANGE <= 2 cube_len these are exactly the points that were not in the old box outside the new one; balance and depth are kept. |
| LocalMap.SlabsCoverWhatIsLeft | Scout_mini/src/FAST_LIO/src/laserMapping.cpp:256-271 | For a move of at most the side, the slabs are disjoint from the new box and cover exactly the old box outside it, also when several axes move at once. |
| LocalMap.SlabsWithinIff | Scout_mini/src/FAST_LIO/src/laserMapping.cpp:256-271 | When the box moves, the slabs stay within the old box if and only if the move is no longer than the side. |
| LocalMap.MoveFits | Scout_mini/src/FAST_LIO/src/laserMapping.cpp:256 | For positive parameters the move distance is positive, and at most the side exactly if DET_RANGE is at most twice the side. |
| LocalMap.KeepsSensorIff | Scout_mini/src/FAST_LIO/src/laserMapping.cpp:246-271 | A sensor inside the box is inside the moved box, for all positions, if and only if the side is more than twice DET_RANGE; the defaults do not meet this. |
| LocalMap.LeavesDeleted | Scout_mini/src/FAST_LIO/src/laserMapping.cpp:256-275 | Deleting the slabs from any multiset of points removes precisely those of the old box outside the new one. |
| SyncNode.Buffers.SyncPackages | Scout_mini/src/FAST_LIO/src/laserMapping.cpp:368-424 | One call takes the buffers to the specified next state and delivers a group exactly when both buffers hold data and the IMU has caught up with the scan's end. |
| SyncNode.Buffers.TakeImu | Scout_mini/src/FAST_LIO/src/laserMapping.cpp:410-418 | The loop takes the messages older than the end and, behind at least one of them, one exactly at the end. |
| SyncNode.Buffers.PushLidar | Scout_mini/src/FAST_LIO/src/laserMapping.cpp:375-402 | Taking up a scan: its end, the counted durations and the running mean. |
| SyncNode.Buffers.ImuCbk | Scout_mini/src/FAST_LIO/src/laserMapping.cpp:336-364 | An IMU message is put on the lidar clock and appended; a loop back clears the buffer first. |
| SyncNode.Buffers.LivoxPclCbk | Scout_mini/src/FAST_LIO/src/laserMapping.cpp:302-334 | A scan and its stamp are appended; a loop back clears the scans but not the stamps. |
| SyncState.StepAlways | Scout_mini/src/FAST_LIO/src/laserMapping.cpp:302-424 | Whatever arrives, loop backs included: the IMU buffer is sorted and ends with the last stamp, and the mean scan time is the exact mean of the counted durations. |
| SyncState.StepLossless | Scout_mini/src/FAST_LIO/src/laserMapping.cpp:302-424 | While no clock loops back: scans are delivered once each in order with their own stamp; delivered IMU groups plus the buffer are the arrivals; every delivered message is at most, every remaining or later one at least the end of the scan. |
| SyncState.RunAlways | Scout_mini/src/FAST_LIO/src/laserMapping.cpp:302-424 | The first invariant holds after every run. |
| SyncState.RunLossless | Scout_mini/src/FAST_LIO/src/laserMapping.cpp:302-424 | The second holds after every run without loop backs. |
| SyncState.SelfSync | Scout_mini/src/FAST_LIO/src/laserMapping.cpp:319-323 | When a scan sets the clock difference, IMU messages are from then on stamped as if the last one before had come 0.1 s after the scan, except that the configured delay is applied to the earlier stamp only. |
| SyncState.ClockStays | Scout_mini/src/FAST_LIO/src/laserMapping.cpp:302-424 | No later event changes the clock difference once it is set. |
| SyncState.SelfSyncStays | Scout_mini/src/FAST_LIO/src/laserMapping.cpp:302-364 | So every state of every later run stamps IMU messages by it. |
| SyncState.DelayedFromStart | Scout_mini/src/FAST_LIO/src/laserMapping.cpp:341-347 | After any run from the start in which no scan has set a clock difference, or without time_sync, an arriving message gets its own stamp minus the configured delay. |
| SyncState.PairedIff | Scout_mini/src/FAST_LIO/src/laserMapping.cpp:307-329 | An arriving scan keeps scans and stamps in step if and only if it does not clear a buffered scan. |
| SyncState.RunPairedIff | Scout_mini/src/FAST_LIO/src/laserMapping.cpp:302-424 | After any run from stamps in step (as at the start), they are in step if and only if no arriving scan cleared a buffered one. |
| SyncState.LagStays | Scout_mini/src/FAST_LIO/src/laserMapping.cpp:307-329 | Once the stamps have fallen behind their scans, they never catch up. |
| SyncState.RunLatest | Scout_mini/src/FAST_LIO/src/laserMapping.cpp:302-424 | After every run, loop backs included, the buffered scans and the buffered stamps are each the latest arrivals. |
| SyncState.StampOfEarlierScan | Scout_mini/src/FAST_LIO/src/laserMapping.cpp:377-378 | A scan taken up gets the stamp of the scan that arrived as many scans before it as the stamps have fallen behind; its own when they have not. |
| SyncState.StaleStamp | Scout_mini/src/FAST_LIO/src/laserMapping.cpp:307-329 | A concrete loop back after which a scan goes out with the stamp of the cleared one. |
| SyncState.ConservedIff | Scout_mini/src/FAST_LIO/src/laserMapping.cpp:353-361 | An IMU message loses nothing if and only if it does not clear a buffered one. |
| SyncState.RunConservedIff | Scout_mini/src/FAST_LIO/src/laserMapping.cpp:302-424 | After any run that starts without loss, every IMU message that arrived has gone out in some group or is buffered, in order and once each, if and only if none cleared a buffered one. |
| SyncState.LossStays | Scout_mini/src/FAST_LIO/src/laserMapping.cpp:302-424 | Each step loses exactly the buffered messages that it clears, and none ever comes back. |
| SyncState.FromStart | Scout_mini/src/FAST_LIO/src/laserMapping.cpp:302-424 | All of the unconditional and exact results from the initial state: sorted buffer, exact mean, latest arrivals, stamps in step and nothing lost exactly without clearing. |
| SyncState.StepEnds | Scout_mini/src/FAST_LIO/src/laserMapping.cpp:375-402 | Every event keeps, loop backs included: each delivered group, and the scan being held, ends as GroupEnds says. |
| SyncState.RunEnds | Scout_mini/src/FAST_LIO/src/laserMapping.cpp:375-402 | So does every run. |
| SyncState.GroupEnds | Scout_mini/src/FAST_LIO/src/laserMapping.cpp:375-402 | After any run from the start, every delivered group ends at its begin plus its scan's last offset, if the scan has more than one point and that offset is at least half the mean of those so counted among the groups before it; else at its begin plus that exact mean (0 for none); and at its begin for marsim. |
| SyncState.LosslessFromStart | Scout_mini/src/FAST_LIO/src/laserMapping.cpp:302-424 | From the initial state, a run without loop backs loses and misplaces nothing. |
| SyncState.TakenSplits | Scout_mini/src/FAST_LIO/src/laserMapping.cpp:410-418 | In a sorted buffer the messages taken are at most, the others at least as old as the end of the scan. |
| PoolAllocator.MemoryPoolAllocator.Malloc | Scout_mini/src/Livox-SDK2/3rdparty/rapidjson/allocators.h:208-220 | A new block of the aligned size inside its chunk and disjoint from all blocks handed out since the last Clear, taken from the head chunk if it fits and else from a new one; null only for size zero or when the base allocator fails. |
| PoolAllocator.MemoryPoolAllocator.Realloc | Scout_mini/src/Livox-SDK2/3rdparty/rapidjson/allocators.h:223-253 | The first min(old, new) bytes are kept, no byte of any block changes, all blocks stay disjoint; only the last block of the head chunk is extended in place. |
| PoolAllocator.MemoryPoolAllocator.Clear | Scout_mini/src/Livox-SDK2/3rdparty/rapidjson/allocators.h:178-187 | Every chunk but the user buffer goes, and that one is empty. |
| PoolAllocator.MemoryPoolAllocator.AddChunk | Scout_mini/src/Livox-SDK2/3rdparty/rapidjson/allocators.h:268-281 | A new empty chunk becomes the head; nothing changes if the base allocator fails. |
| PoolAllocator.MemoryPoolAllocator.Size | Scout_mini/src/Livox-SDK2/3rdparty/rapidjson/allocators.h:201-205 | The sum of the used bytes, never more than the capacity. |
| PoolAllocator.MemoryPoolAllocator.Capacity | Scout_mini/src/Livox-SDK2/3rdparty/rapidjson/allocators.h:191-196 | The sum of the capacities of all chunks. |
| PoolAllocator.SizeWithinCapacity | Scout_mini/src/Livox-SDK2/3rdparty/rapidjson/allocators.h:191-205 | If no chunk is overfull, Size is at most Capacity. |
| PoolAllocator.GrownSums | Scout_mini/src/Livox-SDK2/3rdparty/rapidjson/allocators.h:216-218 | Taking bytes from the head chunk raises Size by them and leaves Capacity. |
| PoolAllocator.LastBlock | Scout_mini/src/Livox-SDK2/3rdparty/rapidjson/allocators.h:236-246 | The pointer test of Realloc holds exactly for a whole block at the end of the head chunk, never by coincidence for a block elsewhere. |
| PoolAllocator.Extended | Scout_mini/src/Livox-SDK2/3rdparty/rapidjson/allocators.h:236-246 | Extending that block in place keeps all blocks disjoint and housed. |
| PoolAllocator.BufferFitsIff | Scout_mini/src/Livox-SDK2/3rdparty/rapidjson/allocators.h:153-169 | The data of a user-buffer chunk stay within the buffer if and only if the size of the chunk header is a multiple of eight. |
| GridMap.Generate | Scout_mini/src/scout_map_tools/src/pcd_to_pgm.cpp:132-222 | A cloud with a finite point and padding that is not negative gives an image; the image is 0 exactly within the inflation radius of a cell with an obstacle point, else 254 within the free radius of a cell with a floor point, else 205; every finite point of the cloud falls into a cell exactly if the padding is positive, or there is none and neither extent of the cloud is a whole number of cells.  A point is in cell (x, y) if minX + x res <= p.x < minX + (x + 1) res and minY + y res <= p.y < minY + (y + 1) res. |
| GridMap.Dilate | Scout_mini/src/scout_map_tools/src/pcd_to_pgm.cpp:42-75 | A cell is set exactly if some set cell of the input lies within the Euclidean radius. |
| GridMap.Disc | Scout_mini/src/scout_map_tools/src/pcd_to_pgm.cpp:56-71 | The two inner loops set exactly the disc around one cell, clipped at the border. |
| GridMap.Measure | Scout_mini/src/scout_map_tools/src/pcd_to_pgm.cpp:132-155 | The bounds are attained by finite points and hold for all of them; origin and size follow with the padding; there is no frame exactly for clouds without a finite point and for negative sizes. |
| GridMap.CountPoints | Scout_mini/src/scout_map_tools/src/pcd_to_pgm.cpp:160-184 | A cell has a positive count exactly if some finite point of the height band lies in the square that the cell covers. |
| GridMap.CellIff | Scout_mini/src/scout_map_tools/src/pcd_to_pgm.cpp:168-172 | The quotients that the code rounds down are x and y exactly if the point lies in that square, closed below and on the left. |
| GridMap.RoundNearest | Scout_mini/src/scout_map_tools/src/pcd_to_pgm.cpp:198-202 | The radii in cells are nearest to the quotients, halves away from zero. |
| GridMap.CeilCovers | Scout_mini/src/scout_map_tools/src/pcd_to_pgm.cpp:154-155 | The number of cells along an axis is the least that covers the extent. |
| GridMap.NearExpanded | Scout_mini/src/scout_map_tools/src/pcd_to_pgm.cpp:56-71 | A cell is within a radius r of another exactly if n.n + x.x - 2 n.x <= r r, for r not negative. |
| GridMap.Compose | Scout_mini/src/scout_map_tools/src/pcd_to_pgm.cpp:210-222 | Occupied overrides free, free overrides unknown. |
| GridMap.WritePgm | Scout_mini/src/scout_map_tools/src/pcd_to_pgm.cpp:84-102 | Row r of the file is grid row height - 1 - r. |
| GridMap.NoneDroppedIff | Scout_mini/src/scout_map_tools/src/pcd_to_pgm.cpp:149-175 | No value within the bounds is dropped, for any bounds, if and only if the padding is positive. |
| GridMap.AllInsideIff | Scout_mini/src/scout_map_tools/src/pcd_to_pgm.cpp:149-175 | For a given cloud and its frame: no point is dropped exactly if the padding is positive, or there is none and neither extent is a whole number of cells. |
| GridMap.LargestKeptIff | Scout_mini/src/scout_map_tools/src/pcd_to_pgm.cpp:149-175 | Without padding the largest value of an axis is kept exactly if the extent is not a whole number of cells. |
| GridMap.SmallestDropped | Scout_mini/src/scout_map_tools/src/pcd_to_pgm.cpp:149-175 | With negative padding the smallest value of an axis is always dropped. |

## Left out

How the model differs from the code:

- Arithmetic: ikd-Tree coordinates are integers on a fixed-point grid, so that the tolerances 1e-6 and 1e-10 both mean equality; query boxes, log-odds, local-map boxes, stamps of the batching code and grid coordinates are reals; IEEE rounding, infinities and NaN are not modelled (a default search radius is an absent one, a point may be marked as not finite).
- Counters: 32- and 64-bit counters are unbounded, and the initial value 2^64 - 1 of last_hit_scan and last_miss_scan is an absent scan number.
- nth_element: the library call is replaced by a selection loop of the same contract.
- The tree's downsample flags (point_downsample_deleted, tree_downsample_deleted, down_del_num) are carried along, but nothing modelled reads them: only Add_by_range does.
- Points_deleted, Downsample_PCL_Storage, alpha_bal, alpha_del, tree_range and radius_sq are not part of this model.
- Search: radius_sq is not used as a pre-check, and the branches that wait for or skip a push-down lock are taken as if the lock were free.
- Background rebuild: only of the whole tree (Rebuild_Ptr at the root); each section under working_flag_mutex is one action, and so is each Add_by_point or Delete_by_range of a round without the lock (one that overlaps the copying, which no lock excludes, counts as before or after it).  A run stops after copying an empty tree, and before a swap whose request has been withdrawn, since the code then goes through a null pointer.  A request for the root that comes while one for a subtree is pending is characterised on the updated counts only.  Rebuilding an inner subtree (PUSH_DOWN log entries, refreshing the ancestors), waiting on locks and freeing memory are not modelled.
- KdTree.Tree.AddOneDownsampled: runs its round without a break, as do AddOne, DeleteOneBox and the vector operations; what the background thread may do between the test, the lock and the operations of a round is covered by the single actions (Open, AddUnlocked, DeleteUnlocked, AddLocked, DeleteLocked, ReplaceLocked) and by the runs of RebuildProtocol.
- KdTree.Tree.BuildFrom: does not model Build while the background thread is at work, with a pending request for a subtree (Rebuild_Ptr would point into the freed tree), or with a request for the root and fewer than 1500 points (the next update may withdraw the request while the thread reads through it).
- Delete_by_point and Delete_Points: the descent goes left only on a strictly smaller coordinate, while equal coordinates may lie on the left, so a stored point need not be found.  Nothing in the mapping node calls them.
- Add_by_range, Add_Point_Boxes, Radius_Search and Search_by_radius.
- Mapper: clouds arrive filtered and with their voxel keys, rays as sequences of keys without the sentinel key; the filter is enabled; ROS topics, timers, transforms, PCL filters, saving, the dirty flag, the counter of cleared voxels and warnings are not modelled.
- MapperState: sample means are exact, whereas the code rounds them to float.
- FastCRC: the 7- and 8-bit checksums, modbus and mcrf4xx (whose comment gives the initial value 0xffff while the code starts at 0), the hardware variant, and the literal tables; words are little-endian, and table entries are read at their declared width.
- FastCrc.FastCRC16.MsbFirstUpd: xmodem_upd and ccitt_upd are one method, since bodies and tables are equal.
- LocalMap: float rounding of DET_RANGE and of the edge distances; the points cache.
- Lidar callback of other drivers: standard_pcl_cbk is livox_pcl_cbk without the clock difference; point preprocessing and ROS time rounding are not modelled.
- Allocator: platforms without 64-bit sizes and pointers (see PoolAllocator.BufferFitsIff); sizes near the largest size_t, where the alignment would wrap; alignment of the addresses themselves; the base allocator is a parameter that either fails or returns unused memory.
- Grid map: file formats other than the pixel rows, the exceptions for missing files, a resolution that is not positive, and what the code does where there is no frame (an empty cloud is refused; without a finite point, or with padding so negative that a size is, it converts an infinity to int or asks for a negative size).
- Kalman filter, IMU processing, feature extraction, localisation, device SDK, configuration parsing, drivers and launch files.
