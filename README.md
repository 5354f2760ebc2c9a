# RRT path-planning visualizer: a Dafny model of its core

RRTVisualizer plans collision-free paths in a 2-D rectangle with obstacles. It offers four planners:

- basic RRT;
- RRT-Connect;
- RRT*, which exists in two copies with different cost handling;
- Informed RRT*.

A browser front end sets the start, the goal and the obstacles, sends a planning request, and animates the returned tree and path. The login and registration pages check their forms before submitting.

This project models the discrete core of that system and proves properties about it.

**Planners** (Python, modelled as classes whose fields the methods update):

- **The shared tree bookkeeping** (`TreeCore`, `Common`).
  - The tree is a vertex list, a parent table indexed by vertex, and an edge list.
  - Nearest-vertex search is `argmin`.
  - Path extraction walks parent pointers with a visited-set guard and then reverses the walk.
  - Path length is a sum over segments.
  - Costs are reals with an `inf` variant.
- **`BaseRrtPlanner`**: reset, the expansion loop that stops at the first vertex within half a step of the goal, and `get_details`.
- **`RrtConnectPlanner`**: the two trees, `extend`, `connect`, the swap after every iteration that does not connect, path extraction across the two trees, and the merge of both trees' edges with an index offset.
- **`NearSets`, `StarCore` and `RrtStarPlanner`**: the nested RRT* copy.
  - Its near search keeps at most 50 vertices, sorting once by `(distance, index)`.
  - Its cost lookup repairs missing entries.
  - Parent choice and rewiring replace the edge into a vertex.
  - Its search keeps running after the goal is reached.
- **`TopRrtStar`**: the top-level RRT* copy.
  - Its near search truncates incrementally.
  - Its cost lookup has no fallback.
  - It stops at the first vertex that reaches the goal.
- **`InformedRrtPlanner`**:
  - sample counters;
  - ellipse sampling after the first solution;
  - the best length, which never increases;
  - clamping of the search radius;
  - the rewire rollback.
- **`ConfigSpace`**: the configuration space's bounds, its obstacle list, the collision test composed from per-obstacle tests, and `sample_free`.

**Front end** (JavaScript):

- **`SceneState`**: the visualizer object.
  - Clamped start and goal setters.
  - Obstacle validation.
  - Click modes.
  - Reset and clear.
  - The animation: a queue of edge events followed by path-segment events, drained `ceil(speed)` events per frame, with node deduplication by coordinates.
  - A frame stands for each `requestAnimationFrame` callback and is modelled by an explicit `Step`.
- **`UiRules`**:
  - parameter-name formatting;
  - parameter visibility per algorithm;
  - algorithm titles;
  - the details-table filter;
  - the request's obstacle list;
  - the set-start and set-goal buttons;
  - result export.
- **`AuthForms`**:
  - the login, registration and change-password checks, each a chain with early return;
  - the username-availability gate;
  - the password-visibility toggle.

**Geometry is abstract.** `dist`, `advance` (the steering step) and the segment test `free` are functions passed in with the planner. Every random draw is an input; iteration `i` uses draw `i`. The laws assumed of these functions (`TreeCore.Steers`) are stated as requirements where they are used: the step is positive, every point is at distance 0 from itself, distance is symmetric, and an advance towards a target at least a step away lands exactly one step from where it started and exactly one step closer to the target.

**The top-level RRT\* and Informed RRT\*** import a `base_rrt.py` from their own package. That file is not part of this model; it is taken to behave like `RRTVisualizer/RRTVisualizer/algorithms/base_rrt.py`.

**The top-level RRT\* planner is modelled with one correction** (see Findings). It gives a new vertex the cost `inf` as soon as the vertex is appended. The code as written is modelled by `TopRrtStar.RrtStar.NewCost` and `TopRrtStar.RrtStar.ChooseParent`.

**Two source behaviours are modelled as written.**

- RRT-Connect leaves the loop before swapping. A connection found on an even-numbered iteration is therefore recorded with the trees in swapped roles, and the path then runs from the goal to the start. `RrtConnectPlanner.RrtConnect.Plan` states this.
- In Informed RRT*, the check that follows a rewire's parent update can never fail, so the rollback it guards never runs. `InformedRrtPlanner.RollbackRestores` proves what that rollback would restore.

## Model

| member | source | states |
|---|---|---|
| Common.AddDist | RRTVisualizer/RRTVisualizer/algorithms/rrt_star.py:106 | `cost + distance`: infinite exactly when the cost is, otherwise larger by exactly the distance |
| TreeCore.RandomSample | RRTVisualizer/RRTVisualizer/algorithms/base_rrt.py:58-67 | the goal when the bias draw is below `goal_sample_rate`, the uniform sample otherwise |
| TreeCore.DrawnFromNext | RRTVisualizer/RRTVisualizer/algorithms/base_rrt.py:199-203 | iteration `i` of a loop whose first `i` passes consumed `draws(0)`, ..., `draws(i - 1)` consumes `draws(i)` next |
| TreeCore.Steer | RRTVisualizer/RRTVisualizer/algorithms/base_rrt.py:84-106 | the target itself when it is less than a step away, otherwise the point one step along the way (`SteerDistances` states where it lands) |
| TreeCore.SteerDistances | RRTVisualizer/RRTVisualizer/algorithms/base_rrt.py:84-106 | a steered point lies `min(step, d)` from where it started and `max(0, d - step)` from the target, `d` being their distance; within a step it is the target itself |
| TreeCore.GoalReached | RRTVisualizer/RRTVisualizer/algorithms/base_rrt.py:121-132 | a point reaches the goal when it is strictly closer than half a step |
| TreeCore.NearestIndex | RRTVisualizer/RRTVisualizer/algorithms/base_rrt.py:69-82 | `argmin` of the distances: a valid index of a non-empty vertex list (`NearestIndexIsNearest` states which one) |
| TreeCore.NearestIndexIsNearest | RRTVisualizer/RRTVisualizer/algorithms/base_rrt.py:69-82 | the chosen vertex is no further from the query than any other, and every earlier vertex is strictly further, so it is the first nearest one |
| TreeCore.Range | RRTVisualizer/RRTVisualizer/algorithms/base_rrt.py:148 | the indices below `n`, the largest set the visited guard can hold |
| TreeCore.Chain | RRTVisualizer/RRTVisualizer/algorithms/base_rrt.py:144-164 | the walk from `goal_idx` visits in-range indices, none already visited, starting at `goal_idx` when it is in range; it always terminates |
| TreeCore.ChainDistinct | RRTVisualizer/RRTVisualizer/algorithms/base_rrt.py:144-164 | the visited-set guard makes the walk visit no index twice, even when the parent table has a cycle |
| TreeCore.Points | RRTVisualizer/RRTVisualizer/algorithms/base_rrt.py:163 | the vertices at the walked indices, in walk order |
| TreeCore.Reverse | RRTVisualizer/RRTVisualizer/algorithms/base_rrt.py:167 | `path[::-1]`: same length, element `j` is element `len - 1 - j` of the input |
| TreeCore.PathTo | RRTVisualizer/RRTVisualizer/algorithms/base_rrt.py:134-167 | the vertices of the guarded parent walk from `goal_idx`, reversed so that the root comes first |
| TreeCore.ExtractPath | RRTVisualizer/RRTVisualizer/algorithms/base_rrt.py:134-167 | the loop with its visited set and range check returns exactly the reversed walk `PathTo` |
| TreeCore.ChainInTree | RRTVisualizer/RRTVisualizer/algorithms/base_rrt.py:150-164 | when every vertex's parent has a smaller index, the walk from `k` steps parent by parent down to the root |
| TreeCore.Ancestors | RRTVisualizer/RRTVisualizer/algorithms/base_rrt.py:150-164 | the ancestor chain of `k` in such a tree: starts at `k`, ends at 0, each step goes to the parent |
| TreeCore.ChainIsAncestors | RRTVisualizer/RRTVisualizer/algorithms/base_rrt.py:150-164 | in such a tree the guarded walk is the ancestor chain: the guards never fire |
| TreeCore.PathEndsInTree | RRTVisualizer/RRTVisualizer/algorithms/base_rrt.py:150-167 | in such a tree the extracted path starts at the start vertex and ends at vertex `k` |
| TreeCore.PathLinksInTree | RRTVisualizer/RRTVisualizer/algorithms/base_rrt.py:150-167 | in such a tree each consecutive pair of the extracted path is a parent and its child |
| TreeCore.PathLength | RRTVisualizer/RRTVisualizer/algorithms/base_rrt.py:169-182 | the length of a path is never negative |
| TreeCore.CalculatePathLength | RRTVisualizer/RRTVisualizer/algorithms/base_rrt.py:169-182 | the loop computes exactly that sum |
| TreeCore.PathLengthAppend | RRTVisualizer/RRTVisualizer/algorithms/base_rrt.py:169-182 | the length of two joined paths is their lengths plus the joining segment |
| TreeCore.TreeEdgesOfTree | RRTVisualizer/RRTVisualizer/algorithms/rrt_connect.py:222-231 | the edges built from a tree's parent table, with an index offset, are one per vertex after the root, `(parent + offset, child + offset)` in key order |
| TreeCore.DropChild | RRTVisualizer/RRTVisualizer/algorithms/rrt_star.py:286 | `[(p, c) for (p, c) in edges if c != near_idx]`: exactly the edges whose child is not `near_idx` |
| TreeCore.DropChildAppend | RRTVisualizer/RRTVisualizer/algorithms/rrt_star.py:286 | filtering a concatenation filters each part and joins the results, so the kept edges stay in their original order |
| TreeCore.InsertKeepsEdges | RRTVisualizer/RRTVisualizer/algorithms/rrt_star.py:188-189 | appending a vertex with its parent and the edge into it keeps the edge list in step with the parent table |
| TreeCore.DropChildUnique | RRTVisualizer/RRTVisualizer/algorithms/rrt_star.py:286 | the filter keeps each child on at most one edge and removes every edge into `near_idx` |
| TreeCore.RewireKeepsEdges | RRTVisualizer/RRTVisualizer/algorithms/rrt_star.py:282-287 | after a rewire the edge list is again in step with the parent table, and the only edge into `near_idx` is `(new_idx, near_idx)` |
| BaseRrtPlanner.ExpandKeepsTree | RRTVisualizer/RRTVisualizer/algorithms/base_rrt.py:218-225 | an accepted expansion keeps the tree shape: parent index below the child, `|edges| = |vertices| - 1`, edge `k` is `(parent, k + 1)`, the history equals the edges, every edge collision-free |
| BaseRrtPlanner.BaseRrt.constructor | RRTVisualizer/RRTVisualizer/algorithms/base_rrt.py:13-44 | the start alone, no edges, `parents = {0: None}`, empty path, no success, zero counters |
| BaseRrtPlanner.BaseRrt.Reset | RRTVisualizer/RRTVisualizer/algorithms/base_rrt.py:46-56 | the same state as a fresh planner |
| BaseRrtPlanner.BaseRrt.Grow | RRTVisualizer/RRTVisualizer/algorithms/base_rrt.py:205-225 | with `q` the drawn sample and `n` the vertex nearest to it, the step from `n` towards `q` is steered; the call adds nothing exactly when that edge collides, and otherwise appends exactly the steered point at index `len`, with parent entry `n` and edge `(n, len)`, keeping the tree shape; the draw, the tree before and after, and the outcome are appended to the planner's trace, so the trace still replays every draw so far |
| BaseRrtPlanner.BaseRrt.Expand | RRTVisualizer/RRTVisualizer/algorithms/base_rrt.py:205-225 | the tree update alone: the new tree is `Grown` from the old one on the drawn sample, and the tree shape is kept |
| BaseRrtPlanner.BaseRrt.ReplayedStep | RRTVisualizer/RRTVisualizer/algorithms/base_rrt.py:199-225 | a trace that replays draws `0..k-1`, extended by a step that is `Grown` on draw `k`, replays draws `0..k` |
| BaseRrtPlanner.BaseRrt.Plan | RRTVisualizer/RRTVisualizer/algorithms/base_rrt.py:184-246 | at most `max_iter` iterations; without success all of them ran, the path is empty and no vertex reached the goal; with success the last vertex is the first to land within half a step of the goal and the path runs from the start to it, with its length; the draws consumed are exactly `draws(0)`, ..., `draws(iterations - 1)`, and the trace starts at the reset tree, ends at the final tree and relates each consecutive pair by `Grown` on `draws(j)`; with success the last step added the last vertex |
| BaseRrtPlanner.BaseRrt.Iterate | RRTVisualizer/RRTVisualizer/algorithms/base_rrt.py:201-233 | one pass counts itself, extends the tree by one `Grown` step on its draw (appended to the trace), and reports a find exactly when the new vertex reaches the goal, with the path recorded |
| BaseRrtPlanner.BaseRrt.Record | RRTVisualizer/RRTVisualizer/algorithms/base_rrt.py:227-233 | a new vertex that reaches the goal records the path to it and reports a find; no new vertex, or one that does not reach the goal, records nothing |
| BaseRrtPlanner.BaseRrt.RecordPath | RRTVisualizer/RRTVisualizer/algorithms/base_rrt.py:228-232 | the recorded path runs from the start to vertex `k`, its length is the path's length and success is set |
| BaseRrtPlanner.BaseRrt.GetDetails | RRTVisualizer/RRTVisualizer/algorithms/base_rrt.py:252-266 | `nodes` is the vertex count, which in a valid tree is the edge count plus one, with the current success flag and iteration count |
| RrtConnectPlanner.AppendKeepsTreeValid | RRTVisualizer/RRTVisualizer/algorithms/rrt_connect.py:103-106 | appending a vertex under an existing one along a collision-free edge keeps a tree valid: parents below children, root first, every edge collision-free |
| RrtConnectPlanner.Tree.constructor | RRTVisualizer/RRTVisualizer/algorithms/rrt_connect.py:23-32 | a tree dictionary holding only its root, with `parents = {0: None}` |
| RrtConnectPlanner.FloorMonotone | RRTVisualizer/RRTVisualizer/algorithms/rrt_connect.py:137-142 | the whole number of steps left to a target never grows when the distance does not |
| RrtConnectPlanner.FloorDropsByOne | RRTVisualizer/RRTVisualizer/algorithms/rrt_connect.py:137-142 | a distance at least a step shorter leaves strictly fewer whole steps |
| RrtConnectPlanner.ExtendProgress | RRTVisualizer/RRTVisualizer/algorithms/rrt_connect.py:93-142 | a steered extension never moves the tree further from the target in whole steps, and one that does not end within a step of the target moves it strictly closer: the `connect` loop terminates |
| RrtConnectPlanner.RootWalk | RRTVisualizer/RRTVisualizer/algorithms/rrt_connect.py:170-175 | the goal-tree walk starts at the connection vertex and ends at the tree's root |
| RrtConnectPlanner.RootWalkIsAncestors | RRTVisualizer/RRTVisualizer/algorithms/rrt_connect.py:170-175 | that walk visits exactly the ancestor chain of the connection vertex |
| RrtConnectPlanner.JoinedPathEnds | RRTVisualizer/RRTVisualizer/algorithms/rrt_connect.py:158-178 | the joined path runs from the first tree's root to the second tree's root, with the two connection vertices adjacent in the middle |
| RrtConnectPlanner.JoinedPathStartsLikeExtract | RRTVisualizer/RRTVisualizer/algorithms/rrt_connect.py:158-178 | the joined path is the first tree's root-to-connection path followed by the second tree's walk back to its root |
| RrtConnectPlanner.WalkToRoot | RRTVisualizer/RRTVisualizer/algorithms/rrt_connect.py:170-175 | the loop builds exactly that walk |
| RrtConnectPlanner.CollectEdges | RRTVisualizer/RRTVisualizer/algorithms/rrt_connect.py:226-234 | the loop over a parent dictionary yields exactly the offset edges of its tree, one per non-root vertex |
| RrtConnectPlanner.MergedEdgesInRange | RRTVisualizer/RRTVisualizer/algorithms/rrt_connect.py:222-239 | the merged edge list has one edge per non-root vertex of either tree, plus the connecting edge when one was found, and every endpoint indexes the merged vertex list |
| RrtConnectPlanner.InitialTwoTrees | RRTVisualizer/RRTVisualizer/algorithms/rrt_connect.py:41-62 | the reset state, two one-vertex trees at the start and the goal with nothing recorded, satisfies the two-tree invariant |
| RrtConnectPlanner.RrtConnect.constructor | RRTVisualizer/RRTVisualizer/algorithms/rrt_connect.py:9-39 | no goal bias, the two one-vertex trees, no connection, zero counters |
| RrtConnectPlanner.RrtConnect.ResetBase | RRTVisualizer/RRTVisualizer/algorithms/base_rrt.py:46-56 | the inherited reset of the basic planner's fields |
| RrtConnectPlanner.RrtConnect.Reset | RRTVisualizer/RRTVisualizer/algorithms/rrt_connect.py:41-62 | the basic reset, two fresh one-vertex trees at the start and the goal in their original order and no connection |
| RrtConnectPlanner.RrtConnect.Extend | RRTVisualizer/RRTVisualizer/algorithms/rrt_connect.py:80-115 | trapped with the tree unchanged when the steered edge collides; otherwise the point is appended under the nearest vertex, the edge recorded, and the status is reached exactly when the new point is within a step of the target |
| RrtConnectPlanner.RrtConnect.ExtendTowards | RRTVisualizer/RRTVisualizer/algorithms/rrt_connect.py:80-115 | trapped exactly when nothing is added, and then the tree is unchanged and no collision-free step towards the target exists from its nearest vertex; otherwise exactly one point is appended, the one `extend` steers from the nearest vertex, under it; reached exactly when that point lies within a step of the target; an advance brings the tree strictly closer to the target in whole steps |
| RrtConnectPlanner.StepsAppend | RRTVisualizer/RRTVisualizer/algorithms/rrt_connect.py:136-145 | one more extension of a step sequence that was not yet within a step of the target, towards the same target, is again a step sequence |
| RrtConnectPlanner.RrtConnect.Connect | RRTVisualizer/RRTVisualizer/algorithms/rrt_connect.py:117-145 | the loop ends, never with status advanced; the appended vertices are exactly the chain of `extend` steps towards the target, each steered from the nearest vertex of the tree before it, every one but the last still at least a step away; reached exactly when some vertex was added and the last one lies within a step of the target, and otherwise the last attempt was blocked; one history entry per new vertex |
| RrtConnectPlanner.RrtConnect.KeepExtending | RRTVisualizer/RRTVisualizer/algorithms/rrt_connect.py:136-145 | the `while status != 'reached'` loop continues such a chain of `extend` steps until one is blocked or lands within a step of the target, keeping the last index added |
| RrtConnectPlanner.RrtConnect.ExtendAgain | RRTVisualizer/RRTVisualizer/algorithms/rrt_connect.py:137-142 | one pass of that loop: either blocked with nothing changed, or the chain grows by one `extend` step, reached exactly when the new point lies within a step of the target |
| RrtConnectPlanner.RrtConnect.SwapTrees | RRTVisualizer/RRTVisualizer/algorithms/rrt_connect.py:147-149 | the two tree fields trade places |
| RrtConnectPlanner.RrtConnect.Iteration | RRTVisualizer/RRTVisualizer/algorithms/rrt_connect.py:201-216 | one pass keeps the two-tree invariant and reports a connection exactly when one was recorded; with `q` the drawn sample, either the first tree is blocked towards `q` and nothing changes, or it gains exactly the one vertex `extend` steers towards `q`, and the second tree then grows by the `connect` chain towards that vertex, connecting exactly when the chain ends within a step of it |
| RrtConnectPlanner.RrtConnect.ExtendAndConnect | RRTVisualizer/RRTVisualizer/algorithms/rrt_connect.py:205-212 | the `extend` of the first tree towards the sample followed, when it was not trapped, by the `connect` of the second tree towards the new vertex: the two trees change as `Iteration` states, and a connection names the two last vertices, less than a step apart |
| RrtConnectPlanner.RrtConnect.Round | RRTVisualizer/RRTVisualizer/algorithms/rrt_connect.py:201-219 | one pass of the search loop with its swap: the two-tree states recorded so far gain the state after this pass, which follows from the one before as `Iteration` states, with the trees swapped after a pass that does not connect |
| RrtConnectPlanner.RrtConnect.RoundsStep | RRTVisualizer/RRTVisualizer/algorithms/rrt_connect.py:201-219 | a record of passes `0..i-1`, extended by a pass that follows from the last recorded state on draw `i`, records passes `0..i` |
| RrtConnectPlanner.RrtConnect.ExtractPathFromTrees | RRTVisualizer/RRTVisualizer/algorithms/rrt_connect.py:151-178 | the path is the joined path through the recorded connection |
| RrtConnectPlanner.RrtConnect.MergeTrees | RRTVisualizer/RRTVisualizer/algorithms/rrt_connect.py:221-239 | the vertices of both trees, first tree first, and their merged edges with the offset, the connecting edge last when found: one edge fewer than vertices when connected, two fewer otherwise |
| RrtConnectPlanner.RrtConnect.Search | RRTVisualizer/RRTVisualizer/algorithms/rrt_connect.py:197-219 | at most `max_iter` iterations, all of them without a connection; the trees are swapped after every pass that does not connect, so the start tree field holds the goal's tree exactly when an odd number of swaps happened; the pass states start at the reset trees and each follows from the one before on draw `draws(i)` as `Iteration` states |
| RrtConnectPlanner.RrtConnect.Plan | RRTVisualizer/RRTVisualizer/algorithms/rrt_connect.py:180-257 | success exactly when a connection was found; without one every iteration ran and the path is empty; with one the path is the joined path with its length, from the start to the goal when the connecting iteration is odd and from the goal to the start when it is even; vertices and edges as merged; the draws consumed are exactly `draws(0)`, ..., `draws(iterations - 1)`, and the recorded pass states run from the two one-vertex trees to the final trees, each following from the one before as `Iteration` states |
| RrtConnectPlanner.RrtConnect.RecordPath | RRTVisualizer/RRTVisualizer/algorithms/rrt_connect.py:241-244 | when connected, the joined path from the first tree's root to the second's, with its length, and success |
| RrtConnectPlanner.RrtConnect.GetDetails | RRTVisualizer/RRTVisualizer/algorithms/rrt_connect.py:263-271 | as written: `nodes` is always 1, since the base vertex list is never grown; the tree sizes appear exactly on success |
| RrtConnectPlanner.RrtConnect.GetDetailsCorrected | RRTVisualizer/RRTVisualizer/algorithms/rrt_connect.py:263-271 | `nodes` counts both trees' vertices; the tree sizes appear exactly on success |
| RrtConnectPlanner.NodeCountMissesTrees | RRTVisualizer/RRTVisualizer/algorithms/rrt_connect.py:263-271 | once any tree has grown, the reported count is below the number of vertices the planner returns, and the corrected count equals it |
| NearSets.BeforeStrictTotal | RRTVisualizer/RRTVisualizer/algorithms/rrt_star.py:65 | Python's order on `(distance, index)` tuples is a strict total order |
| NearSets.Insert | RRTVisualizer/RRTVisualizer/algorithms/rrt_star.py:65 | inserting a pair into a sorted list keeps it sorted and adds exactly that pair |
| NearSets.SortPairs | RRTVisualizer/RRTVisualizer/algorithms/rrt_star.py:65 | `distances.sort()`: a sorted permutation of its input, strictly ascending when the input has no repeats |
| NearSets.Take | RRTVisualizer/RRTVisualizer/algorithms/rrt_star.py:68 | `s[:k]`: the first `min(k, len)` elements |
| NearSets.Indices | RRTVisualizer/RRTVisualizer/algorithms/rrt_star.py:68-69 | the index of each pair, in order |
| NearSets.Keys | RRTVisualizer/algorithms/rrt_star.py:67-68 | the `(distance, index)` pair of each listed index |
| NearSets.RadiusPairs | RRTVisualizer/RRTVisualizer/algorithms/rrt_star.py:58-62 | one pair per vertex strictly inside the radius, each pair that vertex's key |
| NearSets.RadiusPairsOrdered | RRTVisualizer/RRTVisualizer/algorithms/rrt_star.py:58-62 | those pairs come in strictly increasing index order, so no pair and no index repeats |
| NearSets.RadiusPairsComplete | RRTVisualizer/RRTVisualizer/algorithms/rrt_star.py:58-62 | every vertex strictly inside the radius has its pair in the list |
| NearSets.SortedPrefixIsNearest | RRTVisualizer/RRTVisualizer/algorithms/rrt_star.py:41-71 | the first `k` of the sorted inside pairs select the nearest inside vertices, `min(k, count)` of them, with no inside vertex left out ahead of a kept one |
| NearSets.NearIndices | RRTVisualizer/RRTVisualizer/algorithms/rrt_star.py:41-71 | the sort-then-cut search returns the nearest inside vertices, in order of non-decreasing distance |
| NearSets.AllInsideIsNearest | RRTVisualizer/algorithms/rrt_star.py:60-62 | when no more than `k` vertices are inside, listing them all in index order is the nearest selection |
| NearSets.Truncate | RRTVisualizer/algorithms/rrt_star.py:66-71 | `sorted(zip(...))[:k]`: `min(k, len)` pairs, each the key of a candidate |
| NearSets.TruncateKeepsNearest | RRTVisualizer/algorithms/rrt_star.py:63-71 | when a full selection meets one more inside vertex, sorting the candidates and cutting back to `k` yields the nearest selection one vertex further on |
| NearSets.IncrementalStep | RRTVisualizer/algorithms/rrt_star.py:58-71 | one pass of the incremental search keeps its promise one vertex further on |
| NearSets.NearAfter | RRTVisualizer/algorithms/rrt_star.py:58-73 | the list held after the first `n` passes of the loop names only vertices already passed |
| NearSets.NearAfterIsIncremental | RRTVisualizer/algorithms/rrt_star.py:58-73 | after every number of passes the list holds only vertices inside the radius, at most the cap of them and nearer than any left out; while no more than the cap are inside, it holds all of them in index order |
| NearSets.NearestSelects | RRTVisualizer/RRTVisualizer/algorithms/rrt_star.py:41-71 | a vertex is selected exactly when it is inside and fewer than `k` inside vertices come before it in `(distance, index)` order |
| NearSets.NearestUnique | RRTVisualizer/RRTVisualizer/algorithms/rrt_star.py:41-71 | two nearest selections hold the same vertices: the two searches agree as sets |
| StarCore.Distances | RRTVisualizer/RRTVisualizer/algorithms/rrt_star.py:58-62 | the distance from each vertex to the point, in vertex order |
| StarCore.InsertKeepsStarTree | RRTVisualizer/RRTVisualizer/algorithms/rrt_star.py:187-193 | attaching a new vertex along a collision-free edge with a cost covering its parent's plus the edge keeps the RRT* tree invariant |
| StarCore.RewireKeepsStarTree | RRTVisualizer/RRTVisualizer/algorithms/rrt_star.py:280-290 | a rewire to a strictly cheaper collision-free route keeps the invariant: the children's unchanged costs still cover the lowered cost |
| RrtStarPlanner.FillsAgree | RRTVisualizer/RRTVisualizer/algorithms/rrt_star.py:85-99 | the repairs in `new_cost` and in `rewire` (lines 249-259) fill in the same cost for every vertex but the start, and in a tree that cost is finite and no larger than the recorded one |
| RrtStarPlanner.PendingFacts | RRTVisualizer/RRTVisualizer/algorithms/rrt_star.py:147-152 | after the new vertex is appended with cost `inf` the parent table stays in range and every other cost is known |
| RrtStarPlanner.NoCostRoseTrans | RRTVisualizer/RRTVisualizer/algorithms/rrt_star.py:280-290 | "no cost rose" composes across passes |
| RrtStarPlanner.RewireStepSettles | RRTVisualizer/RRTVisualizer/algorithms/rrt_star.py:244-293 | one pass of the rewire loop settles its near vertex, keeps earlier ones settled, raises no cost, leaves the new vertex's cost alone and records at most one edge from the new vertex |
| RrtStarPlanner.PathToEndsAt | RRTVisualizer/RRTVisualizer/algorithms/base_rrt.py:150-167 | the extracted path ends at vertex `k` even without the tree shape |
| RrtStarPlanner.IndicesOf | RRTVisualizer/RRTVisualizer/algorithms/rrt_star.py:68-69 | the loop collects the indices of the kept pairs, in order |
| RrtStarPlanner.RrtStar.constructor | RRTVisualizer/RRTVisualizer/algorithms/rrt_star.py:16-34 | the basic planner's initial state plus `costs = {0: 0.0}` |
| RrtStarPlanner.RrtStar.Reset | RRTVisualizer/RRTVisualizer/algorithms/rrt_star.py:36-39 | the basic reset plus `costs = {0: 0.0}`, an RRT* tree |
| RrtStarPlanner.RrtStar.NearVertices | RRTVisualizer/RRTVisualizer/algorithms/rrt_star.py:41-71 | the indices whose distance is below the radius, sorted by `(distance, index)`, the first 50 |
| RrtStarPlanner.RrtStar.NewCost | RRTVisualizer/RRTVisualizer/algorithms/rrt_star.py:73-106 | a cost already present is used as is; a missing one is first filled in (0 for the start, parent's cost plus edge when the parent has one, `inf` otherwise); the result is that cost plus the distance to the point |
| RrtStarPlanner.RrtStar.FillCost | RRTVisualizer/RRTVisualizer/algorithms/rrt_star.py:249-259 | the rewire loop's repair: a missing cost becomes the parent route, a present one is kept |
| RrtStarPlanner.RrtStar.ChooseParent | RRTVisualizer/RRTVisualizer/algorithms/rrt_star.py:157-185 | the parent is never the new vertex; it is the first near vertex of least cost among those with a collision-free edge, or the nearest vertex when no near vertex but the new one has such an edge; no collision-free near vertex is strictly cheaper than the choice, and the chosen cost is finite |
| RrtStarPlanner.RrtStar.RewireStep | RRTVisualizer/RRTVisualizer/algorithms/rrt_star.py:244-293 | for one near vertex: re-parent, replace its edge, lower its cost and record the edge exactly when the edge from the new vertex is collision-free and strictly cheaper; otherwise nothing changes; the tree invariant holds |
| RrtStarPlanner.RrtStar.Rewire | RRTVisualizer/RRTVisualizer/algorithms/rrt_star.py:233-293 | afterwards no near vertex with a collision-free edge from the new vertex is still reachable more cheaply through it, no cost rose, the new vertex's cost is untouched and the history grew only by edges from the new vertex into near vertices |
| RrtStarPlanner.RrtStar.AddVertex | RRTVisualizer/RRTVisualizer/algorithms/rrt_star.py:147-152 | the point is appended and its cost set to `inf` |
| RrtStarPlanner.RrtStar.Link | RRTVisualizer/RRTVisualizer/algorithms/rrt_star.py:157-193 | the chosen parent, the edge into the new vertex, its cost through the parent and the history entry are recorded, keeping the invariant |
| RrtStarPlanner.LinkedThenRewired | RRTVisualizer/RRTVisualizer/algorithms/rrt_star.py:147-196 | appending the new vertex, linking it under the parent `choose_parent` picks and rewiring its near vertices leaves it attached to that parent and its near vertices rewired, as one pass of the loop states |
| RrtStarPlanner.RrtStar.Extend | RRTVisualizer/RRTVisualizer/algorithms/rrt_star.py:133-196 | with `q` the drawn sample and `n` the vertex nearest to it, the call adds nothing exactly when the steered edge from `n` collides; otherwise it appends exactly the steered point, whose parent is the one `choose_parent` picks: a collision-free vertex among the at most 50 nearest inside the search radius with no collision-free one in that set cheaper through it, or `n` itself when none of them is collision-free; the invariant holds after the rewire and no existing cost rises; the near vertices are rewired: none with a collision-free edge from the new vertex is still reached more cheaply through it, only near vertices are re-parented, and only to the new vertex |
| RrtStarPlanner.RrtStar.Grow | RRTVisualizer/RRTVisualizer/algorithms/rrt_star.py:129-196 | one extension on draw `d` appends the draw, what it added and the new tree to the trace, which keeps replaying every pass since the reset |
| RrtStarPlanner.RrtStar.LastPass | RRTVisualizer/RRTVisualizer/algorithms/rrt_star.py:129-196 | the last recorded pass took the tree before it to the current tree as one extension on its draw |
| RrtStarPlanner.RrtStar.ReplayedStep | RRTVisualizer/RRTVisualizer/algorithms/rrt_star.py:129-196 | a trace that replays draws `0..k-1`, extended by a tree that one extension on draw `k` reaches from its last tree, replays draws `0..k` |
| RrtStarPlanner.RrtStar.ResetTree | RRTVisualizer/RRTVisualizer/algorithms/rrt_star.py:36-39 | the one-vertex tree at the start with cost 0, no history, and an empty trace replaying no pass |
| RrtStarPlanner.RrtStar.RecordPath | RRTVisualizer/RRTVisualizer/algorithms/rrt_star.py:199-203 | the path to vertex `k`, its length and success are recorded |
| RrtStarPlanner.RrtStar.Plan | RRTVisualizer/RRTVisualizer/algorithms/rrt_star.py:108-231 | all `max_iter` iterations run; success exactly when some added vertex reached the goal; the path ends at the last such vertex and carries its length; the trace runs from the one-vertex tree to the final one, pass `i` being one extension on draw `draws(i)` |
| RrtStarPlanner.RrtStar.Iterate | RRTVisualizer/RRTVisualizer/algorithms/rrt_star.py:129-210 | one pass keeps the invariant and the outcome: the recorded path ends at the most recent vertex that reached the goal; the tree after the pass is appended to the trace, one extension on draw `d` from the tree before (`LastPass`) |
| RrtStarPlanner.RrtStar.Record | RRTVisualizer/RRTVisualizer/algorithms/rrt_star.py:198-207 | after one extension the recorded path ends at the most recent vertex that reached the goal; the search goes on |
| RrtStarPlanner.RrtStar.GetDetails | RRTVisualizer/RRTVisualizer/algorithms/base_rrt.py:248-266 | the inherited details: `nodes` is the vertex count, which in a valid tree is the parent-table size, with the success flag and the iteration count |
| TopRrtStar.CandidateKeys | RRTVisualizer/algorithms/rrt_star.py:67-68 | `zip(distances, near_indices)`: one `(distance, index)` pair per candidate, each distance measured to the point |
| TopRrtStar.NearVertices | RRTVisualizer/algorithms/rrt_star.py:45-75 | after the walk over all vertices the list holds the nearest vertices strictly inside the radius, at most 50, none twice; while no more than 50 are inside it lists all of them in index order |
| TopRrtStar.NearStep | RRTVisualizer/algorithms/rrt_star.py:60-71 | one pass appends vertex `i` when it is inside and sorts and cuts a list that outgrew 50 back to 50 |
| TopRrtStar.IncrementalIsNearest | RRTVisualizer/algorithms/rrt_star.py:45-75 | the incremental search keeps the same set of vertices as sorting all inside vertices once and keeping the first 50 |
| TopRrtStar.NewVertexIsNear | RRTVisualizer/algorithms/rrt_star.py:135-139 | a vertex appended to a tree of at most 50 is among its own near vertices for any positive radius |
| TopRrtStar.FirstStepRaises | RRTVisualizer/algorithms/rrt_star.py:135-151 | on the first vertex a run adds, the parent search meets that vertex, which has no cost yet, among the near vertices |
| TopRrtStar.RrtStar.constructor | RRTVisualizer/algorithms/rrt_star.py:20-38 | the basic planner's initial state plus `costs = {0: 0}` |
| TopRrtStar.RrtStar.Reset | RRTVisualizer/algorithms/rrt_star.py:40-43 | the basic reset plus `costs = {0: 0}`, an RRT* tree |
| TopRrtStar.RrtStar.NewCost | RRTVisualizer/algorithms/rrt_star.py:77-93 | `self.costs[from_idx]` with no fallback: KeyError exactly when the index has no cost; otherwise the sum is finite exactly when that cost is, and never below it |
| TopRrtStar.RrtStar.ChooseParent | RRTVisualizer/algorithms/rrt_star.py:142-160 | as written: KeyError exactly when the new vertex has no cost, is among the near vertices and its zero-length edge to itself is collision-free; otherwise the first near vertex of least cost among those with a collision-free edge, or the nearest vertex when none has one, never the new vertex, at a finite cost no collision-free near vertex undercuts |
| TopRrtStar.RrtStar.RewireStep | RRTVisualizer/algorithms/rrt_star.py:204-230 | for one near vertex: re-parent, replace its edge, lower its cost and record the edge exactly when the edge from the new vertex is collision-free and strictly cheaper; the tree invariant holds |
| TopRrtStar.RrtStar.Rewire | RRTVisualizer/algorithms/rrt_star.py:194-230 | no near vertex reachable more cheaply through the new vertex is left unrewired, no cost rose, the new vertex's cost is untouched and the history grew only by edges from the new vertex |
| TopRrtStar.RrtStar.AddVertex | RRTVisualizer/algorithms/rrt_star.py:135-136 | the point is appended and, unlike the code as written, its cost is set to `inf` at once, so every cost the parent search reads exists |
| TopRrtStar.RrtStar.Link | RRTVisualizer/algorithms/rrt_star.py:142-168 | the chosen parent, the edge into the new vertex, its cost through the parent and the history entry are recorded, keeping the invariant |
| TopRrtStar.RrtStar.Extend | RRTVisualizer/algorithms/rrt_star.py:121-171 | with `q` the drawn sample and `n` the vertex nearest to it, the call adds nothing exactly when the steered edge from `n` collides; otherwise it appends exactly the steered point, whose parent is the one `choose_parent` picks: a collision-free vertex among the at most 50 nearest inside the search radius with no collision-free one in that set cheaper through it, or `n` itself when none of them is collision-free; the invariant holds after the rewire and no existing cost rises; the near vertices are rewired: none with a collision-free edge from the new vertex is still reached more cheaply through it, only near vertices are re-parented, and only to the new vertex |
| TopRrtStar.RrtStar.Grow | RRTVisualizer/algorithms/rrt_star.py:117-171 | one extension on draw `d` appends the draw, what it added and the new tree to the trace, which keeps replaying every pass since the reset |
| TopRrtStar.RrtStar.LastPass | RRTVisualizer/algorithms/rrt_star.py:117-171 | the last recorded pass took the tree before it to the current tree as one extension on its draw |
| TopRrtStar.RrtStar.ReplayedStep | RRTVisualizer/algorithms/rrt_star.py:117-171 | a trace that replays draws `0..k-1`, extended by a tree that one extension on draw `k` reaches from its last tree, replays draws `0..k` |
| TopRrtStar.RrtStar.ResetTree | RRTVisualizer/algorithms/rrt_star.py:40-43 | the one-vertex tree at the start with cost 0, no history, and an empty trace replaying no pass |
| TopRrtStar.RrtStar.RecordPath | RRTVisualizer/algorithms/rrt_star.py:174-178 | the path to vertex `k`, its length and success are recorded |
| TopRrtStar.RrtStar.Plan | RRTVisualizer/algorithms/rrt_star.py:95-192 | at most `max_iter` iterations; without success all of them ran, the path is empty and no vertex reached the goal; with success the last vertex is the first to reach the goal and the path runs to it, with its length; the trace runs from the one-vertex tree to the final one, pass `i` being one extension on draw `draws(i)` |
| TopRrtStar.RrtStar.Iterate | RRTVisualizer/algorithms/rrt_star.py:117-179 | one pass counts itself and reports a find exactly when the new vertex reaches the goal, with the path recorded; the tree after the pass is appended to the trace, one extension on draw `d` from the tree before (`LastPass`) |
| TopRrtStar.RrtStar.Record | RRTVisualizer/algorithms/rrt_star.py:173-178 | a new vertex that reaches the goal records the path to it and reports a find; otherwise nothing is recorded |
| TopRrtStar.RrtStar.GetDetails | RRTVisualizer/algorithms/rrt_star.py:232-242 | the basic details renamed "RRT* 算法" plus the search radius; `nodes` is the vertex count |
| InformedRrtPlanner.EllipseFor | RRTVisualizer/algorithms/informed_rrt.py:54-87 | none exactly when start and goal are less than `1e-6` apart; otherwise centred at their midpoint, with focal distance their distance and long half-axis half the best length; the short half-axis squared is `(best^2 - c^2) / 4`, so that the semi-axes and half the focal distance form a right triangle, and 0 when the best length is below the focal distance; with no best length both axes are infinite |
| InformedRrtPlanner.EllipseSample | RRTVisualizer/algorithms/informed_rrt.py:112-133 | the first of the 100 transformed unit-ball draws that lies inside the bounds, or none exactly when all 100 fall outside |
| InformedRrtPlanner.ClampRadius | RRTVisualizer/algorithms/informed_rrt.py:298 | `max(min(adjusted, R), 0.3 R)`: never below `0.3 R`, never above `R` when `R >= 0`, the adjusted radius itself when it lies between |
| InformedRrtPlanner.DrawsUsedNext | RRTVisualizer/algorithms/informed_rrt.py:195-199 | iteration `i` of a loop whose first `i` passes used the draws `draws(0)`, ..., `draws(i - 1)` uses `draws(i)` next |
| InformedRrtPlanner.Rollback | RRTVisualizer/algorithms/informed_rrt.py:397-405 | the rollback gives `near_idx` back its old parent and cost and replaces its edges by the one from the old parent, if any (`RollbackRestores` proves this restores the state before the rewire) |
| InformedRrtPlanner.MatchingEdgesAgree | RRTVisualizer/algorithms/informed_rrt.py:403-405 | two edge lists that both match the parent table hold the same edges |
| InformedRrtPlanner.RollbackRestores | RRTVisualizer/algorithms/informed_rrt.py:378-415 | for any edge list in step with its parent table, rolling a rewire of a non-root vertex back restores the parent table and the costs exactly, and the edges up to order, again in step with the parent table |
| InformedRrtPlanner.InformedRrt.constructor | RRTVisualizer/algorithms/informed_rrt.py:16-43 | the RRT* initial state plus an infinite best length, no ellipse, no solution and zero sample counters |
| InformedRrtPlanner.InformedRrt.Reset | RRTVisualizer/algorithms/informed_rrt.py:45-52 | the same state as a fresh planner |
| InformedRrtPlanner.InformedRrt.ResetTree | RRTVisualizer/algorithms/rrt_star.py:40-43 | the inherited RRT* reset: the one-vertex tree at the start with cost 0, no history, and an empty trace replaying no pass |
| InformedRrtPlanner.InformedRrt.ResetSampling | RRTVisualizer/algorithms/informed_rrt.py:47-52 | infinite best length, no ellipse, no solution, zero counters |
| InformedRrtPlanner.InformedRrt.InformedSample | RRTVisualizer/algorithms/informed_rrt.py:89-137 | each call counts one sample except a goal draw after the first solution; before a solution the sample is a regular one; after it, a goal-bias draw returns the goal, a missing ellipse is computed first, an ellipse sample lies inside the bounds and comes from one of the 100 attempts, and every fallback is a regular sample; `Sampled` states the point outright: the first of the 100 attempts that lies inside the bounds, or the regular sample when none does |
| InformedRrtPlanner.InformedRrt.NewCost | RRTVisualizer/algorithms/informed_rrt.py:139-172 | a present cost is used as is; a missing one is filled in first (0 for the start, parent's cost plus edge when known, `inf` otherwise); the result is that cost plus the distance |
| InformedRrtPlanner.InformedRrt.FillCost | RRTVisualizer/algorithms/informed_rrt.py:229-239 | the parent-loop repair: a missing cost becomes the parent route or `inf`, a present one is kept |
| InformedRrtPlanner.InformedRrt.ChooseParent | RRTVisualizer/algorithms/informed_rrt.py:225-255 | the first near vertex of least cost among those with a collision-free edge, or the nearest vertex when none but the new one has one; never the new vertex; finite cost that no collision-free near vertex undercuts |
| InformedRrtPlanner.InformedRrt.RewireStep | RRTVisualizer/algorithms/informed_rrt.py:339-405 | for one near vertex: re-parent, replace its edge, lower its cost and record the edge exactly when the edge from the new vertex is collision-free and strictly cheaper; the tree invariant holds |
| InformedRrtPlanner.InformedRrt.Rewire | RRTVisualizer/algorithms/informed_rrt.py:328-415 | no near vertex reachable more cheaply through the new vertex is left unrewired, no cost rose, the new vertex's cost is untouched and the history grew only by edges from the new vertex |
| InformedRrtPlanner.InformedRrt.AddVertex | RRTVisualizer/algorithms/informed_rrt.py:213-218 | the point is appended with cost `inf` |
| InformedRrtPlanner.InformedRrt.Link | RRTVisualizer/algorithms/informed_rrt.py:225-263 | the chosen parent, the edge into the new vertex, its cost through the parent and the history entry are recorded, keeping the invariant |
| InformedRrtPlanner.InformedRrt.Extend | RRTVisualizer/algorithms/informed_rrt.py:202-266 | with `q` the drawn sample and `n` the vertex nearest to it, the call adds nothing exactly when the steered edge from `n` collides; otherwise it appends exactly the steered point, whose parent is the one `choose_parent` picks: a collision-free vertex among the at most 50 nearest inside the adjusted radius passed in with no collision-free one in that set cheaper through it, or `n` itself when none of them is collision-free; the invariant holds after the rewire and no existing cost rises; the near vertices are rewired: none with a collision-free edge from the new vertex is still reached more cheaply through it, only near vertices are re-parented, and only to the new vertex |
| InformedRrtPlanner.InformedRrt.Grow | RRTVisualizer/algorithms/informed_rrt.py:202-266 | one extension towards the pass's point with the pass's radius appends the pass, what it added and the new tree to the trace, which keeps replaying every pass since the reset |
| InformedRrtPlanner.InformedRrt.ReplaysLast | RRTVisualizer/algorithms/informed_rrt.py:195-266 | the last recorded pass sampled its point as `informed_sample` does and took the tree before it to the current tree as one extension towards that point |
| InformedRrtPlanner.InformedRrt.ReplayedStep | RRTVisualizer/algorithms/informed_rrt.py:195-266 | a trace that replays passes `0..k-1`, extended by a tree that pass `k` reaches from its last tree, replays passes `0..k` |
| InformedRrtPlanner.InformedRrt.OutcomeGrown | RRTVisualizer/algorithms/informed_rrt.py:202-218 | a vertex appended after the first `n` leaves the recorded outcome about those `n` as it was |
| InformedRrtPlanner.InformedRrt.RecordSolution | RRTVisualizer/algorithms/informed_rrt.py:269-287 | the path to the goal vertex and its length are recorded; the best length improves exactly when the new length is strictly shorter, and then the ellipse is recomputed from it; the solution flags are set |
| InformedRrtPlanner.InformedRrt.Plan | RRTVisualizer/algorithms/informed_rrt.py:174-326 | all `max_iter` iterations run; success exactly when a best length exists; without success no path or best length is recorded and no vertex reached the goal; with success the last path found ends within half a step of the goal, and the best length is that of a path to the goal and never exceeds the last path's length; the ellipse is the one for the best length; ellipse samples only after a solution, at most one sample per iteration; the trace runs from the one-vertex tree to the final one, pass `i` using the draws `draws(i)`, sampling its point as `informed_sample` does and extending the tree towards it |
| InformedRrtPlanner.InformedRrt.Iterate | RRTVisualizer/algorithms/informed_rrt.py:195-298 | one pass never raises the best length, adds at most one vertex keeping the earlier ones, and re-clamps the radius exactly on every hundredth pass after a solution that added a vertex; the pass is appended to the replayed passes, with its draws and radius |
| InformedRrtPlanner.InformedRrt.SampleStep | RRTVisualizer/algorithms/informed_rrt.py:196-199 | counting the iteration and drawing a sample keeps the outcome and the sample accounting, and the point is one `informed_sample` can return for the draws, given whether a solution is known and the current ellipse |
| InformedRrtPlanner.InformedRrt.GrowStep | RRTVisualizer/algorithms/informed_rrt.py:202-287 | extending and recording a solution keeps the outcome, never raises the best length and never clears the solution flag; the tree after the extension is appended to the trace, so with `ReplaysLast` the pass took the tree before it to the new one as one extension towards its sampled point |
| InformedRrtPlanner.InformedRrt.Reach | RRTVisualizer/algorithms/informed_rrt.py:268-290 | a new vertex that reaches the goal records its path; the outcome is kept, the best length never rises and the solution flag is never cleared |
| InformedRrtPlanner.InformedRrt.GetDetails | RRTVisualizer/algorithms/informed_rrt.py:421-434 | the RRT* details renamed "Informed RRT* 算法", with the best length, solution flag and sample counters; the long axis appears exactly when an ellipse exists, twice its half-axis |
| ConfigSpace.Without | RRTVisualizer/environment/space.py:55 | `del obstacles[i]`: one element shorter, the elements before `i` in place and the ones after shifted down by one |
| ConfigSpace.MoreObstaclesNeverFree | RRTVisualizer/environment/space.py:88-96 | a segment that is collision-free with an extra obstacle is free without it, and the extra obstacle does not cross it |
| ConfigSpace.FewerObstaclesStayFree | RRTVisualizer/environment/space.py:54-96 | removing an obstacle keeps a collision-free segment collision-free |
| ConfigSpace.ConfigurationSpace.constructor | RRTVisualizer/environment/space.py:14-33 | bounds `[0, width] x [0, height]`; the obstacles given, or none |
| ConfigSpace.ConfigurationSpace.AddObstacle | RRTVisualizer/environment/space.py:35-45 | an obstacle is appended at the end; anything else raises TypeError and leaves the list unchanged |
| ConfigSpace.ConfigurationSpace.RemoveObstacle | RRTVisualizer/environment/space.py:47-57 | an index in `[0, len)` deletes exactly that element, keeping the others in order; any other index raises IndexError and leaves the list unchanged |
| ConfigSpace.ConfigurationSpace.ClearObstacles | RRTVisualizer/environment/space.py:59-61 | the obstacle list is empty |
| ConfigSpace.ConfigurationSpace.IsCollisionFree | RRTVisualizer/environment/space.py:63-96 | true exactly when both ends lie in the closed bounds and no obstacle reports crossing the segment |
| ConfigSpace.ConfigurationSpace.IsInBounds | RRTVisualizer/environment/space.py:63-75 | a point is in bounds when both coordinates lie in the closed intervals of the bounds |
| ConfigSpace.UniformInBounds | RRTVisualizer/environment/space.py:98-109 | `np.random.uniform(lo, hi)` with a unit fraction on each axis lands inside a rectangle whose bounds are in order |
| ConfigSpace.ConfigurationSpace.Sample | RRTVisualizer/environment/space.py:98-109 | a sample drawn with unit fractions lies inside the bounds of a space of non-negative size |
| ConfigSpace.ConfigurationSpace.SampleCoversBounds | RRTVisualizer/environment/space.py:98-109 | every point inside a space of positive size is the sample of some unit fractions |
| ConfigSpace.ConfigurationSpace.SampleFree | RRTVisualizer/environment/space.py:111-134 | the first of at most `max_attempts` samples that no obstacle contains, or None exactly when every attempt lands in an obstacle; with unit fractions the point returned lies inside the bounds |
| SceneState.Clamp | RRTVisualizer/static/js/rrt_visualizer.js:733-734 | `max(lo, min(hi, v))`: inside `[lo, hi]` when that range is not empty, `v` itself when it is inside, `lo` when `v` is below or the range is empty, `hi` when `v` is above |
| SceneState.Lookup | RRTVisualizer/static/js/rrt_visualizer.js:938-939 | `nodes[i]` is a point exactly for an index inside the array, and `undefined` otherwise |
| SceneState.Ceil | RRTVisualizer/static/js/rrt_visualizer.js:969 | `Math.ceil`: the least integer not below its argument |
| SceneState.AnimationQueue | RRTVisualizer/static/js/rrt_visualizer.js:931-954 | the queue is every edge in input order, each tagged with its destination index, then the `|path| - 1` consecutive path segments; its length is `|edges| + max(0, |path| - 1)` |
| SceneState.Seed | RRTVisualizer/static/js/rrt_visualizer.js:925-928 | the rendered lists an animation starts from: the first vertex alone, `undefined` when there is none, and no edges or path |
| SceneState.ApplyEvent | RRTVisualizer/static/js/rrt_visualizer.js:972-986 | an edge event appends its segment and, unless a node at the same coordinates is already rendered, its end node; reading an `undefined` node raises; a path event appends its end, preceded by its start on an empty path |
| SceneState.SomeEqual | RRTVisualizer/static/js/rrt_visualizer.js:978 | the duplicate test finds an equal node only when the destination is present and in the list, reports none only when every node is present and differs, and throws only when a node or the destination is `undefined` |
| SceneState.TakeCount | RRTVisualizer/static/js/rrt_visualizer.js:969-970 | `splice(0, ceil(speed))` removes `min(ceil(speed), length)` events: at least one for a positive speed, none for a speed of zero or less |
| SceneState.ApplyAllAppend | RRTVisualizer/static/js/rrt_visualizer.js:972-988 | replaying two runs of events is replaying the first and then, unless it threw, the second |
| SceneState.ReplayKeepsDistinct | RRTVisualizer/static/js/rrt_visualizer.js:975-980 | replay never puts two equal nodes in the rendered node list |
| SceneState.EdgeEventsHead | RRTVisualizer/static/js/rrt_visualizer.js:975-980 | an edge event throws exactly when its destination index is outside the vertex list; otherwise it appends the looked-up segment and adds the destination to the nodes if no equal node is there |
| SceneState.EdgeReplayThrows | RRTVisualizer/static/js/rrt_visualizer.js:934-980 | replaying the edge events throws exactly when some edge's destination index is outside the vertex list |
| SceneState.EdgeReplayShape | RRTVisualizer/static/js/rrt_visualizer.js:934-975 | a replay of the edge events that does not throw appends exactly the looked-up segments, in edge order, and leaves the path alone |
| SceneState.EdgeReplayNodes | RRTVisualizer/static/js/rrt_visualizer.js:975-980 | after that replay a point is rendered exactly when it was before or is the destination of some edge |
| SceneState.PathReplayFrom | RRTVisualizer/static/js/rrt_visualizer.js:946-986 | path events continuing a rendered path append the rest of the path |
| SceneState.PathReplay | RRTVisualizer/static/js/rrt_visualizer.js:946-986 | from an empty rendered path the path events render the whole path when it has two or more points, and nothing otherwise |
| SceneState.AnimationOutcome | RRTVisualizer/static/js/rrt_visualizer.js:923-988 | the whole animation of a result runs without a TypeError and leaves paintable lists exactly when the vertex list is non-empty and every edge indexes into it; then the rendered edges are the edges in order, the rendered path is the path when it has two or more points, the rendered nodes are distinct and are the first vertex and the edges' destinations |
| SceneState.AnimationRenderable | RRTVisualizer/static/js/rrt_visualizer.js:923-988 | replaying the seed, the edge events and the path events ends without a TypeError and with paintable lists exactly when the vertex list is non-empty and every edge indexes into it |
| SceneState.AnimationShape | RRTVisualizer/static/js/rrt_visualizer.js:923-988 | for a well-formed result the replay draws every edge in order between its two vertices, the path when it has two or more points, and each vertex once: the first vertex and the edges' destinations |
| SceneState.ResetDefaultsOnCanvas | RRTVisualizer/static/js/rrt_visualizer.js:825-828 | the default start and goal lie on the canvas with the start no further right or down than the goal, 50 pixels from the edges on a canvas of 500 pixels or more |
| SceneState.DefaultStart | RRTVisualizer/static/js/rrt_visualizer.js:825-826 | `Math.min(50, dim * 0.1)` on each axis: the smaller of the two |
| SceneState.DefaultGoal | RRTVisualizer/static/js/rrt_visualizer.js:827-828 | `Math.max(dim - 50, dim * 0.9)` on each axis: the larger of the two |
| SceneState.BuildQueue | RRTVisualizer/static/js/rrt_visualizer.js:931-954 | the two loops of `startAnimation` build exactly the queue `AnimationQueue` describes |
| SceneState.Visualizer.constructor | RRTVisualizer/static/js/rrt_visualizer.js:65-89 | start (50, 50), goal (750, 550), marker radii 10, speed 1, animation on, empty obstacles, tree, path and animation lists, mode `none` |
| SceneState.Visualizer.SetStart | RRTVisualizer/static/js/rrt_visualizer.js:726-747 | two numbers set the start, each coordinate clamped to `[r, dim - r]`; the repaint that follows raises a TypeError exactly when an animation is running with a missing rendered node; a non-number changes nothing and raises nothing; nothing else changes |
| SceneState.Visualizer.SetGoal | RRTVisualizer/static/js/rrt_visualizer.js:750-771 | the same for the goal with the goal radius, including the repaint that may raise |
| SceneState.Visualizer.EnterSetStartMode | RRTVisualizer/static/js/rrt_visualizer.js:225-228 | the mode becomes `setStart` |
| SceneState.Visualizer.EnterSetGoalMode | RRTVisualizer/static/js/rrt_visualizer.js:231-234 | the mode becomes `setGoal` |
| SceneState.Visualizer.Click | RRTVisualizer/static/js/rrt_visualizer.js:173-193 | in `setStart` mode a click sets the clamped start, in `setGoal` mode the clamped goal, in `none` mode neither; the click raises exactly when a marker was set and its repaint raised, and then the set mode stays; otherwise the mode is `none` afterwards; nothing else changes |
| SceneState.Visualizer.AddRectangleObstacle | RRTVisualizer/static/js/rrt_visualizer.js:774-788 | a rectangle with four numbers and positive width and height is appended at the end; the repaint that follows raises a TypeError exactly when an animation is running with a missing rendered node; anything else leaves the obstacles unchanged and raises nothing |
| SceneState.Visualizer.AddCircleObstacle | RRTVisualizer/static/js/rrt_visualizer.js:791-804 | a circle with three numbers and a positive radius is appended at the end; the repaint that follows raises a TypeError exactly when an animation is running with a missing rendered node; anything else leaves the obstacles unchanged and raises nothing |
| SceneState.Visualizer.ClearObstacles | RRTVisualizer/static/js/rrt_visualizer.js:807-811 | the obstacle list is empty; the repaint that follows raises a TypeError exactly when an animation is running with a missing rendered node |
| SceneState.Visualizer.StopAnimation | RRTVisualizer/static/js/rrt_visualizer.js:871-881 | no frame pending, no animation in progress, an empty queue and empty rendered lists, whatever the state before; so stopping twice is stopping once |
| SceneState.Visualizer.Reset | RRTVisualizer/static/js/rrt_visualizer.js:814-854 | the animation stops and the state is the default start and goal for the canvas, no obstacles, no tree or path, mode `none` |
| SceneState.Visualizer.ClearResult | RRTVisualizer/static/js/rrt_visualizer.js:857-868 | the animation stops and the tree and path are emptied; start, goal, obstacles and mode are outside what it may change |
| SceneState.Visualizer.PlayEvents | RRTVisualizer/static/js/rrt_visualizer.js:972-988 | the loop over the spliced events leaves the rendered lists as the replay specification `ApplyAll` says, including whether a TypeError stopped it |
| SceneState.Visualizer.Step | RRTVisualizer/static/js/rrt_visualizer.js:961-997 | with an empty queue or a stopped animation the frame only clears the flag; otherwise it removes `min(ceil(speed), length)` events from the front, replays them, and either schedules the next frame or throws (on a missing node, or on a repaint of a missing node); once an unbroken animation finishes, the rendered lists are the whole queue's replay |
| SceneState.Visualizer.StartAnimation | RRTVisualizer/static/js/rrt_visualizer.js:923-958 | the rendered lists start from the first vertex alone, the queue is `AnimationQueue` of the result, and the first frame runs on it |
| SceneState.Visualizer.UpdateResult | RRTVisualizer/static/js/rrt_visualizer.js:884-920 | no result changes nothing; otherwise the tree and path become the result's lists (empty when absent), and the animation starts exactly when it is enabled and there are edges or a path, else the animation state is cleared |
| UiRules.FormatParameterName | RRTVisualizer/static/js/main.js:843-847 | the display name has the input's length and no `_`: every `_` becomes a space, every other character keeps its letter case-insensitively, a character starting a word is never a lower-case letter, and characters inside a word are kept as they are |
| UiRules.FormatParameterNameIdempotent | RRTVisualizer/static/js/main.js:843-847 | formatting a formatted name changes nothing |
| UiRules.ParameterVisibilityFor | RRTVisualizer/static/js/main.js:270-294 | the goal-sample-rate row is shown for every algorithm but `RRTConnect`, the search-radius row only for `RRTStar` and `InformedRRT` |
| UiRules.ParameterVisibilityTable | RRTVisualizer/static/js/main.js:270-294 | the goal-sample-rate field is hidden exactly for `RRTConnect`, the search-radius field is shown exactly for `RRTStar` and `InformedRRT`, and a shown search radius always comes with a shown sample rate |
| UiRules.AlgorithmInfoTitle | RRTVisualizer/static/js/main.js:300-325 | no message for an empty name; the fixed title for each of the four known algorithms; `未知算法` for any other name |
| UiRules.AlgorithmTitlesDistinct | RRTVisualizer/static/js/main.js:305-325 | two different names, one of them known, get different titles |
| UiRules.DetailRows | RRTVisualizer/static/js/main.js:777-785 | the details table shows exactly the entries whose key is not one of `name`, `path_length`, `planning_time`, `iterations`, `nodes`, `success` and whose value is not an object |
| UiRules.DetailRowsAppend | RRTVisualizer/static/js/main.js:778-785 | the filter works entry by entry, keeping the order of the details |
| UiRules.DetailRowsIdempotent | RRTVisualizer/static/js/main.js:778-785 | filtering the shown rows again removes nothing |
| UiRules.ObstacleToJson | RRTVisualizer/static/js/main.js:552-568 | an obstacle in the request carries its type and that type's fields, and reads back as the same obstacle |
| UiRules.ObstacleFromJson | RRTVisualizer/static/js/main.js:552-568 | the inverse that states the round trip: it accepts exactly the two request shapes and reads their fields back |
| UiRules.RequestObstacles | RRTVisualizer/static/js/main.js:552-570 | the request's obstacle list has one entry per scene obstacle, in order, and each entry reads back as exactly that obstacle |
| UiRules.SetStartButton | RRTVisualizer/static/js/main.js:385-404 | without a scene object nothing happens; with two numbers the start is set, clamped, and the mode kept, and the handler raises when the repaint does; otherwise only the set-start click mode is entered; the goal and obstacles never change |
| UiRules.SetGoalButton | RRTVisualizer/static/js/main.js:409-428 | the same for the goal button and the set-goal mode |
| UiRules.UpdateStartFromInputs | RRTVisualizer/static/js/main.js:354-366 | a start-coordinate input change sets the clamped start when both fields are numbers, raising when the repaint does, and changes nothing otherwise |
| UiRules.UpdateGoalFromInputs | RRTVisualizer/static/js/main.js:369-381 | the same for the goal inputs |
| UiRules.AddRectangleButton | RRTVisualizer/static/js/main.js:433-456 | a field that is not a number is rejected with the obstacles unchanged; otherwise the rectangle is appended when its width and height are positive, and a repaint that raises after the append is caught and reported as a failure; a valid scene stays valid, with its start, goal and click mode unchanged |
| UiRules.AddCircleButton | RRTVisualizer/static/js/main.js:461-483 | a field that is not a number is rejected with the obstacles unchanged; otherwise the circle is appended when its radius is positive, and a repaint that raises is caught and reported as a failure; a valid scene stays valid, with its start, goal and click mode unchanged |
| UiRules.ClearObstaclesButton | RRTVisualizer/static/js/main.js:487-500 | without a scene object nothing happens; otherwise the obstacles are cleared, and a repaint that raises is caught and reported as a failure; a valid scene stays valid, with its start, goal and click mode unchanged |
| UiRules.ExportParameters | RRTVisualizer/static/js/main.js:699-707 | the export loop yields the specification `ParametersFrom` of the table's rows |
| UiRules.ParametersFrom | RRTVisualizer/static/js/main.js:700-706 | the parameters object after copying the rows in order, the last row with a key winning (`ParametersFromLastRowWins`) |
| UiRules.ParametersFromLastRowWins | RRTVisualizer/static/js/main.js:700-706 | a key is exported exactly when some row has two cells starting with it, and its value is the second cell of the last such row |
| AuthForms.Trim | RRTVisualizer/static/js/auth.js:13 | `trim()`: the input without its leading and trailing white space (`TrimShape` states its shape) |
| AuthForms.LeadingSpaces | RRTVisualizer/static/js/auth.js:13 | the count of white-space code points `trim` strips from the front: all of them are white space and the next one is not |
| AuthForms.TrailingSpaces | RRTVisualizer/static/js/auth.js:13 | the same count from the back |
| AuthForms.TrimShape | RRTVisualizer/static/js/auth.js:13 | `trim()` returns a slice of its input with no white space at either end, and is empty exactly when the input is all white space |
| AuthForms.TrimIdempotent | RRTVisualizer/static/js/auth.js:13 | trimming a trimmed string changes nothing |
| AuthForms.ValidUsernameIsTrimmed | RRTVisualizer/static/js/auth.js:42 | a name matching `^[a-zA-Z0-9_]{3,20}$` is unchanged by trimming |
| AuthForms.IsValidUsername | RRTVisualizer/static/js/auth.js:42 | `^[a-zA-Z0-9_]{3,20}$`: 3 to 20 ASCII letters, digits or underscores |
| AuthForms.LastIndexOf | RRTVisualizer/static/js/auth.js:49 | the last position of a character, or none when it does not occur (used to split the e-mail domain at its last `.`) |
| AuthForms.IndexOf | RRTVisualizer/static/js/auth.js:49 | the first position of a character, or none when it does not occur (used to split an address at its `@`) |
| AuthForms.EmailDomainHasNoAt | RRTVisualizer/static/js/auth.js:49 | the domain part of the e-mail pattern contains no `@` |
| AuthForms.ValidEmailHasOneAt | RRTVisualizer/static/js/auth.js:49 | an address the e-mail pattern accepts has exactly one `@` |
| AuthForms.IsValidEmail | RRTVisualizer/static/js/auth.js:49 | the e-mail pattern: dotted word labels, one `@`, then labels each followed by a dot and a 2 to 7 letter top-level label |
| AuthForms.Utf16Length | RRTVisualizer/static/js/auth.js:56 | JavaScript's `.length`: one UTF-16 code unit per character, two for a character beyond U+FFFF; it equals the character count exactly when no such character occurs |
| AuthForms.HasDigitAndLetter | RRTVisualizer/static/js/auth.js:62 | `/\d/` and `/[a-zA-Z]/` both match somewhere in the password |
| AuthForms.FirstFailure | RRTVisualizer/static/js/auth.js:35-81 | a chain of checks with early return submits exactly when every check passes, and otherwise reports the error of the first failing check |
| AuthForms.FirstFailureStep | RRTVisualizer/static/js/auth.js:35-81 | each check either stops the chain with its own alert or hands over to the rest of the chain |
| AuthForms.ValidateLogin | RRTVisualizer/static/js/auth.js:13-20 | login is submitted exactly when the password is not empty and the username is not all white space |
| AuthForms.ValidateRegister | RRTVisualizer/static/js/auth.js:28-81 | the registration handler's if-chain with early return: required fields, username format, e-mail, a `.length` of at least 8, complexity, confirmation, agreement (`RegisterIsFirstFailure` states its order) |
| AuthForms.RegisterIsFirstFailure | RRTVisualizer/static/js/auth.js:28-81 | the registration handler's outcome is the first failure among required fields, username format, e-mail, length, complexity, confirmation and agreement, in that order |
| AuthForms.SevenChecks | RRTVisualizer/static/js/auth.js:35-81 | seven checks in a row stop at the first that fails, or submit |
| AuthForms.LastFourChecks | RRTVisualizer/static/js/auth.js:56-81 | the last four registration checks stop at the first that fails, or submit |
| AuthForms.RegisterSubmitMeans | RRTVisualizer/static/js/auth.js:28-81 | a submitted registration has a well-formed trimmed username and e-mail, a password of at least 8 UTF-16 code units with a digit and a letter, a matching confirmation, and no unticked agreement box |
| AuthForms.WeakPasswordReportedLate | RRTVisualizer/static/js/auth.js:35-67 | the complexity alert is raised only when all fields are filled, the username and e-mail are well formed and the password is long enough, and then the password really lacks a digit or a letter |
| AuthForms.ValidateChangePassword | RRTVisualizer/static/js/auth.js:89-126 | the change-password form is submitted exactly when the fields are filled, the new password has at least 8 UTF-16 code units, a digit and a letter, matches its confirmation and differs from the current one; the "unchanged" alert is raised only after the other checks pass |
| AuthForms.ChangeAcceptsOnlyRegisterStrength | RRTVisualizer/static/js/auth.js:101-119 | a new password the change form accepts would pass registration's length, complexity and confirmation checks |
| AuthForms.AvailabilityRequest | RRTVisualizer/static/js/auth.js:163-170 | the availability request is made exactly for a trimmed value that passes the username format, and carries that value |
| AuthForms.RequestOnlyAfterSchedule | RRTVisualizer/static/js/auth.js:156-167 | a value for which the request is made would also have scheduled the check on keyup |
| AuthForms.ToggleTarget | RRTVisualizer/static/js/auth.js:134 | the toggled input is the `data-target` attribute when it is non-empty, and `password` otherwise |
| AuthForms.ToggleInputType | RRTVisualizer/static/js/auth.js:138-146 | a click makes a `password` input `text` and any other input `password` |
| AuthForms.ToggleTwice | RRTVisualizer/static/js/auth.js:138-146 | two clicks restore the type exactly when it was `password` or `text` |

## Left out

- **Floating-point geometry.**
  - `np.linalg.norm`, `steer`, the goal distance and the obstacles' segment and point tests are abstract functions.
  - Path lengths are real sums with no rounding.
  - The `1e-6` threshold of the ellipse is compared on exact reals.
- **The ellipse transform.**
  - The rotation matrix and `sqrt` are not modelled; the short half-axis is kept squared.
  - A transformed unit-ball draw is an abstract function `place`.
  - `get_details` reports no short axis.
- **Randomness.**
  - `np.random.random()`, the sample `random_sample` falls back to and the unit-ball rejection loop are inputs (`Draw`, `InformedDraw`).
  - In `ConfigSpace`, `sample` is modelled on the unit fractions that `np.random.uniform` scales; the fractions are inputs.
  - The rejection loop inside one ellipse attempt is folded into a single draw.
- **The adjusted search radius** of Informed RRT* is a function of the vertex count passed in. Its density formula divides by the bounds' area and can divide by zero; only the clamp around it is modelled.
- **Timing and console output.** `planning_time`, the `print` calls and the timing entry of every `get_details` dictionary are not modelled.
- **The `try`/`except` blocks** of Informed RRT*'s `informed_sample` and `rewire` are not modelled. With abstract geometry nothing inside them raises, so the handlers never run.
- **`simplify_tree_for_visualization`**, called by Informed RRT*'s `plan` on success, is defined in no file of this model. The tree is modelled as it stands before that call.
- **Canvas painting, DOM updates, tooltips and toasts.** The one effect painting has on the state is modelled: a repaint that reads a missing node while an animation runs raises a TypeError. In a frame it stops the frame loop; in a setter it propagates to the caller, which the front-end handlers either let escape or catch and report.
- **Host scheduling.**
  - `requestAnimationFrame` and `cancelAnimationFrame` are modelled by a pending-frame flag and an explicit `Step`.
  - `updateCanvasSize` is not modelled.
- **Number parsing.**
  - `parseFloat`/`Number` of input fields is not modelled; each field arrives as a number or as a non-number.
  - `NaN` is not modelled.
- **Network and storage.** `fetch` calls, `sessionStorage`, the availability response and page navigation are not modelled. A check that ends in a request returns the request it would make.
- **Aliasing of `obstacles or []`** in `ConfigurationSpace.__init__` is not modelled: the obstacle list is a value.
- **Tree shape in the RRT\* variants.** Rewiring can point a vertex at a later one, so parent indices are no longer below child indices. The RRT* models prove that the cost invariant holds, that every vertex has exactly one incoming edge, and that an extracted path ends at its vertex. They do not prove that the parent links are acyclic or that an extracted path starts at the start.
- InformedRrtPlanner.InformedRrt.Plan: states that the recorded path ends within half a step of the goal, not that it ends at the last vertex to reach the goal as the repaired RRT* states. The longer proof was not carried through the ellipse bookkeeping.
- InformedRrtPlanner.InformedRrt.Plan: the trace's `Pass` records carry each pass's solved flag, ellipse and search radius as the pass saw them, and the point is tied to them through `Sampled`. `Replays` does not tie these three fields to the tree before the pass; that link is stated per pass, by `SampleStep` (the live flag and ellipse) and by `Iterate` (the live radius).
- RrtConnectPlanner.RrtConnect.Connect: requires a positive step size, as every planner in this model does. With `step_size == 0` the steered point never moves, `extend` keeps returning advanced, and the `connect` loop (`rrt_connect.py`, lines 117-145) never ends; that case is not modelled.
- RrtConnectPlanner.RrtConnect.Search: requires a positive step size, for the same reason as `Connect`, which it calls.
- RrtConnectPlanner.RrtConnect.Plan: requires a positive step size, for the same reason as `Connect`.

## Findings

| source | as written | input that shows it | evidently intended | confidence | as-written member | corrected member |
|---|---|---|---|---|---|---|
| RRTVisualizer/algorithms/rrt_star.py:135-165 | `plan` appends the new vertex, searches its neighbourhood and loops over the near vertices calling `new_cost`. The new vertex's cost is written only after that loop, and `new_cost` reads `self.costs[from_idx]` with no default. | A workspace with no obstacles, a positive search radius, and the first accepted step to any point `p`. Then the tree is `[start, p]` and the costs are `{0: 0.0}`. `p` is at distance 0 from itself, so it is among its own near vertices, and `is_collision_free(p, p)` holds because `p` is in bounds. `new_cost(1, p)` raises KeyError. | The new vertex has cost `inf` before the near search, as the nested copy and `informed_rrt.py` do, so the parent search never reads a missing cost. | not executed; high | TopRrtStar.FirstStepRaises | TopRrtStar.RrtStar.AddVertex |
| RRTVisualizer/RRTVisualizer/algorithms/rrt_connect.py:263-271 | `get_details` inherits `"nodes": len(self.vertices)`, but RRT-Connect grows only its two tree dictionaries and never `self.vertices`. | Any run that extends either tree at least once. `nodes` is reported as 1, while `plan` returns the vertices of both trees, at least 3 of them. | `nodes` counts the vertices of both trees, the list `plan` returns. | not executed; medium | RrtConnectPlanner.NodeCountMissesTrees | RrtConnectPlanner.RrtConnect.GetDetailsCorrected |
