# sbb-train-scheduler core, modelled in Dafny

This project models the constraint-propagation backtracking solver of the
SBB train-scheduling program (Java, `org.povworld.sbb` and
`org.povworld.backtrack`) and proves properties of the model. The solver
works as follows:

- Each service intention (a train) has a **route graph**. It is a DAG of
  sections between a synthetic source and sink, with topological node and
  edge orders, path enumeration, a marker index and a gap-filled
  edge-to-resource index (`RouteGraphs`, `GapFilling`, `Paths`,
  `RouteGroups`).
- Each intention has **graph constraints**: earliest-entry and latest-exit
  bounds for every edge, a set of infeasible edges and a penalty budget.
  They are tightened monotonically by forward and backward sweeps along
  topological orders (`Constraints`, `ConstraintsBuilder`, `TimeBounds`,
  `PenaltyTimes`, `Occupation`).
- Resource occupations are traced from the graph as contiguous stretches
  of edges holding one resource (`ResourceOccupations`).
- Each resource has a **resource plan**. It merges all intentions' occupation
  intervals, detects conflicts and builds the candidate **conflict
  schedules**: push an intention after, push it before, or drop edges
  (`ResourcePlans`, `Schedules`, `Restrictions`, `RestrictionQueues`).
- **Connections** between trains are judged by a late-probability model and
  enforced by restrictions (`ConnectionOccupations`).
- The **state changer** applies a schedule to a copy-on-write state. It
  drains the restriction queue, syncs the resource plans, applies connection
  restrictions and tightens the penalty budgets (`Stores`, `Executors`,
  `Options`).
- The **backtracking directors** pick the worst conflict, try its options in
  order and unwind on dead ends. Variants collect hard conflicts, prefer
  recently backtracked conflicts, or boost and jump (`Directors`,
  `Boosters`, `CountingExecutors`).
- The leaves are the time parsing and formatting of `TimeUtil`, the
  printing and tolerance helpers of `Util`, and the release-time
  `ResourceAllocator` (`TimeUtil`, `Util`, `Allocation`).

Java objects whose fields are updated in place are Dafny classes with
`modifies` frames. Immutable Java values are datatypes. Persistent maps
and sets are `map`/`set` fields that the methods reassign. Loops are
`while` loops with invariants. The loops that compute a value are proved
against a specification function that the lemmas reason about. The
worklist loops of the state changer and the directors
(`ApplyConnectionConstraints`, `UpdateAll`, `LimitAll`, `DrainQueue`,
`SyncAllResourcePlans`, `Work`, `CollectingBacktrack`, `TryApply`) are
specified instead by the invariants they keep and the facts stated in
their rows.

Modelling conventions:

- `double` is exact `real`, and an infinite penalty is `Inf`.
- Java `int` division truncates (`Common.JavaDiv`). Wrap-around is written
  out where the source relies on it.
- An exception on realistic input is an explicit `Thrown` (or `None`)
  outcome. An exception that the source treats as a caller error is a
  `requires`; those are listed below.
- A topological order from the org.povworld.collection library (not part of this model) is an input that
  must be a valid order.
- A loop that the source does not bound carries a `fuel` parameter and an
  `OutOfFuel` outcome.

Two similar code paths treat an empty section marker differently, and the
model keeps the difference as written:

- The requirement map built in `GraphConstraints.Builder`
  (GraphConstraints.java:953-961) keeps requirements whose section marker
  is the empty string.
- `GraphResourceOccupations.findEdgeMinDurations`
  (GraphResourceOccupations.java:102-124) skips those requirements.

## Model

| member | source | states |
|---|---|---|
| TimeUtil.ParseTime | src/org/povworld/sbb/TimeUtil.java:9-22 | the loop over the colons returns exactly the value `TimeValue` assigns to the string, and throws (None) on the empty string |
| TimeUtil.FieldBefore | src/org/povworld/sbb/TimeUtil.java:16-18 | one colon: the two characters in front of it are parsed and accumulated as `60 * seconds + field`, or the parse throws |
| TimeUtil.LastField | src/org/povworld/sbb/TimeUtil.java:20 | after the last colon the rest of the string is the last field |
| TimeUtil.ParseClockTime | src/org/povworld/sbb/TimeUtil.java:13-21 | "HH:MM:SS" with two-digit fields parses to 3600·HH + 60·MM + SS |
| TimeUtil.LeadingHourCharactersIgnored | src/org/povworld/sbb/TimeUtil.java:16-17 | only the two characters in front of a colon are read, so a leading extra hour digit is dropped |
| TimeUtil.ParseDuration | src/org/povworld/sbb/TimeUtil.java:24-29 | the empty duration is 0 seconds; any other is the (int-cast) seconds of the ISO duration |
| TimeUtil.UnparseTimeFields | src/org/povworld/sbb/TimeUtil.java:31-37 | unparseTime prints hours, minutes and seconds as two zero-padded digits each, joined by colons |
| TimeUtil.ClockDecomposition | src/org/povworld/sbb/TimeUtil.java:32-35 | hours, minutes and seconds computed with `/` and `%` are in range and recombine to the time |
| TimeUtil.ParseUnparseRoundTrip | src/org/povworld/sbb/TimeUtil.java:9-37 | parseTime(unparseTime(t)) == t for every 0 <= t < 100 hours |
| Util.WeightEquals | src/org/povworld/sbb/Util.java:63-65 | equal exactly when the difference lies strictly between -WEIGHT_EPS and WEIGHT_EPS |
| Util.WeightEqualsSymmetric | src/org/povworld/sbb/Util.java:63-65 | the weight comparison is reflexive and symmetric |
| Util.PenaltyEquals | src/org/povworld/sbb/Util.java:67-73 | an infinite first penalty equals only an infinite one; a finite first penalty equals p2 exactly when p2 is finite and -PENALTY_EPS < p1 - p2 < PENALTY_EPS; reflexive |
| Util.PenaltyLess | src/org/povworld/sbb/Util.java:79-81 | holds for every p1 <= p2 except Infinity against Infinity (NaN); holds only for a finite p1; for finite values exactly when p1 - p2 < PENALTY_EPS, and always for a finite p1 against Infinity |
| Util.SortInts | src/org/povworld/sbb/Util.java:22-28 | the path ids sorted ascending: sorted and a permutation of the input |
| Util.SortedIdsFromPaths | src/org/povworld/sbb/Util.java:22-32 | every id of the sorted list is the id of one of the paths |
| Util.Runs | src/org/povworld/sbb/Util.java:29-54 | the first run starts at the first id and the last run ends at the last id; no run is empty, and there are runs exactly when there are ids |
| Util.RunsPartition | src/org/povworld/sbb/Util.java:33-49 | the runs, each read as first, first+1, ..., last, concatenate back to exactly the ids in order |
| Util.RunsMaximal | src/org/povworld/sbb/Util.java:34-46 | no run ends just before its neighbour starts, so no two runs could be joined |
| Util.RunsSeparated | src/org/povworld/sbb/Util.java:34-46 | over strictly increasing ids, neighbouring runs are separated by a gap of more than one |
| Util.ExtendRun | src/org/povworld/sbb/Util.java:33-35 | an id that follows the last id extends the open run and prints nothing |
| Util.StartRun | src/org/povworld/sbb/Util.java:36-48 | any other id closes the open run (with "-last" when it was merged) and prints "/id" |
| Util.CloseRun | src/org/povworld/sbb/Util.java:51-54 | the final "-last" is printed exactly when the last run is longer than one id |
| Util.PrintRuns | src/org/povworld/sbb/Util.java:29-54 | the loop prints exactly the rendering of the runs of the sorted ids |
| Util.PathIdsString | src/org/povworld/sbb/Util.java:20-61 | pathIdsString returns the run rendering, or "/*(n)" when that text is longer than 30 characters |
| RouteGroups.RouteGroup.constructor | src/org/povworld/sbb/RouteGroup.java:13-19 | the group holds the distinct initial paths; an empty collection is refused |
| RouteGroups.RouteGroup.BoostedWeight | src/org/povworld/sbb/RouteGroup.java:21-23 | the boosted weight times the number of distinct paths is the boost |
| RouteGroups.RouteGroup.AddPath | src/org/povworld/sbb/RouteGroup.java:29-33 | a new path joins the set and the size grows by one; a path already present throws and nothing changes |
| RouteGroups.RouteGroup.EmptyIffSizeZero | src/org/povworld/sbb/RouteGroup.java:39-49 | isEmpty iff size is 0, so a group built by the constructor is never empty |
| TimeUtil.TmaxIsThirtyHours | src/org/povworld/sbb/GraphConstraints.java:33 | TMAX is the value parseTime gives "30:00:00" |
| Util.InsertSorted | src/org/povworld/sbb/Util.java:22-28 | inserting into a sorted list adds the element and keeps the list sorted |
| Util.AddToRuns | src/org/povworld/sbb/Util.java:33-49 | one more id extends the last run when it follows on, and otherwise opens a new run of just that id |
| Util.PrintStep | src/org/povworld/sbb/Util.java:32-49 | one iteration keeps the printed text, the last id and the merged flag in step with the runs of the ids seen so far |
| Util.PrintDone | src/org/povworld/sbb/Util.java:51-54 | closing the open run after the last id gives exactly the rendering of the runs |
| Paths.Path.constructor | src/org/povworld/sbb/Path.java:20-24 | a path holds its id, its edges in order and its penalty |
| RouteGraphs.Next | src/org/povworld/sbb/RouteGraph.java:49-51 | every edge listed as leaving a node starts at that node |
| RouteGraphs.Previous | src/org/povworld/sbb/RouteGraph.java:45-47 | every edge listed as entering a node ends at that node |
| RouteGraphs.NextComplete | src/org/povworld/sbb/RouteGraph.java:49-51 | the next list holds every edge leaving the node, each once, in creation order |
| RouteGraphs.PreviousComplete | src/org/povworld/sbb/RouteGraph.java:45-47 | the previous list holds every edge entering the node, each once, in creation order |
| RouteGraphs.AppendEdgeAdjacency | src/org/povworld/sbb/RouteGraph.java:303-308 | a new edge is appended to its start node's next list and its end node's previous list; all other lists stay as they were |
| RouteGraphs.Pos | src/org/povworld/sbb/RouteGraph.java:185-195 | a node's position in the topological order holds that node |
| RouteGraphs.IndexEdgesByMarker | src/org/povworld/sbb/RouteGraph.java:166-183 | an edge is indexed exactly under its first section marker; an edge whose section has no marker is not indexed |
| RouteGraphs.ChainMovesForward | src/org/povworld/sbb/RouteGraph.java:185-195 | in a topologically sorted graph the nodes along a chain of edges move strictly forward |
| RouteGraphs.ChainDistinct | src/org/povworld/sbb/RouteGraph.java:257-271 | so a chain of edges never uses the same edge twice, and the path recursion terminates |
| RouteGraphs.GeneratePathsFrom | src/org/povworld/sbb/RouteGraph.java:257-271 | the paths already found are kept; the new paths, numbered by their position, are exactly the chains the prefix emits (it continues the prefix, reaches the sink with its last edge only, keeps its running penalty within maxPenalty after every added edge) and every such chain is among them, each carrying the prefix penalty plus its later section penalties |
| RouteGraphs.GenerateThroughNexts | src/org/povworld/sbb/RouteGraph.java:263-270 | the loop over the next edges of a prefix not at the sink lists exactly the chains the prefix emits |
| RouteGraphs.EmittedAtSink | src/org/povworld/sbb/RouteGraph.java:258-261 | a prefix that ends at the sink emits itself and no other chain |
| RouteGraphs.ExtendedPath | src/org/povworld/sbb/RouteGraph.java:264-269 | a chain emitted through a next edge within maxPenalty is also emitted by the shorter prefix, with the same total penalty |
| RouteGraphs.EmittedThroughNext | src/org/povworld/sbb/RouteGraph.java:263-269 | conversely a chain that a prefix not at the sink emits goes on through one of its next edges, that edge passes the penalty test, and the longer prefix emits the chain |
| RouteGraphs.StartedAtSource | src/org/povworld/sbb/RouteGraph.java:251-253 | a chain emitted from a single source edge is a complete source-to-sink path that generatePaths lists |
| RouteGraphs.GeneratePaths | src/org/povworld/sbb/RouteGraph.java:245-271 | the paths, numbered 0, 1, 2, ..., are complete paths within the penalty budget, and every complete path within the budget is among them; they are distinct objects; the route group holds exactly these paths and exists iff at least one path was found |
| RouteGraphs.SectionSets | src/org/povworld/sbb/RouteGraph.java:351-355 | the occupation map before gap filling has one entry per edge |
| RouteGraphs.SectionResources | src/org/povworld/sbb/RouteGraph.java:351-355 | the first loop puts each edge's section resources into the map |
| RouteGraphs.Union | src/org/povworld/sbb/RouteGraph.java:348-390 | every edge's resources are among all the resources of the map |
| RouteGraphs.HeldWithin | src/org/povworld/sbb/RouteGraph.java:363-387 | the resources held along part of a path are among the known resources |
| RouteGraphs.FillKeepsBounds | src/org/povworld/sbb/RouteGraph.java:358-388 | filling one path keeps every edge between its section resources and the known resources |
| RouteGraphs.FillAllGaps | src/org/povworld/sbb/RouteGraph.java:357-390 | the result is the fill of the paths one after another, each filling the map the previous ones left, in an order that lists every path of the set exactly once; no edge has lost a resource, none has one no section names, and an edge on no path keeps exactly its section's resources |
| RouteGraphs.ChainGrows | src/org/povworld/sbb/RouteGraph.java:294-299 | one more section keeps the added edges a chain and every exit marker naming its edge's end node |
| RouteGraphs.Builder.constructor | src/org/povworld/sbb/RouteGraph.java:273-285 | a new builder has no named nodes, no start or end nodes, no edges, and hands out node ids from 0 |
| RouteGraphs.Builder.GetNode | src/org/povworld/sbb/RouteGraph.java:310-321 | an empty marker always gives a fresh node; a known marker gives its node again and changes nothing; a new marker gives a fresh node remembered under it; fresh nodes take the next id |
| RouteGraphs.Builder.CreateEdge | src/org/povworld/sbb/RouteGraph.java:303-308 | the edge from `from` to `to` is appended to the edge list and nothing else changes |
| RouteGraphs.Builder.AddSection | src/org/povworld/sbb/RouteGraph.java:295-298 | one section adds one edge from the current node to the node of its exit marker; the marker names that node afterwards and earlier names keep their nodes |
| RouteGraphs.Builder.AddSections | src/org/povworld/sbb/RouteGraph.java:294-299 | the loop adds one edge per section, chained from the first node to the last, with every exit marker naming its node |
| RouteGraphs.Builder.Add | src/org/povworld/sbb/RouteGraph.java:287-301 | a route path without sections throws and changes nothing; otherwise its sections become a chain of new edges, the first node becomes a start node and the last an end node |
| RouteGraphs.SourceEdges | src/org/povworld/sbb/RouteGraph.java:324-328 | a source edge goes into every start node without previous edges, and into no other node |
| RouteGraphs.SinkEdges | src/org/povworld/sbb/RouteGraph.java:330-334 | a sink edge leaves every end node without next edges, and no other node |
| RouteGraphs.PreviousUnchanged | src/org/povworld/sbb/RouteGraph.java:330-334 | sink edges leave every previous list as it was, so the start nodes' test is unaffected |
| RouteGraphs.NextUnchanged | src/org/povworld/sbb/RouteGraph.java:324-328 | source edges leave every next list as it was |
| RouteGraphs.Builder.Build | src/org/povworld/sbb/RouteGraph.java:323-337 | build keeps the added edges, adds a source edge into every start node without previous edges and a sink edge out of every end node without next edges and nothing else, and gives a graph of them exactly when the library's orders are orders of these edges and some source-to-sink path exists; that graph carries those orders |
| RouteGraphs.FirstToSink | src/org/povworld/sbb/RouteGraph.java:358 | any source-to-sink path has a prefix that generatePaths lists without a penalty bound, so a graph with a path never gets an empty route group |
| RouteGraphs.NewRouteGraph | src/org/povworld/sbb/RouteGraph.java:145-155 | there is a graph exactly when both orders are orders of the edges and some source-to-sink path exists; it holds the edges, the given orders, the marker index and the filled occupations: the fill, in some order, of every source-to-sink chain (up to its first sink edge) and of nothing else, each edge's set between its own section's resources and all resources named |
| RouteGraphs.BuildRoute | src/org/povworld/sbb/RouteGraph.java:340-346 | a route with a path without sections throws; otherwise there is a graph exactly when the sorted orders of the built edges are orders of them and a source-to-sink path exists, and it has the route's id, those edges (at least one per section) and the sorted order |
| RouteGraphs.TotalSectionsStep | src/org/povworld/sbb/RouteGraph.java:342-344 | each route path adds its sections to the count |
| GapFilling.HeldHas | src/org/povworld/sbb/RouteGraph.java:363-365 | a resource held at some position is held within any stretch containing it |
| GapFilling.HeldWitness | src/org/povworld/sbb/RouteGraph.java:363-365 | a resource held within a stretch is held at some position of it |
| GapFilling.ExitStep | src/org/povworld/sbb/RouteGraph.java:366-383 | occupationExit of a resource seen before is one past a position holding it; handling the resource moves its exit to node + 1 |
| GapFilling.AddAlong | src/org/povworld/sbb/RouteGraph.java:372-374 | the resource is added to the edges at positions exit .. node-1 of the path and every other edge stays as it was |
| GapFilling.FillStep | src/org/povworld/sbb/RouteGraph.java:366-379 | a resource met again fills the edges since its last exit, and the map matches the closed-form filling with the resource handled |
| GapFilling.FirstSeenStep | src/org/povworld/sbb/RouteGraph.java:380-383 | a resource met for the first time changes nothing on the edges before it |
| GapFilling.NodeStep | src/org/povworld/sbb/RouteGraph.java:385-386 | once every resource of an edge is handled, the filling is complete up to that edge |
| GapFilling.HandleResource | src/org/povworld/sbb/RouteGraph.java:364-384 | one resource of the current edge is handled: a known resource fills the gap since its last exit and moves its exit; a new one gets its entry and exit |
| GapFilling.SomeLeft | src/org/povworld/sbb/RouteGraph.java:364 | while some resource of the edge is unhandled, one can be picked |
| GapFilling.HandleEdge | src/org/povworld/sbb/RouteGraph.java:363-387 | after every resource of the current edge is handled, the filling is complete through that edge and the exits track it |
| GapFilling.FillGaps | src/org/povworld/sbb/RouteGraph.java:358-388 | each edge of one path gains exactly the resources held both before and after it on the path; edges off the path are untouched; the whole map is the closed-form fill of that path |
| GapFilling.FilledIsContiguous | src/org/povworld/sbb/RouteGraph.java:357-388 | after filling, every resource is held on a contiguous stretch of the path, and no edge has lost a resource |
| Occupation.RestrictedIffNotCovering | src/org/povworld/sbb/OccupationTimes.java:20-22 | an interval restricts an occupation window exactly when it does not cover [entryEarliest, exitLatest] |
| Occupation.RestrictionMonotone | src/org/povworld/sbb/OccupationTimes.java:20-22 | narrowing a restricting interval keeps it restricting |
| PenaltyTimes.FirstAtLeast | src/org/povworld/sbb/PenaltyTimeSet.java:22-25 | the insertion point is the first index whose time is at least the new time, or the end |
| PenaltyTimes.FirstIndexOf | src/org/povworld/sbb/PenaltyTimeSet.java:38-41 | the search stops at the first index holding the old time |
| PenaltyTimes.Shifted | src/org/povworld/sbb/PenaltyTimeSet.java:29-35 | every time is moved earlier by the delta, and the size is kept |
| PenaltyTimes.ElementwiseMax | src/org/povworld/sbb/PenaltyTimeSet.java:74-77 | each position holds the later of the two times |
| PenaltyTimes.PenaltyTimeSet.constructor | src/org/povworld/sbb/PenaltyTimeSet.java:17-19 | a new set holds the single time maxTime |
| PenaltyTimes.PenaltyTimeSet.FromArray | src/org/povworld/sbb/PenaltyTimeSet.java:13-15 | the set wraps the given array |
| PenaltyTimes.PenaltyTimeSet.With | src/org/povworld/sbb/PenaltyTimeSet.java:21-27 | with returns a copy with maxTime inserted in front of the first time >= maxTime |
| PenaltyTimes.PenaltyTimeSet.Subtract | src/org/povworld/sbb/PenaltyTimeSet.java:29-35 | subtract returns a copy with every time moved earlier by timeDelta |
| PenaltyTimes.PenaltyTimeSet.Replaced | src/org/povworld/sbb/PenaltyTimeSet.java:37-47 | replaced returns the sorted copy with the first occurrence of oldTime changed to newTime |
| PenaltyTimes.PenaltyTimeSet.Delay | src/org/povworld/sbb/PenaltyTimeSet.java:49-55 | delay is the seconds by which the time exceeds the leading times below it, in minutes |
| PenaltyTimes.PenaltyTimeSet.MaximumTime | src/org/povworld/sbb/PenaltyTimeSet.java:57-67 | maximumTime spends the penalty budget on the weighted gaps and spreads the rest over the times |
| PenaltyTimes.Min | src/org/povworld/sbb/PenaltyTimeSet.java:69-79 | without a second set the first is returned; otherwise the elementwise maximum of two sets of equal size |
| PenaltyTimes.InsertedSorted | src/org/povworld/sbb/PenaltyTimeSet.java:21-27 | with keeps a sorted set sorted and adds exactly the one time (as a multiset) |
| PenaltyTimes.ShiftedSorted | src/org/povworld/sbb/PenaltyTimeSet.java:29-35 | subtract keeps a set sorted |
| PenaltyTimes.ReplacedSorted | src/org/povworld/sbb/PenaltyTimeSet.java:37-47 | replaced gives a sorted set of the same size holding newTime in place of one oldTime |
| PenaltyTimes.LeadingDelayIsTotal | src/org/povworld/sbb/PenaltyTimeSet.java:49-55 | on a sorted set the delay summed up to the first later time is the delay beyond every earlier time |
| PenaltyTimes.NoDelayBelowFirst | src/org/povworld/sbb/PenaltyTimeSet.java:49-55 | a time no later than every time of the set has no delay |
| PenaltyTimes.DelayBeforeFirstIsZero | src/org/povworld/sbb/PenaltyTimeSet.java:49-55 | on a sorted set a time no later than the first time has no delay |
| PenaltyTimes.SpreadBounds | src/org/povworld/sbb/PenaltyTimeSet.java:62-66 | spreading a non-negative budget over the times never yields more than budget · 60 seconds |
| PenaltyTimes.MaximumTimeBounds | src/org/povworld/sbb/PenaltyTimeSet.java:57-67 | for a sorted set and a non-negative budget, maximumTime lies between the first time and the first time plus the whole budget in seconds |
| PenaltyTimes.MaximumTimeSingle | src/org/povworld/sbb/PenaltyTimeSet.java:57-67 | for a single time, maximumTime spends the whole budget and its delay stays within the budget |
| PenaltyTimes.ElementwiseMaxBounds | src/org/povworld/sbb/PenaltyTimeSet.java:69-79 | min's result bounds both sets from above, position by position, and is sorted when both are |
| Restrictions.Restriction.RestrictionInterval | src/org/povworld/sbb/IntentionRestriction.java:47-156 | [minTime, TMAX] for a raised minimum, [0, maxTime] for a lowered maximum, and none exactly for an infeasibility mark |
| Restrictions.SameRestrictionIsEquality | src/org/povworld/sbb/IntentionRestriction.java:66-79 | the chained Java equality of restrictions holds exactly for equal values |
| Restrictions.Merge | src/org/povworld/sbb/IntentionRestriction.java:215-221 | the first mark of an intention is taken as is; a further one unites the edge sets; the result is a mark of the same intention and never has an empty edge set |
| Restrictions.MergeCommutes | src/org/povworld/sbb/IntentionRestriction.java:215-221 | merging two marks of one intention in either order gives the same mark |
| RestrictionQueues.PrefixStep | src/org/povworld/sbb/IntentionRestrictionQueue.java:44-48 | one more restriction of the list grows the time restrictions or the marked intentions by it |
| RestrictionQueues.RestrictionQueue.constructor | src/org/povworld/sbb/IntentionRestrictionQueue.java:17-20 | a new queue is empty and has popped nothing |
| RestrictionQueues.RestrictionQueue.EmptyIffNothingPending | src/org/povworld/sbb/IntentionRestrictionQueue.java:22-24 | isEmpty holds exactly when no restriction is pending |
| RestrictionQueues.RestrictionQueue.Add | src/org/povworld/sbb/IntentionRestrictionQueue.java:30-37 | an infeasibility mark is merged into its intention's slot; any other restriction joins its intention's set; the popped count is kept |
| RestrictionQueues.RestrictionQueue.AddInfeasible | src/org/povworld/sbb/IntentionRestrictionQueue.java:39-42 | the intention's slot holds the merge of its previous mark and the new one; nothing else changes |
| RestrictionQueues.RestrictionQueue.TimeRestrictionAdded | src/org/povworld/sbb/IntentionRestrictionQueue.java:35 | putting a time restriction into its intention's set adds exactly it to the pending time restrictions |
| RestrictionQueues.RestrictionQueue.AddAll | src/org/povworld/sbb/IntentionRestrictionQueue.java:44-48 | afterwards every time restriction of the list is pending, and exactly the intentions marked before or in the list have a mark |
| RestrictionQueues.RestrictionQueue.Pop | src/org/povworld/sbb/IntentionRestrictionQueue.java:50-63 | a pending mark is popped whenever there is one, otherwise a pending time restriction; the result was pending and leaves the queue, and the popped count grows by one |
| RestrictionQueues.RemoveFrom | src/org/povworld/sbb/IntentionRestrictionQueue.java:60 | the value leaves its key's set, a key whose set empties leaves the map, and other keys are untouched |
| Schedules.Badness.Push | src/org/povworld/sbb/ConflictSchedule.java:24-26 | the pushed value becomes the first, most significant component and the old vector follows it |
| Schedules.Badness.CompareTo | src/org/povworld/sbb/ConflictSchedule.java:37-48 | the loop returns the comparison of the two vectors (first pair at least BADNESS_EPS apart decides, otherwise 0) |
| Schedules.CompareFrom | src/org/povworld/sbb/ConflictSchedule.java:41-47 | the comparison is -1, 0 or 1 |
| Schedules.CompareFromZeroIff | src/org/povworld/sbb/ConflictSchedule.java:41-46 | from index i on, the comparison is 0 exactly when all later pairs are within BADNESS_EPS |
| Schedules.CompareZeroIff | src/org/povworld/sbb/ConflictSchedule.java:37-48 | compareTo is 0 exactly when every pair of components differs by less than BADNESS_EPS |
| Schedules.FirstDifferenceDecidesFrom | src/org/povworld/sbb/ConflictSchedule.java:41-47 | from index i on, the first pair at least BADNESS_EPS apart decides, -1 when the first vector's component is smaller |
| Schedules.FirstDifferenceDecides | src/org/povworld/sbb/ConflictSchedule.java:37-48 | the first pair at least BADNESS_EPS apart decides the comparison, -1 when the first vector's component is smaller |
| Schedules.CompareReflexive | src/org/povworld/sbb/ConflictSchedule.java:37-48 | every vector compares equal to itself |
| Schedules.CompareFromAntisymmetric | src/org/povworld/sbb/ConflictSchedule.java:41-47 | from index i on, swapping the operands negates the comparison |
| Schedules.CompareAntisymmetric | src/org/povworld/sbb/ConflictSchedule.java:37-48 | compareTo(x, y) == -compareTo(y, x) |
| Schedules.PushIsMostSignificant | src/org/povworld/sbb/ConflictSchedule.java:24-26 | after pushing onto two vectors, the pushed values decide when they are BADNESS_EPS apart and the old vectors decide otherwise |
| Schedules.CompareFromShift | src/org/povworld/sbb/ConflictSchedule.java:41-47 | comparing behind a pushed pair is comparing the old vectors |
| Schedules.ConflictSchedule.WithBadness | src/org/povworld/sbb/ConflictSchedule.java:72-74 | withBadness keeps the restrictions, so the schedule stays equal, and pushes the value onto the badness |
| Schedules.Unscored | src/org/povworld/sbb/ConflictSchedule.java:59-61 | the list-only constructor keeps the list and gives an empty badness vector |
| Schedules.Scored | src/org/povworld/sbb/ConflictSchedule.java:63-65 | the constructor with one value gives a badness vector of that value alone |
| Schedules.ScoringKeepsIdentity | src/org/povworld/sbb/ConflictSchedule.java:81-104 | equality looks at the restrictions only: an unscored copy equals the schedule, and pushing a badness value keeps it equal to exactly the schedules it was equal to |
| Allocation.LargestExists | src/org/povworld/sbb/ResourceAllocator.java:46 | every finite set of keys holding some key has a largest one |
| Allocation.SmallestExists | src/org/povworld/sbb/ResourceAllocator.java:47 | every finite set of keys holding some key has a smallest one |
| Allocation.FloorExists | src/org/povworld/sbb/ResourceAllocator.java:46 | a map with a key at or below x has a floor entry for x |
| Allocation.CeilingExists | src/org/povworld/sbb/ResourceAllocator.java:47 | a map with a key at or above x has a ceiling entry for x |
| Allocation.ResourceAllocator.constructor | src/org/povworld/sbb/ResourceAllocator.java:32-39 | the two sentinel blocks (Integer.MIN_VALUE, -releaseTime) and (TMAX + releaseTime, Integer.MAX_VALUE), computed in int arithmetic; blocks are in order with their gaps for 0 <= releaseTime <= Integer.MAX_VALUE - TMAX |
| Allocation.ResourceAllocator.Occupy | src/org/povworld/sbb/ResourceAllocator.java:45-64 | on success the block is stored under its start, on failure nothing changes; for start <= end without overflow, occupy succeeds exactly when the block keeps the release gap to every block, and blocks stay in order with their gaps |
| Allocation.ResourceAllocator.FloorRejects | src/org/povworld/sbb/ResourceAllocator.java:48-54 | a floor block ending less than releaseTime before the start means the block does not fit |
| Allocation.ResourceAllocator.CeilingRejects | src/org/povworld/sbb/ResourceAllocator.java:55-61 | a ceiling block starting less than releaseTime after the end means the block does not fit |
| Allocation.ResourceAllocator.AcceptedFits | src/org/povworld/sbb/ResourceAllocator.java:45-63 | passing both tests means the block keeps the release gap to every block |
| Allocation.ResourceAllocator.AcceptedValid | src/org/povworld/sbb/ResourceAllocator.java:62-63 | storing a fitting block keeps the blocks in order with their gaps |
| TimeBounds.TimeConstraint.WithEntryEarliest | src/org/povworld/sbb/GraphConstraints.java:51-56 | the entry bound only rises, to the time when that is later, and the exit bound is kept; a time that is not later gives back the same window |
| TimeBounds.TimeConstraint.WithExitLatest | src/org/povworld/sbb/GraphConstraints.java:58-63 | the exit bound only falls, to the time when that is earlier, and the entry bound is kept; a time that is not earlier gives back the same window |
| TimeBounds.WithersCompose | src/org/povworld/sbb/GraphConstraints.java:51-63 | raising the entry bound twice raises it to the later time, lowering the exit bound twice lowers it to the earlier time, and the two withers commute |
| TimeBounds.Fold | src/org/povworld/sbb/GraphConstraints.java:458-508 | a minimum query never exceeds TMAX and a maximum query is never below 0 |
| TimeBounds.Neighbours | src/org/povworld/sbb/GraphConstraints.java:458-508 | a query looks only at edges of the graph |
| TimeBounds.FoldIsExtreme | src/org/povworld/sbb/GraphConstraints.java:458-508 | each neighbour query, skipping infeasible edges, is the extreme of the start value (TMAX for a minimum, 0 for a maximum) and the feasible edges' terms (entryEarliest + minDuration, exitLatest, exitLatest - minDuration, entryEarliest) and is one of them |
| TimeBounds.FoldOfInfeasible | src/org/povworld/sbb/GraphConstraints.java:458-508 | with no feasible neighbour edge a query gives its default, TMAX or 0 |
| TimeBounds.FoldTightens | src/org/povworld/sbb/GraphConstraints.java:458-508 | tighter windows and more infeasible edges only raise the earliest bounds and only lower the latest ones |
| TimeBounds.FoldFrame | src/org/povworld/sbb/GraphConstraints.java:458-508 | a query reads only the windows of the edges it looks at |
| TimeBounds.Propagated | src/org/povworld/sbb/GraphConstraints.java:410-446 | process only tightens the window: the entry bound rises to at least the earliest incoming time unless the edge leaves the source, the exit bound falls to at most the latest outgoing time unless it enters the sink, and a bound that moves moves to exactly that time |
| TimeBounds.FeasibleCount | src/org/povworld/sbb/GraphConstraints.java:268-270 | with every infeasible edge among the n edges, n less the infeasible ones are feasible |
| TimeBounds.PotentialNonNegative | src/org/povworld/sbb/GraphConstraints.java:397-408 | the total slack of the feasible windows within [lo, hi] is never negative |
| TimeBounds.PotentialUpdate | src/org/povworld/sbb/GraphConstraints.java:410-446 | replacing one feasible window changes the total slack by the change of its slack |
| TimeBounds.HasBounds | src/org/povworld/sbb/GraphConstraints.java:397-408 | every window list has an upper bound >= TMAX on its entry bounds and a lower bound <= 0 on its exit bounds |
| TimeBounds.PropagatedBounded | src/org/povworld/sbb/GraphConstraints.java:410-446 | a propagation step keeps the windows within those bounds and, when it changes a window, lowers its slack |
| TimeBounds.StepTightens | src/org/povworld/sbb/GraphConstraints.java:410-455 | one process step only tightens windows and only adds infeasible edges |
| TimeBounds.StepDecreases | src/org/povworld/sbb/GraphConstraints.java:397-455 | the edge updater's worklist loop terminates: a step that changes anything removes a feasible edge or lowers the non-negative total slack |
| TimeBounds.Legs | src/org/povworld/sbb/GraphConstraints.java:174-237 | one leg per flow edge, holding that edge's window, minimum duration and neighbour bounds |
| TimeBounds.LastIndex | src/org/povworld/sbb/GraphConstraints.java:182-184 | the last position of the edge in the flow, or -1 exactly when it is not in the flow |
| TimeBounds.FirstIndex | src/org/povworld/sbb/GraphConstraints.java:234-236 | the first position of the edge in the flow, or -1 exactly when it is not in the flow |
| TimeBounds.ForwardStep | src/org/povworld/sbb/GraphConstraints.java:180-192 | one forward step takes max(current, entryEarliest) + minDuration and then the earliest outgoing time if that is later |
| TimeBounds.BackwardStep | src/org/povworld/sbb/GraphConstraints.java:221-232 | one backward step takes min(current, exitLatest) - minDuration and then the latest incoming time if that is earlier |
| TimeBounds.FlowWeightStep | src/org/povworld/sbb/GraphConstraints.java:186-190 | a feasible flow edge leaves at least one feasible edge at its start, and the weight is divided by their number |
| TimeBounds.LastBeforeStep | src/org/povworld/sbb/GraphConstraints.java:182-184 | the forward pass keeps the last match of the start edge seen so far |
| TimeBounds.LastBeforeIsLastIndex | src/org/povworld/sbb/GraphConstraints.java:182-184 | after the whole flow, the match kept is the last position of the edge |
| TimeBounds.FirstFrom | src/org/povworld/sbb/GraphConstraints.java:223-236 | the backward pass's match lies at or after its position |
| TimeBounds.FirstFromIsFirstIndex | src/org/povworld/sbb/GraphConstraints.java:223-236 | the match the reverse pass keeps is the first position of the edge |
| TimeBounds.CountFeasiblePositive | src/org/povworld/sbb/GraphConstraints.java:702-710 | a list holding a feasible edge counts at least one feasible edge |
| TimeBounds.FlowWeightUpToPositive | src/org/povworld/sbb/GraphConstraints.java:172-190 | a positive weight stays positive through the divisions of the forward pass |
| TimeBounds.FlowWeightPositive | src/org/povworld/sbb/GraphConstraints.java:198-200 | a flow of feasible edges starting at a node of positive weight has a positive weight, so the invalid-weight check never fires |
| TimeBounds.SweptTimes | src/org/povworld/sbb/GraphConstraints.java:168-257 | swept times, when there are any, have entryEarliest <= entryLatest and exitEarliest <= exitLatest |
| TimeBounds.OccupationTimesOf | src/org/povworld/sbb/GraphConstraints.java:164-258 | getOccupationTimes gives times only when every flow edge is feasible |
| TimeBounds.ForwardNonNegative | src/org/povworld/sbb/GraphConstraints.java:173-192 | with non-negative durations the forward pass never goes below 0 |
| TimeBounds.BackwardAtMostTmax | src/org/povworld/sbb/GraphConstraints.java:214-232 | with non-negative durations the backward pass never goes above TMAX |
| TimeBounds.ForwardGrows | src/org/povworld/sbb/GraphConstraints.java:174-197 | with non-negative durations the forward pass never goes back in time |
| TimeBounds.BackwardShrinks | src/org/povworld/sbb/GraphConstraints.java:215-237 | with non-negative durations the backward pass never goes forward in time |
| TimeBounds.SweptWithinWindows | src/org/povworld/sbb/GraphConstraints.java:168-257 | the swept times lie within the start edge's entry bound, the end edge's exit bound and [0, TMAX], and leave room for the start and end edges' minimum durations |
| TimeBounds.OccupationWithinWindows | src/org/povworld/sbb/GraphConstraints.java:164-258 | getOccupationTimes stays inside the edges' windows and [0, TMAX], leaves room for the minimum durations, and gives a positive weight from a positive start weight |
| TimeBounds.SentinelCounterexample | src/org/povworld/sbb/GraphConstraints.java:211-240 | on a seven-edge graph that the edge updater leaves unchanged with no edge infeasible, the flow [1, 3] (window [0, 100] with minimum duration 1, then window [0, 0]) sweeps back to entryLatest = min(0, 100) - 1 = -1 at its first edge, so the code throws, while the sweeps' crossed bounds call for no times |
| TimeBounds.SentinelOnlyWhenCrossed | src/org/povworld/sbb/GraphConstraints.java:201-254 | with non-negative durations the code throws only where the bounds have crossed, where no times is the intended answer |
| Constraints.ExitsByTightened | src/org/povworld/sbb/GraphConstraints.java:668-670 | tightening windows and marking edges infeasible keeps every edge into a node leaving by its maximum time |
| Constraints.GraphConstraints.Init | src/org/povworld/sbb/GraphConstraints.java:107-124 | the private constructor stores every field as given, with no update due |
| Constraints.GraphConstraints.AreFeasibleMeans | src/org/povworld/sbb/GraphConstraints.java:268-270 | areFeasible holds exactly when some edge is feasible and minPenalty is within maxPenalty |
| Constraints.GraphConstraints.Query | src/org/povworld/sbb/GraphConstraints.java:458-508 | each neighbour-bound loop returns the bound over the feasible previous or next edges of the node |
| Constraints.GraphConstraints.EntryLatest | src/org/povworld/sbb/GraphConstraints.java:155-157 | getEntryLatest is the latest incoming time at the edge's start |
| Constraints.GraphConstraints.ExitEarliest | src/org/povworld/sbb/GraphConstraints.java:159-161 | getExitEarliest is the earliest outgoing time at the edge's end |
| Constraints.GraphConstraints.MarkInfeasibleNoUpdate | src/org/povworld/sbb/GraphConstraints.java:683-691 | the edge joins the infeasible set; the result is true exactly for a new edge, which also marks an update as due; the windows are kept |
| Constraints.GraphConstraints.PropagateWindow | src/org/povworld/sbb/GraphConstraints.java:414-442 | the edge's window becomes the propagated window, and edges are requeued only when it changed |
| Constraints.GraphConstraints.IsBroken | src/org/povworld/sbb/GraphConstraints.java:444-447 | the test is exactly: window shorter than the minimum duration, latest incoming before the entry bound, or earliest outgoing after the exit bound |
| Constraints.GraphConstraints.Process | src/org/povworld/sbb/GraphConstraints.java:410-455 | one process call performs one propagation step on the windows and infeasible edges, an infeasible edge changing nothing; the penalties are kept; it reports a penalty node affected exactly when the step raises the entry bound of, or marks infeasible, an edge leaving a node with a latest allowed time |
| Constraints.Repenalized | src/org/povworld/sbb/GraphConstraints.java:841-844 | a positive start penalty replaces the minimum penalty, any other leaves it |
| Constraints.GraphConstraints.UpdatePathPenalties | src/org/povworld/sbb/GraphConstraints.java:764-849 | the windows, infeasible edges and budgets are kept, and the minimum penalty becomes the start penalty of the current windows when that is positive |
| Constraints.GraphConstraints.RunEdgeUpdater | src/org/povworld/sbb/GraphConstraints.java:397-408 | the worklist loop terminates; the windows only tighten and the infeasible set only grows; when a penalty node was affected the minimum penalty is recomputed from the path penalties of the final windows, otherwise it is kept |
| Constraints.GraphConstraints.UpdateAround | src/org/povworld/sbb/GraphConstraints.java:362-379 | running the updater on the edge and its neighbours only tightens windows and only adds infeasible edges; the minimum penalty is kept or becomes the positive path penalty, and it is recomputed when the raised edge leaves a node with a latest allowed time |
| Constraints.GraphConstraints.UpdateForNewInfeasible | src/org/povworld/sbb/GraphConstraints.java:381-388 | running the updater on the neighbours of new infeasible edges only tightens windows and only adds infeasible edges; the minimum penalty is kept or becomes the positive path penalty |
| Constraints.GraphConstraints.Update | src/org/povworld/sbb/GraphConstraints.java:712-720 | only when an update is due and the constraints are feasible, the mark is cleared, every node is reported and the minimum penalty is recomputed from the path penalties; otherwise nothing changes and no node is reported |
| Constraints.GraphConstraints.ForwardVisit | src/org/povworld/sbb/GraphConstraints.java:291-306 | the visit of a feasible edge is ForwardVisited: its end is reported and, exactly when getOrDefault(start) + minDuration beats getEarliestOutgoing(end), that time is put for the end and every next edge of the end is queued; otherwise times and queue are unchanged |
| Constraints.GraphConstraints.ForwardChangeSet | src/org/povworld/sbb/GraphConstraints.java:285-308 | the change set is exactly ForwardWalk from the changed edge with its start at the new time (each queued edge taken in topological order, skipped when infeasible, else visited as ForwardVisited); it holds only ends of feasible edges, the changed edge's end among them |
| Constraints.GraphConstraints.ForwardTake | src/org/povworld/sbb/GraphConstraints.java:858-866 | one turn of Updater.run is ForwardTurn: the edge at the position is removed from the pending set and updated only when it was pending and is feasible; the pending set stays a set of edges and the change set grows only by ends of feasible edges |
| Constraints.GraphConstraints.BackwardTake | src/org/povworld/sbb/GraphConstraints.java:858-866 | the same turn over the reversed order (BackwardTurn), the change set growing only by starts of feasible edges |
| Constraints.GraphConstraints.BackwardVisit | src/org/povworld/sbb/GraphConstraints.java:332-348 | the visit of a feasible edge is BackwardVisited: its start is reported and, exactly when getOrDefault(end) - minDuration is below getLatestIncoming(start), that time is put for the start and every previous edge of the start is queued; otherwise times and queue are unchanged |
| Constraints.GraphConstraints.BackwardChangeSet | src/org/povworld/sbb/GraphConstraints.java:326-350 | the change set is exactly BackwardWalk from the changed edge with its end at the new time, in reverse topological order; it holds only starts of feasible edges, the changed edge's start among them |
| Constraints.GraphConstraints.IncreaseEarliestEntry | src/org/povworld/sbb/GraphConstraints.java:277-317 | a no-op returning no nodes for an infeasible edge or one already entering no earlier; otherwise the edge enters no earlier than the time, its start and end are reported, windows only tighten and no update is left due; the budgets are kept and the minimum penalty is kept or becomes the positive path penalty of the windows left |
| Constraints.GraphConstraints.DecreaseLatestExit | src/org/povworld/sbb/GraphConstraints.java:319-359 | a no-op returning no nodes for an infeasible edge or one already leaving no later; otherwise the edge leaves no later than the time, its start and end are reported, windows only tighten and no update is left due; the budgets are kept and the minimum penalty is kept or becomes the positive path penalty of the windows left |
| Constraints.GraphConstraints.MarkInfeasible | src/org/povworld/sbb/GraphConstraints.java:626-635 | every given edge ends up infeasible, windows only tighten and no update is left due; the budgets are kept and the minimum penalty is kept or becomes the positive path penalty of the windows left |
| Constraints.GraphConstraints.UpdateMaxTimesAt | src/org/povworld/sbb/GraphConstraints.java:657-678 | a node without a penalty time set or latest allowed time throws; otherwise every feasible edge into the node leaves by its maximum time, which is maximumTime of its set under the budget |
| Constraints.GraphConstraints.MergeBack | src/org/povworld/sbb/GraphConstraints.java:672-678 | every previous edge's start gets a penalty time set; windows and the infeasible set are kept |
| Constraints.GraphConstraints.UpdateMaxTimes | src/org/povworld/sbb/GraphConstraints.java:651-681 | every inner node, in reverse topological order, gets a maximum time that every feasible edge into it keeps |
| Constraints.GraphConstraints.SetMaxPenalty | src/org/povworld/sbb/GraphConstraints.java:638-649 | a budget not below the current one changes nothing; a smaller one becomes the budget, the maximum times are recomputed and no update is left due; the budget never rises |
| Constraints.GraphConstraints.ReadLeg | src/org/povworld/sbb/GraphConstraints.java:179-192 | what the sweeps read at one edge: its window, minimum duration and neighbour bounds |
| Constraints.GraphConstraints.ReadLegs | src/org/povworld/sbb/GraphConstraints.java:174-237 | what the sweeps read along the whole flow |
| Constraints.GraphConstraints.GetOccupationTimes | src/org/povworld/sbb/GraphConstraints.java:164-258 | none when a flow edge is infeasible or the swept times cross, otherwise the swept times with the flow's weight; a non-positive weight is reported |
| Constraints.GraphConstraints.Copy | src/org/povworld/sbb/GraphConstraints.java:134-139 | a fresh object with the same values and no update due |
| Constraints.CountFeasibleEdges | src/org/povworld/sbb/GraphConstraints.java:702-710 | the number of listed edges not in the infeasible set |
| Constraints.TimesAlong | src/org/povworld/sbb/GraphConstraints.java:168-257 | the two sweeps and the checks give exactly the swept times of the flow |
| Constraints.ForwardSweep | src/org/povworld/sbb/GraphConstraints.java:168-203 | the forward loop fails exactly when a flow edge is infeasible, and otherwise gives the earliest entry and exit and the weight |
| Constraints.WeightAlongFlow | src/org/povworld/sbb/GraphConstraints.java:172-190 | the weight of the first node divided at each flow edge by the number of feasible edges leaving its start |
| Constraints.ForwardTimes | src/org/povworld/sbb/GraphConstraints.java:173-197 | the earliest entry at the last match of the start edge and the earliest exit after the last match of the end edge |
| Constraints.BackwardSweep | src/org/povworld/sbb/GraphConstraints.java:210-240 | the latest exit at the first match of the end edge and the latest entry before the first match of the start edge |
| Constraints.TightenCopy | src/org/povworld/sbb/GraphConstraints.java:95-103 | tightening a copy leaves the original unchanged |
| Constraints.EntriesKept | src/org/povworld/sbb/IntentionRestriction.java:38-44 | edges already raised keep entering no earlier than the time as the windows tighten further |
| Constraints.ExitsKept | src/org/povworld/sbb/IntentionRestriction.java:94-100 | edges already lowered keep leaving no later than the time as the windows tighten further |
| Constraints.ApplyTo | src/org/povworld/sbb/IntentionRestriction.java:37-150 | a raised minimum leaves every one of its edges infeasible or entering no earlier than its time; a lowered maximum leaves every edge infeasible or leaving no later; a mark makes its edges infeasible; windows only tighten |
| ConstraintsBuilder.InitialWindows | src/org/povworld/sbb/GraphConstraints.java:1019-1026 | before any requirement every edge has the window [0, TMAX] |
| ConstraintsBuilder.Raised | src/org/povworld/sbb/GraphConstraints.java:1001-1003 | raising entry bounds keeps one window per edge |
| ConstraintsBuilder.RaisedTightens | src/org/povworld/sbb/GraphConstraints.java:1001-1003 | raising entry bounds tightens the windows, reaches the time on every raised edge and keeps every exit bound |
| ConstraintsBuilder.RaiseEntries | src/org/povworld/sbb/GraphConstraints.java:974-976 | the loop over the next edges gives exactly the raised windows |
| ConstraintsBuilder.RequirementPhase | src/org/povworld/sbb/GraphConstraints.java:965-987 | a successful requirement pass keeps one window per edge |
| ConstraintsBuilder.PhaseFails | src/org/povworld/sbb/GraphConstraints.java:965-987 | the requirement pass throws exactly when a given time of some edge's requirement does not parse |
| ConstraintsBuilder.EdgeStepFacts | src/org/povworld/sbb/GraphConstraints.java:966-986 | one edge's step tightens the windows, keeps every exit bound, meets the edge's earliest entry and exit, and adds exactly the nodes its latest times name |
| ConstraintsBuilder.RequirementTightened | src/org/povworld/sbb/GraphConstraints.java:966-977 | a met earliest requirement stays met as windows tighten |
| ConstraintsBuilder.PhaseWindows | src/org/povworld/sbb/GraphConstraints.java:965-987 | the requirement pass only raises entry bounds: every exit bound stays TMAX |
| ConstraintsBuilder.PhaseRespects | src/org/povworld/sbb/GraphConstraints.java:965-987 | after the pass every edge's requirement has its earliest entry and earliest exit met |
| ConstraintsBuilder.PhaseLatest | src/org/povworld/sbb/GraphConstraints.java:978-986 | a node has a latest allowed time exactly when some edge's requirement gives one for it |
| ConstraintsBuilder.NamedSplit | src/org/povworld/sbb/GraphConstraints.java:978-986 | a node named by the first k edges is named by the first k-1 or by edge k-1 |
| ConstraintsBuilder.PhaseStaysFailed | src/org/povworld/sbb/GraphConstraints.java:965-987 | once the pass has thrown it stays thrown |
| ConstraintsBuilder.PosOfDistinct | src/org/povworld/sbb/GraphConstraints.java:936 | in an order listing each node once, the node at position i is found at i |
| ConstraintsBuilder.ArrivalFrame | src/org/povworld/sbb/GraphConstraints.java:990-1004 | changing only edges out of one node leaves the earliest arrival at every earlier node as it was |
| ConstraintsBuilder.ArrivalStep | src/org/povworld/sbb/GraphConstraints.java:990-1004 | one node of the earliest-arrival loop extends the finished part by one position |
| ConstraintsBuilder.ArrivalStepAt | src/org/povworld/sbb/GraphConstraints.java:995-1003 | after one node every edge is either done, with its arrival window, or untouched |
| ConstraintsBuilder.EarliestArrival | src/org/povworld/sbb/GraphConstraints.java:995-999 | the earliest arrival at a node is min(TMAX, entryEarliest + minDuration over its previous edges) |
| ConstraintsBuilder.Builder.constructor | src/org/povworld/sbb/GraphConstraints.java:929-933 | a new builder has no requirements and the window [0, TMAX] on every edge |
| ConstraintsBuilder.Builder.CollectRequirements | src/org/povworld/sbb/GraphConstraints.java:953-961 | each requirement is put under its marker, the last one naming a marker kept; a delay weight other than 0 or 1 throws |
| ConstraintsBuilder.Builder.ApplyRequirements | src/org/povworld/sbb/GraphConstraints.java:963-987 | the edge loop succeeds exactly when the requirement pass does, and leaves its windows and latest allowed times |
| ConstraintsBuilder.Builder.ApplyEdge | src/org/povworld/sbb/GraphConstraints.java:966-986 | the body at one edge performs exactly that edge's step |
| ConstraintsBuilder.Builder.EarliestTimes | src/org/povworld/sbb/GraphConstraints.java:989-1004 | in topological order every node but the source raises its next edges' entry bounds to its earliest arrival |
| ConstraintsBuilder.Builder.Build | src/org/povworld/sbb/GraphConstraints.java:935-1017 | build throws exactly for a delay weight other than 0 or 1 or a time that does not parse; otherwise the constraints hold the built windows and latest allowed times, no infeasible edge, no penalty time sets, an infinite budget and minimum penalty 0 |
| ConstraintsBuilder.BuiltWindows | src/org/povworld/sbb/GraphConstraints.java:935-1017 | the built windows have every exit bound TMAX, entry bounds 0 or more, every requirement's earliest times met, and every edge not leaving the source entering no earlier than the earliest arrival at its start |
| ResourceOccupations.LastRequirementWins | src/org/povworld/sbb/GraphResourceOccupations.java:105-109 | a marker is keyed exactly when it is not empty and some requirement names it, and the requirement kept is the last one naming it |
| ResourceOccupations.FindRequirements | src/org/povworld/sbb/GraphResourceOccupations.java:103-109 | the loop builds exactly the requirements keyed by marker |
| ResourceOccupations.FindEdgeMinDurations | src/org/povworld/sbb/GraphResourceOccupations.java:102-124 | one duration per edge: its running time plus the stopping time of the requirement keyed by its first marker |
| ResourceOccupations.MinDurationOfEdge | src/org/povworld/sbb/GraphResourceOccupations.java:114-119 | an edge without a marker, or whose marker no requirement names, takes its running time alone; otherwise the last requirement naming the marker adds its stopping time |
| ResourceOccupations.HoldingCountBounds | src/org/povworld/sbb/GraphResourceOccupations.java:206-215 | the count of holding edges is at most their number, equals it exactly when all hold, and is 0 exactly when none does |
| ResourceOccupations.OccupyCount | src/org/povworld/sbb/GraphResourceOccupations.java:206-215 | the loop counts exactly the given edges that hold the resource |
| ResourceOccupations.BeginsByPrevious | src/org/povworld/sbb/GraphResourceOccupations.java:145-149 | build's skip test reads the graph correctly: a run of r begins at an edge exactly when its start node is the source or some edge entering it does not hold r, and no entering edge holds r exactly when the count of holding entering edges is 0 |
| ResourceOccupations.EndsByNext | src/org/povworld/sbb/GraphResourceOccupations.java:183-185 | the trace's continue test reads the graph correctly: a run of r ends at an edge exactly when its end node is the sink or some edge leaving it does not hold r |
| ResourceOccupations.TracedIndices | src/org/povworld/sbb/GraphResourceOccupations.java:57-63 | the flow index getters find the start and end edges of a traced occupation, both of which hold the resource |
| ResourceOccupations.TraceOccupations | src/org/povworld/sbb/GraphResourceOccupations.java:181-204 | the occupations traced from a flow are exactly those whose flow extends it by holding edges up to an end where the run does not pass on, stopping there when no next edge holds the resource and taking one non-holding edge otherwise, with the duration of the added run summed in |
| ResourceOccupations.CompletesThrough | src/org/povworld/sbb/GraphResourceOccupations.java:186-197 | an occupation taking the holding edge e next is one traced from the flow exactly when it is one traced from the flow extended by e with e's duration added |
| ResourceOccupations.CompletesStep | src/org/povworld/sbb/GraphResourceOccupations.java:183-203 | an occupation traced at current either stops there, and then no next edge holds the resource, or takes a next edge: through a holding one the trace goes on, and a non-holding one closes exactly the occupation ending at current on a mixed fork |
| ResourceOccupations.ContinueAll | src/org/povworld/sbb/GraphResourceOccupations.java:185-189 | when the node is not the sink and every next edge holds the resource, the loop over them yields exactly the occupations the trace yields |
| ResourceOccupations.Fork | src/org/povworld/sbb/GraphResourceOccupations.java:193-203 | on a mixed fork the loop over the next edges yields exactly the occupations the trace yields: those through the holding edges and one closing at each non-holding edge |
| ResourceOccupations.DurationSumCons | src/org/povworld/sbb/GraphResourceOccupations.java:187-188 | an edge put before a flow adds its minimum duration to the flow's sum |
| ResourceOccupations.DurationSumConcat | src/org/povworld/sbb/GraphResourceOccupations.java:187-188 | the minimum duration of two flows one after the other is the sum of theirs |
| ResourceOccupations.DurationOfRun | src/org/povworld/sbb/GraphResourceOccupations.java:187-197 | an occupation's minimum duration, the trace's sum plus the extension's, is the sum over its whole run |
| ResourceOccupations.CompletesTraced | src/org/povworld/sbb/GraphResourceOccupations.java:181-204 | every occupation a trace yields is traced: a chain holding the resource from start to end, at most one non-holding edge on each side, the run's summed minimum duration, beginning where a run begins and ending where one ends |
| ResourceOccupations.TracedOf | src/org/povworld/sbb/GraphResourceOccupations.java:57-63 | the parts of a traced occupation, with its flow start and end indices named, make it traced |
| ResourceOccupations.RunHolds | src/org/povworld/sbb/GraphResourceOccupations.java:186-197 | the trace's part of the flow and the extension hold the resource, so the whole run from start to end does |
| ResourceOccupations.StartAlone | src/org/povworld/sbb/GraphResourceOccupations.java:152-154 | the trace from the edge alone starts from a trace state |
| ResourceOccupations.StartAfter | src/org/povworld/sbb/GraphResourceOccupations.java:156-162 | the trace from a non-holding entering edge followed by the edge starts from a trace state |
| ResourceOccupations.StartsListedStep | src/org/povworld/sbb/GraphResourceOccupations.java:156-163 | one more entering edge: a holding one adds nothing and a non-holding one adds exactly the occupations traced through it |
| ResourceOccupations.AloneListed | src/org/povworld/sbb/GraphResourceOccupations.java:152-154 | when no entering edge holds the resource the trace from the edge alone lists exactly what build traces from that edge |
| ResourceOccupations.AfterListed | src/org/povworld/sbb/GraphResourceOccupations.java:155-164 | once every entering edge is taken, every occupation build traces after a non-holding entering edge is listed and nothing else |
| ResourceOccupations.EndsHere | src/org/povworld/sbb/GraphResourceOccupations.java:190-192 | when no next edge holds the resource the trace yields exactly the one occupation ending at the current edge with the flow as it is |
| ResourceOccupations.ChainAppend | src/org/povworld/sbb/GraphResourceOccupations.java:186 | appending an edge leaving the last edge's end keeps the flow a chain |
| ResourceOccupations.DurationSumAppend | src/org/povworld/sbb/GraphResourceOccupations.java:187 | appending an edge adds its minimum duration to the summed duration |
| ResourceOccupations.SuffixAppend | src/org/povworld/sbb/GraphResourceOccupations.java:186 | the run part of a flow grows by the appended edge |
| ResourceOccupations.Extended | src/org/povworld/sbb/GraphResourceOccupations.java:194-196 | appending a holding next edge keeps the trace state and moves forward in the topological order, so the trace ends |
| ResourceOccupations.EndsBefore | src/org/povworld/sbb/GraphResourceOccupations.java:198-200 | on a mixed fork the occupation ending at the current edge with the non-holding next edge appended is one the trace yields |
| ResourceOccupations.YieldsThroughHolding | src/org/povworld/sbb/GraphResourceOccupations.java:194-197 | the occupations traced through a holding next edge, added to those already listed, list every occupation taking that edge and nothing the trace does not yield |
| ResourceOccupations.YieldsThroughClosing | src/org/povworld/sbb/GraphResourceOccupations.java:198-200 | the occupation closing at a non-holding next edge, added to those already listed, lists every occupation taking that edge and nothing the trace does not yield |
| ResourceOccupations.YieldsAll | src/org/povworld/sbb/GraphResourceOccupations.java:183-203 | once every next edge has been taken the occupations listed are exactly those the trace yields |
| ResourceOccupations.TakeHolding | src/org/povworld/sbb/GraphResourceOccupations.java:186-197 | the recursive call for one holding next edge adds exactly the occupations taking that edge to those listed |
| ResourceOccupations.OccupationsAt | src/org/povworld/sbb/GraphResourceOccupations.java:144-164 | the body of build for one edge and resource yields exactly the occupations build traces from that edge: none when the node is not the source and every entering edge holds the resource, the trace from the edge alone when none does, and otherwise the traces from each non-holding entering edge |
| ResourceOccupations.OccupationTraced | src/org/povworld/sbb/GraphResourceOccupations.java:140-172 | every occupation build lists is traced |
| ResourceOccupations.RunCompletes | src/org/povworld/sbb/GraphResourceOccupations.java:181-204 | in a graph without dead ends every trace yields at least one occupation |
| ResourceOccupations.BeginsListed | src/org/povworld/sbb/GraphResourceOccupations.java:140-172 | in a graph without dead ends build lists an occupation of the resource beginning at every edge where a run of it begins |
| ResourceOccupations.Appended | src/org/povworld/sbb/GraphResourceOccupations.java:175-179 | a multimap put appends to the list at the key and leaves every other key's list |
| ResourceOccupations.ResourceIndexedAppend | src/org/povworld/sbb/GraphResourceOccupations.java:176 | putting an occupation under its resource keeps the by-resource multimap listing exactly the found occupations |
| ResourceOccupations.StartIndexedAppend | src/org/povworld/sbb/GraphResourceOccupations.java:177 | putting an occupation under its start node keeps the by-start multimap listing exactly the found occupations |
| ResourceOccupations.EndIndexedAppend | src/org/povworld/sbb/GraphResourceOccupations.java:178 | putting an occupation under its end node keeps the by-end multimap listing exactly the found occupations |
| ResourceOccupations.OccupationsBuilder.constructor | src/org/povworld/sbb/GraphResourceOccupations.java:134-138 | a new builder has no occupations and the graph's edges, occupations, order and durations |
| ResourceOccupations.OccupationsBuilder.AddOccupation | src/org/povworld/sbb/GraphResourceOccupations.java:175-179 | the occupation is appended under its resource, its start edge's start node and its end edge's end node |
| ResourceOccupations.OccupationsBuilder.AddAll | src/org/povworld/sbb/GraphResourceOccupations.java:181-204 | the occupations of one trace are added in order |
| ResourceOccupations.OccupationsBuilder.BuildEdge | src/org/povworld/sbb/GraphResourceOccupations.java:144-166 | after one edge, every occupation build traces from it is found, the found ones are still exactly occupations build lists, and earlier ones stay |
| ResourceOccupations.OccupationsBuilder.BuildNode | src/org/povworld/sbb/GraphResourceOccupations.java:143-167 | after one node, every occupation build traces from one of its next edges is found, and nothing build does not list |
| ResourceOccupations.OccupationsBuilder.Build | src/org/povworld/sbb/GraphResourceOccupations.java:140-172 | after build the occupations found are exactly those build lists, from every edge of every node in topological order |
| ResourceOccupations.Create | src/org/povworld/sbb/GraphResourceOccupations.java:98-100 | the three multimaps list exactly the found occupations, which are exactly those build traces from the edges where a run begins; each is traced; and in a graph without dead ends one begins at every edge where a run of a resource begins |
| ResourcePlans.NewIntentionInterval | src/org/povworld/sbb/ResourcePlan.java:124-146 | the constructor gives an interval exactly when its four checks pass (room for the minimum duration when entering latest and when entering earliest, ordered entry and exit bounds), and that interval holds the given fields |
| ResourcePlans.CheckedAdmitsExtremes | src/org/povworld/sbb/ResourcePlan.java:124-146 | an interval passing the checks allows entering and leaving earliest and entering and leaving latest |
| ResourcePlans.Overlappers | src/org/povworld/sbb/ResourcePlan.java:399-400 | the overlap query returns stored intervals only, and every stored interval overlapping the query |
| ResourcePlans.ConstraintInterval | src/org/povworld/sbb/ResourcePlan.java:450-467 | a constraint interval lies inside the interval's entryEarliest and exitLatest and leaves room for its minimum duration |
| ResourcePlans.ConstraintIntervalSound | src/org/povworld/sbb/ResourcePlan.java:450-467 | a placement of the interval that fits beside some placement of the conflict lies within the constraint interval, which then exists |
| ResourcePlans.RestrictedIntentionInterval | src/org/povworld/sbb/ResourcePlan.java:656-672 | no restriction gives none; a restricted interval passes the checks, keeps intention and minimum duration, and only narrows the four bounds |
| ResourcePlans.RestrictedKeepsPlacements | src/org/povworld/sbb/ResourcePlan.java:656-672 | every allowed placement that obeys the restriction, its end moved by the release time, is allowed by the restricted interval, which then exists |
| ResourcePlans.RestrictedObeys | src/org/povworld/sbb/ResourcePlan.java:656-672 | the restricted interval allows only placements the original allows and that obey the restriction |
| ResourcePlans.MergeBounds | src/org/povworld/sbb/ResourcePlan.java:341-355 | the merge takes the minimum entryEarliest, maximum entryLatest, minimum exitEarliest, maximum exitLatest and minimum duration over the occupations with a window and sums their weights; with none it is the initial values |
| ResourcePlans.TimesOfPrefix | src/org/povworld/sbb/ResourcePlan.java:343-346 | a list has an occupation with a window exactly when its front part or its last element does |
| ResourcePlans.EntriesAttained | src/org/povworld/sbb/ResourcePlan.java:341-355 | when some window lies inside [0, TMAX] the merged entry bounds are attained by some occupation |
| ResourcePlans.ExitsAttained | src/org/povworld/sbb/ResourcePlan.java:341-355 | the merged exit bounds are attained by some occupation |
| ResourcePlans.MergeChecked | src/org/povworld/sbb/ResourcePlan.java:335-391 | merged windows of flows that fit pass the interval checks, before and after the release correction, so the update never throws |
| ResourcePlans.MergeAgrees | src/org/povworld/sbb/ResourcePlan.java:341-355 | the merge depends only on the windows of the listed occupations |
| ResourcePlans.MergeOccupations | src/org/povworld/sbb/ResourcePlan.java:343-355 | the loop computes exactly the merge of the occupations' windows |
| ResourcePlans.GetOverlappingResourceOccupations | src/org/povworld/sbb/ResourcePlan.java:775-785 | the intention's occupations whose window the interval, its end moved back by the release time, restricts |
| ResourcePlans.CreateIncreaseMinTimeRestriction | src/org/povworld/sbb/ResourcePlan.java:747-754 | a raised entry at the interval's start on the start edges of the affected occupations |
| ResourcePlans.CreateDecreaseMaxTimeRestriction | src/org/povworld/sbb/ResourcePlan.java:756-763 | a lowered exit at the interval's end less the release time on the end edges of the affected occupations |
| ResourcePlans.CreateMarkInfeasibleRestriction | src/org/povworld/sbb/ResourcePlan.java:765-773 | a mark of every flow edge of every affected occupation, from its flow start index to its flow end index |
| ResourcePlans.FlowEdgesStep | src/org/povworld/sbb/ResourcePlan.java:767-771 | the flow edges of k+1 occupations are those of the first k plus those of occupation k |
| ResourcePlans.Additional | src/org/povworld/sbb/ResourcePlan.java:419-440 | at most two restrictions, all on the interval's own intention: a raised entry lies past its entryEarliest, a lowered exit before its exitLatest, and a mark only when no constraint interval remains |
| ResourcePlans.AdditionalSound | src/org/povworld/sbb/ResourcePlan.java:419-440 | when the interval fits beside some placement of the conflict no mark is emitted and the placement obeys every emitted time restriction |
| ResourcePlans.AdditionalRestrictions | src/org/povworld/sbb/ResourcePlan.java:419-440 | the restrictions built are exactly the additional ones, in order |
| ResourcePlans.CheckForAdditionalRestrictions | src/org/povworld/sbb/ResourcePlan.java:419-440 | the queue receives exactly the additional restrictions |
| ResourcePlans.AfterOption | src/org/povworld/sbb/ResourcePlan.java:683-694 | entering after the other has used the point is offered exactly when the moved interval can still enter then, as a raised entry on it |
| ResourcePlans.BeforeOption | src/org/povworld/sbb/ResourcePlan.java:696-703 | leaving before the other enters is offered exactly when the moved interval can have left by then, as a lowered exit on it |
| ResourcePlans.DropOption | src/org/povworld/sbb/ResourcePlan.java:733-744 | dropping is offered exactly for an interval not visited on all paths, as a mark on its intention |
| ResourcePlans.Candidate | src/org/povworld/sbb/ResourcePlan.java:688-694 | a present option becomes one schedule holding just that restriction |
| ResourcePlans.SchedulesForPointRestrict | src/org/povworld/sbb/ResourcePlan.java:674-745 | every candidate holds one restriction on one of the two intentions, only an interval not visited on all paths is dropped, and with both covering the point each time restriction strictly narrows the interval it moves |
| ResourcePlans.BuildConflictSchedulesForPoint | src/org/povworld/sbb/ResourcePlan.java:674-745 | the schedules are pushed in the order after, before, after, before, drop, drop |
| ResourcePlans.PushAfter | src/org/povworld/sbb/ResourcePlan.java:683-694 | at most one schedule, present when the moved interval can still enter late enough |
| ResourcePlans.PushBefore | src/org/povworld/sbb/ResourcePlan.java:696-703 | at most one schedule, present when the moved interval can have left early enough |
| ResourcePlans.PushDrop | src/org/povworld/sbb/ResourcePlan.java:733-744 | a mark of all the intention's flows unless it is visited on all paths |
| ResourcePlans.ValuesRemove | src/org/povworld/sbb/ResourcePlan.java:359-362 | removing an intention's key removes just its interval from the stored values |
| ResourcePlans.ValuesPut | src/org/povworld/sbb/ResourcePlan.java:384-388 | storing a fresh key adds its interval to the stored values |
| ResourcePlans.OthersKept | src/org/povworld/sbb/ResourcePlan.java:318-325 | changing one occupation's window keeps every other intention's stored interval in agreement with its merge |
| ResourcePlans.FromStep | src/org/povworld/sbb/ResourcePlan.java:403-408 | one more overlapping interval adds its additional restrictions when it is visited on all paths |
| ResourcePlans.ToStep | src/org/povworld/sbb/ResourcePlan.java:410-415 | one more overlapping interval adds the restrictions the updated interval forces on it |
| ResourcePlans.ScanFrom | src/org/povworld/sbb/ResourcePlan.java:403-408 | the queue receives exactly the restrictions the updated interval must obey because of the overlapping intervals visited on all paths |
| ResourcePlans.ScanTo | src/org/povworld/sbb/ResourcePlan.java:410-415 | the queue receives exactly the restrictions each overlapping interval must obey because of the updated one |
| ResourcePlans.AllFitChecked | src/org/povworld/sbb/ResourcePlan.java:335-391 | windows that all fit give a merge of non-zero weight passing the interval checks |
| ResourcePlans.EmittedSplit | src/org/povworld/sbb/ResourcePlan.java:393-416 | the time restrictions and marks of two scans add up |
| ResourcePlans.DropKeepsConsistent | src/org/povworld/sbb/ResourcePlan.java:357-364 | dropping the stored interval of an intention whose merge has weight 0 keeps every stored interval in agreement with the windows |
| ResourcePlans.PutKeepsConsistent | src/org/povworld/sbb/ResourcePlan.java:379-390 | storing the interval built from an intention's merge keeps every stored interval in agreement with the windows |
| ResourcePlans.MergedUpdate | src/org/povworld/sbb/ResourcePlan.java:335-391 | weight 0 drops the interval; the same bounds and weight report no change; otherwise the new interval replaces the old one, failing only when it does not pass the checks, which windows that all fit never do; other intentions' intervals stay |
| ResourcePlans.ResourcePlan.constructor | src/org/povworld/sbb/ResourcePlan.java:288-292 | a new plan has the given resource, release time, boost and occupations, no windows and no stored intervals |
| ResourcePlans.ResourcePlan.Copy | src/org/povworld/sbb/ResourcePlan.java:313-316 | the copy is a fresh plan with the same state |
| ResourcePlans.ResourcePlan.UpdateMergedOccupation | src/org/povworld/sbb/ResourcePlan.java:335-391 | the windows stay; the update succeeds and reports a change exactly as the merge of the intention's windows says |
| ResourcePlans.ResourcePlan.Scan | src/org/povworld/sbb/ResourcePlan.java:393-416 | the queue receives exactly the restrictions the updated interval forces on or receives from the overlapping intervals |
| ResourcePlans.ResourcePlan.Set | src/org/povworld/sbb/ResourcePlan.java:318-325 | the occupation gets the new window; the stored interval is updated, never failing when the windows fit; a changed interval is scanned and nothing is queued otherwise |
| ResourcePlans.ResourcePlan.Remove | src/org/povworld/sbb/ResourcePlan.java:327-333 | the occupation's window is removed; then as in set |
| ResourcePlans.ResourcePlan.CreateConflictSchedules | src/org/povworld/sbb/ResourcePlan.java:578-610 | fewer than two stored intervals at the point give the single empty schedule of badness 0; otherwise the schedules for the first two in density order at the range's start |
| ConnectionOccupations.AssertionsHoldIffOrdered | src/org/povworld/sbb/ConnectionOccupation.java:60-69 | the three assertions after the swap hold exactly when both the arrival and the departure window run forwards |
| ConnectionOccupations.ShareBounds | src/org/povworld/sbb/ConnectionOccupation.java:88 | the good share of the total area lies in (0, 1], below 1 when the good area is smaller |
| ConnectionOccupations.ProductNonNegative | src/org/povworld/sbb/ConnectionOccupation.java:78 | the rising part's term k * (1 - 0.5k/l) is not negative |
| ConnectionOccupations.ProductPositive | src/org/povworld/sbb/ConnectionOccupation.java:78 | and is positive for a positive k |
| ConnectionOccupations.RampCurve | src/org/povworld/sbb/ConnectionOccupation.java:78 | on a share q in (0, 1] the curve q(1 - q/2) lies between q/2 and 1/2, below 1/2 for q < 1 |
| ConnectionOccupations.ScaleBounds | src/org/povworld/sbb/ConnectionOccupation.java:78 | the scaled curve lies in (0, l/2] |
| ConnectionOccupations.RampBounds | src/org/povworld/sbb/ConnectionOccupation.java:76-79 | the rising part's good area lies in (0, A], below A for k < l |
| ConnectionOccupations.RampMonotone | src/org/povworld/sbb/ConnectionOccupation.java:76-79 | the rising part's good area shrinks as the minimum connection time grows |
| ConnectionOccupations.TailBounds | src/org/povworld/sbb/ConnectionOccupation.java:82-86 | the falling part's good area lies in (0, C], below C for k < l |
| ConnectionOccupations.TailMonotone | src/org/povworld/sbb/ConnectionOccupation.java:82-86 | the falling part's good area shrinks as the minimum connection time grows |
| ConnectionOccupations.GoodAreaBounds | src/org/povworld/sbb/ConnectionOccupation.java:72-86 | the good area lies strictly inside (0, A + B + C), above B + C in the rising part, in (C, B + C] in the flat part and in (0, C] in the falling part |
| ConnectionOccupations.GoodAreaMonotone | src/org/povworld/sbb/ConnectionOccupation.java:72-86 | a longer minimum connection time never leaves more good area |
| ConnectionOccupations.ShareMonotone | src/org/povworld/sbb/ConnectionOccupation.java:88 | a smaller part is a smaller share of the same whole |
| ConnectionOccupations.LateProbability | src/org/povworld/sbb/ConnectionOccupation.java:47-89 | 0 when even the safe time suffices, 1 when even the optimistic time does not, strictly between otherwise |
| ConnectionOccupations.LateProbabilityMonotone | src/org/povworld/sbb/ConnectionOccupation.java:47-89 | a longer minimum connection time never makes the connection less likely to be missed |
| ConnectionOccupations.Badness | src/org/povworld/sbb/ConnectionOccupation.java:43-45 | the badness is the late probability times the badness factor, so it lies in [0, factor] |
| ConnectionOccupations.ArrivalTimes | src/org/povworld/sbb/ConnectionOccupation.java:93-102 | the earliest and latest arrival are the minimum entryEarliest and maximum entryLatest over the feasible arrival edges, starting from Integer.MAX_VALUE and 0 |
| ConnectionOccupations.DepartureTimes | src/org/povworld/sbb/ConnectionOccupation.java:104-113 | the latest and earliest departure are the maximum exitLatest and minimum exitEarliest over the feasible departure edges, starting from 0 and Integer.MAX_VALUE |
| ConnectionOccupations.Create | src/org/povworld/sbb/ConnectionOccupation.java:91-123 | for the arrival window of the source intention's and the departure window of the target intention's feasible marked edges: no occupation exactly when one of the four assertions fails (an earliest time not positive or a latest time not below TMAX), and otherwise one carrying exactly those four times, the connection and both edge sets |
| ConnectionOccupations.Windows | src/org/povworld/sbb/ConnectionOccupation.java:92-113 | the two loops yield the arrival window of the source graph and the departure window of the target graph |
| ConnectionOccupations.ArrivalWindowUnique | src/org/povworld/sbb/ConnectionOccupation.java:93-102 | the arrival window (minimum entryEarliest and maximum entryLatest, or the start values when no edge is feasible) is determined by the graph and the edges |
| ConnectionOccupations.DepartureWindowUnique | src/org/povworld/sbb/ConnectionOccupation.java:104-113 | the departure window (minimum exitEarliest and maximum exitLatest, or the start values when no edge is feasible) is determined by the graph and the edges |
| ConnectionOccupations.MadeWithin | src/org/povworld/sbb/ConnectionOccupation.java:115-122 | a made occupation passed the four assertions and its times bound every feasible marked edge's times |
| ConnectionOccupations.Incoming | src/org/povworld/sbb/ConnectionOccupation.java:145-151 | every incoming edge ends where some arrival edge starts |
| ConnectionOccupations.Outgoing | src/org/povworld/sbb/ConnectionOccupation.java:153-159 | every outgoing edge starts where some departure edge ends |
| ConnectionOccupations.IncomingComplete | src/org/povworld/sbb/ConnectionOccupation.java:145-151 | every edge ending where an arrival edge starts is incoming |
| ConnectionOccupations.OutgoingComplete | src/org/povworld/sbb/ConnectionOccupation.java:153-159 | every edge starting where a departure edge ends is outgoing |
| ConnectionOccupations.GetIncoming | src/org/povworld/sbb/ConnectionOccupation.java:145-151 | the loop collects exactly the incoming edges |
| ConnectionOccupations.GetOutgoing | src/org/povworld/sbb/ConnectionOccupation.java:153-159 | the loop collects exactly the outgoing edges |
| ConnectionOccupations.Cutoff | src/org/povworld/sbb/ConnectionOccupation.java:126 | the cutoff is half the deficit rounded up, so it is positive exactly when the deficit is |
| ConnectionOccupations.ThrowsIffNotLate | src/org/povworld/sbb/ConnectionOccupation.java:125-130 | the cutoff is not positive exactly when the late probability is 0, and a positive cutoff leaves room for the minimum connection time |
| ConnectionOccupations.CreateConflictSchedules | src/org/povworld/sbb/ConnectionOccupation.java:125-143 | none (the source throws) exactly when the cutoff is not positive; otherwise two schedules: a later departure on the outgoing edges and an earlier arrival on the incoming edges, each scored by the inverse window length |
| Stores.Budget | src/org/povworld/sbb/SbbExecutor.java:401-403 | an intention's budget is its minimum penalty plus the remaining penalty, capped at the per-intention maximum; an infinite minimum penalty leaves the cap |
| Stores.Stored | src/org/povworld/sbb/SbbExecutor.java:437-443 | the times map after setting or removing one occupation's times holds exactly those for it and keeps every other occupation's |
| Stores.CopyInstalled | src/org/povworld/sbb/SbbExecutor.java:447-453 | installing a new object under a key not yet copied keeps the map copy-on-write with respect to the initial one |
| Stores.SetOrRemove | src/org/povworld/sbb/SbbExecutor.java:439-443 | an occupation without times is removed from the plan, otherwise its times are set; the plan's times are updated accordingly |
| Stores.PlanStore.constructor | src/org/povworld/sbb/SbbExecutor.java:252-259 | the store starts with the state's plans and nothing copied |
| Stores.PlanStore.Prepare | src/org/povworld/sbb/SbbExecutor.java:447-454 | the first call for a resource installs a fresh copy under it; later calls return the installed copy; the returned plan is installed under no other resource |
| Stores.PlanStore.Store | src/org/povworld/sbb/SbbExecutor.java:432-444 | the prepared plan of the resource gets the occupation's times set or removed; every other plan's times stay; the scan's restrictions are queued |
| Stores.ConstraintStore.constructor | src/org/povworld/sbb/SbbExecutor.java:252-259 | the store starts with the state's constraints and nothing copied |
| Stores.ConstraintStore.Prepare | src/org/povworld/sbb/SbbExecutor.java:457-464 | the first call for an intention installs a fresh copy under it; later calls return the installed copy; the returned constraints are installed under no other intention |
| Stores.ConstraintStore.Restrict | src/org/povworld/sbb/SbbExecutor.java:285-301 | the intention's prepared constraints are restricted: windows only tighten, infeasible edges only grow, a raised minimum or lowered maximum holds on every edge of the restriction that stays feasible, a mark makes its edges infeasible; no other intention's constraints change; feasibility and the minimum penalty before and after are reported |
| Stores.ConstraintStore.Limit | src/org/povworld/sbb/SbbExecutor.java:399-405 | the intention's prepared constraints get the budget its minimum penalty and the remaining penalty leave, so their maximum penalty is at most that budget |
| Stores.BoundsOf | src/org/povworld/sbb/SbbExecutor.java:324-342 | the bounds read off an intention's constraints cover every edge |
| Executors.ConnectionRestrictionsViolated | src/org/povworld/sbb/SbbExecutor.java:344-387 | every restriction a connection queues bites on its own intention's edges, and it restricts every late or early neighbour edge there is |
| Executors.LateEdgesComplete | src/org/povworld/sbb/SbbExecutor.java:348-361 | every feasible edge before a feasible arrival edge that may be left after the latest arrival is restricted |
| Executors.EarlyEdgesComplete | src/org/povworld/sbb/SbbExecutor.java:369-382 | every feasible edge after a feasible departure edge that may be entered before the earliest departure is restricted |
| Executors.EnforcedNotViolated | src/org/povworld/sbb/SbbExecutor.java:344-387 | a restriction that holds on the bounds does not bite there, so a connection queues nothing its intentions already satisfy |
| Executors.OccupationTimesNow | src/org/povworld/sbb/GraphConstraints.java:164-258 | the weight assertion fails exactly when the flow is feasible and its weight is not positive; otherwise the times are those the constraints give the occupation |
| Executors.Moved | src/org/povworld/sbb/SbbExecutor.java:307-309 | moving one key from the rest to the done part keeps all keys covered |
| Executors.PenaltyIncrease | src/org/povworld/sbb/SbbExecutor.java:301-304 | the increase is 0 or positive, positive exactly when the minimum penalty grew, and then it is the difference |
| Executors.NoMarks | src/org/povworld/sbb/SbbExecutor.java:362-387 | the time restrictions a connection queues mark no intention infeasible |
| Executors.RestrictionsFor | src/org/povworld/sbb/SbbExecutor.java:323-387 | the earliest arrival and latest departure over the feasible marked edges, and exactly the connection's restrictions |
| Executors.QueueConnection | src/org/povworld/sbb/SbbExecutor.java:323-388 | exactly the connection's restrictions, computed from the earliest arrival and latest departure over its marked edges, join the queue and nothing else does; each bites on the bounds of the intention it restricts |
| Executors.QueueConnections | src/org/povworld/sbb/SbbExecutor.java:322-389 | the loop throws exactly when some connection's intention has no constraints or its marker edges do not fit the graph; otherwise the queue gains exactly the union of every connection's restrictions; every added restriction bites |
| Executors.QueueFitting | src/org/povworld/sbb/SbbExecutor.java:323-388 | a connection that fits adds exactly its restrictions to those the connections before it queued, each biting |
| Executors.Enqueue | src/org/povworld/sbb/SbbExecutor.java:344-387 | exactly the connection's restrictions for the given times join the pending ones, and each new one bites on its intention's bounds |
| Executors.QueuedStep | src/org/povworld/sbb/SbbExecutor.java:323-388 | one more connection adds its restrictions to the union queued so far, and what was added still all bites |
| Executors.TouchedStep | src/org/povworld/sbb/SbbExecutor.java:423-426 | the occupations touching one more node are added to those touching the others |
| Executors.CollectTouched | src/org/povworld/sbb/SbbExecutor.java:421-426 | the loop collects exactly the occupations starting or ending at a changed node |
| Executors.ResourcesStep | src/org/povworld/sbb/SbbExecutor.java:427-429 | updating one more occupation adds its resource to the copied plans |
| Executors.StateChanger.constructor | src/org/povworld/sbb/SbbExecutor.java:252-259 | the changer holds the state's plans and constraints, nothing copied, an empty queue and the state's minimum penalty |
| Executors.StateChanger.UpdateResourcePlan | src/org/povworld/sbb/SbbExecutor.java:432-444 | the plan of the resource, copied if need be, gets the occupation's times under its intention's constraints as they stand (or loses them when there are none), so the occupation is planned; every occupation planned before stays planned |
| Executors.StateChanger.StorePlanned | src/org/povworld/sbb/SbbExecutor.java:437-443 | storing an occupation's current times in its resource's plan makes it planned and keeps every other planned occupation planned |
| Executors.StateChanger.StoreTimes | src/org/povworld/sbb/SbbExecutor.java:437-443 | the resource's plan gets the times set or removed, every other plan keeps its times, no constraints change and the queue keeps what it held |
| Executors.StateChanger.UpdateNext | src/org/povworld/sbb/SbbExecutor.java:427-429 | one turn of the update loop adds the occupation to those planned |
| Executors.StateChanger.UpdateAll | src/org/povworld/sbb/SbbExecutor.java:427-429 | exactly the resources of the occupations to update get their plans copied, and every one of the occupations ends up planned with its current times |
| Executors.StateChanger.SyncResourcePlan | src/org/povworld/sbb/SbbExecutor.java:419-430 | exactly the resources of the intention's occupations touching a changed node get their plans copied, and each of those occupations ends up planned with its current times |
| Executors.StateChanger.ApplyConnectionConstraints | src/org/povworld/sbb/SbbExecutor.java:322-389 | it throws exactly when some connection does not fit the current constraints; otherwise the pending time restrictions become the old ones plus exactly every connection's restrictions; everything added bites, and popped elements and marks are unchanged |
| Executors.StateChanger.LimitOne | src/org/povworld/sbb/SbbExecutor.java:398-412 | one intention gets its budget: infeasible constraints are reported, otherwise the intention is within the cap and the growth of its minimum penalty is returned |
| Executors.StateChanger.LimitIntention | src/org/povworld/sbb/SbbExecutor.java:399-405 | the intention's constraints get their budget; a threw step throws, an infeasible one leaves them infeasible, a limited one leaves them within the cap and reports the growth of their minimum penalty |
| Executors.StateChanger.SyncLimited | src/org/povworld/sbb/SbbExecutor.java:408 | the plans of the changed nodes' occupations follow their constraints, which stay as they are, and the queue keeps what it held |
| Executors.StateChanger.LimitAll | src/org/povworld/sbb/SbbExecutor.java:398-413 | the loop stops at an infeasible intention or the first whose minimum penalty grew; running to the end leaves every intention within the cap |
| Executors.StateChanger.IncreaseMinPenalty | src/org/povworld/sbb/SbbExecutor.java:391-416 | true leaves the minimum penalty within the overall budget and every intention within the cap; false means the budget is exceeded or some intention infeasible |
| Executors.StateChanger.ApplyOne | src/org/povworld/sbb/SbbExecutor.java:281-304 | unless it throws (an intention without constraints, edges outside its graph, or changed nodes of an intention without occupations), the restriction is applied to its intention's prepared constraints: only that intention's bounds change, they narrow, the restriction holds on them and joins the applied ones; infeasible constraints fail the state; a restricted step returns exactly the occupations starting or ending at the changed nodes, and an increase that is positive exactly when the minimum penalty grew |
| Executors.StateChanger.RestrictIntention | src/org/povworld/sbb/SbbExecutor.java:285-301 | the restriction is applied to the intention's prepared constraints, holds on its narrowed bounds and joins the applied ones; infeasible constraints fail the state; the minimum penalty before and after are those of the constraints |
| Executors.AnsweredKept | src/org/povworld/sbb/SbbExecutor.java:280-317 | a queue that keeps what it held and a growing set of applied restrictions still leave every goal waiting or covered |
| Executors.AnsweredPopped | src/org/povworld/sbb/SbbExecutor.java:281-290 | popping a restriction and applying it leaves every goal waiting or covered: the popped one covers what left the queue |
| Executors.AnsweredDone | src/org/povworld/sbb/SbbExecutor.java:280-319 | once the queue is empty every goal is covered by an applied restriction and so holds on its intention's bounds |
| Executors.StateChanger.Settle | src/org/povworld/sbb/SbbExecutor.java:306-316 | the applied restrictions stay the same and every restriction still pending stays queued; false means the state failed; when no minimum penalty grew, a true result leaves every waiting occupation planned with its current times |
| Executors.StateChanger.DrainQueue | src/org/povworld/sbb/SbbExecutor.java:277-320 | none means the state failed; a state is the current plans, constraints and minimum penalty, with the queue empty, and it is valid; when every goal restriction was waiting in the queue or covered by an applied one at the start, every goal holds on its intention's bounds in that state |
| Executors.StateChanger.DrainOne | src/org/povworld/sbb/SbbExecutor.java:281-316 | one turn of the loop: the head is popped and applied, and the waiting updates are settled once the queue runs empty; if the drain goes on, every goal still waits in the queue or is covered by an applied restriction; a refuted restriction fails the state, and no turn ends the drain with a state |
| Executors.StateChanger.ApplyHead | src/org/povworld/sbb/SbbExecutor.java:281-292 | the head is popped and applied to its intention's constraints; unless it throws, every goal that waited for it is now covered by an applied restriction and every other goal still waits or is covered; a refusal fails the state |
| Executors.StateChanger.SettleDrained | src/org/povworld/sbb/SbbExecutor.java:306-316 | settling after the queue ran empty: false fails the state; going on keeps the changer valid and every goal waiting or covered, since settling drops no pending restriction and applies none |
| Executors.StateChanger.Apply | src/org/povworld/sbb/SbbExecutor.java:262-265 | none means the state failed; a resulting state is the changer's plans, constraints and minimum penalty with the queue empty, and every restriction of the schedule holds on its intention's bounds |
| Executors.StateChanger.SyncAllResourcePlans | src/org/povworld/sbb/SbbExecutor.java:268-274 | an intention without a route graph throws; none means the state failed; a resulting state is the changer's plans, constraints and minimum penalty with the queue empty, and it is valid |
| Executors.CopyOnWriteDerives | src/org/povworld/sbb/SbbExecutor.java:447-464 | a copy-on-write map shares every value it did not copy and holds only new objects under copied keys |
| Executors.StoreOutcome | src/org/povworld/sbb/SbbExecutor.java:233-235 | a valid store whose bounds hold every restriction narrows the initial bounds intention by intention, with every restriction holding |
| Executors.Apply | src/org/povworld/sbb/SbbExecutor.java:233-235 | the given state is not modified; a resulting state is valid, shares every plan and constraint object it did not copy, has each intention's bounds narrowed from the given state's, and has every restriction of the schedule holding on its intention's bounds |
| Options.PlanConflict | src/org/povworld/sbb/SbbExecutor.java:109-117 | no conflict exactly without a densest range; the assertion throws exactly when the boosted density is not positive; otherwise a resource conflict of the boosted density on the range |
| Options.OccupationConflict | src/org/povworld/sbb/SbbExecutor.java:120-126 | a connection conflict exactly when the occupation's badness is positive, carrying that badness and the occupation |
| Options.WorstConflict | src/org/povworld/sbb/SbbExecutor.java:89-106 | none exactly when nothing conflicts; otherwise a conflict of maximal badness, the first one met winning ties |
| Options.TotalRemove | src/org/povworld/sbb/SbbExecutor.java:215-222 | the summed minimum penalty does not depend on the order the intentions are taken in |
| Options.PlusSwap | src/org/povworld/sbb/SbbExecutor.java:221 | penalty addition may be regrouped and reordered |
| Options.IntentionsOfPrefix | src/org/povworld/sbb/SbbExecutor.java:158-163 | the intentions of one more restriction are those of the earlier ones plus its own |
| Options.TotalOfAgreeing | src/org/povworld/sbb/SbbExecutor.java:215-222 | the sum reads only the penalties of the summed intentions |
| Options.UntouchedTrialTotal | src/org/povworld/sbb/SbbExecutor.java:167-222 | a trial of a schedule restricting none of the summed intentions sums exactly the state's minimum penalties, since each trial changes only copies of its own intentions |
| Options.TrialTotalDecides | src/org/povworld/sbb/SbbExecutor.java:225 | with the trial totals pushed in front, two schedules whose totals differ by the epsilon or more compare as their totals do, and otherwise as their old badness did |
| Options.Trial.constructor | src/org/povworld/sbb/SbbExecutor.java:168-169 | a trial starts from the state's plans and constraints with nothing copied and an empty queue of its own |
| Options.Trial.CopyIntentions | src/org/povworld/sbb/SbbExecutor.java:171-175 | the constraints of exactly the intentions the schedule restricts are copied; an intention without constraints throws |
| Options.Trial.CopyIntention | src/org/povworld/sbb/SbbExecutor.java:171-175 | one intention is copied, with its bounds, applied restrictions and path penalty kept, so the trial stays traced |
| Options.Trial.UpdateOccupation | src/org/povworld/sbb/SbbExecutor.java:196-211 | an occupation of an intention not copied is skipped and changes no plan; otherwise the plan of its resource gets exactly the occupation's times under the copied constraints, or loses them; a resource without a plan, an occupation off its graph, a failing weight assertion or plan check throws |
| Options.Trial.RefreshOccupation | src/org/povworld/sbb/SbbExecutor.java:197-211 | the plan of a copied intention's occupation gets exactly its times under the copy, or loses them; a resource without a plan, an occupation off its graph or a failing weight assertion throws |
| Options.Trial.StoreTimes | src/org/povworld/sbb/SbbExecutor.java:201-211 | the resource's plan, copied on first change, gets the times set or removed; the constraints are left as they are |
| Options.Trial.UpdateOccupations | src/org/povworld/sbb/SbbExecutor.java:196-212 | every occupation to update is updated in turn, keeping the trial valid unless one throws |
| Options.Trial.RestrictCopy | src/org/povworld/sbb/SbbExecutor.java:181-194 | a restriction of an intention not copied is skipped and changes no bounds; otherwise, unless it throws (edges outside the graph, changes of an intention without occupations), it is applied to the copy: only that intention's bounds change, they narrow, and the restriction holds on them and joins the applied ones |
| Options.Trial.RestrictTraced | src/org/povworld/sbb/SbbExecutor.java:187 | applyTo on the copy: only that intention's bounds change, they narrow and the restriction holds on them; the trial stays traced |
| Options.Trial.TightenTraced | src/org/povworld/sbb/SbbExecutor.java:187 | applyTo on the copy narrows its bounds with the restriction holding, and the intention's minimum penalty stays priced from its initial bounds; plans and queue stay as they are |
| Options.Trial.PopRestriction | src/org/povworld/sbb/SbbExecutor.java:181-194 | the head restriction is popped and applied to its copy, or skipped; unless it throws, every goal still waits or is covered by an applied restriction |
| Options.Trial.TakeRestriction | src/org/povworld/sbb/SbbExecutor.java:181 | the pop leaves every goal waiting or covered by the applied restrictions, together with the popped one when its intention was copied |
| Executors.AnsweredSkipped | src/org/povworld/sbb/SbbExecutor.java:182-185 | skipping a popped restriction of an intention no goal has keeps every goal waiting or covered |
| Executors.AnsweredStep | src/org/povworld/sbb/SbbExecutor.java:181-194 | a popped restriction, applied or skipped, keeps every goal waiting or covered |
| Executors.AnsweredGrown | src/org/povworld/sbb/SbbExecutor.java:181-194 | goals answered with the popped restriction stay answered once it is among the applied ones |
| Options.Trial.Step | src/org/povworld/sbb/SbbExecutor.java:180-212 | one popped restriction is applied and the occupations it touches updated; unless it throws, every goal restriction still waits in the queue or is covered by an applied one, and the copied intentions stay those copied |
| Options.Trial.Drain | src/org/povworld/sbb/SbbExecutor.java:180-213 | a drain that returns leaves the queue empty and the trial valid and traced, with the same intentions copied, and with every goal restriction holding on its intention's bounds |
| Options.Trial.Enqueue | src/org/povworld/sbb/SbbExecutor.java:177-178 | the schedule's restrictions are queued, each waiting there, and the trial's plans and constraints stay as they were |
| Options.Trial.Run | src/org/povworld/sbb/SbbExecutor.java:177-213 | the schedule's restrictions are queued and drained through the copies; a run that returns leaves minimum penalties that are a trial of the schedule on the state the copies came from |
| Options.TracedTrial | src/org/povworld/sbb/SbbExecutor.java:167-213 | bounds traced from the initial ones, narrowing them with every restriction of the schedule holding, whose copied intentions are the schedule's own, form a trial of the schedule of their minimum penalties |
| Options.TrialFound | src/org/povworld/sbb/SbbExecutor.java:167-213 | a drained trial with every restriction of the schedule holding on its bounds leaves a trial of the schedule as its minimum penalties |
| Options.Repriced | src/org/povworld/sbb/SbbExecutor.java:187 | narrowing a copied intention to bounds priced from its initial ones keeps the trial traced |
| Options.SumPenalties | src/org/povworld/sbb/SbbExecutor.java:215-222 | the loop succeeds exactly when every intention has constraints, and then gives the sum of their minimum penalties |
| Options.NewTrial | src/org/povworld/sbb/SbbExecutor.java:167-175 | a fresh trial with the constraints of exactly the schedule's intentions copied; it throws exactly when one of them has no constraints; the state is left as it was |
| Options.TrialTotal | src/org/povworld/sbb/SbbExecutor.java:215-222 | the sum over the intentions of a trial's minimum penalties is returned unless an intention has no constraints, and it is then a trial total of the schedule |
| Options.TrialPenalty | src/org/povworld/sbb/SbbExecutor.java:167-222 | a schedule restricting an intention without constraints throws; a returned value is the sum over the given intentions of the minimum penalties of a trial of the schedule: bounds narrowed from the state's, moved only for the schedule's own intentions, with every restriction of the schedule holding on them, and each minimum penalty priced from the state's bounds |
| Options.ScoreOne | src/org/povworld/sbb/SbbExecutor.java:167-225 | a schedule restricting an intention without constraints throws; a returned schedule keeps its restrictions and gets in front of its badness the finite total of a trial of its own |
| Options.Rescore | src/org/povworld/sbb/SbbExecutor.java:157-229 | an intention without constraints makes rescoring fail; a returned list has one schedule per input, each keeping its restrictions and getting in front of its badness the total of a trial of its own over all the intentions the schedules restrict |
| Options.WidthOfMembers | src/org/povworld/sbb/SbbExecutor.java:145-150 | a permutation of a list of one badness width has that width |
| Options.WidthOfTail | src/org/povworld/sbb/SbbExecutor.java:145-150 | the tail of a list of one width has that width |
| Options.Insert | src/org/povworld/sbb/SbbExecutor.java:145-150 | inserting adds the schedule to the multiset and puts it or the old first schedule first |
| Options.Sort | src/org/povworld/sbb/SbbExecutor.java:145-150 | the sort is a permutation of the schedules |
| Options.InsertOrdered | src/org/povworld/sbb/SbbExecutor.java:145-150 | inserting into a list ascending by badness keeps it ascending |
| Options.SortOrdered | src/org/povworld/sbb/SbbExecutor.java:145-150 | the sorted list is ascending by badness |
| Options.GetOptions | src/org/povworld/sbb/SbbExecutor.java:129-155 | the options are the conflict's schedules, rescored by their trials when there is a penalty budget and left as they are otherwise, as a permutation ascending by badness; only rescoring can run out of fuel, and the sort throws only on badness vectors that cannot be compared |
| Directors.Decision.constructor | src/org/povworld/backtrack/Director.java:21-25 | a new decision holds the state, its conflict and its options, with the cursor at the first option |
| Directors.Decision.NextOption | src/org/povworld/backtrack/Director.java:27-29 | the option under the cursor is handed out and the cursor moves on by one |
| Directors.FirstAppliedMeans | src/org/povworld/backtrack/Director.java:71-79 | scanning the options takes the first one that applies, in list order, skipping only options that fail, and leaves the cursor just past it or at the end |
| Directors.Pushed | src/org/povworld/backtrack/HardCollectingDirector.java:63-72 | pushing a decision whose option leads to the start of a replay of the remaining conflicts replays them all and chains the states |
| Directors.ReplayedAppend | src/org/povworld/backtrack/HardCollectingDirector.java:20-54 | a replay of the hard list followed by a replay of one more conflict replays the joined list and keeps every decision carrying a conflict |
| Directors.Director.constructor | src/org/povworld/backtrack/Director.java:41-44 | a new director has an empty stack, no steps, an empty priority list, no boosts and a jump length of 10 |
| Directors.Director.Work | src/org/povworld/backtrack/Director.java:57-102 | a state without conflicts is returned as it is; none only when the stack ran empty; a returned state is free of conflicts or the sentinel state a collecting backtrack left on top, and with the plain and priority strategies it is free of conflicts; started on an empty stack, every returned state is reached from the initial state by applying options the executor offered |
| Directors.Director.ApplyTop | src/org/povworld/backtrack/Director.java:69-79 | the top decision's remaining options are tried in order and the first one that applies gives the new state |
| Directors.Director.ChooseNextConflict | src/org/povworld/backtrack/PriorityConflictDirector.java:22-31 | the executor's worst conflict, except that the priority strategy first takes the head of its priority list and resets the backtrack length |
| Directors.Director.ProcessConflict | src/org/povworld/backtrack/Director.java:109-112 | a fresh decision for the state, its conflict and the executor's options for it is pushed |
| Directors.Director.Backtrack | src/org/povworld/backtrack/Director.java:114-116 | the plain and priority strategies pop the dead end; the collecting strategies leave the search as the exit Collect computes from the stack says (LeftAs); the stack stays grounded in the origin |
| Directors.Director.PriorityBacktrack | src/org/povworld/backtrack/PriorityConflictDirector.java:33-42 | the dead end's conflict is inserted into the priority list at min(backtracklength, size), the list's last entry dropped when it overflows, the backtrack counted and the dead end popped |
| Directors.Director.TryApply | src/org/povworld/backtrack/HardCollectingDirector.java:56-75 | the result is exactly ReplayOutcome (the first option, in list order, whose replay of the rest succeeds); success pushes one decision per conflict chaining the states, failure leaves the stack; the stack stays grounded in the origin and the result is reached from it |
| Directors.Director.CollectingBacktrack | src/org/povworld/backtrack/HardCollectingDirector.java:20-54 | the search is left exactly as the exit Collect computes for the popped frames says (LeftAs): resumed at the replayed state with a fresh decision, jumped back to the bottom, a sentinel after the final replay, or an empty stack; the hard list starts with the dead end's conflict |
| Directors.Director.ReplayFrame | src/org/povworld/backtrack/HardCollectingDirector.java:27-40 | the hard list replays on the frame's state exactly when ReplayOutcome succeeds there, and the frame's conflict then resumes exactly as ReplayOutcome says; a failed resume pops the replay again |
| Directors.Director.FinalReplay | src/org/povworld/backtrack/HardCollectingDirector.java:41-48 | with the stack empty, the final replay leaves the replayed decisions with a sentinel on top holding ReplayOutcome's state, or an empty stack exactly when it fails |
| Directors.Director.Boost | src/org/povworld/backtrack/BoostingDirector.java:69-76 | each conflict is handed to the booster, in order, and the deepest stack seen at a boost is recorded |
| Directors.Director.Jump | src/org/povworld/backtrack/BoostingDirector.java:81-110 | the jump records the stack depth; it throws exactly on an empty stack or a bottom state without conflicts; otherwise the stack becomes one fresh decision for the bottom state's worst conflict and its options |
| Directors.ReplayComplete | src/org/povworld/backtrack/HardCollectingDirector.java:56-75 | whenever some choice of one offered option per hard conflict replays the whole list (Follow), the first-success search ReplayOutcome succeeds too: tryApply misses no replay |
| Directors.ReplaySound | src/org/povworld/backtrack/HardCollectingDirector.java:56-75 | a state ReplayOutcome returns is the end of a replay by one offered option per hard conflict (Follow), so tryApply only returns reachable states |
| Directors.ReachesStep | src/org/povworld/backtrack/Director.java:71-88 | applying one more offered option to a state reached from the origin gives a state reached from it |
| Directors.Collect | src/org/povworld/backtrack/HardCollectingDirector.java:26-49 | the exit of the collecting loop over the popped frames keeps the hard list as a prefix, empties the stack only when no frame is left, and resumes or jumps only at a frame below the top; the boosting director jumps only at its size bound |
| Directors.PopResumes | src/org/povworld/backtrack/HardCollectingDirector.java:27-32 | a frame on which the hard list and then its own conflict replay is where the collecting loop resumes, at the state the second replay reached |
| Directors.PopJumps | src/org/povworld/backtrack/BoostingDirector.java:40-48 | a frame on which only the hard list replays, with the grown list at the boosting bound, makes the loop jump back with the grown list |
| Directors.PopGoesOn | src/org/povworld/backtrack/HardCollectingDirector.java:33-48 | otherwise the hard list grows by the frame's conflict exactly when the list replayed, and the loop goes on below or, with no frame left, ends in the final replay of the grown list on that frame |
| Directors.GroundedApplied | src/org/povworld/backtrack/Director.java:69-79 | the state the top decision's scan finds is reached from the origin when the stack is grounded in it |
| Directors.Director.Step | src/org/povworld/backtrack/Director.java:67-100 | one round of the loop keeps the stack grounded; a returned state is reached from the origin and is free of conflicts or the sentinel's state; None returned only on an empty stack |
| Directors.Director.Advance | src/org/povworld/backtrack/Director.java:81-88 | a reached state without a next conflict is returned; otherwise a decision for the next conflict is pushed and the search goes on |
| Directors.Director.Retreat | src/org/povworld/backtrack/Director.java:89-100 | after the backtrack, the search stops on an empty stack with None, at a sentinel with its state, and goes on at a decision with a conflict |
| Directors.Director.TryOption | src/org/povworld/backtrack/HardCollectingDirector.java:65-71 | the decision is kept exactly when the rest of the hard list replays from the state its option reached (ReplayOutcome from start + 1); otherwise it is popped again |
| Directors.Director.CollectFrame | src/org/povworld/backtrack/HardCollectingDirector.java:27-48 | one pass pops the top frame and either leaves the search as the exit says or goes on with a shorter stack that collects to the same exit |
| Directors.Director.Settle | src/org/povworld/backtrack/HardCollectingDirector.java:28-48 | after the pop the pass replays the hard list on the popped frame and takes the exit Collect prescribes for it |
| Directors.Director.ResumeFrame | src/org/povworld/backtrack/HardCollectingDirector.java:29-32 | when the frame's conflict follows the replay, the search is left as the resume exit says |
| Directors.Director.NoResume | src/org/povworld/backtrack/BoostingDirector.java:39-59 | when it does not, the hard list grows exactly when it replayed, the boosting director jumps at its bound, and otherwise the loop goes on or ends in the final replay |
| Directors.Director.PopFrame | src/org/povworld/backtrack/HardCollectingDirector.java:27 | popping the top frame leaves the frames below as they were and the stack grounded, with the popped state reached from the origin |
| Directors.Director.ExhaustAt | src/org/povworld/backtrack/HardCollectingDirector.java:41-48 | with no frame left, the search is left as the exhausted exit with the final replay says |
| Directors.Director.ResumeAt | src/org/povworld/backtrack/BoostingDirector.java:36-38 | the resume exit boosts exactly the hard list (boosting director only) and resumes at the replayed state |
| Directors.Director.JumpAt | src/org/povworld/backtrack/BoostingDirector.java:45-48 | at the size bound the grown hard list is boosted and the search jumps back to the bottom of the stack |
| Directors.Director.ResumeWith | src/org/povworld/backtrack/HardCollectingDirector.java:51-53 | a fresh decision for the replayed state's worst conflict and its options is pushed; it throws exactly when the state has no conflict |
| Directors.Director.PopFor | src/org/povworld/backtrack/BoostingDirector.java:93-96 | up to count decisions are popped, stopping on an empty stack, and the last popped one is returned |
| Boosters.BoostedWeight | src/org/povworld/backtrack/Booster.java:21-27 | after k boosts of a key its weight is factor^k, and only boosted keys are stored |
| Boosters.SimpleBooster.constructor | src/org/povworld/backtrack/Booster.java:16-18 | a new booster has the factor and no boosts |
| Boosters.SimpleBooster.GetBoost | src/org/povworld/backtrack/Booster.java:25-27 | a conflict's weight is the factor to the number of its boosts |
| Boosters.SimpleBooster.Boost | src/org/povworld/backtrack/Booster.java:21-24 | the conflict's weight is multiplied by the factor and every other weight stays |
| Boosters.ConflictBooster.constructor | src/org/povworld/sbb/ConflictBooster.java:9-10 | a new booster has no boosts |
| Boosters.ConflictBooster.GetBoost | src/org/povworld/sbb/ConflictBooster.java:22-24 | a resource's weight is 1.05 to the number of boosts of conflicts on it |
| Boosters.ConflictBooster.GetConflictBoost | src/org/povworld/sbb/ConflictBooster.java:26-29 | asking for a conflict's own weight throws |
| Boosters.ConflictBooster.Boost | src/org/povworld/sbb/ConflictBooster.java:13-20 | the weight of the conflict's resource is multiplied by 1.05; a connection conflict changes nothing |
| CountingExecutors.CountingExecutor.constructor | src/org/povworld/backtrack/CountingExecutor.java:20-24 | a new counting executor wraps the delegate with the period n and all counts 0 |
| CountingExecutors.CountingExecutor.GetWorstConflict | src/org/povworld/backtrack/CountingExecutor.java:27-30 | the delegate's worst conflict, with that call counted |
| CountingExecutors.CountingExecutor.GetOptions | src/org/povworld/backtrack/CountingExecutor.java:33-39 | the request is counted; at every multiple of n the counts are reported first; the delegate's options are returned; a period of 0 throws |
| CountingExecutors.CountingExecutor.Apply | src/org/povworld/backtrack/CountingExecutor.java:42-45 | the delegate's result, with that call counted |

## Left out

Callers' obligations. Where the source throws or reads past an array on a
caller error, the model states the condition as a `requires`:

- PenaltyTimes.PenaltyTimeSet.Delay: requires `t` to be at most the last element, because the Java loop reads past the array otherwise.
- PenaltyTimes.PenaltyTimeSet.Replaced: requires the old value to be present, because the Java search runs past the array otherwise.
- Schedules.Badness.CompareTo: requires equal, non-empty vectors. The Java code throws on different lengths and reads `values[0]` of an empty vector.
- Restrictions.Merge: requires both restrictions to belong to the same intention; the Java code throws otherwise.
- RestrictionQueues.RestrictionQueue.Pop: requires a non-empty queue; the Java code throws on an empty one.
- Constraints.GraphConstraints.SetMaxPenalty: requires the new budget not to exceed the current one by more than the epsilon; the Java code throws there.
- Allocation.ResourceAllocator.Occupy: requires `start` to be at most TMAX plus the release time, so it does not cover starts above that. There, with a positive release time, the floor check's sum Integer.MAX_VALUE + releaseTime wraps around to a negative value, the check passes, and the ceiling lookup finds no block, so the Java code dereferences null. With release time 0 the floor check rejects every start below Integer.MAX_VALUE and Java returns false; that `false` is not modelled.
- Constraints.GraphConstraints.GetOccupationTimes: requires propagation to be settled (the dirty flag clear), as the Java code asserts.
- Constraints.GraphConstraints.Copy: requires propagation to be settled (the dirty flag clear), as the Java code asserts.
- ConnectionOccupations.CreateConflictSchedules: requires windows of non-zero width. Java's `1.0 / 0` is Infinity, and exact reals have no such value.
- ResourcePlans.ResourcePlan.CreateConflictSchedules: takes the conflicts already sorted by density as the input `sortedConflicts` (the distinct stored intervals at the point, each once), because density is not modelled.

Weaker contracts:

- Constraints.ApplyTo: does not tie the returned node set to the union of the node sets of the individual tightening calls; it states the tightened bounds and the feasibility effect.
- Stores.ConstraintStore.Restrict: leaves the returned `affected` node set unconstrained, as `Constraints.ApplyTo` does; it states the tightening and the feasibility and minimum-penalty effects.
- Constraints.GraphConstraints.UpdatePathPenalties: the start penalty of a path is `pathPenalty`, a function of the windows and infeasible edges that the model leaves uninterpreted, and the edges updatePathPenalties marks infeasible past the budget are not modelled. Only the minimum-penalty update is stated.
- Options.Rescore: a trial whose summed minimum penalty is infinite gives `Thrown`. The Java sum would be infinite, and `Badness` would carry it.
- Options.Trial.Drain: the trial's restriction drain carries a fuel bound, because the Java loop has no termination measure. Running out is `OutOfFuel`.
- Options.TrialPenalty: a trial's bounds are stated to narrow the state's, to move only for the schedule's own intentions, and to hold every restriction of the schedule. The infeasibility marks that plan updates queue during the drain are applied, but the contract does not name them.
- ResourcePlans.ResourcePlan.Scan: states which intentions get an infeasibility mark queued, by key, and not the merged edge sets of the marks.
- ResourcePlans.ResourcePlan.Set: states the queued marks by key only, as ResourcePlans.ResourcePlan.Scan does.
- ResourcePlans.ResourcePlan.Remove: states the queued marks by key only, as ResourcePlans.ResourcePlan.Scan does.
- RestrictionQueues.RestrictionQueue.AddAll: states the queued marks by key only; RestrictionQueues.RestrictionQueue.AddInfeasible states the merged edges of one mark.
- RestrictionQueues.RestrictionQueue.Valid: does not require a queued mark's edge set to be non-empty, which the Java code never breaks but does not check either.
- ConnectionOccupations.Cutoff: states its result only for values in the 32-bit range, where Java's arithmetic does not wrap.
- Util.PrintRuns: excludes an id of `Integer.MIN_VALUE + 1`, because the Java sentinel `lastId = MIN_VALUE` would then merge it into a run.
- Util.PathIdsString: has the same exclusion as Util.PrintRuns.
- Executors.StateChanger.DrainQueue: carries a fuel bound, because the Java loop has no termination measure. Running out is `OutOfFuel`.
- Executors.StateChanger.IncreaseMinPenalty: the Java recursion has no termination measure, so it carries the same fuel bound.
- Executors.StateChanger.Settle: states the waiting occupations planned only when no minimum penalty grew. After IncreaseMinPenalty has set every intention's budget, being planned is not stated again. The connection restrictions it queues are stated only as "the queue keeps what it held", not as the exact set Executors.StateChanger.ApplyConnectionConstraints states.
- Executors.StateChanger.SettleDrained: states the same as Executors.StateChanger.Settle, seen from the drain loop.
- Executors.StateChanger.SyncAllResourcePlans: does not state that every occupation is planned in the resulting state. Each update in the loop makes its occupations planned, but the drain that follows is specified by the restrictions it enforces, not by the plans.
- Executors.StateChanger.DrainQueue: does not state that every occupation is planned in the resulting state, for the same reason.
- Directors.Director.Work: the Java `while (true)` loop has no termination measure, so it carries a fuel bound. Running out is `OutOfFuel`.
- RouteGroups.RouteGroup.AddPath: adding a path that is already present reports `added == false` and leaves the set unchanged, where the Java code throws after the failed `add`.
- Directors.Director.CollectingBacktrack: asks the executor for its worst conflict and options directly, as the Java code does. Asking for the options of a null conflict is `thrown`.
- Executors.Apply: the executor's `apply` is modelled for one schedule. The director uses the executor only through the `Executor` function record, so `CountingExecutors.CountingExecutor` is a standalone decorator. Its callback is the `reports` log, and counter overflow is not modelled.

Behaviour not modelled:

- DensityMap and the density side of ResourcePlan: getMaxDensity, getAvgDensity, getDensityAt, addTo, getDensityMap, getMaxDensityRange, selectPoint, calculateMax, hasConflicts and score (ResourcePlan.java:612-653). They are floating-point slope sums with an epsilon-tolerant sweep. The conflict point and density order are inputs.
- Weights of GraphConstraints: updateWeights, `create(graph, intention, maxPenalty)` (which is updateWeights, updatePathPenalties and setMaxPenalty), scheduleMinimumPenaltyPath and getNodeTimes. The builder takes the path weights of GraphConstraints.java:938-950 as a parameter, and the occupation-time weight is a parameter of the sweep. The path penalties are the uninterpreted `pathPenalty` (see Constraints.GraphConstraints.UpdatePathPenalties above).
- `Badness.isFinite` and the `Math.random` badness mode: floating-point special values and randomness.
- The Debug flags: all are false in the source, so their checks and printing are inlined away. Logging and all printing are left out too.
- Solver, InputParser, OutputBuilder, Problem and ConnectionRepository: these cover I/O, protobuf and JSON parsing, and wiring. Their results are inputs (intentions, resources, connections, release times).
- createInitialState, createResourcePlans and createGraphConstraints of SbbExecutor: wiring over the problem input. The initial state is an input.
- TimeUtil.parseDuration for non-empty input: it delegates to `java.time.Duration`, a foreign call.
- The topological sorter and the persistent, interval and tree maps of the org.povworld.collection library, which is not part of this model. They are modelled by Dafny `seq`, `map` and `set`, and a topological order is a validated input.
- Hash-set iteration order: where the source iterates a hash collection and the order matters, the order is an input sequence ranging over the collection.
- The "no key" behaviour of MultiMap: an absent key gives the empty set.
- An edge outside the graph or a missing map key: the Java code would throw a NullPointerException. The executor reports it as `Thrown`.
- Thrown outcomes: `getOptions` of a null conflict, popping an empty decision stack, a jump on an empty stack, and `ConflictBooster.getBoost(Conflict)` all give `Thrown`.
- The booster used by the boosting director: it is external to the director, which records the conflicts handed to it in the `boosted` log. `Boosters.SimpleBooster` and `Boosters.ConflictBooster` model the two boosters themselves.
- The test-level property that `work` finds a selection with a target product: it depends on the test's executor, which is not part of this model.
- Doubles: they are exact reals. The epsilon comparisons are kept, and rounding is not modelled. A failing assertion in `ConnectionOccupations.Create` gives `None`. ConnectionOccupations.LateProbability and ConnectionOccupations.Badness require `Uncertain() ==> Ordered()` instead, the condition the Java assertions check.
- Java `int` arithmetic: times, ids and counters are unbounded integers. Overflow is not modelled except where a row or a line above says so (TimeUtil's parsed value, ConnectionOccupations.Cutoff, Util.PrintRuns).
- PenaltyTimes.PenaltyTimeSet.MaximumTime: `(int) Math.floor(...)` is modelled as the floor. Java's saturation of a floor beyond the `int` range at the cast is not modelled.

## Findings

| source | as written | input that shows it | evidently intended | confidence | as-written member | corrected member |
|---|---|---|---|---|---|---|
| src/org/povworld/sbb/GraphConstraints.java:201-240 | a latest bound that the backward sweep computes as −1 equals the "not found" sentinel, so the code throws an IllegalStateException | a graph the edge updater leaves as it is (source edge into node 0, two parallel sections 0 → 1, sections 1 → 2 and 1 → 3, sink edges out of 2 and 3) with the flow [1, 3]: edge 1 has window [0, 100] and minimum duration 1, edge 3 has window [0, 0], the other edges are unconstrained, so entryLatest = min(0, 100) − 1 = −1 at edge 1 | the bounds have crossed, so getOccupationTimes returns no times (null), as for every other crossing | not executed | TimeBounds.SentinelCounterexample | TimeBounds.SentinelOnlyWhenCrossed |
