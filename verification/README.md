# SOLA: a verified model of the overlay, its builders, its routing state and the hand-over protocol

SOLA runs a peer-to-peer overlay (MINHTON, NATTER) whose nodes sit at the positions of an m-ary tree,
and simulates automated guided vehicles (AGVs) that are handed over between pickup stations.  This
project models the arithmetic and the bookkeeping behind both and proves what they are for.
`dafny verify dfyconfig.toml` checks all of it.

| part | files | main results |
|---|---|---|
| tree geometry | `Arith`, `Positions`, `InOrderMap`, `HeapIndex`, `LinearProjection`, `RoutingTables`, `DsnCover`, `Sorting` | horizontal values are the in-order; intervals nest exactly along the parent relation; cover areas partition the tree by the nearest DSN; tables that stop at the first overrun lose nothing; greedy routing needs at most `level` hops |
| two static builders | `Overlay`, `OverlayTables` | pushing peers by heap index and pulling them by (level, number) and a sort give the same overlay, which is what the routing information has slots for |
| routing information | `NodeTables`, `RoutingState`, `RoutingAnswers`, `RoutingLists`, `RoutingInformation`, `RoutingEntries` | every run of operations keeps slots, order, split index and sides; from outside the object is a map from positions to addresses, and every operation does to every entry exactly what one rule says |
| authority protocol | `Stations`, `StationSafety`, `StationRuns`, `StationObjects`, `AgvObjects`, `Authority`, `AuthoritySafety`, `AuthorityTraces`, `AuthorityRuns` | in every run each AGV has exactly one authority; of all modelled throws and asserts three kinds can happen, each under an exact condition that can be read off the state before; AGVs leave a queue in the order in which they have joined it |
| framing and codecs | `Framing`, `Codecs` | any chunking that spares length prefixes yields the messages; round trips hold exactly under stated conditions |
| evaluation checks | `BalanceCheck`, `HeightCheck`, `HeightCheckObjects`, `MemoMapper` | counting nodes per level finds exactly the gaps; the linked test tree holds exactly the nodes and is found balanced exactly if the network is; the memoised mapper never answers stale values |
| motion time | `MotionTime`, `RouteTimes` | for which kinematics and routes the times at the intersections are found, said of the inputs alone; and that the distance-to-time function inverts the motion |

Abstractions.  Positions, indices and sizes are natural numbers of any size (the code uses 32-bit and, for
the parent in the tree mapper, 16-bit numbers).  Horizontal values, distances and times are exact reals (the
code uses `double` and `float`).  Square roots are parameters with the property of a root.  A physical address
is an optional string.  Clocks, the next transport order, the next station and the answers of the consensus
service are inputs.  Exceptions and failed asserts are the `Err` of a `Result`.

The protocol is a transition system: an AGV registers once; messages on one link arrive in order, links and
timers are served in any order; a move that was started ends once; every consensus request is answered once,
with success or failure; all stations know the same delivery stations at the same points.  The handlers are
functions (`Stations`).  The classes of `StationObjects` and `AgvObjects` do the same on their fields; what comes to
them from outside keeps their `Valid()` and throws exactly under a condition on the fields.  The invariant of the whole
system gives every AGV one token that says where its authority is; a station's `Valid()` is its share of it
(`StationSafety`), so both rest on the same lemmas.  A consensus is started only if the times at the intersections of
the route can be found, which `RouteTimes` decides by the AGV's kinematics, the length of the route and the distances of
its intersections.  Kinematics are positive, or the default zeros.

Findings.

* A run can raise three exceptions, each in exactly one situation (`RunSafe`): orders stop before all AMRs have started
  (`Late`), the times of an AGV on the route it is to negotiate cannot be found or the route has no intersections
  (`RouteRejected`), or an agreed start is not in the future (`Overdue`).  `AuthorityRuns` has a run for each.  A fleet that
  gets its times on every route leaves only the clock (`FleetSafe`), and a route that has been accepted once is never
  refused later.
* A logical AGV never gets the description of its vehicle (daisi/src/path_planning/agv_logical.cpp:54-61), so its kinematics stay zero and the
  times of no route can be found: with these defaults no consensus is ever started in any run
  (`DefaultsNeverNegotiate`), and the first negotiation throws (`RejectionIsReachable`).
* The spawn timer is pending as long as initial AGVs have to be started, unless one registers after the last timer is
  over: that one is forgotten (`PromiseIff`, `LatecomerForgotten`).
* A report of an AGV that a station does not own makes the station own an AGV without a name (`StrayReport`); no run of
  the system reaches this.
* The list of all known neighbours is meant to be free of duplicates, but an adjacent node that is also the child of a
  table neighbour is listed twice (`KnownUniqueIff`, `KnownListsTwice`).
* The deceleration time on short routes divides by the acceleration.  The phases add up to the route exactly if both
  accelerations are equal (or the route has no length), and a route of exactly the threshold length is always rejected
  (`ShortTotalIff`, `VerifiedIff`, `RejectedAtThreshold`, `StrongBrakeRejected`).  `CalculatesIff` gives the exact
  condition on the inputs under which all checks pass; with a brake four times as strong as the motor they pass on less
  than a quarter of a millimetre (`FourfoldBrake`, `FourfoldTimes`).
* A message type of two digits is read back as one digit, the other digit becomes payload, and the announced size is too
  small (`CppsPacket.RoundTripIff`, `SizeIff`, `TwoDigits`).  An address with a separator is not read back
  (`SolaMessage.RoundTripIff`, `SeparatorInAddress`).
* A node that takes a position without having an address clears its tables although it is placed; only then is the
  invariant of the tables lost (`PlaceFitsIff`, `PlacedTooEarly`).

## Model

| member | source | states |
|---|---|---|
| Positions.CalcParent | minhton/src/core/routing_calculations.cpp:25-41 | defined exactly for valid non-root positions; rounding down and dividing upwards is plain division, and the parent's block of m numbers holds the position |
| Positions.CalcChildren | minhton/src/core/routing_calculations.cpp:43-69 | the loop lists the m children from left to right, for valid positions only |
| Positions.ChildIffParent | minhton/src/core/routing_calculations.cpp:25-69 | being listed as a child is the inverse of taking the parent, and children stay on the tree |
| Positions.ChildFromNode | natter/src/utils/tree_helper.h:26-37 | the dividing loop decides exactly the transitive closure of the parent relation |
| Positions.AncestorBlock | natter/src/utils/tree_helper.h:26-37 | the k-fold parent is the block of length m^k that holds the number |
| InOrderMap.IntervalClosed | minhton/src/core/routing_calculations.cpp:198-229 | the recursion has a closed form: position n of a level owns the n-th interval and its centre is at ceil(m/2) parts |
| InOrderMap.OrderIsRank | minhton/src/core/routing_calculations.cpp:198-235 | comparing horizontal values of any two levels is comparing integer ranks |
| InOrderMap.TreeMapperInjective | minhton/src/core/routing_calculations.cpp:231-235 | different positions have different horizontal values |
| InOrderMap.NestedIffDescends | minhton/src/core/routing_calculations.cpp:198-229 | for different positions the intervals nest exactly if one descends from the other |
| InOrderMap.CenterInside | minhton/src/core/routing_calculations.cpp:198-229 | a position's value lies strictly inside its interval |
| InOrderMap.DescendantInside | minhton/src/core/routing_calculations.cpp:198-235 | the value of every descendant lies strictly inside the ancestor's interval |
| InOrderMap.InOrder | minhton/src/core/routing_calculations.cpp:198-235 | a descendant is before its ancestor exactly if it is in one of the first ceil(m/2) child subtrees, and after it otherwise |
| HeapIndex.CalculateLevel | daisi/src/natter-ns3/static_network_calculation.cpp:22-29 | the loop over parent indices finds the level of an index |
| HeapIndex.LevelUnique | daisi/src/natter-ns3/static_network_calculation.cpp:22-35 | no other level has a place for the index |
| HeapIndex.AtIndexOfIndex | daisi/src/minhton-ns3/minhton_manager_scheduler_helper.cpp:547-552 | level and number calculated from an index invert the index formula |
| HeapIndex.IndexInjective | daisi/src/minhton-ns3/minhton_manager_scheduler_helper.cpp:547-552 | different positions have different indices |
| HeapIndex.ChildIndex | daisi/src/natter-ns3/natter_manager.cpp:79-90 | index * m + j + 1 is the index of child j |
| HeapIndex.ParentIndexIsParent | daisi/src/natter-ns3/natter_manager.cpp:72-77 | ceil(i / m) - 1 is the index of the parent, and only the root has index 0 |
| LinearProjection.CreateLinearProjection | daisi/src/natter-ns3/static_network_calculation.cpp:37-60 | the recursion terminates and yields the in-order list of the existing subtree |
| LinearProjection.ProjectionSorted | daisi/src/natter-ns3/static_network_calculation.cpp:37-60 | the list is strictly increasing by horizontal value and stays inside the subtree's interval |
| LinearProjection.ProjectionInOrder | daisi/src/natter-ns3/static_network_calculation.cpp:37-60 | from index 0 it lists each of 0..N-1 exactly once, by increasing horizontal value |
| LinearProjection.InOrderUnique | daisi/src/minhton-ns3/minhton_manager_scheduler_helper.cpp:640-654 | only one list does so, hence sorting by horizontal value gives the same list |
| RoutingTables.CalcRoutingSequence | minhton/src/core/routing_calculations.cpp:71-87 | the nested loops list the distances of the first (m-1)*level powers, for valid fanouts only |
| RoutingTables.StepsIncreasing | minhton/src/core/routing_calculations.cpp:71-87 | the routing sequence is strictly increasing |
| RoutingTables.RoutingSequenceIff | minhton/src/core/routing_calculations.cpp:71-87 | within a level it holds exactly the digits times powers of m |
| RoutingTables.CalcLeftRT | minhton/src/core/routing_calculations.cpp:89-106 | stopping at the first overrun gives the filtered list of the validator |
| RoutingTables.CalcRightRT | minhton/src/core/routing_calculations.cpp:108-142 | the same for the right table |
| RoutingTables.LeftNumbersIff | evaluation/minhton/analysis/routing_tables.py:141-155 | the validator's filtered left list holds exactly the numbers at a distance of the sequence |
| RoutingTables.RightNumbersIff | evaluation/minhton/analysis/routing_tables.py:141-155 | the same for the right list below the size of the level |
| RoutingTables.LeftTableIff | minhton/src/core/routing_calculations.cpp:89-106 | the left table holds exactly the smaller numbers of the level at a distance of one digit times a power |
| RoutingTables.RightTableIff | minhton/src/core/routing_calculations.cpp:108-142 | the right table holds exactly the larger ones that are on the level |
| RoutingTables.TablesMirror | minhton/src/core/routing_calculations.cpp:89-142 | q is in the left table of p exactly if p is in the right table of q |
| RoutingTables.CalcRoutingTableNeighborParents | minhton/src/core/routing_information_general_helper.cpp:229-256 | the parents whose table children include the node: the table of the node's parent, nothing for the root |
| RoutingTables.NeighborParentsInverse | minhton/src/core/routing_information_general_helper.cpp:229-256 | it is the exact inverse of being the child of a table neighbour |
| RoutingTables.LooksLikeIff | minhton/src/core/routing_information_general_helper.cpp:413-428 | the removal's test by distance decides exactly the children of table neighbours on the tree |
| RoutingTables.RemoveNeighborChildren | minhton/src/core/routing_information_general_helper.cpp:413-428 | the test by distance gives the list without exactly the children of table neighbours, in the same order |
| RoutingTables.GreedyReaches | minhton/src/core/routing_calculations.cpp:71-142 | on a full level always taking the largest table distance that does not overshoot reaches any node, through table entries only, in at most `level` hops |
| RoutingTables.HopIsTabled | minhton/src/core/routing_calculations.cpp:71-142 | one hop is a table entry, stays on the level and removes the top base-m digit of the distance |
| DsnCover.GetDsnSet | minhton/src/core/routing_calculations.cpp:237-261 | lists in increasing order exactly the DSNs: on even levels the odd multiples of m and, for odd m, the number m before the last |
| DsnCover.DsnSetIff | minhton/src/core/routing_calculations.cpp:237-261 | the same for the list of a level, for every number |
| DsnCover.DsnLayout | minhton/src/core/routing_calculations.cpp:237-261 | on every even level the list is non-empty, increasing, on the level, and all gaps are even |
| DsnCover.ExtraDsnGap | minhton/src/core/routing_calculations.cpp:256-258 | the extra last DSN is listed exactly for odd m, and its gap is m - 1 |
| DsnCover.StretchesMeetIffEven | minhton/src/core/routing_calculations.cpp:263-326 | two neighbouring stretches meet without gap or overlap exactly if the distance of their DSNs is even; otherwise one number is lost |
| DsnCover.CoversNearest | minhton/src/core/routing_calculations.cpp:263-366 | a DSN covers exactly the numbers of its level to which it is the nearest, the smaller one of two |
| DsnCover.BlockIsNearest | minhton/src/core/routing_calculations.cpp:263-366 | a position is in the block of exactly the DSN nearest to it, or to its parent on odd levels |
| DsnCover.GetCoverArea | minhton/src/core/routing_calculations.cpp:263-326 | the listed area is exactly the block of the DSN without itself; nothing for other nodes; an invalid fanout throws for every DSN but the root |
| DsnCover.GetCoveringDsn | minhton/src/core/routing_calculations.cpp:328-366 | returns a DSN whose block holds the position, for every position of the tree; invalid odd-level positions throw |
| DsnCover.BlocksDisjoint | minhton/src/core/routing_calculations.cpp:263-366 | no position is in the blocks of two DSNs |
| DsnCover.BlocksPartition | minhton/src/core/routing_calculations.cpp:237-366 | every position of the tree is in the block of exactly one DSN, for every fanout from 2 on |
| DsnCover.BlockOnTree | minhton/src/core/routing_calculations.cpp:263-326 | blocks stay on the tree and hold their DSN |
| NatterBuild.NatterManager.ConnectParent | daisi/src/natter-ns3/natter_manager.cpp:72-77 | pushes the node to its parent and to nobody else |
| NatterBuild.NatterManager.ConnectChildren | daisi/src/natter-ns3/natter_manager.cpp:79-90 | pushes the node to exactly its existing children and returns them |
| NatterBuild.NatterManager.ConnectNeighbors | daisi/src/natter-ns3/natter_manager.cpp:92-126 | the while loops over digits and powers visit exactly the existing members of both routing tables |
| NatterBuild.NatterManager.ConnectAdjacents | daisi/src/natter-ns3/natter_manager.cpp:128-144 | pushes the node to the entries beside it in the linear projection |
| NatterBuild.NatterManager.ConnectNeighborChildren | daisi/src/natter-ns3/natter_manager.cpp:146-166 | every table neighbour gets all children, nobody else gets anything |
| NatterBuild.NatterManager.ConnectNode | daisi/src/natter-ns3/natter_manager.cpp:168-199 | what one round of the build adds to every node, with and without mode minhcast |
| NatterBuild.NatterManager.JoinMinhton | daisi/src/natter-ns3/natter_manager.cpp:168-199 | afterwards every node knows exactly its existing parent, children and table neighbours, and in mode minhcast also their children and both adjacents |
| MinhtonBuild.AssignPositions | daisi/src/minhton-ns3/minhton_manager_scheduler_helper.cpp:568-582 | the running level and number give node i the position with index i |
| MinhtonBuild.CollectNeighbors | daisi/src/minhton-ns3/minhton_manager_scheduler_helper.cpp:584-638 | every list holds exactly the existing parent, children, table neighbours and their children |
| MinhtonBuild.SortNodes | daisi/src/minhton-ns3/minhton_manager_scheduler_helper.cpp:640-654 | sorted by horizontal value with the same nodes |
| MinhtonBuild.SortedIsProjection | daisi/src/minhton-ns3/minhton_manager_scheduler_helper.cpp:640-654 | the sorted list is the linear projection that the other builder uses |
| MinhtonBuild.SetAdjacents | daisi/src/minhton-ns3/minhton_manager_scheduler_helper.cpp:656-672 | every node gets the entries beside it, the first and the last only one |
| MinhtonBuild.ExecuteStaticNetworkBuild | daisi/src/minhton-ns3/minhton_manager_scheduler_helper.cpp:543-684 | every node is told exactly its relatives and the nearest nodes by horizontal value on both sides; together these are the known peers |
| StaticBuilds.BuildBoth | daisi/src/minhton-ns3/minhton_manager_scheduler_helper.cpp:543-684 | for every number of nodes and fanout both builders, NATTER's in mode minhcast, leave every node with the same peers |
| Sorting.LowerBound | minhton/src/core/routing_information_general_helper.cpp:118-119 | binary search splits a list whose entries below the bound come first |
| Sorting.Sort | minhton/src/core/routing_information_table.cpp:36-38 | the same entries in the order of their keys, strictly if the keys differ |
| OverlayTables.RelatedIsTabled | daisi/src/minhton-ns3/minhton_manager_scheduler_helper.cpp:584-638 | the relatives that the builders look for are exactly the positions for which the routing information has slots |
| OverlayTables.PeersAreTabled | daisi/src/natter-ns3/natter_manager.cpp:168-199 | in mode minhcast a node is handed exactly the existing nodes it has slots for, and its two adjacents |
| NodeTables.FindSlot | minhton/src/core/routing_information_general_helper.cpp:118-123 | binary search hits the one slot that a linear search for the logical node finds, or none if there is none |
| NodeTables.StoreInTable | minhton/src/core/routing_information_general_helper.cpp:108-165 | the update equals the linear one: every slot of the position gets the address, all others stay |
| NodeTables.ClearInTable | minhton/src/core/routing_information_table.cpp:136-162 | the reset equals the linear one and reports exactly whether anything changed |
| NodeTables.FindAfterStore | minhton/src/core/routing_information_general_helper.cpp:108-165 | storing changes what is found at the node's position, if it has a slot, and nothing else |
| NodeTables.SortSlots | minhton/src/core/routing_information_table.cpp:25-38 | sorting the slots of distinct positions of a level puts them into the order of their numbers |
| RoutingState.ApplyFits | minhton/src/core/routing_information.cpp:36-407 | each of the sixteen operations, throwing or not, keeps every slot at its calculated position and the adjacents on their sides |
| RoutingState.RunFits | minhton/src/core/routing_information.cpp:27-407 | so does every sequence of operations, unless a node without an address takes a position |
| RoutingState.PlaceFitsIff | minhton/src/core/routing_information.cpp:36-51 | taking a position keeps that exactly if the node has an address or gives up its place |
| RoutingState.PlacedTooEarly | minhton/src/core/routing_information.cpp:36-51 | a new node that becomes the root before it has an address loses it |
| RoutingState.TablesSorted | minhton/src/core/routing_information_table.cpp:36-38 | both tables stay strictly sorted by horizontal value, hence free of duplicates |
| RoutingState.SplitIsExact | minhton/src/core/routing_information_table.cpp:63-82 | the stored index separates exactly the neighbours left of the node from those right of it |
| RoutingState.ChildSplitIsExact | minhton/src/core/routing_information_table.cpp:84-106 | the index times the fanout separates exactly the children of left from those of right neighbours |
| RoutingAnswers.TabledIff | minhton/src/core/routing_information_table.cpp:13-53 | exactly the parent, the children, the table neighbours and their children have slots |
| RoutingAnswers.SlotsApart | minhton/src/core/routing_information_table.cpp:13-53 | no position has slots of two kinds and the node has none for itself |
| RoutingAnswers.UpdateAnswers | minhton/src/core/routing_information_general_helper.cpp:188-227 | an update changes the answer at its position, if known, and no other answer |
| RoutingAnswers.RemoveAnswers | minhton/src/core/routing_information_general_helper.cpp:167-186 | a removal empties the answer at its position and changes no other |
| RoutingAnswers.RunAnswers | minhton/src/core/routing_information_general_helper.cpp:167-227 | after any sequence of updates and removals, refused ones included, every answer is what replaying the sequence on a map gives |
| RoutingEntries.CallEntry | minhton/src/core/routing_information.cpp:163-407 | each operation but a change of position, refused or not, writes to the slot of a position and to the adjacents exactly as one rule by kind of slot says |
| RoutingEntries.ReadIsAnswer | minhton/src/core/routing_information_general_helper.cpp:380-468 | the answer at a position is read from its one slot and the two adjacents, in the order that its kind fixes |
| RoutingEntries.RunReads | minhton/src/core/routing_information.cpp:163-407 | after any run of operations between two changes of position every answer is read from the replayed entry |
| RoutingEntries.AcceptsIff | minhton/src/core/routing_information.cpp:163-407 | a placed node throws exactly for the calls that do not fit the kind of the position they are about |
| RoutingEntries.UnplacedAccepts | minhton/src/core/routing_information.cpp:163-407 | an unplaced node can be placed and otherwise changes nothing; which updates it refuses |
| RoutingEntries.SelfAfter | minhton/src/core/routing_information.cpp:27-51 | only a change of position touches the node itself, and never its address |
| RoutingEntries.PlaceForgets | minhton/src/core/routing_information.cpp:27-51 | a change of position forgets every answer |
| RoutingLists.LookupIsAnswer | minhton/src/core/routing_information_general_helper.cpp:380-468 | searching the assembled list finds the address that the slots hold for the position |
| RoutingLists.GetNodeInfoIsAnswer | minhton/src/core/routing_information_general_helper.cpp:391-411 | the node returned for a valid position has the answered address and is at that position |
| RoutingLists.SymmetricalUnique | minhton/src/core/routing_information_general_helper.cpp:430-468 | the symmetrical neighbours are listed without duplicates |
| RoutingLists.KnownUniqueIff | minhton/src/core/routing_information_general_helper.cpp:380-388 | the list of all known neighbours has no duplicates exactly if no adjacent is also an existing child of a table neighbour |
| RoutingLists.AdjacentNephewDoubles | minhton/src/core/routing_information_general_helper.cpp:380-388 | a left adjacent that is such a child is listed twice as soon as it is updated |
| RoutingLists.KnownListsTwice | minhton/src/core/routing_information_general_helper.cpp:380-388 | a concrete state of fanout 3 with a duplicate |
| RoutingInformation.RoutingInformation.constructor | minhton/src/core/routing_information.cpp:17-25 | a placed node starts with empty slots at all calculated positions, an unplaced one with nothing |
| RoutingInformation.RoutingInformation.InitParentAndChildren | minhton/src/core/routing_information.cpp:62-87 | empty slots for the parent, except at the root, and for the children |
| RoutingInformation.RoutingInformation.InitRoutingTableNeighbors | minhton/src/core/routing_information_table.cpp:13-39 | both tables hold empty slots for the calculated positions from left to right; the split index counts the left ones |
| RoutingInformation.RoutingInformation.ResetPosition | minhton/src/core/routing_information.cpp:27-34 | everything but the split index is cleared |
| RoutingInformation.RoutingInformation.SetPosition | minhton/src/core/routing_information.cpp:36-51 | fresh slots at the new position, or cleared tables without an own address; the object is valid afterwards exactly if it has an address or is not placed; throws exactly for invalid positions |
| RoutingInformation.RoutingInformation.SetParentNode | minhton/src/core/routing_information.cpp:163-191 | throws exactly when unplaced, at the root, for another logical node or an uninitialized one; otherwise only the parent changes |
| RoutingInformation.RoutingInformation.SetChildNode | minhton/src/core/routing_information.cpp:197-227 | the same for one child slot |
| RoutingInformation.RoutingInformation.SetAdjacentLeft | minhton/src/core/routing_information.cpp:245-273 | accepts exactly initialized nodes of the same fanout strictly left of the node |
| RoutingInformation.RoutingInformation.SetAdjacentRight | minhton/src/core/routing_information.cpp:275-303 | accepts exactly initialized nodes of the same fanout strictly right of the node |
| RoutingInformation.RoutingInformation.ResetAdjacentLeft | minhton/src/core/routing_information.cpp:318-329 | drops the left adjacent and nothing else |
| RoutingInformation.RoutingInformation.ResetAdjacentRight | minhton/src/core/routing_information.cpp:305-316 | drops the right adjacent and nothing else |
| RoutingInformation.RoutingInformation.ResetChildAt | minhton/src/core/routing_information.cpp:393-407 | empties one child slot and nothing else |
| RoutingInformation.RoutingInformation.ResetRoutingTableNeighbor | minhton/src/core/routing_information.cpp:331-358 | empties the slot of the logical node and reports exactly whether anything changed |
| RoutingInformation.RoutingInformation.ResetRoutingTableNeighborChild | minhton/src/core/routing_information_table.cpp:136-162 | the same for the children of neighbours |
| RoutingInformation.RoutingInformation.ResetChildOrRoutingTableNeighborChild | minhton/src/core/routing_information.cpp:360-391 | choosing by division empties the node's slot wherever it is below, and reports exactly whether anything changed; dividing by a fanout of zero fails |
| RoutingInformation.RoutingInformation.UpdateRoutingTableNeighbor | minhton/src/core/routing_information_general_helper.cpp:108-134 | the slot of the logical node gets the address, all else stays |
| RoutingInformation.RoutingInformation.UpdateRoutingTableNeighborChild | minhton/src/core/routing_information_general_helper.cpp:136-165 | the same for the children of neighbours; another fanout throws |
| RoutingInformation.RoutingInformation.UpdateNeighbor | minhton/src/core/routing_information_general_helper.cpp:188-227 | the branches by kind and level equal storing the address in every slot and adjacent of that logical node; throws exactly for uninitialized nodes, for another fanout one level below, and when unplaced on its own or the next level; a throw leaves no trace |
| RoutingInformation.RoutingInformation.RemoveNeighbor | minhton/src/core/routing_information_general_helper.cpp:167-186 | the branches equal emptying every slot and adjacent of that logical node; the parent is refused |
| RoutingInformation.RoutingInformation.GetNodeInfo | minhton/src/core/routing_information_general_helper.cpp:391-411 | returns the answer for exactly the valid positions of a placed node |
| RoutingInformation.RoutingInformation.Sides | minhton/src/core/routing_information_table.cpp:63-82 | the two slices make up the table, one strictly left, one strictly right of the node |
| RoutingInformation.RoutingInformation.ChildSides | minhton/src/core/routing_information_table.cpp:84-106 | the two slices make up the children of left and of right neighbours |
| StationObjects.AgvQueue.Next | daisi/src/path_planning/agv_queue.cpp:21-31 | takes the first AGV of the queue |
| Stations.PassableIff | daisi/src/path_planning/pickup_station.cpp:301-313 | the condition on kinematics and route under which a consensus is started is that the calculation of the times goes through |
| StationSafety.NegotiationLands | daisi/src/path_planning/pickup_station.cpp:288-318 | a negotiation that starts leaves the AGV in the running consensus or on a retry timer and touches no other AGV; it throws exactly if no consensus runs and the times cannot be found |
| StationSafety.NextPointLands | daisi/src/path_planning/pickup_station.cpp:202-251 | an AGV that may drive on is sent exactly where its state and order call for, or handed over to its next station; this never throws and touches no other AGV |
| StationSafety.ReportLands | daisi/src/path_planning/pickup_station.cpp:87-93 | a driving AGV's report leads to exactly the pause or drive that follows its state; it throws exactly if it starts a negotiation that is refused |
| StationSafety.SpawnLands | daisi/src/path_planning/pickup_station.cpp:413-460 | the head of the queue, and no other AGV, is sent to the exit with an order that has routes; the countdown of AMRs stays within the queue |
| StationSafety.GoLands | daisi/src/path_planning/pickup_station.cpp:364-377 | at the agreed start the AGV drives to the end of its route, or is handed over there; this never throws |
| StationSafety.DueLands | daisi/src/path_planning/pickup_station.cpp:154-377 | a due timer finds its AGV in the state it was set for; a retry after a failed consensus is never refused |
| StationSafety.SpawnKeeps | daisi/src/path_planning/pickup_station.cpp:413-460 | spawning throws exactly if the time is over before all AMRs have started, and else keeps the station's invariant |
| StationSafety.MessageKeeps | daisi/src/path_planning/pickup_station.cpp:76-143 | a message throws exactly if the AGV is already owned, its destination is unknown, it comes too late or its route is refused, and else keeps the station's invariant |
| StationSafety.FireKeeps | daisi/src/path_planning/pickup_station.cpp:154-460 | a due timer throws exactly if spawning is too late or a route is refused, and else keeps the station's invariant |
| StationSafety.FoundKeeps | daisi/src/path_planning/pickup_station.cpp:319-341 | an agreement throws exactly if its start is not in the future, and else keeps the station's invariant |
| StationSafety.FailedKeeps | daisi/src/path_planning/pickup_station.cpp:342-361 | a failed consensus never throws and keeps the station's invariant |
| StationSafety.QueueIsExact | daisi/src/path_planning/pickup_station.cpp:111-221 | by the invariant the queue lists, without duplicates, exactly the owned AGVs that wait in it |
| StationSafety.PositionIsExact | daisi/src/path_planning/pickup_station.cpp:154-251 | by the invariant every driving AGV is sent where its state and order call for, and every other owned AGV stands where it was sent |
| StationSafety.OneContinuation | daisi/src/path_planning/pickup_station.cpp:154-377 | by the invariant an AGV that unloads or negotiates has exactly one pending continuation, any other AGV has none |
| StationSafety.ErrandIsExact | daisi/src/path_planning/pickup_station.cpp:154-251 | by the invariant an AGV has an order with routes exactly while it is on its errand, and is bound for another station only on its way out |
| StationSafety.FirstDelivery | daisi/src/path_planning/pickup_station.cpp:128-138 | the search for a destination finds the first delivery station there, and fails exactly if there is none |
| StationSafety.StrayReport | daisi/src/path_planning/pickup_station.cpp:87-93 | a report of an AGV that is not owned silently breaks the invariant |
| StationSafety.NegotiatedIsPassable | daisi/src/path_planning/pickup_station.cpp:288-341 | by the invariant a consensus runs, and an AGV waits for its start, only on a route whose times can be found |
| StationRuns.LaunchStep | daisi/src/path_planning/pickup_station.cpp:413-460 | a launch takes the first of the queue, sends it out with its order, counts it, and sets the next spawn timer exactly if more than one had to be started |
| StationRuns.QueueStep | daisi/src/path_planning/pickup_station.cpp:76-460 | in every event who joins goes to the end of the queue and who is sent out was at its front |
| StationRuns.QueueIsFifo | daisi/src/path_planning/pickup_station.cpp:76-460 | in every run those who have joined the queue are those who have been sent out, followed by the queue, in the same order |
| StationRuns.RetryCounts | daisi/src/path_planning/pickup_station.cpp:319-361 | in every run the retry counter is one more than the failures since the last agreement |
| StationRuns.PromiseIff | daisi/src/path_planning/pickup_station.cpp:111-460 | while a spawn timer is pending for the initial AGVs to be started, an event loses it exactly if it registers one after the last timer is over |
| StationRuns.RunPromised | daisi/src/path_planning/pickup_station.cpp:379-460 | in every run without such an event a spawn timer is pending while initial AGVs have to be started |
| StationRuns.InitialAgvsStart | daisi/src/path_planning/pickup_station.cpp:413-460 | from a pending timer with n AGVs to start, n rings in time send out the first n of the queue in order and leave none to start |
| StationRuns.LatecomerForgotten | daisi/src/path_planning/pickup_station.cpp:379-460 | a run in which an initial AGV registers too late and no timer is left for it |
| StationObjects.PickupStation.constructor | daisi/src/path_planning/pickup_station.cpp:38-49 | a new station is valid |
| StationObjects.PickupStation.ProcessMessage | daisi/src/path_planning/pickup_station.cpp:76-143 | a valid station throws exactly if it has to refuse a new AGV, a report comes too late or the route of the reporting AGV is refused, as its fields say before; otherwise it stays valid, and an AGV that joins goes to the end of the queue |
| StationObjects.PickupStation.Fire | daisi/src/path_planning/pickup_station.cpp:154-460 | the same for every scheduled event: it throws exactly if spawning is too late or a route is refused, and otherwise the station stays valid and AGVs leave from the front of the queue |
| StationObjects.PickupStation.ConsensusFound | daisi/src/path_planning/pickup_station.cpp:319-341 | a valid station throws exactly if the agreed start is not in the future and otherwise stays valid |
| StationObjects.PickupStation.ConsensusFailed | daisi/src/path_planning/pickup_station.cpp:342-361 | a valid station never throws and stays valid |
| StationObjects.PickupStation.ScheduleSpawnTO | daisi/src/path_planning/pickup_station.cpp:379-389 | a valid station stays valid |
| AgvObjects.SentOne | daisi/src/path_planning/agv_logical.cpp:173-279 | a further introduction with the AGV's kinematics, or a report to the station introduced to last, keeps all messages addressed |
| AgvObjects.AgvLogical.RegisterByAuthority | daisi/src/path_planning/agv_logical.cpp:173-191 | the station becomes the one the AGV has introduced itself to last, and every report so far went to such a station |
| AgvObjects.AgvLogical.ProcessMessage | daisi/src/path_planning/agv_logical.cpp:206-217 | throws exactly if the sender is not the station introduced to last, and then changes nothing; otherwise the goal goes on to the motors, and after a hand-over only the next station is obeyed |
| AgvObjects.AgvLogical.ProcessHandoverMessage | daisi/src/path_planning/agv_logical.cpp:254-279 | the next station becomes the authority and the one introduced to last, told the last position, the goal and the kinematics |
| AgvObjects.AgvLogical.ProcessMessageField | daisi/src/path_planning/agv_logical.cpp:236-252 | an arrival is reported to the station introduced to last, with the last position; nothing else changes who that is |
| AgvObjects.AgvPhysicalBasic.ReadFromSocket | daisi/src/path_planning/agv_physical_basic.cpp:77-101 | throws exactly during a move; the assertion about the position timer never fails; every accepted order is under way or has been reported once |
| AgvObjects.AgvPhysicalBasic.MobilityCallback | daisi/src/path_planning/agv_physical_basic.cpp:57-67 | the end of a move never throws, and then the arrivals reported are exactly the orders accepted |
| AgvObjects.AgvPhysicalBasic.SendPosUpdate | daisi/src/path_planning/agv_physical_basic.cpp:103-112 | a position on the way changes neither the orders accepted nor the arrivals reported |
| Authority.DownSafe | daisi/src/path_planning/agv_logical.cpp:206-279 | a message from a station never meets another authority: the drive goes on, or the hand-over becomes an introduction |
| Authority.ToPhysicalSafe | daisi/src/path_planning/agv_physical_basic.cpp:77-101 | a drive order never reaches moving motors |
| Authority.MoveDoneSafe | daisi/src/path_planning/agv_physical_basic.cpp:57-67 | the end of a move is always expected |
| Authority.ToLogicalSafe | daisi/src/path_planning/agv_logical.cpp:236-252 | positions are taken in, and the goal is reported at exactly the point the authority asked for |
| Authority.StationShares | daisi/src/path_planning/pickup_station.cpp:76-460 | by the invariant of the system every station satisfies the station's invariant |
| AuthoritySafety.InitialInv | daisi/src/path_planning/agv_logical.cpp:173-191 | the invariant holds initially, for any stations and any number of AGVs with any kinematics |
| AuthoritySafety.UpSafe | daisi/src/path_planning/pickup_station.cpp:76-143 | a station's handling of any AGV message keeps the invariant, or throws exactly if the message is a report that is late or whose route is refused |
| AuthoritySafety.DueSafe | daisi/src/path_planning/pickup_station.cpp:154-377 | an AGV's timer at a station keeps the invariant, or throws exactly if the route it starts to negotiate is refused |
| AuthoritySafety.AgreedSafe | daisi/src/path_planning/pickup_station.cpp:319-341 | a found consensus keeps the invariant, or throws exactly if its start is not in the future |
| AuthoritySafety.NotAgreedSafe | daisi/src/path_planning/pickup_station.cpp:342-361 | a failed consensus never throws and keeps the invariant |
| AuthoritySafety.StepSafe | daisi/src/path_planning/pickup_station.cpp:76-460 | every event that can happen keeps the invariant, or it throws, and it throws exactly if `Late`, `RouteRejected` or `Overdue` holds of the state and the event |
| AuthoritySafety.RunInv | daisi/src/path_planning/pickup_station.cpp:76-460 | the invariant holds in every state of every run, and every AGV keeps its kinematics |
| AuthoritySafety.RunSafe | daisi/src/path_planning/agv_logical.cpp:173-279 | after any run, the next event throws exactly if `Late`, `RouteRejected` or `Overdue` holds: all other modelled throws and asserts of stations and AGVs are unreachable |
| AuthoritySafety.FleetSafe | daisi/src/path_planning/pickup_station.cpp:288-341 | if every AGV of the fleet gets its times on every route, after any run the next event throws exactly if `Late` or `Overdue` holds |
| AuthoritySafety.DefaultsNeverNegotiate | daisi/src/path_planning/agv_logical.cpp:54-61 | with the default kinematics, after any run no station runs a consensus and no AGV waits for a negotiated start |
| AuthoritySafety.OneAuthority | daisi/src/path_planning/agv_logical.cpp:173-279 | a registered AGV has exactly one of: an owning station, a registration in flight, a hand-over in flight; and it is the station the AGV obeys |
| AuthoritySafety.ReportIsExact | daisi/src/path_planning/pickup_station.cpp:87-93 | a report finds the AGV owned and at the point it was sent to, and no other message is behind it |
| AuthorityTraces.StepTrace | daisi/src/path_planning/pickup_station.cpp:76-460 | every event of the system changes at most one station, and that one as an event of a station does |
| AuthorityTraces.QueuesInOrder | daisi/src/path_planning/pickup_station.cpp:76-460 | in the whole system who joins a queue goes to its end and who is sent out was at its front |
| AuthorityRuns.LateIsReachable | daisi/src/path_planning/pickup_station.cpp:413-460 | a run of one station and one AGV after which the spawn timer throws |
| AuthorityRuns.RejectionIsReachable | daisi/src/path_planning/pickup_station.cpp:288-313 | a run after which the AGV's report throws with default kinematics and with a brake four times as strong as the motor, and does not with equal ones |
| AuthorityRuns.OverdueIsReachable | daisi/src/path_planning/pickup_station.cpp:319-330 | a run after which the agreement throws |
| Framing.PrefixRoundTrip | daisi/src/network_tcp/framing_manager.cpp:27-37 | the big-endian prefix (Appendix B of RFC 791) gives back the size modulo 2^32 |
| Framing.PrefixOrder | daisi/src/network_tcp/framing_manager.cpp:27-37 | prefixes of larger sizes come later in lexicographic order: the most significant byte is first |
| Framing.SmallPrefix | daisi/src/network_tcp/framing_manager.cpp:27-37 | a size below 256 is the last of four bytes |
| Framing.DecodeOrder | daisi/src/network_tcp/framing_manager.cpp:61-73 | prefixes are read with the most significant byte first |
| Framing.FeedConcat | daisi/src/network_tcp/framing_manager.cpp:75-84 | processing a and then b is processing a followed by b, from any state |
| Framing.FeedFrames | daisi/src/network_tcp/framing_manager.cpp:75-84 | the stream of framed messages, empty ones included, delivers exactly the messages in order |
| Framing.FeedPart | daisi/src/network_tcp/framing_manager.cpp:86-93 | a first part of the stream is accepted exactly if it does not end inside a length prefix |
| Framing.AnyChunking | daisi/src/network_tcp/framing_manager.cpp:39-93 | however the stream is cut, it is accepted exactly if no cut is inside a prefix, and then yields exactly the messages |
| Framing.FramingManager.FrameMsg | daisi/src/network_tcp/framing_manager.cpp:27-37 | four bytes of length, then the message; a short message follows three zeros and its length |
| Framing.FramingManager.ReadPacket | daisi/src/network_tcp/framing_manager.cpp:39-59 | copies exactly what the open packet misses into its buffer and delivers it when full |
| Framing.FramingManager.HandleNewPacket | daisi/src/network_tcp/framing_manager.cpp:61-73 | opens a packet of the announced size; throws exactly if the prefix is cut |
| Framing.FramingManager.ProcessNewData | daisi/src/network_tcp/framing_manager.cpp:75-84 | the loop makes progress and leaves the state that the specification gives, also when it throws |
| Framing.FramingManager.NextPacket | daisi/src/network_tcp/framing_manager.cpp:95-103 | takes the oldest packet, throws exactly if there is none |
| Decimals.PaddedRoundTrip | daisi/src/cpps/packet.cpp:52-55 | a number below 10000 written with width 4 has four digits and is read back |
| Decimals.PaddedOrder | daisi/src/cpps/packet.cpp:52-55 | the four digits of larger lengths come later in lexicographic order, a length below 10 is the last digit |
| Decimals.StoiReads | daisi/src/cpps/packet.cpp:63-91 | reading a number skips spaces, takes a sign, ignores what follows the digits and fails exactly outside the range |
| CppsPacket.SmallPacket | daisi/src/cpps/packet.cpp:48-61 | four digits of length, the type, the payload |
| CppsPacket.AnyType | daisi/src/cpps/packet.cpp:63-91 | any byte is read as a type, relative to the digit zero |
| CppsPacket.NegativeLength | daisi/src/cpps/packet.cpp:63-91 | a negative length is never read |
| CppsPacket.ParseSerialized | daisi/src/cpps/packet.cpp:48-91 | what reading gives for everything that was written, whatever the types |
| CppsPacket.RoundTripIff | daisi/src/cpps/packet.cpp:48-91 | reading gives back the messages exactly if all types have one digit |
| CppsPacket.TwoDigits | daisi/src/cpps/packet.cpp:48-91 | a message of type 12 is read back as one of type 1 with a longer payload |
| CppsPacket.SizeIff | daisi/src/cpps/packet.cpp:40-46 | the announced size is the number of bytes written exactly if all types have one digit |
| CppsPacket.CppsTcpMessage.GetSerializedSize | daisi/src/cpps/packet.cpp:40-46 | the loop sums payloads and five bytes each |
| CppsPacket.CppsTcpMessage.Serialize | daisi/src/cpps/packet.cpp:48-61 | writes all messages, fails exactly if a body is too long |
| CppsPacket.CppsTcpMessage.Deserialize | daisi/src/cpps/packet.cpp:63-91 | appends the messages that can be read; fails at the first that cannot and keeps those before |
| SolaMessage.SizeIsExact | daisi/src/solanet-ns3/sola_message_ns3.cpp:37-39 | the announced size is the number of bytes written |
| SolaMessage.RoundTripIff | daisi/src/solanet-ns3/sola_message_ns3.cpp:41-74 | reading gives back the message exactly if its address has no separator, whatever the payload holds |
| SolaMessage.TextOfMessage | daisi/src/solanet-ns3/sola_message_ns3.cpp:41-48 | address, decimal port and payload, each followed by a semicolon |
| SolaMessage.PortWraps | daisi/src/solanet-ns3/sola_message_ns3.cpp:50-74 | a port of any size is read modulo 2^16, and any last byte is dropped |
| SolaMessage.NoSeparator | daisi/src/solanet-ns3/sola_message_ns3.cpp:50-74 | a text without separators is address, port and payload at once |
| SolaMessage.SeparatorInAddress | daisi/src/solanet-ns3/sola_message_ns3.cpp:41-74 | a concrete address that is not read back |
| SolaMessage.SolaMessageNs3.Serialize | daisi/src/solanet-ns3/sola_message_ns3.cpp:37-48 | writes as many bytes as announced, and they are read back exactly if the address has no separator |
| SolaMessage.SolaMessageNs3.Deserialize | daisi/src/solanet-ns3/sola_message_ns3.cpp:50-74 | splits at the first two separators and drops the last byte; fails exactly if the port is no number or nothing is left to drop |
| BalanceCheck.PerfectSizeIsGeo | evaluation/minhton/analysis/tree.py:42-53 | the closed formula is the number of nodes of the perfect tree |
| BalanceCheck.ExpectedIsPow | evaluation/minhton/analysis/tree.py:67-76 | the expected number of nodes is the number of positions of the level |
| BalanceCheck.CountFitsIff | evaluation/minhton/analysis/tree.py:67-82 | for distinct valid nodes the count of a level fits exactly if none of its positions is missing |
| BalanceCheck.ValidateNullBalanced | evaluation/minhton/analysis/tree.py:107-122 | accepts exactly the networks without gaps above the last level and lists exactly the levels with gaps |
| BalanceCheck.ValidatePerfectlyBalanced | evaluation/minhton/analysis/tree.py:85-103 | accepts exactly the networks whose last level is full too |
| BalanceCheck.PerfectSizeIff | evaluation/minhton/analysis/tree.py:56-64 | without gaps above, the size is perfect exactly if the last level is full |
| BalanceCheck.ValidateTreeStructure | evaluation/minhton/analysis/tree.py:125-155 | with both branches the whole check accepts exactly the networks without gaps above the last level |
| HeightCheck.AddedToTree | evaluation/minhton/analysis/tree.py:190-209 | adding a position after all of smaller levels turns the tree of a set into the tree of the larger set |
| HeightCheck.NotAdded | evaluation/minhton/analysis/tree.py:190-209 | a position is not added if a node on its way down is missing |
| HeightCheck.TreeHolds | evaluation/minhton/analysis/tree.py:174-209 | the tree of a parent-closed set holds exactly its positions below the root of the tree |
| HeightCheck.NotAddedUpwards | evaluation/minhton/analysis/tree.py:190-209 | a position that is not below the node is never added |
| HeightCheck.MaxIsLargest | evaluation/minhton/analysis/tree.py:211-219 | the largest height, 0 if there is none |
| HeightCheck.MinIsSmallest | evaluation/minhton/analysis/tree.py:232-237 | the smallest height |
| HeightCheck.TreeHeight | evaluation/minhton/analysis/tree.py:211-219 | the height of the tree of a set is the number of levels that the set has there |
| HeightCheck.BalancedEverywhere | evaluation/minhton/analysis/tree.py:221-239 | any tree is balanced exactly if in every subtree any two children's heights differ by at most one |
| HeightCheck.BalancedIff | evaluation/minhton/analysis/tree.py:221-239 | the tree of a set is balanced exactly if at every position of the set the numbers of levels below its children differ by at most one |
| HeightCheck.ChainIsUneven | evaluation/minhton/analysis/tree.py:221-239 | a chain of three nodes is not balanced |
| HeightCheck.TreeBalanced | evaluation/minhton/analysis/tree.py:211-239 | without gaps above the last level every subtree is balanced and as high as there are levels left, give or take one |
| HeightCheckObjects.TestNode.ForwardPosition | evaluation/minhton/analysis/tree.py:201-208 | the loop of parents finds the child subtree the position belongs to |
| HeightCheckObjects.TestNode.Add | evaluation/minhton/analysis/tree.py:190-209 | the linked nodes become the tree with the position added; fails exactly if a node on the way is missing |
| HeightCheckObjects.TestNode.GetHeight | evaluation/minhton/analysis/tree.py:211-219 | the height of the linked tree |
| HeightCheckObjects.TestNode.IsHeightBalanced | evaluation/minhton/analysis/tree.py:221-239 | true exactly if in every subtree any two children's heights differ by at most one |
| HeightCheckObjects.NullBalancedIsHeightBalanced | evaluation/minhton/analysis/tree.py:107-172 | a network without gaps above its last level is connected to its root and has a balanced tree |
| HeightCheckObjects.ValidateHeightBalancedStructure | evaluation/minhton/analysis/tree.py:158-172 | for a network with its root a tree is built exactly if every node has its parent; it then holds exactly the nodes and is accepted exactly if at every node the numbers of levels below its children differ by at most one; without gaps above the last level the check accepts |
| MemoMapper.Mapper.Internal | evaluation/minhton/analysis/treemapper.py:35-62 | the evaluation's recursion with its shared half of the fanout equals the overlay's mapping |
| MemoMapper.Mapper.Map | evaluation/minhton/analysis/treemapper.py:13-32 | over every sequence of calls with changing fanouts every answer and every remembered value is the one calculated from scratch |
| MotionTime.ShortTotalIff | daisi/src/path_planning/time_calculation_helper.cpp:77-163 | on a short route the phases never exceed it and add up to it exactly if both accelerations are equal or it has no length |
| MotionTime.ShortVelocity | daisi/src/path_planning/time_calculation_helper.cpp:77-163 | below the threshold the highest velocity is not reached, at the threshold it is |
| MotionTime.LongTotal | daisi/src/path_planning/time_calculation_helper.cpp:77-163 | above the threshold the highest velocity is reached and the phases always add up |
| MotionTime.VerifiedIff | daisi/src/path_planning/time_calculation_helper.cpp:44-66 | the results are accepted exactly if the distance is not the threshold and a polynomial inequality in distance, acceleration and deceleration holds |
| MotionTime.AddsUpIff | daisi/src/path_planning/time_calculation_helper.cpp:53-58 | that inequality holds exactly if the phases add up within the tolerance |
| MotionTime.RejectedAtThreshold | daisi/src/path_planning/time_calculation_helper.cpp:44-66 | a route of exactly the threshold is always rejected |
| MotionTime.StrongBrakeRejected | daisi/src/path_planning/time_calculation_helper.cpp:92-163 | a concrete route of length 10 that the phases take for one of length 8 |
| MotionTime.FourfoldBrake | daisi/src/path_planning/time_calculation_helper.cpp:42-58 | with a brake four times as strong as the motor the phases of a short route add up exactly below 5 cm |
| RouteTimes.FourfoldTimes | daisi/src/path_planning/time_calculation_helper.cpp:42-75 | and the times agree exactly below a quarter of a millimetre |
| RouteTimes.OnRouteIff | daisi/src/path_planning/time_calculation_helper.cpp:192-219 | an intersection is not past the calculated end exactly if an inequality in its distance and the inputs holds |
| RouteTimes.TimesAgreeIff | daisi/src/path_planning/time_calculation_helper.cpp:68-75 | the function's time for the whole route agrees with the phases within the tolerance exactly if an inequality in the inputs holds |
| RouteTimes.CalculatesIff | daisi/src/path_planning/time_calculation_helper.cpp:125-243 | the times at the intersections are found, with every check passed, exactly if the inputs satisfy these conditions |
| MotionTime.CalculatedSound | daisi/src/path_planning/time_calculation_helper.cpp:125-163 | on long routes and for equal accelerations the results describe one continuous motion over the whole route |
| MotionTime.AlwaysForward | daisi/src/path_planning/time_calculation_helper.cpp:173-224 | the motion is strictly increasing, across the phase borders too |
| MotionTime.TimeOfTravelled | daisi/src/path_planning/time_calculation_helper.cpp:173-224 | asked for the distance after a time, the function gives that time |
| MotionTime.TravelledAtTime | daisi/src/path_planning/time_calculation_helper.cpp:173-224 | after the time the function gives for a distance the vehicle is there |
| MotionTime.TimeIncreases | daisi/src/path_planning/time_calculation_helper.cpp:173-224 | a longer distance takes strictly longer |
| MotionTime.WholeRoute | daisi/src/path_planning/time_calculation_helper.cpp:68-75 | the whole route takes exactly the sum of the phase times |

## Left out

- 32-bit wrap-around, the 16-bit narrowing of the parent in the tree mapper, and floating-point rounding: numbers are unbounded and exact.
- The size checks of calcChildren and calcRightRT against overflow: they cannot trigger on unbounded numbers.
- calcPrioSet and isNodePartOfPrioSet: only a list of numbers that no modelled property uses.
- getCoveringDSNOrTempDSN, areWeTempDSN and getNextDSN: lookups whose intent the code does not fix.
- The value of the split index after resetPosition: the code does not clear it; table properties are stated while a position is held.
- Notifications to subscribers, logging, UUIDs and the node status: they do not feed back into the modelled state.
- Division by a fanout of zero in resetChildOrRoutingTableNeighborChild, for an unplaced node without a fanout, and erasing from an empty text in SolaMessageNs3: undefined in the code, a failing call in the model.
- Combining node vectors and the getters of leftmost, rightmost and lowest nodes: filters over the modelled tables.
- HeightCheckObjects.ValidateHeightBalancedStructure: for a network without its root, whose first node the code takes for the root, only the agreement of the result with the built tree is stated.
- The SQL queries of the evaluation, including the highest level, which is a parameter.
- MINHCAST, joining, leaving, searching and the MINHTON state machine.
- The consensus algorithms: consensus is a service that answers each request once.
- Liveness of the hand-over protocol: a run may stop serving a link or a timer.
- Route geometry beyond lengths and distances, equality and hashing of route identifiers (its equality compares one field with itself), and the default route that a subscript with a missing identifier adds: no run reaches it.
- Kinematics with a zero or negative velocity or acceleration other than the default zeros.
- Asserts and checks that are not modelled: that coordinates of a destination are numbers (a comparison with NaN that always holds), that the velocity is zero at the end of a move, that a drive message is initialized, that spawning is scheduled at its start time, that the pickup stations have two sides, that AMRs do not participate in Paxos, and that a message has a known type.
- Sending a report of arrival without an authority: no message is sent in the model; no run reaches it.
- Framing offsets above 32 bits: a chunk is assumed to be shorter than 4 GiB.
- The tolerance of the distance-to-time function beyond the end of the route is modelled, but the inverse is stated for distances on the route.
- Scenario parsing, ns-3 networking, sockets and database output.
