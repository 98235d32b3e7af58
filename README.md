# EchoAid evacuation core in Dafny

This project models the routing and coordination core of EchoAid, an indoor evacuation
assistant. The model covers these parts:

- **Map data** (module `MapData`): the floor-plan node table built from the raw room and
  exit entries, the corridor edge list, the exit list and the hallway node list.
- **Server router** (module `Pathfinding`): the A*-style search over the adjacency map that
  avoids blocked nodes, exit selection by path length plus 10 × congestion, the nearest-exit
  variant, and turn-by-turn direction synthesis.
- **Occupant and obstruction registry** (module `Backboard`): a class holding the `users`
  and `blockages` dictionaries.
- **Socket handlers** (module `SocketEvents`): join, position update, blockage report,
  reroute request, clear blockage, connect, disconnect and `reroute_user`. They are methods
  of a `Coordinator` class. It owns an outbox of emitted events, which stands in for the
  Socket.IO transport.
- **Fallback AI logic** (module `Gemini`): the keyword blockage parser, its dispatch from
  `parse_blockage_report`, and the least-loaded-exit suggestion.
- **Client-side brain** (module `ClientBrain`): the browser's own A* over blocked edges and
  the shared `brain` object (blocks list, users map, congestion counting, exit choice with a
  40 × congestion penalty, reroute-all).
- **Earthquake crowd sensing** (module `QuakeNetwork`): the sliding-window event store, the
  N-distinct-devices alert trigger with per-cell cooldown, queries and statistics.
- **Location cell grid** (module `CellGrid`): 60-unit cell ids, parsing ids back into bounds,
  neighbour enumeration and enumeration of all cells.
- **Wall post-processing** (module `Walls`): `remove_duplicates` and
  `merge_collinear_segments` over integer segments.

`Seqs`, `Text` and `Wrappers` hold shared helpers. These are distinctness of sequences,
decimal rendering and parsing of integers, lower-casing, substring search, and an `Option`
type.

The parts that update state step by step are written imperatively. These are the search
loop, the registry, the handlers, the brain, the event network and the two wall passes.
Each such method is proved equal to a specification function, or its new state is stated
outright. The properties the source promises are then proved about those functions as
lemmas:

- a found route is a simple walk that avoids the blocked nodes;
- a route is found whenever one exists;
- the chosen exit has the least score, ties going to the earliest exit;
- neighbour and cell enumerations are exact;
- de-duplication keeps first occurrences, and merging partitions its input.

Time, and the Euclidean distance and heuristic functions, are parameters. The model does not
compute square roots or arc tangents. The turn classification is stated exactly over the
cross and dot products.

On join (echoaid-server/events/socket_events.py:84-98), the exit is picked by
`get_best_exit`, and the only fallback is the exit picked by `get_nearest_exit`. Neither
choice looks at the blocked nodes; only the routes to the two exits avoid them. A join
therefore ends in `NO_ROUTE` when both of those exits are cut off, even if a third exit is
still reachable. `SocketEvents.JoinRoute` models exactly this.

## Model

| member | source | states |
|---|---|---|
| MapData.Tx | echoaid-server/models/map_data.py:9-11 | the projected x is zero exactly at the origin `OX` and positive exactly to its right |
| MapData.Ty | echoaid-server/models/map_data.py:13-15 | the projected y is zero exactly at `OY` and positive exactly below it |
| MapData.NodeKey | echoaid-server/models/map_data.py:98-99 | a node key is `"p"` followed by the decimal id |
| MapData.NodeKeyInjective | echoaid-server/models/map_data.py:98-99 | distinct raw ids give distinct keys |
| MapData.MakeNode | echoaid-server/models/map_data.py:99-108 | a node carries its key as id and the projected coordinates; a missing hallway flag becomes false and a missing colour stays None |
| MapData.BuildNodes | echoaid-server/models/map_data.py:97-108 | the dictionary-filling loop builds exactly the node table of the raw entries |
| MapData.NodesFromKeys | echoaid-server/models/map_data.py:97-108 | a key is in the node table iff it is the key of some raw entry, and that node's id equals its key |
| MapData.NodesFromEntry | echoaid-server/models/map_data.py:97-108 | with increasing raw ids, each raw entry's key maps to exactly that entry's node (no later entry overwrites it) |
| MapData.RawIdsIncreasing | echoaid-server/models/map_data.py:18-94 | the raw ids are strictly increasing, so no key is inserted twice |
| MapData.NodeAt | echoaid-server/models/map_data.py:18-108 | every raw entry of the floor appears in `NODES` as its own node |
| MapData.HallwayFromSound | echoaid-server/models/map_data.py:145-146 | every hallway-list key belongs to a raw entry that is a hallway or an exit |
| MapData.HallwayFromComplete | echoaid-server/models/map_data.py:145-146 | every raw hallway or exit entry is in the hallway list |
| MapData.HallwayNodesExact | echoaid-server/models/map_data.py:97-146 | the hallway list holds exactly the nodes whose hallway flag is true or whose type is EXIT |
| MapData.EdgesWithinEndpoints | echoaid-server/models/map_data.py:111-139 | every edge joins two distinct members of the corridor endpoint set |
| MapData.EndpointsNavigable | echoaid-server/models/map_data.py:18-146 | every corridor endpoint is a node and is in the hallway list |
| MapData.EdgesWellFormed | echoaid-server/models/map_data.py:111-146 | both endpoints of every edge are nodes in the hallway list, and no edge is a loop |
| MapData.ExitNodeAt | echoaid-server/models/map_data.py:90-108 | a raw exit entry's key is a node of type EXIT |
| MapData.ExitsAreExitNodes | echoaid-server/models/map_data.py:90-93 | every id in `EXITS` is a node of type EXIT |
| Pathfinding.AddEdge | echoaid-server/services/pathfinding.py:32-38 | adding a corridor links both ends to each other and changes no other adjacency |
| Pathfinding.BuildGraph | echoaid-server/services/pathfinding.py:26-38 | the graph-building loop yields exactly the adjacency map of the edge list |
| Pathfinding.GraphFromKeys | echoaid-server/services/pathfinding.py:26-38 | a node has an adjacency entry iff it is an endpoint of some edge |
| Pathfinding.GraphFromArcs | echoaid-server/services/pathfinding.py:26-38 | `b` is a neighbour of `a` iff `(a, b)` or `(b, a)` is an edge |
| Pathfinding.GraphFromClosed | echoaid-server/services/pathfinding.py:26-38 | the adjacency map is symmetric and every neighbour has an entry |
| Pathfinding.MinIndex | echoaid-server/services/pathfinding.py:69 | the heap pop takes the entry with the least `(f, counter)`, the earliest on ties |
| Pathfinding.Remove | echoaid-server/services/pathfinding.py:69 | popping removes one entry and keeps all others |
| Pathfinding.ExpandSpec | echoaid-server/services/pathfinding.py:80-90 | expansion pushes, in order, exactly the neighbours not closed and not blocked, each with the path extended by it and the next counter value |
| Pathfinding.Route | echoaid-server/services/pathfinding.py:55-60 | `find_route(s, s, B)` is `[s]`; an unknown start or goal otherwise gives `[]` |
| Pathfinding.PathfindingEngine.constructor | echoaid-server/services/pathfinding.py:20-24 | the engine holds the map data, and its distance is the Euclidean distance of node positions |
| Pathfinding.PathfindingEngine.FindRoute | echoaid-server/services/pathfinding.py:40-92 | the method returns exactly the search result over the built graph |
| Pathfinding.PathfindingEngine.SearchLoop | echoaid-server/services/pathfinding.py:64-92 | the heap loop returns exactly the result of the search specification |
| Pathfinding.PathfindingEngine.PushNeighbours | echoaid-server/services/pathfinding.py:79-90 | the neighbour loop pushes exactly what the expansion specification pushes |
| Pathfinding.SearchSound | echoaid-server/services/pathfinding.py:64-92 | from any consistent heap, a non-empty result is a walk from start to goal that avoids blocked nodes after the first and repeats no node |
| Pathfinding.RouteSound | echoaid-server/services/pathfinding.py:40-92 | a non-empty route starts at start, ends at goal, follows edges, avoids the blocked nodes and repeats no node |
| Pathfinding.RouteBlockedGoal | echoaid-server/services/pathfinding.py:80-82 | a blocked goal different from the start yields `[]` |
| Pathfinding.SearchComplete | echoaid-server/services/pathfinding.py:64-92 | while an unclosed goal is reachable through non-blocked nodes from a closed or pending node, the search does not return `[]` |
| Pathfinding.RouteComplete | echoaid-server/services/pathfinding.py:40-92 | whenever a blocked-node-avoiding walk from start to goal exists, the route is non-empty |
| Pathfinding.Reached | echoaid-server/services/pathfinding.py:127-129 | lists, in exit order, exactly the exits with a non-empty path |
| Pathfinding.ScoresReached | echoaid-server/services/pathfinding.py:126-138 | the score table has one entry per reachable exit, scored as path length plus the congestion penalty |
| Pathfinding.ScoresEmpty | echoaid-server/services/pathfinding.py:140-141 | the score table is empty iff no exit is reachable |
| Pathfinding.FirstMin | echoaid-server/services/pathfinding.py:144 | `min` picks the first entry with the least score |
| Pathfinding.ScoresLeast | echoaid-server/services/pathfinding.py:126-144 | the picked exit is reachable, has the least score, and precedes every other exit with that score |
| Pathfinding.BestExitLeast | echoaid-server/services/pathfinding.py:113-144 | the best exit is `p200` when none is reachable, else the reachable exit with the least length + 10 × congestion, the first in exit order on ties; blocked nodes are ignored |
| Pathfinding.BestExitIsExit | echoaid-server/services/pathfinding.py:113-144 | the best exit is always one of the exits |
| Pathfinding.PathfindingEngine.GetBestExit | echoaid-server/services/pathfinding.py:113-144 | the scoring loop returns exactly the best exit for the current routes with weight 10 |
| Pathfinding.PathfindingEngine.ExitScores | echoaid-server/services/pathfinding.py:124-138 | the loop builds exactly the score table |
| Pathfinding.PathfindingEngine.ScoreExit | echoaid-server/services/pathfinding.py:126-138 | one iteration extends the score table by the next exit when that exit is reachable |
| Pathfinding.PathfindingEngine.LeastScored | echoaid-server/services/pathfinding.py:144 | returns the first least-scored exit |
| Pathfinding.PathfindingEngine.GetNearestExit | echoaid-server/services/pathfinding.py:146-166 | the nearest exit is the best exit without the congestion term, `p200` by default |
| Pathfinding.Trunc | echoaid-server/services/pathfinding.py:229 | `int(distance)` truncates toward zero |
| Pathfinding.TurnOf | echoaid-server/services/pathfinding.py:285-300 | the turn is straight when cross = 0 and dot > 0; otherwise a non-straight turn is left for cross > 0 and right for cross < 0 |
| Pathfinding.TurnDirection | echoaid-server/services/pathfinding.py:262-300 | the same classification applied to the incoming and outgoing legs of three nodes |
| Pathfinding.StepAt | echoaid-server/services/pathfinding.py:219-252 | step i covers the distance to the next node; the first step goes straight and later ones turn as classified |
| Pathfinding.Legs | echoaid-server/services/pathfinding.py:219-252 | one step per leg of the route |
| Pathfinding.Directions | echoaid-server/services/pathfinding.py:210-260 | a route shorter than 2 gives no steps; otherwise there is one step per node |
| Pathfinding.DirectionsEnds | echoaid-server/services/pathfinding.py:223-258 | the first step is straight over the first leg, and the last is arrive with distance 0 |
| Pathfinding.DirectionsTurn | echoaid-server/services/pathfinding.py:233-252 | each middle step carries the turn classified at that node and the distance of the next leg |
| Pathfinding.PathfindingEngine.LegStep | echoaid-server/services/pathfinding.py:219-252 | one loop iteration builds exactly the specified step |
| Pathfinding.PathfindingEngine.GenerateDirections | echoaid-server/services/pathfinding.py:197-260 | the loop produces exactly the specified direction list |
| Backboard.BackboardService.constructor | echoaid-server/services/backboard_service.py:14-23 | the registry starts empty; it is enabled iff a real API key is given |
| Backboard.BackboardService.StoreUser | echoaid-server/services/backboard_service.py:25-41 | sets the user to exactly the given data and leaves every other user and every blockage unchanged |
| Backboard.BackboardService.UpdateUserPosition | echoaid-server/services/backboard_service.py:43-67 | a no-op for an unknown user; otherwise changes only that user's node, progress and update time |
| Backboard.BackboardService.UpdateUserRoute | echoaid-server/services/backboard_service.py:69-82 | a no-op for an unknown user; otherwise changes only that user's route and route time |
| Backboard.BackboardService.GetUser | echoaid-server/services/backboard_service.py:84-86 | the stored record, or None iff the user is unknown |
| Backboard.BackboardService.GetUserPosition | echoaid-server/services/backboard_service.py:88-91 | the user's current node, or None iff the user is unknown |
| Backboard.BackboardService.Routes | echoaid-server/services/backboard_service.py:93-95 | the route of every stored user, keyed by user id |
| Backboard.RoutesOf | echoaid-server/services/backboard_service.py:93-95 | the route map has the users' keys and each user's route |
| Backboard.Without | echoaid-server/services/backboard_service.py:104-105 | deleting an id from the insertion order removes exactly that id and keeps the rest distinct |
| Backboard.BackboardService.RemoveUser | echoaid-server/services/backboard_service.py:97-108 | deletes exactly that user; a no-op when the user is absent |
| Backboard.BackboardService.AddBlockage | echoaid-server/services/backboard_service.py:110-121 | the node becomes blocked with the new data, overwriting earlier data |
| Backboard.BackboardService.RemoveBlockage | echoaid-server/services/backboard_service.py:123-129 | the node is no longer blocked and nothing else changes, so a repeat is a no-op |
| Backboard.BackboardService.BlockedNodes | echoaid-server/services/backboard_service.py:131-133 | the blocked nodes are exactly the blockage keys |
| Backboard.AffectedExact | echoaid-server/services/backboard_service.py:135-150 | the affected list holds exactly the users whose route contains the node, each once |
| Backboard.BackboardService.GetUsersAffectedByBlockage | echoaid-server/services/backboard_service.py:135-150 | the loop returns, in registry order and without repeats, exactly the users whose route contains the node |
| Backboard.ActiveIn | echoaid-server/services/backboard_service.py:207 | the active count never exceeds the number of users counted |
| Backboard.ActiveInCounts | echoaid-server/services/backboard_service.py:207 | over distinct ids, the count is the number of listed users whose status is ACTIVE |
| Backboard.ActiveUsers | echoaid-server/services/backboard_service.py:202-211 | the active count of `get_stats` is the number of registered users whose status is ACTIVE |
| Backboard.BackboardService.GetStats | echoaid-server/services/backboard_service.py:202-211 | the totals are the sizes of the two dictionaries, and the active count is at most the total |
| SocketEvents.BestRouteSound | echoaid-server/events/socket_events.py:308-318 | a non-empty reroute path reaches the best exit and is an evacuation route avoiding every blocked node |
| SocketEvents.JoinRouteSound | echoaid-server/events/socket_events.py:84-98 | a non-empty join route, from the best exit or else the nearest exit, is an evacuation route avoiding every blocked node |
| SocketEvents.Coordinator.constructor | echoaid-server/events/socket_events.py:10-21 | the handlers share one registry, router and parser, and nothing has been emitted yet |
| SocketEvents.Coordinator.Connect | echoaid-server/events/socket_events.py:24-31 | emits exactly one `connected` event to the sender |
| SocketEvents.Coordinator.Disconnect | echoaid-server/events/socket_events.py:34-49 | removes the user and emits `user_left` with the stored name, or `Unknown`, to the others |
| SocketEvents.Coordinator.Join | echoaid-server/events/socket_events.py:51-123 | an invalid start emits INVALID_NODE and stores nothing; a valid join stores the user with an empty route first, keeps that user on NO_ROUTE, and otherwise stores the route and emits its last node as destination |
| SocketEvents.Coordinator.JoinAt | echoaid-server/events/socket_events.py:75-121 | the valid-start part of a join: store first, then route, then emit |
| SocketEvents.Coordinator.AssignRoute | echoaid-server/events/socket_events.py:84-98 | tries the best exit with the current blockages, then falls back to the nearest exit |
| SocketEvents.Coordinator.PositionUpdate | echoaid-server/events/socket_events.py:126-151 | an unknown user changes nothing; otherwise the position is stored and broadcast to the others |
| SocketEvents.Coordinator.RerouteUser | echoaid-server/events/socket_events.py:297-333 | fails and changes nothing for an absent user or when no route exists; otherwise stores a route avoiding every blocked node and notifies the user's room |
| SocketEvents.Coordinator.BlockageReport | echoaid-server/events/socket_events.py:153-243 | an empty or unparsed message emits an error and changes nothing. Otherwise an invalid location becomes the reporter's node (`p129` when unknown) and the blockage is stored. The users become exactly `Rerouting` of the affected users, one `reroute_user` call after another. The outbox gains the alerts, then the routes those calls sent, then the `blockage_added` broadcast counting the affected users and the successes. A user whose route missed the node is unchanged |
| SocketEvents.Coordinator.RecordBlockage | echoaid-server/events/socket_events.py:198-241 | stores the blockage. The users become exactly `Rerouting` of the affected users. The outbox gains one alert per registered affected user, then the routes of the successful reroutes, then the broadcast counting the affected users and those successes. Users whose route missed the node are unchanged; the others keep their record or get an evacuation route from their node that avoids every blocked node |
| SocketEvents.Alerts | echoaid-server/events/socket_events.py:203-222 | at most one alert per affected user, each to the room of an affected, registered user, with that user's truncated distance to the node and the report's severity, type and message |
| SocketEvents.AlertsReachEvery | echoaid-server/events/socket_events.py:203-222 | every affected user still registered gets an alert |
| SocketEvents.Rerouting | echoaid-server/events/socket_events.py:224-229 | the loop of `reroute_user` calls over the affected users keeps the registered ids and sends at most one route per affected user |
| SocketEvents.ReroutingSound | echoaid-server/events/socket_events.py:224-229 | after the loop every user keeps its record or holds an evacuation route from its own node stamped now, users not affected are unchanged, and every route sent goes to an affected user and ends at the exit it names |
| SocketEvents.RerouteStepSound | echoaid-server/events/socket_events.py:297-333 | one `reroute_user` call keeps those facts: it stores only a non-empty route to the best exit that avoids every blocked node |
| SocketEvents.Coordinator.AlertAffected | echoaid-server/events/socket_events.py:203-222 | the outbox gains exactly `Alerts(...)`: in order, for each affected user still registered, an alert to its room with its truncated distance to the node |
| SocketEvents.Coordinator.RerouteAffected | echoaid-server/events/socket_events.py:224-229 | the users, the routes sent and the count equal `Rerouting`: each affected user in turn is rerouted exactly when its best route, under the routes the earlier calls left, is non-empty, and `rerouted` is the number of those successes |
| SocketEvents.Coordinator.RerouteOne | echoaid-server/events/socket_events.py:225-228 | one iteration advances the loop state by exactly one `reroute_user` call and counts it on success |
| SocketEvents.Coordinator.RerouteRequest | echoaid-server/events/socket_events.py:246-276 | an unknown user gets an error; no route gives an error; otherwise the new route is stored and sent to the sender |
| SocketEvents.Coordinator.ClearBlockage | echoaid-server/events/socket_events.py:279-294 | a missing location emits an error; otherwise the blockage is removed and the clearing is broadcast |
| Gemini.Classify | echoaid-server/services/gemini_service.py:87-101 | first-match priority of critical, high and medium keywords over the lower-cased message; a critical report is FIRE iff it mentions fire or smoke |
| Gemini.MatchAtSound | echoaid-server/services/gemini_service.py:104 | a match at a position is a room token (three or four digits, or `h` and digits) found there, and a digit match stops only at a non-digit or after four digits |
| Gemini.Search | echoaid-server/services/gemini_service.py:104 | finds the leftmost match, or reports that there is none |
| Gemini.FallbackParseSpec | echoaid-server/services/gemini_service.py:83-112 | the location is `p` plus the leftmost room token of the original message, else the reporter's node; severity and type come from the classification; urgent iff CRITICAL or HIGH; never LOW |
| Gemini.GeminiService.ParseBlockageReport | echoaid-server/services/gemini_service.py:23-81 | a disabled service or a failed remote parse gives the fallback parse |
| Gemini.NewService | echoaid-server/services/gemini_service.py:13-21 | the service is enabled iff the key is non-empty and not the placeholder |
| Gemini.CountLoads | echoaid-server/services/gemini_service.py:179-185 | counts, for each of the four exits, the users whose non-empty route ends there |
| Gemini.LeastLoaded | echoaid-server/services/gemini_service.py:188 | picks the least-loaded exit, ties going to the earliest of `p200`–`p203` |
| Gemini.FallbackSuggestReroute | echoaid-server/services/gemini_service.py:174-194 | suggests the least-loaded exit, earliest on ties, with its load in the reason and HIGH priority |
| ClientBrain.Adjacency | echoaid-app/src/App.jsx:175-176 | every node gets an adjacency entry |
| ClientBrain.AdjacencyLinks | echoaid-app/src/App.jsx:175-176 | every adjacency comes from an edge in either direction that is not blocked as `a-b` or `b-a` |
| ClientBrain.AdjacencyComplete | echoaid-app/src/App.jsx:175-176 | every unblocked edge between known nodes is an adjacency in both directions |
| ClientBrain.BuildAdjacency | echoaid-app/src/App.jsx:175-176 | the edge loop builds exactly the adjacency specification |
| ClientBrain.Pick | echoaid-app/src/App.jsx:180 | the scan over the open set picks the first node with the least `f` |
| ClientBrain.PickLeast | echoaid-app/src/App.jsx:180 | the scan loop returns exactly that node |
| ClientBrain.RelaxAll | echoaid-app/src/App.jsx:182 | the neighbour loop performs exactly the specified relaxations |
| ClientBrain.Rebuild | echoaid-app/src/App.jsx:181 | a rebuilt path ends at the goal and starts at a node with no predecessor |
| ClientBrain.RebuildPath | echoaid-app/src/App.jsx:181 | the `from`-chain walk returns exactly the rebuilt path |
| ClientBrain.Step | echoaid-app/src/App.jsx:180-182 | one search round keeps the search state consistent |
| ClientBrain.Round | echoaid-app/src/App.jsx:180-182 | one loop round either returns the specified result or leaves a state that leads to it |
| ClientBrain.MainLoop | echoaid-app/src/App.jsx:180-183 | the while loop returns exactly the search result, `null` when the open set empties |
| ClientBrain.FindPath | echoaid-app/src/App.jsx:173-184 | an unknown start or end gives `null`; a known start equal to the end gives `[s]` |
| ClientBrain.AStar | echoaid-app/src/App.jsx:173-184 | the method returns exactly the search specification |
| ClientBrain.RunSound | echoaid-app/src/App.jsx:180-183 | from a consistent state, any returned path starts at the start, ends at the goal and follows unblocked edges |
| ClientBrain.FindPathSound | echoaid-app/src/App.jsx:173-184 | a non-null result starts at `s`, ends at `e`, and every step is an edge not blocked in either spelling |
| ClientBrain.EdgesOf | echoaid-app/src/App.jsx:193 | `blocked()` lists the edge of every block, in order |
| ClientBrain.WithBlock | echoaid-app/src/App.jsx:190 | appends a new block only when its edge is absent, and keeps the existing blocks |
| ClientBrain.WithBlockDistinct | echoaid-app/src/App.jsx:190 | adding keeps block edges distinct, and the edge is then blocked |
| ClientBrain.Drop | echoaid-app/src/App.jsx:191 | removal never lengthens the list |
| ClientBrain.DropMembers | echoaid-app/src/App.jsx:191 | `rmBlock(e)` keeps exactly the blocks whose edge is not `e` |
| ClientBrain.DropAbsent | echoaid-app/src/App.jsx:191 | removing an absent edge changes nothing |
| ClientBrain.DropDistinct | echoaid-app/src/App.jsx:191 | removal keeps block edges distinct |
| ClientBrain.Brain.constructor | echoaid-app/src/App.jsx:189 | the brain starts with no users and no blocks |
| ClientBrain.Brain.AddBlock | echoaid-app/src/App.jsx:190 | the new block list is the add-if-absent of the old one, and a copy is returned |
| ClientBrain.Brain.RmBlock | echoaid-app/src/App.jsx:191 | the new block list drops every block with that edge |
| ClientBrain.Brain.ClearBlocks | echoaid-app/src/App.jsx:192 | empties the block list and leaves the users unchanged |
| ClientBrain.Brain.BlockedEdges | echoaid-app/src/App.jsx:193 | the edge of every block, in order |
| ClientBrain.Tally | echoaid-app/src/App.jsx:195 | the counting loop adds each node's number of occurrences in a path |
| ClientBrain.OccupancyZero | echoaid-app/src/App.jsx:195 | a node's count is 0 iff no user's path contains it |
| ClientBrain.Brain.Cong | echoaid-app/src/App.jsx:195 | every node has a count equal to its occurrences across all users' paths |
| ClientBrain.Brain.Measure | echoaid-app/src/App.jsx:198 | the inner loop sums the edge distances and 40 × the congestion of every node after the start |
| ClientBrain.Brain.Length | echoaid-app/src/App.jsx:200 | the inner loop sums the edge distances of the path |
| ClientBrain.Candidates | echoaid-app/src/App.jsx:198 | one search result per exit in `EX_IDS`, in order |
| ClientBrain.CheapestLeast | echoaid-app/src/App.jsx:198 | the choice is null iff no exit is reachable; otherwise it is a found path of least cost, the first in `EX_IDS` on ties |
| ClientBrain.ChoiceSound | echoaid-app/src/App.jsx:196-199 | a chosen path leads from the start to an exit over unblocked edges |
| ClientBrain.Brain.Choose | echoaid-app/src/App.jsx:198 | the exit loop returns exactly the cheapest candidate |
| ClientBrain.Brain.Route | echoaid-app/src/App.jsx:196-199 | returns the cheapest evacuation path and stores the user only when a path exists; the blocks are unchanged |
| ClientBrain.Brain.LocalRoute | echoaid-app/src/App.jsx:200 | returns the shortest found path by distance alone and changes no state |
| ClientBrain.Brain.Reroute | echoaid-app/src/App.jsx:201 | the turn succeeds exactly when `route()` from the stored start finds a path; then the user holds that path and the path evacuates; otherwise nothing changes |
| ClientBrain.RerouteFold | echoaid-app/src/App.jsx:201 | the users, turn by turn in Map order, each `route()` seeing the paths already stored, keep their ids; only visited ids are reported |
| ClientBrain.RerouteFoldSound | echoaid-app/src/App.jsx:201 | every user keeps its start; a reported user holds a path that evacuates from it; a user never reported keeps its old record |
| ClientBrain.RerouteFoldDistinct | echoaid-app/src/App.jsx:201 | over distinct ids each id is reported at most once |
| ClientBrain.Brain.RerouteNext | echoaid-app/src/App.jsx:201 | one iteration advances the users and the result by exactly one turn of `RerouteFold` |
| ClientBrain.Brain.RerouteAll | echoaid-app/src/App.jsx:201 | the users and the returned ids are exactly `RerouteFold` over the users in Map order: an id is returned exactly when its turn found a path; order and blocks are unchanged |
| ClientBrain.Brain.Count | echoaid-app/src/App.jsx:202 | the number of users |
| QuakeNetwork.DedupSpec | echoaid-app/src/EarthquakeEventNetwork.jsx:73 | the distinct-device list has the same members as the input, no repeats, and the size of the device set |
| QuakeNetwork.AfterSpec | echoaid-app/src/EarthquakeEventNetwork.jsx:48-49 | pruning keeps exactly the events and alerts newer than the cutoff |
| QuakeNetwork.RecentSpec | echoaid-app/src/EarthquakeEventNetwork.jsx:60-65 | the recent events are exactly those of the cell, inside the window, at or above the minimum intensity |
| QuakeNetwork.Largest | echoaid-app/src/EarthquakeEventNetwork.jsx:92 | the maximum intensity is one of the intensities and bounds them all |
| QuakeNetwork.Confidence | echoaid-app/src/EarthquakeEventNetwork.jsx:103-105 | the confidence never exceeds 100 and equals the raw score when that is at most 100 |
| QuakeNetwork.Find | echoaid-app/src/EarthquakeEventNetwork.jsx:79-83 | `find` returns the first element satisfying the test, or none when no element does |
| QuakeNetwork.TriggerWhen | echoaid-app/src/EarthquakeEventNetwork.jsx:60-86 | an alert is raised iff there are at least N recent events from at least N distinct devices and no cooldown alert for the cell; otherwise the alerts are unchanged |
| QuakeNetwork.TriggerRaised | echoaid-app/src/EarthquakeEventNetwork.jsx:89-112 | a raised alert counts the distinct devices (at least N), lists them once each, has confidence at most 100, is kept, and every retained alert is newer than 60 s |
| QuakeNetwork.Network.constructor | echoaid-app/src/EarthquakeEventNetwork.jsx:13-24 | the network starts empty with the default configuration |
| QuakeNetwork.Network.ReportShaking | echoaid-app/src/EarthquakeEventNetwork.jsx:28-55 | without a cell nothing changes and null is returned; otherwise the device heartbeat is recorded (default `anon`), the new event is kept, every event is newer than 10 s, and the alert state is the trigger's |
| QuakeNetwork.Network.Heartbeat | echoaid-app/src/EarthquakeEventNetwork.jsx:34 | records the device's last time and changes nothing else |
| QuakeNetwork.Network.CheckAlertTrigger | echoaid-app/src/EarthquakeEventNetwork.jsx:58-115 | the result and the new alerts are exactly the trigger specification's |
| QuakeNetwork.SliceFrom | echoaid-app/src/EarthquakeEventNetwork.jsx:123 | `slice(-limit)` returns the last `limit` elements, or all when fewer |
| QuakeNetwork.Network.RecentEventsSpec | echoaid-app/src/EarthquakeEventNetwork.jsx:118-124 | for a positive limit, at most that many events, the last ones in order, all from the given cell when one is supplied |
| QuakeNetwork.Network.GetAlerts | echoaid-app/src/EarthquakeEventNetwork.jsx:127-129 | a copy of the alert list |
| QuakeNetwork.Network.GetAlertForCell | echoaid-app/src/EarthquakeEventNetwork.jsx:132-134 | the first alert for the cell, or none when there is none |
| QuakeNetwork.Network.ActiveDevicesSpec | echoaid-app/src/EarthquakeEventNetwork.jsx:137-144 | the active devices are exactly those seen within 30 s, each once |
| QuakeNetwork.Override | echoaid-app/src/EarthquakeEventNetwork.jsx:148 | each supplied key replaces its value; the others keep theirs |
| QuakeNetwork.Network.SetConfig | echoaid-app/src/EarthquakeEventNetwork.jsx:147-150 | the configuration becomes the override and nothing else changes |
| QuakeNetwork.Network.GetConfig | echoaid-app/src/EarthquakeEventNetwork.jsx:153-155 | the current configuration |
| QuakeNetwork.Network.Reset | echoaid-app/src/EarthquakeEventNetwork.jsx:158-162 | events, alerts and devices become empty, and the configuration is kept |
| QuakeNetwork.TallySnoc | echoaid-app/src/EarthquakeEventNetwork.jsx:171-185 | one more event updates only its own cell's running statistics |
| QuakeNetwork.TallyEvents | echoaid-app/src/EarthquakeEventNetwork.jsx:171-185 | the `forEach` builds exactly the per-cell statistics |
| QuakeNetwork.TallyKeys | echoaid-app/src/EarthquakeEventNetwork.jsx:171-179 | a cell has statistics iff some recent event is in it |
| QuakeNetwork.TallyCell | echoaid-app/src/EarthquakeEventNetwork.jsx:171-185 | a cell's statistics are those of its own events alone: count, distinct devices, intensity sum and running maximum |
| QuakeNetwork.CellStats | echoaid-app/src/EarthquakeEventNetwork.jsx:188-192 | the final statistics have the same cells as the running ones |
| QuakeNetwork.Network.GetStats | echoaid-app/src/EarthquakeEventNetwork.jsx:165-199 | the totals count the events and alerts of the last 60 s and the active devices, with per-cell statistics of the recent events |
| CellGrid.CeilDiv | echoaid-app/src/LocationCellGrid.jsx:89-90 | `Math.ceil` of the quotient is the least multiple count that covers the dividend |
| CellGrid.CellIndex | echoaid-app/src/LocationCellGrid.jsx:28-29 | the floor of `v / 60` puts `v` inside its cell |
| CellGrid.GetCellId | echoaid-app/src/LocationCellGrid.jsx:26-31 | null iff a coordinate is missing; otherwise `cell_` with the two floored cell indices |
| CellGrid.Search | echoaid-app/src/LocationCellGrid.jsx:34 | the pattern search finds a match position, or reports none |
| CellGrid.SearchSpec | echoaid-app/src/LocationCellGrid.jsx:34 | the match found is the leftmost one |
| CellGrid.GetCellBounds | echoaid-app/src/LocationCellGrid.jsx:33-46 | the bounds form a 60 × 60 box at 60 times the cell indices |
| CellGrid.GetCellBoundsSpec | echoaid-app/src/LocationCellGrid.jsx:33-46 | the bounds are null iff the pattern occurs nowhere; otherwise the indices are those of the leftmost match |
| CellGrid.CellNameParses | echoaid-app/src/LocationCellGrid.jsx:30-46 | parsing a generated id, negative indices included, gives back its indices |
| CellGrid.CellNameInjective | echoaid-app/src/LocationCellGrid.jsx:30 | distinct index pairs give distinct ids |
| CellGrid.CellIdRoundTrip | echoaid-app/src/LocationCellGrid.jsx:26-46 | a point lies within the bounds of its own cell id |
| CellGrid.GetCellCenter | echoaid-app/src/LocationCellGrid.jsx:48-55 | null iff the bounds are null; otherwise the midpoint of the box |
| CellGrid.NearbyAsWrittenThrows | echoaid-app/src/LocationCellGrid.jsx:62-75 | as written, a named compass direction makes `getNearbyCell` throw |
| CellGrid.Offsets | echoaid-app/src/LocationCellGrid.jsx:62-73 | the single offset of each compass direction; all eight for any other direction that is not an inherited object member |
| CellGrid.GetNearbyCell | echoaid-app/src/LocationCellGrid.jsx:57-84 | an unparsable id gives no neighbours |
| CellGrid.NeighboursSpec | echoaid-app/src/LocationCellGrid.jsx:74-83 | the neighbours are exactly the shifted cells inside the view box |
| CellGrid.NearbySpec | echoaid-app/src/LocationCellGrid.jsx:57-84 | at most 8 ids, each inside 1200 × 820, and exactly the in-box cells at the direction's offsets |
| CellGrid.GetAllCells | echoaid-app/src/LocationCellGrid.jsx:87-97 | the nested loops produce exactly the column-major list of cell names |
| CellGrid.AllCellsSpec | echoaid-app/src/LocationCellGrid.jsx:87-97 | 280 distinct ids, cell `k` being column `k / 14` and row `k % 14` |
| CellGrid.AllCellsCover | echoaid-app/src/LocationCellGrid.jsx:26-97 | every point of the view box has its cell among all cells |
| Walls.Normalize | ExtractingCoords/optimize_walls.py:78-79 | a normalised wall has ordered ends, taken from the original coordinates |
| Walls.RemoveDuplicates | ExtractingCoords/optimize_walls.py:73-93 | the loop returns exactly the de-duplication specification |
| Walls.DedupLength | ExtractingCoords/optimize_walls.py:73-93 | the output is no longer than the input |
| Walls.DedupNormalized | ExtractingCoords/optimize_walls.py:77-79 | every output wall is normalised |
| Walls.DedupSeparated | ExtractingCoords/optimize_walls.py:81-91 | no output wall lies within 2 of an earlier one in all four coordinates |
| Walls.DedupCovers | ExtractingCoords/optimize_walls.py:80-93 | every input's normalised form lies within 2 of some output |
| Walls.KeptIndicesOrder | ExtractingCoords/optimize_walls.py:76-91 | the outputs are normalised inputs in increasing input order |
| Walls.KeptIndicesFirst | ExtractingCoords/optimize_walls.py:81-91 | an input is kept iff nothing kept before it is within tolerance, so first occurrences win |
| Walls.Insert | ExtractingCoords/optimize_walls.py:10 | insertion adds exactly one wall |
| Walls.InsertSorted | ExtractingCoords/optimize_walls.py:10 | insertion keeps the order by `(min x, min y)` |
| Walls.SortWalls | ExtractingCoords/optimize_walls.py:10 | the sort is ordered by `(min x, min y)` and a permutation of its input |
| Walls.CollectGroupShape | ExtractingCoords/optimize_walls.py:22-56 | a group starts with its seed and repeats no index |
| Walls.CollectGroupMembers | ExtractingCoords/optimize_walls.py:25-56 | a group holds the seed and exactly the later unused walls that join it, and they become used |
| Walls.GroupsPartition | ExtractingCoords/optimize_walls.py:12-56 | the groups cover every unused index exactly once |
| Walls.MergeWalls | ExtractingCoords/optimize_walls.py:58-69 | a single candidate is kept unchanged; a horizontal group becomes a level wall from the least to the greatest x at a mean y, and a vertical group symmetrically |
| Walls.TruncMean | ExtractingCoords/optimize_walls.py:63 | `int(np.mean(...))` lies between the least and the greatest coordinate |
| Walls.CollectCandidates | ExtractingCoords/optimize_walls.py:22-56 | the inner loop gathers exactly the group's walls and the new used set |
| Walls.MergeNext | ExtractingCoords/optimize_walls.py:12-69 | one outer iteration keeps the merged prefix on track to the specified result |
| Walls.MergeCollinearSegments | ExtractingCoords/optimize_walls.py:4-71 | the loop returns exactly the merge specification |
| Walls.MergeSpecSpec | ExtractingCoords/optimize_walls.py:4-71 | every sorted wall joins exactly one group, and there is one output per group, so the output is no longer than the input |

## Left out

- The remote Gemini model calls, the remote reroute suggestion and the Backboard.io HTTP helpers are not modelled. The remote parse is a `remote` parameter: present means the model answered, absent means the call failed.
- The ElevenLabs voice service, the Flask application, the threaded server and the `print` logging are not part of this model.
- Socket.IO `emit` and `request.sid` are modelled as an outbox of `(event, scope)` pairs and a session-id parameter. Delivery is not modelled.
- `time.time()`, `Date.now()` and the per-user clock are a `now` parameter of each operation.
- Concurrency is not modelled: handlers run one at a time.
- Floating point: `sqrt`, `atan2`, degrees, coordinate scaling and averages use real numbers, not IEEE doubles. The Euclidean distance and the A* heuristic are function parameters. Turn classification is stated exactly over the cross and dot products.
- Pathfinding.PathfindingEngine.FindRoute: optimality is not claimed. The step cost is a hop count, but the heuristic is Euclidean, so it is not admissible.
- ClientBrain.FindPath: the search runs at most `fuel` rounds, and the `from`-chain walk at most `|from|` steps. The source relies on non-negative distances to terminate. Soundness is proved for every bound, but completeness and optimality are not claimed.
- ClientBrain: the floor data (`NODES`, `NM`, `EDGES` and their coordinates) is a `Floor` parameter, and the `NAV_RAW` room list is not modelled. The model takes a position for every id. In the source an edge endpoint missing from `NM` makes `dist` read the coordinates of `undefined` and throw; such floors are not modelled.
- CellGrid.Offsets: a direction naming an inherited member of a plain JavaScript object, such as `constructor` or `toString`, selects that member instead of `all`, and `map` then throws. The model sends every such direction to `all`.
- ClientBrain: the `by` field of a block is named `reporter`, because `by` is reserved.
- ClientBrain: `brain.blocks()` returns a copy of the list. `seed(n)` needs the `NAV_RAW` room data and is not modelled.
- SocketEvents.Coordinator.PositionUpdate: a message without `currentNode` stores a missing position in the source. The model always takes a node.
- Gemini.Classify: lower-casing is ASCII only. Python's `str.lower` also folds other letters, for example the Kelvin sign U+212A to `k`, so `"SMO\u212aE"` is CRITICAL/FIRE in the source but HIGH/OTHER here.
- Gemini.MatchAtSound: a digit is `0`–`9` only. Python's `\d` matches every Unicode decimal digit, such as the Arabic-Indic digits.
- Gemini.FallbackParseSpec: inherits both restrictions. For `"fire at ١٢٣"` the source's location is `p١٢٣`, while the model gives the reporter's node.
- Gemini: the `startswith('p')` test at line 108 can never fail, because the location is either `p` plus a match or the reporter's node. The model keeps the location as computed.
- QuakeNetwork: `features` is kept as given, and the average and confidence use real division.
- QuakeNetwork.Confidence: reals have no NaN. With no distinct device and an `N_DEVICES` of 0, the source computes `0 / 0`, so its confidence is NaN, while the model gives 100.0.
- QuakeNetwork.TriggerRaised: `setConfig` accepts an `N_DEVICES` of 0 or less. An alert is then raised even when no report counts. From that empty list the source computes an `avgIntensity` of NaN, a `maxIntensity` of -Infinity (`Math.max()`) and a confidence of NaN, so "confidence at most 100" does not hold there. The model gives 0.0, 0.0 and a finite confidence.
- Walls: `int(np.mean(...))` truncates toward zero. `TruncMean` models this for integers of either sign. `format_for_js` and the file I/O are not modelled.
- LocationCellGrid `renderGrid`, the React UI and the sensor code are not part of this model.

## Findings

| source | as written | input that shows it | evidently intended | confidence | as-written member | corrected member |
|---|---|---|---|---|---|---|
| echoaid-app/src/LocationCellGrid.jsx:62-75 | the compass entries of `offsets` are flat pairs such as `[0, -1]`, yet `dirs.map(([dx, dy]) => …)` destructures each element as a pair, so the number `0` is destructured and a TypeError is thrown | `getNearbyCell("cell_1_1", "north")` | each compass entry is a one-element list of pairs, such as `[[0, -1]]`, giving the single neighbour in that direction clipped to the view box | not executed | CellGrid.NearbyAsWrittenThrows | CellGrid.NearbySpec |
