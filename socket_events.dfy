// The real-time coordination handlers (echoaid-server/events/socket_events.py). Each handler
// is a method over the registry and the router; what the source emits is appended to an
// outbox, with the session id and the clock passed in as parameters.

module SocketEvents {
  import opened Wrappers
  import MapData
  import Pathfinding
  import Backboard
  import Gemini
  import Seqs

  /** Who receives an emitted event. */
  datatype Scope = Sender | Broadcast | Others | Room(sid: string)

  /** The events the handlers emit, with their payloads. */
  datatype Event =
    | Connected(userId: string, message: string, timestamp: real)
    | UserLeft(userId: string, name: string, timestamp: real)
    | Error(message: string, code: Option<string>)
    | RouteAssigned(userId: string, route: seq<string>, destination: string, reason: string,
                    timestamp: real)
    | UserJoined(userId: string, name: string, position: string, timestamp: real)
    | UserPosition(userId: string, name: string, currentNode: string, progress: int, timestamp: real)
    | BlockageAlert(location: string, distance: int, severity: string, kind: string, message: string,
                    timestamp: real)
    | BlockageAdded(location: string, severity: string, kind: string, message: string,
                    reportedBy: string, affectedUsers: nat, reroutedUsers: nat, timestamp: real)
    | BlockageCleared(location: string, timestamp: real)

  datatype Emit = Emit(event: Event, scope: Scope)

  /** The node assumed for a missing start node or reporter position. */
  const DEFAULT_NODE := "p129"

  /** The name given to a user who joins without one: 'User-' and the first six characters of the session id. */
  function DefaultName(sid: string): string {
    "User-" + (if |sid| <= 6 then sid else sid[..6])
  }

  /** The exit get_best_exit picks from `current` under the given user routes. */
  function BestExitFor(e: Pathfinding.PathfindingEngine, current: string,
                       routes: map<string, seq<string>>): string
    requires e.Valid()
  {
    Pathfinding.GraphFromClosed(e.edges);
    Pathfinding.BestExit(e.graph, e.dist, current, e.exits, routes, 10)
  }

  /** The route to the best exit, avoiding the blocked nodes. */
  function BestRoute(e: Pathfinding.PathfindingEngine, current: string,
                     routes: map<string, seq<string>>, blocked: set<string>): seq<string>
    requires e.Valid()
  {
    Pathfinding.GraphFromClosed(e.edges);
    Pathfinding.Route(e.graph, e.dist, current, BestExitFor(e, current, routes), blocked)
  }

  /** The route to the nearest exit, avoiding the blocked nodes. */
  function NearestRoute(e: Pathfinding.PathfindingEngine, current: string, blocked: set<string>)
    : seq<string>
    requires e.Valid()
  {
    Pathfinding.GraphFromClosed(e.edges);
    Pathfinding.Route(e.graph, e.dist, current,
                      Pathfinding.BestExit(e.graph, e.dist, current, e.exits, map[], 0), blocked)
  }

  /** The route a join assigns: to the best exit, else to the nearest exit. */
  function JoinRoute(e: Pathfinding.PathfindingEngine, start: string,
                     routes: map<string, seq<string>>, blocked: set<string>): seq<string>
    requires e.Valid()
  {
    var r := BestRoute(e, start, routes, blocked);
    if r != [] then r else NearestRoute(e, start, blocked)
  }

  /** An evacuation route: from `start` to one of the exits along edges, through no blocked node, never revisiting a node. */
  predicate EvacuationRoute(e: Pathfinding.PathfindingEngine, r: seq<string>, start: string,
                            blocked: set<string>) {
    |r| >= 1 && r[0] == start && r[|r| - 1] in MapData.EXITS && Pathfinding.IsWalk(e.graph, r)
    && Pathfinding.Avoids(r, blocked) && Seqs.Distinct(r)
  }

  /** A non-empty route to the best exit is an evacuation route, ending at the best exit. */
  lemma BestRouteSound(e: Pathfinding.PathfindingEngine, current: string,
                       routes: map<string, seq<string>>, blocked: set<string>)
    requires e.Valid() && e.exits == MapData.EXITS
    ensures var r := BestRoute(e, current, routes, blocked);
            r != [] ==> EvacuationRoute(e, r, current, blocked)
                        && r[|r| - 1] == BestExitFor(e, current, routes)
  {
    Pathfinding.GraphFromClosed(e.edges);
    var x := BestExitFor(e, current, routes);
    Pathfinding.BestExitIsExit(e.graph, e.dist, current, e.exits, routes, 10);
    Pathfinding.RouteSound(e.graph, e.dist, current, x, blocked);
  }

  /** Whatever route a join assigns is an evacuation route from the start node. */
  lemma JoinRouteSound(e: Pathfinding.PathfindingEngine, start: string,
                       routes: map<string, seq<string>>, blocked: set<string>)
    requires e.Valid() && e.exits == MapData.EXITS
    ensures var r := JoinRoute(e, start, routes, blocked);
            r != [] ==> EvacuationRoute(e, r, start, blocked)
  {
    Pathfinding.GraphFromClosed(e.edges);
    BestRouteSound(e, start, routes, blocked);
    var x := Pathfinding.BestExit(e.graph, e.dist, start, e.exits, map[], 0);
    Pathfinding.BestExitIsExit(e.graph, e.dist, start, e.exits, map[], 0);
    Pathfinding.RouteSound(e.graph, e.dist, start, x, blocked);
  }

  /** An alert to one registered user, in its own room, carrying its distance to the blocked node. */
  predicate AlertFor(users: map<string, Backboard.User>, dist: (string, string) -> real, em: Emit,
                     node: string, severity: string, kind: string, message: string, now: real)
  {
    em.scope.Room? && em.scope.sid in users
    && em.event == BlockageAlert(node, Pathfinding.Trunc(dist(users[em.scope.sid].currentNode, node)),
                                 severity, kind, message, now)
  }

  /** The alerts of report_blockage: one per affected user still registered, in the order given. */
  function Alerts(users: map<string, Backboard.User>, dist: (string, string) -> real,
                  affected: seq<string>, node: string, severity: string, kind: string,
                  message: string, now: real): (a: seq<Emit>)
    ensures |a| <= |affected|
    ensures forall k :: 0 <= k < |a| ==>
              AlertFor(users, dist, a[k], node, severity, kind, message, now) && a[k].scope.sid in affected
    decreases |affected|
  {
    if affected == [] then []
    else
      var n := |affected| - 1;
      var init := Alerts(users, dist, affected[..n], node, severity, kind, message, now);
      var u := affected[n];
      if u in users then
        init + [Emit(BlockageAlert(node, Pathfinding.Trunc(dist(users[u].currentNode, node)), severity,
                                   kind, message, now), Room(u))]
      else init
  }

  /** Every affected user still registered gets an alert. */
  lemma {:induction false} AlertsReachEvery(users: map<string, Backboard.User>,
                                            dist: (string, string) -> real, affected: seq<string>,
                                            node: string, severity: string, kind: string,
                                            message: string, now: real, u: string)
    requires u in affected && u in users
    ensures exists k :: 0 <= k < |Alerts(users, dist, affected, node, severity, kind, message, now)|
                        && Alerts(users, dist, affected, node, severity, kind, message, now)[k].scope == Room(u)
    decreases |affected|
  {
    var n := |affected| - 1;
    var a := Alerts(users, dist, affected, node, severity, kind, message, now);
    if affected[n] == u {
      assert a[|a| - 1].scope == Room(u);
    } else {
      assert u in affected[..n] by {
        var j :| 0 <= j < |affected| && affected[j] == u;
        assert j < n && affected[..n][j] == u;
      }
      AlertsReachEvery(users, dist, affected[..n], node, severity, kind, message, now, u);
      var init := Alerts(users, dist, affected[..n], node, severity, kind, message, now);
      var k :| 0 <= k < |init| && init[k].scope == Room(u);
      assert a[k] == init[k];
    }
  }

  /** `after` is `before`, or `before` given an evacuation route from its node and stamped `now`. */
  predicate KeptOrRerouted(e: Pathfinding.PathfindingEngine, before: Backboard.User,
                           after: Backboard.User, blocked: set<string>, now: real)
  {
    after == before
    || (after == before.(route := after.route, lastRouteUpdate := Some(now))
        && EvacuationRoute(e, after.route, before.currentNode, blocked))
  }

  /** A route sent to an affected user because of the blockage at `node`: an evacuation route from its node, to the exit it names. */
  predicate RerouteNotice(e: Pathfinding.PathfindingEngine, users: map<string, Backboard.User>,
                          blocked: set<string>, em: Emit, affected: seq<string>, node: string, now: real)
  {
    em.event.RouteAssigned? && em.scope == Room(em.event.userId)
    && em.event.userId in affected && em.event.userId in users
    && em.event.reason == "Rerouted due to blockage at " + node && em.event.timestamp == now
    && EvacuationRoute(e, em.event.route, users[em.event.userId].currentNode, blocked)
    && em.event.destination == em.event.route[|em.event.route| - 1]
  }

  /**
   * One call of reroute_user on `users`: an absent user, or one with no route to the best exit
   * avoiding the blocked nodes, changes nothing and sends nothing; otherwise the route is
   * stored, stamped `now`, and sent to that user's room.
   */
  function RerouteStep(e: Pathfinding.PathfindingEngine, users: map<string, Backboard.User>,
                       uid: string, node: string, blocked: set<string>, now: real)
    : (map<string, Backboard.User>, seq<Emit>)
    requires e.Valid()
  {
    if uid !in users then (users, [])
    else
      var u := users[uid];
      var routes := Backboard.RoutesOf(users);
      var r := BestRoute(e, u.currentNode, routes, blocked);
      if r == [] then (users, [])
      else
        (users[uid := u.(route := r, lastRouteUpdate := Some(now))],
         [Emit(RouteAssigned(uid, r, BestExitFor(e, u.currentNode, routes),
                             "Rerouted due to blockage at " + node, now), Room(uid))])
  }

  /**
   * The reroute loop of report_blockage: reroute_user for each affected user in turn, each
   * against the users as the earlier calls left them. The result is the final users and the
   * routes sent, one per success.
   */
  function Rerouting(e: Pathfinding.PathfindingEngine, users: map<string, Backboard.User>,
                     affected: seq<string>, node: string, blocked: set<string>, now: real)
    : (r: (map<string, Backboard.User>, seq<Emit>))
    requires e.Valid()
    ensures r.0.Keys == users.Keys && |r.1| <= |affected|
    decreases |affected|
  {
    if affected == [] then (users, [])
    else
      var n := |affected| - 1;
      var prev := Rerouting(e, users, affected[..n], node, blocked, now);
      var step := RerouteStep(e, prev.0, affected[n], node, blocked, now);
      (step.0, prev.1 + step.1)
  }

  /**
   * After the reroute loop every user keeps its record or has an evacuation route from its
   * own node stamped `now`, users not affected are unchanged, and every route sent goes to an
   * affected user and names its last node.
   */
  lemma {:induction false} ReroutingSound(e: Pathfinding.PathfindingEngine,
                                          users: map<string, Backboard.User>, affected: seq<string>,
                                          node: string, blocked: set<string>, now: real)
    requires e.Valid() && e.exits == MapData.EXITS
    ensures var (after, sent) := Rerouting(e, users, affected, node, blocked, now);
            (forall u :: u in after ==>
               KeptOrRerouted(e, users[u], after[u], blocked, now)
               && (u !in affected ==> after[u] == users[u]))
            && forall k :: 0 <= k < |sent| ==> RerouteNotice(e, users, blocked, sent[k], affected, node, now)
    decreases |affected|
  {
    if affected != [] {
      var n := |affected| - 1;
      ReroutingSound(e, users, affected[..n], node, blocked, now);
      var prev := Rerouting(e, users, affected[..n], node, blocked, now);
      assert forall v :: v in affected[..n] ==> v in affected;
      RerouteStepSound(e, users, prev.0, affected, n, node, blocked, now);
      var step := RerouteStep(e, prev.0, affected[n], node, blocked, now);
      var sent := prev.1 + step.1;
      forall k | 0 <= k < |sent|
        ensures RerouteNotice(e, users, blocked, sent[k], affected, node, now)
      {
        if k < |prev.1| {
          assert sent[k] == prev.1[k];
        } else {
          assert sent[k] == step.1[k - |prev.1|];
        }
      }
    }
  }

  /** One reroute_user call keeps the facts of ReroutingSound for the users before the loop. */
  lemma RerouteStepSound(e: Pathfinding.PathfindingEngine, users: map<string, Backboard.User>,
                         prev: map<string, Backboard.User>, affected: seq<string>, n: nat,
                         node: string, blocked: set<string>, now: real)
    requires e.Valid() && e.exits == MapData.EXITS && n < |affected| && prev.Keys == users.Keys
    requires forall u :: u in prev ==>
               KeptOrRerouted(e, users[u], prev[u], blocked, now) && (u !in affected ==> prev[u] == users[u])
    ensures var (after, sent) := RerouteStep(e, prev, affected[n], node, blocked, now);
            (forall u :: u in after ==>
               KeptOrRerouted(e, users[u], after[u], blocked, now)
               && (u !in affected ==> after[u] == users[u]))
            && forall k :: 0 <= k < |sent| ==> RerouteNotice(e, users, blocked, sent[k], affected, node, now)
  {
    var uid := affected[n];
    if uid in prev {
      var u := prev[uid];
      BestRouteSound(e, u.currentNode, Backboard.RoutesOf(prev), blocked);
      assert u.currentNode == users[uid].currentNode;
    }
  }

  /**
   * What report_blockage emits for the blockage at `node`: `before`, then the alerts to the
   * affected users, then the routes sent by the reroute loop, then the broadcast counting the
   * users affected and rerouted.
   */
  predicate Announced(e: Pathfinding.PathfindingEngine, before: seq<Emit>, after: seq<Emit>,
                      users: map<string, Backboard.User>, blocked: set<string>, node: string,
                      severity: string, kind: string, message: string, name: string,
                      affected: seq<string>, now: real)
    requires e.Valid()
  {
    var sent := Rerouting(e, users, affected, node, blocked, now).1;
    after == before + Alerts(users, e.dist, affected, node, severity, kind, message, now) + sent
             + [Emit(BlockageAdded(node, severity, kind, message, name, |affected|, |sent|, now), Broadcast)]
  }

  /** The server side of the socket: the registry, the router, the AI service and what has been emitted. */
  class Coordinator {
    const backboard: Backboard.BackboardService
    const pathfinder: Pathfinding.PathfindingEngine
    const gemini: Gemini.GeminiService
    var outbox: seq<Emit>

    predicate Valid()
      reads backboard
    {
      backboard.Valid() && pathfinder.Valid() && pathfinder.exits == MapData.EXITS
    }

    constructor (backboard: Backboard.BackboardService, pathfinder: Pathfinding.PathfindingEngine,
                 gemini: Gemini.GeminiService)
      requires backboard.Valid() && pathfinder.Valid() && pathfinder.exits == MapData.EXITS
      ensures Valid()
      ensures this.backboard == backboard && this.pathfinder == pathfinder && this.gemini == gemini
      ensures outbox == []
    {
      this.backboard := backboard;
      this.pathfinder := pathfinder;
      this.gemini := gemini;
      outbox := [];
    }

    /** connect: confirm the connection to the sender. */
    method Connect(sid: string, now: real)
      modifies this
      ensures outbox == old(outbox) + [Emit(Connected(sid, "Connected to EchoAid server", now), Sender)]
    {
      outbox := outbox + [Emit(Connected(sid, "Connected to EchoAid server", now), Sender)];
    }

    /** disconnect: remove the user and tell the others. */
    method Disconnect(sid: string, now: real)
      requires Valid()
      modifies this, backboard
      ensures Valid()
      ensures backboard.users == old(backboard.users) - {sid}
      ensures backboard.blockages == old(backboard.blockages)
      ensures outbox == old(outbox)
                        + [Emit(UserLeft(sid, if sid in old(backboard.users) then old(backboard.users)[sid].name
                                              else "Unknown", now), Others)]
    {
      var user := backboard.GetUser(sid);
      var name := if user.Some? then user.value.name else "Unknown";
      backboard.RemoveUser(sid);
      outbox := outbox + [Emit(UserLeft(sid, name, now), Others)];
    }

    /**
     * join_evacuation: an unknown start node is refused; otherwise the user is stored first,
     * then routed to the best exit, else the nearest one, both avoiding the blocked nodes.
     */
    method Join(sid: string, name: Option<string>, startNode: Option<string>, now: real)
      requires Valid()
      modifies this, backboard
      ensures Valid()
      ensures backboard.blockages == old(backboard.blockages)
      ensures var nm := name.GetOr(DefaultName(sid));
              var start := startNode.GetOr(DEFAULT_NODE);
              (start !in pathfinder.nodes ==>
                 backboard.users == old(backboard.users) && backboard.order == old(backboard.order)
                 && outbox == old(outbox) + [Emit(Error("Invalid starting node: " + start, Some("INVALID_NODE")), Sender)])
              && (start in pathfinder.nodes ==>
                    var user := Backboard.User(nm, start, [], "ACTIVE", 0, now, None, None);
                    var stored := old(backboard.users)[sid := user];
                    var route := JoinRoute(pathfinder, start, Backboard.RoutesOf(stored),
                                           old(backboard.blockages).Keys);
                    (route == [] ==>
                       backboard.users == stored
                       && outbox == old(outbox) + [Emit(Error("No evacuation route available", Some("NO_ROUTE")), Sender)])
                    && (route != [] ==>
                          backboard.users == stored[sid := user.(route := route, lastRouteUpdate := Some(now))]
                          && outbox == old(outbox)
                                       + [Emit(RouteAssigned(sid, route, route[|route| - 1], "Visual path generation", now), Sender),
                                          Emit(UserJoined(sid, nm, start, now), Others)]))
    {
      var nm := name.GetOr(DefaultName(sid));
      var start := startNode.GetOr(DEFAULT_NODE);
      if !pathfinder.ValidateNode(start) {
        outbox := outbox + [Emit(Error("Invalid starting node: " + start, Some("INVALID_NODE")), Sender)];
        return;
      }
      JoinAt(sid, nm, start, now);
    }

    /** join_evacuation once the start node is known: store the user, then route it and announce it. */
    method JoinAt(sid: string, nm: string, start: string, now: real)
      requires Valid()
      modifies this, backboard
      ensures Valid()
      ensures backboard.blockages == old(backboard.blockages)
      ensures var user := Backboard.User(nm, start, [], "ACTIVE", 0, now, None, None);
              var stored := old(backboard.users)[sid := user];
              var route := JoinRoute(pathfinder, start, Backboard.RoutesOf(stored),
                                     old(backboard.blockages).Keys);
              (route == [] ==>
                 backboard.users == stored
                 && outbox == old(outbox) + [Emit(Error("No evacuation route available", Some("NO_ROUTE")), Sender)])
              && (route != [] ==>
                    backboard.users == stored[sid := user.(route := route, lastRouteUpdate := Some(now))]
                    && outbox == old(outbox)
                                 + [Emit(RouteAssigned(sid, route, route[|route| - 1], "Visual path generation", now), Sender),
                                    Emit(UserJoined(sid, nm, start, now), Others)])
    {
      var user := Backboard.User(nm, start, [], "ACTIVE", 0, now, None, None);
      backboard.StoreUser(sid, user);
      ghost var stored := backboard.users;
      var route := AssignRoute(start, backboard.Routes(), backboard.BlockedNodes());
      assert route == JoinRoute(pathfinder, start, Backboard.RoutesOf(stored), old(backboard.blockages).Keys);
      if route == [] {
        outbox := outbox + [Emit(Error("No evacuation route available", Some("NO_ROUTE")), Sender)];
        return;
      }
      backboard.UpdateUserRoute(sid, route, now);
      outbox := outbox + [Emit(RouteAssigned(sid, route, route[|route| - 1], "Visual path generation", now), Sender)];
      outbox := outbox + [Emit(UserJoined(sid, nm, start, now), Others)];
    }

    /** The routing step of join_evacuation: the best exit first, the nearest exit when that has no route. */
    method AssignRoute(start: string, routes: map<string, seq<string>>, blocked: set<string>)
      returns (route: seq<string>)
      requires pathfinder.Valid()
      ensures route == JoinRoute(pathfinder, start, routes, blocked)
    {
      var bestExit := pathfinder.GetBestExit(start, routes);
      route := pathfinder.FindRoute(start, bestExit, blocked);
      if route == [] {
        bestExit := pathfinder.GetNearestExit(start);
        route := pathfinder.FindRoute(start, bestExit, blocked);
      }
    }

    /** position_update: record the position of a known user and broadcast it to the others. */
    method PositionUpdate(sid: string, currentNode: string, progress: Option<int>, now: real)
      requires Valid()
      modifies this, backboard
      ensures Valid()
      ensures backboard.order == old(backboard.order) && backboard.blockages == old(backboard.blockages)
      ensures sid !in old(backboard.users) ==> backboard.users == old(backboard.users) && outbox == old(outbox)
      ensures sid in old(backboard.users) ==>
                var u := old(backboard.users)[sid];
                backboard.users == old(backboard.users)[sid := u.(currentNode := currentNode,
                                                                  progress := progress.GetOr(0),
                                                                  lastUpdate := Some(now))]
                && outbox == old(outbox) + [Emit(UserPosition(sid, u.name, currentNode, progress.GetOr(0), now), Others)]
    {
      var p := progress.GetOr(0);
      backboard.UpdateUserPosition(sid, currentNode, p, now);
      var user := backboard.GetUser(sid);
      if user.Some? {
        outbox := outbox + [Emit(UserPosition(sid, user.value.name, currentNode, p, now), Others)];
      }
    }

    /**
     * reroute_user: route a known user to the best exit avoiding every blocked node; on
     * success store the route and send it to that user.
     */
    method RerouteUser(uid: string, blockedNode: string, now: real) returns (success: bool)
      requires Valid()
      modifies this, backboard
      ensures Valid()
      ensures backboard.order == old(backboard.order) && backboard.blockages == old(backboard.blockages)
      ensures uid !in old(backboard.users) ==>
                !success && backboard.users == old(backboard.users) && outbox == old(outbox)
      ensures uid in old(backboard.users) ==>
                var u := old(backboard.users)[uid];
                var routes := Backboard.RoutesOf(old(backboard.users));
                var r := BestRoute(pathfinder, u.currentNode, routes, old(backboard.blockages).Keys);
                (success <==> r != [])
                && (success ==>
                      backboard.users == old(backboard.users)[uid := u.(route := r, lastRouteUpdate := Some(now))]
                      && outbox == old(outbox)
                                   + [Emit(RouteAssigned(uid, r, BestExitFor(pathfinder, u.currentNode, routes),
                                                         "Rerouted due to blockage at " + blockedNode, now), Room(uid))])
                && (!success ==> backboard.users == old(backboard.users) && outbox == old(outbox))
    {
      var user := backboard.GetUser(uid);
      if user.None? {
        return false;
      }
      var current := user.value.currentNode;
      var blocked := backboard.BlockedNodes();
      var target := pathfinder.GetBestExit(current, backboard.Routes());
      var route := pathfinder.FindRoute(current, target, blocked);
      if route != [] {
        backboard.UpdateUserRoute(uid, route, now);
        outbox := outbox + [Emit(RouteAssigned(uid, route, target, "Rerouted due to blockage at " + blockedNode, now), Room(uid))];
        return true;
      }
      return false;
    }

    /** The node a report blocks: the parsed location when it is a node, else the reporter's position. */
    static function BlockedNodeOf(nodes: map<string, MapData.Node>, location: string, reporter: string): string {
      if location in nodes then location else reporter
    }

    /** The reporter's position: its stored current node, else 'p129'. */
    static function ReporterPosition(users: map<string, Backboard.User>, sid: string): string {
      if sid in users then users[sid].currentNode else DEFAULT_NODE
    }

    /** The reporter's name: its stored name, else 'Unknown'. */
    static function ReporterName(users: map<string, Backboard.User>, sid: string): string {
      if sid in users then users[sid].name else "Unknown"
    }

    /**
     * report_blockage: parse the message (the remote model's answer is `remote`, None when it
     * failed), store the blockage, alert and reroute every user whose route passes through it,
     * then broadcast the blockage with the number of users affected and rerouted.
     */
    method BlockageReport(sid: string, message: string, remote: Option<Gemini.BlockageInfo>, now: real)
      requires Valid()
      modifies this, backboard
      ensures Valid()
      ensures backboard.order == old(backboard.order)
      ensures backboard.users.Keys == old(backboard.users).Keys
      ensures var reporter := ReporterPosition(old(backboard.users), sid);
              var info := gemini.ParseBlockageReport(message, reporter, remote);
              var understood := message != "" && info.location.Some? && info.location.value != "";
              (message == "" ==>
                 backboard.users == old(backboard.users) && backboard.blockages == old(backboard.blockages)
                 && outbox == old(outbox) + [Emit(Error("Blockage message is required", None), Sender)])
              && (message != "" && !understood ==>
                    backboard.users == old(backboard.users) && backboard.blockages == old(backboard.blockages)
                    && outbox == old(outbox) + [Emit(Error("Could not understand blockage report", None), Sender)])
              && (understood ==>
                    var node := BlockedNodeOf(pathfinder.nodes, info.location.value, reporter);
                    var severity := info.severity.GetOr("HIGH");
                    var kind := info.kind.GetOr("OTHER");
                    var name := ReporterName(old(backboard.users), sid);
                    backboard.blockages == old(backboard.blockages)[node := Backboard.Blockage(sid, name, severity, kind, message, now)]
                    && (var affected := Backboard.AffectedIn(old(backboard.order), old(backboard.users), node);
                        backboard.users == Rerouting(pathfinder, old(backboard.users), affected, node,
                                                     backboard.blockages.Keys, now).0
                        && Announced(pathfinder, old(outbox), outbox, old(backboard.users), backboard.blockages.Keys,
                                     node, severity, kind, message, name, affected, now))
                    && (forall u :: u in backboard.users ==>
                          KeptOrRerouted(pathfinder, old(backboard.users)[u], backboard.users[u],
                                         backboard.blockages.Keys, now)
                          && (node !in old(backboard.users)[u].route ==> backboard.users[u] == old(backboard.users)[u])))
    {
      if message == "" {
        outbox := outbox + [Emit(Error("Blockage message is required", None), Sender)];
        return;
      }
      var user := backboard.GetUser(sid);
      var reporterPosition := if user.Some? then user.value.currentNode else DEFAULT_NODE;
      var reporterName := if user.Some? then user.value.name else "Unknown";
      var info := gemini.ParseBlockageReport(message, reporterPosition, remote);
      if info.location.None? || info.location.value == "" {
        outbox := outbox + [Emit(Error("Could not understand blockage report", None), Sender)];
        return;
      }
      var blockedNode := info.location.value;
      var severity := info.severity.GetOr("HIGH");
      var kind := info.kind.GetOr("OTHER");
      if !pathfinder.ValidateNode(blockedNode) {
        blockedNode := reporterPosition;
      }
      assert reporterPosition == ReporterPosition(backboard.users, sid);
      assert reporterName == ReporterName(backboard.users, sid);
      assert blockedNode == BlockedNodeOf(pathfinder.nodes, info.location.value, reporterPosition);
      RecordBlockage(sid, reporterName, blockedNode, severity, kind, message, now);
    }

    /** report_blockage once the blocked node is known: store it, alert and reroute the affected users, broadcast it. */
    method RecordBlockage(sid: string, name: string, node: string, severity: string, kind: string,
                          message: string, now: real)
      requires Valid()
      modifies this, backboard
      ensures Valid()
      ensures backboard.order == old(backboard.order)
      ensures backboard.blockages == old(backboard.blockages)[node := Backboard.Blockage(sid, name, severity, kind, message, now)]
      ensures var affected := Backboard.AffectedIn(old(backboard.order), old(backboard.users), node);
              backboard.users == Rerouting(pathfinder, old(backboard.users), affected, node, backboard.blockages.Keys, now).0
              && Announced(pathfinder, old(outbox), outbox, old(backboard.users), backboard.blockages.Keys,
                           node, severity, kind, message, name, affected, now)
      ensures backboard.users.Keys == old(backboard.users).Keys
      ensures forall u :: u in backboard.users ==>
                KeptOrRerouted(pathfinder, old(backboard.users)[u], backboard.users[u], backboard.blockages.Keys, now)
                && (node !in old(backboard.users)[u].route ==> backboard.users[u] == old(backboard.users)[u])
    {
      backboard.AddBlockage(node, Backboard.Blockage(sid, name, severity, kind, message, now));
      var affected := backboard.GetUsersAffectedByBlockage(node);
      AlertAffected(affected, node, severity, kind, message, now);
      var rerouted := RerouteAffected(affected, node, now);
      outbox := outbox + [Emit(BlockageAdded(node, severity, kind, message, name, |affected|, rerouted, now), Broadcast)];
      ReroutingSound(pathfinder, old(backboard.users), affected, node, backboard.blockages.Keys, now);
      forall u | u in backboard.users && node !in old(backboard.users)[u].route
        ensures backboard.users[u] == old(backboard.users)[u]
      {
        assert u !in affected;
      }
    }

    /** The first loop of report_blockage: alert every affected user still registered, in its own room. */
    method AlertAffected(affected: seq<string>, node: string, severity: string, kind: string,
                         message: string, now: real)
      requires Valid()
      modifies this
      ensures outbox == old(outbox) + Alerts(backboard.users, pathfinder.dist, affected, node, severity, kind, message, now)
    {
      for i := 0 to |affected|
        invariant outbox == old(outbox) + Alerts(backboard.users, pathfinder.dist, affected[..i], node, severity,
                                                 kind, message, now)
      {
        assert affected[..i + 1][..i] == affected[..i];
        var affectedUser := backboard.GetUser(affected[i]);
        if affectedUser.None? {
          continue;
        }
        var distance := Pathfinding.Trunc(pathfinder.dist(affectedUser.value.currentNode, node));
        outbox := outbox + [Emit(BlockageAlert(node, distance, severity, kind, message, now), Room(affected[i]))];
      }
      assert affected[..|affected|] == affected;
    }

    /**
     * The second loop of report_blockage: reroute every affected user in turn, counting the
     * successes; the users, the routes sent and the count are those of the loop's specification.
     */
    method RerouteAffected(affected: seq<string>, node: string, now: real) returns (rerouted: nat)
      requires Valid()
      modifies this, backboard
      ensures Valid()
      ensures backboard.order == old(backboard.order)
      ensures backboard.blockages == old(backboard.blockages)
      ensures backboard.users == Rerouting(pathfinder, old(backboard.users), affected, node, old(backboard.blockages).Keys, now).0
      ensures outbox == old(outbox) + Rerouting(pathfinder, old(backboard.users), affected, node, old(backboard.blockages).Keys, now).1
      ensures rerouted == |Rerouting(pathfinder, old(backboard.users), affected, node, old(backboard.blockages).Keys, now).1|
    {
      rerouted := 0;
      for i := 0 to |affected|
        invariant Valid()
        invariant backboard.order == old(backboard.order)
        invariant backboard.blockages == old(backboard.blockages)
        invariant Rerouted(affected[..i], node, now, old(backboard.users), old(outbox), rerouted)
      {
        rerouted := RerouteOne(affected, i, node, now, old(backboard.users), old(outbox), rerouted);
      }
      assert affected[..|affected|] == affected;
    }

    /** The state after the reroute loop has handled `done`, from `users0` and `outbox0`, with `rerouted` successes. */
    predicate Rerouted(done: seq<string>, node: string, now: real, users0: map<string, Backboard.User>,
                       outbox0: seq<Emit>, rerouted: nat)
      reads this, backboard
      requires pathfinder.Valid()
    {
      var (users, sent) := Rerouting(pathfinder, users0, done, node, backboard.blockages.Keys, now);
      backboard.users == users && outbox == outbox0 + sent && rerouted == |sent|
    }

    /** One iteration of the reroute loop: reroute affected[i] and count it when it succeeds. */
    method RerouteOne(affected: seq<string>, i: nat, node: string, now: real,
                      ghost users0: map<string, Backboard.User>, ghost outbox0: seq<Emit>, rerouted: nat)
      returns (count: nat)
      requires Valid() && i < |affected|
      requires Rerouted(affected[..i], node, now, users0, outbox0, rerouted)
      modifies this, backboard
      ensures Valid()
      ensures backboard.order == old(backboard.order)
      ensures backboard.blockages == old(backboard.blockages)
      ensures Rerouted(affected[..i + 1], node, now, users0, outbox0, count)
    {
      assert affected[..i + 1][..i] == affected[..i];
      var success := RerouteUser(affected[i], node, now);
      count := if success then rerouted + 1 else rerouted;
    }

    /** request_reroute: route a known user to the best exit avoiding the blocked nodes. */
    method RerouteRequest(sid: string, now: real)
      requires Valid()
      modifies this, backboard
      ensures Valid()
      ensures backboard.order == old(backboard.order) && backboard.blockages == old(backboard.blockages)
      ensures sid !in old(backboard.users) ==>
                backboard.users == old(backboard.users)
                && outbox == old(outbox) + [Emit(Error("User not found", None), Sender)]
      ensures sid in old(backboard.users) ==>
                var u := old(backboard.users)[sid];
                var routes := Backboard.RoutesOf(old(backboard.users));
                var r := BestRoute(pathfinder, u.currentNode, routes, old(backboard.blockages).Keys);
                (r == [] ==>
                   backboard.users == old(backboard.users)
                   && outbox == old(outbox) + [Emit(Error("No route available", None), Sender)])
                && (r != [] ==>
                      backboard.users == old(backboard.users)[sid := u.(route := r, lastRouteUpdate := Some(now))]
                      && outbox == old(outbox)
                                   + [Emit(RouteAssigned(sid, r, BestExitFor(pathfinder, u.currentNode, routes),
                                                         "User requested reroute", now), Sender)])
    {
      var user := backboard.GetUser(sid);
      if user.None? {
        outbox := outbox + [Emit(Error("User not found", None), Sender)];
        return;
      }
      var current := user.value.currentNode;
      var blocked := backboard.BlockedNodes();
      var bestExit := pathfinder.GetBestExit(current, backboard.Routes());
      var route := pathfinder.FindRoute(current, bestExit, blocked);
      if route == [] {
        outbox := outbox + [Emit(Error("No route available", None), Sender)];
        return;
      }
      backboard.UpdateUserRoute(sid, route, now);
      outbox := outbox + [Emit(RouteAssigned(sid, route, bestExit, "User requested reroute", now), Sender)];
    }

    /** clear_blockage: a missing or empty location is refused; otherwise the blockage goes (idempotently) and everyone is told. */
    method ClearBlockage(location: Option<string>, now: real)
      requires Valid()
      modifies this, backboard
      ensures Valid()
      ensures backboard.users == old(backboard.users) && backboard.order == old(backboard.order)
      ensures location.None? || location.value == "" ==>
                backboard.blockages == old(backboard.blockages)
                && outbox == old(outbox) + [Emit(Error("Location required", None), Sender)]
      ensures location.Some? && location.value != "" ==>
                backboard.blockages == old(backboard.blockages) - {location.value}
                && outbox == old(outbox) + [Emit(BlockageCleared(location.value, now), Broadcast)]
    {
      if location.None? || location.value == "" {
        outbox := outbox + [Emit(Error("Location required", None), Sender)];
        return;
      }
      backboard.RemoveBlockage(location.value);
      outbox := outbox + [Emit(BlockageCleared(location.value, now), Broadcast)];
    }
  }
}
