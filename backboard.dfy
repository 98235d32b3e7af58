// The in-memory occupant and obstruction registry (echoaid-server/services/backboard_service.py).
// Users and blockages live in two dictionaries; the users dictionary is kept with the order in
// which its keys were first inserted, which is the order Python iterates it in.

module Backboard {
  import opened Wrappers
  import opened Seqs

  /** The record join_evacuation stores for a user. */
  datatype User = User(name: string, currentNode: string, route: seq<string>, status: string,
                       progress: int, joinedAt: real, lastUpdate: Option<real>,
                       lastRouteUpdate: Option<real>)

  /** The record report_blockage stores for a blocked node. */
  datatype Blockage = Blockage(reportedBy: string, reporterName: string, severity: string,
                               kind: string, message: string, timestamp: real)

  /** get_stats. */
  datatype Stats = Stats(totalUsers: nat, totalBlockages: nat, activeUsers: nat, backboardEnabled: bool)

  const PLACEHOLDER_KEY := "your-backboard-api-key-here"

  /** s with x deleted. */
  function Without(s: seq<string>, x: string): (r: seq<string>)
    ensures forall y :: y in r <==> y in s && y != x
    ensures Distinct(s) ==> Distinct(r)
    ensures x !in s ==> r == s
    ensures |r| <= |s|
  {
    if s == [] then []
    else if s[0] == x then Without(s[1..], x)
    else
      var r := Without(s[1..], x);
      if Distinct(s) then
        DistinctTail(s);
        [s[0]] + r
      else [s[0]] + r
  }

  /** The ids, in order, whose user's route passes through `node`. */
  function AffectedIn(ids: seq<string>, users: map<string, User>, node: string): seq<string>
    requires forall u :: u in ids ==> u in users
    decreases |ids|
  {
    if ids == [] then []
    else
      var n := |ids| - 1;
      var init := AffectedIn(ids[..n], users, node);
      if node in users[ids[n]].route then init + [ids[n]] else init
  }

  /** The affected list holds exactly the listed users whose route contains `node`, each once. */
  lemma {:induction false} AffectedExact(ids: seq<string>, users: map<string, User>, node: string)
    requires forall u :: u in ids ==> u in users
    ensures forall u :: u in AffectedIn(ids, users, node) <==> u in ids && node in users[u].route
    ensures Distinct(ids) ==> Distinct(AffectedIn(ids, users, node))
    ensures |AffectedIn(ids, users, node)| <= |ids|
    decreases |ids|
  {
    if ids != [] {
      var n := |ids| - 1;
      var init := ids[..n];
      assert forall u :: u in init ==> u in ids;
      AffectedExact(init, users, node);
      assert ids == init + [ids[n]];
      if Distinct(ids) {
        assert Distinct(init);
        assert ids[n] !in init;
      }
    }
  }

  /** The route of every user. */
  function RoutesOf(users: map<string, User>): (r: map<string, seq<string>>)
    ensures r.Keys == users.Keys
    ensures forall u :: u in r ==> r[u] == users[u].route
  {
    map u | u in users :: users[u].route
  }

  /** Number of listed users whose status is 'ACTIVE'. */
  function ActiveIn(ids: seq<string>, users: map<string, User>): (r: nat)
    requires forall u :: u in ids ==> u in users
    ensures r <= |ids|
    decreases |ids|
  {
    if ids == [] then 0
    else
      var n := |ids| - 1;
      ActiveIn(ids[..n], users) + (if users[ids[n]].status == "ACTIVE" then 1 else 0)
  }

  /** Over distinct ids, ActiveIn counts the listed users whose status is 'ACTIVE'. */
  lemma {:induction false} ActiveInCounts(ids: seq<string>, users: map<string, User>)
    requires Distinct(ids) && forall u :: u in ids ==> u in users
    ensures ActiveIn(ids, users) == |set u | u in ids && users[u].status == "ACTIVE"|
    decreases |ids|
  {
    if ids != [] {
      var n := |ids| - 1;
      var x := ids[n];
      assert forall u :: u in ids[..n] ==> u in ids;
      assert Distinct(ids[..n]) by {
        forall i, j | 0 <= i < j < n ensures ids[..n][i] != ids[..n][j] {
          assert ids[..n][i] == ids[i] && ids[..n][j] == ids[j];
        }
      }
      ActiveInCounts(ids[..n], users);
      var before := set u | u in ids[..n] && users[u].status == "ACTIVE";
      var after := set u | u in ids && users[u].status == "ACTIVE";
      forall j | 0 <= j < n
        ensures ids[..n][j] != x
      {
        assert ids[..n][j] == ids[j];
      }
      assert x !in before;
      assert ids == ids[..n] + [x];
      if users[x].status == "ACTIVE" {
        assert after == before + {x};
      } else {
        assert after == before;
      }
    }
  }

  /** get_stats's active count: the registered users whose status is 'ACTIVE'. */
  lemma ActiveUsers(order: seq<string>, users: map<string, User>)
    requires Distinct(order) && users.Keys == set u | u in order
    ensures ActiveIn(order, users) == |set u | u in users && users[u].status == "ACTIVE"|
  {
    ActiveInCounts(order, users);
    assert (set u | u in order && users[u].status == "ACTIVE") == (set u | u in users && users[u].status == "ACTIVE");
  }

  /** BackboardService in its in-memory mode. */
  class BackboardService {
    const enabled: bool
    var users: map<string, User>
    /** The keys of `users` in insertion order. */
    var order: seq<string>
    var blockages: map<string, Blockage>

    predicate Valid()
      reads this
    {
      Distinct(order) && users.Keys == set u | u in order
    }

    /** __init__: remote storage is enabled by a non-empty key other than the placeholder. */
    constructor (apiKey: Option<string>)
      ensures Valid()
      ensures enabled <==> apiKey.Some? && apiKey.value != "" && apiKey.value != PLACEHOLDER_KEY
      ensures users == map[] && order == [] && blockages == map[]
    {
      enabled := apiKey.Some? && apiKey.value != "" && apiKey.value != PLACEHOLDER_KEY;
      users := map[];
      order := [];
      blockages := map[];
    }

    /** store_user: the record is replaced outright; a new id goes to the end of the order. */
    method StoreUser(id: string, data: User)
      requires Valid()
      modifies this
      ensures Valid()
      ensures users == old(users)[id := data]
      ensures order == if id in old(users) then old(order) else old(order) + [id]
      ensures blockages == old(blockages)
    {
      if id !in users {
        order := order + [id];
      }
      users := users[id := data];
    }

    /** update_user_position: only currentNode, progress and lastUpdate of a known user change. */
    method UpdateUserPosition(id: string, node: string, progress: int, now: real)
      requires Valid()
      modifies this
      ensures Valid()
      ensures id !in old(users) ==> users == old(users)
      ensures id in old(users) ==>
                users == old(users)[id := old(users)[id].(currentNode := node, progress := progress,
                                                          lastUpdate := Some(now))]
      ensures order == old(order) && blockages == old(blockages)
    {
      if id in users {
        users := users[id := users[id].(currentNode := node, progress := progress, lastUpdate := Some(now))];
      }
    }

    /** update_user_route: only route and lastRouteUpdate of a known user change. */
    method UpdateUserRoute(id: string, route: seq<string>, now: real)
      requires Valid()
      modifies this
      ensures Valid()
      ensures id !in old(users) ==> users == old(users)
      ensures id in old(users) ==>
                users == old(users)[id := old(users)[id].(route := route, lastRouteUpdate := Some(now))]
      ensures order == old(order) && blockages == old(blockages)
    {
      if id in users {
        users := users[id := users[id].(route := route, lastRouteUpdate := Some(now))];
      }
    }

    /** get_user. */
    function GetUser(id: string): (r: Option<User>)
      reads this
      ensures r.Some? <==> id in users
      ensures r.Some? ==> r.value == users[id]
    {
      if id in users then Some(users[id]) else None
    }

    /** get_user_position: None for an unknown user. */
    function GetUserPosition(id: string): (r: Option<string>)
      reads this
      ensures r.Some? <==> id in users
      ensures r.Some? ==> r.value == users[id].currentNode
    {
      if id in users then Some(users[id].currentNode) else None
    }

    /** get_all_users, as the route of each user (what exit scoring reads). */
    function Routes(): (r: map<string, seq<string>>)
      reads this
      ensures r == RoutesOf(users)
    {
      RoutesOf(users)
    }

    /** remove_user: deletes that user only; absent users are a no-op. */
    method RemoveUser(id: string)
      requires Valid()
      modifies this
      ensures Valid()
      ensures users == old(users) - {id}
      ensures order == Without(old(order), id)
      ensures blockages == old(blockages)
    {
      if id in users {
        users := users - {id};
        order := Without(order, id);
      }
    }

    /** add_blockage: the new record overwrites any earlier one. */
    method AddBlockage(node: string, data: Blockage)
      modifies this
      ensures blockages == old(blockages)[node := data]
      ensures users == old(users) && order == old(order)
    {
      blockages := blockages[node := data];
    }

    /** remove_blockage: idempotent, since removing an absent node changes nothing. */
    method RemoveBlockage(node: string)
      modifies this
      ensures blockages == old(blockages) - {node}
      ensures users == old(users) && order == old(order)
    {
      if node in blockages {
        blockages := blockages - {node};
      }
    }

    /** get_blocked_nodes. */
    function BlockedNodes(): (r: set<string>)
      reads this
      ensures forall n :: n in r <==> n in blockages
    {
      blockages.Keys
    }

    /** get_users_affected_by_blockage: users whose route contains `node`, in registry order. */
    method GetUsersAffectedByBlockage(node: string) returns (affected: seq<string>)
      requires Valid()
      ensures affected == AffectedIn(order, users, node)
      ensures forall u :: u in affected <==> u in users && node in users[u].route
      ensures Distinct(affected)
    {
      affected := [];
      for i := 0 to |order|
        invariant affected == AffectedIn(order[..i], users, node)
      {
        assert order[..i + 1][..i] == order[..i];
        if node in users[order[i]].route {
          affected := affected + [order[i]];
        }
      }
      assert order[..|order|] == order;
      AffectedExact(order, users, node);
    }

    /** get_stats. */
    function GetStats(): (r: Stats)
      reads this
      requires Valid()
      ensures r.totalUsers == |users| && r.totalBlockages == |blockages|
      ensures r.activeUsers <= r.totalUsers
      ensures r.backboardEnabled == enabled
    {
      DistinctCard(order);
      assert users.Keys == set u | u in order;
      Stats(|users|, |blockages|, ActiveIn(order, users), enabled)
    }
  }
}
