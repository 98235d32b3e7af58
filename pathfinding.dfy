/**
 * The server's router (echoaid-server/services/pathfinding.py): the adjacency map built
 * from the edge list, the A*-style search with a closed set and a FIFO tie-breaking
 * counter, exit selection, and turn-by-turn directions.
 */
module Pathfinding {
  import opened Wrappers
  import Text
  import MapData
  import opened Seqs

  /** Adjacency lists: node id to its neighbours, in the order the edges list them. */
  type Graph = map<string, seq<string>>

  /** Some edge joins a and b, in either orientation. */
  ghost predicate Linked(edges: seq<(string, string)>, a: string, b: string) {
    exists i :: 0 <= i < |edges| && (edges[i] == (a, b) || edges[i] == (b, a))
  }

  /** Some edge has x as an endpoint. */
  ghost predicate Endpoint(edges: seq<(string, string)>, x: string) {
    exists i :: 0 <= i < |edges| && (edges[i].0 == x || edges[i].1 == x)
  }

  /** Every neighbour is itself a key: a search never leaves the map. */
  predicate Closed(g: Graph) {
    forall a, b :: a in g && b in g[a] ==> b in g
  }

  /** One iteration of the loop of _build_graph: both endpoints get a list, each gets the other appended. */
  function AddEdge(g: Graph, a: string, b: string): (r: Graph)
    ensures r.Keys == g.Keys + {a, b}
    ensures forall x, y :: x in r ==>
              (y in r[x] <==> (x in g && y in g[x]) || (x == a && y == b) || (x == b && y == a))
  {
    var g1 := if a in g then g else g[a := []];
    var g2 := if b in g1 then g1 else g1[b := []];
    var g3 := g2[a := g2[a] + [b]];
    g3[b := g3[b] + [a]]
  }

  /** The adjacency map _build_graph leaves behind after processing every edge in order. */
  function GraphFrom(edges: seq<(string, string)>): Graph
    decreases |edges|
  {
    if edges == [] then map[]
    else
      var e := edges[|edges| - 1];
      AddEdge(GraphFrom(edges[..|edges| - 1]), e.0, e.1)
  }

  /** _build_graph. */
  method BuildGraph(edges: seq<(string, string)>) returns (g: Graph)
    ensures g == GraphFrom(edges)
  {
    g := map[];
    for i := 0 to |edges|
      invariant g == GraphFrom(edges[..i])
    {
      assert edges[..i + 1][..i] == edges[..i];
      var a, b := edges[i].0, edges[i].1;
      if a !in g {
        g := g[a := []];
      }
      if b !in g {
        g := g[b := []];
      }
      g := g[a := g[a] + [b]];
      g := g[b := g[b] + [a]];
    }
    assert edges[..|edges|] == edges;
  }

  /** The keys of the adjacency map are exactly the edge endpoints. */
  lemma {:induction false} GraphFromKeys(edges: seq<(string, string)>, a: string)
    ensures a in GraphFrom(edges) <==> Endpoint(edges, a)
    decreases |edges|
  {
    if edges != [] {
      var n := |edges| - 1;
      var init := edges[..n];
      GraphFromKeys(init, a);
      EndpointSnoc(edges, a);
      assert GraphFrom(edges) == AddEdge(GraphFrom(init), edges[n].0, edges[n].1);
    }
  }

  /** x is an endpoint of a non-empty edge list exactly when it is one of all but the last edge or of the last. */
  lemma EndpointSnoc(edges: seq<(string, string)>, x: string)
    requires edges != []
    ensures var n := |edges| - 1;
            Endpoint(edges, x) <==> Endpoint(edges[..n], x) || edges[n].0 == x || edges[n].1 == x
  {
    var n := |edges| - 1;
    var init := edges[..n];
    if Endpoint(init, x) {
      var i :| 0 <= i < |init| && (init[i].0 == x || init[i].1 == x);
      assert edges[i] == init[i];
    }
    if Endpoint(edges, x) {
      var i :| 0 <= i < |edges| && (edges[i].0 == x || edges[i].1 == x);
      if i < n {
        assert init[i] == edges[i];
      }
    }
  }

  /** b is a neighbour of a exactly when an edge joins them. */
  lemma {:induction false} GraphFromArcs(edges: seq<(string, string)>, a: string, b: string)
    ensures (a in GraphFrom(edges) && b in GraphFrom(edges)[a]) <==> Linked(edges, a, b)
    decreases |edges|
  {
    if edges != [] {
      var n := |edges| - 1;
      var init := edges[..n];
      GraphFromArcs(init, a, b);
      LinkedSnoc(edges, a, b);
      assert GraphFrom(edges) == AddEdge(GraphFrom(init), edges[n].0, edges[n].1);
    }
  }

  /** An arc is linked by a non-empty edge list exactly when it is linked by all but the last edge or by the last. */
  lemma LinkedSnoc(edges: seq<(string, string)>, a: string, b: string)
    requires edges != []
    ensures var n := |edges| - 1;
            Linked(edges, a, b) <==>
              Linked(edges[..n], a, b) || edges[n] == (a, b) || edges[n] == (b, a)
  {
    var n := |edges| - 1;
    var init := edges[..n];
    if Linked(init, a, b) {
      var i :| 0 <= i < |init| && (init[i] == (a, b) || init[i] == (b, a));
      assert edges[i] == init[i];
    }
    if Linked(edges, a, b) {
      var i :| 0 <= i < |edges| && (edges[i] == (a, b) || edges[i] == (b, a));
      if i < n {
        assert init[i] == edges[i];
      }
    }
  }

  /** The adjacency map is symmetric and closed: every neighbour is a key. */
  lemma GraphFromClosed(edges: seq<(string, string)>)
    ensures Closed(GraphFrom(edges))
    ensures forall a, b :: a in GraphFrom(edges) && b in GraphFrom(edges)[a] ==>
              b in GraphFrom(edges) && a in GraphFrom(edges)[b]
  {
    var g := GraphFrom(edges);
    forall a, b | a in g && b in g[a]
      ensures b in g && a in g[b]
    {
      GraphFromArcs(edges, a, b);
      var i :| 0 <= i < |edges| && (edges[i] == (a, b) || edges[i] == (b, a));
      GraphFromArcs(edges, b, a);
      assert Linked(edges, b, a);
    }
  }

  // ---------------------------------------------------------------------------------------
  // Paths

  /** Each consecutive pair of p is an arc of g. */
  predicate IsWalk(g: Graph, p: seq<string>) {
    forall i :: 0 <= i < |p| - 1 ==> p[i] in g && p[i + 1] in g[p[i]]
  }

  /** No node after the first is blocked. */
  predicate Avoids(p: seq<string>, blocked: set<string>) {
    forall i :: 1 <= i < |p| ==> p[i] !in blocked
  }

  /** A walk from `start` to `goal` through unblocked nodes. */
  predicate IsRoute(g: Graph, p: seq<string>, start: string, goal: string, blocked: set<string>) {
    |p| >= 1 && p[0] == start && p[|p| - 1] == goal && IsWalk(g, p) && Avoids(p, blocked)
  }

  // ---------------------------------------------------------------------------------------
  // The search

  /** One heap entry (f_score, counter, node, path). */
  datatype Entry = Entry(f: real, tick: nat, node: string, path: seq<string>)

  /** Tuple order of heap entries; ticks are distinct, so node and path are never compared. */
  predicate Before(a: Entry, b: Entry) {
    a.f < b.f || (a.f == b.f && a.tick < b.tick)
  }

  /** The entry heappop returns: a least one in tuple order (the first such). */
  function MinIndex(open: seq<Entry>): (k: nat)
    requires open != []
    ensures k < |open|
    ensures forall j :: 0 <= j < |open| ==> !Before(open[j], open[k])
    ensures forall j :: 0 <= j < k ==> Before(open[k], open[j])
    decreases |open|
  {
    if |open| == 1 then 0
    else
      var k := MinIndex(open[..|open| - 1]);
      assert forall j :: 0 <= j < |open| - 1 ==> open[..|open| - 1][j] == open[j];
      if Before(open[|open| - 1], open[k]) then |open| - 1 else k
  }

  /** The open set with entry k popped. */
  function Remove(open: seq<Entry>, k: nat): (r: seq<Entry>)
    requires k < |open|
    ensures |r| == |open| - 1
    ensures forall e :: e in r ==> e in open
    ensures forall e :: e in open && e != open[k] ==> e in r
  {
    open[..k] + open[k + 1..]
  }

  /**
   * The neighbour loop of find_route: each neighbour neither closed nor blocked is pushed with
   * f = len(new_path) + h(neighbour, goal) and the next counter value.
   */
  function Expand(h: (string, string) -> real, goal: string, nbrs: seq<string>, path: seq<string>,
                  closed: set<string>, blocked: set<string>, open: seq<Entry>, counter: nat)
    : (seq<Entry>, nat)
    decreases |nbrs|
  {
    if nbrs == [] then (open, counter)
    else
      var n := nbrs[0];
      if n in closed || n in blocked then
        Expand(h, goal, nbrs[1..], path, closed, blocked, open, counter)
      else
        var e := Entry((|path| + 1) as real + h(n, goal), counter + 1, n, path + [n]);
        Expand(h, goal, nbrs[1..], path, closed, blocked, open + [e], counter + 1)
  }

  /**
   * Expanding keeps the heap as a prefix, advances the counter by one per pushed entry, pushes
   * only open, unblocked neighbours with the path extended by them and consecutive ticks, and
   * pushes every such neighbour.
   */
  lemma {:induction false} ExpandSpec(h: (string, string) -> real, goal: string, nbrs: seq<string>,
                                      path: seq<string>, closed: set<string>, blocked: set<string>,
                                      open: seq<Entry>, counter: nat)
    ensures var r := Expand(h, goal, nbrs, path, closed, blocked, open, counter);
            |r.0| >= |open| && r.0[..|open|] == open
            && r.1 == counter + (|r.0| - |open|)
            && (forall j :: |open| <= j < |r.0| ==>
                  r.0[j].node in nbrs && r.0[j].node !in closed && r.0[j].node !in blocked
                  && r.0[j].path == path + [r.0[j].node] && r.0[j].tick == counter + 1 + (j - |open|))
            && (forall n :: n in nbrs && n !in closed && n !in blocked ==>
                  exists j :: |open| <= j < |r.0| && r.0[j].node == n)
    decreases |nbrs|
  {
    if nbrs != [] {
      var n := nbrs[0];
      var r := Expand(h, goal, nbrs, path, closed, blocked, open, counter);
      if n in closed || n in blocked {
        ExpandSpec(h, goal, nbrs[1..], path, closed, blocked, open, counter);
      } else {
        var e := Entry((|path| + 1) as real + h(n, goal), counter + 1, n, path + [n]);
        ExpandSpec(h, goal, nbrs[1..], path, closed, blocked, open + [e], counter + 1);
        assert r.0[..|open| + 1] == open + [e];
        assert r.0[|open|] == e;
        assert r.0[..|open|] == (open + [e])[..|open|];
      }
    }
  }

  /** The first neighbour is skipped when closed or blocked, and otherwise pushed with the next tick. */
  lemma ExpandStep(h: (string, string) -> real, goal: string, nbrs: seq<string>, path: seq<string>,
                   closed: set<string>, blocked: set<string>, open: seq<Entry>, counter: nat)
    requires nbrs != []
    ensures var n := nbrs[0];
            Expand(h, goal, nbrs, path, closed, blocked, open, counter)
            == if n in closed || n in blocked then Expand(h, goal, nbrs[1..], path, closed, blocked, open, counter)
               else Expand(h, goal, nbrs[1..], path, closed, blocked,
                           open + [Entry(|path + [n]| as real + h(n, goal), counter + 1, n, path + [n])], counter + 1)
  {
  }

  /** Pushing neighbours taken from the map keeps every heap entry at a key of the map. */
  lemma ExpandInGraph(g: Graph, h: (string, string) -> real, goal: string, nbrs: seq<string>,
                      path: seq<string>, closed: set<string>, blocked: set<string>,
                      open: seq<Entry>, counter: nat)
    requires forall n :: n in nbrs ==> n in g
    requires forall e :: e in open ==> e.node in g
    ensures forall e :: e in Expand(h, goal, nbrs, path, closed, blocked, open, counter).0 ==> e.node in g
  {
    ExpandSpec(h, goal, nbrs, path, closed, blocked, open, counter);
    var next := Expand(h, goal, nbrs, path, closed, blocked, open, counter);
    forall e | e in next.0
      ensures e.node in g
    {
      var j :| 0 <= j < |next.0| && next.0[j] == e;
      if j < |open| {
        assert next.0[..|open|][j] == e;
      }
    }
  }

  /** What the search loop may rely on: entries name keys of g, closed nodes are keys of g. */
  predicate SearchReady(g: Graph, open: seq<Entry>, closed: set<string>) {
    Closed(g) && closed <= g.Keys && forall e :: e in open ==> e.node in g
  }

  /**
   * The while loop of find_route from a given heap, closed set and counter: pop the least
   * entry; return its path at the goal; skip it when closed; otherwise close it and push
   * its open, unblocked neighbours. An exhausted heap gives [].
   */
  function Search(g: Graph, h: (string, string) -> real, goal: string, blocked: set<string>,
                  open: seq<Entry>, closed: set<string>, counter: nat): seq<string>
    requires SearchReady(g, open, closed)
    decreases |g.Keys - closed|, |open|
  {
    if open == [] then []
    else
      var k := MinIndex(open);
      var cur := open[k];
      var rest := Remove(open, k);
      if cur.node == goal then cur.path
      else if cur.node in closed then Search(g, h, goal, blocked, rest, closed, counter)
      else
        var closed' := closed + {cur.node};
        var next := Expand(h, goal, g[cur.node], cur.path, closed', blocked, rest, counter);
        assert g.Keys - closed' < g.Keys - closed by {
          assert cur.node in g.Keys - closed;
        }
        ExpandInGraph(g, h, goal, g[cur.node], cur.path, closed', blocked, rest, counter);
        Search(g, h, goal, blocked, next.0, closed', next.1)
  }

  /** The initial heap of find_route: (0, 0, start, [start]). */
  function StartHeap(start: string): seq<Entry> {
    [Entry(0.0, 0, start, [start])]
  }

  /** find_route(start, goal, blocked_nodes); a missing blocked set is the empty set. */
  function Route(g: Graph, h: (string, string) -> real, start: string, goal: string,
                 blocked: set<string>): (r: seq<string>)
    requires Closed(g)
    ensures start == goal ==> r == [start]
    ensures start != goal && (start !in g || goal !in g) ==> r == []
  {
    if start == goal then [start]
    else if start !in g || goal !in g then []
    else Search(g, h, goal, blocked, StartHeap(start), {}, 0)
  }

  // ---------------------------------------------------------------------------------------
  // Soundness of the search

  /** A heap entry whose path leads from start to its node through unblocked nodes, visiting each once, all but the last already closed. */
  predicate EntryOk(g: Graph, start: string, blocked: set<string>, closed: set<string>,
                    counter: nat, e: Entry) {
    |e.path| >= 1 && e.path[0] == start && e.path[|e.path| - 1] == e.node
    && IsWalk(g, e.path) && Avoids(e.path, blocked) && Distinct(e.path)
    && (forall i :: 0 <= i < |e.path| - 1 ==> e.path[i] in closed)
    && e.tick <= counter
  }

  predicate HeapOk(g: Graph, start: string, blocked: set<string>, open: seq<Entry>,
                   closed: set<string>, counter: nat) {
    (forall e :: e in open ==> EntryOk(g, start, blocked, closed, counter, e))
    && (forall i, j :: 0 <= i < j < |open| ==> open[i].tick != open[j].tick)
  }

  lemma RemoveTicks(open: seq<Entry>, k: nat)
    requires k < |open|
    requires forall i, j :: 0 <= i < j < |open| ==> open[i].tick != open[j].tick
    ensures forall i, j :: 0 <= i < j < |Remove(open, k)| ==>
              Remove(open, k)[i].tick != Remove(open, k)[j].tick
  {
    var r := Remove(open, k);
    forall i, j | 0 <= i < j < |r|
      ensures r[i].tick != r[j].tick
    {
      var i' := if i < k then i else i + 1;
      var j' := if j < k then j else j + 1;
      assert r[i] == open[i'] && r[j] == open[j'];
    }
  }

  /** Expanding a closed entry keeps every heap entry well formed and all ticks distinct. */
  lemma ExpandOk(g: Graph, h: (string, string) -> real, start: string, goal: string,
                 blocked: set<string>, cur: Entry, rest: seq<Entry>, closed: set<string>,
                 counter: nat)
    requires Closed(g) && cur.node in g && cur.node in closed
    requires EntryOk(g, start, blocked, closed, counter, cur)
    requires HeapOk(g, start, blocked, rest, closed, counter)
    ensures var next := Expand(h, goal, g[cur.node], cur.path, closed, blocked, rest, counter);
            HeapOk(g, start, blocked, next.0, closed, next.1)
  {
    ExpandSpec(h, goal, g[cur.node], cur.path, closed, blocked, rest, counter);
    var next := Expand(h, goal, g[cur.node], cur.path, closed, blocked, rest, counter);
    forall e | e in next.0
      ensures EntryOk(g, start, blocked, closed, next.1, e)
    {
      var j :| 0 <= j < |next.0| && next.0[j] == e;
      if j < |rest| {
        assert next.0[..|rest|][j] == e;
        assert rest[j] == e;
        assert EntryOk(g, start, blocked, closed, counter, e);
      } else {
        var p := cur.path;
        var n := e.node;
        assert e.path == p + [n];
        assert e.path[0] == p[0] && e.path[|e.path| - 1] == n;
        assert n in g[cur.node];
        assert IsWalk(g, e.path) by {
          forall i | 0 <= i < |e.path| - 1
            ensures e.path[i] in g && e.path[i + 1] in g[e.path[i]]
          {
            if i < |p| - 1 {
              assert e.path[i] == p[i] && e.path[i + 1] == p[i + 1];
            } else {
              assert e.path[i] == cur.node && e.path[i + 1] == n;
            }
          }
        }
        assert forall i :: 0 <= i < |p| ==> p[i] in closed by {
          forall i | 0 <= i < |p|
            ensures p[i] in closed
          {
            if i == |p| - 1 {
              assert p[i] == cur.node;
            }
          }
        }
        assert Distinct(e.path) by {
          forall i, i' | 0 <= i < i' < |e.path|
            ensures e.path[i] != e.path[i']
          {
            if i' < |p| {
              assert e.path[i] == p[i] && e.path[i'] == p[i'];
            } else {
              assert e.path[i] == p[i] && e.path[i'] == n;
            }
          }
        }
        assert Avoids(e.path, blocked) by {
          forall i | 1 <= i < |e.path|
            ensures e.path[i] !in blocked
          {
            if i < |p| {
              assert e.path[i] == p[i];
            }
          }
        }
        assert forall i :: 0 <= i < |e.path| - 1 ==> e.path[i] in closed by {
          forall i | 0 <= i < |e.path| - 1
            ensures e.path[i] in closed
          {
            assert e.path[i] == p[i];
          }
        }
      }
    }
    forall i, j | 0 <= i < j < |next.0|
      ensures next.0[i].tick != next.0[j].tick
    {
      if j < |rest| {
        assert next.0[i] == next.0[..|rest|][i] && next.0[j] == next.0[..|rest|][j];
      } else if i < |rest| {
        assert next.0[i] == next.0[..|rest|][i];
        assert next.0[i] in rest;
      }
    }
  }

  /** Every path the search returns is a route from start to goal that visits no node twice. */
  lemma {:induction false} SearchSound(g: Graph, h: (string, string) -> real, start: string,
                                       goal: string, blocked: set<string>, open: seq<Entry>,
                                       closed: set<string>, counter: nat)
    requires SearchReady(g, open, closed)
    requires HeapOk(g, start, blocked, open, closed, counter)
    ensures var r := Search(g, h, goal, blocked, open, closed, counter);
            r == [] || (IsRoute(g, r, start, goal, blocked) && Distinct(r))
    decreases |g.Keys - closed|, |open|
  {
    if open != [] {
      var k := MinIndex(open);
      var cur := open[k];
      var rest := Remove(open, k);
      RemoveTicks(open, k);
      if cur.node == goal {
        assert cur in open;
      } else if cur.node in closed {
        SearchSound(g, h, goal := goal, start := start, blocked := blocked, open := rest,
                    closed := closed, counter := counter);
      } else {
        var closed' := closed + {cur.node};
        assert cur in open;
        assert HeapOk(g, start, blocked, rest, closed', counter) by {
          forall e | e in rest
            ensures EntryOk(g, start, blocked, closed', counter, e)
          {
            assert e in open;
          }
        }
        ExpandOk(g, h, start, goal, blocked, cur, rest, closed', counter);
        ExpandInGraph(g, h, goal, g[cur.node], cur.path, closed', blocked, rest, counter);
        var next := Expand(h, goal, g[cur.node], cur.path, closed', blocked, rest, counter);
        assert g.Keys - closed' < g.Keys - closed by {
          assert cur.node in g.Keys - closed;
        }
        SearchSound(g, h, start, goal, blocked, next.0, closed', next.1);
      }
    }
  }

  /** The result of find_route is [] or a route from start to goal through unblocked nodes without repeats. */
  lemma RouteSound(g: Graph, h: (string, string) -> real, start: string, goal: string,
                   blocked: set<string>)
    requires Closed(g)
    ensures var r := Route(g, h, start, goal, blocked);
            r == [] || (IsRoute(g, r, start, goal, blocked) && Distinct(r))
  {
    if start != goal && start in g && goal in g {
      SearchSound(g, h, start, goal, blocked, StartHeap(start), {}, 0);
    }
  }

  /** With start != goal, a blocked goal is never reached. */
  lemma RouteBlockedGoal(g: Graph, h: (string, string) -> real, start: string, goal: string,
                         blocked: set<string>)
    requires Closed(g) && start != goal && goal in blocked
    ensures Route(g, h, start, goal, blocked) == []
  {
    RouteSound(g, h, start, goal, blocked);
  }

  // ---------------------------------------------------------------------------------------
  // Completeness of the search

  /** Some heap entry is at node n. */
  predicate Pending(open: seq<Entry>, n: string) {
    exists e :: e in open && e.node == n
  }

  /** Every unblocked neighbour of a closed node is closed or waiting in the heap. */
  predicate Frontier(g: Graph, blocked: set<string>, open: seq<Entry>, closed: set<string>) {
    forall c, n :: c in closed && c in g && n in g[c] && n !in blocked ==>
      n in closed || Pending(open, n)
  }

  /** Once the heap is empty, every node of an unblocked walk from a closed start is closed. */
  lemma {:induction false} WalkClosed(g: Graph, blocked: set<string>, closed: set<string>,
                                      p: seq<string>, i: nat)
    requires Frontier(g, blocked, [], closed)
    requires |p| >= 1 && p[0] in closed && IsWalk(g, p) && Avoids(p, blocked)
    requires i < |p|
    ensures p[i] in closed
  {
    if i > 0 {
      WalkClosed(g, blocked, closed, p, i - 1);
      assert p[i] in g[p[i - 1]];
      assert !Pending([], p[i]);
    }
  }

  /** Popping an entry whose node is already closed keeps the frontier property and the start witness. */
  lemma SkipKeepsFrontier(g: Graph, start: string, blocked: set<string>, open: seq<Entry>,
                          k: nat, closed: set<string>)
    requires k < |open| && open[k].node in closed
    requires Frontier(g, blocked, open, closed)
    requires start in closed || Pending(open, start)
    ensures Frontier(g, blocked, Remove(open, k), closed)
    ensures start in closed || Pending(Remove(open, k), start)
  {
    var rest := Remove(open, k);
    forall c, n | c in closed && c in g && n in g[c] && n !in blocked && n !in closed
      ensures Pending(rest, n)
    {
      var e :| e in open && e.node == n;
      assert e in rest;
    }
    if start !in closed {
      var e :| e in open && e.node == start;
      assert e in rest;
    }
  }

  /** Closing the popped node and pushing its neighbours keeps the frontier property and the start witness. */
  lemma ExpandKeepsFrontier(g: Graph, h: (string, string) -> real, start: string, goal: string,
                            blocked: set<string>, open: seq<Entry>, k: nat, closed: set<string>,
                            counter: nat)
    requires k < |open| && open[k].node in g
    requires Frontier(g, blocked, open, closed)
    requires start in closed || Pending(open, start)
    ensures var closed' := closed + {open[k].node};
            var next := Expand(h, goal, g[open[k].node], open[k].path, closed', blocked,
                               Remove(open, k), counter);
            Frontier(g, blocked, next.0, closed') && (start in closed' || Pending(next.0, start))
  {
    var cur := open[k];
    var rest := Remove(open, k);
    var closed' := closed + {cur.node};
    ExpandSpec(h, goal, g[cur.node], cur.path, closed', blocked, rest, counter);
    var next := Expand(h, goal, g[cur.node], cur.path, closed', blocked, rest, counter);
    assert forall e :: e in rest ==> e in next.0 by {
      forall e | e in rest
        ensures e in next.0
      {
        var j :| 0 <= j < |rest| && rest[j] == e;
        assert next.0[..|rest|][j] == e;
      }
    }
    forall c, n | c in closed' && c in g && n in g[c] && n !in blocked && n !in closed'
      ensures Pending(next.0, n)
    {
      if c == cur.node {
        var j :| |rest| <= j < |next.0| && next.0[j].node == n;
        assert next.0[j] in next.0;
      } else {
        var e :| e in open && e.node == n;
        assert e in rest;
      }
    }
    if start !in closed' {
      var e :| e in open && e.node == start;
      assert e in rest;
    }
  }

  /** Closing and expanding the popped entry re-establishes every precondition of the search's completeness argument. */
  lemma ExpandReady(g: Graph, h: (string, string) -> real, start: string, goal: string,
                    blocked: set<string>, open: seq<Entry>, k: nat, closed: set<string>,
                    counter: nat)
    requires k < |open| && open[k].node !in closed
    requires SearchReady(g, open, closed)
    requires HeapOk(g, start, blocked, open, closed, counter)
    requires Frontier(g, blocked, open, closed)
    requires start in closed || Pending(open, start)
    ensures var closed' := closed + {open[k].node};
            var next := Expand(h, goal, g[open[k].node], open[k].path, closed', blocked,
                               Remove(open, k), counter);
            SearchReady(g, next.0, closed') && HeapOk(g, start, blocked, next.0, closed', next.1)
            && Frontier(g, blocked, next.0, closed') && (start in closed' || Pending(next.0, start))
  {
    var cur := open[k];
    var rest := Remove(open, k);
    var closed' := closed + {cur.node};
    RemoveTicks(open, k);
    assert cur in open;
    assert HeapOk(g, start, blocked, rest, closed', counter) by {
      forall e | e in rest
        ensures EntryOk(g, start, blocked, closed', counter, e)
      {
        assert e in open;
      }
    }
    ExpandOk(g, h, start, goal, blocked, cur, rest, closed', counter);
    ExpandKeepsFrontier(g, h, start, goal, blocked, open, k, closed, counter);
    assert forall e :: e in rest ==> e.node in g by {
      forall e | e in rest
        ensures e.node in g
      {
        assert e in open;
      }
    }
    ExpandInGraph(g, h, goal, g[cur.node], cur.path, closed', blocked, rest, counter);
  }

  /** The search returns a path whenever an unblocked walk leads from start to the (unclosed) goal. */
  lemma {:induction false} SearchComplete(g: Graph, h: (string, string) -> real, start: string,
                                          goal: string, blocked: set<string>, open: seq<Entry>,
                                          closed: set<string>, counter: nat, p: seq<string>)
    requires SearchReady(g, open, closed)
    requires HeapOk(g, start, blocked, open, closed, counter)
    requires Frontier(g, blocked, open, closed)
    requires start in closed || Pending(open, start)
    requires goal !in closed
    requires IsRoute(g, p, start, goal, blocked)
    ensures Search(g, h, goal, blocked, open, closed, counter) != []
    decreases |g.Keys - closed|, |open|
  {
    if open == [] {
      WalkClosed(g, blocked, closed, p, |p| - 1);
      assert false;
    } else {
      var k := MinIndex(open);
      var cur := open[k];
      var rest := Remove(open, k);
      RemoveTicks(open, k);
      assert cur in open;
      if cur.node == goal {
      } else if cur.node in closed {
        SkipKeepsFrontier(g, start, blocked, open, k, closed);
        SearchComplete(g, h, start, goal, blocked, rest, closed, counter, p);
      } else {
        var closed' := closed + {cur.node};
        ExpandReady(g, h, start, goal, blocked, open, k, closed, counter);
        var next := Expand(h, goal, g[cur.node], cur.path, closed', blocked, rest, counter);
        assert g.Keys - closed' < g.Keys - closed by {
          assert cur.node in g.Keys - closed;
        }
        SearchComplete(g, h, start, goal, blocked, next.0, closed', next.1, p);
      }
    }
  }

  /** find_route finds a path whenever the goal is reachable from start through unblocked nodes. */
  lemma RouteComplete(g: Graph, h: (string, string) -> real, start: string, goal: string,
                      blocked: set<string>, p: seq<string>)
    requires Closed(g)
    requires IsRoute(g, p, start, goal, blocked)
    ensures Route(g, h, start, goal, blocked) != []
  {
    if start != goal {
      assert |p| >= 2;
      assert p[|p| - 1] in g[p[|p| - 2]];
      var open := StartHeap(start);
      assert Pending(open, start) by {
        assert open[0] in open;
      }
      assert HeapOk(g, start, blocked, open, {}, 0) by {
        forall e | e in open
          ensures EntryOk(g, start, blocked, {}, 0, e)
        {
          assert e == open[0];
        }
      }
      SearchComplete(g, h, start, goal, blocked, open, {}, 0, p);
    }
  }

  // ---------------------------------------------------------------------------------------
  // Exit selection

  /** Number of users whose route passes through x. */
  function Congestion(routes: map<string, seq<string>>, x: string): nat {
    |set u | u in routes && x in routes[u]|
  }

  /** The congestion penalty of each node: `weight` per user routed through it. */
  function Penalty(routes: map<string, seq<string>>, weight: nat): string -> nat {
    x => weight * Congestion(routes, x)
  }

  /** Score of exit x reached by `path`: the path length plus the penalty of x. */
  function Score(path: seq<string>, penalty: string -> nat, x: string): nat {
    |path| + penalty(x)
  }

  /**
   * The exit_scores dictionary in insertion order, given the route found to each exit
   * (paths[i] leads to exits[i]): every exit with a non-empty route, with its score.
   */
  function Scores(exits: seq<string>, paths: seq<seq<string>>, penalty: string -> nat): seq<(string, nat)>
    requires |paths| == |exits|
    decreases |exits|
  {
    if exits == [] then []
    else
      var n := |exits| - 1;
      var init := Scores(exits[..n], paths[..n], penalty);
      if paths[n] == [] then init
      else init + [(exits[n], Score(paths[n], penalty, exits[n]))]
  }

  /** min(items, key=score): the first item of least score. */
  function FirstMin(s: seq<(string, nat)>): (k: nat)
    requires s != []
    ensures k < |s|
    ensures forall j :: 0 <= j < |s| ==> s[k].1 <= s[j].1
    ensures forall j :: 0 <= j < k ==> s[k].1 < s[j].1
    decreases |s|
  {
    if |s| == 1 then 0
    else
      var k := FirstMin(s[..|s| - 1]);
      assert forall j :: 0 <= j < |s| - 1 ==> s[..|s| - 1][j] == s[j];
      if s[|s| - 1].1 < s[k].1 then |s| - 1 else k
  }

  /** The exit picked from the score list: its least-scored entry, or 'p200' when it is empty. */
  function PickExit(exits: seq<string>, paths: seq<seq<string>>, penalty: string -> nat): string
    requires |paths| == |exits|
  {
    var s := Scores(exits, paths, penalty);
    if s == [] then "p200" else s[FirstMin(s)].0
  }

  /** Some exit has a non-empty route. */
  predicate SomeReachable(paths: seq<seq<string>>) {
    exists i :: 0 <= i < |paths| && paths[i] != []
  }

  /** The indices of the exits with a non-empty route, in increasing order. */
  function Reached(paths: seq<seq<string>>): (r: seq<nat>)
    ensures forall j :: 0 <= j < |r| ==> r[j] < |paths| && paths[r[j]] != []
    ensures forall j, j' :: 0 <= j < j' < |r| ==> r[j] < r[j']
    ensures forall i :: 0 <= i < |paths| && paths[i] != [] ==> i in r
    decreases |paths|
  {
    if paths == [] then []
    else
      var n := |paths| - 1;
      assert forall i :: 0 <= i < n ==> paths[..n][i] == paths[i];
      var init := Reached(paths[..n]);
      if paths[n] == [] then init else init + [n]
  }

  /** Entry j of the score list belongs to the j-th exit with a route. */
  lemma {:induction false} ScoresReached(exits: seq<string>, paths: seq<seq<string>>,
                                         penalty: string -> nat)
    requires |paths| == |exits|
    ensures |Scores(exits, paths, penalty)| == |Reached(paths)|
    ensures var s := Scores(exits, paths, penalty);
            var r := Reached(paths);
            forall j :: 0 <= j < |s| ==> s[j] == (exits[r[j]], Score(paths[r[j]], penalty, exits[r[j]]))
    decreases |exits|
  {
    if exits != [] {
      var n := |exits| - 1;
      var ex, ps := exits[..n], paths[..n];
      ScoresReached(ex, ps, penalty);
      var init := Scores(ex, ps, penalty);
      var ri := Reached(ps);
      assert Reached(paths) == if paths[n] == [] then ri else ri + [n];
      assert Scores(exits, paths, penalty) ==
               if paths[n] == [] then init else init + [(exits[n], Score(paths[n], penalty, exits[n]))];
      var s := Scores(exits, paths, penalty);
      var r := Reached(paths);
      forall j | 0 <= j < |s|
        ensures s[j] == (exits[r[j]], Score(paths[r[j]], penalty, exits[r[j]]))
      {
        if j < |init| {
          assert s[j] == init[j] && r[j] == ri[j];
          assert ri[j] < n;
          assert ex[ri[j]] == exits[ri[j]] && ps[ri[j]] == paths[ri[j]];
        }
      }
    }
  }

  /** The score list is empty exactly when no exit has a route. */
  lemma ScoresEmpty(exits: seq<string>, paths: seq<seq<string>>, penalty: string -> nat)
    requires |paths| == |exits|
    ensures Scores(exits, paths, penalty) == [] <==> !SomeReachable(paths)
  {
    ScoresReached(exits, paths, penalty);
    if SomeReachable(paths) {
      var i :| 0 <= i < |paths| && paths[i] != [];
      assert i in Reached(paths);
    }
    if Reached(paths) != [] {
      assert paths[Reached(paths)[0]] != [];
    }
  }

  /**
   * When some exit has a route, the picked exit is one with a route, of least score, and it
   * precedes every exit tying with it.
   */
  lemma ScoresLeast(exits: seq<string>, paths: seq<seq<string>>, penalty: string -> nat)
    requires |paths| == |exits| && SomeReachable(paths)
    ensures var b := PickExit(exits, paths, penalty);
            exists k :: 0 <= k < |exits| && exits[k] == b && paths[k] != []
                        && forall i :: 0 <= i < |exits| && paths[i] != [] ==>
                             Score(paths[k], penalty, b) <= Score(paths[i], penalty, exits[i])
                             && (Score(paths[k], penalty, b) == Score(paths[i], penalty, exits[i]) ==> k <= i)
  {
    ScoresEmpty(exits, paths, penalty);
    ScoresReached(exits, paths, penalty);
    var s := Scores(exits, paths, penalty);
    var r := Reached(paths);
    assert s != [];
    var m := FirstMin(s);
    var k := r[m];
    var b := s[m].0;
    assert PickExit(exits, paths, penalty) == b;
    assert s[m] == (exits[k], Score(paths[k], penalty, exits[k]));
    forall i | 0 <= i < |exits| && paths[i] != []
      ensures Score(paths[k], penalty, b) <= Score(paths[i], penalty, exits[i])
      ensures Score(paths[k], penalty, b) == Score(paths[i], penalty, exits[i]) ==> k <= i
    {
      FirstMinBeats(exits, paths, penalty, i);
    }
    assert exits[k] == b && paths[k] != [];
  }

  /** The first least score is at most the score of any reached exit i, and precedes i on a tie. */
  lemma FirstMinBeats(exits: seq<string>, paths: seq<seq<string>>, penalty: string -> nat, i: nat)
    requires |paths| == |exits| && i < |exits| && paths[i] != []
    requires Scores(exits, paths, penalty) != []
    ensures var s := Scores(exits, paths, penalty);
            var m := FirstMin(s);
            s[m].1 <= Score(paths[i], penalty, exits[i])
            && (s[m].1 == Score(paths[i], penalty, exits[i]) ==>
                  m < |Reached(paths)| && Reached(paths)[m] <= i)
  {
    ScoresReached(exits, paths, penalty);
    var s := Scores(exits, paths, penalty);
    var r := Reached(paths);
    var m := FirstMin(s);
    var j :| 0 <= j < |r| && r[j] == i;
    assert s[j].1 == Score(paths[i], penalty, exits[i]);
    if s[m].1 == s[j].1 && m != j {
      assert m < j;
      assert r[m] < r[j];
    }
  }

  /** One more exit extends the score list by its entry exactly when its route is non-empty. */
  lemma ScoresStep(exits: seq<string>, paths: seq<seq<string>>, penalty: string -> nat, i: nat)
    requires |paths| == |exits| && i < |exits|
    ensures Scores(exits[..i + 1], paths[..i + 1], penalty)
            == if paths[i] == [] then Scores(exits[..i], paths[..i], penalty)
               else Scores(exits[..i], paths[..i], penalty)
                    + [(exits[i], Score(paths[i], penalty, exits[i]))]
  {
    assert exits[..i + 1][..i] == exits[..i] && paths[..i + 1][..i] == paths[..i];
  }

  /** The route find_route gives from `current` to each exit, in the order of `exits`. */
  function ExitRoutes(g: Graph, h: (string, string) -> real, current: string, exits: seq<string>)
    : (r: seq<seq<string>>)
    requires Closed(g)
    ensures |r| == |exits|
    ensures forall i :: 0 <= i < |exits| ==> r[i] == Route(g, h, current, exits[i], {})
  {
    seq(|exits|, i requires 0 <= i < |exits| => Route(g, h, current, exits[i], {}))
  }

  /** get_best_exit (weight 10) and get_nearest_exit (weight 0) from `current`. */
  function BestExit(g: Graph, h: (string, string) -> real, current: string, exits: seq<string>,
                    routes: map<string, seq<string>>, weight: nat): string
    requires Closed(g)
  {
    PickExit(exits, ExitRoutes(g, h, current, exits), Penalty(routes, weight))
  }

  /**
   * get_best_exit / get_nearest_exit: with no exit reachable the result is 'p200'; otherwise
   * it is an exit k with a route whose score is least, and no exit before k ties with it.
   */
  lemma BestExitLeast(g: Graph, h: (string, string) -> real, current: string, exits: seq<string>,
                      routes: map<string, seq<string>>, weight: nat)
    requires Closed(g)
    ensures var paths := ExitRoutes(g, h, current, exits);
            var b := BestExit(g, h, current, exits, routes, weight);
            (!SomeReachable(paths) ==> b == "p200")
            && (SomeReachable(paths) ==>
                  exists k :: 0 <= k < |exits| && exits[k] == b && paths[k] != []
                              && forall i :: 0 <= i < |exits| && paths[i] != [] ==>
                                   Score(paths[k], Penalty(routes, weight), b) <= Score(paths[i], Penalty(routes, weight), exits[i])
                                   && (Score(paths[k], Penalty(routes, weight), b) == Score(paths[i], Penalty(routes, weight), exits[i]) ==> k <= i))
  {
    var paths := ExitRoutes(g, h, current, exits);
    ScoresEmpty(exits, paths, Penalty(routes, weight));
    if SomeReachable(paths) {
      ScoresLeast(exits, paths, Penalty(routes, weight));
    }
  }

  /** With 'p200' among the exits, the exit chosen is always one of the exits. */
  lemma BestExitIsExit(g: Graph, h: (string, string) -> real, current: string, exits: seq<string>,
                       routes: map<string, seq<string>>, weight: nat)
    requires Closed(g) && "p200" in exits
    ensures BestExit(g, h, current, exits, routes, weight) in exits
  {
    BestExitLeast(g, h, current, exits, routes, weight);
  }

  // ---------------------------------------------------------------------------------------
  // Turn-by-turn directions

  datatype Turn = Straight | Left | Right | Arrive

  /** One spoken direction: the turn, the distance to the next waypoint, the instruction text. */
  datatype Step = Step(direction: Turn, distance: real, instruction: string)

  /** Python's int() on a float: truncation toward zero. */
  function Trunc(r: real): (t: int)
    ensures r >= 0.0 ==> t as real <= r < t as real + 1.0
    ensures r < 0.0 ==> t as real - 1.0 < r <= t as real
  {
    if r >= 0.0 then r.Floor else -((-r).Floor)
  }

  /**
   * The classification of atan2(cross, dot) in degrees: |angle| < 30 is straight, a positive
   * angle is left, anything else right. atan2(0, dot) is 0 for dot >= 0 and 180 for dot < 0;
   * otherwise |angle| < 30 exactly when dot > 0 and 3 cross^2 < dot^2 (tan 30 = 1/sqrt 3).
   */
  function TurnOf(cross: real, dot: real): (t: Turn)
    ensures t != Arrive
    ensures cross == 0.0 && dot > 0.0 ==> t == Straight
    ensures t != Straight && cross > 0.0 ==> t == Left
    ensures t != Straight && cross < 0.0 ==> t == Right
    ensures t == Left ==> cross > 0.0 || (cross == 0.0 && dot < 0.0)
    ensures t == Right ==> cross < 0.0
    ensures t == Straight ==> dot >= 0.0
  {
    if cross == 0.0 && dot >= 0.0 then Straight
    else if dot > 0.0 && 3.0 * (cross * cross) < dot * dot then Straight
    else if cross > 0.0 || (cross == 0.0 && dot < 0.0) then Left
    else Right
  }

  /** The projected position of a node; an unknown node sits at (0, 0). */
  function Position(nodes: map<string, MapData.Node>, id: string): (real, real) {
    if id in nodes then (nodes[id].x, nodes[id].y) else (0.0, 0.0)
  }

  /** The vector from node a to node b. */
  function Leg(nodes: map<string, MapData.Node>, a: string, b: string): (real, real) {
    (Position(nodes, b).0 - Position(nodes, a).0, Position(nodes, b).1 - Position(nodes, a).1)
  }

  function Cross(u: (real, real), v: (real, real)): real {
    u.0 * v.1 - u.1 * v.0
  }

  function Dot(u: (real, real), v: (real, real)): real {
    u.0 * v.0 + u.1 * v.1
  }

  /**
   * _calculate_turn_direction: collinear legs in the same direction go straight; any other
   * result is a left turn for a positive cross product and a right turn for a negative one.
   */
  function TurnDirection(nodes: map<string, MapData.Node>, prev: string, cur: string,
                         next: string): (t: Turn)
    ensures var u, v := Leg(nodes, prev, cur), Leg(nodes, cur, next);
            (Cross(u, v) == 0.0 && Dot(u, v) > 0.0 ==> t == Straight)
            && (t == Left ==> Cross(u, v) > 0.0 || (Cross(u, v) == 0.0 && Dot(u, v) < 0.0))
            && (t == Right ==> Cross(u, v) < 0.0)
            && (t == Straight ==> Dot(u, v) >= 0.0)
            && t != Arrive
  {
    var u, v := Leg(nodes, prev, cur), Leg(nodes, cur, next);
    TurnOf(Cross(u, v), Dot(u, v))
  }

  /** The label the instructions use for a node; `fallback` when it is not a known node. */
  function Label(nodes: map<string, MapData.Node>, id: string, fallback: string): string {
    if id in nodes then nodes[id].caption else fallback
  }

  function TurnWord(t: Turn): string {
    match t
    case Straight => "straight"
    case Left => "left"
    case Right => "right"
    case Arrive => "arrive"
  }

  /** The direction for the leg route[i] -> route[i+1]. */
  function StepAt(nodes: map<string, MapData.Node>, dist: (string, string) -> real,
                  route: seq<string>, i: nat): (s: Step)
    requires i < |route| - 1
    ensures s.distance == dist(route[i], route[i + 1])
    ensures i == 0 ==> s.direction == Straight
    ensures i > 0 ==> s.direction == TurnDirection(nodes, route[i - 1], route[i], route[i + 1])
  {
    var d := dist(route[i], route[i + 1]);
    var meters := Text.IntToString(Trunc(d));
    var target := Label(nodes, route[i + 1], route[i + 1]);
    if i == 0 then
      Step(Straight, d, "Proceed straight for " + meters + " meters to " + target + ".")
    else
      var t := TurnDirection(nodes, route[i - 1], route[i], route[i + 1]);
      if t == Straight then
        Step(t, d, "Continue straight for " + meters + " meters to " + target + ".")
      else
        Step(t, d, "Turn " + TurnWord(t) + " and proceed " + meters + " meters to " + target + ".")
  }

  /** The closing 'arrive' entry. */
  function ArriveStep(nodes: map<string, MapData.Node>, last: string): Step {
    Step(Arrive, 0.0, "You have arrived at " + Label(nodes, last, "destination") + ".")
  }

  /** generate_turn_by_turn_directions: one entry per leg, then 'arrive'; none for fewer than two nodes. */
  function Directions(nodes: map<string, MapData.Node>, dist: (string, string) -> real,
                      route: seq<string>): (d: seq<Step>)
    ensures |route| < 2 ==> d == []
    ensures |route| >= 2 ==> |d| == |route|
  {
    if |route| < 2 then []
    else Legs(nodes, dist, route) + [ArriveStep(nodes, route[|route| - 1])]
  }

  /** One entry per leg of the route. */
  function Legs(nodes: map<string, MapData.Node>, dist: (string, string) -> real,
                route: seq<string>): (d: seq<Step>)
    requires |route| >= 1
    ensures |d| == |route| - 1
  {
    seq(|route| - 1, i requires 0 <= i < |route| - 1 => StepAt(nodes, dist, route, i))
  }

  /** For two nodes or more the first entry goes straight along the first leg and the last arrives, at distance 0. */
  lemma DirectionsEnds(nodes: map<string, MapData.Node>, dist: (string, string) -> real,
                       route: seq<string>)
    requires |route| >= 2
    ensures var d := Directions(nodes, dist, route);
            d[0].direction == Straight && d[0].distance == dist(route[0], route[1])
            && d[|d| - 1].direction == Arrive && d[|d| - 1].distance == 0.0
  {
    var d := Directions(nodes, dist, route);
    assert d[0] == StepAt(nodes, dist, route, 0);
    assert d[|d| - 1] == ArriveStep(nodes, route[|route| - 1]);
  }

  /** Every middle entry is the turn at its node, never 'arrive', with the length of the leg after it. */
  lemma DirectionsTurn(nodes: map<string, MapData.Node>, dist: (string, string) -> real,
                       route: seq<string>, i: nat)
    requires 0 < i < |route| - 1
    ensures var d := Directions(nodes, dist, route);
            d[i].direction == TurnDirection(nodes, route[i - 1], route[i], route[i + 1])
            && d[i].direction != Arrive
            && d[i].distance == dist(route[i], route[i + 1])
  {
    assert Directions(nodes, dist, route)[i] == StepAt(nodes, dist, route, i);
  }

  // ---------------------------------------------------------------------------------------
  // The engine

  /** PathfindingEngine: the floor data and the adjacency map built from its edges. */
  class PathfindingEngine {
    const nodes: map<string, MapData.Node>
    const edges: seq<(string, string)>
    const exits: seq<string>
    const graph: Graph
    /** Euclidean distance between two points; the square root is not modelled. */
    const euclid: ((real, real), (real, real)) -> real
    /** _heuristic and calculate_distance: the distance between two nodes' positions. */
    const dist: (string, string) -> real

    predicate Valid() {
      graph == GraphFrom(edges)
    }

    constructor (euclid: ((real, real), (real, real)) -> real)
      ensures Valid()
      ensures nodes == MapData.NODES && edges == MapData.EDGES && exits == MapData.EXITS
      ensures this.euclid == euclid
      ensures forall a, b :: dist(a, b) == euclid(Position(nodes, a), Position(nodes, b))
    {
      nodes := MapData.NODES;
      edges := MapData.EDGES;
      exits := MapData.EXITS;
      this.euclid := euclid;
      dist := (a, b) => euclid(Position(MapData.NODES, a), Position(MapData.NODES, b));
      var g := BuildGraph(MapData.EDGES);
      graph := g;
    }

    /** validate_node. */
    predicate ValidateNode(id: string) {
      id in nodes
    }

    /** The neighbour loop of find_route: push every open, unblocked neighbour with its f-score and a fresh tick. */
    static method PushNeighbours(h: (string, string) -> real, goal: string, nbrs: seq<string>,
                                 path: seq<string>, closed: set<string>, blocked: set<string>,
                                 open0: seq<Entry>, counter0: nat)
      returns (open: seq<Entry>, counter: nat)
      ensures (open, counter) == Expand(h, goal, nbrs, path, closed, blocked, open0, counter0)
    {
      open, counter := open0, counter0;
      for i := 0 to |nbrs|
        invariant Expand(h, goal, nbrs[i..], path, closed, blocked, open, counter)
                  == Expand(h, goal, nbrs, path, closed, blocked, open0, counter0)
      {
        ExpandStep(h, goal, nbrs[i..], path, closed, blocked, open, counter);
        assert nbrs[i..][0] == nbrs[i] && nbrs[i..][1..] == nbrs[i + 1..];
        var n := nbrs[i];
        if n in closed || n in blocked {
          continue;
        }
        var newPath := path + [n];
        var f := |newPath| as real + h(n, goal);
        counter := counter + 1;
        open := open + [Entry(f, counter, n, newPath)];
      }
    }

    /** find_route. */
    method FindRoute(start: string, goal: string, blocked: set<string>) returns (route: seq<string>)
      requires Valid()
      ensures Closed(graph)
      ensures route == Route(graph, dist, start, goal, blocked)
    {
      GraphFromClosed(edges);
      if start == goal {
        return [start];
      }
      if start !in graph || goal !in graph {
        return [];
      }
      route := SearchLoop(goal, blocked, StartHeap(start));
    }

    /** The main loop of find_route from the start heap: pop the least entry until the goal or an empty heap. */
    method SearchLoop(goal: string, blocked: set<string>, open0: seq<Entry>) returns (route: seq<string>)
      requires Valid() && Closed(graph) && SearchReady(graph, open0, {})
      ensures route == Search(graph, dist, goal, blocked, open0, {}, 0)
    {
      var counter := 0;
      var open := open0;
      var closed: set<string> := {};
      ghost var result := Search(graph, dist, goal, blocked, open0, {}, 0);
      while open != []
        invariant SearchReady(graph, open, closed)
        invariant Search(graph, dist, goal, blocked, open, closed, counter) == result
        decreases |graph.Keys - closed|, |open|
      {
        var k := MinIndex(open);
        var cur := open[k];
        var rest := Remove(open, k);
        if cur.node == goal {
          return cur.path;
        }
        if cur.node in closed {
          open := rest;
          continue;
        }
        assert graph.Keys - (closed + {cur.node}) < graph.Keys - closed by {
          assert cur.node in graph.Keys - closed;
        }
        closed := closed + {cur.node};
        ExpandInGraph(graph, dist, goal, graph[cur.node], cur.path, closed, blocked, rest, counter);
        open, counter := PushNeighbours(dist, goal, graph[cur.node], cur.path, closed, blocked, rest, counter);
      }
      return [];
    }

    /** min(exit_scores.items(), key=score)[0]. */
    static method LeastScored(scores: seq<(string, nat)>) returns (x: string)
      requires scores != []
      ensures x == scores[FirstMin(scores)].0
    {
      var k := 0;
      for j := 1 to |scores|
        invariant k == FirstMin(scores[..j])
      {
        assert scores[..j + 1][..j] == scores[..j];
        if scores[j].1 < scores[k].1 {
          k := j;
        }
      }
      assert scores[..|scores|] == scores;
      x := scores[k].0;
    }

    /** get_best_exit: `routes` maps each user id to that user's route. */
    method GetBestExit(current: string, routes: map<string, seq<string>>) returns (best: string)
      requires Valid()
      ensures Closed(graph)
      ensures best == BestExit(graph, dist, current, exits, routes, 10)
    {
      var scores := ExitScores(current, routes);
      if scores == [] {
        return "p200";
      }
      best := LeastScored(scores);
    }

    /** The exit_scores loop of get_best_exit: each reachable exit with its route length plus 10 per user routed through it. */
    method ExitScores(current: string, routes: map<string, seq<string>>) returns (scores: seq<(string, nat)>)
      requires Valid()
      ensures Closed(graph)
      ensures scores == Scores(exits, ExitRoutes(graph, dist, current, exits), Penalty(routes, 10))
    {
      GraphFromClosed(edges);
      ghost var paths := ExitRoutes(graph, dist, current, exits);
      scores := [];
      for i := 0 to |exits|
        invariant scores == Scores(exits[..i], paths[..i], Penalty(routes, 10))
      {
        scores := ScoreExit(current, routes, i, scores);
      }
      assert exits[..|exits|] == exits && paths[..|exits|] == paths;
    }

    /** One turn of the exit_scores loop: exit i is added with its score when it has a route. */
    method ScoreExit(current: string, routes: map<string, seq<string>>, i: nat, scores: seq<(string, nat)>)
      returns (scores': seq<(string, nat)>)
      requires Valid() && i < |exits|
      requires Closed(graph)
      requires scores == Scores(exits[..i], ExitRoutes(graph, dist, current, exits)[..i], Penalty(routes, 10))
      ensures scores' == Scores(exits[..i + 1], ExitRoutes(graph, dist, current, exits)[..i + 1], Penalty(routes, 10))
    {
      ghost var paths := ExitRoutes(graph, dist, current, exits);
      ghost var penalty := Penalty(routes, 10);
      var path := FindRoute(current, exits[i], {});
      ScoresStep(exits, paths, penalty, i);
      if path == [] {
        return scores;
      }
      var congestion := Congestion(routes, exits[i]);
      assert |path| + congestion * 10 == Score(paths[i], penalty, exits[i]);
      scores' := scores + [(exits[i], |path| + congestion * 10)];
    }

    /** get_nearest_exit: get_best_exit without the congestion term. */
    method GetNearestExit(current: string) returns (nearest: string)
      requires Valid()
      ensures Closed(graph)
      ensures nearest == BestExit(graph, dist, current, exits, map[], 0)
    {
      GraphFromClosed(edges);
      ghost var paths := ExitRoutes(graph, dist, current, exits);
      var distances: seq<(string, nat)> := [];
      for i := 0 to |exits|
        invariant distances == Scores(exits[..i], paths[..i], Penalty(map[], 0))
      {
        var path := FindRoute(current, exits[i], {});
        ScoresStep(exits, paths, Penalty(map[], 0), i);
        if path != [] {
          distances := distances + [(exits[i], |path|)];
        }
      }
      assert exits[..|exits|] == exits && paths[..|exits|] == paths;
      if distances == [] {
        return "p200";
      }
      nearest := LeastScored(distances);
    }

    /** One leg of generate_turn_by_turn_directions: distance, turn and instruction text. */
    method LegStep(route: seq<string>, i: nat) returns (step: Step)
      requires i < |route| - 1
      ensures step == StepAt(nodes, dist, route, i)
    {
      var d := dist(route[i], route[i + 1]);
      var meters := Text.IntToString(Trunc(d));
      var target := Label(nodes, route[i + 1], route[i + 1]);
      if i == 0 {
        return Step(Straight, d, "Proceed straight for " + meters + " meters to " + target + ".");
      }
      var turn := TurnDirection(nodes, route[i - 1], route[i], route[i + 1]);
      var instruction;
      if turn == Straight {
        instruction := "Continue straight for " + meters + " meters to " + target + ".";
      } else {
        instruction := "Turn " + TurnWord(turn) + " and proceed " + meters + " meters to " + target + ".";
      }
      step := Step(turn, d, instruction);
    }

    /** generate_turn_by_turn_directions. */
    method GenerateDirections(route: seq<string>) returns (steps: seq<Step>)
      ensures steps == Directions(nodes, dist, route)
    {
      if |route| < 2 {
        return [];
      }
      ghost var legs := Legs(nodes, dist, route);
      steps := [];
      for i := 0 to |route| - 1
        invariant steps == legs[..i]
      {
        var step := LegStep(route, i);
        assert legs[..i + 1] == legs[..i] + [step];
        steps := steps + [step];
      }
      assert legs[..|route| - 1] == legs;
      steps := steps + [ArriveStep(nodes, route[|route| - 1])];
    }
  }
}
