// The router of the browser client (echoaid-app/src/App.jsx): an A* search that
// blocks edges given as "a-b" strings, and the shared `brain` holding each simulated user's
// route and the list of blocked edges. The floor plan the client draws (its node ids,
// coordinates and edge list) is a parameter here: a Floor.

module ClientBrain {
  import opened Wrappers
  import Seqs

  /**
   * The client's floor: node ids in list order, the edge list, each node's coordinates and
   * the Euclidean distance between two points (an uninterpreted real function).
   */
  datatype Floor = Floor(ids: seq<string>, edges: seq<(string, string)>,
                         pos: string -> (real, real),
                         euclid: ((real, real), (real, real)) -> real)

  /** The exits a route may end at, in the order ties are broken. */
  const EX_IDS: seq<string> := ["p8", "p23", "p125", "p133"]

  /** dist(NM[a], NM[b]). */
  function Dist(fl: Floor, a: string, b: string): real {
    fl.euclid(fl.pos(a), fl.pos(b))
  }

  /** An edge is blocked when "a-b" or "b-a" is listed. */
  predicate EdgeBlocked(bl: seq<string>, a: string, b: string) {
    (a + "-" + b) in bl || (b + "-" + a) in bl
  }

  /** a and b are joined by an edge of the list, in either direction, that is not blocked. */
  ghost predicate Link(fl: Floor, bl: seq<string>, a: string, b: string) {
    (exists k :: 0 <= k < |fl.edges| && (fl.edges[k] == (a, b) || fl.edges[k] == (b, a)))
    && !EdgeBlocked(bl, a, b)
  }

  /** Every consecutive pair of p is a Link. */
  ghost predicate Walk(fl: Floor, bl: seq<string>, p: seq<string>) {
    forall i :: 0 <= i < |p| - 1 ==> Link(fl, bl, p[i], p[i + 1])
  }

  // ---------------------------------------------------------------------------------------
  // Adjacency

  /** adj[a]?.push(b): only node ids have a neighbour list. */
  function Push(adj: map<string, seq<string>>, a: string, b: string): map<string, seq<string>> {
    if a in adj then adj[a := adj[a] + [b]] else adj
  }

  /** The neighbour lists after the given edges, in order, skipping blocked ones. */
  function Adjacency(ids: seq<string>, edges: seq<(string, string)>, bl: seq<string>): (adj: map<string, seq<string>>)
    ensures adj.Keys == set x | x in ids
    decreases |edges|
  {
    if edges == [] then map x | x in ids :: []
    else
      var n := |edges| - 1;
      var adj := Adjacency(ids, edges[..n], bl);
      if EdgeBlocked(bl, edges[n].0, edges[n].1) then adj
      else Push(Push(adj, edges[n].0, edges[n].1), edges[n].1, edges[n].0)
  }

  /** Every neighbour listed is joined to its node by an unblocked edge. */
  lemma {:induction false} AdjacencyLinks(ids: seq<string>, edges: seq<(string, string)>, bl: seq<string>)
    ensures var adj := Adjacency(ids, edges, bl);
            forall x, y :: x in adj && y in adj[x] ==>
              (exists k :: 0 <= k < |edges| && (edges[k] == (x, y) || edges[k] == (y, x)))
              && !EdgeBlocked(bl, x, y)
    decreases |edges|
  {
    if edges != [] {
      var n := |edges| - 1;
      AdjacencyLinks(ids, edges[..n], bl);
      var adj := Adjacency(ids, edges, bl);
      forall x, y | x in adj && y in adj[x]
        ensures (exists k :: 0 <= k < |edges| && (edges[k] == (x, y) || edges[k] == (y, x)))
                && !EdgeBlocked(bl, x, y)
      {
        var prev := Adjacency(ids, edges[..n], bl);
        if x in prev && y in prev[x] {
          var k :| 0 <= k < n && (edges[..n][k] == (x, y) || edges[..n][k] == (y, x));
          assert edges[k] == edges[..n][k];
        } else {
          assert edges[n] == (x, y) || edges[n] == (y, x);
        }
      }
    }
  }

  /** Every unblocked edge between two nodes appears in both neighbour lists. */
  lemma {:induction false} AdjacencyComplete(ids: seq<string>, edges: seq<(string, string)>, bl: seq<string>, k: nat)
    requires k < |edges| && edges[k].0 in ids && edges[k].1 in ids
    requires !EdgeBlocked(bl, edges[k].0, edges[k].1)
    ensures var adj := Adjacency(ids, edges, bl);
            edges[k].1 in adj[edges[k].0] && edges[k].0 in adj[edges[k].1]
    decreases |edges|
  {
    var n := |edges| - 1;
    if k < n {
      AdjacencyComplete(ids, edges[..n], bl, k);
    }
  }

  /** The neighbour lists of one search, built edge by edge. */
  method BuildAdjacency(fl: Floor, bl: seq<string>) returns (adj: map<string, seq<string>>)
    ensures adj == Adjacency(fl.ids, fl.edges, bl)
  {
    adj := map x | x in fl.ids :: [];
    for i := 0 to |fl.edges|
      invariant adj == Adjacency(fl.ids, fl.edges[..i], bl)
    {
      assert fl.edges[..i + 1][..i] == fl.edges[..i];
      var (a, b) := fl.edges[i];
      if !((a + "-" + b) in bl) && !((b + "-" + a) in bl) {
        if a in adj {
          adj := adj[a := adj[a] + [b]];
        }
        if b in adj {
          adj := adj[b := adj[b] + [a]];
        }
      }
    }
    assert fl.edges[..|fl.edges|] == fl.edges;
  }

  // ---------------------------------------------------------------------------------------
  // The search as a function of its state

  /**
   * The search state: the open set in insertion order, and the finite entries of g, f and
   * from (a node missing from g or f stands at infinity).
   */
  datatype Search = Search(open: seq<string>, g: map<string, real>, f: map<string, real>,
                           from: map<string, string>)

  /** Every open node has finite g and f. */
  ghost predicate Ready(st: Search) {
    forall x :: x in st.open ==> x in st.g && x in st.f
  }

  /** The index of the first open node of least f (a strict < scan from the front). */
  function Pick(open: seq<string>, f: map<string, real>): (k: nat)
    requires open != [] && forall x :: x in open ==> x in f
    ensures k < |open|
    ensures forall j :: 0 <= j < |open| ==> f[open[k]] <= f[open[j]]
    ensures forall j :: 0 <= j < k ==> f[open[k]] < f[open[j]]
    decreases |open|
  {
    var n := |open| - 1;
    if n == 0 then 0
    else
      var k := Pick(open[..n], f);
      if f[open[n]] < f[open[k]] then n else k
  }

  /** Relaxes the edge from the current node c to nb. */
  function RelaxOne(fl: Floor, e: string, c: string, nb: string, st: Search): (r: Search)
    requires c in st.g
    ensures st.g.Keys <= r.g.Keys
  {
    var t := st.g[c] + Dist(fl, c, nb);
    if nb !in st.g || t < st.g[nb] then
      Search(if nb in st.open then st.open else st.open + [nb],
             st.g[nb := t], st.f[nb := t + Dist(fl, nb, e)], st.from[nb := c])
    else st
  }

  /** Relaxes the edges to each neighbour of c, in list order. */
  function Relax(fl: Floor, e: string, c: string, nbrs: seq<string>, st: Search): (r: Search)
    requires c in st.g
    ensures st.g.Keys <= r.g.Keys
    decreases |nbrs|
  {
    if nbrs == [] then st
    else
      var n := |nbrs| - 1;
      RelaxOne(fl, e, c, nbrs[n], Relax(fl, e, c, nbrs[..n], st))
  }

  lemma {:induction false} RelaxReady(fl: Floor, e: string, c: string, nbrs: seq<string>, st: Search)
    requires c in st.g && Ready(st)
    ensures Ready(Relax(fl, e, c, nbrs, st))
    decreases |nbrs|
  {
    if nbrs != [] {
      RelaxReady(fl, e, c, nbrs[..|nbrs| - 1], st);
    }
  }

  /**
   * The path back from x along `from`, x last. The chain is followed at most `bound` times;
   * a longer chain gives None.
   */
  function Rebuild(from: map<string, string>, x: string, bound: nat): (r: Option<seq<string>>)
    ensures r.Some? ==> r.value != [] && r.value[|r.value| - 1] == x && r.value[0] !in from
    decreases bound
  {
    if x !in from then Some([x])
    else if bound == 0 then None
    else
      match Rebuild(from, from[x], Fewer(bound))
      case None => None
      case Some(q) => Some(q + [x])
  }

  /**
   * The main loop, run for at most `fuel` rounds: pick the first open node of least f; at the
   * goal rebuild the path, otherwise close it and relax its edges.
   */
  function Run(fl: Floor, e: string, adj: map<string, seq<string>>, st: Search, fuel: nat): Option<seq<string>>
    requires Ready(st)
    decreases fuel
  {
    if st.open == [] || fuel == 0 then None
    else
      var k := Pick(st.open, st.f);
      var c := st.open[k];
      if c == e then Rebuild(st.from, c, |st.from|)
      else Run(fl, e, adj, Step(fl, e, adj, st), Fewer(fuel))
  }

  /** One round of the loop away from the goal: close the picked node and relax its edges. */
  function Step(fl: Floor, e: string, adj: map<string, seq<string>>, st: Search): (r: Search)
    requires Ready(st) && st.open != []
    ensures Ready(r)
  {
    var k := Pick(st.open, st.f);
    var c := st.open[k];
    var rest := st.(open := st.open[..k] + st.open[k + 1..]);
    var nbrs := if c in adj then adj[c] else [];
    RelaxReady(fl, e, c, nbrs, rest);
    Relax(fl, e, c, nbrs, rest)
  }

  /** Run away from the goal is one Step and the rest of the run. */
  lemma RunStep(fl: Floor, e: string, adj: map<string, seq<string>>, st: Search, fuel: nat)
    requires Ready(st) && st.open != [] && fuel > 0 && st.open[Pick(st.open, st.f)] != e
    ensures Run(fl, e, adj, st, fuel) == Run(fl, e, adj, Step(fl, e, adj, st), Fewer(fuel))
  {
  }

  /** The rounds left after one more. */
  function Fewer(fuel: nat): (r: nat)
    requires fuel > 0
    ensures r < fuel
  {
    fuel - 1
  }

  /** The first state: only s is open, with g = 0 and f = dist(s, e). */
  function Start(fl: Floor, s: string, e: string): (st: Search)
    ensures Ready(st) && st.open == [s]
  {
    Search([s], map[s := 0.0], map[s := Dist(fl, s, e)], map[])
  }

  /** astar(s, e, bl) with at most `fuel` rounds: None for an unknown start or goal. */
  function FindPath(fl: Floor, s: string, e: string, bl: seq<string>, fuel: nat): (r: Option<seq<string>>)
    ensures s !in fl.ids || e !in fl.ids ==> r.None?
    ensures s in fl.ids && s == e && fuel > 0 ==> r == Some([s])
  {
    if s !in fl.ids || e !in fl.ids then None
    else Run(fl, e, Adjacency(fl.ids, fl.edges, bl), Start(fl, s, e), fuel)
  }

  // ---------------------------------------------------------------------------------------
  // Soundness of a found path

  /** The neighbour lists only hold unblocked edges. */
  /** A result that is a path is non-empty, runs from s to e, and uses unblocked edges only. */
  ghost predicate Found(fl: Floor, bl: seq<string>, s: string, e: string, r: Option<seq<string>>) {
    r.Some? ==> r.value != [] && r.value[0] == s && r.value[|r.value| - 1] == e && Walk(fl, bl, r.value)
  }

  ghost predicate AdjOk(fl: Floor, bl: seq<string>, adj: map<string, seq<string>>) {
    forall x, y :: x in adj && y in adj[x] ==> Link(fl, bl, x, y)
  }

  /**
   * Every open node is s or has a back link, and every back link is an unblocked edge to s or
   * to a node that itself has a back link.
   */
  ghost predicate Linked(fl: Floor, bl: seq<string>, s: string, st: Search) {
    (forall x :: x in st.open ==> x == s || x in st.from)
    && (forall x :: x in st.from ==> (st.from[x] == s || st.from[x] in st.from) && Link(fl, bl, st.from[x], x))
  }

  lemma {:induction false} RelaxLinked(fl: Floor, bl: seq<string>, s: string, e: string, c: string,
                                       nbrs: seq<string>, st: Search)
    requires c in st.g && (c == s || c in st.from) && Linked(fl, bl, s, st)
    requires forall y :: y in nbrs ==> Link(fl, bl, c, y)
    ensures var r := Relax(fl, e, c, nbrs, st); Linked(fl, bl, s, r) && st.from.Keys <= r.from.Keys
    decreases |nbrs|
  {
    if nbrs != [] {
      var n := |nbrs| - 1;
      assert forall y :: y in nbrs[..n] ==> y in nbrs;
      RelaxLinked(fl, bl, s, e, c, nbrs[..n], st);
      assert Link(fl, bl, c, nbrs[n]);
    }
  }

  lemma {:induction false} RebuildSound(fl: Floor, bl: seq<string>, s: string, st: Search, x: string, bound: nat)
    requires Linked(fl, bl, s, st) && (x == s || x in st.from)
    ensures var r := Rebuild(st.from, x, bound);
            r.Some? ==> r.value[0] == s && Walk(fl, bl, r.value)
    decreases bound
  {
    if x in st.from && bound > 0 {
      var r := Rebuild(st.from, st.from[x], Fewer(bound));
      RebuildSound(fl, bl, s, st, st.from[x], Fewer(bound));
      if r.Some? {
        WalkSnoc(fl, bl, r.value, x);
      }
    }
  }

  /** A walk stays a walk when extended by a link from its last node. */
  lemma WalkSnoc(fl: Floor, bl: seq<string>, q: seq<string>, x: string)
    requires q != [] && Walk(fl, bl, q) && Link(fl, bl, q[|q| - 1], x)
    ensures Walk(fl, bl, q + [x])
  {
    var p := q + [x];
    forall i | 0 <= i < |p| - 1
      ensures Link(fl, bl, p[i], p[i + 1])
    {
      if i < |q| - 1 {
        assert p[i] == q[i] && p[i + 1] == q[i + 1];
      }
    }
  }

  /** A round away from the goal keeps the back links sound. */
  lemma StepLinked(fl: Floor, bl: seq<string>, s: string, e: string,
                   adj: map<string, seq<string>>, st: Search)
    requires Ready(st) && st.open != [] && AdjOk(fl, bl, adj) && Linked(fl, bl, s, st)
    ensures Linked(fl, bl, s, Step(fl, e, adj, st))
  {
    var k := Pick(st.open, st.f);
    var c := st.open[k];
    var rest := st.(open := st.open[..k] + st.open[k + 1..]);
    var nbrs := if c in adj then adj[c] else [];
    assert forall x :: x in rest.open ==> x in st.open;
    RelaxLinked(fl, bl, s, e, c, nbrs, rest);
  }

  /** The loop only returns a path from s to e over unblocked edges. */
  lemma {:induction false} RunSound(fl: Floor, bl: seq<string>, s: string, e: string,
                                    adj: map<string, seq<string>>, st: Search, fuel: nat)
    requires Ready(st) && AdjOk(fl, bl, adj) && Linked(fl, bl, s, st)
    ensures Found(fl, bl, s, e, Run(fl, e, adj, st, fuel))
    decreases fuel
  {
    if st.open != [] && fuel > 0 {
      var c := st.open[Pick(st.open, st.f)];
      if c == e {
        RebuildSound(fl, bl, s, st, c, |st.from|);
      } else {
        StepLinked(fl, bl, s, e, adj, st);
        RunSound(fl, bl, s, e, adj, Step(fl, e, adj, st), Fewer(fuel));
      }
    }
  }

  /**
   * A found path starts at s, ends at e, and each consecutive pair is an edge of the list that
   * is not blocked in either direction.
   */
  lemma FindPathSound(fl: Floor, s: string, e: string, bl: seq<string>, fuel: nat)
    ensures Found(fl, bl, s, e, FindPath(fl, s, e, bl, fuel))
  {
    if s in fl.ids && e in fl.ids {
      var adj := Adjacency(fl.ids, fl.edges, bl);
      AdjacencyLinks(fl.ids, fl.edges, bl);
      RunSound(fl, bl, s, e, adj, Start(fl, s, e), fuel);
    }
  }

  // ---------------------------------------------------------------------------------------
  // The search as a method

  method PickLeast(open: seq<string>, f: map<string, real>) returns (k: nat)
    requires open != [] && forall x :: x in open ==> x in f
    ensures k == Pick(open, f)
  {
    k := 0;
    for i := 1 to |open|
      invariant k == Pick(open[..i], f)
    {
      assert open[..i + 1][..i] == open[..i];
      if f[open[i]] < f[open[k]] {
        k := i;
      }
    }
    assert open[..|open|] == open;
  }

  method RelaxAll(fl: Floor, e: string, c: string, nbrs: seq<string>, st: Search) returns (r: Search)
    requires c in st.g
    ensures r == Relax(fl, e, c, nbrs, st)
  {
    var open, g, f, from := st.open, st.g, st.f, st.from;
    for i := 0 to |nbrs|
      invariant c in g
      invariant Search(open, g, f, from) == Relax(fl, e, c, nbrs[..i], st)
    {
      assert nbrs[..i + 1][..i] == nbrs[..i];
      var nb := nbrs[i];
      var t := g[c] + Dist(fl, c, nb);
      if nb !in g || t < g[nb] {
        from := from[nb := c];
        g := g[nb := t];
        f := f[nb := t + Dist(fl, nb, e)];
        if nb !in open {
          open := open + [nb];
        }
      }
    }
    assert nbrs[..|nbrs|] == nbrs;
    r := Search(open, g, f, from);
  }

  function Extend(r: Option<seq<string>>, tail: seq<string>): Option<seq<string>> {
    match r
    case None => None
    case Some(q) => Some(q + tail)
  }

  method RebuildPath(from: map<string, string>, c: string) returns (p: Option<seq<string>>)
    ensures p == Rebuild(from, c, |from|)
  {
    var x, tail := c, [];
    var steps: nat := |from|;
    assert Extend(Rebuild(from, c, steps), tail) == Rebuild(from, c, steps) by {
      match Rebuild(from, c, steps)
      case None =>
      case Some(q) => assert q + [] == q;
    }
    while x in from && steps > 0
      invariant Rebuild(from, c, |from|) == Extend(Rebuild(from, x, steps), tail)
      decreases steps
    {
      assert Extend(Rebuild(from, x, steps), tail) == Extend(Rebuild(from, from[x], Fewer(steps)), [x] + tail) by {
        match Rebuild(from, from[x], Fewer(steps))
        case None =>
        case Some(q) => assert q + [x] + tail == q + ([x] + tail);
      }
      tail := [x] + tail;
      x := from[x];
      steps := Fewer(steps);
    }
    if x in from {
      p := None;
    } else {
      p := Some([x] + tail);
    }
  }

  /**
   * One round of the main loop: pick the first open node of least f; at the goal, done with
   * the rebuilt path; otherwise the next state.
   */
  method Round(fl: Floor, e: string, adj: map<string, seq<string>>, st: Search,
               fuel: nat, ghost goal: Option<seq<string>>)
    returns (done: bool, p: Option<seq<string>>, next: Search, left: nat)
    requires st.open != [] && fuel > 0 && Leads(fl, e, adj, st, fuel, goal)
    ensures done ==> p == goal
    ensures !done ==> left == Fewer(fuel) && Leads(fl, e, adj, next, left, goal)
  {
    var k := PickLeast(st.open, st.f);
    var c := st.open[k];
    if c == e {
      p := RebuildPath(st.from, c);
      return true, p, st, 0;
    }
    var rest := st.(open := st.open[..k] + st.open[k + 1..]);
    var nbrs := if c in adj then adj[c] else [];
    next := RelaxAll(fl, e, c, nbrs, rest);
    assert next == Step(fl, e, adj, st);
    left := Fewer(fuel);
    RunStep(fl, e, adj, st, fuel);
    return false, None, next, left;
  }

  /** The state is ready and the rest of the run from it gives `goal`. */
  ghost predicate Leads(fl: Floor, e: string, adj: map<string, seq<string>>, st: Search, n: nat,
                        goal: Option<seq<string>>) {
    Ready(st) && Run(fl, e, adj, st, n) == goal
  }

  /** astar, its main loop bounded by `fuel` rounds. */
  method AStar(fl: Floor, s: string, e: string, bl: seq<string>, fuel: nat) returns (p: Option<seq<string>>)
    ensures p == FindPath(fl, s, e, bl, fuel)
  {
    if s !in fl.ids || e !in fl.ids {
      return None;
    }
    var adj := BuildAdjacency(fl, bl);
    p := MainLoop(fl, e, adj, Start(fl, s, e), fuel);
  }

  /** The main loop of astar from the given state, for at most `fuel` rounds. */
  method MainLoop(fl: Floor, e: string, adj: map<string, seq<string>>, st0: Search, fuel: nat)
    returns (p: Option<seq<string>>)
    requires Ready(st0)
    ensures p == Run(fl, e, adj, st0, fuel)
  {
    var st := st0;
    var n: nat := fuel;
    ghost var goal := Run(fl, e, adj, st0, fuel);
    while st.open != [] && n > 0
      invariant Leads(fl, e, adj, st, n, goal)
      decreases n
    {
      var done, found, next, left := Round(fl, e, adj, st, n, goal);
      if done {
        return found;
      }
      st, n := next, left;
    }
    p := None;
  }

  // ---------------------------------------------------------------------------------------
  // Blocks, congestion and the choice of exit

  /** A blocked edge, who reported it and when. */
  datatype Block = Block(edge: string, reporter: string, time: real)

  /** A user's record: where the route was computed from, and the route. */
  datatype Occupant = Occupant(nodeId: string, path: seq<string>)

  predicate HasEdge(blocks: seq<Block>, e: string) {
    exists i :: 0 <= i < |blocks| && blocks[i].edge == e
  }

  ghost predicate EdgesDistinct(blocks: seq<Block>) {
    forall i, j :: 0 <= i < j < |blocks| ==> blocks[i].edge != blocks[j].edge
  }

  /** The edges of the blocks, in order (blocked()). */
  function EdgesOf(blocks: seq<Block>): (r: seq<string>)
    ensures |r| == |blocks| && forall i :: 0 <= i < |r| ==> r[i] == blocks[i].edge
  {
    seq(|blocks|, i requires 0 <= i < |blocks| => blocks[i].edge)
  }

  /** addBlock on a list of blocks: an edge already listed is not added again. */
  function WithBlock(blocks: seq<Block>, e: string, reporter: string, now: real): (r: seq<Block>)
    ensures |r| == |blocks| + (if HasEdge(blocks, e) then 0 else 1) && r[..|blocks|] == blocks
    ensures !HasEdge(blocks, e) ==> r[|blocks|] == Block(e, reporter, now)
  {
    if HasEdge(blocks, e) then blocks else blocks + [Block(e, reporter, now)]
  }

  /** After addBlock the edge is listed, and no edge is listed twice if none was before. */
  lemma WithBlockDistinct(blocks: seq<Block>, e: string, reporter: string, now: real)
    requires EdgesDistinct(blocks)
    ensures var r := WithBlock(blocks, e, reporter, now); EdgesDistinct(r) && HasEdge(r, e)
  {
    var r := WithBlock(blocks, e, reporter, now);
    if !HasEdge(blocks, e) {
      assert r[|blocks|].edge == e;
      forall i, j | 0 <= i < j < |r|
        ensures r[i].edge != r[j].edge
      {
        if j == |blocks| {
          assert r[i] == blocks[i];
        } else {
          assert r[i] == blocks[i] && r[j] == blocks[j];
        }
      }
    }
  }

  /** rmBlock on a list of blocks: the blocks whose edge differs from e, in order. */
  function Drop(blocks: seq<Block>, e: string): (r: seq<Block>)
    ensures |r| <= |blocks|
    decreases |blocks|
  {
    if blocks == [] then []
    else
      var n := |blocks| - 1;
      var init := Drop(blocks[..n], e);
      if blocks[n].edge == e then init else init + [blocks[n]]
  }

  /** rmBlock keeps exactly the entries for other edges, so e is no longer listed. */
  lemma {:induction false} DropMembers(blocks: seq<Block>, e: string)
    ensures forall b :: b in Drop(blocks, e) <==> b in blocks && b.edge != e
    ensures !HasEdge(Drop(blocks, e), e)
    decreases |blocks|
  {
    if blocks != [] {
      var n := |blocks| - 1;
      DropMembers(blocks[..n], e);
      assert blocks == blocks[..n] + [blocks[n]];
      var r := Drop(blocks, e);
      forall i | 0 <= i < |r| ensures r[i].edge != e {
        assert r[i] in r;
      }
    }
  }

  /** rmBlock of an edge that is not listed changes nothing. */
  lemma {:induction false} DropAbsent(blocks: seq<Block>, e: string)
    requires !HasEdge(blocks, e)
    ensures Drop(blocks, e) == blocks
    decreases |blocks|
  {
    if blocks != [] {
      var n := |blocks| - 1;
      assert !HasEdge(blocks[..n], e) by {
        forall i | 0 <= i < n ensures blocks[..n][i].edge != e {
          assert blocks[..n][i] == blocks[i];
        }
      }
      DropAbsent(blocks[..n], e);
      assert blocks[n].edge != e;
      assert blocks == blocks[..n] + [blocks[n]];
    }
  }

  /** rmBlock keeps the list free of repeated edges. */
  lemma {:induction false} DropDistinct(blocks: seq<Block>, e: string)
    requires EdgesDistinct(blocks)
    ensures EdgesDistinct(Drop(blocks, e))
    decreases |blocks|
  {
    if blocks != [] {
      var n := |blocks| - 1;
      var init := blocks[..n];
      assert EdgesDistinct(init) by {
        forall i, j | 0 <= i < j < n ensures init[i].edge != init[j].edge {
          assert init[i] == blocks[i] && init[j] == blocks[j];
        }
      }
      DropDistinct(init, e);
      if blocks[n].edge != e {
        var ri := Drop(init, e);
        DropMembers(init, e);
        forall i | 0 <= i < |ri|
          ensures ri[i].edge != blocks[n].edge
        {
          assert ri[i] in init;
          var k :| 0 <= k < n && init[k] == ri[i];
          assert blocks[k] == ri[i];
        }
      }
    }
  }

  /** Occurrences of x across the paths of the listed users. */
  function Occupancy(users: map<string, Occupant>, ids: seq<string>, x: string): nat
    decreases |ids|
  {
    if ids == [] then 0
    else
      var n := |ids| - 1;
      Occupancy(users, ids[..n], x) + (if ids[n] in users then multiset(users[ids[n]].path)[x] else 0)
  }

  /** A count map's entry, 0 when missing (c[id] || 0). */
  function Get(c: map<string, nat>, x: string): nat {
    if x in c then c[x] else 0
  }

  /** Adds one to the count of each node of the path. */
  method Tally(c0: map<string, nat>, path: seq<string>) returns (c: map<string, nat>)
    ensures c0.Keys <= c.Keys
    ensures forall x :: Get(c, x) == Get(c0, x) + multiset(path)[x]
  {
    c := c0;
    for j := 0 to |path|
      invariant c0.Keys <= c.Keys
      invariant forall x :: Get(c, x) == Get(c0, x) + multiset(path[..j])[x]
    {
      assert path[..j + 1] == path[..j] + [path[j]];
      var id := path[j];
      c := c[id := Get(c, id) + 1];
    }
    assert path[..|path|] == path;
  }

  /** A node has no occupancy exactly when it lies on no listed user's path. */
  lemma {:induction false} OccupancyZero(users: map<string, Occupant>, ids: seq<string>, x: string)
    ensures Occupancy(users, ids, x) == 0 <==> forall u :: u in ids && u in users ==> x !in users[u].path
    decreases |ids|
  {
    if ids != [] {
      var n := |ids| - 1;
      OccupancyZero(users, ids[..n], x);
      assert forall u :: u in ids <==> u in ids[..n] || u == ids[n] by {
        assert ids == ids[..n] + [ids[n]];
      }
    }
  }

  /** Summed distance of consecutive nodes. */
  function PathLength(fl: Floor, p: seq<string>): real
    decreases |p|
  {
    if |p| <= 1 then 0.0
    else
      var n := |p| - 1;
      PathLength(fl, p[..n]) + Dist(fl, p[n - 1], p[n])
  }

  /** Summed occupancy of every node after the first. */
  function Crowding(users: map<string, Occupant>, ids: seq<string>, p: seq<string>): nat
    decreases |p|
  {
    if |p| <= 1 then 0
    else
      var n := |p| - 1;
      Crowding(users, ids, p[..n]) + Occupancy(users, ids, p[n])
  }

  /** The cost route() gives a path: its length plus 40 per user on each node after the first. */
  function RouteCost(fl: Floor, users: map<string, Occupant>, ids: seq<string>, p: seq<string>): real {
    PathLength(fl, p) + (40 * Crowding(users, ids, p)) as real
  }

  /** The path found to each exit, in exit order. */
  function Candidates(fl: Floor, start: string, bl: seq<string>, fuel: nat): (r: seq<Option<seq<string>>>)
    ensures |r| == |EX_IDS|
    ensures forall k :: 0 <= k < |EX_IDS| ==> r[k] == FindPath(fl, start, EX_IDS[k], bl, fuel)
  {
    seq(|EX_IDS|, k requires 0 <= k < |EX_IDS| => FindPath(fl, start, EX_IDS[k], bl, fuel))
  }

  /** The first found path of strictly least cost, scanning in order. */
  function Cheapest(cands: seq<Option<seq<string>>>, cost: seq<string> -> real): Option<seq<string>>
    decreases |cands|
  {
    if cands == [] then None
    else
      var n := |cands| - 1;
      var best := Cheapest(cands[..n], cost);
      match cands[n]
      case None => best
      case Some(p) => if best.None? || cost(p) < cost(best.value) then Some(p) else best
  }

  /**
   * Cheapest is None exactly when nothing was found; otherwise it is a found path whose cost is
   * no more than any other's, and strictly less than that of every earlier one.
   */
  lemma {:induction false} CheapestLeast(cands: seq<Option<seq<string>>>, cost: seq<string> -> real)
    ensures Cheapest(cands, cost).None? <==> forall k :: 0 <= k < |cands| ==> cands[k].None?
    ensures Cheapest(cands, cost).Some? ==>
              var p := Cheapest(cands, cost).value;
              exists k :: 0 <= k < |cands| && cands[k] == Some(p)
                          && (forall j :: 0 <= j < |cands| && cands[j].Some? ==> cost(p) <= cost(cands[j].value))
                          && (forall j :: 0 <= j < k && cands[j].Some? ==> cost(p) < cost(cands[j].value))
    decreases |cands|
  {
    if cands != [] {
      var n := |cands| - 1;
      var init := cands[..n];
      CheapestLeast(init, cost);
      assert forall j :: 0 <= j < n ==> cands[j] == init[j];
      var best := Cheapest(init, cost);
      if best.Some? {
        var k :| 0 <= k < n && init[k] == Some(best.value)
                 && (forall j :: 0 <= j < n && init[j].Some? ==> cost(best.value) <= cost(init[j].value))
                 && (forall j :: 0 <= j < k && init[j].Some? ==> cost(best.value) < cost(init[j].value));
        if cands[n].Some? && cost(cands[n].value) < cost(best.value) {
          assert cands[n] == Some(Cheapest(cands, cost).value);
        } else {
          assert cands[k] == Some(Cheapest(cands, cost).value);
        }
      } else if cands[n].Some? {
        assert cands[n] == Some(Cheapest(cands, cost).value);
      }
    }
  }

  /** The cost route() ranks paths by. */
  function CostOf(fl: Floor, users: map<string, Occupant>, ids: seq<string>): seq<string> -> real {
    p => RouteCost(fl, users, ids, p)
  }

  /** What route(start, uid) returns, given the state before the call. */
  function RouteChoice(fl: Floor, fuel: nat, users: map<string, Occupant>, ids: seq<string>,
                       blocks: seq<Block>, start: string): Option<seq<string>>
  {
    Cheapest(Candidates(fl, start, EdgesOf(blocks), fuel), CostOf(fl, users, ids))
  }

  /** What localRoute(start) returns: congestion plays no part. */
  function LocalChoice(fl: Floor, fuel: nat, blocks: seq<Block>, start: string): Option<seq<string>> {
    Cheapest(Candidates(fl, start, EdgesOf(blocks), fuel), LengthOf(fl))
  }

  /** The cost localRoute() gives a path: its length alone. */
  function LengthOf(fl: Floor): seq<string> -> real {
    p => PathLength(fl, p)
  }

  /** p leads from start to one of the exits over unblocked edges. */
  ghost predicate Evacuates(fl: Floor, bl: seq<string>, start: string, p: seq<string>) {
    p != [] && p[0] == start && p[|p| - 1] in EX_IDS && Walk(fl, bl, p)
  }

  /** Whatever the cost, the chosen path is a found path to some exit, hence an evacuation route. */
  lemma ChoiceSound(fl: Floor, start: string, bl: seq<string>, fuel: nat, cost: seq<string> -> real)
    ensures var r := Cheapest(Candidates(fl, start, bl, fuel), cost);
            r.Some? ==> Evacuates(fl, bl, start, r.value)
  {
    var cands := Candidates(fl, start, bl, fuel);
    CheapestLeast(cands, cost);
    var r := Cheapest(cands, cost);
    if r.Some? {
      var k :| 0 <= k < |cands| && cands[k] == Some(r.value);
      FindPathSound(fl, start, EX_IDS[k], bl, fuel);
    }
  }

  /**
   * One turn of rerouteAll() for user id: route() from its stored start, under the current
   * users' congestion; when a path is found the user holds it and the id is reported.
   */
  function RerouteTurn(fl: Floor, fuel: nat, users: map<string, Occupant>, ids: seq<string>,
                       blocks: seq<Block>, id: string): (map<string, Occupant>, bool)
    requires id in users
  {
    var c := RouteChoice(fl, fuel, users, ids, blocks, users[id].nodeId);
    if c.Some? then (users[id := Occupant(users[id].nodeId, c.value)], true) else (users, false)
  }

  /**
   * rerouteAll() over the ids in `done`, in order, each turn seeing the paths the earlier
   * turns stored: the final users and the ids whose turn found a path.
   */
  function RerouteFold(fl: Floor, fuel: nat, users: map<string, Occupant>, ids: seq<string>,
                       blocks: seq<Block>, done: seq<string>): (r: (map<string, Occupant>, seq<string>))
    requires forall x :: x in done ==> x in users
    ensures r.0.Keys == users.Keys
    ensures forall x :: x in r.1 ==> x in done
    decreases |done|
  {
    if done == [] then (users, [])
    else
      var n := |done| - 1;
      assert forall x :: x in done[..n] ==> x in done;
      var prev := RerouteFold(fl, fuel, users, ids, blocks, done[..n]);
      var turn := RerouteTurn(fl, fuel, prev.0, ids, blocks, done[n]);
      (turn.0, prev.1 + (if turn.1 then [done[n]] else []))
  }

  /**
   * After rerouteAll() every user keeps its start; a reported user holds a path that
   * evacuates from it, and a user never reported keeps its old record.
   */
  lemma {:induction false} RerouteFoldSound(fl: Floor, fuel: nat, users: map<string, Occupant>,
                                            ids: seq<string>, blocks: seq<Block>, done: seq<string>)
    requires forall x :: x in done ==> x in users
    ensures var (after, r) := RerouteFold(fl, fuel, users, ids, blocks, done);
            forall u :: u in after ==>
              after[u].nodeId == users[u].nodeId
              && (u in r ==> Evacuates(fl, EdgesOf(blocks), after[u].nodeId, after[u].path))
              && (u !in r ==> after[u] == users[u])
    decreases |done|
  {
    if done != [] {
      var n := |done| - 1;
      assert forall x :: x in done[..n] ==> x in done;
      RerouteFoldSound(fl, fuel, users, ids, blocks, done[..n]);
      var prev := RerouteFold(fl, fuel, users, ids, blocks, done[..n]);
      var id := done[n];
      ChoiceSound(fl, prev.0[id].nodeId, EdgesOf(blocks), fuel, CostOf(fl, prev.0, ids));
    }
  }

  /** Over distinct ids, rerouteAll() reports each id at most once. */
  lemma {:induction false} RerouteFoldDistinct(fl: Floor, fuel: nat, users: map<string, Occupant>,
                                               ids: seq<string>, blocks: seq<Block>, done: seq<string>)
    requires forall x :: x in done ==> x in users
    requires Seqs.Distinct(done)
    ensures Seqs.Distinct(RerouteFold(fl, fuel, users, ids, blocks, done).1)
    decreases |done|
  {
    if done != [] {
      var n := |done| - 1;
      assert forall x :: x in done[..n] ==> x in done;
      assert Seqs.Distinct(done[..n]) by {
        forall i, j | 0 <= i < j < n ensures done[..n][i] != done[..n][j] {
          assert done[..n][i] == done[i] && done[..n][j] == done[j];
        }
      }
      RerouteFoldDistinct(fl, fuel, users, ids, blocks, done[..n]);
      var prev := RerouteFold(fl, fuel, users, ids, blocks, done[..n]);
      forall j | 0 <= j < n
        ensures done[..n][j] != done[n]
      {
        assert done[..n][j] == done[j];
      }
      assert done[n] !in prev.1;
    }
  }

  /**
   * The shared brain: users in the order they were first routed, and the blocked edges. Every
   * search it runs is bounded by `fuel` rounds.
   */
  class Brain {
    const floor: Floor
    const fuel: nat
    var users: map<string, Occupant>
    /** The keys of `users` in insertion order (the order a Map iterates them in). */
    var order: seq<string>
    var blocks: seq<Block>

    ghost predicate Valid()
      reads this
    {
      Seqs.Distinct(order) && users.Keys == (set u | u in order) && EdgesDistinct(blocks)
    }

    constructor (floor: Floor, fuel: nat)
      ensures Valid()
      ensures this.floor == floor && this.fuel == fuel
      ensures users == map[] && order == [] && blocks == []
    {
      this.floor := floor;
      this.fuel := fuel;
      users := map[];
      order := [];
      blocks := [];
    }

    /** addBlock(e, by), `by` being the reporter: returns a copy of the list. */
    method AddBlock(e: string, reporter: string, now: real) returns (copy: seq<Block>)
      requires Valid()
      modifies this
      ensures Valid()
      ensures blocks == WithBlock(old(blocks), e, reporter, now) && copy == blocks
      ensures users == old(users) && order == old(order)
    {
      WithBlockDistinct(blocks, e, reporter, now);
      if !HasEdge(blocks, e) {
        blocks := blocks + [Block(e, reporter, now)];
      }
      copy := blocks;
    }

    /** rmBlock(e): returns a copy of the list. */
    method RmBlock(e: string) returns (copy: seq<Block>)
      requires Valid()
      modifies this
      ensures Valid()
      ensures blocks == Drop(old(blocks), e) && copy == blocks
      ensures users == old(users) && order == old(order)
    {
      DropDistinct(blocks, e);
      blocks := Drop(blocks, e);
      copy := blocks;
    }

    method ClearBlocks() returns (copy: seq<Block>)
      requires Valid()
      modifies this
      ensures Valid()
      ensures blocks == [] && copy == []
      ensures users == old(users) && order == old(order)
    {
      blocks := [];
      copy := [];
    }

    /** blocked(): the blocked edges, in order. */
    function BlockedEdges(): (r: seq<string>)
      reads this
      ensures |r| == |blocks| && forall i :: 0 <= i < |r| ==> r[i] == blocks[i].edge
    {
      EdgesOf(blocks)
    }

    /** count(): one per routed user. */
    function Count(): (r: nat)
      reads this
      requires Valid()
      ensures r == |order|
    {
      Seqs.DistinctCard(order);
      |users|
    }

    /**
     * cong(): every node starts at 0 and each occurrence on a user's path adds one; a node
     * missing from the map counts as 0.
     */
    method Cong() returns (c: map<string, nat>)
      requires Valid()
      ensures forall x :: x in floor.ids ==> x in c
      ensures forall x :: Get(c, x) == Occupancy(users, order, x)
    {
      c := map x | x in floor.ids :: 0;
      for i := 0 to |order|
        invariant forall x :: x in floor.ids ==> x in c
        invariant forall x :: Get(c, x) == Occupancy(users, order[..i], x)
      {
        assert order[..i + 1][..i] == order[..i];
        c := Tally(c, users[order[i]].path);
      }
      assert order[..|order|] == order;
    }

    /** The two sums route() forms for a path: its length, and 40 per user on each later node. */
    method Measure(p: seq<string>, co: map<string, nat>) returns (d: real, cp: real)
      requires forall x :: Get(co, x) == Occupancy(users, order, x)
      ensures d == PathLength(floor, p)
      ensures cp == (40 * Crowding(users, order, p)) as real
    {
      d, cp := 0.0, 0.0;
      if |p| <= 1 {
        return;
      }
      for i := 1 to |p|
        invariant d == PathLength(floor, p[..i])
        invariant cp == (40 * Crowding(users, order, p[..i])) as real
      {
        assert p[..i + 1][..i] == p[..i] && p[..i + 1][i - 1] == p[i - 1];
        d := d + Dist(floor, p[i - 1], p[i]);
        cp := cp + (Get(co, p[i]) * 40) as real;
      }
      assert p[..|p|] == p;
    }

    /** The summed length of a path, as localRoute() forms it. */
    method Length(p: seq<string>) returns (d: real)
      ensures d == PathLength(floor, p)
    {
      d := 0.0;
      if |p| <= 1 {
        return;
      }
      for i := 1 to |p|
        invariant d == PathLength(floor, p[..i])
      {
        assert p[..i + 1][..i] == p[..i] && p[..i + 1][i - 1] == p[i - 1];
        d := d + Dist(floor, p[i - 1], p[i]);
      }
      assert p[..|p|] == p;
    }

    /**
     * route(start, uid): the cheapest path to an exit under the current blocks and congestion;
     * the user is stored, with that path, only when one is found.
     */
    method Route(start: string, uid: string) returns (best: Option<seq<string>>)
      requires Valid()
      modifies this
      ensures Valid()
      ensures best == RouteChoice(floor, fuel, old(users), old(order), old(blocks), start)
      ensures best.Some? ==> Evacuates(floor, EdgesOf(blocks), start, best.value)
      ensures best.Some? ==> users == old(users)[uid := Occupant(start, best.value)]
                             && order == (if uid in old(users) then old(order) else old(order) + [uid])
      ensures best.None? ==> users == old(users) && order == old(order)
      ensures blocks == old(blocks)
    {
      var bl := BlockedEdges();
      var co := Cong();
      best := Choose(start, bl, co);
      ChoiceSound(floor, start, bl, fuel, CostOf(floor, users, order));
      if best.Some? {
        if uid !in users {
          order := order + [uid];
        }
        users := users[uid := Occupant(start, best.value)];
      }
    }

    /** route()'s scan of the exits: the first found path of strictly least cost. */
    method Choose(start: string, bl: seq<string>, co: map<string, nat>) returns (best: Option<seq<string>>)
      requires forall x :: Get(co, x) == Occupancy(users, order, x)
      ensures best == Cheapest(Candidates(floor, start, bl, fuel), CostOf(floor, users, order))
    {
      ghost var cands := Candidates(floor, start, bl, fuel);
      ghost var cost := CostOf(floor, users, order);
      best := None;
      var bs := 0.0;
      for i := 0 to |EX_IDS|
        invariant best == Cheapest(cands[..i], cost)
        invariant best.Some? ==> bs == cost(best.value)
      {
        assert cands[..i + 1][..i] == cands[..i];
        var p := AStar(floor, start, EX_IDS[i], bl, fuel);
        assert cands[..i + 1][i] == p;
        if p.Some? {
          var d, cp := Measure(p.value, co);
          assert cost(p.value) == d + cp;
          if best.None? || d + cp < bs {
            bs := d + cp;
            best := p;
          }
        }
      }
      assert cands[..|EX_IDS|] == cands;
    }

    /** localRoute(start): the shortest path to an exit under the current blocks; nothing changes. */
    method LocalRoute(start: string) returns (best: Option<seq<string>>)
      ensures best == LocalChoice(floor, fuel, blocks, start)
    {
      var bl := BlockedEdges();
      ghost var cands := Candidates(floor, start, bl, fuel);
      ghost var cost := LengthOf(floor);
      best := None;
      var bd := 0.0;
      for i := 0 to |EX_IDS|
        invariant best == Cheapest(cands[..i], cost)
        invariant best.Some? ==> bd == cost(best.value)
      {
        assert cands[..i + 1][..i] == cands[..i];
        var p := AStar(floor, start, EX_IDS[i], bl, fuel);
        assert cands[..i + 1][i] == p;
        if p.Some? {
          var d := Length(p.value);
          assert cost(p.value) == d;
          if best.None? || d < bd {
            bd := d;
            best := p;
          }
        }
      }
      assert cands[..|EX_IDS|] == cands;
    }

    /** One turn of rerouteAll(): route user id again from its stored start. */
    method Reroute(id: string) returns (ok: bool)
      requires Valid() && id in users
      modifies this
      ensures Valid()
      ensures order == old(order) && blocks == old(blocks)
      ensures (users, ok) == RerouteTurn(floor, fuel, old(users), old(order), old(blocks), id)
      ensures ok <==> RouteChoice(floor, fuel, old(users), old(order), old(blocks), old(users)[id].nodeId).Some?
      ensures ok ==> Evacuates(floor, EdgesOf(blocks), users[id].nodeId, users[id].path)
    {
      var p := Route(users[id].nodeId, id);
      ok := p.Some?;
    }

    /** The i-th turn of rerouteAll(): the users before i are re-routed from u0, user i is routed again. */
    method RerouteNext(i: nat, ghost u0: map<string, Occupant>, r: seq<string>) returns (r': seq<string>)
      requires Valid() && i < |order| && users.Keys == u0.Keys
      requires (users, r) == RerouteFold(floor, fuel, u0, order, blocks, order[..i])
      modifies this
      ensures Valid() && order == old(order) && blocks == old(blocks)
      ensures (users, r') == RerouteFold(floor, fuel, u0, order, blocks, order[..i + 1])
    {
      var id := order[i];
      assert order[..i + 1][..i] == order[..i] && order[..i + 1][i] == id;
      assert forall x :: x in order[..i + 1] ==> x in u0;
      ghost var before := users;
      var success := Reroute(id);
      assert (users, success) == RerouteTurn(floor, fuel, before, order, blocks, id);
      r' := if success then r + [id] else r;
      assert r' == r + (if success then [id] else []);
      assert RerouteFold(floor, fuel, u0, order, blocks, order[..i + 1])
             == (RerouteTurn(floor, fuel, before, order, blocks, id).0, r + (if success then [id] else []));
    }

    /**
     * rerouteAll(): routes every user again from its stored start, in order, each turn seeing
     * the paths already updated; returns the ids for which a path was found.
     */
    method RerouteAll() returns (r: seq<string>)
      requires Valid()
      modifies this
      ensures Valid()
      ensures order == old(order) && blocks == old(blocks)
      ensures (users, r) == RerouteFold(floor, fuel, old(users), old(order), old(blocks), old(order))
    {
      r := [];
      for i := 0 to |order|
        invariant Valid()
        invariant order == old(order) && blocks == old(blocks)
        invariant (users, r) == RerouteFold(floor, fuel, old(users), order, blocks, order[..i])
      {
        r := RerouteNext(i, old(users), r);
      }
      assert order[..|order|] == order;
    }
  }
}
