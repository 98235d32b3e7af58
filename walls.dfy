// The wall clean-up of the floor-plan digitiser (ExtractingCoords/optimize_walls.py): near
// duplicates are dropped, then roughly collinear horizontal or vertical segments that touch
// or overlap are merged into one. Coordinates are integers.

module Walls {

  /** A segment [x1, y1, x2, y2]. */
  datatype Wall = Wall(x1: int, y1: int, x2: int, y2: int)

  function Abs(a: int): (r: int)
    ensures r >= 0 && (r == a || r == -a)
  {
    if a < 0 then -a else a
  }

  function Min(a: int, b: int): (r: int)
    ensures r <= a && r <= b && (r == a || r == b)
  {
    if a <= b then a else b
  }

  function Max(a: int, b: int): (r: int)
    ensures r >= a && r >= b && (r == a || r == b)
  {
    if a >= b then a else b
  }

  // ---------------------------------------------------------------------------------------
  // remove_duplicates

  /** The segment with its end points ordered so that x1 <= x2 and y1 <= y2. */
  function Normalize(w: Wall): (n: Wall)
    ensures n.x1 <= n.x2 && n.y1 <= n.y2
    ensures (n.x1, n.x2) == (w.x1, w.x2) || (n.x1, n.x2) == (w.x2, w.x1)
    ensures (n.y1, n.y2) == (w.y1, w.y2) || (n.y1, n.y2) == (w.y2, w.y1)
  {
    Wall(Min(w.x1, w.x2), Min(w.y1, w.y2), Max(w.x1, w.x2), Max(w.y1, w.y2))
  }

  /** The two segments agree within 2 in every coordinate. */
  predicate Near(a: Wall, b: Wall) {
    Abs(a.x1 - b.x1) <= 2 && Abs(a.y1 - b.y1) <= 2 && Abs(a.x2 - b.x2) <= 2 && Abs(a.y2 - b.y2) <= 2
  }

  /** Some segment of u is near w. */
  predicate NearSome(u: seq<Wall>, w: Wall) {
    exists k :: 0 <= k < |u| && Near(w, u[k])
  }

  /** The walls kept from ws, each normalised, scanning left to right. */
  function Dedup(ws: seq<Wall>): seq<Wall>
    decreases |ws|
  {
    if ws == [] then []
    else
      var n := |ws| - 1;
      var u := Dedup(ws[..n]);
      var w := Normalize(ws[n]);
      if NearSome(u, w) then u else u + [w]
  }

  /** The input positions whose walls are kept, in order. */
  function KeptIndices(ws: seq<Wall>): seq<nat>
    decreases |ws|
  {
    if ws == [] then []
    else
      var n := |ws| - 1;
      if NearSome(Dedup(ws[..n]), Normalize(ws[n])) then KeptIndices(ws[..n]) else KeptIndices(ws[..n]) + [n]
  }

  /** remove_duplicates: a wall is kept, normalised, unless a kept wall is near it. */
  method RemoveDuplicates(walls: seq<Wall>) returns (unique: seq<Wall>)
    ensures unique == Dedup(walls)
  {
    unique := [];
    for i := 0 to |walls|
      invariant unique == Dedup(walls[..i])
    {
      var normalized := Normalize(walls[i]);
      var isDuplicate := false;
      var j := 0;
      while j < |unique|
        invariant 0 <= j <= |unique|
        invariant isDuplicate ==> NearSome(unique, normalized)
        invariant !isDuplicate ==> forall k :: 0 <= k < j ==> !Near(normalized, unique[k])
      {
        if Near(normalized, unique[j]) {
          isDuplicate := true;
          break;
        }
        j := j + 1;
      }
      assert isDuplicate == NearSome(unique, normalized);
      assert walls[..i + 1][..i] == walls[..i];
      assert Dedup(walls[..i + 1]) == if isDuplicate then unique else unique + [normalized];
      if !isDuplicate {
        unique := unique + [normalized];
      }
    }
    assert walls[..|walls|] == walls;
  }

  /** Unfolding one step of Dedup. */
  lemma DedupLast(ws: seq<Wall>)
    requires ws != []
    ensures var n := |ws| - 1;
            var u := Dedup(ws[..n]);
            Dedup(ws) == if NearSome(u, Normalize(ws[n])) then u else u + [Normalize(ws[n])]
  {
  }

  /** remove_duplicates returns no more walls than it is given. */
  lemma {:induction false} DedupLength(ws: seq<Wall>)
    ensures |Dedup(ws)| <= |ws|
    decreases |ws|
  {
    if ws != [] {
      DedupLength(ws[..|ws| - 1]);
    }
  }

  /** Every wall remove_duplicates returns has x1 <= x2 and y1 <= y2. */
  lemma {:induction false} DedupNormalized(ws: seq<Wall>)
    ensures forall e :: e in Dedup(ws) ==> e.x1 <= e.x2 && e.y1 <= e.y2
    decreases |ws|
  {
    if ws != [] {
      DedupNormalized(ws[..|ws| - 1]);
      DedupLast(ws);
    }
  }

  /** No two walls remove_duplicates returns are near each other. */
  lemma {:induction false} DedupSeparated(ws: seq<Wall>)
    ensures forall k, l :: 0 <= k < l < |Dedup(ws)| ==> !Near(Dedup(ws)[l], Dedup(ws)[k])
    decreases |ws|
  {
    if ws != [] {
      var n := |ws| - 1;
      DedupSeparated(ws[..n]);
      DedupLast(ws);
      var u := Dedup(ws[..n]);
      var w := Normalize(ws[n]);
      if !NearSome(u, w) {
        var r := u + [w];
        forall k, l | 0 <= k < l < |r| ensures !Near(r[l], r[k]) {
          if l < |u| {
            assert r[l] == u[l] && r[k] == u[k];
          } else {
            assert r[l] == w && r[k] == u[k];
          }
        }
      }
    }
  }

  /** Every input wall's normalised form is near some wall remove_duplicates returns. */
  lemma {:induction false} DedupCovers(ws: seq<Wall>)
    ensures forall i :: 0 <= i < |ws| ==> NearSome(Dedup(ws), Normalize(ws[i]))
    decreases |ws|
  {
    if ws != [] {
      var n := |ws| - 1;
      DedupCovers(ws[..n]);
      DedupLast(ws);
      var u := Dedup(ws[..n]);
      var r := Dedup(ws);
      assert |u| <= |r| && u == r[..|u|];
      forall i | 0 <= i < |ws| ensures NearSome(r, Normalize(ws[i])) {
        if i < n {
          assert ws[..n][i] == ws[i];
          assert NearSome(u, Normalize(ws[i]));
          var k :| 0 <= k < |u| && Near(Normalize(ws[i]), u[k]);
          assert r[k] == u[k];
        } else if !NearSome(u, Normalize(ws[n])) {
          assert Near(Normalize(ws[n]), r[|u|]);
        }
      }
    }
  }

  /**
   * Order is kept: the output is the normalised walls at the kept positions, and those
   * positions increase.
   */
  lemma {:induction false} KeptIndicesOrder(ws: seq<Wall>)
    ensures |KeptIndices(ws)| == |Dedup(ws)|
    ensures forall k :: 0 <= k < |Dedup(ws)| ==>
              KeptIndices(ws)[k] < |ws| && Dedup(ws)[k] == Normalize(ws[KeptIndices(ws)[k]])
    ensures forall k, l :: 0 <= k < l < |KeptIndices(ws)| ==> KeptIndices(ws)[k] < KeptIndices(ws)[l]
    decreases |ws|
  {
    if ws != [] {
      var n := |ws| - 1;
      var pre := ws[..n];
      KeptIndicesOrder(pre);
      DedupLast(ws);
      var kp := KeptIndices(pre);
      forall k | 0 <= k < |kp| ensures kp[k] < n && pre[kp[k]] == ws[kp[k]] {
      }
    }
  }

  /** First occurrences win: a position is kept exactly when no wall kept before it is near its wall. */
  lemma {:induction false} KeptIndicesFirst(ws: seq<Wall>)
    ensures forall i :: 0 <= i < |ws| ==>
              (i in KeptIndices(ws) <==> !NearSome(Dedup(ws[..i]), Normalize(ws[i])))
    decreases |ws|
  {
    if ws != [] {
      var n := |ws| - 1;
      var pre := ws[..n];
      KeptIndicesFirst(pre);
      KeptIndicesSnoc(ws);
      var kp := KeptIndices(pre);
      forall i | 0 <= i < |ws|
        ensures i in KeptIndices(ws) <==> !NearSome(Dedup(ws[..i]), Normalize(ws[i]))
      {
        if i < n {
          assert pre[..i] == ws[..i] && pre[i] == ws[i];
          assert i in KeptIndices(ws) <==> i in kp;
        } else {
          assert ws[..i] == pre;
        }
      }
    }
  }

  /** One more wall adds its position to the kept positions exactly when it is new; that position was not kept before. */
  lemma KeptIndicesSnoc(ws: seq<Wall>)
    requires ws != []
    ensures var n := |ws| - 1;
            var kp := KeptIndices(ws[..n]);
            n !in kp
            && KeptIndices(ws) == if !NearSome(Dedup(ws[..n]), Normalize(ws[n])) then kp + [n] else kp
  {
    var n := |ws| - 1;
    var pre := ws[..n];
    KeptIndicesOrder(pre);
    var kp := KeptIndices(pre);
    forall k | 0 <= k < |kp| ensures kp[k] != n {
      assert kp[k] < |pre|;
    }
  }

  // ---------------------------------------------------------------------------------------
  // sorted(walls, key=lambda w: (min(w[0], w[2]), min(w[1], w[3])))

  /** The key compares the smaller x, then the smaller y, as Python compares tuples. */
  predicate KeyLe(a: Wall, b: Wall) {
    var ka := (Min(a.x1, a.x2), Min(a.y1, a.y2));
    var kb := (Min(b.x1, b.x2), Min(b.y1, b.y2));
    ka.0 < kb.0 || (ka.0 == kb.0 && ka.1 <= kb.1)
  }

  predicate SortedByKey(s: seq<Wall>) {
    forall i, j :: 0 <= i < j < |s| ==> KeyLe(s[i], s[j])
  }

  /** w placed after every element, from the end, whose key is not greater than its own. */
  function Insert(s: seq<Wall>, w: Wall): (r: seq<Wall>)
    ensures multiset(r) == multiset(s) + multiset{w} && |r| == |s| + 1
    decreases |s|
  {
    if s == [] || KeyLe(s[|s| - 1], w) then s + [w]
    else
      var n := |s| - 1;
      assert s == s[..n] + [s[n]];
      Insert(s[..n], w) + [s[n]]
  }

  /** Insertion keeps a sorted list sorted. */
  lemma {:induction false} InsertSorted(s: seq<Wall>, w: Wall)
    requires SortedByKey(s)
    ensures SortedByKey(Insert(s, w))
    decreases |s|
  {
    if s != [] && !KeyLe(s[|s| - 1], w) {
      var n := |s| - 1;
      var pre := Insert(s[..n], w);
      InsertSorted(s[..n], w);
      assert KeyLe(w, s[n]);
      forall x | x in pre ensures KeyLe(x, s[n]) {
        assert x in multiset(pre);
        if x != w {
          assert x in multiset(s[..n]);
          var k :| 0 <= k < n && s[k] == x;
        }
      }
      var r := Insert(s, w);
      assert r == pre + [s[n]];
      forall i, j | 0 <= i < j < |r| ensures KeyLe(r[i], r[j]) {
        if j == |r| - 1 {
          assert r[i] == pre[i] && r[j] == s[n];
        } else {
          assert r[i] == pre[i] && r[j] == pre[j];
        }
      }
    }
  }

  /** Python's sorted: a stable sort by the key. */
  function SortWalls(ws: seq<Wall>): (r: seq<Wall>)
    ensures SortedByKey(r) && multiset(r) == multiset(ws) && |r| == |ws|
    decreases |ws|
  {
    if ws == [] then []
    else
      var n := |ws| - 1;
      assert ws == ws[..n] + [ws[n]];
      InsertSorted(SortWalls(ws[..n]), ws[n]);
      Insert(SortWalls(ws[..n]), ws[n])
  }

  // ---------------------------------------------------------------------------------------
  // merge_collinear_segments

  /** |dy| < |dx|. */
  predicate IsHorizontal(w: Wall) {
    Abs(w.y2 - w.y1) < Abs(w.x2 - w.x1)
  }

  /**
   * w may join the group seeded by `seed`: same orientation, within 3 on the fixed axis
   * (compared at the first end points) and a gap of at most 5 between their spans on the
   * other axis.
   */
  predicate Joins(seed: Wall, w: Wall) {
    IsHorizontal(seed) == IsHorizontal(w)
    && if IsHorizontal(seed) then
         Abs(seed.y1 - w.y1) <= 3
         && !(Max(seed.x1, seed.x2) < Min(w.x1, w.x2) - 5 || Max(w.x1, w.x2) < Min(seed.x1, seed.x2) - 5)
       else
         Abs(seed.x1 - w.x1) <= 3
         && !(Max(seed.y1, seed.y2) < Min(w.y1, w.y2) - 5 || Max(w.y1, w.y2) < Min(seed.y1, seed.y2) - 5)
  }

  /**
   * The inner scan from position j: every later unused wall that joins the seed at i is
   * appended to the candidates and marked used.
   */
  function Collect(ws: seq<Wall>, i: nat, j: nat, used: set<nat>, cands: seq<nat>): (seq<nat>, set<nat>)
    requires i < j <= |ws|
    decreases |ws| - j
  {
    if j == |ws| then (cands, used)
    else if j !in used && Joins(ws[i], ws[j]) then Collect(ws, i, j + 1, used + {j}, cands + [j])
    else Collect(ws, i, j + 1, used, cands)
  }

  /** The groups of positions formed by the outer loop from position i on. */
  function Groups(ws: seq<Wall>, i: nat, used: set<nat>): seq<seq<nat>>
    requires i <= |ws|
    decreases |ws| - i
  {
    if i == |ws| then []
    else if i in used then Groups(ws, i + 1, used)
    else
      var (c, u) := Collect(ws, i, i + 1, used + {i}, [i]);
      [c] + Groups(ws, i + 1, u)
  }

  /** Every element of g is below n. */
  predicate Below(g: seq<nat>, n: nat) {
    forall t :: 0 <= t < |g| ==> g[t] < n
  }

  function WallsAt(ws: seq<Wall>, g: seq<nat>): (r: seq<Wall>)
    requires Below(g, |ws|)
    ensures |r| == |g| && forall t :: 0 <= t < |g| ==> r[t] == ws[g[t]]
  {
    seq(|g|, t requires 0 <= t < |g| => ws[g[t]])
  }

  // Arithmetic over coordinate lists (min, max, int(np.mean(...)))

  function MinOf(xs: seq<int>): (m: int)
    requires xs != []
    ensures m in xs && forall x :: x in xs ==> m <= x
  {
    if |xs| == 1 then xs[0]
    else
      assert xs == [xs[0]] + xs[1..];
      Min(xs[0], MinOf(xs[1..]))
  }

  function MaxOf(xs: seq<int>): (m: int)
    requires xs != []
    ensures m in xs && forall x :: x in xs ==> x <= m
  {
    if |xs| == 1 then xs[0]
    else
      assert xs == [xs[0]] + xs[1..];
      Max(xs[0], MaxOf(xs[1..]))
  }

  function Sum(xs: seq<int>): int {
    if xs == [] then 0 else xs[0] + Sum(xs[1..])
  }

  /** Division truncated toward zero, as int() truncates the float mean. */
  function TruncDiv(a: int, n: nat): int
    requires n > 0
  {
    if a >= 0 then a / n else -((-a) / n)
  }

  /** int(np.mean(xs)): the mean truncated toward zero; it lies between the least and greatest value. */
  function TruncMean(xs: seq<int>): (m: int)
    requires xs != []
    ensures MinOf(xs) <= m <= MaxOf(xs)
  {
    SumBounds(xs);
    TruncDivBetween(Sum(xs), |xs|, MinOf(xs), MaxOf(xs));
    TruncDiv(Sum(xs), |xs|)
  }

  lemma {:induction false} SumBounds(xs: seq<int>)
    requires xs != []
    ensures |xs| * MinOf(xs) <= Sum(xs) <= |xs| * MaxOf(xs)
    decreases |xs|
  {
    if |xs| > 1 {
      var t := xs[1..];
      SumBounds(t);
      assert MinOf(xs) <= MinOf(t) && MaxOf(t) <= MaxOf(xs);
      assert (|xs| - 1) * MinOf(xs) <= (|xs| - 1) * MinOf(t) by { MulMonotone(|xs| - 1, MinOf(xs), MinOf(t)); }
      assert (|xs| - 1) * MaxOf(t) <= (|xs| - 1) * MaxOf(xs) by { MulMonotone(|xs| - 1, MaxOf(t), MaxOf(xs)); }
      assert |xs| * MinOf(xs) == (|xs| - 1) * MinOf(xs) + MinOf(xs);
      assert |xs| * MaxOf(xs) == (|xs| - 1) * MaxOf(xs) + MaxOf(xs);
    }
  }

  lemma MulMonotone(n: nat, a: int, b: int)
    requires a <= b
    ensures n * a <= n * b
  {
    assert n * b - n * a == n * (b - a);
  }

  /** n * lo <= a <= n * hi puts a / n, truncated toward zero, between lo and hi. */
  lemma TruncDivBetween(a: int, n: nat, lo: int, hi: int)
    requires n > 0 && n * lo <= a <= n * hi
    ensures lo <= TruncDiv(a, n) <= hi
  {
    if a >= 0 {
      FloorDivBetween(a, n, lo, hi);
    } else {
      assert n * (-hi) <= -a <= n * (-lo);
      FloorDivBetween(-a, n, -hi, -lo);
    }
  }

  lemma FloorDivBetween(a: int, n: nat, lo: int, hi: int)
    requires n > 0 && n * lo <= a <= n * hi
    ensures lo <= a / n <= hi
  {
    var q := a / n;
    assert a == n * q + a % n && 0 <= a % n < n;
    if q < lo {
      MulMonotone(n, q + 1, lo);
    }
    if q > hi {
      MulMonotone(n, hi + 1, q);
    }
  }

  /**
   * The wall emitted for a group, seed first: a lone seed as it is; a horizontal group as a
   * flat segment at the mean y spanning the candidates' x range; a vertical group likewise.
   */
  function MergeWalls(cands: seq<Wall>): (r: Wall)
    requires cands != []
    ensures |cands| == 1 ==> r == cands[0]
    ensures |cands| > 1 && IsHorizontal(cands[0]) ==>
              var xs := Xs(cands);
              r.y1 == r.y2 && MinOf(Ys(cands)) <= r.y1 <= MaxOf(Ys(cands))
              && r.x1 in xs && r.x2 in xs && forall x :: x in xs ==> r.x1 <= x <= r.x2
    ensures |cands| > 1 && !IsHorizontal(cands[0]) ==>
              var ys := Ys(cands);
              r.x1 == r.x2 && MinOf(Xs(cands)) <= r.x1 <= MaxOf(Xs(cands))
              && r.y1 in ys && r.y2 in ys && forall y :: y in ys ==> r.y1 <= y <= r.y2
  {
    if |cands| == 1 then cands[0]
    else if IsHorizontal(cands[0]) then
      var yAvg := TruncMean(Ys(cands));
      Wall(MinOf(Xs(cands)), yAvg, MaxOf(Xs(cands)), yAvg)
    else
      var xAvg := TruncMean(Xs(cands));
      Wall(xAvg, MinOf(Ys(cands)), xAvg, MaxOf(Ys(cands)))
  }

  /** [w[0] for w in c] + [w[2] for w in c]. */
  function Xs(c: seq<Wall>): (r: seq<int>)
    ensures |r| == 2 * |c|
    ensures forall t :: 0 <= t < |c| ==> r[t] == c[t].x1 && r[|c| + t] == c[t].x2
  {
    seq(|c|, t requires 0 <= t < |c| => c[t].x1) + seq(|c|, t requires 0 <= t < |c| => c[t].x2)
  }

  /** [w[1] for w in c] + [w[3] for w in c]. */
  function Ys(c: seq<Wall>): (r: seq<int>)
    ensures |r| == 2 * |c|
    ensures forall t :: 0 <= t < |c| ==> r[t] == c[t].y1 && r[|c| + t] == c[t].y2
  {
    seq(|c|, t requires 0 <= t < |c| => c[t].y1) + seq(|c|, t requires 0 <= t < |c| => c[t].y2)
  }

  /** A group: non-empty positions of ws, every later member joining the seed g[0]. */
  predicate Seeded(ws: seq<Wall>, g: seq<nat>) {
    g != [] && Below(g, |ws|) && forall t :: 1 <= t < |g| ==> Joins(ws[g[0]], ws[g[t]])
  }

  /** One merged wall per group. */
  function Emit(ws: seq<Wall>, gs: seq<seq<nat>>): (r: seq<Wall>)
    requires forall k :: 0 <= k < |gs| ==> Seeded(ws, gs[k])
    ensures |r| == |gs|
    decreases |gs|
  {
    if gs == [] then []
    else
      assert Seeded(ws, gs[0]);
      assert forall k :: 0 <= k < |gs[1..]| ==> gs[1..][k] == gs[k + 1];
      [MergeWalls(WallsAt(ws, gs[0]))] + Emit(ws, gs[1..])
  }

  /** The walls emitted for the groups formed from position i on. */
  function EmitFrom(ws: seq<Wall>, i: nat, used: set<nat>): seq<Wall>
    requires i <= |ws|
  {
    GroupsShape(ws, i, used);
    Emit(ws, Groups(ws, i, used))
  }

  /** merge_collinear_segments, as the groups it forms over the sorted walls. */
  function MergeSpec(walls: seq<Wall>): seq<Wall> {
    EmitFrom(SortWalls(walls), 0, {})
  }

  // ---------------------------------------------------------------------------------------
  // What the scans compute

  /** The inner scan keeps the candidates it starts with as a prefix. */
  lemma {:induction false} CollectPrefix(ws: seq<Wall>, i: nat, j: nat, used: set<nat>, cands: seq<nat>)
    requires i < j <= |ws|
    ensures var c := Collect(ws, i, j, used, cands).0;
            |c| >= |cands| && c[..|cands|] == cands
    decreases |ws| - j
  {
    if j < |ws| {
      if j !in used && Joins(ws[i], ws[j]) {
        CollectPrefix(ws, i, j + 1, used + {j}, cands + [j]);
        var c := Collect(ws, i, j, used, cands).0;
        assert c[..|cands|] == c[..|cands| + 1][..|cands|];
      } else {
        CollectPrefix(ws, i, j + 1, used, cands);
      }
    }
  }

  /** Every appended candidate is an unused position from j on, joining the seed, in increasing order. */
  lemma {:induction false} CollectAppended(ws: seq<Wall>, i: nat, j: nat, used: set<nat>, cands: seq<nat>)
    requires i < j <= |ws|
    ensures var c := Collect(ws, i, j, used, cands).0;
            forall t :: |cands| <= t < |c| ==> j <= c[t] < |ws| && c[t] !in used && Joins(ws[i], ws[c[t]])
    ensures var c := Collect(ws, i, j, used, cands).0;
            forall t, t' :: |cands| <= t < t' < |c| ==> c[t] < c[t']
    decreases |ws| - j
  {
    if j < |ws| {
      if j !in used && Joins(ws[i], ws[j]) {
        CollectAppended(ws, i, j + 1, used + {j}, cands + [j]);
        CollectPrefix(ws, i, j + 1, used + {j}, cands + [j]);
        var c := Collect(ws, i, j, used, cands).0;
        assert c[..|cands| + 1] == cands + [j];
        assert c[|cands|] == j;
      } else {
        CollectAppended(ws, i, j + 1, used, cands);
        assert Collect(ws, i, j, used, cands) == Collect(ws, i, j + 1, used, cands);
      }
    }
  }

  /** Every unused position from j on whose wall joins the seed is appended and marked used, and nothing else is. */
  lemma {:induction false} CollectFinds(ws: seq<Wall>, i: nat, j: nat, used: set<nat>, cands: seq<nat>)
    requires i < j <= |ws|
    ensures |Collect(ws, i, j, used, cands).0| >= |cands|
    ensures var c := Collect(ws, i, j, used, cands).0;
            forall k :: j <= k < |ws| && k !in used && Joins(ws[i], ws[k]) ==> k in c[|cands|..]
    ensures var (c, u) := Collect(ws, i, j, used, cands);
            forall k :: k in u <==> k in used || k in c[|cands|..]
    decreases |ws| - j
  {
    CollectPrefix(ws, i, j, used, cands);
    if j < |ws| {
      if j !in used && Joins(ws[i], ws[j]) {
        CollectFinds(ws, i, j + 1, used + {j}, cands + [j]);
        CollectPrefix(ws, i, j + 1, used + {j}, cands + [j]);
        var c := Collect(ws, i, j, used, cands).0;
        assert c[..|cands| + 1] == cands + [j];
        assert c[|cands|] == j;
        assert c[|cands|..] == [j] + c[|cands| + 1..];
      } else {
        CollectFinds(ws, i, j + 1, used, cands);
      }
    }
  }

  /**
   * The inner scan appends to the candidates exactly the unused positions from j on whose
   * walls join the seed, in increasing order, and marks exactly those as used.
   */
  lemma CollectSpec(ws: seq<Wall>, i: nat, j: nat, used: set<nat>, cands: seq<nat>)
    requires i < j <= |ws|
    ensures var c := Collect(ws, i, j, used, cands).0;
            |c| >= |cands| && c[..|cands|] == cands
    ensures var c := Collect(ws, i, j, used, cands).0;
            forall t :: |cands| <= t < |c| ==> j <= c[t] < |ws| && c[t] !in used && Joins(ws[i], ws[c[t]])
    ensures var c := Collect(ws, i, j, used, cands).0;
            forall t, t' :: |cands| <= t < t' < |c| ==> c[t] < c[t']
    ensures var c := Collect(ws, i, j, used, cands).0;
            forall k :: j <= k < |ws| && k !in used && Joins(ws[i], ws[k]) ==> k in c[|cands|..]
    ensures var (c, u) := Collect(ws, i, j, used, cands);
            forall k :: k in u <==> k in used || k in c[|cands|..]
  {
    CollectPrefix(ws, i, j, used, cands);
    CollectAppended(ws, i, j, used, cands);
    CollectFinds(ws, i, j, used, cands);
  }

  /** The groups from position i are non-empty, start at their seed and list positions of ws. */
  lemma {:induction false} GroupsShape(ws: seq<Wall>, i: nat, used: set<nat>)
    requires i <= |ws|
    ensures forall k :: 0 <= k < |Groups(ws, i, used)| ==> Seeded(ws, Groups(ws, i, used)[k])
    decreases |ws| - i
  {
    if i < |ws| {
      if i in used {
        GroupsShape(ws, i + 1, used);
      } else {
        var (c, u) := Collect(ws, i, i + 1, used + {i}, [i]);
        CollectSpec(ws, i, i + 1, used + {i}, [i]);
        GroupsShape(ws, i + 1, u);
        assert c[0] == i;
        assert Seeded(ws, c);
        assert Groups(ws, i, used) == [c] + Groups(ws, i + 1, u);
      }
    }
  }

  /** The output has one wall per group, so no more walls than came in. */
  lemma {:induction false} GroupsCount(ws: seq<Wall>, i: nat, used: set<nat>)
    requires i <= |ws|
    ensures |Groups(ws, i, used)| <= |ws| - i
    decreases |ws| - i
  {
    if i < |ws| {
      if i in used {
        GroupsCount(ws, i + 1, used);
      } else {
        var (c, u) := Collect(ws, i, i + 1, used + {i}, [i]);
        GroupsCount(ws, i + 1, u);
      }
    }
  }

  function Flatten(gs: seq<seq<nat>>): seq<nat>
    decreases |gs|
  {
    if gs == [] then [] else gs[0] + Flatten(gs[1..])
  }

  predicate NoDup(s: seq<nat>) {
    forall a, b :: 0 <= a < b < |s| ==> s[a] != s[b]
  }

  /** The group seeded at an unused position i starts with i and lists no position twice. */
  lemma CollectGroupShape(ws: seq<Wall>, i: nat, used: set<nat>)
    requires i < |ws| && i !in used
    ensures var c := Collect(ws, i, i + 1, used + {i}, [i]).0;
            c != [] && c[0] == i && NoDup(c)
  {
    var c := Collect(ws, i, i + 1, used + {i}, [i]).0;
    CollectSpec(ws, i, i + 1, used + {i}, [i]);
    assert c[..1] == [i];
    NoDupSeeded(c, i);
  }

  /** A list that starts with i and continues strictly increasing above i lists nothing twice. */
  lemma NoDupSeeded(c: seq<nat>, i: nat)
    requires c != [] && c[0] == i
    requires forall t :: 1 <= t < |c| ==> i < c[t]
    requires forall t, t' :: 1 <= t < t' < |c| ==> c[t] < c[t']
    ensures NoDup(c)
  {
    forall a, b | 0 <= a < b < |c| ensures c[a] != c[b] {
      if a == 0 { assert i < c[b]; } else { assert c[a] < c[b]; }
    }
  }

  /**
   * The group seeded at an unused position i holds i and exactly the unused later positions
   * whose walls join wall i; afterwards exactly these are used too.
   */
  lemma CollectGroupMembers(ws: seq<Wall>, i: nat, used: set<nat>)
    requires i < |ws| && i !in used
    ensures var (c, u) := Collect(ws, i, i + 1, used + {i}, [i]);
            (forall k :: k in c <==> k == i || (i < k < |ws| && k !in used && Joins(ws[i], ws[k])))
            && (forall k :: k in u <==> k in used || k in c)
  {
    var (c, u) := Collect(ws, i, i + 1, used + {i}, [i]);
    CollectSpec(ws, i, i + 1, used + {i}, [i]);
    var tail := c[1..];
    assert c[..1] == [i];
    assert c == [i] + tail;
    forall k ensures k in c <==> k == i || (i < k < |ws| && k !in used && Joins(ws[i], ws[k])) {
      if k in tail {
        var t :| 0 <= t < |tail| && tail[t] == k;
        assert c[t + 1] == k;
      }
    }
  }

  /** Two duplicate-free lists with no common element concatenate to a duplicate-free list. */
  lemma NoDupConcat(a: seq<nat>, b: seq<nat>)
    requires NoDup(a) && NoDup(b) && forall k :: k in a ==> k !in b
    ensures NoDup(a + b)
  {
    var f := a + b;
    forall x, y | 0 <= x < y < |f| ensures f[x] != f[y] {
      if y < |a| {
        assert f[x] == a[x] && f[y] == a[y];
      } else if x >= |a| {
        assert f[x] == b[x - |a|] && f[y] == b[y - |a|];
      } else {
        assert f[x] == a[x] && f[y] == b[y - |a|];
        assert a[x] in a;
      }
    }
  }

  /**
   * The groups from position i partition the positions from i on that are not yet used:
   * each of them lies in exactly one group.
   */
  lemma {:induction false} GroupsPartition(ws: seq<Wall>, i: nat, used: set<nat>)
    requires i <= |ws|
    ensures var f := Flatten(Groups(ws, i, used));
            NoDup(f) && forall k :: k in f <==> i <= k < |ws| && k !in used
    decreases |ws| - i
  {
    if i < |ws| {
      if i in used {
        GroupsPartition(ws, i + 1, used);
      } else {
        var (c, u) := Collect(ws, i, i + 1, used + {i}, [i]);
        CollectGroupShape(ws, i, used);
        CollectGroupMembers(ws, i, used);
        GroupsPartition(ws, i + 1, u);
        var rest := Flatten(Groups(ws, i + 1, u));
        var gs := Groups(ws, i, used);
        assert gs[1..] == Groups(ws, i + 1, u);
        assert Flatten(gs) == c + rest;
        NoDupConcat(c, rest);
      }
    }
  }

  /** One step of the outer loop: a used position emits nothing, an unused one emits its group's wall. */
  lemma EmitFromStep(ws: seq<Wall>, i: nat, used: set<nat>)
    requires i < |ws|
    ensures i !in used ==> Collect(ws, i, i + 1, used + {i}, [i]).0 != []
    ensures i !in used ==> Below(Collect(ws, i, i + 1, used + {i}, [i]).0, |ws|)
    ensures EmitFrom(ws, i, used) ==
              if i in used then EmitFrom(ws, i + 1, used)
              else
                var (c, u) := Collect(ws, i, i + 1, used + {i}, [i]);
                [MergeWalls(WallsAt(ws, c))] + EmitFrom(ws, i + 1, u)
  {
    if i !in used {
      var (c, u) := Collect(ws, i, i + 1, used + {i}, [i]);
      CollectSpec(ws, i, i + 1, used + {i}, [i]);
      GroupsShape(ws, i, used);
      var gs := Groups(ws, i, used);
      assert gs[0] == c && gs[1..] == Groups(ws, i + 1, u);
    }
  }

  /**
   * The inner loop of merge_collinear_segments: seeded by the unused wall at position i,
   * it scans the later positions and takes every unused wall that joins the seed.
   */
  method CollectCandidates(ws: seq<Wall>, i: nat, used: set<nat>)
      returns (candidates: seq<Wall>, used': set<nat>)
    requires i < |ws| && i !in used
    ensures Below(Collect(ws, i, i + 1, used + {i}, [i]).0, |ws|)
    ensures candidates == WallsAt(ws, Collect(ws, i, i + 1, used + {i}, [i]).0)
    ensures used' == Collect(ws, i, i + 1, used + {i}, [i]).1
  {
    EmitFromStep(ws, i, used);
    var wall1 := ws[i];
    candidates := [wall1];
    ghost var cidx: seq<nat> := [i];
    used' := used + {i};
    for j := i + 1 to |ws|
      invariant Collect(ws, i, j, used', cidx) == Collect(ws, i, i + 1, used + {i}, [i])
      invariant Below(cidx, |ws|)
      invariant candidates == WallsAt(ws, cidx)
    {
      if j in used' {
        continue;
      }
      var wall2 := ws[j];
      if Joins(wall1, wall2) {
        candidates := candidates + [wall2];
        cidx := cidx + [j];
        used' := used' + {j};
      }
    }
  }

  /**
   * merge_collinear_segments: walls are sorted by their smaller x then smaller y; every
   * wall either seeds a group or joins exactly one earlier seed's group; each group
   * yields one wall.
   */
  method MergeCollinearSegments(walls: seq<Wall>) returns (merged: seq<Wall>)
    ensures merged == MergeSpec(walls)
  {
    var ws := SortWalls(walls);
    merged := [];
    var used: set<nat> := {};
    for i := 0 to |ws|
      invariant merged + EmitFrom(ws, i, used) == MergeSpec(walls)
    {
      merged, used := MergeNext(ws, i, used, merged, MergeSpec(walls));
    }
  }

  /** One turn of the outer loop of merge_collinear_segments: skip a used wall, else emit the merge of its group. */
  method MergeNext(ws: seq<Wall>, i: nat, used: set<nat>, merged: seq<Wall>, ghost goal: seq<Wall>)
    returns (merged': seq<Wall>, used': set<nat>)
    requires i < |ws| && merged + EmitFrom(ws, i, used) == goal
    ensures merged' + EmitFrom(ws, i + 1, used') == goal
  {
    if i in used {
      EmitFromStep(ws, i, used);
      return merged, used;
    }
    EmitFromStep(ws, i, used);
    var candidates;
    candidates, used' := CollectCandidates(ws, i, used);
    assert EmitFrom(ws, i, used) == [MergeWalls(candidates)] + EmitFrom(ws, i + 1, used');
    assert merged + [MergeWalls(candidates)] + EmitFrom(ws, i + 1, used')
           == merged + ([MergeWalls(candidates)] + EmitFrom(ws, i + 1, used'));
    merged' := merged + [MergeWalls(candidates)];
  }

  /**
   * merge_collinear_segments yields no more walls than it is given; the groups behind its
   * output cover every sorted wall exactly once, and each group's later members join its seed.
   */
  lemma MergeSpecSpec(walls: seq<Wall>)
    ensures |MergeSpec(walls)| <= |walls|
    ensures var ws := SortWalls(walls);
            var f := Flatten(Groups(ws, 0, {}));
            NoDup(f) && (forall k :: k in f <==> 0 <= k < |walls|)
            && |MergeSpec(walls)| == |Groups(ws, 0, {})|
  {
    var ws := SortWalls(walls);
    GroupsCount(ws, 0, {});
    GroupsPartition(ws, 0, {});
  }
}
