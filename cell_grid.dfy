// The coarse location grid of the client (echoaid-app/src/LocationCellGrid.jsx): the floor
// plan's 1200 x 820 view box is cut into 60 x 60 cells named "cell_<x>_<y>", used to group
// earthquake reports by place. Coordinates are reals; cell indices are integers.

module CellGrid {
  import opened Wrappers
  import Text
  import Seqs

  const CELL_SIZE: int := 60
  const VIEW_WIDTH: int := 1200
  const VIEW_HEIGHT: int := 820

  /** Math.ceil(a / b) for a non-negative numerator and a positive denominator. */
  function CeilDiv(a: nat, b: nat): (q: nat)
    requires b > 0
    ensures q * b >= a && (q == 0 || (q - 1) * b < a)
  {
    if a == 0 then 0 else 1 + CeilDiv(if a < b then 0 else a - b, b)
  }

  /** Number of cell columns and rows of getAllCells. */
  const GRID_X: nat := CeilDiv(VIEW_WIDTH, CELL_SIZE)
  const GRID_Y: nat := CeilDiv(VIEW_HEIGHT, CELL_SIZE)

  /** The grid has 20 columns and 14 rows; the last row reaches past the view box (840 > 820). */
  lemma GridSize()
    ensures GRID_X == 20 && GRID_Y == 14
  {
  }

  /** The id of the cell with indices (cx, cy): `cell_${cx}_${cy}`. */
  function CellName(cx: int, cy: int): string {
    "cell_" + Text.IntToString(cx) + "_" + Text.IntToString(cy)
  }

  /** Math.floor(v / cellSize): the index of the cell strip holding coordinate v. */
  function CellIndex(v: real): (c: int)
    ensures (c * CELL_SIZE) as real <= v < ((c + 1) * CELL_SIZE) as real
  {
    (v / CELL_SIZE as real).Floor
  }

  /** getCellId: null when either coordinate is null/undefined. */
  function GetCellId(x: Option<real>, y: Option<real>): (r: Option<string>)
    ensures r.None? <==> x.None? || y.None?
    ensures r.Some? ==> r.value == CellName(CellIndex(x.value), CellIndex(y.value))
  {
    if x.None? || y.None? then None
    else Some(CellName(CellIndex(x.value), CellIndex(y.value)))
  }

  // ---------------------------------------------------------------------------------------
  // The pattern /cell_(-?\d+)_(-?\d+)/, searched from the left, and parseInt

  /**
   * `-?\d+` at index j: the integer it denotes and the index after it. A '-' not followed by
   * a digit does not match, and the digit run is always taken whole (the pattern cannot end
   * a group inside a run of digits and still match the '_' or succeed differently).
   */
  function SignedAt(s: string, j: nat): (r: Option<(int, nat)>)
    requires j <= |s|
    ensures r.Some? ==> j < r.value.1 <= |s|
  {
    if j < |s| && s[j] == '-' && Text.DigitRun(s, j + 1) >= 1 then
      var k := Text.DigitRun(s, j + 1);
      assert Text.AllDigits(s[j + 1..j + 1 + k]);
      Some((0 - Text.ParseNat(s[j + 1..j + 1 + k]), j + 1 + k))
    else
      var k := Text.DigitRun(s, j);
      if k == 0 then None
      else
        assert Text.AllDigits(s[j..j + k]);
        Some((Text.ParseNat(s[j..j + k]), j + k))
  }

  /** The two cell indices the pattern captures when it matches at index i. */
  function MatchAt(s: string, i: nat): Option<(int, int)>
    requires i <= |s|
  {
    if i + 5 <= |s| && s[i..i + 5] == "cell_" then
      match SignedAt(s, i + 5)
      case None => None
      case Some(first) =>
        var j := first.1;
        if j < |s| && s[j] == '_' then
          match SignedAt(s, j + 1)
          case None => None
          case Some(second) => Some((first.0, second.0))
        else None
    else None
  }

  /** The index of the leftmost match at or after index i (String.prototype.match without the g flag). */
  function Search(s: string, i: nat): (r: Option<nat>)
    requires i <= |s|
    ensures r.Some? ==> i <= r.value <= |s| && MatchAt(s, r.value).Some?
    decreases |s| - i
  {
    if MatchAt(s, i).Some? then Some(i)
    else if i == |s| then None
    else Search(s, i + 1)
  }

  /** A failed search from index i means no match at any index j from i on. */
  lemma {:induction false} SearchNone(s: string, i: nat, j: nat)
    requires i <= j <= |s| && Search(s, i).None?
    ensures MatchAt(s, j).None?
    decreases j - i
  {
    if i < j {
      SearchNone(s, i + 1, j);
    }
  }

  /** A successful search from index i means no match between i and the index found. */
  lemma {:induction false} SearchBefore(s: string, i: nat, j: nat)
    requires i <= j <= |s| && Search(s, i).Some? && j < Search(s, i).value
    ensures MatchAt(s, j).None?
    decreases j - i
  {
    if i < j {
      SearchBefore(s, i + 1, j);
    }
  }

  /** The search finds the leftmost match from index i on, and fails only when there is none. */
  lemma SearchSpec(s: string, i: nat)
    requires i <= |s|
    ensures Search(s, i).Some? ==> forall j :: i <= j < Search(s, i).value ==> MatchAt(s, j).None?
    ensures Search(s, i).None? ==> forall j :: i <= j <= |s| ==> MatchAt(s, j).None?
  {
    forall j | i <= j <= |s| && Search(s, i).None? ensures MatchAt(s, j).None? {
      SearchNone(s, i, j);
    }
    forall j | i <= j <= |s| && Search(s, i).Some? && j < Search(s, i).value ensures MatchAt(s, j).None? {
      SearchBefore(s, i, j);
    }
  }

  /** A cell's box and indices, as getCellBounds returns them. */
  datatype Bounds = Bounds(x1: int, y1: int, x2: int, y2: int, x: int, y: int)

  /**
   * getCellBounds: null when the pattern occurs nowhere in the id; otherwise the 60 x 60 box
   * whose top-left corner is 60 times the leftmost match's indices.
   */
  function GetCellBounds(cellId: string): (r: Option<Bounds>)
    ensures r.Some? ==> var b := r.value;
                        b.x1 == CELL_SIZE * b.x && b.y1 == CELL_SIZE * b.y
                        && b.x2 - b.x1 == CELL_SIZE && b.y2 - b.y1 == CELL_SIZE
  {
    match Search(cellId, 0)
    case None => None
    case Some(k) =>
      var (cx, cy) := MatchAt(cellId, k).value;
      Some(Bounds(cx * CELL_SIZE, cy * CELL_SIZE, (cx + 1) * CELL_SIZE, (cy + 1) * CELL_SIZE, cx, cy))
  }

  /**
   * getCellBounds returns null exactly when the pattern occurs nowhere in the id, and
   * otherwise the indices captured by its leftmost match.
   */
  lemma GetCellBoundsSpec(cellId: string)
    ensures GetCellBounds(cellId).None? <==> forall j :: 0 <= j <= |cellId| ==> MatchAt(cellId, j).None?
    ensures GetCellBounds(cellId).Some? ==>
              Search(cellId, 0).Some?
              && MatchAt(cellId, Search(cellId, 0).value)
                 == Some((GetCellBounds(cellId).value.x, GetCellBounds(cellId).value.y))
  {
    SearchSpec(cellId, 0);
  }

  /** The decimal text of a natural number m at p, followed by the end or a non-digit, reads back as m. */
  lemma SignedAtNat(s: string, p: nat, m: nat)
    requires p + |Text.NatToString(m)| <= |s| && s[p..p + |Text.NatToString(m)|] == Text.NatToString(m)
    requires p + |Text.NatToString(m)| == |s| || !Text.IsDigit(s[p + |Text.NatToString(m)|])
    ensures SignedAt(s, p) == Some((m, p + |Text.NatToString(m)|))
  {
    var d := Text.NatToString(m);
    Text.NatToStringDigits(m);
    assert s[p] == d[0] && Text.IsDigit(d[0]);
    Text.ReadNatAt(s, p, m);
  }

  /** A minus sign followed by the decimal text of m, then the end or a non-digit, reads back as -m. */
  lemma SignedAtMinus(s: string, p: nat, m: nat)
    requires p + 1 + |Text.NatToString(m)| <= |s| && s[p] == '-'
    requires s[p + 1..p + 1 + |Text.NatToString(m)|] == Text.NatToString(m)
    requires p + 1 + |Text.NatToString(m)| == |s| || !Text.IsDigit(s[p + 1 + |Text.NatToString(m)|])
    ensures SignedAt(s, p) == Some((0 - m, p + 1 + |Text.NatToString(m)|))
  {
    Text.ReadNatAt(s, p + 1, m);
  }

  /** The decimal text of n, followed by the end or a non-digit, reads back as n at p. */
  lemma SignedAtInt(s: string, p: nat, n: int)
    requires p + |Text.IntToString(n)| <= |s| && s[p..p + |Text.IntToString(n)|] == Text.IntToString(n)
    requires p + |Text.IntToString(n)| == |s| || !Text.IsDigit(s[p + |Text.IntToString(n)|])
    ensures SignedAt(s, p) == Some((n, p + |Text.IntToString(n)|))
  {
    var t := Text.IntToString(n);
    if n < 0 {
      var d := Text.NatToString(-n);
      assert t == "-" + d;
      assert s[p] == t[0] == '-';
      assert s[p + 1..p + 1 + |d|] == t[1..] == d;
      SignedAtMinus(s, p, -n);
    } else {
      SignedAtNat(s, p, n);
    }
  }

  /** Every id built by CellName parses back to its own indices. */
  lemma CellNameParses(cx: int, cy: int)
    ensures GetCellBounds(CellName(cx, cy)).Some?
    ensures GetCellBounds(CellName(cx, cy)).value.x == cx
    ensures GetCellBounds(CellName(cx, cy)).value.y == cy
  {
    var a := Text.IntToString(cx);
    var b := Text.IntToString(cy);
    var s := CellName(cx, cy);
    assert s[0..5] == "cell_";
    assert s[5..5 + |a|] == a;
    assert s[5 + |a|] == '_';
    SignedAtInt(s, 5, cx);
    assert s[6 + |a|..6 + |a| + |b|] == b;
    SignedAtInt(s, 6 + |a|, cy);
    assert MatchAt(s, 0) == Some((cx, cy));
  }

  /** Distinct index pairs give distinct ids. */
  lemma CellNameInjective(a: int, b: int, c: int, d: int)
    requires CellName(a, b) == CellName(c, d)
    ensures a == c && b == d
  {
    CellNameParses(a, b);
    CellNameParses(c, d);
  }

  /**
   * Round trip: a point lies in the bounds of its own cell id, left and top edges included,
   * right and bottom edges excluded.
   */
  lemma CellIdRoundTrip(x: real, y: real)
    ensures var b := GetCellBounds(GetCellId(Some(x), Some(y)).value);
            b.Some?
            && b.value.x1 as real <= x < b.value.x2 as real
            && b.value.y1 as real <= y < b.value.y2 as real
  {
    CellNameParses(CellIndex(x), CellIndex(y));
  }

  /** getCellCenter: the midpoint of the bounds, or null with them. */
  function GetCellCenter(cellId: string): (r: Option<(real, real)>)
    ensures r.None? <==> GetCellBounds(cellId).None?
    ensures r.Some? ==> var b := GetCellBounds(cellId).value;
                        b.x1 as real < r.value.0 < b.x2 as real
                        && r.value.0 - b.x1 as real == b.x2 as real - r.value.0
                        && b.y1 as real < r.value.1 < b.y2 as real
                        && r.value.1 - b.y1 as real == b.y2 as real - r.value.1
  {
    match GetCellBounds(cellId)
    case None => None
    case Some(b) => Some(((b.x1 + b.x2) as real / 2.0, (b.y1 + b.y2) as real / 2.0))
  }

  // ---------------------------------------------------------------------------------------
  // Neighbours

  /** The eight neighbour offsets, in the order of the `all` entry. */
  const ALL_OFFSETS: seq<(int, int)> := [(0, -1), (0, 1), (1, 0), (-1, 0), (1, -1), (1, 1), (-1, -1), (-1, 1)]

  /**
   * The entries of the offsets table as written: the four compass entries are a single
   * flat pair of numbers, `all` is a list of pairs, and any other direction that is not an
   * inherited member of a plain JavaScript object falls back to `all`.
   */
  datatype OffsetEntry = Flat(dx: int, dy: int) | Pairs(list: seq<(int, int)>)

  function OffsetsAsWritten(direction: string): OffsetEntry {
    if direction == "north" then Flat(0, -1)
    else if direction == "south" then Flat(0, 1)
    else if direction == "east" then Flat(1, 0)
    else if direction == "west" then Flat(-1, 0)
    else Pairs(ALL_OFFSETS)
  }

  /** A call either returns a list of ids or throws a TypeError. */
  datatype Outcome = Returned(ids: seq<string>) | Throws

  /** The cell with these indices lies inside the view box. */
  predicate InBox(cx: int, cy: int) {
    0 <= CELL_SIZE * cx && 0 <= CELL_SIZE * cy
    && CELL_SIZE * (cx + 1) <= VIEW_WIDTH && CELL_SIZE * (cy + 1) <= VIEW_HEIGHT
  }

  /** The filter of getNearbyCell: the id parses and its box lies inside the view box. */
  predicate InView(id: string) {
    match GetCellBounds(id)
    case None => false
    case Some(b) => b.x1 >= 0 && b.y1 >= 0 && b.x2 <= VIEW_WIDTH && b.y2 <= VIEW_HEIGHT
  }

  /** The neighbour ids at the given offsets that pass the view-box filter, in offset order. */
  function Neighbours(b: Bounds, offsets: seq<(int, int)>): seq<string> {
    Seqs.Filter(Shifted(b, offsets), InView)
  }

  /** The ids of the cells at the given offsets from b, in offset order. */
  function Shifted(b: Bounds, offsets: seq<(int, int)>): (ids: seq<string>)
    ensures |ids| == |offsets|
  {
    seq(|offsets|, k requires 0 <= k < |offsets| => CellName(b.x + offsets[k].0, b.y + offsets[k].1))
  }

  /** The id at position k is the cell at the k-th offset. */
  lemma ShiftedAt(b: Bounds, offsets: seq<(int, int)>, k: nat)
    requires k < |offsets|
    ensures Shifted(b, offsets)[k] == CellName(b.x + offsets[k].0, b.y + offsets[k].1)
  {
  }

  /**
   * getNearbyCell as written. `dirs.map(([dx, dy]) => ...)` destructures each element of
   * `dirs`; for a compass direction the elements are the numbers of the flat pair, and
   * destructuring a number throws.
   */
  function NearbyAsWritten(cellId: string, direction: string): Outcome {
    match GetCellBounds(cellId)
    case None => Returned([])
    case Some(b) =>
      match OffsetsAsWritten(direction)
      case Flat(_, _) => Throws
      case Pairs(list) => Returned(Neighbours(b, list))
  }

  /** Asking for a compass neighbour of any well-formed cell throws instead of returning it. */
  lemma NearbyAsWrittenThrows(cx: int, cy: int, direction: string)
    requires direction == "north" || direction == "south" || direction == "east" || direction == "west"
    ensures NearbyAsWritten(CellName(cx, cy), direction) == Throws
  {
    CellNameParses(cx, cy);
  }

  /** The offsets with each compass entry as a one-element list, as the table evidently means. */
  function Offsets(direction: string): (r: seq<(int, int)>)
    ensures direction == "north" ==> r == [(0, -1)]
    ensures direction == "south" ==> r == [(0, 1)]
    ensures direction == "east" ==> r == [(1, 0)]
    ensures direction == "west" ==> r == [(-1, 0)]
    ensures direction !in {"north", "south", "east", "west"} ==> r == ALL_OFFSETS
  {
    match OffsetsAsWritten(direction)
    case Flat(dx, dy) => [(dx, dy)]
    case Pairs(list) => list
  }

  /** getNearbyCell, with compass directions returning their single neighbour. */
  function GetNearbyCell(cellId: string, direction: string): (r: seq<string>)
    ensures GetCellBounds(cellId).None? ==> r == []
  {
    match GetCellBounds(cellId)
    case None => []
    case Some(b) => Neighbours(b, Offsets(direction))
  }

  /** A built id passes the view-box filter exactly when its cell lies inside the view box. */
  lemma InViewName(cx: int, cy: int)
    ensures InView(CellName(cx, cy)) <==> InBox(cx, cy)
  {
    CellNameParses(cx, cy);
  }

  /** id is the cell at one of the offsets from b, and that cell lies inside the view box. */
  predicate AtInBoxOffset(b: Bounds, offs: seq<(int, int)>, id: string) {
    exists k :: 0 <= k < |offs| && id == CellName(b.x + offs[k].0, b.y + offs[k].1)
                && InBox(b.x + offs[k].0, b.y + offs[k].1)
  }

  /** p accepts a built id exactly when its cell lies inside the view box. */
  ghost predicate BoxTest(p: string -> bool) {
    forall cx, cy :: p(CellName(cx, cy)) <==> InBox(cx, cy)
  }

  /** The view-box filter of getNearbyCell is such a test. */
  lemma InViewBoxTest()
    ensures BoxTest(InView)
  {
    forall cx, cy ensures InView(CellName(cx, cy)) <==> InBox(cx, cy) {
      InViewName(cx, cy);
    }
  }

  /** For each offset, whether the cell there lies inside the view box. */
  function InBoxAt(b: Bounds, offs: seq<(int, int)>): (r: seq<bool>)
    ensures |r| == |offs|
    ensures forall k :: 0 <= k < |offs| ==> r[k] == InBox(b.x + offs[k].0, b.y + offs[k].1)
  {
    seq(|offs|, k requires 0 <= k < |offs| => InBox(b.x + offs[k].0, b.y + offs[k].1))
  }

  /** Any box test accepts the id at an offset exactly when that cell is inside the view box. */
  lemma ShiftedFlags(b: Bounds, offs: seq<(int, int)>, p: string -> bool)
    requires BoxTest(p)
    ensures forall k :: 0 <= k < |offs| ==> (p(Shifted(b, offs)[k]) <==> InBoxAt(b, offs)[k])
  {
    forall k | 0 <= k < |offs| ensures p(Shifted(b, offs)[k]) <==> InBoxAt(b, offs)[k] {
      ShiftedAt(b, offs, k);
    }
  }

  /** Each filtered neighbour is the cell at one of the offsets, and that cell is inside the view box. */
  lemma NeighboursSound(b: Bounds, offs: seq<(int, int)>, id: string)
    requires id in Neighbours(b, offs)
    ensures InView(id) && AtInBoxOffset(b, offs, id)
  {
    var ids := Shifted(b, offs);
    var flags := InBoxAt(b, offs);
    InViewBoxTest();
    ShiftedFlags(b, offs, InView);
    Seqs.FilterFlags(ids, InView, flags);
    var k :| 0 <= k < |ids| && ids[k] == id && flags[k];
    ShiftedAt(b, offs, k);
  }

  /** The cell at an offset is among the filtered neighbours when it lies inside the view box. */
  lemma NeighboursComplete(b: Bounds, offs: seq<(int, int)>, k: nat)
    requires k < |offs| && InBox(b.x + offs[k].0, b.y + offs[k].1)
    ensures CellName(b.x + offs[k].0, b.y + offs[k].1) in Neighbours(b, offs)
  {
    var ids := Shifted(b, offs);
    var flags := InBoxAt(b, offs);
    InViewBoxTest();
    ShiftedFlags(b, offs, InView);
    Seqs.FilterFlags(ids, InView, flags);
    ShiftedAt(b, offs, k);
    assert flags[k];
  }

  /**
   * The filtered neighbours are at most as many as the offsets: exactly the cells at the
   * offsets that lie inside the view box.
   */
  lemma NeighboursSpec(b: Bounds, offs: seq<(int, int)>)
    ensures |Neighbours(b, offs)| <= |offs|
    ensures forall id :: id in Neighbours(b, offs) ==> InView(id) && AtInBoxOffset(b, offs, id)
    ensures forall id :: AtInBoxOffset(b, offs, id) ==> id in Neighbours(b, offs)
  {
    forall id | id in Neighbours(b, offs)
      ensures InView(id) && AtInBoxOffset(b, offs, id)
    {
      NeighboursSound(b, offs, id);
    }
    forall id | AtInBoxOffset(b, offs, id)
      ensures id in Neighbours(b, offs)
    {
      NeighboursCover(b, offs, id);
    }
  }

  /** A cell at an in-box offset is among the neighbours. */
  lemma NeighboursCover(b: Bounds, offs: seq<(int, int)>, id: string)
    requires AtInBoxOffset(b, offs, id)
    ensures id in Neighbours(b, offs)
  {
    var k :| 0 <= k < |offs| && id == CellName(b.x + offs[k].0, b.y + offs[k].1)
             && InBox(b.x + offs[k].0, b.y + offs[k].1);
    NeighboursComplete(b, offs, k);
  }

  /**
   * The neighbours are at most eight: exactly the cells at the direction's offsets that lie
   * inside the view box, and every returned id passes the view-box test (its bounds are inside
   * [0, 1200] x [0, 820]).
   */
  lemma NearbySpec(cellId: string, direction: string)
    requires GetCellBounds(cellId).Some?
    ensures |GetNearbyCell(cellId, direction)| <= |Offsets(direction)| <= 8
    ensures forall id :: id in GetNearbyCell(cellId, direction) ==> InView(id)
    ensures var b := GetCellBounds(cellId).value;
            var offs := Offsets(direction);
            forall id :: id in GetNearbyCell(cellId, direction) <==>
              AtInBoxOffset(b, offs, id)
  {
    var b := GetCellBounds(cellId).value;
    var offs := Offsets(direction);
    assert GetNearbyCell(cellId, direction) == Neighbours(b, offs);
    NeighboursSpec(b, offs);
  }

  // ---------------------------------------------------------------------------------------
  // All cells

  /** The ids of column cx, top to bottom. */
  function Column(cx: int): (r: seq<string>)
    ensures |r| == GRID_Y
  {
    seq(GRID_Y, cy requires 0 <= cy < GRID_Y => CellName(cx, cy))
  }

  /** The ids of the first n columns, column after column. */
  function Columns(n: nat): (r: seq<string>)
  {
    if n == 0 then [] else Columns(n - 1) + Column(n - 1)
  }

  /** getAllCells lists every column of the grid in turn. */
  function AllCellNames(): seq<string> {
    Columns(GRID_X)
  }

  /** getAllCells: the nested loops push x-major. */
  method GetAllCells() returns (cells: seq<string>)
    ensures cells == AllCellNames()
  {
    cells := [];
    var gridX := CeilDiv(VIEW_WIDTH, CELL_SIZE);
    var gridY := CeilDiv(VIEW_HEIGHT, CELL_SIZE);
    var x := 0;
    while x < gridX
      invariant 0 <= x <= gridX
      invariant cells == Columns(x)
    {
      var y := 0;
      ghost var col := Column(x);
      while y < gridY
        invariant 0 <= y <= gridY
        invariant cells == Columns(x) + col[..y]
      {
        cells := cells + [CellName(x, y)];
        assert col[..y + 1] == col[..y] + [col[y]];
        y := y + 1;
      }
      assert col[..gridY] == col;
      x := x + 1;
    }
  }

  /** The first n columns hold n * 14 ids, x-major: index k is cell (k / 14, k % 14). */
  lemma {:induction false} ColumnsLayout(n: nat)
    ensures |Columns(n)| == n * GRID_Y
    ensures forall k :: 0 <= k < |Columns(n)| ==> Columns(n)[k] == CellName(k / GRID_Y, k % GRID_Y)
  {
    GridSize();
    if n > 0 {
      ColumnsLayout(n - 1);
      var prev := Columns(n - 1);
      forall k | 0 <= k < |Columns(n)| ensures Columns(n)[k] == CellName(k / GRID_Y, k % GRID_Y) {
        if k >= |prev| {
          var cy := k - |prev|;
          assert k == (n - 1) * GRID_Y + cy;
          assert k / GRID_Y == n - 1 && k % GRID_Y == cy;
        }
      }
    }
  }

  /** id names a cell of the first n columns of the grid. */
  predicate InColumns(n: nat, id: string) {
    exists cx, cy :: 0 <= cx < n && 0 <= cy < GRID_Y && id == CellName(cx, cy)
  }

  /** An id is among the first n columns exactly when its indices lie in that part of the grid. */
  lemma {:induction false} ColumnsMembers(n: nat, id: string)
    ensures id in Columns(n) <==> InColumns(n, id)
  {
    if n > 0 {
      ColumnsMembers(n - 1, id);
      assert Columns(n) == Columns(n - 1) + Column(n - 1);
      if id in Column(n - 1) {
        var cy :| 0 <= cy < GRID_Y && Column(n - 1)[cy] == id;
        assert id == CellName(n - 1, cy);
        assert InColumns(n, id);
      }
      if InColumns(n - 1, id) {
        var cx, cy :| 0 <= cx < n - 1 && 0 <= cy < GRID_Y && id == CellName(cx, cy);
        assert InColumns(n, id);
      }
      if InColumns(n, id) {
        var cx, cy :| 0 <= cx < n && 0 <= cy < GRID_Y && id == CellName(cx, cy);
        if cx == n - 1 {
          assert Column(n - 1)[cy] == id;
        } else {
          assert InColumns(n - 1, id);
        }
      }
    }
  }

  /** No id is listed twice within one column. */
  lemma ColumnDistinct(cx: int)
    ensures Seqs.Distinct(Column(cx))
  {
    var col := Column(cx);
    forall i, j | 0 <= i < j < |col| ensures col[i] != col[j] {
      if col[i] == col[j] {
        CellNameInjective(cx, i, cx, j);
      }
    }
  }

  /** No id of the first n columns belongs to column n. */
  lemma ColumnFresh(n: nat)
    ensures forall id :: id in Columns(n) ==> id !in Column(n)
  {
    forall id | id in Columns(n) ensures id !in Column(n) {
      ColumnsMembers(n, id);
      var cx, cy :| 0 <= cx < n && 0 <= cy < GRID_Y && id == CellName(cx, cy);
      if id in Column(n) {
        var cy' :| 0 <= cy' < GRID_Y && Column(n)[cy'] == id;
        CellNameInjective(cx, cy, n, cy');
      }
    }
  }

  /** No id is listed twice. */
  lemma {:induction false} ColumnsDistinct(n: nat)
    ensures Seqs.Distinct(Columns(n))
  {
    if n > 0 {
      ColumnsDistinct(n - 1);
      ColumnDistinct(n - 1);
      ColumnFresh(n - 1);
      Seqs.DistinctConcat(Columns(n - 1), Column(n - 1));
    }
  }

  /** getAllCells returns 20 x 14 = 280 distinct ids, cell (k / 14, k % 14) at index k. */
  lemma AllCellsSpec()
    ensures |AllCellNames()| == 280
    ensures Seqs.Distinct(AllCellNames())
    ensures forall k :: 0 <= k < 280 ==> AllCellNames()[k] == CellName(k / 14, k % 14)
  {
    GridSize();
    ColumnsLayout(GRID_X);
    ColumnsDistinct(GRID_X);
  }

  /** Every point of the view box has its cell among getAllCells. */
  lemma AllCellsCover(x: real, y: real)
    requires 0.0 <= x < VIEW_WIDTH as real && 0.0 <= y < VIEW_HEIGHT as real
    ensures GetCellId(Some(x), Some(y)).value in AllCellNames()
  {
    GridSize();
    var cx, cy := CellIndex(x), CellIndex(y);
    assert 0 <= cx < GRID_X && 0 <= cy < GRID_Y;
    ColumnsMembers(GRID_X, CellName(cx, cy));
    assert InColumns(GRID_X, CellName(cx, cy));
  }
}
