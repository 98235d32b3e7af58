/**
 * Static floor data of the server: the GeoJSON-to-SVG projection, the room/hallway/exit
 * table, the navigation edges and the exit list (echoaid-server/models/map_data.py).
 */
module MapData {
  import opened Wrappers
  import Text

  /** Projection constants: scale and GeoJSON origin. */
  const S: real := 0.4
  const OX: real := 1309.0
  const OY: real := 330.5

  /** GeoJSON x to SVG x. */
  function Tx(x: real): (r: real)
    ensures r == 0.0 <==> x == OX
    ensures r > 0.0 <==> x > OX
  {
    (x - OX) * S
  }

  /** GeoJSON y to SVG y. */
  function Ty(y: real): (r: real)
    ensures r == 0.0 <==> y == OY
    ensures r > 0.0 <==> y > OY
  {
    (y - OY) * S
  }

  datatype NodeType = Room | Exit

  /** One entry of the RAW table; `hallway` and `color` may be missing. */
  datatype RawEntry = RawEntry(x: real, y: real, id: nat, kind: NodeType, caption: string,
                               hallway: Option<bool>, color: Option<string>)

  /** One value of the NODES dictionary, in projected coordinates. */
  datatype Node = Node(id: string, x: real, y: real, caption: string, kind: NodeType,
                       hallway: bool, color: Option<string>)

  /** The dictionary key of a RAW entry: "p" followed by its decimal id. */
  function NodeKey(id: nat): (k: string)
    ensures |k| > 1 && k[0] == 'p' && k[1..] == Text.NatToString(id)
  {
    "p" + Text.NatToString(id)
  }

  lemma NodeKeyInjective(a: nat, b: nat)
    requires NodeKey(a) == NodeKey(b)
    ensures a == b
  {
    assert NodeKey(a)[1..] == NodeKey(b)[1..];
    Text.NatToStringInjective(a, b);
  }

  /** The NODES value built from one RAW entry; a missing flag is False, a missing colour None. */
  function MakeNode(r: RawEntry): (n: Node)
    ensures n.id == NodeKey(r.id)
    ensures n.x == Tx(r.x) && n.y == Ty(r.y)
    ensures n.caption == r.caption && n.kind == r.kind
    ensures n.hallway == (r.hallway == Some(true))
    ensures r.hallway == None ==> !n.hallway
    ensures r.color == None ==> n.color == None
  {
    Node(NodeKey(r.id), Tx(r.x), Ty(r.y), r.caption, r.kind, r.hallway.GetOr(false), r.color)
  }

  /** The dictionary the loop over RAW builds: each entry inserted in order, a later equal key overwriting. */
  function NodesFrom(raw: seq<RawEntry>): map<string, Node>
    decreases |raw|
  {
    if raw == [] then map[]
    else NodesFrom(raw[..|raw| - 1])[NodeKey(raw[|raw| - 1].id) := MakeNode(raw[|raw| - 1])]
  }

  /** The loop of map_data.py that fills NODES from RAW. */
  method BuildNodes(raw: seq<RawEntry>) returns (nodes: map<string, Node>)
    ensures nodes == NodesFrom(raw)
  {
    nodes := map[];
    for i := 0 to |raw|
      invariant nodes == NodesFrom(raw[..i])
    {
      assert raw[..i + 1][..i] == raw[..i];
      nodes := nodes[NodeKey(raw[i].id) := MakeNode(raw[i])];
    }
    assert raw[..|raw|] == raw;
  }

  /** Keys of NODES are exactly the keys of RAW entries, and each node's `id` is its own key. */
  lemma {:induction false} NodesFromKeys(raw: seq<RawEntry>, k: string)
    ensures k in NodesFrom(raw) <==> exists i :: 0 <= i < |raw| && NodeKey(raw[i].id) == k
    ensures k in NodesFrom(raw) ==> NodesFrom(raw)[k].id == k
    decreases |raw|
  {
    if raw != [] {
      var n := |raw| - 1;
      var init := raw[..n];
      NodesFromKeys(init, k);
      KeyedSnoc(raw, k);
      assert NodesFrom(raw) == NodesFrom(init)[NodeKey(raw[n].id) := MakeNode(raw[n])];
    }
  }

  /** Some entry of a non-empty table has key k exactly when the last one does or one before it does. */
  lemma KeyedSnoc(raw: seq<RawEntry>, k: string)
    requires raw != []
    ensures var n := |raw| - 1;
            (exists i :: 0 <= i < |raw| && NodeKey(raw[i].id) == k)
            <==> NodeKey(raw[n].id) == k || exists i :: 0 <= i < n && NodeKey(raw[..n][i].id) == k
  {
    var n := |raw| - 1;
    if exists i :: 0 <= i < n && NodeKey(raw[..n][i].id) == k {
      var i :| 0 <= i < n && NodeKey(raw[..n][i].id) == k;
      assert raw[..n][i] == raw[i];
    }
    if exists i :: 0 <= i < |raw| && NodeKey(raw[i].id) == k {
      var i :| 0 <= i < |raw| && NodeKey(raw[i].id) == k;
      if i < n {
        assert raw[..n][i] == raw[i];
      }
    }
  }

  /** With strictly increasing ids, the node stored under an entry's key is built from that entry. */
  lemma {:induction false} NodesFromEntry(raw: seq<RawEntry>, i: nat)
    requires forall j :: 0 < j < |raw| ==> raw[j - 1].id < raw[j].id
    requires i < |raw|
    ensures NodeKey(raw[i].id) in NodesFrom(raw)
    ensures NodesFrom(raw)[NodeKey(raw[i].id)] == MakeNode(raw[i])
    decreases |raw|
  {
    var n := |raw| - 1;
    if i < n {
      var init := raw[..n];
      NodesFromEntry(init, i);
      IncreasingIds(raw, i, n);
      if NodeKey(raw[i].id) == NodeKey(raw[n].id) {
        NodeKeyInjective(raw[i].id, raw[n].id);
      }
    }
  }

  lemma {:induction false} IncreasingIds(raw: seq<RawEntry>, i: nat, j: nat)
    requires forall k :: 0 < k < |raw| ==> raw[k - 1].id < raw[k].id
    requires i < j < |raw|
    ensures raw[i].id < raw[j].id
    decreases j - i
  {
    if i + 1 < j {
      IncreasingIds(raw, i, j - 1);
    }
  }

  /** The RAW table of map_data.py, in its order, split in four parts of 30 entries. */
  const RAW: seq<RawEntry> := RAW_A + RAW_B + RAW_C + RAW_D

  const RAW_A: seq<RawEntry> := [
    RawEntry(2733.5, 1386.0, 2, Room, "10", None, None),
    RawEntry(3644.0, 613.0, 3, Room, "083", None, None),
    RawEntry(2132.5, 331.0, 5, Room, "101", None, None),
    RawEntry(1864.0, 836.5, 6, Room, "104", None, None),
    RawEntry(4041.0, 1981.0, 7, Room, "1001", None, None),
    RawEntry(3599.9, 2040.9, 8, Room, "h16", Some(true), Some("green")),
    RawEntry(3771.0, 2438.5, 10, Room, "1002", None, None),
    RawEntry(3544.0, 1849.0, 11, Room, "1003", None, None),
    RawEntry(3535.0, 2137.5, 12, Room, "1004", None, None),
    RawEntry(3445.5, 2137.5, 13, Room, "1005", None, None),
    RawEntry(3356.0, 2137.5, 14, Room, "1006", None, None),
    RawEntry(3356.0, 1920.0, 15, Room, "1007", None, None),
    RawEntry(3266.5, 2137.5, 16, Room, "1008", None, None),
    RawEntry(3266.5, 1921.0, 17, Room, "1009", None, None),
    RawEntry(3177.0, 2137.5, 18, Room, "1010", None, None),
    RawEntry(3177.0, 1920.0, 19, Room, "1011", None, None),
    RawEntry(3087.5, 2137.5, 20, Room, "1012", None, None),
    RawEntry(3084.0, 1919.0, 21, Room, "1013", None, None),
    RawEntry(2998.0, 2137.5, 22, Room, "1014", None, None),
    RawEntry(2995.0, 1917.5, 23, Room, "1015", None, None),
    RawEntry(2908.5, 2137.5, 24, Room, "1016", None, None),
    RawEntry(2911.0, 1919.0, 25, Room, "1017", None, None),
    RawEntry(2763.0, 2137.5, 26, Room, "1018", None, None),
    RawEntry(2558.0, 2137.5, 27, Room, "1020", None, None),
    RawEntry(2470.0, 2137.5, 28, Room, "1021", None, None),
    RawEntry(2382.0, 2137.5, 29, Room, "1022", None, None),
    RawEntry(2294.0, 2137.5, 30, Room, "1023", None, None),
    RawEntry(2206.0, 2137.5, 31, Room, "1024", None, None),
    RawEntry(2118.0, 2137.5, 32, Room, "1025", None, None),
    RawEntry(2098.0, 2260.0, 33, Room, "1026", None, None)
  ]

  const RAW_B: seq<RawEntry> := [
    RawEntry(2020.5, 2275.0, 34, Room, "1026A", None, None),
    RawEntry(1873.0, 2108.0, 35, Room, "1027", None, None),
    RawEntry(1868.0, 1911.0, 36, Room, "1028", None, None),
    RawEntry(1866.5, 1819.5, 37, Room, "1029", None, None),
    RawEntry(1868.0, 1728.5, 38, Room, "1030", None, None),
    RawEntry(1865.0, 1641.0, 39, Room, "1031", None, None),
    RawEntry(2040.5, 1633.5, 40, Room, "1032", None, None),
    RawEntry(1868.0, 1547.0, 41, Room, "1033", None, None),
    RawEntry(1865.5, 1455.5, 42, Room, "1034", None, None),
    RawEntry(2041.0, 1522.5, 43, Room, "1035", None, None),
    RawEntry(2040.0, 1412.0, 44, Room, "1036", None, None),
    RawEntry(1870.0, 1366.0, 45, Room, "1037", None, None),
    RawEntry(1864.0, 1272.5, 46, Room, "1038", None, None),
    RawEntry(2039.0, 1301.0, 47, Room, "1039", None, None),
    RawEntry(2041.0, 1187.0, 48, Room, "1040", None, None),
    RawEntry(1868.0, 1183.5, 49, Room, "1041", None, None),
    RawEntry(1871.0, 1091.0, 50, Room, "1042", None, None),
    RawEntry(1868.0, 998.0, 51, Room, "1043", None, None),
    RawEntry(1865.5, 906.0, 52, Room, "1044", None, None),
    RawEntry(1870.5, 843.0, 53, Room, "1045", None, None),
    RawEntry(1876.0, 740.5, 54, Room, "1046", None, None),
    RawEntry(2156.0, 567.0, 55, Room, "1048", None, None),
    RawEntry(2039.5, 900.0, 56, Room, "1049", None, None),
    RawEntry(2302.0, 1254.5, 57, Room, "1052", None, None),
    RawEntry(1868.0, 1547.0, 58, Room, "1055", None, None),
    RawEntry(2303.0, 1774.0, 59, Room, "1056", None, None),
    RawEntry(2038.0, 1829.0, 60, Room, "1058", None, None),
    RawEntry(2623.5, 1699.0, 61, Room, "1059", None, None),
    RawEntry(2943.0, 1634.0, 62, Room, "1060A", None, None),
    RawEntry(3435.5, 1632.0, 63, Room, "1060D", None, None)
  ]

  const RAW_C: seq<RawEntry> := [
    RawEntry(3246.0, 1745.5, 64, Room, "h14", Some(true), Some("green")),
    RawEntry(3062.5, 1798.5, 65, Room, "1060H", None, None),
    RawEntry(3313.5, 1799.0, 66, Room, "1060G", None, None),
    RawEntry(2986.0, 955.5, 67, Room, "1061A", None, None),
    RawEntry(3042.0, 1317.0, 68, Room, "1061", None, None),
    RawEntry(2625.0, 1130.0, 69, Room, "1063", None, None),
    RawEntry(2212.0, 725.5, 70, Room, "1065", None, None),
    RawEntry(2399.0, 727.5, 71, Room, "1066", None, None),
    RawEntry(2580.0, 727.5, 72, Room, "1068", None, None),
    RawEntry(2717.0, 727.5, 73, Room, "1070", None, None),
    RawEntry(2809.0, 727.5, 74, Room, "1071", None, None),
    RawEntry(2900.5, 727.5, 75, Room, "1072", None, None),
    RawEntry(2992.0, 727.5, 76, Room, "1073", None, None),
    RawEntry(3083.5, 728.0, 77, Room, "1074", None, None),
    RawEntry(3173.0, 727.0, 78, Room, "1076", None, None),
    RawEntry(3169.0, 945.0, 79, Room, "1077", None, None),
    RawEntry(3427.0, 952.0, 80, Room, "1078", None, None),
    RawEntry(3263.0, 726.0, 81, Room, "1079", None, None),
    RawEntry(3358.0, 725.5, 82, Room, "1080", None, None),
    RawEntry(3446.0, 725.5, 83, Room, "1081", None, None),
    RawEntry(3544.0, 635.0, 84, Room, "1082", None, None),
    RawEntry(3799.0, 546.5, 85, Room, "1083B", None, None),
    RawEntry(3702.5, 629.5, 86, Room, "1083A", None, None),
    RawEntry(4076.5, 1051.0, 87, Room, "1084", None, None),
    RawEntry(3451.0, 1319.5, 88, Room, "1085", None, None),
    RawEntry(3991.0, 1560.5, 89, Room, "1088B", None, None),
    RawEntry(4180.0, 1607.0, 90, Room, "1088A", None, None),
    RawEntry(3926.0, 1676.5, 91, Room, "1088", None, None),
    RawEntry(3974.0, 2200.0, 92, Room, "1089", None, None),
    RawEntry(3594.0, 2310.0, 95, Room, "h18", Some(true), Some("green"))
  ]

  const RAW_D: seq<RawEntry> := [
    RawEntry(3552.5, 2442.0, 96, Room, "1094", None, None),
    RawEntry(2816.0, 2030.0, 98, Room, "h15", Some(true), Some("green")),
    RawEntry(2136.5, 1383.0, 100, Room, "h19", Some(true), Some("green")),
    RawEntry(1945.0, 1383.0, 101, Room, "h20", Some(true), Some("green")),
    RawEntry(2120.0, 448.0, 103, Room, "00", None, None),
    RawEntry(2107.0, 448.0, 104, Room, "1100", None, None),
    RawEntry(2125.5, 331.0, 105, Room, "1101", None, None),
    RawEntry(2149.0, 330.5, 106, Room, "1102", None, None),
    RawEntry(2824.0, 815.5, 107, Room, "1103", Some(true), Some("green")),
    RawEntry(3981.0, 1329.6, 110, Room, "h11", Some(true), Some("green")),
    RawEntry(3710.0, 1325.5, 112, Room, "h21", Some(true), Some("green")),
    RawEntry(4043.0, 1888.0, 115, Room, "1109", None, None),
    RawEntry(3850.0, 2045.7, 118, Room, "h17", Some(true), Some("green")),
    RawEntry(3710.0, 841.0, 120, Room, "h13", Some(true), Some("green")),
    RawEntry(2151.0, 353.5, 123, Room, "ELV", None, None),
    RawEntry(2128.5, 354.5, 124, Room, "ELV", None, None),
    RawEntry(3720.9, 2045.7, 126, Room, "h1", Some(true), Some("green")),
    RawEntry(3706.3, 1760.2, 127, Room, "h2", Some(true), Some("green")),
    RawEntry(2811.3, 1760.2, 128, Room, "h3", Some(true), Some("green")),
    RawEntry(2148.4, 831.3, 129, Room, "h4", Some(true), Some("green")),
    RawEntry(1940.4, 2026.3, 130, Room, "h5", Some(true), Some("green")),
    RawEntry(2148.4, 700.6, 131, Room, "h6", Some(true), Some("green")),
    RawEntry(1940.4, 2026.3, 132, Room, "h7", Some(true), Some("green")),
    RawEntry(2153.2, 2026.3, 133, Room, "h8", Some(true), Some("green")),
    RawEntry(2032.3, 2026.3, 134, Room, "h9", Some(true), Some("green")),
    RawEntry(1945.2, 831.3, 135, Room, "h10", Some(true), Some("green")),
    RawEntry(2028.4, 2141.6, 200, Exit, "Exit 1", None, None),
    RawEntry(2018.0, 705.5, 201, Exit, "Exit 2", None, None),
    RawEntry(3753.0, 719.7, 202, Exit, "Exit 3", None, None),
    RawEntry(3720.9, 2150.0, 203, Exit, "Exit 4", None, None)
  ]

  const NODES: map<string, Node> := NodesFrom(RAW)

  predicate IncreasingFrom(raw: seq<RawEntry>, j: nat)
    decreases |raw| - j
  {
    j >= |raw| || ((j == 0 || raw[j - 1].id < raw[j].id) && IncreasingFrom(raw, j + 1))
  }

  lemma {:induction false} IncreasingFromAll(raw: seq<RawEntry>, j: nat)
    requires IncreasingFrom(raw, j)
    ensures forall k :: j <= k < |raw| && 0 < k ==> raw[k - 1].id < raw[k].id
    decreases |raw| - j
  {
    if j < |raw| {
      IncreasingFromAll(raw, j + 1);
    }
  }

  /** Entry ids strictly increase along the table. */
  predicate Ascending(raw: seq<RawEntry>)
  {
    forall j :: 0 < j < |raw| ==> raw[j - 1].id < raw[j].id
  }

  lemma IncreasingAppend(a: seq<RawEntry>, b: seq<RawEntry>)
    requires Ascending(a) && Ascending(b)
    requires a != [] && b != [] && a[|a| - 1].id < b[0].id
    ensures Ascending(a + b)
  {
    forall j | 0 < j < |a + b|
      ensures (a + b)[j - 1].id < (a + b)[j].id
    {
      if j == |a| {
        assert (a + b)[j - 1] == a[|a| - 1] && (a + b)[j] == b[0];
      } else if j < |a| {
        assert (a + b)[j - 1] == a[j - 1] && (a + b)[j] == a[j];
      } else {
        assert (a + b)[j - 1] == b[j - 1 - |a|] && (a + b)[j] == b[j - |a|];
      }
    }
  }

  /** The upper half of chunk A: from entry 16 on, each id exceeds the one before. */
  lemma ChunkAUpper()
    ensures IncreasingFrom(RAW_A, 16)
  {
    assert IncreasingFrom(RAW_A, 28);
    assert IncreasingFrom(RAW_A, 26);
    assert IncreasingFrom(RAW_A, 24);
    assert IncreasingFrom(RAW_A, 22);
    assert IncreasingFrom(RAW_A, 20);
    assert IncreasingFrom(RAW_A, 18);
    assert IncreasingFrom(RAW_A, 16);
  }

  lemma ChunkAAscending()
    ensures Ascending(RAW_A)
  {
    ChunkAUpper();
    assert IncreasingFrom(RAW_A, 14);
    assert IncreasingFrom(RAW_A, 12);
    assert IncreasingFrom(RAW_A, 10);
    assert IncreasingFrom(RAW_A, 8);
    assert IncreasingFrom(RAW_A, 6);
    assert IncreasingFrom(RAW_A, 4);
    assert IncreasingFrom(RAW_A, 2);
    assert IncreasingFrom(RAW_A, 0);
    IncreasingFromAll(RAW_A, 0);
  }

  /** The upper half of chunk B: from entry 16 on, each id exceeds the one before. */
  lemma ChunkBUpper()
    ensures IncreasingFrom(RAW_B, 16)
  {
    assert IncreasingFrom(RAW_B, 28);
    assert IncreasingFrom(RAW_B, 26);
    assert IncreasingFrom(RAW_B, 24);
    assert IncreasingFrom(RAW_B, 22);
    assert IncreasingFrom(RAW_B, 20);
    assert IncreasingFrom(RAW_B, 18);
    assert IncreasingFrom(RAW_B, 16);
  }

  lemma ChunkBAscending()
    ensures Ascending(RAW_B)
  {
    ChunkBUpper();
    assert IncreasingFrom(RAW_B, 14);
    assert IncreasingFrom(RAW_B, 12);
    assert IncreasingFrom(RAW_B, 10);
    assert IncreasingFrom(RAW_B, 8);
    assert IncreasingFrom(RAW_B, 6);
    assert IncreasingFrom(RAW_B, 4);
    assert IncreasingFrom(RAW_B, 2);
    assert IncreasingFrom(RAW_B, 0);
    IncreasingFromAll(RAW_B, 0);
  }

  /** The upper half of chunk C: from entry 16 on, each id exceeds the one before. */
  lemma ChunkCUpper()
    ensures IncreasingFrom(RAW_C, 16)
  {
    assert IncreasingFrom(RAW_C, 28);
    assert IncreasingFrom(RAW_C, 26);
    assert IncreasingFrom(RAW_C, 24);
    assert IncreasingFrom(RAW_C, 22);
    assert IncreasingFrom(RAW_C, 20);
    assert IncreasingFrom(RAW_C, 18);
    assert IncreasingFrom(RAW_C, 16);
  }

  lemma ChunkCAscending()
    ensures Ascending(RAW_C)
  {
    ChunkCUpper();
    assert IncreasingFrom(RAW_C, 14);
    assert IncreasingFrom(RAW_C, 12);
    assert IncreasingFrom(RAW_C, 10);
    assert IncreasingFrom(RAW_C, 8);
    assert IncreasingFrom(RAW_C, 6);
    assert IncreasingFrom(RAW_C, 4);
    assert IncreasingFrom(RAW_C, 2);
    assert IncreasingFrom(RAW_C, 0);
    IncreasingFromAll(RAW_C, 0);
  }

  /** The upper half of chunk D: from entry 16 on, each id exceeds the one before. */
  lemma ChunkDUpper()
    ensures IncreasingFrom(RAW_D, 16)
  {
    assert IncreasingFrom(RAW_D, 28);
    assert IncreasingFrom(RAW_D, 26);
    assert IncreasingFrom(RAW_D, 24);
    assert IncreasingFrom(RAW_D, 22);
    assert IncreasingFrom(RAW_D, 20);
    assert IncreasingFrom(RAW_D, 18);
    assert IncreasingFrom(RAW_D, 16);
  }

  lemma ChunkDAscending()
    ensures Ascending(RAW_D)
  {
    ChunkDUpper();
    assert IncreasingFrom(RAW_D, 14);
    assert IncreasingFrom(RAW_D, 12);
    assert IncreasingFrom(RAW_D, 10);
    assert IncreasingFrom(RAW_D, 8);
    assert IncreasingFrom(RAW_D, 6);
    assert IncreasingFrom(RAW_D, 4);
    assert IncreasingFrom(RAW_D, 2);
    assert IncreasingFrom(RAW_D, 0);
    IncreasingFromAll(RAW_D, 0);
  }

  lemma RawIdsIncreasing()
    ensures Ascending(RAW)
  {
    ChunkAAscending();
    ChunkBAscending();
    ChunkCAscending();
    ChunkDAscending();
    IncreasingAppend(RAW_A, RAW_B);
    IncreasingAppend(RAW_A + RAW_B, RAW_C);
    IncreasingAppend(RAW_A + RAW_B + RAW_C, RAW_D);
  }

  /** Navigation edges between hallway and exit nodes, each listed once. */
  const EDGES: seq<(string, string)> := [
    ("p201", "p131"),
    ("p131", "p129"),
    ("p129", "p135"),
    ("p129", "p107"),
    ("p107", "p120"),
    ("p107", "p128"),
    ("p128", "p64"),
    ("p128", "p98"),
    ("p98", "p8"),
    ("p98", "p133"),
    ("p133", "p134"),
    ("p134", "p200"),
    ("p134", "p130"),
    ("p130", "p101"),
    ("p101", "p135"),
    ("p129", "p100"),
    ("p100", "p133"),
    ("p64", "p127"),
    ("p127", "p112"),
    ("p112", "p110"),
    ("p112", "p120"),
    ("p120", "p202"),
    ("p8", "p95"),
    ("p8", "p126"),
    ("p126", "p203"),
    ("p126", "p127"),
    ("p126", "p118")
  ]

  /** Exit node ids, in the order exits are scored. */
  const EXITS: seq<string> := ["p200", "p201", "p202", "p203"]

  /** The comprehension over NODES in insertion order: nodes flagged as hallway, and exits. */
  function HallwayFrom(raw: seq<RawEntry>): seq<string>
    decreases |raw|
  {
    if raw == [] then []
    else
      var last := raw[|raw| - 1];
      HallwayFrom(raw[..|raw| - 1])
        + (if MakeNode(last).hallway || last.kind == Exit then [NodeKey(last.id)] else [])
  }

  const HALLWAY_NODES: seq<string> := HallwayFrom(RAW)

  /** A key listed by HallwayFrom is a key of some entry that is a hallway or an exit. */
  lemma {:induction false} HallwayFromSound(raw: seq<RawEntry>, k: string)
    requires k in HallwayFrom(raw)
    ensures exists i :: 0 <= i < |raw| && NodeKey(raw[i].id) == k
                        && (MakeNode(raw[i]).hallway || raw[i].kind == Exit)
    decreases |raw|
  {
    var n := |raw| - 1;
    var last := raw[n];
    if k in HallwayFrom(raw[..n]) {
      HallwayFromSound(raw[..n], k);
      var i :| 0 <= i < n && NodeKey(raw[..n][i].id) == k
               && (MakeNode(raw[..n][i]).hallway || raw[..n][i].kind == Exit);
      assert raw[..n][i] == raw[i];
    } else {
      assert k == NodeKey(last.id) && (MakeNode(last).hallway || last.kind == Exit);
    }
  }

  /** Every hallway or exit entry has its key listed by HallwayFrom. */
  lemma {:induction false} HallwayFromComplete(raw: seq<RawEntry>, i: nat)
    requires i < |raw| && (MakeNode(raw[i]).hallway || raw[i].kind == Exit)
    ensures NodeKey(raw[i].id) in HallwayFrom(raw)
    decreases |raw|
  {
    var n := |raw| - 1;
    if i < n {
      HallwayFromComplete(raw[..n], i);
      assert raw[..n][i] == raw[i];
    }
  }

  /**
   * With distinct ids, HALLWAY_NODES holds exactly the NODES keys whose node is a hallway
   * or an exit.
   */
  lemma HallwayNodesExact(raw: seq<RawEntry>, k: string)
    requires Ascending(raw)
    ensures k in HallwayFrom(raw) <==>
              k in NodesFrom(raw) && (NodesFrom(raw)[k].hallway || NodesFrom(raw)[k].kind == Exit)
  {
    if k in HallwayFrom(raw) {
      HallwayFromSound(raw, k);
      var i :| 0 <= i < |raw| && NodeKey(raw[i].id) == k
               && (MakeNode(raw[i]).hallway || raw[i].kind == Exit);
      NodesFromEntry(raw, i);
    }
    if k in NodesFrom(raw) && (NodesFrom(raw)[k].hallway || NodesFrom(raw)[k].kind == Exit) {
      NodesFromKeys(raw, k);
      var i :| 0 <= i < |raw| && NodeKey(raw[i].id) == k;
      NodesFromEntry(raw, i);
      HallwayFromComplete(raw, i);
    }
  }

  /** The entry at index i of RAW is a hallway or an exit, and its key is a NODES key. */
  lemma NavigableAt(i: nat)
    requires i < |RAW| && (MakeNode(RAW[i]).hallway || RAW[i].kind == Exit)
    ensures NodeKey(RAW[i].id) in NODES && NodeKey(RAW[i].id) in HALLWAY_NODES
  {
    RawIdsIncreasing();
    NodesFromEntry(RAW, i);
    HallwayFromComplete(RAW, i);
  }

  // One lemma per edge endpoint: the node's entry in RAW is a hallway or an exit.
  lemma Navigable8()
    ensures "p8" in NODES && "p8" in HALLWAY_NODES
  {
    NavigableAt(5);
    assert NodeKey(RAW[5].id) == "p8";
  }

  lemma Navigable64()
    ensures "p64" in NODES && "p64" in HALLWAY_NODES
  {
    NavigableAt(60);
    assert NodeKey(RAW[60].id) == "p64";
  }

  lemma Navigable95()
    ensures "p95" in NODES && "p95" in HALLWAY_NODES
  {
    NavigableAt(89);
    assert NodeKey(RAW[89].id) == "p95";
  }

  lemma Navigable98()
    ensures "p98" in NODES && "p98" in HALLWAY_NODES
  {
    NavigableAt(91);
    assert NodeKey(RAW[91].id) == "p98";
  }

  lemma Navigable100()
    ensures "p100" in NODES && "p100" in HALLWAY_NODES
  {
    NavigableAt(92);
    assert NodeKey(RAW[92].id) == "p100";
  }

  lemma Navigable101()
    ensures "p101" in NODES && "p101" in HALLWAY_NODES
  {
    NavigableAt(93);
    assert NodeKey(RAW[93].id) == "p101";
  }

  lemma Navigable107()
    ensures "p107" in NODES && "p107" in HALLWAY_NODES
  {
    NavigableAt(98);
    assert NodeKey(RAW[98].id) == "p107";
  }

  lemma Navigable110()
    ensures "p110" in NODES && "p110" in HALLWAY_NODES
  {
    NavigableAt(99);
    assert NodeKey(RAW[99].id) == "p110";
  }

  lemma Navigable112()
    ensures "p112" in NODES && "p112" in HALLWAY_NODES
  {
    NavigableAt(100);
    assert NodeKey(RAW[100].id) == "p112";
  }

  lemma Navigable118()
    ensures "p118" in NODES && "p118" in HALLWAY_NODES
  {
    NavigableAt(102);
    assert NodeKey(RAW[102].id) == "p118";
  }

  lemma Navigable120()
    ensures "p120" in NODES && "p120" in HALLWAY_NODES
  {
    NavigableAt(103);
    assert NodeKey(RAW[103].id) == "p120";
  }

  lemma Navigable126()
    ensures "p126" in NODES && "p126" in HALLWAY_NODES
  {
    NavigableAt(106);
    assert NodeKey(RAW[106].id) == "p126";
  }

  lemma Navigable127()
    ensures "p127" in NODES && "p127" in HALLWAY_NODES
  {
    NavigableAt(107);
    assert NodeKey(RAW[107].id) == "p127";
  }

  lemma Navigable128()
    ensures "p128" in NODES && "p128" in HALLWAY_NODES
  {
    NavigableAt(108);
    assert NodeKey(RAW[108].id) == "p128";
  }

  lemma Navigable129()
    ensures "p129" in NODES && "p129" in HALLWAY_NODES
  {
    NavigableAt(109);
    assert NodeKey(RAW[109].id) == "p129";
  }

  lemma Navigable130()
    ensures "p130" in NODES && "p130" in HALLWAY_NODES
  {
    NavigableAt(110);
    assert NodeKey(RAW[110].id) == "p130";
  }

  lemma Navigable131()
    ensures "p131" in NODES && "p131" in HALLWAY_NODES
  {
    NavigableAt(111);
    assert NodeKey(RAW[111].id) == "p131";
  }

  lemma Navigable133()
    ensures "p133" in NODES && "p133" in HALLWAY_NODES
  {
    NavigableAt(113);
    assert NodeKey(RAW[113].id) == "p133";
  }

  lemma Navigable134()
    ensures "p134" in NODES && "p134" in HALLWAY_NODES
  {
    NavigableAt(114);
    assert NodeKey(RAW[114].id) == "p134";
  }

  lemma Navigable135()
    ensures "p135" in NODES && "p135" in HALLWAY_NODES
  {
    NavigableAt(115);
    assert NodeKey(RAW[115].id) == "p135";
  }

  lemma Navigable200()
    ensures "p200" in NODES && "p200" in HALLWAY_NODES
  {
    NavigableAt(116);
    assert NodeKey(RAW[116].id) == "p200";
  }

  lemma Navigable201()
    ensures "p201" in NODES && "p201" in HALLWAY_NODES
  {
    NavigableAt(117);
    assert NodeKey(RAW[117].id) == "p201";
  }

  lemma Navigable202()
    ensures "p202" in NODES && "p202" in HALLWAY_NODES
  {
    NavigableAt(118);
    assert NodeKey(RAW[118].id) == "p202";
  }

  lemma Navigable203()
    ensures "p203" in NODES && "p203" in HALLWAY_NODES
  {
    NavigableAt(119);
    assert NodeKey(RAW[119].id) == "p203";
  }

  /** The node ids that occur in EDGES. */
  const EDGE_ENDPOINTS: set<string> := {"p8", "p64", "p95", "p98", "p100", "p101", "p107", "p110", "p112", "p118", "p120", "p126", "p127", "p128", "p129", "p130", "p131", "p133", "p134", "p135", "p200", "p201", "p202", "p203"}

  /** Every edge joins two distinct ids drawn from EDGE_ENDPOINTS. */
  lemma EdgesWithinEndpoints()
    ensures forall e :: e in EDGES ==> e.0 in EDGE_ENDPOINTS && e.1 in EDGE_ENDPOINTS && e.0 != e.1
  {
  }

  /** Every id in EDGE_ENDPOINTS is a navigable NODES key. */
  lemma EndpointsNavigable()
    ensures forall k :: k in EDGE_ENDPOINTS ==> k in NODES && k in HALLWAY_NODES
  {
    Navigable8();
    Navigable64();
    Navigable95();
    Navigable98();
    Navigable100();
    Navigable101();
    Navigable107();
    Navigable110();
    Navigable112();
    Navigable118();
    Navigable120();
    Navigable126();
    Navigable127();
    Navigable128();
    Navigable129();
    Navigable130();
    Navigable131();
    Navigable133();
    Navigable134();
    Navigable135();
    Navigable200();
    Navigable201();
    Navigable202();
    Navigable203();
  }

  /** Every endpoint of every edge is a navigable NODES key, and no edge is a self-loop. */
  lemma EdgesWellFormed()
    ensures forall e :: e in EDGES ==>
              e.0 in NODES && e.1 in NODES && e.0 in HALLWAY_NODES && e.1 in HALLWAY_NODES
              && e.0 != e.1
  {
    EdgesWithinEndpoints();
    EndpointsNavigable();
  }

  /** The entry at index i of RAW is stored in NODES under its key. */
  lemma NodeAt(i: nat)
    requires i < |RAW|
    ensures NodeKey(RAW[i].id) in NODES && NODES[NodeKey(RAW[i].id)] == MakeNode(RAW[i])
  {
    RawIdsIncreasing();
    NodesFromEntry(RAW, i);
  }

  /** Every id in EXITS is a NODES key of an exit node. */
  lemma ExitsAreExitNodes()
    ensures forall k :: k in EXITS ==> k in NODES && NODES[k].kind == Exit
  {
    assert RAW[116].id == 200 && RAW[117].id == 201 && RAW[118].id == 202 && RAW[119].id == 203;
    ExitNodeAt(116, "p200");
    ExitNodeAt(117, "p201");
    ExitNodeAt(118, "p202");
    ExitNodeAt(119, "p203");
  }

  /** An exit entry of RAW is stored in NODES under its key as an exit node. */
  lemma ExitNodeAt(i: nat, key: string)
    requires i < |RAW| && RAW[i].kind == Exit && NodeKey(RAW[i].id) == key
    ensures key in NODES && NODES[key].kind == Exit
  {
    NodeAt(i);
  }
}
