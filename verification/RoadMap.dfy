/**
 The road exporter told by the roads of the map themselves: which node becomes
 which waypoint, which waypoints are linked, and which can be reached.
 */
module RoadMap {
  import opened Bytes
  import opened Decimal
  import opened RoadGraph

  // ---------- numbering ----------

  /** The road and the node are there. */
  predicate Listed(roads: seq<Option<Road>>, i: nat, j: nat)
  {
    i < |roads| && roads[i].Some? && j < |roads[i].value| && roads[i].value[j].Some?
  }

  /** How many nodes of a road are there. */
  function NodeCount(road: Road): nat
  {
    if road == [] then 0 else NodeCount(road[..|road| - 1]) + if road[|road| - 1].Some? then 1 else 0
  }

  /** How many nodes of the roads are there. */
  function MapCount(roads: seq<Option<Road>>): nat
  {
    if roads == [] then 0
    else MapCount(roads[..|roads| - 1]) + if roads[|roads| - 1].Some? then NodeCount(roads[|roads| - 1].value) else 0
  }

  /** How many nodes come before node `j` of road `i`. */
  function Number(roads: seq<Option<Road>>, i: nat, j: nat): nat
    requires Listed(roads, i, j)
  {
    MapCount(roads[..i]) + NodeCount(roads[i].value[..j])
  }

  lemma {:induction false} NodesCounted(road: Road)
    ensures |Nodes(road)| == NodeCount(road)
  {
    if road != [] { NodesCounted(road[..|road| - 1]); }
  }

  lemma {:induction false} NodesAt(road: Road, j: nat)
    requires j < |road| && road[j].Some?
    ensures NodeCount(road[..j]) < |Nodes(road)| && Nodes(road)[NodeCount(road[..j])] == road[j].value
  {
    var n := |road| - 1;
    if j < n {
      NodesAt(road[..n], j);
      assert road[..n][..j] == road[..j];
    } else {
      NodesCounted(road[..n]);
    }
  }

  lemma {:induction false} MapCounted(roads: seq<Option<Road>>)
    ensures |Flatten(Present(roads))| == |Labels(Present(roads))| == MapCount(roads)
  {
    if roads != [] {
      var front, last := roads[..|roads| - 1], roads[|roads| - 1];
      MapCounted(front);
      if last.Some? {
        OneMoreRoad(Present(front), Nodes(last.value));
        LabelsNext(Present(front), Nodes(last.value));
        NodesCounted(last.value);
      } else {
        assert Present(front) + [] == Present(front);
      }
    }
  }

  /** The place among the present roads, counted from 0. */
  function Place(roads: seq<Option<Road>>, i: nat): nat
    requires i <= |roads|
  {
    |Present(roads[..i])|
  }

  /** The last road, if it is there, adds its nodes and their labels at the end. */
  lemma LastRoad(roads: seq<Option<Road>>)
    requires roads != []
    ensures var front, last := Present(roads[..|roads| - 1]), roads[|roads| - 1];
            var nodes := if last.Some? then Nodes(last.value) else [];
            && Flatten(Present(roads)) == Flatten(front) + nodes
            && Labels(Present(roads)) == Labels(front) + Repeat(Label(|front|, Gaps(front)), |nodes|)
  {
    var front, last := Present(roads[..|roads| - 1]), roads[|roads| - 1];
    if last.Some? {
      OneMoreRoad(front, Nodes(last.value));
      LabelsNext(front, Nodes(last.value));
    } else {
      assert front + [] == front && Flatten(front) + [] == Flatten(front);
      assert Labels(front) + Repeat(Label(|front|, Gaps(front)), 0) == Labels(front);
    }
  }

  /** The node of a number, and the place of its road. */
  lemma {:induction false} NodePlaced(roads: seq<Option<Road>>, i: nat, j: nat)
    requires Listed(roads, i, j)
    ensures var n, rs := Number(roads, i, j), Present(roads);
            && n < MapCount(roads) == |Flatten(rs)| == |Labels(rs)|
            && Flatten(rs)[n] == roads[i].value[j].value
            && Labels(rs)[n].road == Place(roads, i)
  {
    var k := |roads| - 1;
    var front := roads[..k];
    MapCounted(roads);
    MapCounted(front);
    LastRoad(roads);
    if i < k {
      NodePlaced(front, i, j);
      assert front[..i] == roads[..i];
    } else {
      LastNodePlaced(roads, j);
    }
  }

  lemma LastNodePlaced(roads: seq<Option<Road>>, j: nat)
    requires roads != [] && Listed(roads, |roads| - 1, j)
    ensures var n, rs := Number(roads, |roads| - 1, j), Present(roads);
            && n < |Flatten(rs)| == |Labels(rs)|
            && Flatten(rs)[n] == roads[|roads| - 1].value[j].value
            && Labels(rs)[n].road == Place(roads, |roads| - 1)
  {
    var front, last := roads[..|roads| - 1], roads[|roads| - 1].value;
    MapCounted(front);
    LastRoad(roads);
    NodesAt(last, j);
    BehindAt(Flatten(Present(front)), Nodes(last), NodeCount(last[..j]));
    LastRoadLabel(Labels(Present(front)), Label(|Present(front)|, Gaps(Present(front))), |Nodes(last)|,
                  NodeCount(last[..j]));
  }

  lemma BehindAt<T>(a: seq<T>, b: seq<T>, k: nat)
    requires k < |b|
    ensures (a + b)[|a| + k] == b[k]
  {
  }

  lemma LastRoadLabel(ls: seq<Label>, l: Label, n: nat, k: nat)
    requires k < n
    ensures (ls + Repeat(l, n))[|ls| + k] == l
  {
    RepeatAt(l, n);
  }

  /** Every number below the count is the number of a node. */
  lemma {:induction false} NumberIsOfNode(roads: seq<Option<Road>>, n: nat) returns (i: nat, j: nat)
    requires n < MapCount(roads)
    ensures Listed(roads, i, j) && Number(roads, i, j) == n
  {
    var k := |roads| - 1;
    var front := roads[..k];
    if n < MapCount(front) {
      i, j := NumberIsOfNode(front, n);
      assert front[..i] == roads[..i];
    } else {
      i := k;
      j := NodeOfCount(roads[k].value, n - MapCount(front));
    }
  }

  lemma {:induction false} NodeOfCount(road: Road, n: nat) returns (j: nat)
    requires n < NodeCount(road)
    ensures j < |road| && road[j].Some? && NodeCount(road[..j]) == n
  {
    var k := |road| - 1;
    if n < NodeCount(road[..k]) {
      j := NodeOfCount(road[..k], n);
      assert road[..k][..j] == road[..j];
    } else {
      j := k;
    }
  }

  // ---------- the order of the numbers ----------

  lemma {:induction false} NodeCountGrows(road: Road, a: nat, b: nat)
    requires a <= b <= |road|
    ensures NodeCount(road[..a]) <= NodeCount(road[..b])
    ensures a < b && road[a].Some? ==> NodeCount(road[..a]) < NodeCount(road[..b])
    decreases b - a
  {
    if a < b {
      NodeCountGrows(road, a, b - 1);
      assert road[..b][..b - 1] == road[..b - 1];
    }
  }

  lemma {:induction false} MapCountGrows(roads: seq<Option<Road>>, a: nat, b: nat)
    requires a <= b <= |roads|
    ensures MapCount(roads[..a]) <= MapCount(roads[..b])
    decreases b - a
  {
    if a < b {
      MapCountGrows(roads, a, b - 1);
      assert roads[..b][..b - 1] == roads[..b - 1];
    }
  }

  lemma NextRoad(roads: seq<Option<Road>>, i: nat)
    requires i < |roads| && roads[i].Some?
    ensures MapCount(roads[..i + 1]) == MapCount(roads[..i]) + NodeCount(roads[i].value)
    ensures Present(roads[..i + 1]) == Present(roads[..i]) + [Nodes(roads[i].value)]
  {
    assert roads[..i + 1][..i] == roads[..i];
  }

  /** Numbers follow the order of roads and nodes, so no two nodes have one. */
  lemma NumbersInOrder(roads: seq<Option<Road>>, i: nat, j: nat, i': nat, j': nat)
    requires Listed(roads, i, j) && Listed(roads, i', j')
    requires i < i' || (i == i' && j < j')
    ensures Number(roads, i, j) < Number(roads, i', j')
  {
    NodeCountGrows(roads[i].value, j, if i == i' then j' else |roads[i].value|);
    if i < i' {
      var r := roads[i].value;
      assert r[..|r|] == r;
      NextRoad(roads, i);
      MapCountGrows(roads, i + 1, i');
    }
  }

  /** As many waypoints are exported as nodes are there. */
  lemma MapSize(roads: seq<Option<Road>>, wps: seq<Waypoint>)
    requires PositionsOf(wps) == Flatten(Present(roads))
    ensures |wps| == MapCount(roads)
  {
    MapCounted(roads);
  }

  /** Each waypoint exported stands for one of the nodes. */
  lemma MapExported(roads: seq<Option<Road>>, wps: seq<Waypoint>, k: nat) returns (i: nat, j: nat)
    requires PositionsOf(wps) == Flatten(Present(roads)) && k < |wps|
    ensures |wps| == MapCount(roads)
    ensures Listed(roads, i, j) && Number(roads, i, j) == k && wps[k].pos == roads[i].value[j].value
  {
    MapCounted(roads);
    i, j := NumberIsOfNode(roads, k);
    NodeExported(roads, wps, i, j);
  }

  /** Every node that is there is exported, under the number of nodes before it and with its position. */
  lemma NodeExported(roads: seq<Option<Road>>, wps: seq<Waypoint>, i: nat, j: nat)
    requires PositionsOf(wps) == Flatten(Present(roads)) && Listed(roads, i, j)
    ensures Number(roads, i, j) < |wps| == MapCount(roads)
    ensures wps[Number(roads, i, j)].pos == roads[i].value[j].value
  {
    NodePlaced(roads, i, j);
    PositionAt(wps, Number(roads, i, j));
  }

  lemma {:induction false} PositionAt(wps: seq<Waypoint>, k: nat)
    requires k < |wps|
    ensures PositionsOf(wps)[k] == wps[k].pos
  {
    if k < |wps| - 1 { PositionAt(wps[..|wps| - 1], k); }
  }

  // ---------- gaps between roads ----------

  /** No road that is there between the two lacks nodes. */
  ghost predicate NoGap(roads: seq<Option<Road>>, i: nat, i': nat)
    requires i' <= |roads|
  {
    forall m | i < m < i' :: roads[m].Some? ==> NodeCount(roads[m].value) > 0
  }

  lemma {:induction false} PlacesGrow(roads: seq<Option<Road>>, a: nat, b: nat)
    requires a <= b <= |roads|
    ensures Place(roads, a) <= Place(roads, b) <= |Present(roads)|
    ensures a < b && roads[a].Some? ==> Place(roads, a) < Place(roads, b)
    ensures Present(roads)[..Place(roads, b)] == Present(roads[..b])
    decreases b - a
  {
    PresentFront(roads, b);
    if a < b {
      PlacesGrow(roads, a, b - 1);
      assert roads[..b][..b - 1] == roads[..b - 1];
    }
  }

  lemma {:induction false} PresentFront(roads: seq<Option<Road>>, b: nat)
    requires b <= |roads|
    ensures |Present(roads[..b])| <= |Present(roads)| && Present(roads)[..|Present(roads[..b])|] == Present(roads[..b])
    decreases |roads| - b
  {
    if b == |roads| {
      assert roads[..b] == roads;
    } else {
      PresentFront(roads, b + 1);
      assert roads[..b + 1][..b] == roads[..b];
    }
  }

  /** A road that is there stands at its place among the present ones. */
  lemma PresentAt(roads: seq<Option<Road>>, m: nat)
    requires m < |roads| && roads[m].Some?
    ensures Place(roads, m) < |Present(roads)| && Present(roads)[Place(roads, m)] == Nodes(roads[m].value)
  {
    NextRoad(roads, m);
    PresentFront(roads, m + 1);
    assert Present(roads)[..Place(roads, m + 1)][Place(roads, m)] == Nodes(roads[m].value);
  }

  /** Every place is that of a road. */
  lemma {:induction false} RoadOfPlace(roads: seq<Option<Road>>, r: nat) returns (m: nat)
    requires r < |Present(roads)|
    ensures m < |roads| && roads[m].Some? && Place(roads, m) == r
  {
    var k := |roads| - 1;
    if r < |Present(roads[..k])| {
      m := RoadOfPlace(roads[..k], r);
      assert roads[..k][..m] == roads[..m];
    } else {
      m := k;
    }
  }

  lemma PlacesCompare(roads: seq<Option<Road>>, a: nat, b: nat)
    requires a < |roads| && b < |roads| && roads[a].Some? && roads[b].Some?
    ensures Place(roads, a) < Place(roads, b) <==> a < b
    ensures Place(roads, a) == Place(roads, b) <==> a == b
  {
    if a < b {
      PlacesGrow(roads, a, b);
    } else {
      PlacesGrow(roads, b, a);
    }
  }

  lemma NoGapIff(roads: seq<Option<Road>>, i: nat, i': nat)
    requires i < |roads| && i' < |roads| && roads[i].Some? && roads[i'].Some?
    ensures NoGap(roads, i, i')
            <==> var rs := Present(roads);
                 forall r :: Place(roads, i) < r < Place(roads, i') && r < |rs| ==> rs[r] != []
  {
    var rs := Present(roads);
    if NoGap(roads, i, i') {
      forall r | Place(roads, i) < r < Place(roads, i') && r < |rs| ensures rs[r] != [] {
        var m := RoadOfPlace(roads, r);
        PlacesCompare(roads, i, m);
        PlacesCompare(roads, m, i');
        PresentAt(roads, m);
        NodesCounted(roads[m].value);
      }
    }
    if forall r :: Place(roads, i) < r < Place(roads, i') && r < |rs| ==> rs[r] != [] {
      forall m | i < m < i' && roads[m].Some? ensures NodeCount(roads[m].value) > 0 {
        PlacesCompare(roads, i, m);
        PlacesCompare(roads, m, i');
        PresentAt(roads, m);
        NodesCounted(roads[m].value);
      }
    }
  }

  // ---------- links and reachability ----------

  /**
   Reachability on the map, exactly: along the links of the exported waypoints one
   gets from node `j` of road `i` to node `j'` of road `i'` if it is the same road, or a
   later one and no road that is there between them lacks nodes.
   */
  lemma MapReachesIff(roads: seq<Option<Road>>, wps: seq<Waypoint>, i: nat, j: nat, i': nat, j': nat)
    requires LinksOf(wps) == Graph(Labels(Present(roads)))
    requires Listed(roads, i, j) && Listed(roads, i', j')
    ensures (exists p :: Walk(wps, p) && p[0] == Number(roads, i, j) && p[|p| - 1] == Number(roads, i', j'))
            <==> i == i' || (i < i' && NoGap(roads, i, i'))
  {
    var rs, a, b := Present(roads), Number(roads, i, j), Number(roads, i', j');
    NodePlaced(roads, i, j);
    NodePlaced(roads, i', j');
    WaypointLinks(wps, rs);
    ExportedReachesIff(wps, rs, a, b);
    PlacesCompare(roads, i, i');
    NoGapIff(roads, i, i');
    if i < i' { NumbersInOrder(roads, i, j, i', j'); }
    if i' < i { NumbersInOrder(roads, i', j', i, j); }
  }

  /**
   The links on the map, exactly: a waypoint is linked with its neighbours on its own
   road, both ways, and with the next waypoint if that is on a later road and no road
   that is there between them lacks nodes.
   */
  lemma MapLinksIff(roads: seq<Option<Road>>, wps: seq<Waypoint>, i: nat, j: nat, i': nat, j': nat)
    requires LinksOf(wps) == Graph(Labels(Present(roads)))
    requires Listed(roads, i, j) && Listed(roads, i', j')
    ensures Number(roads, i, j) < |wps|
    ensures var a, b := Number(roads, i, j), Number(roads, i', j');
            b in wps[a].links
            <==> (i == i' && (b == a + 1 || a == b + 1)) || (i < i' && b == a + 1 && NoGap(roads, i, i'))
  {
    var rs, a, b := Present(roads), Number(roads, i, j), Number(roads, i', j');
    NodePlaced(roads, i, j);
    NodePlaced(roads, i', j');
    WaypointLinks(wps, rs);
    PlacesCompare(roads, i, i');
    NoGapIff(roads, i, i');
    LabelsAreOrdered(rs);
    if i < i' { NumbersInOrder(roads, i, j, i', j'); }
    if i' < i { NumbersInOrder(roads, i', j', i, j); }
    LinkedIff(rs, a, b);
  }

  lemma LinkedIff(rs: seq<seq<Node>>, a: nat, b: nat)
    requires a < |Labels(rs)| && b < |Labels(rs)|
    ensures var from, to := Labels(rs)[a].road, Labels(rs)[b].road;
            b in LinksAt(Labels(rs), a)
            <==> (from == to && (b == a + 1 || a == b + 1))
                 || (from != to && b == a + 1 && forall r :: from < r < to && r < |rs| ==> rs[r] != [])
  {
    LabelsAreOrdered(rs);
    WithinIff(rs, a, b);
  }

  /** A waypoint is exported under "wp_" and its number in decimal. */
  lemma NameTells(k: nat)
    ensures Name(k)[..3] == [0x77, 0x70, 0x5F] && AllDigits(Name(k)[3..]) && Value(Name(k)[3..]) == k
  {
    assert Name(k)[3..] == Digits(k);
    ValueDigits(k);
  }
}
