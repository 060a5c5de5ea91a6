/**
 The road exporter's fallback: it walks the nodes of every road, numbers them as
 waypoints, links neighbours on a road both ways, and links the end of a road to
 the start of the next one forward.
 */
module RoadGraph {
  import opened Bytes
  import opened Decimal

  datatype Node = Node(x: real, y: real, z: real)

  datatype Waypoint = Waypoint(pos: Node, links: seq<nat>)

  /** A road of the scene lists its nodes, some of which may be missing; the road may be missing itself. */
  type Road = seq<Option<Node>>

  function Nodes(road: Road): seq<Node>
  {
    if road == [] then []
    else Nodes(road[..|road| - 1])
         + match road[|road| - 1]
           case None => []
           case Some(n) => [n]
  }

  /** The roads that are there, as lists of the nodes that are there. */
  function Present(roads: seq<Option<Road>>): seq<seq<Node>>
  {
    if roads == [] then []
    else Present(roads[..|roads| - 1])
         + match roads[|roads| - 1]
           case None => []
           case Some(r) => [Nodes(r)]
  }

  // ---------- the graph told by labels ----------

  /** Which road a waypoint is on, and how many empty roads come before it. */
  datatype Label = Label(road: nat, gaps: nat)

  function Gaps(rs: seq<seq<Node>>): nat
  {
    if rs == [] then 0 else Gaps(rs[..|rs| - 1]) + if rs[|rs| - 1] == [] then 1 else 0
  }

  function Repeat(l: Label, n: nat): (s: seq<Label>)
    ensures |s| == n
  {
    if n == 0 then [] else Repeat(l, n - 1) + [l]
  }

  lemma {:induction false} RepeatAt(l: Label, n: nat)
    ensures forall i :: 0 <= i < n ==> Repeat(l, n)[i] == l
  {
    if n > 0 { RepeatAt(l, n - 1); }
  }

  /** One label for every waypoint, in the order of their numbers. */
  function Labels(rs: seq<seq<Node>>): seq<Label>
  {
    if rs == [] then []
    else
      var before := rs[..|rs| - 1];
      Labels(before) + Repeat(Label(|before|, Gaps(before)), |rs[|rs| - 1]|)
  }

  /** Back on the same road; forward unless an empty road lies between. */
  function LinksAt(ls: seq<Label>, k: nat): seq<nat>
    requires k < |ls|
  {
    (if k > 0 && ls[k - 1].road == ls[k].road then [k - 1] else [])
    + (if k + 1 < |ls| && ls[k + 1].gaps == ls[k].gaps then [k + 1] else [])
  }

  /** The links of the first `n` waypoints. */
  function GraphUpTo(ls: seq<Label>, n: nat): seq<seq<nat>>
    requires n <= |ls|
  {
    if n == 0 then [] else GraphUpTo(ls, n - 1) + [LinksAt(ls, n - 1)]
  }

  function Graph(ls: seq<Label>): seq<seq<nat>>
  {
    GraphUpTo(ls, |ls|)
  }

  lemma {:induction false} GraphAt(ls: seq<Label>, n: nat)
    requires n <= |ls|
    ensures |GraphUpTo(ls, n)| == n
    ensures forall k :: 0 <= k < n ==> GraphUpTo(ls, n)[k] == LinksAt(ls, k)
  {
    if n > 0 { GraphAt(ls, n - 1); }
  }

  // ---------- how the graph grows ----------

  /** A label that continues neither the road nor the stretch of the last one. */
  ghost predicate Apart(ls: seq<Label>, l: Label)
  {
    ls != [] ==> ls[|ls| - 1].road != l.road && ls[|ls| - 1].gaps != l.gaps
  }

  /** One more waypoint apart from the others has no links yet. */
  lemma AppendApart(ls: seq<Label>, l: Label)
    requires Apart(ls, l)
    ensures Graph(ls + [l]) == Graph(ls) + [[]]
  {
    GraphAt(ls, |ls|);
    GraphAt(ls + [l], |ls| + 1);
    forall i | 0 <= i < |ls| ensures LinksAt(ls + [l], i) == LinksAt(ls, i) { }
    assert LinksAt(ls + [l], |ls|) == [];
  }

  /** One more waypoint on the same road is linked with the last one both ways. */
  lemma AppendNext(ls: seq<Label>, l: Label)
    requires ls != [] && ls[|ls| - 1] == l
    ensures var g, k := Graph(ls), |ls|;
            |g| == k && Graph(ls + [l]) == g[k - 1 := g[k - 1] + [k]] + [[k - 1]]
  {
    var g, k := Graph(ls), |ls|;
    GraphAt(ls, k);
    GraphAt(ls + [l], k + 1);
    forall i | 0 <= i < k - 1 ensures LinksAt(ls + [l], i) == LinksAt(ls, i) { }
    assert LinksAt(ls + [l], k - 1) == LinksAt(ls, k - 1) + [k];
    assert LinksAt(ls + [l], k) == [k - 1];
  }

  /** One more node of a road that is apart from the roads before it. */
  lemma AddNode(ls: seq<Label>, l: Label, m: nat)
    requires Apart(ls, l)
    ensures var g, k := Graph(ls + Repeat(l, m)), |ls| + m;
            |g| == k &&
            Graph(ls + Repeat(l, m + 1)) == if m == 0 then g + [[]] else g[k - 1 := g[k - 1] + [k]] + [[k - 1]]
  {
    Associates(ls, Repeat(l, m), [l]);
    if m == 0 {
      assert ls + Repeat(l, 0) == ls;
      GraphAt(ls, |ls|);
      AppendApart(ls, l);
    } else {
      AppendNext(ls + Repeat(l, m), l);
    }
  }

  /** One more waypoint on the next road is linked forward only. */
  lemma AppendAcross(ls: seq<Label>, l: Label)
    requires ls != [] && ls[|ls| - 1].road != l.road && ls[|ls| - 1].gaps == l.gaps
    ensures var g, k := Graph(ls), |ls|;
            |g| == k && Graph(ls + [l]) == g[k - 1 := g[k - 1] + [k]] + [[]]
  {
    var g, k := Graph(ls), |ls|;
    GraphAt(ls, k);
    GraphAt(ls + [l], k + 1);
    forall i | 0 <= i < k - 1 ensures LinksAt(ls + [l], i) == LinksAt(ls, i) { }
    assert LinksAt(ls + [l], k - 1) == LinksAt(ls, k - 1) + [k];
    assert LinksAt(ls + [l], k) == [];
  }

  lemma UpdatesCommute(g: seq<seq<nat>>, i: nat, x: seq<nat>, j: nat, y: seq<nat>, t: seq<seq<nat>>)
    requires i < j < |g|
    ensures g[i := x][j := y] + t == (g[j := y] + t)[i := x]
  {
  }

  /** A road apart from those before it looks the same under any such label. */
  lemma {:induction false} RelabelApart(ls: seq<Label>, l: Label, l': Label, m: nat)
    requires Apart(ls, l) && Apart(ls, l')
    ensures Graph(ls + Repeat(l', m)) == Graph(ls + Repeat(l, m))
  {
    if m == 0 {
      assert Repeat(l, m) == Repeat(l', m);
    } else {
      RelabelApart(ls, l, l', m - 1);
      AddNode(ls, l, m - 1);
      AddNode(ls, l', m - 1);
    }
  }

  /** Connecting a road that was apart adds the one link to its first waypoint. */
  lemma {:induction false} RelabelConnected(ls: seq<Label>, l: Label, l': Label, m: nat)
    requires Apart(ls, l) && ls != [] && m > 0
    requires ls[|ls| - 1].road != l'.road && ls[|ls| - 1].gaps == l'.gaps
    ensures var n, pending := |ls|, Graph(ls + Repeat(l, m));
            |pending| == n + m && Graph(ls + Repeat(l', m)) == pending[n - 1 := pending[n - 1] + [n]]
  {
    var n := |ls|;
    AddNode(ls, l, m - 1);
    if m == 1 {
      FirstOfRoad(ls, l, l');
    } else {
      RelabelConnected(ls, l, l', m - 1);
      Associates(ls, Repeat(l', m - 1), [l']);
      AppendNext(ls + Repeat(l', m - 1), l');
      var g, k := Graph(ls + Repeat(l, m - 1)), n + m - 1;
      UpdatesCommute(g, n - 1, g[n - 1] + [n], k - 1, g[k - 1] + [k], [[k - 1]]);
    }
  }

  lemma FirstOfRoad(ls: seq<Label>, l: Label, l': Label)
    requires Apart(ls, l) && ls != []
    requires ls[|ls| - 1].road != l'.road && ls[|ls| - 1].gaps == l'.gaps
    ensures var n, pending := |ls|, Graph(ls + Repeat(l, 1));
            |pending| == n + 1 && Graph(ls + Repeat(l', 1)) == pending[n - 1 := pending[n - 1] + [n]]
  {
    assert Repeat(l, 1) == [l] && Repeat(l', 1) == [l'];
    AppendApart(ls, l);
    AppendAcross(ls, l');
  }

  /** The label of a road's waypoints before the road is connected to the previous one. */
  function Pending(rs: seq<seq<Node>>): Label
  {
    Label(|rs|, Gaps(rs) + 1)
  }

  /** The number of the last waypoint, if the last road has any. */
  function LastOf(rs: seq<seq<Node>>): Option<nat>
  {
    if rs != [] && rs[|rs| - 1] != [] && |Labels(rs)| > 0 then Some(|Labels(rs)| - 1) else None
  }

  /** Every label names a non-empty road and counts the empty ones before it; roads come in order. */
  lemma {:induction false} LabelBounds(rs: seq<seq<Node>>)
    ensures forall k :: 0 <= k < |Labels(rs)| ==>
              var l := Labels(rs)[k];
              l.road < |rs| && rs[l.road] != [] && l.gaps == Gaps(rs[..l.road]) && l.gaps <= Gaps(rs)
    ensures forall j, k :: 0 <= j < k < |Labels(rs)| ==> Labels(rs)[j].road <= Labels(rs)[k].road
  {
    if rs != [] {
      var before := rs[..|rs| - 1];
      LabelBounds(before);
      RepeatAt(Label(|before|, Gaps(before)), |rs[|rs| - 1]|);
      forall k | 0 <= k < |Labels(rs)|
        ensures var l := Labels(rs)[k];
                l.road < |rs| && rs[l.road] != [] && l.gaps == Gaps(rs[..l.road]) && l.gaps <= Gaps(rs)
      {
        if k < |Labels(before)| {
          var l := Labels(before)[k];
          assert Labels(rs)[k] == l && rs[..l.road] == before[..l.road];
        } else {
          assert Labels(rs)[k] == Label(|before|, Gaps(before));
        }
      }
    }
  }

  /** Whether the last road can be continued is told by the gaps of the last label. */
  lemma LastLabel(rs: seq<seq<Node>>)
    ensures Apart(Labels(rs), Pending(rs))
    ensures Labels(rs) != [] ==> Labels(rs)[|Labels(rs)| - 1].road < |rs|
    ensures LastOf(rs).Some? <==> Labels(rs) != [] && Labels(rs)[|Labels(rs)| - 1].gaps == Gaps(rs)
    ensures LastOf(rs).Some? <==> rs != [] && rs[|rs| - 1] != []
  {
    LabelBounds(rs);
    if rs != [] { LabelBounds(rs[..|rs| - 1]); }
  }

  /** Connecting a finished road adds the one link forward, if neither side is empty. */
  lemma Connect(rs: seq<seq<Node>>, nodes: seq<Node>)
    requires LastOf(rs).Some? && nodes != []
    ensures var pending, n := Graph(Labels(rs) + Repeat(Pending(rs), |nodes|)), |Labels(rs)|;
            |pending| == n + |nodes| && Graph(Labels(rs + [nodes])) == pending[n - 1 := pending[n - 1] + [n]]
  {
    LastLabel(rs);
    LabelsNext(rs, nodes);
    RelabelConnected(Labels(rs), Pending(rs), Label(|rs|, Gaps(rs)), |nodes|);
  }

  /** Otherwise there is nothing to connect. */
  lemma NoConnection(rs: seq<seq<Node>>, nodes: seq<Node>)
    requires LastOf(rs).None? || nodes == []
    ensures Graph(Labels(rs + [nodes])) == Graph(Labels(rs) + Repeat(Pending(rs), |nodes|))
  {
    LabelsNext(rs, nodes);
    StaysApart(rs, |nodes|);
  }

  lemma LabelsNext(rs: seq<seq<Node>>, nodes: seq<Node>)
    ensures Labels(rs + [nodes]) == Labels(rs) + Repeat(Label(|rs|, Gaps(rs)), |nodes|)
  {
    assert (rs + [nodes])[..|rs|] == rs;
  }

  lemma StaysApart(rs: seq<seq<Node>>, m: nat)
    requires m == 0 || LastOf(rs).None?
    ensures Graph(Labels(rs) + Repeat(Label(|rs|, Gaps(rs)), m)) == Graph(Labels(rs) + Repeat(Pending(rs), m))
  {
    LastLabel(rs);
    if m == 0 {
      assert Repeat(Label(|rs|, Gaps(rs)), 0) == Repeat(Pending(rs), 0);
    } else {
      RelabelApart(Labels(rs), Pending(rs), Label(|rs|, Gaps(rs)), m);
    }
  }

  // ---------- the exporter ----------

  function LinksOf(wps: seq<Waypoint>): (g: seq<seq<nat>>)
    ensures |g| == |wps|
  {
    if wps == [] then [] else LinksOf(wps[..|wps| - 1]) + [wps[|wps| - 1].links]
  }

  function PositionsOf(wps: seq<Waypoint>): (p: seq<Node>)
    ensures |p| == |wps|
  {
    if wps == [] then [] else PositionsOf(wps[..|wps| - 1]) + [wps[|wps| - 1].pos]
  }

  function AddLink(wps: seq<Waypoint>, k: nat, to: nat): seq<Waypoint>
    requires k < |wps|
  {
    wps[k := wps[k].(links := wps[k].links + [to])]
  }

  lemma {:induction false} AddLinkAdds(wps: seq<Waypoint>, k: nat, to: nat)
    requires k < |wps|
    ensures LinksOf(AddLink(wps, k, to)) == LinksOf(wps)[k := LinksOf(wps)[k] + [to]]
    ensures PositionsOf(AddLink(wps, k, to)) == PositionsOf(wps)
  {
    var n := |wps| - 1;
    if k < n {
      AddLinkAdds(wps[..n], k, to);
      assert AddLink(wps, k, to)[..n] == AddLink(wps[..n], k, to);
    } else {
      assert AddLink(wps, k, to)[..n] == wps[..n];
    }
  }

  lemma AppendWaypoint(wps: seq<Waypoint>, w: Waypoint)
    ensures LinksOf(wps + [w]) == LinksOf(wps) + [w.links]
    ensures PositionsOf(wps + [w]) == PositionsOf(wps) + [w.pos]
  {
    assert (wps + [w])[..|wps|] == wps;
  }

  /** One node: a waypoint linked both ways with the last one of its road, if there is one. */
  method AddWaypoint(before: seq<Waypoint>, last: Option<nat>, node: Node,
                     ghost ls: seq<Label>, ghost l: Label, ghost m: nat)
    returns (wps: seq<Waypoint>)
    requires Apart(ls, l) && LinksOf(before) == Graph(ls + Repeat(l, m))
    requires last == if m == 0 then None else Some(|ls| + m - 1)
    ensures LinksOf(wps) == Graph(ls + Repeat(l, m + 1))
    ensures PositionsOf(wps) == PositionsOf(before) + [node]
  {
    var id := |before|;
    AddNode(ls, l, m);
    if last.Some? {
      AddLinkAdds(before, last.value, id);
      AppendWaypoint(AddLink(before, last.value, id), Waypoint(node, [last.value]));
      wps := AddLink(before, last.value, id) + [Waypoint(node, [last.value])];
    } else {
      AppendWaypoint(before, Waypoint(node, []));
      wps := before + [Waypoint(node, [])];
    }
  }

  /** The waypoints while a road is being walked: `nodes` are those of its nodes made so far. */
  ghost predicate Walking(before: seq<Waypoint>, ls: seq<Label>, l: Label, nodes: seq<Node>,
                          wps: seq<Waypoint>, first: Option<nat>, last: Option<nat>)
  {
    && LinksOf(wps) == Graph(ls + Repeat(l, |nodes|))
    && PositionsOf(wps) == PositionsOf(before) + nodes
    && first == (if nodes == [] then None else Some(|before|))
    && last == (if nodes == [] then None else Some(|before| + |nodes| - 1))
  }

  method WalkOn(before: seq<Waypoint>, ghost ls: seq<Label>, ghost l: Label, ghost nodes: seq<Node>,
                made: seq<Waypoint>, first: Option<nat>, last: Option<nat>, node: Node)
    returns (wps: seq<Waypoint>, first': Option<nat>, last': Option<nat>)
    requires |before| == |ls| && Apart(ls, l) && Walking(before, ls, l, nodes, made, first, last)
    ensures Walking(before, ls, l, nodes + [node], wps, first', last')
  {
    var id := |made|;
    Associates(PositionsOf(before), nodes, [node]);
    wps := AddWaypoint(made, last, node, ls, l, |nodes|);
    first' := if first == None then Some(id) else first;
    last' := Some(id);
  }

  /** The nodes of one road, linked among themselves only; the numbers of its first and last waypoint. */
  method AddRoad(before: seq<Waypoint>, road: Road, ghost ls: seq<Label>, ghost l: Label)
    returns (wps: seq<Waypoint>, first: Option<nat>, last: Option<nat>)
    requires LinksOf(before) == Graph(ls) && Apart(ls, l)
    ensures Walking(before, ls, l, Nodes(road), wps, first, last)
  {
    wps, first, last := before, None, None;
    assert ls + Repeat(l, 0) == ls;
    assert PositionsOf(before) + [] == PositionsOf(before);
    GraphAt(ls, |ls|);
    for j := 0 to |road|
      invariant Walking(before, ls, l, Nodes(road[..j]), wps, first, last)
    {
      assert road[..j + 1][..j] == road[..j];
      if road[j].Some? {
        wps, first, last := WalkOn(before, ls, l, Nodes(road[..j]), wps, first, last, road[j].value);
      } else {
        assert Nodes(road[..j]) + [] == Nodes(road[..j]);
      }
    }
    assert road[..|road|] == road;
  }

  /** Waypoints are numbered as they are made; a waypoint's number is its place in the result. */
  method Export(roads: seq<Option<Road>>) returns (wps: seq<Waypoint>)
    ensures LinksOf(wps) == Graph(Labels(Present(roads)))
    ensures PositionsOf(wps) == Flatten(Present(roads))
  {
    wps := [];
    var prevLast: Option<nat> := None;
    ghost var rs: seq<seq<Node>> := [];
    for i := 0 to |roads|
      invariant rs == Present(roads[..i])
      invariant LinksOf(wps) == Graph(Labels(rs)) && PositionsOf(wps) == Flatten(rs) && prevLast == LastOf(rs)
    {
      assert roads[..i + 1][..i] == roads[..i];
      if roads[i].Some? {
        wps, prevLast := ExportRoad(wps, prevLast, roads[i].value, rs);
        rs := rs + [Nodes(roads[i].value)];
      } else {
        assert rs + [] == rs;
      }
    }
    assert roads[..|roads|] == roads;
  }

  lemma OneMoreRoad(rs: seq<seq<Node>>, nodes: seq<Node>)
    ensures Flatten(rs + [nodes]) == Flatten(rs) + nodes
    ensures LastOf(rs + [nodes]) == if nodes == [] then None else Some(|Labels(rs)| + |nodes| - 1)
  {
    assert (rs + [nodes])[..|rs|] == rs;
    FlattenAppend(rs, [nodes]);
    FlattenOne(nodes);
  }

  lemma FlattenOne<T>(s: seq<T>)
    ensures Flatten([s]) == s
  {
    assert Flatten([s]) == s + Flatten<T>([]);
  }

  /** One road: its waypoints, and the link that connects it to the road before. */
  method ExportRoad(before: seq<Waypoint>, prevLast: Option<nat>, road: Road, ghost rs: seq<seq<Node>>)
    returns (wps: seq<Waypoint>, last: Option<nat>)
    requires LinksOf(before) == Graph(Labels(rs)) && PositionsOf(before) == Flatten(rs)
    requires prevLast == LastOf(rs)
    ensures LinksOf(wps) == Graph(Labels(rs + [Nodes(road)]))
    ensures PositionsOf(wps) == Flatten(rs + [Nodes(road)])
    ensures last == LastOf(rs + [Nodes(road)])
  {
    ghost var nodes := Nodes(road);
    LastLabel(rs);
    OneMoreRoad(rs, nodes);
    GraphAt(Labels(rs), |Labels(rs)|);
    var first;
    wps, first, last := AddRoad(before, road, Labels(rs), Pending(rs));
    if !(prevLast.Some? && first.Some?) {
      NoConnection(rs, nodes);
    } else {
      Connect(rs, nodes);
      AddLinkAdds(wps, prevLast.value, first.value);
      wps := AddLink(wps, prevLast.value, first.value);
    }
  }

  // ---------- links ----------

  /**
   Every link names a waypoint. On one road links are symmetric; from road to road
   there is a single link forward, with nothing back.
   */
  lemma LinksAreSound(rs: seq<seq<Node>>, k: nat, j: nat)
    requires k < |Labels(rs)| && j in LinksAt(Labels(rs), k)
    ensures j < |Labels(rs)|
    ensures Labels(rs)[j].road == Labels(rs)[k].road ==> k in LinksAt(Labels(rs), j)
    ensures Labels(rs)[j].road != Labels(rs)[k].road ==>
              j == k + 1 && k !in LinksAt(Labels(rs), j) && Labels(rs)[k].road < Labels(rs)[j].road
  {
    LabelBounds(rs);
  }

  // ---------- reachability ----------

  ghost predicate Path(ls: seq<Label>, p: seq<nat>)
  {
    && p != []
    && (forall i :: 0 <= i < |p| ==> p[i] < |ls|)
    && (forall i :: 0 <= i < |p| - 1 ==> p[i + 1] in LinksAt(ls, p[i]))
  }

  ghost predicate Reaches(ls: seq<Label>, a: nat, b: nat)
  {
    exists p :: Path(ls, p) && p[0] == a && p[|p| - 1] == b
  }

  /** What one can reach: one's own road, and later waypoints before the next gap. */
  ghost predicate Within(ls: seq<Label>, a: nat, b: nat)
    requires a < |ls| && b < |ls|
  {
    ls[a].road == ls[b].road || (a <= b && ls[a].gaps == ls[b].gaps)
  }

  ghost predicate Ordered(ls: seq<Label>)
  {
    && (forall j, k :: 0 <= j < k < |ls| ==> ls[j].road <= ls[k].road && ls[j].gaps <= ls[k].gaps)
    && (forall j, k :: 0 <= j < k < |ls| && ls[j].road == ls[k].road ==> ls[j].gaps == ls[k].gaps)
  }

  lemma {:induction false} GapsGrow(rs: seq<seq<Node>>, p: nat, q: nat)
    requires p <= q <= |rs|
    ensures Gaps(rs[..p]) <= Gaps(rs[..q])
    ensures Gaps(rs[..p]) == Gaps(rs[..q]) <==> forall r :: p <= r < q ==> rs[r] != []
    decreases q - p
  {
    if p < q {
      assert rs[..q][..q - 1] == rs[..q - 1];
      GapsGrow(rs, p, q - 1);
    }
  }

  lemma LabelsAreOrdered(rs: seq<seq<Node>>)
    ensures Ordered(Labels(rs))
  {
    LabelBounds(rs);
    forall j, k | 0 <= j < k < |Labels(rs)| ensures Labels(rs)[j].gaps <= Labels(rs)[k].gaps {
      GapsGrow(rs, Labels(rs)[j].road, Labels(rs)[k].road);
    }
  }

  lemma {:induction false} PathStaysWithin(ls: seq<Label>, p: seq<nat>)
    requires Ordered(ls) && Path(ls, p)
    ensures Within(ls, p[0], p[|p| - 1])
    decreases |p|
  {
    if |p| > 1 {
      var q := p[..|p| - 1];
      PathStaysWithin(ls, q);
      OneMoreStep(ls, p[0], p[|p| - 2], p[|p| - 1]);
    }
  }

  lemma OneMoreStep(ls: seq<Label>, a: nat, u: nat, v: nat)
    requires Ordered(ls) && a < |ls| && u < |ls| && Within(ls, a, u) && v in LinksAt(ls, u)
    ensures v < |ls| && Within(ls, a, v)
  {
  }

  lemma {:induction false} WalkForward(ls: seq<Label>, a: nat, b: nat) returns (p: seq<nat>)
    requires Ordered(ls) && a <= b < |ls| && ls[a].gaps == ls[b].gaps
    ensures Path(ls, p) && p[0] == a && p[|p| - 1] == b
    decreases b - a
  {
    if a == b {
      p := [a];
    } else {
      p := WalkForward(ls, a, b - 1);
      assert b in LinksAt(ls, b - 1);
      p := p + [b];
    }
  }

  lemma {:induction false} WalkBack(ls: seq<Label>, a: nat, b: nat) returns (p: seq<nat>)
    requires Ordered(ls) && b <= a < |ls| && ls[a].road == ls[b].road
    ensures Path(ls, p) && p[0] == a && p[|p| - 1] == b
    decreases a - b
  {
    if a == b {
      p := [a];
    } else {
      p := WalkBack(ls, a, b + 1);
      assert b in LinksAt(ls, b + 1);
      p := p + [b];
    }
  }

  lemma ReachesIffWithin(ls: seq<Label>, a: nat, b: nat)
    requires Ordered(ls) && a < |ls| && b < |ls|
    ensures Reaches(ls, a, b) <==> Within(ls, a, b)
  {
    if Within(ls, a, b) {
      var p;
      if a <= b { p := WalkForward(ls, a, b); } else { p := WalkBack(ls, a, b); }
    }
    forall p | Path(ls, p) && p[0] == a && p[|p| - 1] == b ensures Within(ls, a, b) {
      PathStaysWithin(ls, p);
    }
  }

  /**
   Reachability in the exported graph, exactly: a waypoint reaches the waypoints
   of its own road, and those after it with no empty road in between.
   */
  lemma ReachesIff(rs: seq<seq<Node>>, a: nat, b: nat)
    requires a < |Labels(rs)| && b < |Labels(rs)|
    ensures Reaches(Labels(rs), a, b)
            <==> var from, to := Labels(rs)[a].road, Labels(rs)[b].road;
                 from == to || (a <= b && forall r :: from < r < to && r < |rs| ==> rs[r] != [])
  {
    LabelsAreOrdered(rs);
    ReachesIffWithin(Labels(rs), a, b);
    WithinIff(rs, a, b);
  }

  lemma WithinIff(rs: seq<seq<Node>>, a: nat, b: nat)
    requires a < |Labels(rs)| && b < |Labels(rs)|
    ensures Within(Labels(rs), a, b)
            <==> var from, to := Labels(rs)[a].road, Labels(rs)[b].road;
                 from == to || (a <= b && forall r :: from < r < to && r < |rs| ==> rs[r] != [])
  {
    LabelBounds(rs);
    if a <= b { GapsGrow(rs, Labels(rs)[a].road, Labels(rs)[b].road); }
  }

  // ---------- the waypoints themselves ----------

  lemma {:induction false} LinksOfAt(wps: seq<Waypoint>, k: nat)
    requires k < |wps|
    ensures LinksOf(wps)[k] == wps[k].links
  {
    if k < |wps| - 1 { LinksOfAt(wps[..|wps| - 1], k); }
  }

  /** The links of an exported waypoint are those its label tells. */
  lemma WaypointLinks(wps: seq<Waypoint>, rs: seq<seq<Node>>)
    requires LinksOf(wps) == Graph(Labels(rs))
    ensures |wps| == |Labels(rs)|
    ensures forall k :: 0 <= k < |wps| ==> wps[k].links == LinksAt(Labels(rs), k)
  {
    GraphAt(Labels(rs), |Labels(rs)|);
    forall k | 0 <= k < |wps| ensures wps[k].links == LinksAt(Labels(rs), k) { LinksOfAt(wps, k); }
  }

  /** Soundness of the links the exporter returns, for waypoints `k` and `j` on the roads their labels name. */
  lemma ExportedLinksAreSound(wps: seq<Waypoint>, rs: seq<seq<Node>>, k: nat, j: nat)
    requires LinksOf(wps) == Graph(Labels(rs))
    requires k < |wps| && j in wps[k].links
    ensures |wps| == |Labels(rs)| && j < |wps|
    ensures Labels(rs)[j].road == Labels(rs)[k].road ==> k in wps[j].links
    ensures Labels(rs)[j].road != Labels(rs)[k].road ==> j == k + 1 && k !in wps[j].links
  {
    WaypointLinks(wps, rs);
    LinksAreSound(rs, k, j);
  }

  /** A way along links. */
  ghost predicate Walk(wps: seq<Waypoint>, p: seq<nat>)
  {
    && p != []
    && (forall i :: 0 <= i < |p| ==> p[i] < |wps|)
    && (forall i :: 0 <= i < |p| - 1 ==> p[i + 1] in wps[p[i]].links)
  }

  /**
   Reachability over the links the exporter returns, exactly: along them a
   waypoint reaches those of its own road, and those after it with no empty road
   in between.
   */
  lemma ExportedReachesIff(wps: seq<Waypoint>, rs: seq<seq<Node>>, a: nat, b: nat)
    requires LinksOf(wps) == Graph(Labels(rs))
    requires a < |wps| && b < |wps|
    ensures |wps| == |Labels(rs)|
    ensures (exists p :: Walk(wps, p) && p[0] == a && p[|p| - 1] == b)
            <==> var from, to := Labels(rs)[a].road, Labels(rs)[b].road;
                 from == to || (a <= b && forall r :: from < r < to && r < |rs| ==> rs[r] != [])
  {
    WaypointLinks(wps, rs);
    forall p ensures Walk(wps, p) <==> Path(Labels(rs), p) { WalkIsPath(wps, rs, p); }
    ReachesIff(rs, a, b);
  }

  lemma WalkIsPath(wps: seq<Waypoint>, rs: seq<seq<Node>>, p: seq<nat>)
    requires |wps| == |Labels(rs)| && forall k :: 0 <= k < |wps| ==> wps[k].links == LinksAt(Labels(rs), k)
    ensures Walk(wps, p) <==> Path(Labels(rs), p)
  {
  }

  // ---------- counting ----------

  function Total(g: seq<seq<nat>>): nat
  {
    if g == [] then 0 else Total(g[..|g| - 1]) + |g[|g| - 1]|
  }

  lemma TotalNext(g: seq<seq<nat>>, links: seq<nat>)
    ensures Total(g + [links]) == Total(g) + |links|
  {
    assert (g + [links])[..|g|] == g;
  }

  lemma {:induction false} TotalUpdate(g: seq<seq<nat>>, k: nat, x: nat)
    requires k < |g|
    ensures Total(g[k := g[k] + [x]]) == Total(g) + 1
  {
    var h := g[k := g[k] + [x]];
    if k == |g| - 1 {
      assert h[..k] == g[..k];
    } else {
      TotalUpdate(g[..|g| - 1], k, x);
      assert h[..|g| - 1] == g[..|g| - 1][k := g[k] + [x]];
    }
  }

  /** Two links for every pair of neighbours on one road. */
  function RoadLinks(rs: seq<seq<Node>>): nat
  {
    if rs == [] then 0
    else RoadLinks(rs[..|rs| - 1]) + if rs[|rs| - 1] == [] then 0 else 2 * (|rs[|rs| - 1]| - 1)
  }

  /** How often a non-empty road directly follows a non-empty road. */
  function Bridges(rs: seq<seq<Node>>): nat
  {
    if |rs| < 2 then 0
    else Bridges(rs[..|rs| - 1]) + if rs[|rs| - 2] != [] && rs[|rs| - 1] != [] then 1 else 0
  }

  lemma TotalOfPair(g: seq<seq<nat>>, k: nat)
    requires |g| == k && k > 0
    ensures Total(g[k - 1 := g[k - 1] + [k]] + [[k - 1]]) == Total(g) + 2
  {
    var h := g[k - 1 := g[k - 1] + [k]];
    TotalUpdate(g, k - 1, k);
    TotalNext(h, [k - 1]);
  }

  lemma AddNodeTotal(ls: seq<Label>, l: Label, m: nat)
    requires Apart(ls, l)
    ensures Total(Graph(ls + Repeat(l, m + 1))) == Total(Graph(ls + Repeat(l, m))) + if m == 0 then 0 else 2
  {
    AddNode(ls, l, m);
    var g := Graph(ls + Repeat(l, m));
    if m == 0 { TotalNext(g, []); } else { TotalOfPair(g, |ls| + m); }
  }

  lemma {:induction false} PendingTotal(ls: seq<Label>, l: Label, m: nat)
    requires Apart(ls, l)
    ensures Total(Graph(ls + Repeat(l, m))) == Total(Graph(ls)) + if m == 0 then 0 else 2 * (m - 1)
  {
    if m == 0 {
      assert ls + Repeat(l, 0) == ls;
    } else {
      PendingTotal(ls, l, m - 1);
      AddNodeTotal(ls, l, m - 1);
    }
  }

  lemma ConnectAdds(rs: seq<seq<Node>>, nodes: seq<Node>)
    ensures Total(Graph(Labels(rs + [nodes])))
            == Total(Graph(Labels(rs) + Repeat(Pending(rs), |nodes|))) + if LastOf(rs).Some? && nodes != [] then 1 else 0
  {
    if LastOf(rs).Some? && nodes != [] {
      Connect(rs, nodes);
      TotalUpdate(Graph(Labels(rs) + Repeat(Pending(rs), |nodes|)), |Labels(rs)| - 1, |Labels(rs)|);
    } else {
      NoConnection(rs, nodes);
    }
  }

  lemma ConnectTotal(rs: seq<seq<Node>>, nodes: seq<Node>)
    ensures Total(Graph(Labels(rs + [nodes])))
            == Total(Graph(Labels(rs))) + (if nodes == [] then 0 else 2 * (|nodes| - 1))
               + if LastOf(rs).Some? && nodes != [] then 1 else 0
  {
    LastLabel(rs);
    PendingTotal(Labels(rs), Pending(rs), |nodes|);
    ConnectAdds(rs, nodes);
  }

  /** The number of links: two per neighbouring pair on a road, one per bridge. */
  lemma {:induction false} LinkCount(rs: seq<seq<Node>>)
    ensures Total(Graph(Labels(rs))) == RoadLinks(rs) + Bridges(rs)
  {
    if rs != [] {
      var before, nodes := rs[..|rs| - 1], rs[|rs| - 1];
      assert before + [nodes] == rs;
      LinkCount(before);
      LastLabel(before);
      ConnectTotal(before, nodes);
    }
  }

  // ---------- names ----------

  /** The name a waypoint is exported under. */
  function Name(k: nat): text
  {
    ['w' as int, 'p' as int, '_' as int] + Digits(k)
  }

  /** Different waypoints have different names, so the table of names loses none. */
  lemma NamesDiffer(j: nat, k: nat)
    requires Name(j) == Name(k)
    ensures j == k
  {
    assert Name(j)[3..] == Digits(j) && Name(k)[3..] == Digits(k);
    ValueDigits(j);
    ValueDigits(k);
  }
}
