/**
 * The discrete part of the 3-D concept map (src/pages/MapPage.js): resolving
 * edges from node ids to node indices, classifying every node against the
 * current selection, and deciding which edges are highlighted.
 */
module MapGraph {
  import opened Wrappers

  type Id = string

  /** A node of the map data; `caption` is its `label`. */
  datatype MapNode = MapNode(id: Id, caption: string)

  datatype MapEdge = MapEdge(source: Id, target: Id)

  /** A resolved edge: indices of its source and target node. */
  type Connection = (int, int)

  /** One entry of `colorTransitions`. */
  datatype Transition = Transition(isSelected: bool, isConnected: bool)

  // ---------------------------------------------------------------------
  // Edge resolution (MapPage.js:48-54)
  // ---------------------------------------------------------------------

  ghost predicate HasId(nodes: seq<MapNode>, id: Id) {
    exists k :: 0 <= k < |nodes| && nodes[k].id == id
  }

  /** `nodes.findIndex(n => n.id === id)`: the first index with that id, or -1. */
  function FindIndex(nodes: seq<MapNode>, id: Id): (r: int)
    ensures -1 <= r < |nodes|
    ensures r == -1 <==> !HasId(nodes, id)
    ensures r != -1 ==> nodes[r].id == id && forall k :: 0 <= k < r ==> nodes[k].id != id
  {
    if |nodes| == 0 then -1
    else if nodes[0].id == id then 0
    else
      var r := FindIndex(nodes[1..], id);
      assert forall k :: 1 <= k < |nodes| ==> nodes[1..][k - 1] == nodes[k];
      if r == -1 then -1 else r + 1
  }

  /** An edge is kept when both of its endpoint ids are found. */
  predicate Kept(nodes: seq<MapNode>, e: MapEdge) {
    FindIndex(nodes, e.source) != -1 && FindIndex(nodes, e.target) != -1
  }

  function Pair(nodes: seq<MapNode>, e: MapEdge): Connection {
    (FindIndex(nodes, e.source), FindIndex(nodes, e.target))
  }

  /** The `conns` list built by the edge loop, as a function of the edge prefix. */
  function Resolved(nodes: seq<MapNode>, edges: seq<MapEdge>): (conns: seq<Connection>)
    ensures |conns| <= |edges|
    ensures forall k :: 0 <= k < |conns| ==>
              && 0 <= conns[k].0 < |nodes| && 0 <= conns[k].1 < |nodes|
    decreases |edges|
  {
    if |edges| == 0 then []
    else
      var e := edges[|edges| - 1];
      Resolved(nodes, edges[..|edges| - 1]) + (if Kept(nodes, e) then [Pair(nodes, e)] else [])
  }

  /** The indices, in `edges`, of the kept edges, in the order they were pushed. */
  function Origins(nodes: seq<MapNode>, edges: seq<MapEdge>): seq<int>
    decreases |edges|
  {
    if |edges| == 0 then []
    else
      var n := |edges| - 1;
      Origins(nodes, edges[..n]) + (if Kept(nodes, edges[n]) then [n] else [])
  }

  /** Origins and Resolved grow together. */
  lemma {:induction false} OriginsLength(nodes: seq<MapNode>, edges: seq<MapEdge>)
    ensures |Origins(nodes, edges)| == |Resolved(nodes, edges)|
    decreases |edges|
  {
    if |edges| > 0 {
      OriginsLength(nodes, edges[..|edges| - 1]);
    }
  }

  /** Origins are indices of `edges`, strictly increasing. */
  lemma {:induction false} OriginsIncreasing(nodes: seq<MapNode>, edges: seq<MapEdge>)
    ensures forall k :: 0 <= k < |Origins(nodes, edges)| ==> 0 <= Origins(nodes, edges)[k] < |edges|
    ensures forall k, l :: 0 <= k < l < |Origins(nodes, edges)| ==> Origins(nodes, edges)[k] < Origins(nodes, edges)[l]
    decreases |edges|
  {
    if |edges| > 0 {
      var n := |edges| - 1;
      OriginsIncreasing(nodes, edges[..n]);
      var o := Origins(nodes, edges[..n]);
      assert Origins(nodes, edges) == o + (if Kept(nodes, edges[n]) then [n] else []);
    }
  }

  /** The k-th connection is the index pair of the k-th kept edge. */
  lemma {:induction false} OriginsPairs(nodes: seq<MapNode>, edges: seq<MapEdge>)
    requires |Origins(nodes, edges)| == |Resolved(nodes, edges)|
    requires forall k :: 0 <= k < |Origins(nodes, edges)| ==> 0 <= Origins(nodes, edges)[k] < |edges|
    ensures forall k :: 0 <= k < |Origins(nodes, edges)| ==>
              && Kept(nodes, edges[Origins(nodes, edges)[k]])
              && Resolved(nodes, edges)[k] == Pair(nodes, edges[Origins(nodes, edges)[k]])
    decreases |edges|
  {
    if |edges| > 0 {
      var n := |edges| - 1;
      var pre := edges[..n];
      OriginsLength(nodes, pre);
      OriginsIncreasing(nodes, pre);
      OriginsPairs(nodes, pre);
      var o, r := Origins(nodes, pre), Resolved(nodes, pre);
      var kept := Kept(nodes, edges[n]);
      assert Origins(nodes, edges) == o + (if kept then [n] else []);
      assert Resolved(nodes, edges) == r + (if kept then [Pair(nodes, edges[n])] else []);
      forall k | 0 <= k < |Origins(nodes, edges)|
        ensures Kept(nodes, edges[Origins(nodes, edges)[k]])
        ensures Resolved(nodes, edges)[k] == Pair(nodes, edges[Origins(nodes, edges)[k]])
      {
        if k < |o| {
          assert Origins(nodes, edges)[k] == o[k] && Resolved(nodes, edges)[k] == r[k];
          assert edges[o[k]] == pre[o[k]];
        }
      }
    }
  }

  /** Every edge whose two ids both resolve appears among the origins. */
  lemma {:induction false} OriginsComplete(nodes: seq<MapNode>, edges: seq<MapEdge>)
    ensures forall e :: 0 <= e < |edges| && Kept(nodes, edges[e]) ==> e in Origins(nodes, edges)
    decreases |edges|
  {
    if |edges| > 0 {
      var n := |edges| - 1;
      var pre := edges[..n];
      OriginsComplete(nodes, pre);
      forall e | 0 <= e < n
        ensures edges[e] == pre[e]
      {
      }
    }
  }

  /**
   * The resolved list is exactly the kept edges, in edge order: the k-th
   * connection comes from edge Origins[k], the origins strictly increase,
   * and every edge whose two ids both occur among the nodes is among them.
   */
  lemma ResolvedIsKeptEdgesInOrder(nodes: seq<MapNode>, edges: seq<MapEdge>)
    ensures |Origins(nodes, edges)| == |Resolved(nodes, edges)|
    ensures forall k :: 0 <= k < |Origins(nodes, edges)| ==>
              && 0 <= Origins(nodes, edges)[k] < |edges|
              && Kept(nodes, edges[Origins(nodes, edges)[k]])
              && Resolved(nodes, edges)[k] == Pair(nodes, edges[Origins(nodes, edges)[k]])
    ensures forall k, l :: 0 <= k < l < |Origins(nodes, edges)| ==> Origins(nodes, edges)[k] < Origins(nodes, edges)[l]
    ensures forall e :: 0 <= e < |edges| && Kept(nodes, edges[e]) ==> e in Origins(nodes, edges)
  {
    OriginsLength(nodes, edges);
    OriginsIncreasing(nodes, edges);
    OriginsPairs(nodes, edges);
    OriginsComplete(nodes, edges);
  }

  /** Each connection holds the first indices of nodes carrying its edge's ids. */
  lemma ResolvedFirstIndices(nodes: seq<MapNode>, edges: seq<MapEdge>, k: int)
    requires 0 <= k < |Resolved(nodes, edges)|
    ensures exists e :: 0 <= e < |edges|
              && nodes[Resolved(nodes, edges)[k].0].id == edges[e].source
              && nodes[Resolved(nodes, edges)[k].1].id == edges[e].target
              && (forall j :: 0 <= j < Resolved(nodes, edges)[k].0 ==> nodes[j].id != edges[e].source)
              && (forall j :: 0 <= j < Resolved(nodes, edges)[k].1 ==> nodes[j].id != edges[e].target)
  {
    ResolvedIsKeptEdgesInOrder(nodes, edges);
    var e := Origins(nodes, edges)[k];
    assert Resolved(nodes, edges)[k] == Pair(nodes, edges[e]);
  }

  /** The edge loop of the map's `useMemo`: push the index pair of every edge whose ids both resolve. */
  method ResolveEdges(nodes: seq<MapNode>, edges: seq<MapEdge>) returns (conns: seq<Connection>)
    ensures conns == Resolved(nodes, edges)
  {
    conns := [];
    var k := 0;
    while k < |edges|
      invariant 0 <= k <= |edges|
      invariant conns == Resolved(nodes, edges[..k])
    {
      var sourceIndex := FindIndex(nodes, edges[k].source);
      var targetIndex := FindIndex(nodes, edges[k].target);
      if sourceIndex != -1 && targetIndex != -1 {
        conns := conns + [(sourceIndex, targetIndex)];
      }
      assert edges[..k + 1][..k] == edges[..k];
      k := k + 1;
    }
    assert edges[..k] == edges;
  }

  // ---------------------------------------------------------------------
  // Classification (MapPage.js:181-202)
  // ---------------------------------------------------------------------

  /** Edge k joins a and b, in either direction. */
  predicate JoinsAt(edges: seq<MapEdge>, k: int, a: Id, b: Id)
    requires 0 <= k < |edges|
  {
    (edges[k].source == a && edges[k].target == b) || (edges[k].target == a && edges[k].source == b)
  }

  /** `edges.some(...)`: some edge joins a and b in either direction. */
  function Joins(edges: seq<MapEdge>, a: Id, b: Id): (r: bool)
    ensures r <==> exists k :: 0 <= k < |edges| && JoinsAt(edges, k, a, b)
  {
    if |edges| == 0 then false
    else
      var rest := Joins(edges[1..], a, b);
      assert rest ==> exists k :: 0 <= k < |edges| && JoinsAt(edges, k, a, b) by {
        if rest {
          var k :| 0 <= k < |edges[1..]| && JoinsAt(edges[1..], k, a, b);
          assert JoinsAt(edges, k + 1, a, b);
        }
      }
      assert forall k :: 1 <= k < |edges| && JoinsAt(edges, k, a, b) ==> JoinsAt(edges[1..], k - 1, a, b);
      JoinsAt(edges, 0, a, b) || rest
  }

  /** "Connected" is a symmetric relation: direct neighbours, either direction. */
  lemma JoinsSymmetric(edges: seq<MapEdge>, a: Id, b: Id)
    ensures Joins(edges, a, b) == Joins(edges, b, a)
  {
    if Joins(edges, a, b) {
      var k :| 0 <= k < |edges| && JoinsAt(edges, k, a, b);
      assert JoinsAt(edges, k, b, a);
    }
    if Joins(edges, b, a) {
      var k :| 0 <= k < |edges| && JoinsAt(edges, k, b, a);
      assert JoinsAt(edges, k, a, b);
    }
  }

  /**
   * The `colorTransitions` list: one entry per node; with no selection every
   * entry is (false, false); otherwise a node is selected iff it carries the
   * selected id and connected iff some edge joins it to the selected node.
   */
  function Classify(nodes: seq<MapNode>, edges: seq<MapEdge>, selected: Option<MapNode>): (ts: seq<Transition>)
    ensures |ts| == |nodes|
    ensures selected.None? ==> forall i :: 0 <= i < |ts| ==> ts[i] == Transition(false, false)
    ensures selected.Some? ==> forall i :: 0 <= i < |ts| ==>
              && (ts[i].isSelected <==> nodes[i].id == selected.value.id)
              && (ts[i].isConnected <==> exists k :: 0 <= k < |edges| && JoinsAt(edges, k, nodes[i].id, selected.value.id))
  {
    seq(|nodes|, i requires 0 <= i < |nodes| =>
      if selected.None? then Transition(false, false)
      else Transition(nodes[i].id == selected.value.id, Joins(edges, nodes[i].id, selected.value.id)))
  }

  // ---------------------------------------------------------------------
  // Edge highlighting (MapPage.js:373-382)
  // ---------------------------------------------------------------------

  /** `isSelectedEdge`: a node is selected and one endpoint of the connection carries its id. */
  predicate IsSelectedEdge(nodes: seq<MapNode>, selected: Option<MapNode>, c: Connection)
    requires 0 <= c.0 < |nodes| && 0 <= c.1 < |nodes|
  {
    selected.Some? && (nodes[c.0].id == selected.value.id || nodes[c.1].id == selected.value.id)
  }

  /**
   * The two endpoints of a highlighted edge agree with the classification:
   * one of them is the selected node and the other is selected or connected.
   */
  lemma HighlightedEdgeMatchesClassification(nodes: seq<MapNode>, edges: seq<MapEdge>, selected: Option<MapNode>, k: int)
    requires 0 <= k < |Resolved(nodes, edges)|
    requires IsSelectedEdge(nodes, selected, Resolved(nodes, edges)[k])
    ensures var c, ts := Resolved(nodes, edges)[k], Classify(nodes, edges, selected);
            && (ts[c.0].isSelected || ts[c.1].isSelected)
            && (ts[c.0].isSelected || ts[c.0].isConnected)
            && (ts[c.1].isSelected || ts[c.1].isConnected)
  {
    ResolvedIsKeptEdgesInOrder(nodes, edges);
    var e := Origins(nodes, edges)[k];
    var c := Resolved(nodes, edges)[k];
    assert c == Pair(nodes, edges[e]);
    assert nodes[c.0].id == edges[e].source && nodes[c.1].id == edges[e].target;
    var s := selected.value.id;
    if nodes[c.0].id == s {
      assert JoinsAt(edges, e, nodes[c.1].id, s);
    } else {
      assert JoinsAt(edges, e, nodes[c.0].id, s);
    }
  }

  /** Edge opacity: `0.1 + 0.7 * progress` when highlighted, 0.2 otherwise. */
  function EdgeOpacity(highlighted: bool, progress: real): (o: real)
    ensures 0.0 <= progress <= 1.0 ==> (if highlighted then 0.1 <= o <= 0.8 else o == 0.2)
  {
    if highlighted then 0.1 + 0.7 * progress else 0.2
  }

  /** Edge width: `0.5 + 1.5 * progress` when highlighted, 0.5 otherwise. */
  function EdgeWidth(highlighted: bool, progress: real): (w: real)
    ensures 0.0 <= progress <= 1.0 ==> 0.5 <= w <= 2.0
    ensures 0.0 <= progress ==> EdgeWidth(false, progress) <= w
  {
    if highlighted then 0.5 + 1.5 * progress else 0.5
  }

  /**
   * A highlighted edge starts dimmer than an ordinary one (0.1 against 0.2)
   * and passes it once the eased progress exceeds 1/7.
   */
  lemma HighlightOvertakesAt(progress: real)
    requires 0.0 <= progress <= 1.0
    ensures EdgeOpacity(true, progress) > EdgeOpacity(false, progress) <==> progress > 1.0 / 7.0
  {
  }
}
