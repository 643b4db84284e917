/**
 * Selection handling and restyling of the ontology view
 * (src/components/OntologyVisualizer.js): the level palette, the relation
 * palette, updateElementsStyle, and the node/pane click handlers.
 */
module OntologyView {
  import opened Wrappers
  import G = OntologyGraph

  type Id = string

  /** The style keys updateElementsStyle rewrites; `background` may be left undefined. */
  datatype NodeStyle = NodeStyle(background: Option<string>, border: string, opacity: real)

  /** The `data` payload of a node, shown in the sidebar; `caption` is its `label`. */
  datatype NodeData = NodeData(caption: string)

  datatype OntNode = OntNode(id: Id, data: NodeData, style: NodeStyle)

  datatype EdgeStyle = EdgeStyle(stroke: string, opacity: real)

  /** An edge; `relation` is its `label`, the name of the relation it draws. */
  datatype OntEdge = OntEdge(id: string, source: Id, target: Id, relation: string, style: EdgeStyle)

  // ---------------------------------------------------------------------
  // Palettes (OntologyVisualizer.js:16-32)
  // ---------------------------------------------------------------------

  /** `LEVEL_COLORS[level]`: defined for levels 0 to 4 only. */
  function LevelColorEntry(level: int): (c: Option<string>)
    ensures c.Some? <==> 0 <= level <= 4
  {
    if level == 0 then Some("#e3f2fd")
    else if level == 1 then Some("#bbdefb")
    else if level == 2 then Some("#90caf9")
    else if level == 3 then Some("#64b5f6")
    else if level == 4 then Some("#42a5f5")
    else None
  }

  /** `LEVEL_COLORS[level] || '#ffffff'`. */
  function LevelColor(level: int): (c: string)
    ensures c == "#ffffff" <==> !(0 <= level <= 4)
    ensures 0 <= level <= 4 ==> Some(c) == LevelColorEntry(level)
    ensures c == "#e3f2fd" <==> level == 0
  {
    LevelColorEntry(level).GetOr("#ffffff")
  }

  const RelationColors: map<string, string> := map[
    "subClassOf" := "#777777",
    "developed" := "#ff7043",
    "founded" := "#7cb342",
    "hasComponent" := "#5c6bc0",
    "hasFeature" := "#8e24aa",
    "hasTechnique" := "#00acc1"
  ]

  /** `RELATION_COLORS[label] || '#999'`. */
  function RelationColor(relation: string): (c: string)
    ensures relation in RelationColors ==> c == RelationColors[relation]
    ensures relation !in RelationColors ==> c == "#999"
  {
    if relation in RelationColors then RelationColors[relation] else "#999"
  }

  /** '#999' is not a palette colour, so an edge shows it exactly when its relation is unknown. */
  lemma FallbackColorOnlyForUnknown(relation: string)
    ensures RelationColor(relation) == "#999" <==> relation !in RelationColors
    ensures RelationColor(relation) in RelationColors.Values <==> relation in RelationColors
  {
  }

  // ---------------------------------------------------------------------
  // updateElementsStyle (OntologyVisualizer.js:180-233)
  // ---------------------------------------------------------------------

  /** `!selectedNodeId`: null and the empty string both mean "nothing selected". */
  predicate NoSelection(selected: Option<Id>) {
    selected.None? || selected.value == ""
  }

  function Ids(nodes: seq<OntNode>): (ids: seq<Id>)
    ensures |ids| == |nodes| && forall i :: 0 <= i < |nodes| ==> ids[i] == nodes[i].id
  {
    seq(|nodes|, i requires 0 <= i < |nodes| => nodes[i].id)
  }

  function Links(edges: seq<OntEdge>): (links: seq<G.Link>)
    ensures |links| == |edges|
    ensures forall i :: 0 <= i < |edges| ==> links[i] == G.Link(edges[i].source, edges[i].target)
  {
    seq(|edges|, i requires 0 <= i < |edges| => G.Link(edges[i].source, edges[i].target))
  }

  function DefaultNode(n: OntNode, level: nat): OntNode {
    n.(style := NodeStyle(Some(LevelColor(level)), "1px solid #777", 1.0))
  }

  function DefaultEdge(e: OntEdge): OntEdge {
    e.(style := EdgeStyle(RelationColor(e.relation), 1.0))
  }

  function HighlightNode(n: OntNode, level: nat, inSet: bool): OntNode {
    if inSet then n.(style := NodeStyle(LevelColorEntry(level), "2px solid #1a237e", 1.0))
    else n.(style := NodeStyle(Some("#f5f5f5"), "1px solid #ccc", 0.5))
  }

  function HighlightEdge(e: OntEdge, touches: bool): OntEdge {
    if touches then e.(style := EdgeStyle(RelationColor(e.relation), 1.0))
    else e.(style := EdgeStyle("#ccc", 0.3))
  }

  /** Restyling preserves everything but the style of each element, and the order. */
  ghost predicate OnlyStylesChange(nodes: seq<OntNode>, edges: seq<OntEdge>, nodes': seq<OntNode>, edges': seq<OntEdge>) {
    && |nodes'| == |nodes| && |edges'| == |edges|
    && (forall i :: 0 <= i < |nodes| ==> nodes'[i] == nodes[i].(style := nodes'[i].style))
    && (forall i :: 0 <= i < |edges| ==> edges'[i] == edges[i].(style := edges'[i].style))
  }

  /**
   * updateElementsStyle. With no selection every element returns to full
   * opacity and its level / relation colour; with a selection, a node is at
   * full opacity exactly when it is reachable from the selected node and an
   * edge exactly when one of its endpoints is.
   */
  method UpdateElementsStyle(nodes: seq<OntNode>, edges: seq<OntEdge>, selected: Option<Id>)
    returns (nodes': seq<OntNode>, edges': seq<OntEdge>)
    ensures OnlyStylesChange(nodes, edges, nodes', edges')
    ensures |nodes| == 0 || |edges| == 0 ==> nodes' == nodes && edges' == edges
    ensures |nodes| > 0 && |edges| > 0 && NoSelection(selected) ==>
              && (forall i :: 0 <= i < |nodes| ==> nodes'[i].style.opacity == 1.0 && nodes'[i].style.border == "1px solid #777")
              && (forall i :: 0 <= i < |nodes| ==>
                    (nodes'[i].style.background == Some("#e3f2fd") <==> !G.HasIncoming(Links(edges), nodes[i].id)))
              && (forall i :: 0 <= i < |edges| ==> edges'[i].style == EdgeStyle(RelationColor(edges[i].relation), 1.0))
    ensures |nodes| > 0 && |edges| > 0 && !NoSelection(selected) ==>
              && (forall i :: 0 <= i < |nodes| ==>
                    nodes'[i].style.opacity == (if G.Reachable(Links(edges), selected.value, nodes[i].id) then 1.0 else 0.5))
              && (forall i :: 0 <= i < |nodes| && !G.Reachable(Links(edges), selected.value, nodes[i].id) ==>
                    nodes'[i].style == NodeStyle(Some("#f5f5f5"), "1px solid #ccc", 0.5))
              && (forall i :: (0 <= i < |nodes| && G.Reachable(Links(edges), selected.value, nodes[i].id) &&
                                 !G.HasIncoming(Links(edges), nodes[i].id)) ==>
                    nodes'[i].style == NodeStyle(Some("#e3f2fd"), "2px solid #1a237e", 1.0))
              && (forall i :: 0 <= i < |edges| ==>
                    edges'[i].style ==
                      (if G.Reachable(Links(edges), selected.value, edges[i].source) ||
                          G.Reachable(Links(edges), selected.value, edges[i].target)
                       then EdgeStyle(RelationColor(edges[i].relation), 1.0) else EdgeStyle("#ccc", 0.3)))
  {
    if |nodes| == 0 || |edges| == 0 {
      return nodes, edges;
    }
    var links := Links(edges);
    var levels := G.CalculateNodeLevels(Ids(nodes), links);
    assert forall i :: 0 <= i < |nodes| ==> nodes[i].id in levels by {
      forall i | 0 <= i < |nodes| ensures nodes[i].id in levels {
        assert Ids(nodes)[i] == nodes[i].id;
      }
    }
    if NoSelection(selected) {
      nodes' := seq(|nodes|, i requires 0 <= i < |nodes| => DefaultNode(nodes[i], levels[nodes[i].id]));
      edges' := seq(|edges|, i requires 0 <= i < |edges| => DefaultEdge(edges[i]));
      forall i | 0 <= i < |nodes|
        ensures nodes'[i].style.background == Some("#e3f2fd") <==> !G.HasIncoming(links, nodes[i].id)
      {
        assert Ids(nodes)[i] == nodes[i].id;
      }
    } else {
      var descendants := G.FindDescendants(selected.value, links);
      nodes' := seq(|nodes|, i requires 0 <= i < |nodes| =>
                      HighlightNode(nodes[i], levels[nodes[i].id], nodes[i].id in descendants));
      edges' := seq(|edges|, i requires 0 <= i < |edges| =>
                      HighlightEdge(edges[i], edges[i].source in descendants || edges[i].target in descendants));
      forall i | 0 <= i < |nodes| && nodes[i].id in descendants && !G.HasIncoming(links, nodes[i].id)
        ensures nodes'[i].style == NodeStyle(Some("#e3f2fd"), "2px solid #1a237e", 1.0)
      {
        assert Ids(nodes)[i] == nodes[i].id;
      }
    }
  }

  // ---------------------------------------------------------------------
  // Click handling (OntologyVisualizer.js:173-177, 392-395, 413-416)
  // ---------------------------------------------------------------------

  /** The `selectedNode` id and the sidebar's `selectedNodeInfo`. */
  datatype ViewSelection = ViewSelection(selected: Option<Id>, info: Option<NodeData>)

  /**
   * onNodeClick: clicking the selected node clears the selection, clicking
   * any other node selects it; the sidebar shows the clicked node's data
   * either way.
   */
  function OnNodeClick(s: ViewSelection, node: OntNode): (s': ViewSelection)
    ensures s'.selected == None <==> s.selected == Some(node.id)
    ensures s'.selected != None ==> s'.selected == Some(node.id)
    ensures s'.info == Some(node.data)
  {
    ViewSelection(if s.selected == Some(node.id) then None else Some(node.id), Some(node.data))
  }

  /** onPaneClick and the sidebar's close button: clear selection and sidebar. */
  function OnPaneClick(s: ViewSelection): (s': ViewSelection)
    ensures s'.selected.None? && s'.info.None?
  {
    ViewSelection(None, None)
  }

  /** Two clicks on one node: back to that node if it was selected, otherwise nothing is selected. */
  lemma ClickTwice(s: ViewSelection, node: OntNode)
    ensures OnNodeClick(OnNodeClick(s, node), node).selected ==
            (if s.selected == Some(node.id) then Some(node.id) else None)
  {
  }

  /** From no selection, clicking a node twice leaves nothing selected again. */
  lemma ClickTwiceFromNoSelection(s: ViewSelection, node: OntNode)
    requires s.selected.None?
    ensures OnNodeClick(OnNodeClick(s, node), node).selected == s.selected
  {
    ClickTwice(s, node);
  }
}
