/**
 * The concept graph of the home page (src/pages/home/HomePage.js:39-133):
 * one centre node for the chosen philosopher, one node per main, sub and
 * related concept, and the links between them. The random choices of
 * `createLinks` are given as a sequence of draws in [0, 1), consumed in the
 * order the source calls `Math.random()`.
 */
module HomeGraph {
  import opened Wrappers

  type Id = string

  /** A concept record of the philosopher data (also used for the philosopher's own `info`). */
  datatype Concept = Concept(id: Id, name: string, group: Option<int>, color: Option<string>)

  datatype Concepts = Concepts(mainConcepts: seq<Concept>, subConcepts: seq<Concept>, relatedConcepts: seq<Concept>)

  datatype Philosopher = Philosopher(info: Concept, concepts: Concepts)

  /** A graph node; `pinned` stands for `fx = fy = 0`. */
  datatype GraphNode = GraphNode(id: Id, name: string, group: Option<int>, size: int, pinned: bool, color: Option<string>)

  datatype Link = Link(source: Id, target: Id, value: int, color: string)

  const MainColor := "#29b6f6"
  const SubColor := "#66bb6a"
  const RelatedColor := "#ba68c8"
  const CentreLinkColor := "rgba(255, 255, 255, 0.3)"
  const PeerLinkColor := "rgba(255, 255, 255, 0.15)"
  const SubLinkColor := "rgba(255, 255, 255, 0.2)"
  const RelatedLinkColor := "rgba(255, 255, 255, 0.1)"

  // ---------------------------------------------------------------------
  // createNodes (HomePage.js:39-73)
  // ---------------------------------------------------------------------

  function CentreNode(info: Concept): GraphNode {
    GraphNode(info.id, info.name, info.group, 15, true, info.color)
  }

  function ConceptNodes(cs: seq<Concept>, group: int, size: int, color: string): (ns: seq<GraphNode>)
    ensures |ns| == |cs|
    ensures forall k :: 0 <= k < |cs| ==>
              ns[k] == GraphNode(cs[k].id, cs[k].name, Some(group), size, false, Some(color))
  {
    seq(|cs|, k requires 0 <= k < |cs| => GraphNode(cs[k].id, cs[k].name, Some(group), size, false, Some(color)))
  }

  /**
   * createNodes: nothing for an unknown philosopher; otherwise the pinned
   * centre node of size 15, then the main concepts (group 2, size 5), the
   * sub concepts (group 3, size 4) and the related concepts (group 4,
   * size 3), each list in its own order.
   */
  function CreateNodes(data: map<string, Philosopher>, name: string): (nodes: seq<GraphNode>)
    ensures name !in data ==> nodes == []
    ensures name in data ==>
              var p := data[name];
              var m, s, r := |p.concepts.mainConcepts|, |p.concepts.subConcepts|, |p.concepts.relatedConcepts|;
              && |nodes| == 1 + m + s + r
              && nodes[0] == CentreNode(p.info) && nodes[0].size == 15 && nodes[0].pinned
              && (forall k :: 1 <= k < 1 + m ==>
                    nodes[k].id == p.concepts.mainConcepts[k - 1].id && nodes[k].name == p.concepts.mainConcepts[k - 1].name &&
                    nodes[k].group == Some(2) && nodes[k].size == 5 && nodes[k].color == Some(MainColor))
              && (forall k :: 1 + m <= k < 1 + m + s ==>
                    nodes[k].id == p.concepts.subConcepts[k - 1 - m].id && nodes[k].name == p.concepts.subConcepts[k - 1 - m].name &&
                    nodes[k].group == Some(3) && nodes[k].size == 4 && nodes[k].color == Some(SubColor))
              && (forall k :: 1 + m + s <= k < |nodes| ==>
                    nodes[k].id == p.concepts.relatedConcepts[k - 1 - m - s].id && nodes[k].name == p.concepts.relatedConcepts[k - 1 - m - s].name &&
                    nodes[k].group == Some(4) && nodes[k].size == 3 && nodes[k].color == Some(RelatedColor))
              && (forall k :: 1 <= k < |nodes| ==> !nodes[k].pinned)
  {
    if name !in data then []
    else
      var p := data[name];
      [CentreNode(p.info)]
        + ConceptNodes(p.concepts.mainConcepts, 2, 5, MainColor)
        + ConceptNodes(p.concepts.subConcepts, 3, 4, SubColor)
        + ConceptNodes(p.concepts.relatedConcepts, 4, 3, RelatedColor)
  }

  // ---------------------------------------------------------------------
  // createLinks (HomePage.js:76-133), as a specification
  // ---------------------------------------------------------------------

  predicate InGroup(n: GraphNode, groups: set<int>) {
    n.group.Some? && n.group.value in groups
  }

  /** `nodes.filter(n => n.group is one of groups)`, keeping the nodes' order. */
  function Filter(nodes: seq<GraphNode>, groups: set<int>): (fs: seq<GraphNode>)
    ensures |fs| <= |nodes|
    decreases |nodes|
  {
    if |nodes| == 0 then []
    else
      var last := nodes[|nodes| - 1];
      Filter(nodes[..|nodes| - 1], groups) + (if InGroup(last, groups) then [last] else [])
  }

  /** The filter keeps exactly the nodes of the given groups. */
  lemma {:induction false} FilterMembers(nodes: seq<GraphNode>, groups: set<int>)
    ensures forall x :: x in Filter(nodes, groups) <==> x in nodes && InGroup(x, groups)
    decreases |nodes|
  {
    if |nodes| > 0 {
      var pre := nodes[..|nodes| - 1];
      FilterMembers(pre, groups);
      assert nodes == pre + [nodes[|nodes| - 1]];
    }
  }

  /** A list with no node of the groups filters to nothing. */
  lemma {:induction false} FilterEmpty(nodes: seq<GraphNode>, groups: set<int>)
    requires forall i :: 0 <= i < |nodes| ==> !InGroup(nodes[i], groups)
    ensures Filter(nodes, groups) == []
    decreases |nodes|
  {
    if |nodes| > 0 {
      FilterEmpty(nodes[..|nodes| - 1], groups);
    }
  }

  /** The links from `node` to every other main concept in the first j nodes. */
  function PeerLinks(nodes: seq<GraphNode>, node: GraphNode, j: nat): seq<Link>
    requires j <= |nodes|
  {
    if j == 0 then []
    else
      var other := nodes[j - 1];
      PeerLinks(nodes, node, j - 1) +
        (if InGroup(other, {2}) && node.id != other.id then [Link(node.id, other.id, 2, PeerLinkColor)] else [])
  }

  /** The links the first pass pushes for the first n nodes. */
  function MainLinks(nodes: seq<GraphNode>, centre: Id, n: nat): seq<Link>
    requires n <= |nodes|
  {
    if n == 0 then []
    else
      var node := nodes[n - 1];
      MainLinks(nodes, centre, n - 1) +
        (if InGroup(node, {2}) then [Link(centre, node.id, 3, CentreLinkColor)] + PeerLinks(nodes, node, |nodes|) else [])
  }

  predicate ValidDraws(draws: seq<real>) {
    forall k :: 0 <= k < |draws| ==> 0.0 <= draws[k] < 1.0
  }

  /** `Math.floor(r * len)`: an index into a non-empty list of length len. */
  function PickIndex(r: real, len: nat): (i: int)
    requires 0.0 <= r < 1.0 && len > 0
    ensures 0 <= i < len
  {
    var x := r * len as real;
    assert 0.0 <= x < len as real by {
      assert r * len as real < 1.0 * len as real;
    }
    x.Floor
  }

  /** One link per target, from the candidate that the target's draw picks. */
  function TreeLinks(targets: seq<GraphNode>, candidates: seq<GraphNode>, draws: seq<real>, value: int, color: string): (ls: seq<Link>)
    requires |targets| > 0 ==> |candidates| > 0
    requires |draws| == |targets| && ValidDraws(draws)
    ensures |ls| == |targets|
    ensures forall k :: 0 <= k < |targets| ==>
              ls[k].target == targets[k].id && ls[k].value == value && ls[k].color == color
    ensures forall k :: 0 <= k < |targets| ==>
              ls[k].source == candidates[PickIndex(draws[k], |candidates|)].id && ls[k].source in IdsOf(candidates)
  {
    seq(|targets|, k requires 0 <= k < |targets| =>
      Link(candidates[PickIndex(draws[k], |candidates|)].id, targets[k].id, value, color))
  }

  /**
   * The source reads `.id` of an undefined pick, and throws, when a sub
   * concept exists but no main concept does, or a related concept exists
   * but no main or sub concept does.
   */
  predicate Throws(nodes: seq<GraphNode>) {
    || (|Filter(nodes, {3})| > 0 && |Filter(nodes, {2})| == 0)
    || (|Filter(nodes, {4})| > 0 && |Filter(nodes, {2, 3})| == 0)
  }

  function DrawsNeeded(nodes: seq<GraphNode>): nat {
    |Filter(nodes, {3})| + |Filter(nodes, {4})|
  }

  function CentreId(nodes: seq<GraphNode>): Id {
    if |nodes| > 0 then nodes[0].id else ""
  }

  /** The whole link list, in push order. */
  function LinksSpec(nodes: seq<GraphNode>, draws: seq<real>): seq<Link>
    requires !Throws(nodes) && |draws| == DrawsNeeded(nodes) && ValidDraws(draws)
  {
    var subs := |Filter(nodes, {3})|;
    MainLinks(nodes, CentreId(nodes), |nodes|)
      + TreeLinks(Filter(nodes, {3}), Filter(nodes, {2}), draws[..subs], 2, SubLinkColor)
      + TreeLinks(Filter(nodes, {4}), Filter(nodes, {2, 3}), draws[subs..], 1, RelatedLinkColor)
  }

  // ---------------------------------------------------------------------
  // createLinks, as the source computes it
  // ---------------------------------------------------------------------

  lemma FilterStep(nodes: seq<GraphNode>, groups: set<int>, k: nat)
    requires k < |nodes|
    ensures Filter(nodes[..k + 1], groups) ==
            Filter(nodes[..k], groups) + (if InGroup(nodes[k], groups) then [nodes[k]] else [])
  {
    assert nodes[..k + 1][..k] == nodes[..k];
  }

  lemma TreeLinksStep(targets: seq<GraphNode>, t: GraphNode, candidates: seq<GraphNode>, draws: seq<real>, r: real, value: int, color: string)
    requires |candidates| > 0 && |draws| == |targets| && ValidDraws(draws) && 0.0 <= r < 1.0 && ValidDraws(draws + [r])
    ensures TreeLinks(targets + [t], candidates, draws + [r], value, color) ==
            TreeLinks(targets, candidates, draws, value, color) + [Link(candidates[PickIndex(r, |candidates|)].id, t.id, value, color)]
  {
    assert (draws + [r])[|draws|] == r;
  }

  lemma TreeLinksPush(targets: seq<GraphNode>, t: GraphNode, candidates: seq<GraphNode>, draws: seq<real>, used: nat, value: int, color: string)
    requires |candidates| > 0 && |targets| == used < |draws| && ValidDraws(draws)
    ensures TreeLinks(targets + [t], candidates, draws[..used + 1], value, color) ==
            TreeLinks(targets, candidates, draws[..used], value, color) + [Link(candidates[PickIndex(draws[used], |candidates|)].id, t.id, value, color)]
  {
    assert draws[..used + 1] == draws[..used] + [draws[used]];
    TreeLinksStep(targets, t, candidates, draws[..used], draws[used], value, color);
  }

  /** The inner loop of the first pass: links from a main concept to the other main concepts. */
  method PushPeers(nodes: seq<GraphNode>, node: GraphNode, links: seq<Link>) returns (links': seq<Link>)
    ensures links' == links + PeerLinks(nodes, node, |nodes|)
  {
    links' := links;
    var j := 0;
    while j < |nodes|
      invariant 0 <= j <= |nodes|
      invariant links' == links + PeerLinks(nodes, node, j)
    {
      var otherNode := nodes[j];
      if InGroup(otherNode, {2}) && node.id != otherNode.id {
        links' := links' + [Link(node.id, otherNode.id, 2, PeerLinkColor)];
      }
      j := j + 1;
    }
  }

  /**
   * One of the two random-parent passes: every node of the target group gets
   * one link from a drawn candidate; with no candidate the first such node
   * throws.
   */
  method PushTreeLinks(nodes: seq<GraphNode>, group: int, candidates: seq<GraphNode>, draws: seq<real>,
                       value: int, color: string, links: seq<Link>)
    returns (r: Result<seq<Link>, string>)
    requires |draws| == |Filter(nodes, {group})| && ValidDraws(draws)
    ensures r.Failure? <==> |Filter(nodes, {group})| > 0 && |candidates| == 0
    ensures r.Success? ==> r.value == links + TreeLinks(Filter(nodes, {group}), candidates, draws, value, color)
  {
    if |candidates| == 0 {
      r := FailOnFirst(nodes, group, links);
      if r.Success? {
        assert TreeLinks(Filter(nodes, {group}), candidates, draws, value, color) == [];
        assert links + [] == links;
      }
      return;
    }
    var acc := links;
    var k := 0;
    var used := 0;
    while k < |nodes|
      invariant 0 <= k <= |nodes|
      invariant used == |Filter(nodes[..k], {group})| <= |draws|
      invariant acc == links + TreeLinks(Filter(nodes[..k], {group}), candidates, draws[..used], value, color)
    {
      var node := nodes[k];
      TreeLinksLoopStep(nodes, group, candidates, draws, k, used, value, color);
      if InGroup(node, {group}) {
        var index := PickIndex(draws[used], |candidates|);
        var randomSource := candidates[index];
        acc := acc + [Link(randomSource.id, node.id, value, color)];
        used := used + 1;
      }
      k := k + 1;
    }
    assert nodes[..k] == nodes;
    assert used == |draws| && draws[..used] == draws;
    return Success(acc);
  }

  /** One iteration of the pass: the filtered prefix grows by the node exactly when it is in the group, taking the next draw. */
  lemma TreeLinksLoopStep(nodes: seq<GraphNode>, group: int, candidates: seq<GraphNode>, draws: seq<real>,
                          k: nat, used: nat, value: int, color: string)
    requires k < |nodes| && |candidates| > 0
    requires |draws| == |Filter(nodes, {group})| && ValidDraws(draws)
    requires used == |Filter(nodes[..k], {group})|
    ensures |Filter(nodes[..k + 1], {group})| <= |draws|
    ensures !InGroup(nodes[k], {group}) ==> Filter(nodes[..k + 1], {group}) == Filter(nodes[..k], {group})
    ensures InGroup(nodes[k], {group}) ==>
              && used < |draws|
              && Filter(nodes[..k + 1], {group}) == Filter(nodes[..k], {group}) + [nodes[k]]
              && TreeLinks(Filter(nodes[..k], {group}) + [nodes[k]], candidates, draws[..used + 1], value, color) ==
                 TreeLinks(Filter(nodes[..k], {group}), candidates, draws[..used], value, color) +
                 [Link(candidates[PickIndex(draws[used], |candidates|)].id, nodes[k].id, value, color)]
  {
    FilterStep(nodes, {group}, k);
    FilterPrefixBound(nodes, {group}, k + 1);
    if InGroup(nodes[k], {group}) {
      TreeLinksPush(Filter(nodes[..k], {group}), nodes[k], candidates, draws, used, value, color);
    }
  }

  /** The same pass with no candidate: the first node of the group reads `.id` of undefined. */
  method FailOnFirst(nodes: seq<GraphNode>, group: int, links: seq<Link>) returns (r: Result<seq<Link>, string>)
    ensures r.Failure? <==> |Filter(nodes, {group})| > 0
    ensures r.Success? ==> r.value == links
  {
    var k := 0;
    while k < |nodes|
      invariant 0 <= k <= |nodes|
      invariant forall i :: 0 <= i < k ==> !InGroup(nodes[i], {group})
    {
      if InGroup(nodes[k], {group}) {
        FilterMembers(nodes, {group});
        assert nodes[k] in Filter(nodes, {group});
        return Failure("TypeError: cannot read 'id' of undefined");
      }
      k := k + 1;
    }
    FilterEmpty(nodes, {group});
    return Success(links);
  }

  lemma FilterPrefixBound(nodes: seq<GraphNode>, groups: set<int>, k: nat)
    requires k <= |nodes|
    ensures |Filter(nodes[..k], groups)| <= |Filter(nodes, groups)|
  {
    assert nodes[..k] + nodes[k..] == nodes;
    FilterAppendLength(nodes[..k], nodes[k..], groups);
  }

  lemma {:induction false} FilterAppendLength(a: seq<GraphNode>, b: seq<GraphNode>, groups: set<int>)
    ensures |Filter(a + b, groups)| == |Filter(a, groups)| + |Filter(b, groups)|
    decreases |b|
  {
    if |b| == 0 {
      assert a + b == a;
    } else {
      var b' := b[..|b| - 1];
      FilterAppendLength(a, b', groups);
      assert (a + b)[..|a + b| - 1] == a + b';
      assert (a + b)[|a + b| - 1] == b[|b| - 1];
    }
  }

  /**
   * createLinks: the centre and peer links of the main concepts, then one
   * link into each sub concept from a randomly drawn main concept, then one
   * link into each related concept from a randomly drawn main or sub
   * concept; fails exactly where the source throws.
   */
  method CreateLinks(nodes: seq<GraphNode>, draws: seq<real>) returns (r: Result<seq<Link>, string>)
    requires |draws| == DrawsNeeded(nodes) && ValidDraws(draws)
    ensures r.Failure? <==> Throws(nodes)
    ensures r.Success? ==> r.value == LinksSpec(nodes, draws)
  {
    var links: seq<Link> := [];
    var k := 0;
    while k < |nodes|
      invariant 0 <= k <= |nodes|
      invariant links == MainLinks(nodes, CentreId(nodes), k)
    {
      var node := nodes[k];
      if InGroup(node, {2}) {
        var centerNode := nodes[0];
        links := links + [Link(centerNode.id, node.id, 3, CentreLinkColor)];
        links := PushPeers(nodes, node, links);
      }
      k := k + 1;
    }
    var subs := |Filter(nodes, {3})|;
    assert ValidDraws(draws[..subs]) && ValidDraws(draws[subs..]);
    var afterSubs := PushTreeLinks(nodes, 3, Filter(nodes, {2}), draws[..subs], 2, SubLinkColor, links);
    if afterSubs.Failure? {
      return afterSubs;
    }
    r := PushTreeLinks(nodes, 4, Filter(nodes, {2, 3}), draws[subs..], 1, RelatedLinkColor, afterSubs.value);
  }

  // ---------------------------------------------------------------------
  // Properties of the link list
  // ---------------------------------------------------------------------

  /** Node ids are pairwise distinct. */
  predicate DistinctIds(nodes: seq<GraphNode>) {
    forall i, j :: 0 <= i < j < |nodes| ==> nodes[i].id != nodes[j].id
  }

  /** Two different nodes of a list with distinct ids have different ids. */
  lemma DistinctIdsDiffer(nodes: seq<GraphNode>, a: GraphNode, b: GraphNode)
    requires DistinctIds(nodes) && a in nodes && b in nodes && a != b
    ensures a.id != b.id
  {
    var i :| 0 <= i < |nodes| && nodes[i] == a;
    var j :| 0 <= j < |nodes| && nodes[j] == b;
    if i < j {
      assert nodes[i].id != nodes[j].id;
    } else {
      assert nodes[j].id != nodes[i].id;
    }
  }

  /** Filtering keeps ids distinct. */
  lemma {:induction false} FilterDistinct(nodes: seq<GraphNode>, groups: set<int>)
    requires DistinctIds(nodes)
    ensures DistinctIds(Filter(nodes, groups))
    decreases |nodes|
  {
    if |nodes| > 0 {
      var pre := nodes[..|nodes| - 1];
      var last := nodes[|nodes| - 1];
      assert DistinctIds(pre);
      FilterDistinct(pre, groups);
      FilterMembers(pre, groups);
      var fp := Filter(pre, groups);
      forall k | 0 <= k < |fp|
        ensures fp[k].id != last.id
      {
        assert fp[k] in pre;
        var i :| 0 <= i < |pre| && pre[i] == fp[k];
        assert nodes[i].id != nodes[|nodes| - 1].id;
      }
    }
  }

  /** Every main concept among the first n nodes is linked from the centre by the first pass. */
  lemma {:induction false} CentreLinksContain(nodes: seq<GraphNode>, centre: Id, n: nat)
    requires n <= |nodes|
    ensures forall i :: 0 <= i < n && InGroup(nodes[i], {2}) ==>
              Link(centre, nodes[i].id, 3, CentreLinkColor) in MainLinks(nodes, centre, n)
  {
    if n > 0 {
      CentreLinksContain(nodes, centre, n - 1);
    }
  }

  /** Every main concept among the first n nodes is linked to every main concept with another id. */
  lemma {:induction false} PeerLinksInMain(nodes: seq<GraphNode>, centre: Id, n: nat, j: nat)
    requires n <= |nodes| && j < |nodes| && InGroup(nodes[j], {2})
    ensures forall i :: (0 <= i < n && InGroup(nodes[i], {2}) && nodes[i].id != nodes[j].id) ==>
              Link(nodes[i].id, nodes[j].id, 2, PeerLinkColor) in MainLinks(nodes, centre, n)
  {
    if n > 0 {
      PeerLinksInMain(nodes, centre, n - 1, j);
      var node := nodes[n - 1];
      var prev := MainLinks(nodes, centre, n - 1);
      var tail := if InGroup(node, {2}) then [Link(centre, node.id, 3, CentreLinkColor)] + PeerLinks(nodes, node, |nodes|) else [];
      assert MainLinks(nodes, centre, n) == prev + tail;
      if InGroup(node, {2}) && node.id != nodes[j].id {
        PeerLinksContain(nodes, node, |nodes|);
        assert Link(node.id, nodes[j].id, 2, PeerLinkColor) in tail;
      }
      forall i | 0 <= i < n && InGroup(nodes[i], {2}) && nodes[i].id != nodes[j].id
        ensures Link(nodes[i].id, nodes[j].id, 2, PeerLinkColor) in prev + tail
      {
        if i < n - 1 {
          assert Link(nodes[i].id, nodes[j].id, 2, PeerLinkColor) in prev;
        }
      }
    }
  }

  lemma {:induction false} PeerLinksContain(nodes: seq<GraphNode>, node: GraphNode, j: nat)
    requires j <= |nodes|
    ensures forall o :: (0 <= o < j && InGroup(nodes[o], {2}) && node.id != nodes[o].id) ==>
              Link(node.id, nodes[o].id, 2, PeerLinkColor) in PeerLinks(nodes, node, j)
  {
    if j > 0 {
      PeerLinksContain(nodes, node, j - 1);
    }
  }

  /**
   * Every main concept gets a value-3 link from the centre node, and every
   * ordered pair of main concepts with different ids a value-2 link, so peers
   * are linked in both directions.
   */
  lemma MainConceptLinks(nodes: seq<GraphNode>, draws: seq<real>)
    requires !Throws(nodes) && |draws| == DrawsNeeded(nodes) && ValidDraws(draws)
    ensures forall i :: 0 <= i < |nodes| && InGroup(nodes[i], {2}) ==>
              Link(nodes[0].id, nodes[i].id, 3, CentreLinkColor) in LinksSpec(nodes, draws)
    ensures forall i, j :: (0 <= i < |nodes| && 0 <= j < |nodes| && InGroup(nodes[i], {2}) && InGroup(nodes[j], {2}) &&
                            nodes[i].id != nodes[j].id) ==>
              && Link(nodes[i].id, nodes[j].id, 2, PeerLinkColor) in LinksSpec(nodes, draws)
              && Link(nodes[j].id, nodes[i].id, 2, PeerLinkColor) in LinksSpec(nodes, draws)
  {
    CentreLinksContain(nodes, CentreId(nodes), |nodes|);
    forall i, j | 0 <= i < |nodes| && 0 <= j < |nodes| && InGroup(nodes[i], {2}) && InGroup(nodes[j], {2}) &&
                  nodes[i].id != nodes[j].id
      ensures Link(nodes[i].id, nodes[j].id, 2, PeerLinkColor) in LinksSpec(nodes, draws)
    {
      PeerLinksInMain(nodes, CentreId(nodes), |nodes|, j);
    }
  }

  /** The links into `id`, in order. */
  function Incoming(links: seq<Link>, id: Id): (inc: seq<Link>)
    ensures forall l :: l in inc ==> l in links && l.target == id
    decreases |links|
  {
    if |links| == 0 then []
    else
      var last := links[|links| - 1];
      Incoming(links[..|links| - 1], id) + (if last.target == id then [last] else [])
  }

  lemma {:induction false} IncomingAppend(a: seq<Link>, b: seq<Link>, id: Id)
    ensures Incoming(a + b, id) == Incoming(a, id) + Incoming(b, id)
    decreases |b|
  {
    if |b| == 0 {
      assert a + b == a;
    } else {
      IncomingAppend(a, b[..|b| - 1], id);
      assert (a + b)[..|a + b| - 1] == a + b[..|b| - 1];
    }
  }

  lemma {:induction false} IncomingNone(links: seq<Link>, id: Id)
    requires forall k :: 0 <= k < |links| ==> links[k].target != id
    ensures Incoming(links, id) == []
    decreases |links|
  {
    if |links| > 0 {
      IncomingNone(links[..|links| - 1], id);
    }
  }

  lemma {:induction false} IncomingSingle(links: seq<Link>, id: Id, k: nat)
    requires k < |links| && links[k].target == id
    requires forall j :: 0 <= j < |links| && j != k ==> links[j].target != id
    ensures Incoming(links, id) == [links[k]]
    decreases |links|
  {
    var n := |links| - 1;
    var pre := links[..n];
    if k < n {
      IncomingSingle(pre, id, k);
    } else {
      IncomingNone(pre, id);
    }
  }

  /** Every link of the first pass points at a main concept. */
  lemma {:induction false} MainLinksTargets(nodes: seq<GraphNode>, centre: Id, n: nat)
    requires n <= |nodes|
    ensures forall l :: l in MainLinks(nodes, centre, n) ==>
              exists j :: 0 <= j < |nodes| && InGroup(nodes[j], {2}) && l.target == nodes[j].id
  {
    if n > 0 {
      MainLinksTargets(nodes, centre, n - 1);
      var node := nodes[n - 1];
      if InGroup(node, {2}) {
        PeerLinksTargets(nodes, node, |nodes|);
      }
    }
  }

  lemma {:induction false} PeerLinksTargets(nodes: seq<GraphNode>, node: GraphNode, j: nat)
    requires j <= |nodes|
    ensures forall l :: l in PeerLinks(nodes, node, j) ==>
              exists o :: 0 <= o < |nodes| && InGroup(nodes[o], {2}) && l.target == nodes[o].id
  {
    if j > 0 {
      PeerLinksTargets(nodes, node, j - 1);
    }
  }

  function IdsOf(ns: seq<GraphNode>): set<Id> {
    set c | c in ns :: c.id
  }

  /** Each pick is a candidate. */
  lemma TreeLinksSources(targets: seq<GraphNode>, candidates: seq<GraphNode>, draws: seq<real>, value: int, color: string)
    requires |targets| > 0 ==> |candidates| > 0
    requires |draws| == |targets| && ValidDraws(draws)
    ensures forall k :: 0 <= k < |targets| ==>
              TreeLinks(targets, candidates, draws, value, color)[k].source in IdsOf(candidates)
  {
    var ls := TreeLinks(targets, candidates, draws, value, color);
    forall k | 0 <= k < |targets|
      ensures ls[k].source in IdsOf(candidates)
    {
      var c := candidates[PickIndex(draws[k], |candidates|)];
      assert ls[k] == Link(c.id, targets[k].id, value, color);
      assert c in candidates;
    }
  }

  /** With distinct targets, a target's id receives exactly its own tree link. */
  lemma TreeLinksIncoming(targets: seq<GraphNode>, candidates: seq<GraphNode>, draws: seq<real>, value: int, color: string, k: nat)
    requires |targets| > 0 ==> |candidates| > 0
    requires |draws| == |targets| && ValidDraws(draws)
    requires DistinctIds(targets) && k < |targets|
    ensures var ls := TreeLinks(targets, candidates, draws, value, color);
            Incoming(ls, targets[k].id) == [ls[k]]
  {
    var ls := TreeLinks(targets, candidates, draws, value, color);
    forall j | 0 <= j < |ls| && j != k
      ensures ls[j].target != targets[k].id
    {
      if j < k {
        assert targets[j].id != targets[k].id;
      } else {
        assert targets[k].id != targets[j].id;
      }
    }
    IncomingSingle(ls, targets[k].id, k);
  }

  /** A node of one group is never the target of a tree link into another group. */
  lemma TreeLinksMiss(nodes: seq<GraphNode>, groups: set<int>, candidates: seq<GraphNode>, draws: seq<real>,
                      value: int, color: string, t: GraphNode)
    requires |Filter(nodes, groups)| > 0 ==> |candidates| > 0
    requires |draws| == |Filter(nodes, groups)| && ValidDraws(draws)
    requires DistinctIds(nodes) && t in nodes && !InGroup(t, groups)
    ensures Incoming(TreeLinks(Filter(nodes, groups), candidates, draws, value, color), t.id) == []
  {
    var fs := Filter(nodes, groups);
    FilterMembers(nodes, groups);
    var ls := TreeLinks(fs, candidates, draws, value, color);
    forall k | 0 <= k < |ls|
      ensures ls[k].target != t.id
    {
      assert fs[k] in nodes && fs[k] != t;
      DistinctIdsDiffer(nodes, fs[k], t);
    }
    IncomingNone(ls, t.id);
  }

  /** No link of the first pass reaches a node that is not a main concept. */
  lemma MainLinksMiss(nodes: seq<GraphNode>, t: GraphNode)
    requires DistinctIds(nodes) && t in nodes && !InGroup(t, {2})
    ensures Incoming(MainLinks(nodes, CentreId(nodes), |nodes|), t.id) == []
  {
    var ml := MainLinks(nodes, CentreId(nodes), |nodes|);
    MainLinksTargets(nodes, CentreId(nodes), |nodes|);
    forall k | 0 <= k < |ml|
      ensures ml[k].target != t.id
    {
      assert ml[k] in ml;
      var j :| 0 <= j < |nodes| && InGroup(nodes[j], {2}) && ml[k].target == nodes[j].id;
      DistinctIdsDiffer(nodes, nodes[j], t);
    }
    IncomingNone(ml, t.id);
  }

  function SubLinks(nodes: seq<GraphNode>, draws: seq<real>): seq<Link>
    requires !Throws(nodes) && |draws| == DrawsNeeded(nodes) && ValidDraws(draws)
  {
    TreeLinks(Filter(nodes, {3}), Filter(nodes, {2}), draws[..|Filter(nodes, {3})|], 2, SubLinkColor)
  }

  function RelatedLinks(nodes: seq<GraphNode>, draws: seq<real>): seq<Link>
    requires !Throws(nodes) && |draws| == DrawsNeeded(nodes) && ValidDraws(draws)
  {
    TreeLinks(Filter(nodes, {4}), Filter(nodes, {2, 3}), draws[|Filter(nodes, {3})|..], 1, RelatedLinkColor)
  }

  /** The links into one id come from the three passes in turn. */
  lemma IncomingSplit(nodes: seq<GraphNode>, draws: seq<real>, id: Id)
    requires !Throws(nodes) && |draws| == DrawsNeeded(nodes) && ValidDraws(draws)
    ensures Incoming(LinksSpec(nodes, draws), id) ==
            Incoming(MainLinks(nodes, CentreId(nodes), |nodes|), id) + Incoming(SubLinks(nodes, draws), id) +
            Incoming(RelatedLinks(nodes, draws), id)
  {
    var main := MainLinks(nodes, CentreId(nodes), |nodes|);
    assert LinksSpec(nodes, draws) == main + SubLinks(nodes, draws) + RelatedLinks(nodes, draws);
    IncomingAppend(main + SubLinks(nodes, draws), RelatedLinks(nodes, draws), id);
    IncomingAppend(main, SubLinks(nodes, draws), id);
  }

  /** The tree link into a member of the target group: the only one in its pass. */
  lemma TreeLinksHit(nodes: seq<GraphNode>, groups: set<int>, candidates: seq<GraphNode>, draws: seq<real>,
                     value: int, color: string, t: GraphNode)
    requires |Filter(nodes, groups)| > 0 ==> |candidates| > 0
    requires |draws| == |Filter(nodes, groups)| && ValidDraws(draws)
    requires DistinctIds(nodes) && t in nodes && InGroup(t, groups)
    ensures var inc := Incoming(TreeLinks(Filter(nodes, groups), candidates, draws, value, color), t.id);
            |inc| == 1 && inc[0].value == value && inc[0].color == color && inc[0].source in IdsOf(candidates)
  {
    var fs := Filter(nodes, groups);
    FilterMembers(nodes, groups);
    FilterDistinct(nodes, groups);
    var k :| 0 <= k < |fs| && fs[k] == t;
    TreeLinksIncoming(fs, candidates, draws, value, color, k);
    TreeLinksSources(fs, candidates, draws, value, color);
  }

  /**
   * With distinct ids, every sub concept has exactly one incoming link, of
   * value 2, from a main concept.
   */
  lemma SubConceptHasOneParent(nodes: seq<GraphNode>, draws: seq<real>, t: GraphNode)
    requires !Throws(nodes) && |draws| == DrawsNeeded(nodes) && ValidDraws(draws)
    requires DistinctIds(nodes) && t in nodes && InGroup(t, {3})
    ensures var inc := Incoming(LinksSpec(nodes, draws), t.id);
            && |inc| == 1 && inc[0].value == 2 && inc[0].color == SubLinkColor
            && inc[0].source in IdsOf(Filter(nodes, {2}))
  {
    IncomingSplit(nodes, draws, t.id);
    MainLinksMiss(nodes, t);
    SubLinksInto(nodes, draws, t);
    RelatedLinksInto(nodes, draws, t);
    EmptyPassesDrop(Incoming(LinksSpec(nodes, draws), t.id), Incoming(MainLinks(nodes, CentreId(nodes), |nodes|), t.id),
                    Incoming(SubLinks(nodes, draws), t.id), Incoming(RelatedLinks(nodes, draws), t.id));
  }

  /**
   * With distinct ids, every related concept has exactly one incoming link,
   * of value 1, from a main or sub concept.
   */
  lemma RelatedConceptHasOneParent(nodes: seq<GraphNode>, draws: seq<real>, t: GraphNode)
    requires !Throws(nodes) && |draws| == DrawsNeeded(nodes) && ValidDraws(draws)
    requires DistinctIds(nodes) && t in nodes && InGroup(t, {4})
    ensures var inc := Incoming(LinksSpec(nodes, draws), t.id);
            && |inc| == 1 && inc[0].value == 1 && inc[0].color == RelatedLinkColor
            && inc[0].source in IdsOf(Filter(nodes, {2, 3}))
  {
    IncomingSplit(nodes, draws, t.id);
    MainLinksMiss(nodes, t);
    SubLinksInto(nodes, draws, t);
    RelatedLinksInto(nodes, draws, t);
    EmptyPassesDrop(Incoming(LinksSpec(nodes, draws), t.id), Incoming(MainLinks(nodes, CentreId(nodes), |nodes|), t.id),
                    Incoming(SubLinks(nodes, draws), t.id), Incoming(RelatedLinks(nodes, draws), t.id));
  }

  /** The links into an id from three passes, two of which contribute nothing. */
  lemma EmptyPassesDrop(whole: seq<Link>, a: seq<Link>, b: seq<Link>, c: seq<Link>)
    requires whole == a + b + c
    ensures a == [] && c == [] ==> whole == b
    ensures a == [] && b == [] ==> whole == c
  {
    assert [] + b + [] == b && [] + [] + c == c;
  }

  /** The sub-concept pass links into a node exactly once when it is a sub concept, and not at all otherwise. */
  lemma SubLinksInto(nodes: seq<GraphNode>, draws: seq<real>, t: GraphNode)
    requires !Throws(nodes) && |draws| == DrawsNeeded(nodes) && ValidDraws(draws)
    requires DistinctIds(nodes) && t in nodes
    ensures !InGroup(t, {3}) ==> Incoming(SubLinks(nodes, draws), t.id) == []
    ensures InGroup(t, {3}) ==>
              var inc := Incoming(SubLinks(nodes, draws), t.id);
              |inc| == 1 && inc[0].value == 2 && inc[0].color == SubLinkColor && inc[0].source in IdsOf(Filter(nodes, {2}))
  {
    var subs := |Filter(nodes, {3})|;
    if InGroup(t, {3}) {
      TreeLinksHit(nodes, {3}, Filter(nodes, {2}), draws[..subs], 2, SubLinkColor, t);
    } else {
      TreeLinksMiss(nodes, {3}, Filter(nodes, {2}), draws[..subs], 2, SubLinkColor, t);
    }
  }

  /** The related-concept pass links into a node exactly once when it is a related concept, and not at all otherwise. */
  lemma RelatedLinksInto(nodes: seq<GraphNode>, draws: seq<real>, t: GraphNode)
    requires !Throws(nodes) && |draws| == DrawsNeeded(nodes) && ValidDraws(draws)
    requires DistinctIds(nodes) && t in nodes
    ensures !InGroup(t, {4}) ==> Incoming(RelatedLinks(nodes, draws), t.id) == []
    ensures InGroup(t, {4}) ==>
              var inc := Incoming(RelatedLinks(nodes, draws), t.id);
              |inc| == 1 && inc[0].value == 1 && inc[0].color == RelatedLinkColor && inc[0].source in IdsOf(Filter(nodes, {2, 3}))
  {
    var subs := |Filter(nodes, {3})|;
    if InGroup(t, {4}) {
      TreeLinksHit(nodes, {4}, Filter(nodes, {2, 3}), draws[subs..], 1, RelatedLinkColor, t);
    } else {
      TreeLinksMiss(nodes, {4}, Filter(nodes, {2, 3}), draws[subs..], 1, RelatedLinkColor, t);
    }
  }

  /** With distinct ids, a main concept has a peer link to every other main concept among the first j nodes. */
  lemma {:induction false} PeerLinksLength(nodes: seq<GraphNode>, node: GraphNode, j: nat)
    requires j <= |nodes| && DistinctIds(nodes) && node in nodes
    ensures |PeerLinks(nodes, node, j)| ==
            |Filter(nodes[..j], {2})| - (if InGroup(node, {2}) && node in nodes[..j] then 1 else 0)
  {
    if j > 0 {
      PeerLinksLength(nodes, node, j - 1);
      FilterStep(nodes, {2}, j - 1);
      var other := nodes[j - 1];
      assert nodes[..j] == nodes[..j - 1] + [other];
      if other == node {
        forall i | 0 <= i < j - 1
          ensures nodes[i] != node
        {
          assert nodes[i].id != nodes[j - 1].id;
        }
        assert node !in nodes[..j - 1];
      } else {
        DistinctIdsDiffer(nodes, other, node);
      }
    }
  }

  lemma MulStep(f: nat, m: nat)
    ensures (f + 1) * m == f * m + m
  {
  }

  lemma SquareSplit(m: nat)
    ensures m * m == m + m * (m - 1)
  {
  }

  /** With distinct ids, each main concept contributes one centre link and m - 1 peer links. */
  lemma {:induction false} MainLinksLength(nodes: seq<GraphNode>, centre: Id, n: nat)
    requires n <= |nodes| && DistinctIds(nodes)
    ensures |MainLinks(nodes, centre, n)| == |Filter(nodes[..n], {2})| * |Filter(nodes, {2})|
  {
    if n > 0 {
      MainLinksLength(nodes, centre, n - 1);
      FilterStep(nodes, {2}, n - 1);
      var node := nodes[n - 1];
      if InGroup(node, {2}) {
        PeerLinksLength(nodes, node, |nodes|);
        assert nodes[..|nodes|] == nodes;
        MulStep(|Filter(nodes[..n - 1], {2})|, |Filter(nodes, {2})|);
      }
    }
  }

  /**
   * With distinct ids, m main, s sub and r related concepts give
   * m + m(m-1) + s + r links.
   */
  lemma LinkCount(nodes: seq<GraphNode>, draws: seq<real>)
    requires !Throws(nodes) && |draws| == DrawsNeeded(nodes) && ValidDraws(draws) && DistinctIds(nodes)
    ensures var m, s, r := |Filter(nodes, {2})|, |Filter(nodes, {3})|, |Filter(nodes, {4})|;
            |LinksSpec(nodes, draws)| == m + m * (m - 1) + s + r
  {
    MainLinksLength(nodes, CentreId(nodes), |nodes|);
    assert nodes[..|nodes|] == nodes;
    SquareSplit(|Filter(nodes, {2})|);
  }
}
