/**
 * The graph algorithms of the ontology view: the breadth-first descendant
 * search used for selection highlighting and the hierarchy-level computation
 * used for colouring (src/components/OntologyVisualizer.js).
 */
module OntologyGraph {

  type Id = string

  /** The part of an ontology edge both algorithms look at. */
  datatype Link = Link(source: Id, target: Id)

  // ---------------------------------------------------------------------
  // Reachability along edges, source to target
  // ---------------------------------------------------------------------

  /** Some edge goes from `a` to `b`. */
  ghost predicate HasEdge(edges: seq<Link>, a: Id, b: Id) {
    exists k :: 0 <= k < |edges| && edges[k].source == a && edges[k].target == b
  }

  /** `p` is a non-empty walk that follows edges in their declared direction. */
  ghost predicate IsPath(edges: seq<Link>, p: seq<Id>) {
    |p| >= 1 && forall i, j :: 0 <= i && j == i + 1 && j < |p| ==> HasEdge(edges, p[i], p[j])
  }

  /** `y` can be reached from `s` by following edges source to target. */
  ghost predicate Reachable(edges: seq<Link>, s: Id, y: Id) {
    exists p :: IsPath(edges, p) && p[0] == s && p[|p| - 1] == y
  }

  /** Every edge leaving `S` ends in `S`. */
  ghost predicate Closed(edges: seq<Link>, S: set<Id>) {
    forall k :: 0 <= k < |edges| && edges[k].source in S ==> edges[k].target in S
  }

  lemma ReachableSelf(edges: seq<Link>, s: Id)
    ensures Reachable(edges, s, s)
  {
    assert IsPath(edges, [s]);
  }

  /** Following one more edge keeps a node reachable. */
  lemma ReachableStep(edges: seq<Link>, s: Id, k: int)
    requires 0 <= k < |edges|
    requires Reachable(edges, s, edges[k].source)
    ensures Reachable(edges, s, edges[k].target)
  {
    var p :| IsPath(edges, p) && p[0] == s && p[|p| - 1] == edges[k].source;
    var q := p + [edges[k].target];
    assert HasEdge(edges, q[|p| - 1], q[|p|]);
    assert forall i :: 0 <= i < |q| - 1 ==> HasEdge(edges, q[i], q[i + 1]) by {
      forall i | 0 <= i < |q| - 1 ensures HasEdge(edges, q[i], q[i + 1]) {
        if i < |p| - 1 {
          assert q[i] == p[i] && q[i + 1] == p[i + 1];
        }
      }
    }
    assert IsPath(edges, q);
  }

  lemma {:induction false} PathEndsInClosed(edges: seq<Link>, p: seq<Id>, S: set<Id>)
    requires IsPath(edges, p) && p[0] in S && Closed(edges, S)
    ensures p[|p| - 1] in S
    decreases |p|
  {
    if |p| > 1 {
      var front := p[..|p| - 1];
      assert IsPath(edges, front) by {
        forall i | 0 <= i < |front| - 1 ensures HasEdge(edges, front[i], front[i + 1]) {
          assert front[i] == p[i] && front[i + 1] == p[i + 1];
        }
      }
      PathEndsInClosed(edges, front, S);
      assert HasEdge(edges, p[|p| - 2], p[|p| - 1]);
      var k :| 0 <= k < |edges| && edges[k].source == p[|p| - 2] && edges[k].target == p[|p| - 1];
    }
  }

  /** A closed set holding `s` holds everything reachable from `s`. */
  lemma ClosedHoldsReachable(edges: seq<Link>, s: Id, S: set<Id>)
    requires s in S && Closed(edges, S)
    ensures forall y :: Reachable(edges, s, y) ==> y in S
  {
    forall y | Reachable(edges, s, y) ensures y in S {
      var p :| IsPath(edges, p) && p[0] == s && p[|p| - 1] == y;
      PathEndsInClosed(edges, p, S);
    }
  }

  /** Reaching another node takes a first edge out of the start node. */
  lemma FirstStep(edges: seq<Link>, s: Id, y: Id)
    requires Reachable(edges, s, y) && y != s
    ensures exists k :: 0 <= k < |edges| && edges[k].source == s
  {
    var p :| IsPath(edges, p) && p[0] == s && p[|p| - 1] == y;
    assert HasEdge(edges, p[0], p[1]);
  }

  /** A node without outgoing edges reaches only itself. */
  lemma SinkReachesOnlyItself(edges: seq<Link>, s: Id)
    requires forall k :: 0 <= k < |edges| ==> edges[k].source != s
    ensures forall y :: Reachable(edges, s, y) <==> y == s
  {
    ReachableSelf(edges, s);
    forall y | Reachable(edges, s, y) ensures y == s {
      if y != s {
        FirstStep(edges, s, y);
        assert false;
      }
    }
  }

  // ---------------------------------------------------------------------
  // findDescendants (OntologyVisualizer.js:153-170)
  // ---------------------------------------------------------------------

  /** Every target of an edge, plus `start`: the only ids the search can meet. */
  function Universe(start: Id, edges: seq<Link>): set<Id> {
    {start} + set k | 0 <= k < |edges| :: edges[k].target
  }

  /** How many queue entries are already in `done` (processing one adds nothing new). */
  function StaleCount(queue: seq<Id>, done: set<Id>): nat {
    if queue == [] then 0 else (if queue[0] in done then 1 else 0) + StaleCount(queue[1..], done)
  }

  lemma {:induction false} StaleCountAppend(a: seq<Id>, b: seq<Id>, done: set<Id>)
    ensures StaleCount(a + b, done) == StaleCount(a, done) + StaleCount(b, done)
    decreases |a|
  {
    if a == [] {
      assert a + b == b;
    } else {
      assert (a + b)[1..] == a[1..] + b;
      StaleCountAppend(a[1..], b, done);
    }
  }

  lemma {:induction false} StaleCountFresh(b: seq<Id>, done: set<Id>)
    requires forall i :: 0 <= i < |b| ==> b[i] !in done
    ensures StaleCount(b, done) == 0
    decreases |b|
  {
    if b != [] {
      StaleCountFresh(b[1..], done);
    }
  }

  /** The inner `edges.forEach` of findDescendants: enqueue every target of an edge leaving `current` that is not yet visited. */
  method EnqueueChildren(edges: seq<Link>, current: Id, visited: set<Id>, queue: seq<Id>) returns (q: seq<Id>)
    ensures |q| >= |queue| && q[..|queue|] == queue
    ensures forall i :: |queue| <= i < |q| ==> q[i] !in visited && HasEdge(edges, current, q[i])
    ensures forall j :: 0 <= j < |edges| && edges[j].source == current ==>
              edges[j].target in visited || edges[j].target in q[|queue|..]
  {
    var pushed: seq<Id> := [];
    var k := 0;
    while k < |edges|
      invariant 0 <= k <= |edges|
      invariant forall i :: 0 <= i < |pushed| ==> pushed[i] !in visited && HasEdge(edges, current, pushed[i])
      invariant forall j :: 0 <= j < k && edges[j].source == current ==>
                  edges[j].target in visited || edges[j].target in pushed
    {
      if edges[k].source == current && edges[k].target !in visited {
        pushed := pushed + [edges[k].target];
      }
      k := k + 1;
    }
    q := queue + pushed;
    assert q[|queue|..] == pushed;
  }

  /** The edge `current -> y` makes `y` reachable and keeps it in the universe. */
  lemma ChildReachable(edges: seq<Link>, start: Id, current: Id, y: Id)
    requires Reachable(edges, start, current) && HasEdge(edges, current, y)
    ensures Reachable(edges, start, y) && y in Universe(start, edges)
  {
    var k :| 0 <= k < |edges| && edges[k].source == current && edges[k].target == y;
    ReachableStep(edges, start, k);
  }

  /**
   * One dequeue step keeps the frontier invariant: every edge leaving the
   * visited set ends in the visited set or in the queue.
   */
  lemma ClosurePreserved(edges: seq<Link>, before: set<Id>, oldQueue: seq<Id>, current: Id, queue: seq<Id>)
    requires |oldQueue| > 0 && current == oldQueue[0]
    requires |queue| >= |oldQueue| - 1 && queue[..|oldQueue| - 1] == oldQueue[1..]
    requires forall k :: 0 <= k < |edges| && edges[k].source in before ==>
               edges[k].target in before || edges[k].target in oldQueue
    requires forall j :: 0 <= j < |edges| && edges[j].source == current ==>
               edges[j].target in before + {current} || edges[j].target in queue[|oldQueue| - 1..]
    ensures forall k :: 0 <= k < |edges| && edges[k].source in before + {current} ==>
              edges[k].target in before + {current} || edges[k].target in queue
  {
    var rest := oldQueue[1..];
    assert queue == rest + queue[|rest|..];
    forall j | 0 <= j < |edges| && edges[j].source in before + {current}
      ensures edges[j].target in before + {current} || edges[j].target in queue
    {
      var t := edges[j].target;
      if edges[j].source != current && t !in before + {current} {
        var i :| 0 <= i < |oldQueue| && oldQueue[i] == t;
        assert rest[i - 1] == t;
      }
    }
  }

  /** What holds between two iterations of the search loop. */
  ghost predicate SearchInvariant(edges: seq<Link>, start: Id, visited: set<Id>, queue: seq<Id>) {
    && visited <= Universe(start, edges)
    && (forall i :: 0 <= i < |queue| ==> queue[i] in Universe(start, edges))
    && ((visited == {} && queue == [start]) || start in visited)
    && (forall y :: y in visited ==> Reachable(edges, start, y))
    && (forall i :: 0 <= i < |queue| ==> Reachable(edges, start, queue[i]))
    && (forall k :: 0 <= k < |edges| && edges[k].source in visited ==>
          edges[k].target in visited || edges[k].target in queue)
  }

  /** What EnqueueChildren promises about the queue after visiting `queue[0]`. */
  ghost predicate Enqueued(edges: seq<Link>, visited: set<Id>, queue: seq<Id>, queue': seq<Id>)
    requires |queue| > 0
  {
    var rest := queue[1..];
    && |queue'| >= |rest| && queue'[..|rest|] == rest
    && (forall i :: |rest| <= i < |queue'| ==> queue'[i] !in visited + {queue[0]} && HasEdge(edges, queue[0], queue'[i]))
    && (forall j :: 0 <= j < |edges| && edges[j].source == queue[0] ==>
          edges[j].target in visited + {queue[0]} || edges[j].target in queue'[|rest|..])
  }

  lemma StepKeepsReachability(edges: seq<Link>, start: Id, visited: set<Id>, queue: seq<Id>, queue': seq<Id>)
    requires |queue| > 0 && SearchInvariant(edges, start, visited, queue)
    requires Enqueued(edges, visited, queue, queue')
    ensures visited + {queue[0]} <= Universe(start, edges)
    ensures forall i :: 0 <= i < |queue'| ==> queue'[i] in Universe(start, edges)
    ensures forall y :: y in visited + {queue[0]} ==> Reachable(edges, start, y)
    ensures forall i :: 0 <= i < |queue'| ==> Reachable(edges, start, queue'[i])
  {
    var rest := queue[1..];
    forall i | 0 <= i < |queue'|
      ensures Reachable(edges, start, queue'[i]) && queue'[i] in Universe(start, edges)
    {
      if i < |rest| {
        assert queue'[i] == queue[i + 1];
      } else {
        ChildReachable(edges, start, queue[0], queue'[i]);
      }
    }
  }

  lemma StepDecreases(edges: seq<Link>, start: Id, visited: set<Id>, queue: seq<Id>, queue': seq<Id>)
    requires |queue| > 0 && SearchInvariant(edges, start, visited, queue)
    requires Enqueued(edges, visited, queue, queue')
    ensures queue[0] in visited ==> StaleCount(queue', visited) < StaleCount(queue, visited)
    ensures queue[0] !in visited ==>
              |Universe(start, edges) - (visited + {queue[0]})| < |Universe(start, edges) - visited|
  {
    if queue[0] in visited {
      StaleStepShrinks(edges, visited, queue, queue');
    } else {
      assert queue[0] in Universe(start, edges);
      FreshStepShrinks(Universe(start, edges), visited, queue[0]);
    }
  }

  /** Taking an already visited id off the queue and enqueueing only unvisited ones lowers the stale count. */
  lemma StaleStepShrinks(edges: seq<Link>, visited: set<Id>, queue: seq<Id>, queue': seq<Id>)
    requires |queue| > 0 && queue[0] in visited
    requires Enqueued(edges, visited, queue, queue')
    ensures StaleCount(queue', visited) < StaleCount(queue, visited)
  {
    var current, rest := queue[0], queue[1..];
    assert visited + {current} == visited;
    assert queue' == rest + queue'[|rest|..];
    StaleCountFresh(queue'[|rest|..], visited);
    StaleCountAppend(rest, queue'[|rest|..], visited);
    assert queue == [current] + rest;
    StaleCountAppend([current], rest, visited);
  }

  /** Visiting a new id of the universe shrinks the unvisited part. */
  lemma FreshStepShrinks(universe: set<Id>, visited: set<Id>, current: Id)
    requires current in universe && current !in visited
    ensures |universe - (visited + {current})| < |universe - visited|
  {
    assert universe - (visited + {current}) == (universe - visited) - {current};
  }

  /**
   * One iteration of the search loop: `queue.shift()`, `descendants.add`,
   * and the enqueueing of unvisited children. Either a new id is visited or
   * the queue loses an entry that was already visited.
   */
  method SearchStep(edges: seq<Link>, start: Id, visited: set<Id>, queue: seq<Id>)
    returns (visited': set<Id>, queue': seq<Id>)
    requires |queue| > 0 && SearchInvariant(edges, start, visited, queue)
    ensures SearchInvariant(edges, start, visited', queue')
    ensures visited' == visited + {queue[0]}
    ensures queue[0] in visited ==> visited' == visited && StaleCount(queue', visited') < StaleCount(queue, visited)
    ensures queue[0] !in visited ==> |Universe(start, edges) - visited'| < |Universe(start, edges) - visited|
  {
    var current := queue[0];
    var rest := queue[1..];
    visited' := visited + {current};
    queue' := EnqueueChildren(edges, current, visited', rest);
    assert Enqueued(edges, visited, queue, queue');
    StepKeepsReachability(edges, start, visited, queue, queue');
    ClosurePreserved(edges, visited, queue, current, queue');
    StepDecreases(edges, start, visited, queue, queue');
    if current in visited {
      assert visited' == visited;
    }
  }

  /**
   * The breadth-first search of findDescendants: a FIFO queue that may hold
   * duplicates, and a set of visited ids that each dequeued id joins. The
   * result is exactly the set of ids reachable from `start`.
   */
  method FindDescendants(start: Id, edges: seq<Link>) returns (descendants: set<Id>)
    ensures start in descendants
    ensures Closed(edges, descendants)
    ensures forall y :: y in descendants <==> Reachable(edges, start, y)
  {
    ReachableSelf(edges, start);
    descendants := {};
    var queue := [start];
    while |queue| > 0
      invariant SearchInvariant(edges, start, descendants, queue)
      decreases |Universe(start, edges) - descendants|, StaleCount(queue, descendants)
    {
      ghost var measure := |Universe(start, edges) - descendants|;
      ghost var stale := StaleCount(queue, descendants);
      descendants, queue := SearchStep(edges, start, descendants, queue);
      assert |Universe(start, edges) - descendants| < measure ||
             (|Universe(start, edges) - descendants| == measure && StaleCount(queue, descendants) < stale);
    }
    ClosedHoldsReachable(edges, start, descendants);
  }

  // ---------------------------------------------------------------------
  // calculateNodeLevels (OntologyVisualizer.js:35-67)
  // ---------------------------------------------------------------------

  /** Some edge ends in `t`. */
  ghost predicate HasIncoming(edges: seq<Link>, t: Id) {
    exists k :: 0 <= k < |edges| && edges[k].target == t
  }

  /**
   * The value `childToParents[t]` holds once every edge is processed: the
   * distinct sources of edges into `t`, in the insertion order of a Set.
   */
  function Parents(edges: seq<Link>, t: Id): seq<Id>
    decreases |edges|
  {
    if edges == [] then []
    else
      var p := Parents(edges[..|edges| - 1], t);
      var e := edges[|edges| - 1];
      if e.target == t && e.source !in p then p + [e.source] else p
  }

  /** The sources of edges into `t` are exactly the parents of `t`, each once. */
  lemma {:induction false} ParentsAreSources(edges: seq<Link>, t: Id)
    ensures forall x :: x in Parents(edges, t) <==> HasEdge(edges, x, t)
    ensures forall i, j :: 0 <= i < j < |Parents(edges, t)| ==> Parents(edges, t)[i] != Parents(edges, t)[j]
    ensures |Parents(edges, t)| > 0 <==> HasIncoming(edges, t)
    decreases |edges|
  {
    if edges != [] {
      var front := edges[..|edges| - 1];
      var e := edges[|edges| - 1];
      ParentsAreSources(front, t);
      forall x ensures HasEdge(edges, x, t) <==> HasEdge(front, x, t) || (e.source == x && e.target == t) {
        if HasEdge(edges, x, t) {
          var k :| 0 <= k < |edges| && edges[k].source == x && edges[k].target == t;
          if k < |front| { assert front[k] == edges[k]; }
        }
        if HasEdge(front, x, t) {
          var k :| 0 <= k < |front| && front[k].source == x && front[k].target == t;
          assert edges[k] == front[k];
        }
      }
      if HasIncoming(front, t) {
        var k :| 0 <= k < |front| && front[k].target == t;
        assert edges[k] == front[k];
      }
      if HasIncoming(edges, t) && e.target != t {
        var k :| 0 <= k < |edges| && edges[k].target == t;
        assert front[k] == edges[k];
      }
      if e.target == t {
        assert HasEdge(edges, e.source, t);
      }
    }
  }

  /**
   * The first `edges.forEach` of calculateNodeLevels: `childToParents` maps
   * every edge target to the Set of its sources.
   */
  method BuildChildToParents(edges: seq<Link>) returns (childToParents: map<Id, seq<Id>>)
    ensures forall t :: t in childToParents <==> HasIncoming(edges, t)
    ensures forall t :: t in childToParents ==> childToParents[t] == Parents(edges, t)
  {
    childToParents := map[];
    var k := 0;
    while k < |edges|
      invariant 0 <= k <= |edges|
      invariant forall t :: t in childToParents <==> HasIncoming(edges[..k], t)
      invariant forall t :: t in childToParents ==> childToParents[t] == Parents(edges[..k], t)
    {
      var e := edges[k];
      assert edges[..k + 1][..k] == edges[..k];
      if e.target !in childToParents {
        ParentsAreSources(edges[..k], e.target);
        childToParents := childToParents[e.target := []];
      }
      if e.source !in childToParents[e.target] {
        childToParents := childToParents[e.target := childToParents[e.target] + [e.source]];
      }
      forall t ensures HasIncoming(edges[..k + 1], t) <==> HasIncoming(edges[..k], t) || t == e.target {
        if HasIncoming(edges[..k + 1], t) && t != e.target {
          var j :| 0 <= j < k + 1 && edges[..k + 1][j].target == t;
          assert edges[..k][j] == edges[j];
        }
        if HasIncoming(edges[..k], t) {
          var j :| 0 <= j < k && edges[..k][j].target == t;
          assert edges[..k + 1][j] == edges[j];
        }
        if t == e.target {
          assert edges[..k + 1][k].target == t;
        }
      }
      k := k + 1;
    }
    assert edges[..k] == edges;
  }

  /** Every id listed as some node's parent. */
  function ParentIds(childToParents: map<Id, seq<Id>>): set<Id> {
    set t, p | t in childToParents && p in childToParents[t] :: p
  }

  /** The ids the level recursion can visit when it starts at `id`. */
  function LevelUniverse(childToParents: map<Id, seq<Id>>, id: Id): set<Id> {
    {id} + childToParents.Keys + ParentIds(childToParents)
  }

  lemma SubsetCardinality(a: set<Id>, b: set<Id>)
    requires a <= b
    ensures |a| <= |b|
  {
    assert b == a + (b - a);
  }

  /**
   * calculateLevel: 0 for an id already visited in this walk or without
   * parents, otherwise one more than the largest level of its parents, each
   * computed with the visited set left by its earlier siblings. The depth
   * is bounded by the number of ids not yet visited, so cycles terminate.
   */
  method CalculateLevel(childToParents: map<Id, seq<Id>>, id: Id, visited: set<Id>)
    returns (level: nat, visited': set<Id>)
    ensures visited + {id} <= visited'
    ensures id in visited ==> level == 0 && visited' == visited
    ensures id !in visited ==> (level == 0 <==> id !in childToParents || childToParents[id] == [])
    ensures level <= |LevelUniverse(childToParents, id) - visited|
    decreases |LevelUniverse(childToParents, id) - visited|
  {
    if id in visited {
      return 0, visited;
    }
    visited' := visited + {id};
    var parents := if id in childToParents then childToParents[id] else [];
    if |parents| == 0 {
      return 0, visited';
    }
    ghost var universe := LevelUniverse(childToParents, id);
    assert universe - (visited + {id}) == (universe - visited) - {id};
    var best: nat := 0;
    var i := 0;
    while i < |parents|
      invariant 0 <= i <= |parents|
      invariant visited + {id} <= visited'
      invariant best + 1 <= |universe - visited|
    {
      var p := parents[i];
      assert id in childToParents && p in childToParents[id];
      assert p in ParentIds(childToParents);
      assert LevelUniverse(childToParents, p) <= universe;
      SubsetCardinality(LevelUniverse(childToParents, p) - visited', universe - (visited + {id}));
      var l;
      l, visited' := CalculateLevel(childToParents, p, visited');
      if l > best {
        best := l;
      }
      i := i + 1;
    }
    level := best + 1;
  }

  /** An id has no parents in `childToParents` exactly when no edge ends in it. */
  lemma RootIffNoIncoming(edges: seq<Link>, childToParents: map<Id, seq<Id>>, id: Id)
    requires forall t :: t in childToParents <==> HasIncoming(edges, t)
    requires forall t :: t in childToParents ==> childToParents[t] == Parents(edges, t)
    ensures (id !in childToParents || childToParents[id] == []) <==> !HasIncoming(edges, id)
  {
    ParentsAreSources(edges, id);
  }

  /** `levels[node.id] = calculateLevel(node.id)`: one walk with a fresh visited set. */
  method NodeLevel(edges: seq<Link>, childToParents: map<Id, seq<Id>>, id: Id) returns (level: nat)
    requires forall t :: t in childToParents <==> HasIncoming(edges, t)
    requires forall t :: t in childToParents ==> childToParents[t] == Parents(edges, t)
    ensures level == 0 <==> !HasIncoming(edges, id)
  {
    var walked;
    level, walked := CalculateLevel(childToParents, id, {});
    RootIffNoIncoming(edges, childToParents, id);
  }

  /**
   * calculateNodeLevels: every listed node gets an entry, computed with a
   * fresh visited set; it is 0 exactly when no edge ends in that node.
   */
  method CalculateNodeLevels(nodeIds: seq<Id>, edges: seq<Link>) returns (levels: map<Id, nat>)
    ensures levels.Keys == set i | 0 <= i < |nodeIds| :: nodeIds[i]
    ensures forall i :: 0 <= i < |nodeIds| ==> (levels[nodeIds[i]] == 0 <==> !HasIncoming(edges, nodeIds[i]))
  {
    var childToParents := BuildChildToParents(edges);
    levels := map[];
    var i := 0;
    while i < |nodeIds|
      invariant 0 <= i <= |nodeIds|
      invariant levels.Keys == set j | 0 <= j < i :: nodeIds[j]
      invariant forall x :: x in levels ==> (levels[x] == 0 <==> !HasIncoming(edges, x))
    {
      var id := nodeIds[i];
      var level := NodeLevel(edges, childToParents, id);
      levels := levels[id := level];
      assert (set j | 0 <= j < i + 1 :: nodeIds[j]) == (set j | 0 <= j < i :: nodeIds[j]) + {id};
      i := i + 1;
    }
  }
}
