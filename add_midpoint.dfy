/** `actionAddMidpoint(midpoint, node)`: place a node at a midpoint location
    and splice it into every way that runs along the midpoint's edge. */
module AddMidpoint {
  import opened Ids
  import opened Wrappers
  import opened Osm
  import opened Graphs

  /** A midpoint handle: where the node goes and the two node identifiers of
      the edge it sits on. */
  datatype Midpoint = Midpoint(loc: Loc, a: Id, b: Id)

  /** `geoEdgeEqual([x, y], [a, b])`: the same edge in either direction. */
  predicate EdgeEqual(x: Id, y: Id, a: Id, b: Id)
  {
    (x == a && y == b) || (x == b && y == a)
  }

  /** The first position `i` at or after `from` whose segment
      `(nodes[i], nodes[i + 1])` is the edge. */
  function FirstEdgeFrom(nodes: seq<Id>, a: Id, b: Id, from: nat): (r: Option<nat>)
    ensures r.Some? ==>
      && from <= r.value && r.value + 1 < |nodes|
      && EdgeEqual(nodes[r.value], nodes[r.value + 1], a, b)
      && forall j :: from <= j < r.value ==> !EdgeEqual(nodes[j], nodes[j + 1], a, b)
    ensures r.None? ==> forall j :: from <= j < |nodes| - 1 ==> !EdgeEqual(nodes[j], nodes[j + 1], a, b)
    decreases |nodes| - from
  {
    if from + 1 >= |nodes| then None
    else if EdgeEqual(nodes[from], nodes[from + 1], a, b) then Some(from)
    else FirstEdgeFrom(nodes, a, b, from + 1)
  }

  function FirstEdge(nodes: seq<Id>, a: Id, b: Id): Option<nat>
  {
    FirstEdgeFrom(nodes, a, b, 0)
  }

  /** The inner `for` loop: scan the segments in order and stop at the first
      that is the edge. */
  method FindEdge(nodes: seq<Id>, a: Id, b: Id) returns (found: Option<nat>)
    ensures found == FirstEdge(nodes, a, b)
  {
    var i := 0;
    while i < |nodes| - 1
      invariant i == 0 || i < |nodes|
      invariant forall j :: 0 <= j < i ==> !EdgeEqual(nodes[j], nodes[j + 1], a, b)
    {
      if EdgeEqual(nodes[i], nodes[i + 1], a, b) {
        return Some(i);
      }
      i := i + 1;
    }
    return None;
  }

  /** The node list of a way after the action: the node inserted after the
      first occurrence of the edge, or the list unchanged. */
  function WithMidpoint(nodes: seq<Id>, nodeId: Id, a: Id, b: Id): seq<Id>
  {
    match FirstEdge(nodes, a, b)
    case None => nodes
    case Some(i) => Insert(nodes, i + 1, nodeId)
  }

  /** No segment of the list is the edge. */
  predicate NoEdge(nodes: seq<Id>, a: Id, b: Id)
  {
    forall j :: 0 <= j < |nodes| - 1 ==> !EdgeEqual(nodes[j], nodes[j + 1], a, b)
  }

  /** Segment `i` is the edge and no earlier one is. */
  predicate FirstEdgeAt(nodes: seq<Id>, a: Id, b: Id, i: nat)
  {
    i + 1 < |nodes| && EdgeEqual(nodes[i], nodes[i + 1], a, b) &&
    forall j :: 0 <= j < i ==> !EdgeEqual(nodes[j], nodes[j + 1], a, b)
  }

  /** The way changes only when it runs along the edge; then the node goes
      between the two ends of the first such segment, the list grows by
      exactly one and every other reference keeps its place and order. */
  lemma WithMidpointShape(nodes: seq<Id>, nodeId: Id, a: Id, b: Id)
    ensures NoEdge(nodes, a, b) ==> WithMidpoint(nodes, nodeId, a, b) == nodes
    ensures forall i :: FirstEdgeAt(nodes, a, b, i) ==>
      WithMidpoint(nodes, nodeId, a, b) == nodes[..i + 1] + [nodeId] + nodes[i + 1..]
  {
    var r := FirstEdge(nodes, a, b);
    forall i: nat | FirstEdgeAt(nodes, a, b, i)
      ensures WithMidpoint(nodes, nodeId, a, b) == nodes[..i + 1] + [nodeId] + nodes[i + 1..]
    {
      assert r.Some? && r.value == i;
    }
  }

  /** The insertion is `way.addNode(node.id, i + 1)`, which never fails here:
      `i + 1` is at most the last position, the closing node of a closed way. */
  lemma AddNodeAtEdge(nodes: seq<Id>, nodeId: Id, i: nat)
    requires i + 1 < |nodes|
    ensures AddNode(nodes, nodeId, Some(i + 1)) == Ok(Insert(nodes, i + 1, nodeId))
  {
  }

  /** `utilArrayIntersection(xs, ys)`: the elements of `xs` also in `ys`, in
      the order of `xs`. */
  function Intersection(xs: seq<Id>, ys: seq<Id>): (r: seq<Id>)
    requires Increasing(xs)
    ensures forall x :: x in r <==> x in xs && x in ys
    ensures Increasing(r)
  {
    if xs == [] then []
    else
      var rest := Intersection(xs[1..], ys);
      assert forall k :: 0 <= k < |rest| ==> xs[0] < rest[k] by {
        forall k | 0 <= k < |rest| ensures xs[0] < rest[k] {
          assert rest[k] in xs[1..];
        }
      }
      (if xs[0] in ys then [xs[0]] else []) + rest
  }

  /** The graph after the listed ways have been processed: each of them that
      is a way carries its node list `WithMidpoint`, everything else is as
      in `h`. */
  function Threaded(h: Graph, ways: set<Id>, nodeId: Id, a: Id, b: Id): (r: Graph)
    ensures r.entities.Keys == h.entities.Keys
  {
    Graph(map id | id in h.entities ::
      if id in ways && h.entities[id].Way?
      then Way(WithMidpoint(h.entities[id].nodes, nodeId, a, b), h.entities[id].tags)
      else h.entities[id])
  }

  /** Entities other than the listed ways, and every node, are untouched. */
  lemma ThreadedKeeps(h: Graph, ways: set<Id>, nodeId: Id, a: Id, b: Id, id: Id)
    requires id in h.entities && (id !in ways || !h.entities[id].Way?)
    ensures Threaded(h, ways, nodeId, a, b).entities[id] == h.entities[id]
  {
  }

  /** A listed way not yet processed still has its node list from `h`. */
  lemma ThreadedKeepsWay(h: Graph, ways: set<Id>, nodeId: Id, a: Id, b: Id, id: Id)
    requires id in h.entities && id !in ways
    ensures Threaded(h, ways, nodeId, a, b).entities[id] == h.entities[id]
  {
  }

  lemma ThreadedEmpty(h: Graph, nodeId: Id, a: Id, b: Id)
    ensures Threaded(h, {}, nodeId, a, b) == h
  {
    assert Threaded(h, {}, nodeId, a, b).entities == h.entities;
  }

  lemma ThreadedStep(h: Graph, ways: set<Id>, w: Id, nodeId: Id, a: Id, b: Id)
    requires w !in ways && w in h.entities && h.entities[w].Way?
    ensures Threaded(h, ways + {w}, nodeId, a, b) ==
      Threaded(h, ways, nodeId, a, b).Replace(w,
        Way(WithMidpoint(h.entities[w].nodes, nodeId, a, b), h.entities[w].tags))
  {
    var after := Threaded(h, ways + {w}, nodeId, a, b);
    var step := Threaded(h, ways, nodeId, a, b).Replace(w,
      Way(WithMidpoint(h.entities[w].nodes, nodeId, a, b), h.entities[w].tags));
    assert after.entities.Keys == step.entities.Keys;
    forall id | id in h.entities ensures after.entities[id] == step.entities[id] {
      if id != w {
        assert step.entities[id] == Threaded(h, ways, nodeId, a, b).entities[id];
      }
    }
    assert after.entities == step.entities;
  }

  lemma ThreadedUnchanged(h: Graph, ways: set<Id>, w: Id, nodeId: Id, a: Id, b: Id)
    requires w !in ways && w in h.entities && h.entities[w].Way?
    requires FirstEdge(h.entities[w].nodes, a, b).None?
    ensures Threaded(h, ways + {w}, nodeId, a, b) == Threaded(h, ways, nodeId, a, b)
  {
    var after := Threaded(h, ways + {w}, nodeId, a, b);
    var before := Threaded(h, ways, nodeId, a, b);
    forall id | id in h.entities ensures after.entities[id] == before.entities[id] {
      if id == w {
        assert WithMidpoint(h.entities[w].nodes, nodeId, a, b) == h.entities[w].nodes;
      }
    }
    assert after.entities == before.entities;
  }

  /** The ways that are parents of both ends of the edge. */
  function CommonParents(h: Graph, a: Id, b: Id): set<Id>
  {
    set w | w in h.entities && h.IsParentWay(w, a) && h.IsParentWay(w, b)
  }

  function Listed(s: seq<Id>): set<Id>
  {
    set w | w in s
  }

  /** The ways the action visits are the common parents, each a way. */
  lemma CommonParentsListed(h: Graph, a: Id, b: Id)
    ensures var parents := Intersection(h.ParentWays(a), h.ParentWays(b));
      && Increasing(parents)
      && Listed(parents) == CommonParents(h, a, b)
      && forall k :: 0 <= k < |parents| ==> parents[k] in h.entities && h.entities[parents[k]].Way?
  {
    var parents := Intersection(h.ParentWays(a), h.ParentWays(b));
    forall k | 0 <= k < |parents| ensures parents[k] in h.entities && h.entities[parents[k]].Way? {
      assert parents[k] in parents;
    }
  }

  /** The graph with the node placed at the midpoint location:
      `graph.replace(node.move(midpoint.loc))`. */
  function Moved(g: Graph, midpoint: Midpoint, nodeId: Id, node: Entity): Graph
    requires node.Node?
  {
    g.Replace(nodeId, Node(midpoint.loc, node.tags))
  }

  lemma NotYetListed(s: seq<Id>, k: nat)
    requires Increasing(s) && k < |s|
    ensures s[k] !in Listed(s[..k])
  {
    forall x | x in s[..k] ensures x < s[k] {
      var j :| 0 <= j < k && s[..k][j] == x;
    }
  }

  /** One way of the `forEach`: it still has its node list from `h`, and
      replacing it, if its edge is found, extends the processed prefix. */
  lemma ThreadNext(h: Graph, parents: seq<Id>, k: nat, nodeId: Id, a: Id, b: Id, graph: Graph,
                   found: Option<nat>)
    requires Increasing(parents) && k < |parents|
    requires forall k :: 0 <= k < |parents| ==> parents[k] in h.entities && h.entities[parents[k]].Way?
    requires graph == Threaded(h, Listed(parents[..k]), nodeId, a, b)
    requires found == FirstEdge(h.entities[parents[k]].nodes, a, b)
    ensures parents[k] in graph.entities && graph.entities[parents[k]] == h.entities[parents[k]]
    ensures found.None? ==> graph == Threaded(h, Listed(parents[..k + 1]), nodeId, a, b)
    ensures found.Some? ==>
      var w := h.entities[parents[k]];
      AddNode(w.nodes, nodeId, Some(found.value + 1)).Ok? &&
      graph.Replace(parents[k], Way(AddNode(w.nodes, nodeId, Some(found.value + 1)).value, w.tags)) ==
        Threaded(h, Listed(parents[..k + 1]), nodeId, a, b)
  {
    var p := parents[k];
    var done := Listed(parents[..k]);
    assert Listed(parents[..k + 1]) == done + {p} by {
      assert parents[..k + 1] == parents[..k] + [p];
    }
    NotYetListed(parents, k);
    ThreadedKeepsWay(h, done, nodeId, a, b, p);
    if found.Some? {
      AddNodeAtEdge(h.entities[p].nodes, nodeId, found.value);
      ThreadedStep(h, done, p, nodeId, a, b);
    } else {
      ThreadedUnchanged(h, done, p, nodeId, a, b);
    }
  }

  /** The `forEach` over the common parent ways: at most one insertion
      each, into the way as it stands in the graph being threaded. */
  method ThreadWays(h: Graph, parents: seq<Id>, nodeId: Id, a: Id, b: Id) returns (graph: Graph)
    requires Increasing(parents)
    requires forall k :: 0 <= k < |parents| ==> parents[k] in h.entities && h.entities[parents[k]].Way?
    ensures graph == Threaded(h, Listed(parents), nodeId, a, b)
  {
    graph := h;
    ThreadedEmpty(h, nodeId, a, b);
    assert Listed(parents[..0]) == {};
    var k := 0;
    while k < |parents|
      invariant 0 <= k <= |parents|
      invariant graph == Threaded(h, Listed(parents[..k]), nodeId, a, b)
    {
      graph := ThreadOne(h, parents, k, nodeId, a, b, graph);
      k := k + 1;
    }
    assert parents[..k] == parents;
  }

  /** The body of the `forEach` for the `k`-th common parent way. */
  method ThreadOne(h: Graph, parents: seq<Id>, k: nat, nodeId: Id, a: Id, b: Id, graph: Graph)
    returns (next: Graph)
    requires Increasing(parents) && k < |parents|
    requires forall k :: 0 <= k < |parents| ==> parents[k] in h.entities && h.entities[parents[k]].Way?
    requires graph == Threaded(h, Listed(parents[..k]), nodeId, a, b)
    ensures next == Threaded(h, Listed(parents[..k + 1]), nodeId, a, b)
  {
    var p := parents[k];
    var way := h.entities[p];
    var found := FindEdge(way.nodes, a, b);
    ThreadNext(h, parents, k, nodeId, a, b, graph, found);
    next := graph;
    if found.Some? {
      var cur := graph.entities[p];
      next := graph.Replace(p, Way(AddNode(cur.nodes, nodeId, Some(found.value + 1)).value, cur.tags));
    }
  }

  method Apply(g: Graph, midpoint: Midpoint, nodeId: Id, node: Entity) returns (r: Result<Graph>)
    // `move` exists on nodes only
    ensures !node.Node? ==> r == Err(TypeError)
    ensures node.Node? && midpoint.a !in Moved(g, midpoint, nodeId, node).entities ==>
      r == Err(NotFound(midpoint.a))
    ensures (node.Node? && midpoint.a in Moved(g, midpoint, nodeId, node).entities &&
             midpoint.b !in Moved(g, midpoint, nodeId, node).entities) ==>
      r == Err(NotFound(midpoint.b))
    // the common parent ways of the edge's ends each get the node after the
    // edge's first occurrence; nothing else changes
    ensures (node.Node? && midpoint.a in Moved(g, midpoint, nodeId, node).entities &&
             midpoint.b in Moved(g, midpoint, nodeId, node).entities) ==>
      var h := Moved(g, midpoint, nodeId, node);
      r == Ok(Threaded(h, CommonParents(h, midpoint.a, midpoint.b), nodeId, midpoint.a, midpoint.b))
    // the node is at the midpoint location
    ensures r.Ok? ==> nodeId in r.value.entities && r.value.entities[nodeId] == Node(midpoint.loc, node.tags)
  {
    if !node.Node? {
      return Err(TypeError);
    }
    var h := g.Replace(nodeId, Node(midpoint.loc, node.tags));
    var ea :- h.Get(midpoint.a);
    var eb :- h.Get(midpoint.b);
    var parents := Intersection(h.ParentWays(midpoint.a), h.ParentWays(midpoint.b));
    CommonParentsListed(h, midpoint.a, midpoint.b);
    var graph := ThreadWays(h, parents, nodeId, midpoint.a, midpoint.b);
    assert graph.entities[nodeId] == Node(midpoint.loc, node.tags) by {
      ThreadedKeeps(h, Listed(parents), nodeId, midpoint.a, midpoint.b, nodeId);
    }
    return Ok(graph);
  }
}
