/** `actionAddVertex(wayId, nodeId, index)`: insert a node reference into a
    way at a position. */
module AddVertex {
  import opened Ids
  import opened Wrappers
  import opened Osm
  import opened Graphs

  /** The way node lists `AddNode` leaves in place: everything of `g` but the
      way itself. */
  predicate OnlyWayChanged(g: Graph, h: Graph, wayId: Id)
  {
    h.entities.Keys == g.entities.Keys &&
    forall id :: id in g.entities && id != wayId ==> h.entities[id] == g.entities[id]
  }

  function Apply(g: Graph, wayId: Id, nodeId: Id, index: Option<int>): (r: Result<Graph>)
    ensures wayId !in g.entities ==> r == Err(NotFound(wayId))
    ensures wayId in g.entities && !g.entities[wayId].Way? ==> r == Err(TypeError)
    ensures r.Ok? ==> wayId in g.entities && g.entities[wayId].Way?
    ensures r.Ok? ==>
      var w := g.entities[wayId];
      && OnlyWayChanged(g, r.value, wayId)
      && r.value.entities[wayId].Way?
      && r.value.entities[wayId].tags == w.tags
      && |r.value.entities[wayId].nodes| == |w.nodes| + 1
      && (IsClosed(w.nodes) ==> IsClosed(r.value.entities[wayId].nodes))
    // an index in range, other than the start of a closed way: plain
    // insertion at that index
    ensures wayId in g.entities && g.entities[wayId].Way? ==>
      var w := g.entities[wayId];
      var max := if IsClosed(w.nodes) then |w.nodes| - 1 else |w.nodes|;
      forall i :: index == Some(i) && 0 <= i <= max && (!IsClosed(w.nodes) || i > 0) ==>
        r == Ok(g.Replace(wayId, Way(Insert(w.nodes, i, nodeId), w.tags)))
    // the start of a closed way: the new id becomes both its ends
    ensures wayId in g.entities && g.entities[wayId].Way? && IsClosed(g.entities[wayId].nodes) && index == Some(0) ==>
      var w := g.entities[wayId];
      r == Ok(g.Replace(wayId, Way([nodeId] + w.nodes[..|w.nodes| - 1] + [nodeId], w.tags)))
    // no index: the id goes last, before the closing node of a closed way
    ensures wayId in g.entities && g.entities[wayId].Way? && index.None? ==>
      var w := g.entities[wayId];
      r == Ok(g.Replace(wayId, Way(
        if IsClosed(w.nodes) then w.nodes[..|w.nodes| - 1] + [nodeId, w.nodes[|w.nodes| - 1]] else w.nodes + [nodeId],
        w.tags)))
    // an index outside the range of the way (which stops before the closing
    // node of a closed way) is refused
    ensures wayId in g.entities && g.entities[wayId].Way? ==>
      var w := g.entities[wayId];
      var max := if IsClosed(w.nodes) then |w.nodes| - 1 else |w.nodes|;
      forall i :: index == Some(i) ==> (r == Err(RangeError) <==> i < 0 || i > max)
  {
    var e :- g.Get(wayId);
    if !e.Way? then Err(TypeError)
    else
      var n := |e.nodes|;
      assert IsClosed(e.nodes) ==> Insert(e.nodes, n - 1, nodeId) == e.nodes[..n - 1] + [nodeId, e.nodes[n - 1]];
      assert Insert(e.nodes, n, nodeId) == e.nodes + [nodeId];
      var nodes :- AddNode(e.nodes, nodeId, index);
      Ok(g.Replace(wayId, Way(nodes, e.tags)))
  }
}
