/** The delete family: `actionDeleteNode`, `actionDeleteRelation` and
    `actionDeleteMultiple`, which call one another through their cascades,
    and `actionDeleteWay`, which they call but whose source is not part of this
    model.

    No measure of the graph decreases along the cascade: `deleteRelation`
    hands a graph of the same size to the deletion of a parent relation, and
    it rebuilds the relation from its value as first read at every member
    step. The recursion is therefore bounded by `fuel`; running out of it is
    the error `OutOfFuel`, and every statement below about an `Ok` result
    holds for any fuel. */
module Deletion {
  import opened Ids
  import opened Wrappers
  import opened Osm
  import opened Graphs

  /** What a deletion may do to a graph: drop entities and rewrite ways and
      relations. It never creates an identifier, never changes the kind of
      an entity and never alters a node. */
  predicate DeletionOnly(g: Graph, h: Graph)
  {
    h.entities.Keys <= g.entities.Keys &&
    forall id :: id in h.entities ==>
      KindOf(h.entities[id]) == KindOf(g.entities[id]) &&
      (h.entities[id].Node? ==> h.entities[id] == g.entities[id])
  }

  lemma DeletionOnlyTrans(a: Graph, b: Graph, c: Graph)
    requires DeletionOnly(a, b) && DeletionOnly(b, c)
    ensures DeletionOnly(a, c)
  {
  }

  /** Rewriting a way or a relation in place, or removing anything, keeps a
      graph within what a deletion may do. */
  lemma ReplaceKeeps(g: Graph, h: Graph, id: Id, e: Entity)
    requires DeletionOnly(g, h) && id in g.entities && KindOf(e) == KindOf(g.entities[id]) && !e.Node?
    ensures DeletionOnly(g, h.Replace(id, e))
  {
  }

  lemma RemoveKeeps(g: Graph, h: Graph, id: Id)
    requires DeletionOnly(g, h)
    ensures DeletionOnly(g, h.Remove(id))
  {
  }

  lemma RemoveAfterReplace(h: Graph, id: Id, e: Entity)
    ensures h.Replace(id, e).Remove(id) == h.Remove(id)
  {
    assert h.Replace(id, e).Remove(id).entities == h.Remove(id).entities;
  }

  lemma ReplaceAfterRemove(a: Graph, b: Graph, id: Id, e: Entity)
    requires a.Remove(id) == b.Remove(id)
    ensures a.Replace(id, e) == b.Replace(id, e)
  {
    forall k | k != id ensures (k in a.entities <==> k in b.entities) {
      assert k in a.entities <==> k in a.Remove(id).entities;
      assert k in b.entities <==> k in b.Remove(id).entities;
    }
    forall k | k != id && k in a.entities ensures a.entities[k] == b.entities[k] {
      assert a.entities[k] == a.Remove(id).entities[k];
      assert b.entities[k] == b.Remove(id).entities[k];
    }
    assert a.Replace(id, e).entities == b.Replace(id, e).entities;
  }

  /** `actionDeleteWay(wayId)`, modelled as removing the way and nothing
      else. The exact results stated below for node deletion rely on this:
      every other entity is left as it is. */
  function DeleteWay(g: Graph, wayId: Id): (r: Result<Graph>)
    ensures r.Err? <==> wayId !in g.entities
    ensures r.Err? ==> r.error == NotFound(wayId)
    ensures r.Ok? ==> r.value.entities.Keys == g.entities.Keys - {wayId} && DeletionOnly(g, r.value)
  {
    if wayId in g.entities then Ok(g.Remove(wayId)) else Err(NotFound(wayId))
  }

  // ------------------------------------------------------------ deleteNode

  /** A way or relation with the node `nodeId` taken out, as `deleteNode`
      rewrites each parent. */
  function StripNode(e: Entity, nodeId: Id): Entity
  {
    match e
    case Node(_, _) => e
    case Way(nodes, tags) => if nodeId in nodes then Way(RemoveNode(nodes, nodeId), tags) else e
    case Relation(members, tags) => Relation(RemoveMembersWithID(members, nodeId), tags)
  }

  /** The graph `deleteNode` leaves when no cascade fires: the node gone, and
      every way and relation that mentioned it rewritten without it. */
  function NodeStripped(g: Graph, nodeId: Id): Graph
  {
    Graph(map id | id in g.entities && id != nodeId :: StripNode(g.entities[id], nodeId))
  }

  /** `h` with the entities listed in `ids` rewritten by `StripNode`. */
  function StripAll(h: Graph, nodeId: Id, ids: seq<Id>): Graph
  {
    Graph(map id | id in h.entities :: if id in ids then StripNode(h.entities[id], nodeId) else h.entities[id])
  }

  /** `w` is a way of `g` that is degenerate once `nodeId` is taken out. */
  predicate WayDegenerateAfter(g: Graph, w: Id, nodeId: Id, areaKeys: AreaKeys)
  {
    w in g.entities && g.entities[w].Way? &&
    IsWayDegenerate(RemoveNode(g.entities[w].nodes, nodeId), g.entities[w].tags, areaKeys)
  }

  /** `p` is a relation of `g` left without members once `id` is taken out. */
  predicate RelationDegenerateAfter(g: Graph, p: Id, id: Id)
  {
    p in g.entities && g.entities[p].Relation? &&
    IsRelationDegenerate(RemoveMembersWithID(g.entities[p].members, id))
  }

  /** Some parent of the node becomes degenerate once the node is taken out. */
  ghost predicate NodeCascades(g: Graph, nodeId: Id, areaKeys: AreaKeys)
  {
    (exists w :: g.IsParentWay(w, nodeId) && WayDegenerateAfter(g, w, nodeId, areaKeys)) ||
    (exists p :: g.IsParentRelation(p, nodeId) && RelationDegenerateAfter(g, p, nodeId))
  }

  /** The graph after the way loop of `deleteNode` over `ways`: every listed
      way rewritten without the node, as read in `g`, and every one of them
      that became degenerate deleted. */
  function WaysStripped(g: Graph, nodeId: Id, ways: seq<Id>, areaKeys: AreaKeys): Graph
  {
    Stripped(g, nodeId, ways, DegenerateWays(g, nodeId, ways, areaKeys))
  }

  /** `g` with the listed ways rewritten without the node and the ways in
      `gone` deleted. */
  function Stripped(g: Graph, nodeId: Id, ways: seq<Id>, gone: set<Id>): Graph
  {
    Graph(map id | id in g.entities && id !in gone ::
      if id in ways && g.entities[id].Way?
      then Way(RemoveNode(g.entities[id].nodes, nodeId), g.entities[id].tags)
      else g.entities[id])
  }

  /** The listed ways that are degenerate once the node is taken out. */
  function DegenerateWays(g: Graph, nodeId: Id, ways: seq<Id>, areaKeys: AreaKeys): set<Id>
    decreases |ways|
  {
    if ways == [] then {}
    else
      var w := ways[|ways| - 1];
      DegenerateWays(g, nodeId, ways[..|ways| - 1], areaKeys) +
      (if WayDegenerateAfter(g, w, nodeId, areaKeys) then {w} else {})
  }

  lemma {:induction false} DegenerateWaysAre(g: Graph, nodeId: Id, ways: seq<Id>, areaKeys: AreaKeys)
    ensures forall w :: w in DegenerateWays(g, nodeId, ways, areaKeys) <==>
      w in ways && WayDegenerateAfter(g, w, nodeId, areaKeys)
  {
    if ways != [] {
      var n := |ways| - 1;
      DegenerateWaysAre(g, nodeId, ways[..n], areaKeys);
      assert ways == ways[..n] + [ways[n]];
    }
  }

  lemma {:induction false} NotDegenerateWay(g: Graph, nodeId: Id, ways: seq<Id>, areaKeys: AreaKeys, w: Id)
    requires !WayDegenerateAfter(g, w, nodeId, areaKeys)
    ensures w !in DegenerateWays(g, nodeId, ways, areaKeys)
  {
    if ways != [] {
      NotDegenerateWay(g, nodeId, ways[..|ways| - 1], areaKeys, w);
    }
  }

  /** The way loop only rewrites and deletes ways, and leaves no degenerate
      way behind. */
  lemma WaysStrippedDeletes(g: Graph, nodeId: Id, ways: seq<Id>, areaKeys: AreaKeys)
    ensures DeletionOnly(g, WaysStripped(g, nodeId, ways, areaKeys))
    ensures forall w :: w in ways && WayDegenerateAfter(g, w, nodeId, areaKeys) ==>
      w !in WaysStripped(g, nodeId, ways, areaKeys).entities
    ensures forall id :: id in g.entities && !g.entities[id].Way? ==>
      id in WaysStripped(g, nodeId, ways, areaKeys).entities &&
      WaysStripped(g, nodeId, ways, areaKeys).entities[id] == g.entities[id]
  {
    DegenerateWaysAre(g, nodeId, ways, areaKeys);
  }

  /** With no way left degenerate, the way loop rewrites exactly the listed
      ways. */
  lemma WaysStrippedQuiet(g: Graph, nodeId: Id, ways: seq<Id>, areaKeys: AreaKeys)
    requires forall w :: w in ways ==>
      w in g.entities && g.entities[w].Way? && nodeId in g.entities[w].nodes &&
      !WayDegenerateAfter(g, w, nodeId, areaKeys)
    ensures WaysStripped(g, nodeId, ways, areaKeys) == StripAll(g, nodeId, ways)
  {
    DegenerateWaysAre(g, nodeId, ways, areaKeys);
    assert WaysStripped(g, nodeId, ways, areaKeys).entities == StripAll(g, nodeId, ways).entities;
  }

  /** One turn of the way loop extends `WaysStripped` by one way. */
  lemma WaysStrippedStep(g: Graph, nodeId: Id, ways: seq<Id>, i: nat, areaKeys: AreaKeys)
    requires i < |ways| && ways[i] in g.entities && g.entities[ways[i]].Way?
    ensures var w := ways[i];
      var h1 := WaysStripped(g, nodeId, ways[..i], areaKeys).Replace(w,
        Way(RemoveNode(g.entities[w].nodes, nodeId), g.entities[w].tags));
      (if IsWayDegenerate(RemoveNode(g.entities[w].nodes, nodeId), g.entities[w].tags, areaKeys)
       then h1.Remove(w) else h1) == WaysStripped(g, nodeId, ways[..i + 1], areaKeys)
  {
    assert ways[..i + 1] == ways[..i] + [ways[i]];
    if WayDegenerateAfter(g, ways[i], nodeId, areaKeys) {
      WayStepGone(g, nodeId, ways[..i], ways[i], areaKeys);
    } else {
      WayStepKept(g, nodeId, ways[..i], ways[i], areaKeys);
    }
  }

  lemma WayStepGone(g: Graph, nodeId: Id, prefix: seq<Id>, w: Id, areaKeys: AreaKeys)
    requires WayDegenerateAfter(g, w, nodeId, areaKeys)
    ensures WaysStripped(g, nodeId, prefix, areaKeys).Replace(w,
        Way(RemoveNode(g.entities[w].nodes, nodeId), g.entities[w].tags)).Remove(w) ==
      WaysStripped(g, nodeId, prefix + [w], areaKeys)
  {
    DegenerateWaysSnoc(g, nodeId, prefix, w, areaKeys);
    StrippedGone(g, nodeId, prefix, w, DegenerateWays(g, nodeId, prefix, areaKeys));
  }

  lemma WayStepKept(g: Graph, nodeId: Id, prefix: seq<Id>, w: Id, areaKeys: AreaKeys)
    requires w in g.entities && g.entities[w].Way? && !WayDegenerateAfter(g, w, nodeId, areaKeys)
    ensures WaysStripped(g, nodeId, prefix, areaKeys).Replace(w,
        Way(RemoveNode(g.entities[w].nodes, nodeId), g.entities[w].tags)) ==
      WaysStripped(g, nodeId, prefix + [w], areaKeys)
  {
    DegenerateWaysSnoc(g, nodeId, prefix, w, areaKeys);
    NotDegenerateWay(g, nodeId, prefix, areaKeys, w);
    StrippedKept(g, nodeId, prefix, w, DegenerateWays(g, nodeId, prefix, areaKeys));
  }

  lemma StrippedGone(g: Graph, nodeId: Id, prefix: seq<Id>, w: Id, gone: set<Id>)
    requires w in g.entities && g.entities[w].Way?
    ensures Stripped(g, nodeId, prefix, gone).Replace(w,
        Way(RemoveNode(g.entities[w].nodes, nodeId), g.entities[w].tags)).Remove(w) ==
      Stripped(g, nodeId, prefix + [w], gone + {w})
  {
    RemoveAfterReplace(Stripped(g, nodeId, prefix, gone), w,
      Way(RemoveNode(g.entities[w].nodes, nodeId), g.entities[w].tags));
    StrippedRemove(g, nodeId, prefix, w, gone);
  }

  lemma StrippedRemove(g: Graph, nodeId: Id, prefix: seq<Id>, w: Id, gone: set<Id>)
    ensures Stripped(g, nodeId, prefix, gone).Remove(w) == Stripped(g, nodeId, prefix + [w], gone + {w})
  {
    var a := Stripped(g, nodeId, prefix, gone).Remove(w);
    var b := Stripped(g, nodeId, prefix + [w], gone + {w});
    forall id | id in b.entities ensures a.entities[id] == b.entities[id] {
      assert id in prefix + [w] <==> id in prefix;
    }
    assert a.entities == b.entities;
  }

  lemma StrippedKept(g: Graph, nodeId: Id, prefix: seq<Id>, w: Id, gone: set<Id>)
    requires w in g.entities && g.entities[w].Way? && w !in gone
    ensures Stripped(g, nodeId, prefix, gone).Replace(w,
        Way(RemoveNode(g.entities[w].nodes, nodeId), g.entities[w].tags)) ==
      Stripped(g, nodeId, prefix + [w], gone)
  {
    var a := Stripped(g, nodeId, prefix, gone);
    var b := Stripped(g, nodeId, prefix + [w], gone);
    var c := a.Replace(w, Way(RemoveNode(g.entities[w].nodes, nodeId), g.entities[w].tags));
    assert c.entities.Keys == b.entities.Keys;
    forall id | id in b.entities ensures c.entities[id] == b.entities[id] {
      if id != w {
        assert id in prefix + [w] <==> id in prefix;
      }
    }
    assert c.entities == b.entities;
  }

  lemma DegenerateWaysSnoc(g: Graph, nodeId: Id, prefix: seq<Id>, w: Id, areaKeys: AreaKeys)
    ensures DegenerateWays(g, nodeId, prefix + [w], areaKeys) ==
      DegenerateWays(g, nodeId, prefix, areaKeys) + (if WayDegenerateAfter(g, w, nodeId, areaKeys) then {w} else {})
  {
    assert (prefix + [w])[..|prefix|] == prefix;
  }

  /** The way loop of `deleteNode`: each parent way, as read before the loop,
      loses the node; a way left degenerate is deleted. */
  method StripWays(g: Graph, nodeId: Id, ways: seq<Id>, areaKeys: AreaKeys) returns (h: Graph)
    requires forall k :: 0 <= k < |ways| ==> ways[k] in g.entities && g.entities[ways[k]].Way?
    ensures h == WaysStripped(g, nodeId, ways, areaKeys)
  {
    h := g;
    assert h.entities == WaysStripped(g, nodeId, ways[..0], areaKeys).entities;
    var i := 0;
    while i < |ways|
      invariant 0 <= i <= |ways|
      invariant h == WaysStripped(g, nodeId, ways[..i], areaKeys)
    {
      var w := ways[i];
      var parent := g.entities[w];
      var nodes := RemoveNode(parent.nodes, nodeId);
      WaysStrippedStep(g, nodeId, ways, i, areaKeys);
      h := h.Replace(w, Way(nodes, parent.tags));
      if IsWayDegenerate(nodes, parent.tags, areaKeys) {
        h := h.Remove(w);
      }
      i := i + 1;
    }
    assert ways[..i] == ways;
  }

  /** The first `j` relations of `rels` that were left without members are
      gone from `h`. */
  ghost predicate RelationsGone(g: Graph, h: Graph, id: Id, rels: seq<Id>, j: nat)
  {
    forall k :: 0 <= k < j && k < |rels| && RelationDegenerateAfter(g, rels[k], id) ==>
      rels[k] !in h.entities
  }

  lemma RelationsGoneStep(g: Graph, before: Graph, after: Graph, id: Id, rels: seq<Id>, j: nat)
    requires Increasing(rels) && j < |rels|
    requires RelationsGone(g, before, id, rels, j)
    requires after.entities.Keys <= before.entities.Keys + {rels[j]}
    requires RelationDegenerateAfter(g, rels[j], id) ==> rels[j] !in after.entities
    ensures RelationsGone(g, after, id, rels, j + 1)
  {
    forall k | 0 <= k < j ensures rels[k] != rels[j] {
    }
  }

  lemma StripAllStep(g: Graph, nodeId: Id, rels: seq<Id>, j: nat)
    requires j < |rels| && rels[j] in g.entities
    ensures StripAll(g, nodeId, rels[..j]).Replace(rels[j], StripNode(g.entities[rels[j]], nodeId)) ==
      StripAll(g, nodeId, rels[..j + 1])
  {
    assert rels[..j + 1] == rels[..j] + [rels[j]];
    assert StripAll(g, nodeId, rels[..j]).Replace(rels[j], StripNode(g.entities[rels[j]], nodeId)).entities ==
      StripAll(g, nodeId, rels[..j + 1]).entities;
  }

  /** The loop over parent relations shared by `deleteNode` and
      `deleteRelation`: each parent, as read before the loop, loses its
      memberships of `id`; a parent left without members is deleted. */
  method StripRelations(fuel: nat, g: Graph, id: Id, rels: seq<Id>, areaKeys: AreaKeys) returns (r: Result<Graph>)
    requires Increasing(rels)
    requires forall k :: 0 <= k < |rels| ==> rels[k] in g.entities && g.entities[rels[k]].Relation?
    ensures r.Ok? ==> DeletionOnly(g, r.value)
    ensures r.Ok? ==> forall k :: 0 <= k < |rels| && RelationDegenerateAfter(g, rels[k], id) ==>
      rels[k] !in r.value.entities
    ensures (forall k :: 0 <= k < |rels| ==> !RelationDegenerateAfter(g, rels[k], id)) ==>
      r == Ok(StripAll(g, id, rels))
    decreases fuel, 2
  {
    ghost var calm := forall k :: 0 <= k < |rels| ==> !RelationDegenerateAfter(g, rels[k], id);
    var graph := g;
    var j := 0;
    while j < |rels|
      invariant 0 <= j <= |rels|
      invariant DeletionOnly(g, graph)
      invariant RelationsGone(g, graph, id, rels, j)
      invariant calm ==> graph == StripAll(g, id, rels[..j])
    {
      ghost var before := graph;
      var p := rels[j];
      var parent := g.entities[p];
      var members := RemoveMembersWithID(parent.members, id);
      ReplaceKeeps(g, graph, p, Relation(members, parent.tags));
      if calm {
        StripAllStep(g, id, rels, j);
      }
      graph := graph.Replace(p, Relation(members, parent.tags));
      if IsRelationDegenerate(members) {
        var res := CascadeRelation(fuel, graph, p, areaKeys);
        if res.Err? {
          return res;
        }
        DeletionOnlyTrans(g, graph, res.value);
        graph := res.value;
      }
      RelationsGoneStep(g, before, graph, id, rels, j);
      j := j + 1;
    }
    assert rels[..j] == rels;
    r := Ok(graph);
  }

  /** The cascade into `deleteRelation` for a relation left without members;
      `deleteRelation` is called without `allowUntaggedMembers`. */
  method CascadeRelation(fuel: nat, g: Graph, p: Id, areaKeys: AreaKeys) returns (r: Result<Graph>)
    ensures r.Ok? ==> DeletionOnly(g, r.value) && p !in r.value.entities
    decreases fuel, 0
  {
    if fuel == 0 {
      return Err(OutOfFuel);
    }
    r := DeleteRelation(fuel - 1, g, p, false, areaKeys);
  }

  /** What `deleteNode` promises about its result `r` for a node of `g`. */
  ghost predicate NodeDeleted(g: Graph, nodeId: Id, areaKeys: AreaKeys, r: Result<Graph>)
  {
    && (r.Ok? ==> DeletionOnly(g, r.value) && nodeId !in r.value.entities)
    // a parent way left degenerate is deleted
    && (r.Ok? ==> forall w :: g.IsParentWay(w, nodeId) && WayDegenerateAfter(g, w, nodeId, areaKeys) ==>
         w !in r.value.entities)
    // a parent relation left without members is deleted
    && (r.Ok? ==> forall p :: g.IsParentRelation(p, nodeId) && RelationDegenerateAfter(g, p, nodeId) ==>
         p !in r.value.entities)
    // without a cascade, the parents are rewritten and nothing else changes
    && (!NodeCascades(g, nodeId, areaKeys) ==> r == Ok(NodeStripped(g, nodeId)))
  }

  method DeleteNode(fuel: nat, g: Graph, nodeId: Id, areaKeys: AreaKeys) returns (r: Result<Graph>)
    ensures nodeId !in g.entities ==> r == Err(NotFound(nodeId))
    ensures nodeId in g.entities ==> NodeDeleted(g, nodeId, areaKeys, r)
    decreases fuel, 5
  {
    if nodeId !in g.entities {
      return Err(NotFound(nodeId));
    }
    var ways := g.ParentWays(nodeId);
    ParentWaysAt(g, nodeId, ways);
    var afterWays := StripWays(g, nodeId, ways, areaKeys);
    WaysStrippedDeletes(g, nodeId, ways, areaKeys);
    var rels := afterWays.ParentRelations(nodeId);
    SameRelations(g, afterWays, nodeId, rels);
    ghost var quiet := !NodeCascades(g, nodeId, areaKeys);
    if quiet {
      assert forall k :: 0 <= k < |rels| ==> !RelationDegenerateAfter(afterWays, rels[k], nodeId) by {
        NoWayCascade(g, nodeId, ways, areaKeys);
        NoRelationCascade(g, afterWays, nodeId, rels, areaKeys);
      }
    }
    var res := StripRelations(fuel, afterWays, nodeId, rels, areaKeys);
    if res.Err? {
      return res;
    }
    var graph := res.value;
    DeletionOnlyTrans(g, afterWays, graph);
    RemoveKeeps(g, graph, nodeId);
    r := Ok(graph.Remove(nodeId));
    assert forall p :: g.IsParentRelation(p, nodeId) && RelationDegenerateAfter(g, p, nodeId) ==>
      p !in graph.entities by {
      RelationsGoneAt(g, afterWays, nodeId, rels, graph);
    }
    if quiet {
      NoWayCascade(g, nodeId, ways, areaKeys);
      WaysStrippedQuiet(g, nodeId, ways, areaKeys);
      NodeStrippedIs(g, nodeId, ways, afterWays, rels, graph);
    }
  }

  lemma NoWayCascade(g: Graph, nodeId: Id, ways: seq<Id>, areaKeys: AreaKeys)
    requires forall w :: w in ways <==> g.IsParentWay(w, nodeId)
    requires !NodeCascades(g, nodeId, areaKeys)
    ensures forall w :: w in ways ==>
      w in g.entities && g.entities[w].Way? && nodeId in g.entities[w].nodes &&
      !WayDegenerateAfter(g, w, nodeId, areaKeys)
  {
  }

  lemma NoRelationCascade(g: Graph, h: Graph, nodeId: Id, rels: seq<Id>, areaKeys: AreaKeys)
    requires forall p :: p in rels <==> g.IsParentRelation(p, nodeId)
    requires forall k :: 0 <= k < |rels| ==>
      rels[k] in h.entities && rels[k] in g.entities && h.entities[rels[k]] == g.entities[rels[k]]
    requires !NodeCascades(g, nodeId, areaKeys)
    ensures forall k :: 0 <= k < |rels| ==> !RelationDegenerateAfter(h, rels[k], nodeId)
  {
    forall k | 0 <= k < |rels| ensures !RelationDegenerateAfter(h, rels[k], nodeId) {
      assert rels[k] in rels;
    }
  }

  lemma RelationsGoneAt(g: Graph, h: Graph, nodeId: Id, rels: seq<Id>, final: Graph)
    requires forall p :: p in rels <==> g.IsParentRelation(p, nodeId)
    requires forall k :: 0 <= k < |rels| ==>
      rels[k] in h.entities && rels[k] in g.entities && h.entities[rels[k]] == g.entities[rels[k]]
    requires forall k :: 0 <= k < |rels| && RelationDegenerateAfter(h, rels[k], nodeId) ==> rels[k] !in final.entities
    ensures forall p :: g.IsParentRelation(p, nodeId) && RelationDegenerateAfter(g, p, nodeId) ==>
      p !in final.entities
  {
    forall p | g.IsParentRelation(p, nodeId) && RelationDegenerateAfter(g, p, nodeId)
      ensures p !in final.entities
    {
      assert p in rels;
      var k :| 0 <= k < |rels| && rels[k] == p;
    }
  }

  lemma ParentWaysAt(g: Graph, nodeId: Id, ways: seq<Id>)
    requires forall w :: w in ways <==> g.IsParentWay(w, nodeId)
    ensures forall k :: 0 <= k < |ways| ==>
      ways[k] in g.entities && g.entities[ways[k]].Way? && nodeId in g.entities[ways[k]].nodes
  {
    forall k | 0 <= k < |ways| ensures g.IsParentWay(ways[k], nodeId) {
      assert ways[k] in ways;
    }
  }

  /** The way loop leaves relations alone, so the parent relations read after
      it are those of `g`, with the same values. */
  lemma SameRelations(g: Graph, h: Graph, nodeId: Id, rels: seq<Id>)
    requires h.entities.Keys <= g.entities.Keys
    requires forall id :: id in h.entities ==> KindOf(h.entities[id]) == KindOf(g.entities[id])
    requires forall id :: id in g.entities && !g.entities[id].Way? ==> id in h.entities && h.entities[id] == g.entities[id]
    requires forall p :: p in rels <==> h.IsParentRelation(p, nodeId)
    ensures forall p :: p in rels <==> g.IsParentRelation(p, nodeId)
    ensures forall k :: 0 <= k < |rels| ==>
      rels[k] in h.entities && h.entities[rels[k]].Relation? && rels[k] in g.entities &&
      h.entities[rels[k]] == g.entities[rels[k]]
  {
    forall k | 0 <= k < |rels| ensures h.IsParentRelation(rels[k], nodeId) {
      assert rels[k] in rels;
    }
    forall p | p in h.entities && h.entities[p].Relation? ensures g.entities[p] == h.entities[p] {
      assert KindOf(h.entities[p]) == KindOf(g.entities[p]);
    }
  }

  /** With no cascade, the two loops of `deleteNode` rewrite every parent and
      nothing else. */
  lemma NodeStrippedIs(g: Graph, nodeId: Id, ways: seq<Id>, h1: Graph, rels: seq<Id>, h2: Graph)
    requires forall w :: w in ways <==> g.IsParentWay(w, nodeId)
    requires forall p :: p in rels <==> g.IsParentRelation(p, nodeId)
    requires h1 == StripAll(g, nodeId, ways)
    requires h2 == StripAll(h1, nodeId, rels)
    ensures h2.Remove(nodeId) == NodeStripped(g, nodeId)
  {
    var lhs := h2.Remove(nodeId);
    var rhs := NodeStripped(g, nodeId);
    assert lhs.entities.Keys == rhs.entities.Keys;
    forall id | id in rhs.entities ensures lhs.entities[id] == rhs.entities[id] {
      if id in rels {
        assert id !in ways;
      } else if g.entities[id].Relation? {
        assert !g.IsParentRelation(id, nodeId);
      }
    }
    assert lhs.entities == rhs.entities;
  }

  // ------------------------------------------------------------ deleteRelation

  /** `canDeleteEntity`: a member is deleted along with its relation only
      when nothing else refers to it, it carries no interesting tag, and the
      caller did not ask to keep untagged members. */
  function CanDeleteEntity(g: Graph, id: Id, allowUntaggedMembers: bool): (r: bool)
    requires id in g.entities
    ensures r <==>
      && (forall w :: !g.IsParentWay(w, id))
      && (forall p :: !g.IsParentRelation(p, id))
      && !HasInterestingTags(g.entities[id].tags)
      && !allowUntaggedMembers
    ensures allowUntaggedMembers ==> !r
  {
    assert |g.ParentWays(id)| > 0 ==> g.IsParentWay(g.ParentWays(id)[0], id);
    assert |g.ParentRelations(id)| > 0 ==> g.IsParentRelation(g.ParentRelations(id)[0], id);
    |g.ParentWays(id)| == 0 && |g.ParentRelations(id)| == 0 &&
    (!HasInterestingTags(g.entities[id].tags) && !allowUntaggedMembers)
  }

  /** Every relation of `g` with its memberships of `rid` removed. */
  function RelationStripped(g: Graph, rid: Id): Graph
  {
    Graph(map id | id in g.entities ::
      if g.entities[id].Relation?
      then Relation(RemoveMembersWithID(g.entities[id].members, rid), g.entities[id].tags)
      else g.entities[id])
  }

  /** Some parent of `rid` is left without members once `rid` is taken out. */
  ghost predicate ParentCascades(g: Graph, rid: Id)
  {
    exists p :: g.IsParentRelation(p, rid) && RelationDegenerateAfter(g, p, rid)
  }

  /** The relation as rewritten at the member step for `m`: built from the
      relation as first read, not from the previous step's value. */
  function WithoutMember(rel: Entity, m: Id): Entity
    requires rel.Relation?
  {
    Relation(RemoveMembersWithID(rel.members, m), rel.tags)
  }

  /** Each member step of `deleteRelation` on `h` finds the member present and
      decides not to delete it. */
  ghost predicate QuietMembers(h: Graph, rid: Id, rel: Entity, allowUntaggedMembers: bool)
    requires rel.Relation?
  {
    forall m :: m in MemberIds(rel.members) ==>
      m in h.entities &&
      !CanDeleteEntity(h.Replace(rid, WithoutMember(rel, m)), m, allowUntaggedMembers)
  }

  /** The parent loop of `deleteRelation` took `g` to `p`: it only deleted,
      every parent relation left without members is gone, and with no such
      parent it only removed the memberships of `rid`. */
  ghost predicate ParentsDone(g: Graph, rid: Id, p: Graph)
  {
    && DeletionOnly(g, p)
    && (forall q :: g.IsParentRelation(q, rid) && RelationDegenerateAfter(g, q, rid) ==> q !in p.entities)
    && (!ParentCascades(g, rid) ==> p == RelationStripped(g, rid))
  }

  /** What `deleteRelation` promises about its result `r` for an entity `rid`
      of `g`. */
  ghost predicate RelationDeleted(g: Graph, rid: Id, allowUntaggedMembers: bool, r: Result<Graph>)
    requires rid in g.entities
  {
    && (r.Ok? ==> g.entities[rid].Relation? && DeletionOnly(g, r.value) && rid !in r.value.entities)
    // a parent relation left without members is deleted too
    && (r.Ok? ==> forall p :: g.IsParentRelation(p, rid) && RelationDegenerateAfter(g, p, rid) ==>
         p !in r.value.entities)
    // the parent loop, then the member loop from the graph it left
    && (r.Ok? ==>
         (g.entities[rid].Relation? &&
          exists p, trace :: ParentsDone(g, rid, p) &&
            MemberSteps(p, rid, g.entities[rid], allowUntaggedMembers, trace, r.value)))
    // without a cascade: memberships of rid removed, rid removed, nothing else changes
    && (g.entities[rid].Relation? && !ParentCascades(g, rid) &&
        QuietMembers(RelationStripped(g, rid), rid, g.entities[rid], allowUntaggedMembers) ==>
        r == Ok(RelationStripped(g, rid).Remove(rid)))
    && (g.entities[rid].Relation? && !ParentCascades(g, rid) && allowUntaggedMembers &&
        (forall m :: HasMember(g.entities[rid].members, m) ==> m in g.entities) ==>
        r == Ok(RelationStripped(g, rid).Remove(rid)))
  }

  method DeleteRelation(fuel: nat, g: Graph, rid: Id, allowUntaggedMembers: bool, areaKeys: AreaKeys)
    returns (r: Result<Graph>)
    ensures rid !in g.entities ==> r == Err(NotFound(rid))
    ensures rid in g.entities ==> RelationDeleted(g, rid, allowUntaggedMembers, r)
    decreases fuel, 5
  {
    if rid !in g.entities {
      return Err(NotFound(rid));
    }
    var relation := g.entities[rid];
    var parents := g.ParentRelations(rid);
    ParentRelationsAt(g, rid, parents);
    var res := StripRelations(fuel, g, rid, parents, areaKeys);
    if res.Err? {
      return res;
    }
    var graph := res.value;
    if !relation.Relation? {
      return Err(TypeError);
    }
    ghost var stripped := RelationStripped(g, rid);
    if !ParentCascades(g, rid) {
      forall k | 0 <= k < |parents| ensures !RelationDegenerateAfter(g, parents[k], rid) {
        assert g.IsParentRelation(parents[k], rid);
      }
      RelationStrippedIs(g, rid, parents, graph);
      if allowUntaggedMembers && (forall m :: HasMember(relation.members, m) ==> m in g.entities) {
        assert QuietMembers(stripped, rid, relation, allowUntaggedMembers);
      }
    }
    forall p | g.IsParentRelation(p, rid) && RelationDegenerateAfter(g, p, rid)
      ensures p !in graph.entities
    {
      assert p in parents;
      var k :| 0 <= k < |parents| && parents[k] == p;
    }
    assert ParentsDone(g, rid, graph);
    r := DropMembers(fuel, g, graph, rid, relation, allowUntaggedMembers, areaKeys);
  }

  /** Keeping untagged members, the member loop deletes nothing: the result
      is the graph the parent loop left, without the relation. */
  lemma RelationKeepsMembers(g: Graph, rid: Id, r: Result<Graph>)
    requires rid in g.entities && RelationDeleted(g, rid, true, r) && r.Ok?
    ensures exists p :: ParentsDone(g, rid, p) && r.value == p.Remove(rid)
  {
    var p, trace :| ParentsDone(g, rid, p) && MemberSteps(p, rid, g.entities[rid], true, trace, r.value);
    MembersKept(p, rid, g.entities[rid], trace, r.value);
  }

  lemma ParentRelationsAt(g: Graph, rid: Id, parents: seq<Id>)
    requires forall p :: p in parents <==> g.IsParentRelation(p, rid)
    ensures forall k :: 0 <= k < |parents| ==> parents[k] in g.entities && g.entities[parents[k]].Relation?
  {
    forall k | 0 <= k < |parents| ensures g.IsParentRelation(parents[k], rid) {
      assert parents[k] in parents;
    }
  }

  /** With no parent left degenerate, the parent loop of `deleteRelation`
      leaves `RelationStripped`. */
  lemma RelationStrippedIs(g: Graph, rid: Id, parents: seq<Id>, h: Graph)
    requires forall p :: p in parents <==> g.IsParentRelation(p, rid)
    requires h == StripAll(g, rid, parents)
    ensures h == RelationStripped(g, rid)
  {
    forall id | id in g.entities ensures h.entities[id] == RelationStripped(g, rid).entities[id] {
      if id !in parents && g.entities[id].Relation? {
        assert !g.IsParentRelation(id, rid);
      }
    }
    assert h.entities == RelationStripped(g, rid).entities;
  }

  /** The graph a member step of `deleteRelation` decides on: the relation
      rebuilt from `relation`, its value as first read, without the member. */
  function AtStep(before: Graph, rid: Id, relation: Entity, m: Id): Graph
    requires relation.Relation?
  {
    before.Replace(rid, WithoutMember(relation, m))
  }

  /** `canDeleteEntity` accepts the member `m` at its step. */
  predicate Accepted(before: Graph, rid: Id, relation: Entity, m: Id, allowUntaggedMembers: bool)
    requires relation.Relation?
  {
    m in AtStep(before, rid, relation, m).entities &&
    CanDeleteEntity(AtStep(before, rid, relation, m), m, allowUntaggedMembers)
  }

  /** One member step from `before` to `after`: the member is found; an
      accepted member is deleted by a cascade that only deletes; otherwise
      only the relation was rewritten. */
  predicate MemberStep(before: Graph, rid: Id, relation: Entity, m: Id, allowUntaggedMembers: bool, after: Graph)
    requires relation.Relation?
  {
    var seen := AtStep(before, rid, relation, m);
    m in seen.entities &&
    if CanDeleteEntity(seen, m, allowUntaggedMembers) then DeletionOnly(seen, after) && m !in after.entities
    else after == seen
  }

  /** The member loop over `ids`, in order: step `j` takes `trace[j]` to
      `trace[j + 1]`. */
  predicate StepsFrom(rid: Id, relation: Entity, allowUntaggedMembers: bool, ids: seq<Id>, trace: seq<Graph>)
    requires relation.Relation?
  {
    |trace| == |ids| + 1 &&
    forall j :: 0 <= j < |ids| ==> MemberStep(trace[j], rid, relation, ids[j], allowUntaggedMembers, trace[j + 1])
  }

  /** The whole member loop from `h`, over the distinct member ids in order,
      followed by the removal of the relation. */
  predicate MemberSteps(h: Graph, rid: Id, relation: Entity, allowUntaggedMembers: bool, trace: seq<Graph>, result: Graph)
    requires relation.Relation?
  {
    StepsFrom(rid, relation, allowUntaggedMembers, MemberIds(relation.members), trace) &&
    trace[0] == h && result == trace[|trace| - 1].Remove(rid)
  }

  lemma StepsExtend(rid: Id, relation: Entity, allow: bool, ids: seq<Id>, trace: seq<Graph>, m: Id, x: Graph)
    requires relation.Relation? && StepsFrom(rid, relation, allow, ids, trace)
    requires MemberStep(trace[|ids|], rid, relation, m, allow, x)
    ensures StepsFrom(rid, relation, allow, ids + [m], trace + [x])
  {
    forall j | 0 <= j < |ids| + 1
      ensures MemberStep((trace + [x])[j], rid, relation, (ids + [m])[j], allow, (trace + [x])[j + 1])
    {
      if j < |ids| {
        assert (trace + [x])[j] == trace[j] && (trace + [x])[j + 1] == trace[j + 1] && (ids + [m])[j] == ids[j];
      } else {
        assert (trace + [x])[j] == trace[j] && (trace + [x])[j + 1] == x && (ids + [m])[j] == m;
      }
    }
  }

  /** A member step adds no identifier but the relation's; an accepted
      member is gone after it, and otherwise only the relation changed. */
  lemma StepKeys(before: Graph, rid: Id, relation: Entity, m: Id, allow: bool, after: Graph)
    requires relation.Relation? && MemberStep(before, rid, relation, m, allow, after)
    ensures after.entities.Keys <= before.entities.Keys + {rid}
    ensures Accepted(before, rid, relation, m, allow) ==> m !in after.entities
    ensures !Accepted(before, rid, relation, m, allow) ==> after == AtStep(before, rid, relation, m)
  {
  }

  /** Along the trace, each step adds no identifier but the relation's. */
  predicate KeysShrink(rid: Id, trace: seq<Graph>)
  {
    forall i :: 0 <= i < |trace| - 1 ==> trace[i + 1].entities.Keys <= trace[i].entities.Keys + {rid}
  }

  lemma StepsShrink(rid: Id, relation: Entity, allow: bool, ids: seq<Id>, trace: seq<Graph>)
    requires relation.Relation? && StepsFrom(rid, relation, allow, ids, trace)
    ensures KeysShrink(rid, trace)
  {
    forall i | 0 <= i < |trace| - 1 ensures trace[i + 1].entities.Keys <= trace[i].entities.Keys + {rid} {
      StepKeys(trace[i], rid, relation, ids[i], allow, trace[i + 1]);
    }
  }

  /** An identifier other than the relation's, absent at some point of the
      trace, stays absent. */
  lemma {:induction false} StaysGone(rid: Id, trace: seq<Graph>, x: Id, j: nat, k: nat)
    requires KeysShrink(rid, trace) && j <= k < |trace| && x != rid && x !in trace[j].entities
    ensures x !in trace[k].entities
    decreases k
  {
    if k > j {
      StaysGone(rid, trace, x, j, k - 1);
      assert trace[k].entities.Keys <= trace[k - 1].entities.Keys + {rid};
    }
  }

  /** Every member that `canDeleteEntity` accepted at its own step is absent
      from the result. */
  lemma MembersDeleted(h: Graph, rid: Id, relation: Entity, allow: bool, trace: seq<Graph>, result: Graph)
    requires relation.Relation? && MemberSteps(h, rid, relation, allow, trace, result)
    ensures forall j :: 0 <= j < |trace| - 1 && Accepted(trace[j], rid, relation, MemberIds(relation.members)[j], allow) ==>
      MemberIds(relation.members)[j] !in result.entities
  {
    var ids := MemberIds(relation.members);
    StepsShrink(rid, relation, allow, ids, trace);
    forall j | 0 <= j < |trace| - 1 && Accepted(trace[j], rid, relation, ids[j], allow)
      ensures ids[j] !in result.entities
    {
      if ids[j] != rid {
        StepKeys(trace[j], rid, relation, ids[j], allow, trace[j + 1]);
        StaysGone(rid, trace, ids[j], j + 1, |ids|);
      }
    }
  }

  lemma {:induction false} StepsKept(rid: Id, relation: Entity, ids: seq<Id>, trace: seq<Graph>, k: nat)
    requires relation.Relation? && StepsFrom(rid, relation, true, ids, trace) && k <= |ids|
    ensures trace[k].Remove(rid) == trace[0].Remove(rid)
  {
    if k > 0 {
      StepsKept(rid, relation, ids, trace, k - 1);
      StepKeys(trace[k - 1], rid, relation, ids[k - 1], true, trace[k]);
      RemoveAfterReplace(trace[k - 1], rid, WithoutMember(relation, ids[k - 1]));
    }
  }

  /** Keeping untagged members, no member is deleted: the member loop only
      removes the relation. */
  lemma MembersKept(h: Graph, rid: Id, relation: Entity, trace: seq<Graph>, result: Graph)
    requires relation.Relation? && MemberSteps(h, rid, relation, true, trace, result)
    ensures result == h.Remove(rid)
  {
    StepsKept(rid, relation, MemberIds(relation.members), trace, |trace| - 1);
  }

  /** The member loop of `deleteRelation`, ending with the removal of the
      relation itself. Each step rebuilds the relation from `relation`, its
      value as first read, without that member, and deletes the member when
      `canDeleteEntity` accepts it. */
  method DropMembers(fuel: nat, ghost g: Graph, h: Graph, rid: Id, relation: Entity,
                     allowUntaggedMembers: bool, areaKeys: AreaKeys) returns (r: Result<Graph>)
    requires relation.Relation? && rid in g.entities && relation == g.entities[rid]
    requires DeletionOnly(g, h)
    ensures r.Ok? ==> DeletionOnly(g, r.value) && rid !in r.value.entities
    ensures r.Ok? ==> r.value.entities.Keys <= h.entities.Keys
    ensures r.Ok? ==> exists trace :: MemberSteps(h, rid, relation, allowUntaggedMembers, trace, r.value)
    ensures QuietMembers(h, rid, relation, allowUntaggedMembers) ==> r == Ok(h.Remove(rid))
    decreases fuel, 4
  {
    var res := MemberLoop(fuel, g, h, rid, relation, allowUntaggedMembers, areaKeys);
    if res.Err? {
      return res;
    }
    var graph := res.value;
    ghost var trace :| StepsFrom(rid, relation, allowUntaggedMembers, MemberIds(relation.members), trace) &&
      trace[0] == h && trace[|trace| - 1] == graph;
    RemoveKeeps(g, graph, rid);
    r := Ok(graph.Remove(rid));
    assert MemberSteps(h, rid, relation, allowUntaggedMembers, trace, r.value);
  }

  /** The loop over the distinct member ids, before the relation itself is
      removed. */
  method MemberLoop(fuel: nat, ghost g: Graph, h: Graph, rid: Id, relation: Entity,
                    allowUntaggedMembers: bool, areaKeys: AreaKeys) returns (r: Result<Graph>)
    requires relation.Relation? && rid in g.entities && relation == g.entities[rid]
    requires DeletionOnly(g, h)
    ensures r.Ok? ==> DeletionOnly(g, r.value) && r.value.entities.Keys <= h.entities.Keys + {rid}
    ensures r.Ok? ==>
      exists trace :: StepsFrom(rid, relation, allowUntaggedMembers, MemberIds(relation.members), trace) &&
        trace[0] == h && trace[|trace| - 1] == r.value
    ensures QuietMembers(h, rid, relation, allowUntaggedMembers) ==> r.Ok? && r.value.Remove(rid) == h.Remove(rid)
    decreases fuel, 3
  {
    ghost var quiet := QuietMembers(h, rid, relation, allowUntaggedMembers);
    var graph := h;
    var ids := MemberIds(relation.members);
    ghost var trace := [h];
    var j := 0;
    while j < |ids|
      invariant LoopState(g, h, rid, relation, allowUntaggedMembers, ids, j, trace, graph) &&
                (quiet ==> graph.Remove(rid) == h.Remove(rid))
    {
      var m := ids[j];
      if quiet {
        QuietStep(h, graph, rid, relation, m, allowUntaggedMembers);
      }
      var step := DropMember(fuel, g, graph, rid, relation, m, allowUntaggedMembers, areaKeys);
      if step.Err? {
        return step;
      }
      LoopNext(g, h, rid, relation, allowUntaggedMembers, ids, j, trace, graph, step.value, quiet);
      trace := trace + [step.value];
      graph := step.value;
      j := j + 1;
    }
    LoopDone(g, h, rid, relation, allowUntaggedMembers, ids, j, trace, graph);
    r := Ok(graph);
  }

  lemma LoopNext(g: Graph, h: Graph, rid: Id, relation: Entity, allow: bool, ids: seq<Id>,
                 j: int, trace: seq<Graph>, graph: Graph, next: Graph, quiet: bool)
    requires relation.Relation? && LoopState(g, h, rid, relation, allow, ids, j, trace, graph) && j < |ids|
    requires ids == MemberIds(relation.members) && quiet == QuietMembers(h, rid, relation, allow)
    requires quiet ==> graph.Remove(rid) == h.Remove(rid)
    requires MemberStep(graph, rid, relation, ids[j], allow, next) && DeletionOnly(g, next)
    requires ids[j] in AtStep(graph, rid, relation, ids[j]).entities && !Accepted(graph, rid, relation, ids[j], allow) ==>
      next == AtStep(graph, rid, relation, ids[j])
    ensures LoopState(g, h, rid, relation, allow, ids, j + 1, trace + [next], next)
    ensures quiet ==> next.Remove(rid) == h.Remove(rid)
  {
    if quiet {
      QuietStep(h, graph, rid, relation, ids[j], allow);
    }
    LoopAdvance(g, h, rid, relation, allow, ids, j, trace, graph, next);
  }

  lemma LoopDone(g: Graph, h: Graph, rid: Id, relation: Entity, allow: bool, ids: seq<Id>,
                 j: int, trace: seq<Graph>, graph: Graph)
    requires relation.Relation? && LoopState(g, h, rid, relation, allow, ids, j, trace, graph) && j >= |ids|
    ensures DeletionOnly(g, graph) && graph.entities.Keys <= h.entities.Keys + {rid}
    ensures StepsFrom(rid, relation, allow, ids, trace) && trace[0] == h && trace[|trace| - 1] == graph
  {
    assert ids[..j] == ids;
  }

  /** With every member step on `h` quiet, a graph that differs from `h` at
      most in the relation takes a quiet step, and still differs at most
      there. */
  lemma QuietStep(h: Graph, graph: Graph, rid: Id, relation: Entity, m: Id, allow: bool)
    requires relation.Relation? && QuietMembers(h, rid, relation, allow) && m in MemberIds(relation.members)
    requires graph.Remove(rid) == h.Remove(rid)
    ensures m in AtStep(graph, rid, relation, m).entities && !Accepted(graph, rid, relation, m, allow)
    ensures AtStep(graph, rid, relation, m).Remove(rid) == h.Remove(rid)
  {
    ReplaceAfterRemove(graph, h, rid, WithoutMember(relation, m));
    RemoveAfterReplace(h, rid, WithoutMember(relation, m));
  }

  /** The invariant of the member loop after `j` steps. */
  predicate LoopState(g: Graph, h: Graph, rid: Id, relation: Entity, allow: bool, ids: seq<Id>,
                      j: int, trace: seq<Graph>, graph: Graph)
    requires relation.Relation?
  {
    && 0 <= j <= |ids|
    && DeletionOnly(g, graph)
    && graph.entities.Keys <= h.entities.Keys + {rid}
    && StepsFrom(rid, relation, allow, ids[..j], trace)
    && trace[0] == h && graph == trace[j]
  }

  lemma LoopAdvance(g: Graph, h: Graph, rid: Id, relation: Entity, allow: bool, ids: seq<Id>,
                    j: int, trace: seq<Graph>, graph: Graph, next: Graph)
    requires relation.Relation? && LoopState(g, h, rid, relation, allow, ids, j, trace, graph) && j < |ids|
    requires MemberStep(graph, rid, relation, ids[j], allow, next) && DeletionOnly(g, next)
    ensures LoopState(g, h, rid, relation, allow, ids, j + 1, trace + [next], next)
  {
    StepKeys(graph, rid, relation, ids[j], allow, next);
    StepsExtend(rid, relation, allow, ids[..j], trace, ids[j], next);
    assert ids[..j + 1] == ids[..j] + [ids[j]];
  }

  /** One member step: the relation is rebuilt without `m`, a missing member
      is an error, and an accepted member is deleted through
      `deleteMultiple`. */
  method DropMember(fuel: nat, ghost g: Graph, before: Graph, rid: Id, relation: Entity, m: Id,
                    allowUntaggedMembers: bool, areaKeys: AreaKeys) returns (r: Result<Graph>)
    requires relation.Relation? && rid in g.entities && relation == g.entities[rid]
    requires DeletionOnly(g, before)
    ensures r.Ok? ==> MemberStep(before, rid, relation, m, allowUntaggedMembers, r.value) && DeletionOnly(g, r.value)
    ensures m !in AtStep(before, rid, relation, m).entities ==> r == Err(NotFound(m))
    ensures m in AtStep(before, rid, relation, m).entities && !Accepted(before, rid, relation, m, allowUntaggedMembers) ==>
      r == Ok(AtStep(before, rid, relation, m))
    decreases fuel, 2
  {
    ReplaceKeeps(g, before, rid, WithoutMember(relation, m));
    var graph := before.Replace(rid, WithoutMember(relation, m));
    if m !in graph.entities {
      return Err(NotFound(m));
    }
    if CanDeleteEntity(graph, m, allowUntaggedMembers) {
      var res := CascadeMember(fuel, graph, m, areaKeys);
      if res.Err? {
        return res;
      }
      DeletionOnlyTrans(g, graph, res.value);
      return res;
    }
    r := Ok(graph);
  }

  /** The cascade into `deleteMultiple([memberId])` for a member that
      `canDeleteEntity` accepts. */
  method CascadeMember(fuel: nat, g: Graph, m: Id, areaKeys: AreaKeys) returns (r: Result<Graph>)
    ensures r.Ok? ==> DeletionOnly(g, r.value) && m !in r.value.entities
    decreases fuel, 0
  {
    if fuel == 0 {
      return Err(OutOfFuel);
    }
    r := DeleteMultiple(fuel - 1, g, [m], areaKeys);
  }

  // ------------------------------------------------------------ deleteMultiple

  /** What the action chosen by the type of `id` promises about `r`:
      `deleteNode`, `deleteWay`, or `deleteRelation` without keeping
      untagged members. */
  ghost predicate EntityDeleted(g: Graph, id: Id, areaKeys: AreaKeys, r: Result<Graph>)
    requires id in g.entities
  {
    match g.entities[id]
    case Node(_, _) => NodeDeleted(g, id, areaKeys, r)
    case Way(_, _) => r == DeleteWay(g, id)
    case Relation(_, _) => RelationDeleted(g, id, false, r)
  }

  /** The graphs `steps` that `deleteMultiple` passes through: from `g`, each
      listed id still present is deleted by the action for its type, and an
      absent one is skipped. */
  ghost predicate MultipleSteps(g: Graph, ids: seq<Id>, areaKeys: AreaKeys, steps: seq<Graph>)
  {
    |steps| == |ids| + 1 && steps[0] == g &&
    forall i :: 0 <= i < |ids| ==>
      if ids[i] in steps[i].entities then EntityDeleted(steps[i], ids[i], areaKeys, Ok(steps[i + 1]))
      else steps[i + 1] == steps[i]
  }

  method DeleteMultiple(fuel: nat, g: Graph, ids: seq<Id>, areaKeys: AreaKeys) returns (r: Result<Graph>)
    ensures r.Ok? ==> DeletionOnly(g, r.value)
    // every listed identifier is gone afterwards, whether deleted at its own
    // turn or by an earlier cascade
    ensures r.Ok? ==> forall id :: id in ids ==> id !in r.value.entities
    // nothing listed is present: the graph comes back unchanged
    ensures (forall id :: id in ids ==> id !in g.entities) ==> r == Ok(g)
    // the ids are taken in order, each by the action for its type
    ensures r.Ok? ==> exists steps :: MultipleSteps(g, ids, areaKeys, steps) && steps[|ids|] == r.value
    // a single present id: exactly the action for its type
    ensures |ids| == 1 && ids[0] in g.entities ==> EntityDeleted(g, ids[0], areaKeys, r)
    decreases fuel, 7
  {
    var graph := g;
    ghost var steps := [g];
    var i := 0;
    while i < |ids|
      invariant MultipleState(g, ids, areaKeys, i, steps, graph)
      invariant |ids| == 1 && ids[0] in g.entities && i == 1 ==> EntityDeleted(g, ids[0], areaKeys, Ok(graph))
    {
      var id := ids[i];
      var next := graph;
      if graph.Has(id) {
        var res := DeleteEntity(fuel, graph, id, areaKeys);
        if res.Err? {
          return res;
        }
        next := res.value;
      }
      MultipleAdvance(g, ids, areaKeys, i, steps, graph, next);
      steps := steps + [next];
      graph := next;
      i := i + 1;
    }
    assert ids[..i] == ids;
    r := Ok(graph);
  }

  /** The invariant of the `deleteMultiple` loop after `i` ids. */
  ghost predicate MultipleState(g: Graph, ids: seq<Id>, areaKeys: AreaKeys, i: int, steps: seq<Graph>, graph: Graph)
  {
    && 0 <= i <= |ids|
    && DeletionOnly(g, graph)
    && (forall k :: 0 <= k < i ==> ids[k] !in graph.entities)
    && ((forall id :: id in ids ==> id !in g.entities) ==> graph == g)
    && MultipleSteps(g, ids[..i], areaKeys, steps) && steps[i] == graph
  }

  lemma MultipleAdvance(g: Graph, ids: seq<Id>, areaKeys: AreaKeys, i: int, steps: seq<Graph>, graph: Graph, next: Graph)
    requires MultipleState(g, ids, areaKeys, i, steps, graph) && i < |ids|
    requires if ids[i] in graph.entities
             then EntityDeleted(graph, ids[i], areaKeys, Ok(next)) &&
                  DeletionOnly(graph, next) && ids[i] !in next.entities
             else next == graph
    ensures MultipleState(g, ids, areaKeys, i + 1, steps + [next], next)
  {
    if ids[i] in graph.entities {
      DeletionOnlyTrans(g, graph, next);
    } else {
      assert ids[i] in ids;
    }
    MultipleExtend(g, ids, areaKeys, steps, i, next);
  }

  lemma MultipleExtend(g: Graph, ids: seq<Id>, areaKeys: AreaKeys, steps: seq<Graph>, i: nat, next: Graph)
    requires i < |ids| && MultipleSteps(g, ids[..i], areaKeys, steps)
    requires if ids[i] in steps[i].entities then EntityDeleted(steps[i], ids[i], areaKeys, Ok(next))
             else next == steps[i]
    ensures MultipleSteps(g, ids[..i + 1], areaKeys, steps + [next])
  {
    assert ids[..i + 1] == ids[..i] + [ids[i]];
  }

  /** The dispatch of `deleteMultiple` on the type of the entity found. */
  method DeleteEntity(fuel: nat, g: Graph, id: Id, areaKeys: AreaKeys) returns (r: Result<Graph>)
    requires id in g.entities
    ensures r.Ok? ==> DeletionOnly(g, r.value) && id !in r.value.entities
    ensures r.Ok? ==> r.value.entities.Keys <= g.entities.Keys
    ensures EntityDeleted(g, id, areaKeys, r)
    decreases fuel, 6
  {
    match g.entities[id] {
      case Node(_, _) => r := DeleteNode(fuel, g, id, areaKeys);
      case Way(_, _) => r := DeleteWay(g, id);
      case Relation(_, _) => r := DeleteRelation(fuel, g, id, false, areaKeys);
    }
  }
}
