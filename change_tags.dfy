/** `actionChangeTags(entityId, tags)`: replace an entity's tag map wholesale. */
module ChangeTags {
  import opened Ids
  import opened Wrappers
  import opened Osm
  import opened Graphs

  /** `e` and `f` differ at most in their tags. */
  predicate SameShape(e: Entity, f: Entity)
  {
    KindOf(e) == KindOf(f) &&
    (e.Node? ==> e.loc == f.loc) &&
    (e.Way? ==> e.nodes == f.nodes) &&
    (e.Relation? ==> e.members == f.members)
  }

  function Apply(g: Graph, entityId: Id, tags: Tags): (r: Result<Graph>)
    ensures r.Err? <==> entityId !in g.entities
    ensures r.Err? ==> r.error == NotFound(entityId)
    ensures r.Ok? ==>
      && r.value.entities.Keys == g.entities.Keys
      && r.value.entities[entityId].tags == tags
      && SameShape(g.entities[entityId], r.value.entities[entityId])
      && forall id :: id in g.entities && id != entityId ==> r.value.entities[id] == g.entities[id]
  {
    var e :- g.Get(entityId);
    Ok(g.Replace(entityId, WithTags(e, tags)))
  }

  /** Setting the same tags a second time changes nothing. */
  lemma Idempotent(g: Graph, entityId: Id, tags: Tags)
    requires entityId in g.entities
    ensures Apply(g, entityId, tags).Ok?
    ensures Apply(Apply(g, entityId, tags).value, entityId, tags) == Apply(g, entityId, tags)
  {
    var h := Apply(g, entityId, tags).value;
    var e := g.entities[entityId];
    assert h.entities[entityId] == WithTags(e, tags);
    assert WithTags(WithTags(e, tags), tags) == WithTags(e, tags);
    assert h.entities[entityId := WithTags(h.entities[entityId], tags)] == h.entities;
  }
}
