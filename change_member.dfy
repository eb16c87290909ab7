/** `actionChangeMember(relationId, member, memberIndex)`: replace one member
    entry of a relation. */
module ChangeMember {
  import opened Ids
  import opened Wrappers
  import opened Osm
  import opened Graphs

  function Apply(g: Graph, relationId: Id, member: Member, memberIndex: int): (r: Result<Graph>)
    ensures relationId !in g.entities ==> r == Err(NotFound(relationId))
    ensures relationId in g.entities && !g.entities[relationId].Relation? ==> r == Err(TypeError)
    ensures r.Ok? <==> relationId in g.entities && g.entities[relationId].Relation?
    ensures r.Ok? ==> r.value.entities.Keys == g.entities.Keys
    ensures r.Ok? ==>
      var rel := g.entities[relationId];
      var after := r.value.entities[relationId];
      // only the relation changes, keeping its kind and tags
      && (forall id :: id in g.entities && id != relationId ==> r.value.entities[id] == g.entities[id])
      && after.Relation? && after.tags == rel.tags
      // an index in range: that member is replaced and nothing else moves
      && (0 <= memberIndex < |rel.members| ==>
            && |after.members| == |rel.members|
            && after.members[memberIndex] == member
            && forall k :: 0 <= k < |rel.members| && k != memberIndex ==> after.members[k] == rel.members[k])
      // an index past the end: the splice appends the member
      && (memberIndex >= |rel.members| ==> after.members == rel.members + [member])
  {
    var e :- g.Get(relationId);
    if !e.Relation? then Err(TypeError)
    else Ok(g.Replace(relationId, Relation(UpdateMember(e.members, member, memberIndex), e.tags)))
  }
}
