/** `actionDeleteMember(relationId, memberIndex)`: remove one member entry of
    a relation, and delete the relation when that leaves it without members. */
module DeleteMember {
  import opened Ids
  import opened Wrappers
  import opened Osm
  import opened Graphs
  import Deletion

  /** How many member entries `relation.removeMember(index)` leaves: one fewer
      exactly when the spliced position falls inside the list, which for a
      negative index (counted from the end) is whenever the list is not empty. */
  lemma {:induction false} RemovedCount(members: seq<Member>, index: int)
    ensures |RemoveMember(members, index)| ==
      if |members| > 0 && index < |members| then |members| - 1 else |members|
  {
    var a := SpliceStart(|members|, index);
    assert |members| > 0 && index < |members| ==> a < |members|;
    assert !(|members| > 0 && index < |members|) ==> a == |members|;
  }

  /** The relation is left degenerate exactly when it had no members, or had
      one and the index reaches it. */
  lemma DegenerateIff(members: seq<Member>, index: int)
    ensures IsRelationDegenerate(RemoveMember(members, index)) <==>
      |members| == 0 || (|members| == 1 && index < 1)
  {
    RemovedCount(members, index);
  }

  method Apply(fuel: nat, g: Graph, relationId: Id, memberIndex: int, areaKeys: AreaKeys)
    returns (r: Result<Graph>)
    ensures relationId !in g.entities ==> r == Err(NotFound(relationId))
    ensures relationId in g.entities && !g.entities[relationId].Relation? ==> r == Err(TypeError)
    ensures r.Ok? ==> relationId in g.entities && g.entities[relationId].Relation?
    // members left: the relation is written back without that entry, nothing else changes
    ensures (relationId in g.entities && g.entities[relationId].Relation? &&
             !IsRelationDegenerate(RemoveMember(g.entities[relationId].members, memberIndex))) ==>
      r == Ok(g.Replace(relationId,
        Relation(RemoveMember(g.entities[relationId].members, memberIndex), g.entities[relationId].tags)))
    // no members left: the relation is deleted, with its cascade
    ensures (relationId in g.entities && g.entities[relationId].Relation? &&
             IsRelationDegenerate(RemoveMember(g.entities[relationId].members, memberIndex)) && r.Ok?) ==>
      Deletion.DeletionOnly(g, r.value) && relationId !in r.value.entities
    // ... and a parent relation that loses its last member then goes too
    ensures (relationId in g.entities && g.entities[relationId].Relation? &&
             IsRelationDegenerate(RemoveMember(g.entities[relationId].members, memberIndex)) && r.Ok?) ==>
      forall p :: g.IsParentRelation(p, relationId) && Deletion.RelationDegenerateAfter(g, p, relationId) ==>
        p !in r.value.entities
    // ... exactly as deleting the rewritten relation does
    ensures (relationId in g.entities && g.entities[relationId].Relation? &&
             IsRelationDegenerate(RemoveMember(g.entities[relationId].members, memberIndex))) ==>
      Deletion.RelationDeleted(g.Replace(relationId,
        Relation(RemoveMember(g.entities[relationId].members, memberIndex), g.entities[relationId].tags)),
        relationId, false, r)
  {
    var e :- g.Get(relationId);
    if !e.Relation? {
      return Err(TypeError);
    }
    var relation := Relation(RemoveMember(e.members, memberIndex), e.tags);
    var graph := g.Replace(relationId, relation);
    if IsRelationDegenerate(relation.members) {
      Deletion.ReplaceKeeps(g, g, relationId, relation);
      r := Deletion.DeleteRelation(fuel, graph, relationId, false, areaKeys);
      if r.Ok? {
        Deletion.DeletionOnlyTrans(g, graph, r.value);
        forall p | g.IsParentRelation(p, relationId) && Deletion.RelationDegenerateAfter(g, p, relationId) && p != relationId
          ensures p !in r.value.entities
        {
          assert graph.entities[p] == g.entities[p];
          assert graph.IsParentRelation(p, relationId) && Deletion.RelationDegenerateAfter(graph, p, relationId);
        }
      }
      return r;
    }
    return Ok(graph);
  }
}
