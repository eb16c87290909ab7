/** The immutable graph snapshot: an identifier-to-entity map, with the reverse
    lookups (parent ways of a node, parent relations of any entity) derived
    from it. Every action threads a `Graph` value through `Replace` and
    `Remove`; earlier snapshots are untouched values. */
module Graphs {
  import opened Ids
  import opened Wrappers
  import opened Osm

  datatype Graph = Graph(entities: map<Id, Entity>) {

    /** `graph.hasEntity(id)` */
    predicate Has(id: Id)
    {
      id in entities
    }

    /** `graph.entity(id)`, which fails for an absent identifier. */
    function Get(id: Id): (r: Result<Entity>)
      ensures r.Ok? <==> id in entities
      ensures r.Ok? ==> r.value == entities[id]
      ensures r.Err? ==> r.error == NotFound(id)
    {
      if id in entities then Ok(entities[id]) else Err(NotFound(id))
    }

    /** `graph.replace(entity)` */
    function Replace(id: Id, e: Entity): Graph
    {
      Graph(entities[id := e])
    }

    /** `graph.remove(entity)` */
    function Remove(id: Id): Graph
    {
      Graph(entities - {id})
    }

    predicate IsParentWay(w: Id, n: Id)
    {
      w in entities && entities[w].Way? && n in entities[w].nodes
    }

    predicate IsParentRelation(r: Id, id: Id)
    {
      r in entities && entities[r].Relation? && HasMember(entities[r].members, id)
    }

    /** `graph.parentWays(node)`: the ways whose node list mentions `n`, each
        once, in ascending identifier order. */
    function ParentWays(n: Id): (r: seq<Id>)
      ensures forall w :: w in r <==> IsParentWay(w, n)
      ensures Increasing(r)
    {
      Sorted(set w | w in entities && IsParentWay(w, n))
    }

    /** `graph.parentRelations(entity)`: the relations with a member `id`, each
        once, in ascending identifier order. */
    function ParentRelations(id: Id): (r: seq<Id>)
      ensures forall p :: p in r <==> IsParentRelation(p, id)
      ensures Increasing(r)
    {
      Sorted(set p | p in entities && IsParentRelation(p, id))
    }
  }
}
