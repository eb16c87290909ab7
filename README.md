# iD graph edit actions, modelled in Dafny

iD is the OpenStreetMap web editor. Every edit it makes is an *action*: a function
from one immutable graph snapshot to the next. The graph maps entity identifiers to
nodes (a location and tags), ways (a list of node identifiers and tags) and
relations (a list of typed, role-labelled members and tags). This project models the
topological actions of `modules/actions/` that insert, delete, rewire and retag
entities while keeping references consistent:

- `actionDisconnect`: `connections`, `disabled`, the action that moves every
  connection but one onto a copy of the node, and `limitWays`;
- `actionDeleteNode`, `actionDeleteRelation` and `actionDeleteMultiple`, which call
  one another through their degeneracy cascades;
- `actionDeleteMember` and `actionDeleteMembers`;
- `actionAddMidpoint` and `actionAddVertex`;
- `actionChangeMember` and `actionChangeTags`.

Layout:

- `wrappers.dfy` (module `Wrappers`): `Option`, `Result` and the thrown errors
  (missing entity, calling a method on the wrong kind of entity, an index out of
  range, cascade fuel exhausted).
- `ids.dfy` (module `Ids`): identifiers, increasing sequences, the fresh-id oracle.
- `osm.dfy` (module `Osm`): entities and the entity helpers the actions call.
- `graph.dfy` (module `Graphs`): the graph with `entity`, `replace`, `remove`,
  `parentWays` and `parentRelations`.
- One module per action file: `disconnect.dfy`, `deletion.dfy` (delete node,
  relation, multiple, and the way delete they call), `delete_member.dfy`,
  `delete_members.dfy`, `add_midpoint.dfy`, `add_vertex.dfy`, `change_member.dfy`,
  `change_tags.dfy`.

The actions that thread `graph` through loops are methods with loop invariants.
Each is proved equal to, or bounded by, a specification function. The properties
of those functions are proved as lemmas. The single-expression actions are functions.

## Model

| member | source | states |
|---|---|---|
| Disconnect.ScanWay | modules/actions/disconnect.js:61-73 | the index scan of one way returns exactly the closed-form candidate list of that way |
| Disconnect.CandidatesOfWay | modules/actions/disconnect.js:58-73 | one included parent way contributes its area-start candidate or its scanned indexes, as the specification function lists them |
| Disconnect.ScanParents | modules/actions/disconnect.js:52-75 | the loop over parent ways builds the candidate list, and sets `keeping` exactly when some parent is outside the way limit |
| Disconnect.Connections | modules/actions/disconnect.js:47-78 | `connections` fails on a missing node and otherwise returns all candidates when keeping, else all but the first |
| Disconnect.WayCandidatesMembers | modules/actions/disconnect.js:58-73 | a connection comes from a way exactly when it attaches there: index 0 of an area starting at the node, or an index holding the node, minus the skipped closing index |
| Disconnect.CandidatesMembers | modules/actions/disconnect.js:52-75 | a connection is collected from the first i parents exactly when its way is one of them and the connection attaches |
| Disconnect.CandidatesOrdered | modules/actions/disconnect.js:52-75 | candidates come out ordered by parent way, then by ascending index |
| Disconnect.DropFirstMembers | modules/actions/disconnect.js:77 | dropping the first of an ordered list keeps exactly the connections some other connection precedes |
| Disconnect.KeepingIff | modules/actions/disconnect.js:54-57 | `keeping` ends true exactly when the limit excludes some parent way of the node |
| Disconnect.ConnectionsMembers | modules/actions/disconnect.js:47-78 | `connections` succeeds iff the node exists; the result is ordered; with an excluded parent it is every candidate, otherwise every candidate but the first |
| Disconnect.NotConnectedIff | modules/actions/disconnect.js:77 | the result is empty iff there is no candidate (some parent excluded) or at most one candidate (none excluded) |
| Disconnect.FoldSeen | modules/actions/disconnect.js:86-105 | the seen-relations table holds exactly the relations visited, each mapped to the way that first reached it |
| Disconnect.FoldShared | modules/actions/disconnect.js:89-105 | the shared flag ends true iff two visits of one relation exist, the later one involving a limited way (or no limit is set) |
| Disconnect.ScanWayRelations | modules/actions/disconnect.js:90-104 | the inner loop over one way's parent relations updates table and flag as the fold prescribes |
| Disconnect.ScanRelations | modules/actions/disconnect.js:85-105 | the nested loops compute the fold's flag over all visits in parent-way order |
| Disconnect.SharedGivesShares | modules/actions/disconnect.js:89-107 | a shared relation found by the scan means two distinct parent ways of the node belong to one relation, one of them in the limit if a limit is set |
| Disconnect.SharesGivesShared | modules/actions/disconnect.js:89-107 | conversely, two such parent ways sharing a relation make the scan find it |
| Disconnect.Disabled | modules/actions/disconnect.js:81-108 | fails iff the node is missing; `not_connected` iff no connections; `relation` iff there are connections and two parent ways share a relation under the limit rule; nothing otherwise |
| Disconnect.Rewire | modules/actions/disconnect.js:31-40 | rewiring is refused only on a non-way or an index past the end; the result is a way with the same tags and length |
| Osm.UpdateNode | modules/actions/disconnect.js:38 | `updateNode` puts the id at the index; on a closed way it stays closed: at index 0 both ends become the id, at the closing index the id goes before a new closing reference; every other position keeps its node |
| Disconnect.RewireShape | modules/actions/disconnect.js:31-40 | area at index 0: every copy of the first node becomes the new id; closed way at its last index: the closing reference is dropped and the new id added at the end, before the re-closing node when the rest is still closed; otherwise: that index changes, and at index 0 of a closed way its closing reference too, so the way stays closed; every other position keeps its node, and an index past the end is refused |
| Disconnect.MigrateAll | modules/actions/disconnect.js:26-41 | the `forEach` over connections computes the fold of single steps, and stops at the first error |
| Disconnect.MigratedFails | modules/actions/disconnect.js:26-41 | once a step fails the whole fold reports that failure |
| Disconnect.MigratedFrame | modules/actions/disconnect.js:26-41 | after any prefix of steps only ways of the connections and new ids are touched; new ids hold copies of the node; every way keeps its tags and length |
| Disconnect.ConnectionsSpread | modules/actions/disconnect.js:47-78 | the connections are ordered, each sits at a position holding the node, an area attached at its start has no other connection, and the closing position of a closed way whose neighbour also holds the node comes after the neighbour's connection |
| Disconnect.RewireClosing | modules/actions/disconnect.js:34-36 | at the closing index of a closed way, after the earlier connections the unclosed rest is never closed itself, so the new id lands exactly at the closing position and every other position keeps its node |
| Disconnect.DetachStep | modules/actions/disconnect.js:27-40 | one step with a minted id writes a copy of the node under an id not yet in the graph and moves exactly the positions the connection rewrites (its own; for an area at index 0, every reference to the first node; at index 0 of a closed way, the closing reference too); the new id is in use nowhere in the graph, neither as an entity nor in a way; earlier moved positions keep their distinct new ids, all others stay as in the original graph |
| Disconnect.DetachedUpTo | modules/actions/disconnect.js:26-41 | after any prefix of the connections, each of them holds its own new copy of the node, no two alike; every position they rewrote, the closing reference of a closed way moved at its start included, holds a new copy; every other position holds what it held in the original graph |
| Disconnect.FirstKept | modules/actions/disconnect.js:77 | when no parent way is excluded, the least attachment, which `slice(1)` drops, still holds the node after the migration |
| Disconnect.Released | modules/actions/disconnect.js:26-40 | after migrating every connection with minted ids, a position of an included parent way that held the node still holds it exactly when no parent way is excluded and the attachment it belongs to is the least one |
| Disconnect.DisconnectDetaches | modules/actions/disconnect.js:22-44 | with minted ids the action succeeds on any node; every connection ends on a new id outside the original graph holding the node's location and tags; different connections get different ids; with no parent way excluded, the first attachment keeps the node; and a position of an included parent way that held the node still holds it exactly when it belongs to that kept first attachment (its own position, every reference to the first node of an area, or the skipped closing reference of a closed way) |
| Disconnect.Apply | modules/actions/disconnect.js:22-44 | a missing id fails with not-found and a non-node with a type error; with minted ids the action succeeds and detaches the node: each connection on its own new copy of the node, distinct per connection, and the first attachment keeps the node when no parent way is excluded, while every other position of an included way that held the node lets go of it |
| Disconnect.DisconnectOk | modules/actions/disconnect.js:22-44 | on a node whose minted id is not a way, the action succeeds |
| Disconnect.DisconnectFrame | modules/actions/disconnect.js:22-44 | a success means the id was a node; only connected ways and new node ids change; the original node is kept unless its own id is reused; with minted ids every connection is moved to its own new copy of the node, an id in use nowhere in the original graph, and every other position of an included way lets go of the node unless it belongs to the kept first attachment |
| Deletion.DeleteWay | modules/actions/delete_node.js:16 | the way delete fails iff the way is missing and otherwise removes exactly that id |
| Deletion.WaysStrippedDeletes | modules/actions/delete_node.js:10-18 | the way loop only deletes or rewrites, deletes each parent way left degenerate, and leaves every non-way untouched |
| Deletion.WaysStrippedQuiet | modules/actions/delete_node.js:10-18 | with no way left degenerate, the loop is exactly `removeNode` applied to each parent way |
| Deletion.StripWays | modules/actions/delete_node.js:10-18 | the loop computes the specification function of the way stage |
| Deletion.StripRelations | modules/actions/delete_node.js:20-28 | the loop over parent relations only deletes or rewrites; each one left empty is deleted; when none is left empty the result is each relation with every membership of the id removed |
| Deletion.DeleteNode | modules/actions/delete_node.js:6-35 | fails on a missing node; the node is gone; degenerate parent ways and empty parent relations are gone; without a cascade, the parents are rewritten and nothing else changes |
| Deletion.CanDeleteEntity | modules/actions/delete_relation.js:8-12 | a member may go iff it has no parent way, no parent relation, no interesting tag, and untagged members are not kept |
| Deletion.DropMembers | modules/actions/delete_relation.js:28-38 | the result is one member step per distinct member, in order, each built from the relation as first read (an accepted member is deleted, otherwise the rewritten graph is kept), followed by removing the relation; only deletes; with no member deletable it just removes the relation |
| Deletion.MemberLoop | modules/actions/delete_relation.js:29-36 | the loop's graph is reached by exactly those member steps from the parent stage; it only deletes and adds no identifier |
| Deletion.DropMember | modules/actions/delete_relation.js:30-35 | one step rewrites the relation without the member; a missing member fails with not-found; a member `canDeleteEntity` accepts on that graph is deleted; any other leaves the rewritten graph |
| Deletion.MembersDeleted | modules/actions/delete_relation.js:29-36 | every member accepted by `canDeleteEntity` on the graph at its own step is absent from the result |
| Deletion.MembersKept | modules/actions/delete_relation.js:8-12 | with untagged members kept no member is accepted, so the steps only rewrite the relation and the result is the starting graph without the relation |
| Deletion.RelationKeepsMembers | modules/actions/delete_relation.js:15-39 | a relation delete that keeps untagged members equals its parent stage followed by removing the relation |
| Deletion.DeleteRelation | modules/actions/delete_relation.js:15-39 | fails on a missing id; a success was a relation and it is gone; empty parent relations are gone; the result is the parent stage followed by the member steps and the removal; without cascades and with no member accepted (in particular when untagged members are kept and every member is present), it equals removing its memberships and then itself |
| Deletion.DeleteEntity | modules/actions/delete_multiple.js:7-17 | dispatch by kind: a node is deleted as `DeleteNode` states, a way by the way delete, a relation as `DeleteRelation` states with untagged members not kept |
| Deletion.DeleteMultiple | modules/actions/delete_multiple.js:14-22 | ids are processed in order: each present id is deleted as its kind's delete states on the graph of that step, an absent one is skipped; every listed id is gone; a single present id gives exactly its kind's delete; if none was present the graph is unchanged |
| DeleteMember.RemovedCount | modules/actions/delete_member.js:6-7 | `removeMember` shortens the list by one exactly when the spliced position is inside it, negative indexes included |
| DeleteMember.DegenerateIff | modules/actions/delete_member.js:11 | the relation is left empty iff it was empty, or had one member and the index reaches it |
| DeleteMember.Apply | modules/actions/delete_member.js:4-17 | a missing or non-relation id fails; with members left, only the relation changes, to its list without that entry; with none left, the result is exactly what deleting the rewritten relation gives (its parent loop and member cascade), so the relation is deleted, and so is every parent relation that delete leaves empty |
| DeleteMembers.SortDescending | modules/actions/delete_members.js:8 | the caller's array is sorted in place into non-increasing order, as a permutation |
| DeleteMembers.SinkNext | modules/actions/delete_members.js:8 | one insertion step of the sort: the array becomes its old contents with entry i moved left to its place, and the first i+1 entries are in non-increasing order |
| DeleteMembers.KeepMembers | modules/actions/delete_members.js:6-11 | a member survives the removal of a set of positions iff it sits at some position outside the set |
| DeleteMembers.RemoveBelow | modules/actions/delete_members.js:9-10 | removing position i after only higher positions were removed removes the same member as in the original list |
| DeleteMembers.RemoveNext | modules/actions/delete_members.js:9-10 | in descending order, each step removes exactly the next named position |
| DeleteMembers.RemoveSorted | modules/actions/delete_members.js:9-11 | an empty list leaves the graph unchanged; with some members left the result has exactly the named positions removed; removing all gives exactly what `actionDeleteRelation` makes of the emptied relation (its parent loop and member cascade), the relation gone and otherwise only deletions |
| DeleteMembers.RemoveRest | modules/actions/delete_members.js:9-11 | the remaining removals keep the relation as exactly the original list without the named positions, or, once every entry was named, leave the result of `actionDeleteRelation` on the emptied relation |
| DeleteMembers.Apply | modules/actions/delete_members.js:4-14 | the array ends sorted as a permutation of the input; the graph result is as for the sorted removal of the original indexes: exact with members left, and with every entry named, the result of `actionDeleteRelation` on the emptied relation |
| AddMidpoint.FirstEdgeFrom | modules/actions/add_midpoint.js:15-16 | the found position is the first from the start where consecutive nodes match the edge in either direction; none means no match |
| AddMidpoint.FindEdge | modules/actions/add_midpoint.js:15-23 | the indexed scan with early return finds exactly the first matching edge |
| AddMidpoint.WithMidpointShape | modules/actions/add_midpoint.js:15-23 | a way without the edge is unchanged; otherwise the node is inserted right after the first match only |
| AddMidpoint.AddNodeAtEdge | modules/actions/add_midpoint.js:17 | inserting at i+1 inside the way is a plain insertion that grows the list by one |
| AddMidpoint.Intersection | modules/actions/add_midpoint.js:9-12 | the common parents are exactly the ways in both lists, in increasing order |
| AddMidpoint.ThreadedKeeps | modules/actions/add_midpoint.js:14-24 | an entity that is not one of the common parent ways is unchanged |
| AddMidpoint.ThreadedUnchanged | modules/actions/add_midpoint.js:15-23 | a common parent way without the edge is left as it was |
| AddMidpoint.ThreadOne | modules/actions/add_midpoint.js:14-23 | one way of the loop: the result threads one more common parent way, adding the node after its first edge match |
| AddMidpoint.ThreadWays | modules/actions/add_midpoint.js:14-24 | the loop over common parent ways computes their threading |
| AddMidpoint.Apply | modules/actions/add_midpoint.js:5-28 | a non-node fails; missing edge ends fail; otherwise the node is moved, each common parent way gets it after its first edge match, and nothing else changes |
| AddVertex.Apply | modules/actions/add_vertex.js:2-6 | a missing or non-way id fails; only the way changes, growing by one and keeping its closedness; an index in range is a plain insertion, except at the start of a closed way, where the id becomes both ends; no index appends, before the closing node of a closed way; an out-of-range index is refused |
| ChangeMember.Apply | modules/actions/change_member.js:1-5 | a missing or non-relation id fails; only the relation changes; an in-range index replaces just that member; an index past the end appends |
| ChangeTags.Apply | modules/actions/change_tags.js:1-6 | fails iff the id is missing; the entity's tags become the given map, its other fields stay, nothing else changes |
| ChangeTags.Idempotent | modules/actions/change_tags.js:3-4 | applying the action twice equals applying it once |
| Osm.RemoveMember | modules/actions/delete_member.js:7 | an in-range index drops exactly that member; past the end nothing changes |
| Osm.UpdateMember | modules/actions/change_member.js:3 | an in-range index replaces exactly that member; past the end the member is appended |
| Osm.AddNode | modules/actions/add_vertex.js:4 | the index ranges up to the closing node; out of range is an error; otherwise one id is inserted at the index, except that at the start of a closed way it replaces the connector at both ends; closedness is kept |
| Osm.RemoveNode | modules/actions/delete_node.js:12 | every occurrence of the id is gone, every other node stays, and a closed way stays closed |
| Osm.RemoveMembersWithID | modules/actions/delete_node.js:22 | exactly the memberships of the id are removed |
| Osm.RemoveMembersConcat | modules/actions/delete_node.js:22 | the other members keep their order: on a concatenation the removal is the concatenation of the two removals |
| Osm.RemoveMembersSingle | modules/actions/delete_node.js:22 | a single member is dropped exactly when it has the id |
| Osm.RemoveAllConcat | modules/actions/delete_node.js:12 | the other nodes keep their order: on a concatenation the removal of occurrences is the concatenation of the two removals |
| Osm.NoRepeatKeeps | modules/actions/delete_node.js:12 | collapsing repeats leaves a list with no consecutive repeats as it is |
| Osm.RemoveNodeAbsent | modules/actions/delete_node.js:12 | `removeNode` of an id the way does not hold returns a way without consecutive repeats unchanged |

## Left out

- Every cascade in `Deletion` takes a `fuel` count. The recursion between the node, relation and multiple deletes has no decreasing graph measure: `actionDeleteRelation` rebuilds the relation from its first-read value at every member step. Running out of fuel is the error `OutOfFuel`. The statements about `Ok` results hold for any fuel. The model does not prove that enough fuel always exists.
- `parentWays` and `parentRelations` return ascending identifier order. iD returns the insertion order of its reverse index, which is not part of this model. So candidate order in `connections`, and which candidate is dropped first, follows identifiers.
- Deletion.DeleteWay: `actionDeleteWay` is not part of this model. It is modelled as removing the way alone, failing on a missing id, and leaving every other entity unchanged. iD's own way delete also edits the way's parent relations and deletes its orphaned nodes; the model does not. The exact results stated for `Deletion.DeleteNode`, `Deletion.DeleteEntity` and `Deletion.DeleteMultiple` on a cascading way delete depend on this choice.
- `osm/way.js` and `osm/relation.js` are not part of this model. Their helpers are written out in `Osm` with stated semantics:
  - `removeNode` drops every occurrence, collapses consecutive repeats and re-closes a closed way;
  - `unclose` drops the closing reference;
  - `addNode` inserts before the closing node;
  - `updateNode` substitutes one position, and on a closed way keeps it closed: at the first position both ends change, at the closing position the id is inserted before a new closing reference;
  - the trimming of connector nodes and the collapse of consecutive repeats that iD's `updateNode`, `addNode` and `unclose` also perform are not modelled;
  - `removeMember` and `updateMember` follow JavaScript's `splice`, negative indexes included.
- `isArea` takes the editor's area-key table as an explicit `areaKeys` parameter. Locations are opaque values that are only copied.
- `hasInterestingTags` is the rule that every key except attribution, `created_by`, `source`, `odbl` and keys starting with `source:`, `source_ref` or `tiger:` is interesting. The tag helper itself is not part of this model.
- Minting a new node id is the deterministic oracle `Ids.FreshId`: an id that names no entity of the graph and that no way of the graph refers to.
- `limitWays` is an explicit `Limit` parameter of the disconnect functions rather than state set on the action. An empty limit array is truthy in JavaScript, so `Some([])` restricts to no way at all.
- Disconnect.DisconnectOf: an identifier that names a way or a relation is refused with `TypeError`. In the source such an entity has no parent ways, so `connections` is empty and the graph comes back unchanged. The model's identifiers carry no kind prefix, so this case is refused explicitly.
- Disconnect.Apply: a caller-supplied `newNodeId` is reused for every connection, as the source does, even though its comment speaks of the first new node only. Where the copies go is stated only for minted identifiers.
- Disconnect.DisconnectFrame: with a caller-supplied `newNodeId` it states only the frame (what may change), not which positions then hold that id.
- Disconnect.MigratedFrame: it states only the frame of a fold over any list of connections. The effect for the list `connections` returns, with minted identifiers, is stated by `Disconnect.DisconnectDetaches`.
- Deletion.DeleteNode: the rewriting of surviving parents is stated exactly only when no cascade happens. With a cascade, the contract says only that entities are deleted or rewritten, never created, and that nodes are never altered.
- Deletion.DeleteRelation: the same restriction holds for the parent stage. Its exact result is stated only without a parent cascade and with no member deleted. Otherwise the contract states the member steps one by one, each relative to the graph of its step.
- DeleteMember.Apply: the property that deleting members repeatedly until none remain removes the relation once is not stated as a lemma. Each single step's contract says when the relation goes.
- AddMidpoint.Apply: the node is passed as a value, like the source's `node` argument. The move of the node is a replace with the midpoint location.
- AddVertex.Apply: the source does not check that `nodeId` names a node, and neither does the model.
- `circularize.js` is floating-point geometry, so it is not part of this model. `change_preset.js` delegates to preset objects and `copy_entities.js` to `entity.copy`, both unseen, so they are not part of this model either.
