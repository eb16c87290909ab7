/** The three entity kinds of the OSM data model (node, way, relation) and the
    entity helpers the edit actions call on them. Entities are values; the
    identifier of an entity is its key in the graph. */
module Osm {
  import opened Ids
  import opened Wrappers

  /** A location is opaque to the topological actions: they only copy it. */
  datatype Loc = Loc(lon: real, lat: real)

  type Tags = map<string, string>

  datatype Kind = NodeKind | WayKind | RelationKind

  datatype Member = Member(id: Id, kind: Kind, role: string)

  datatype Entity =
    | Node(loc: Loc, tags: Tags)
    | Way(nodes: seq<Id>, tags: Tags)
    | Relation(members: seq<Member>, tags: Tags)

  function KindOf(e: Entity): Kind
  {
    match e
    case Node(_, _) => NodeKind
    case Way(_, _) => WayKind
    case Relation(_, _) => RelationKind
  }

  /** `entity.update({tags})`: the same entity with its tag map replaced. */
  function WithTags(e: Entity, tags: Tags): (r: Entity)
    ensures r.tags == tags && KindOf(r) == KindOf(e)
    ensures e.Node? ==> r.loc == e.loc
    ensures e.Way? ==> r.nodes == e.nodes
    ensures e.Relation? ==> r.members == e.members
  {
    match e
    case Node(loc, _) => Node(loc, tags)
    case Way(nodes, _) => Way(nodes, tags)
    case Relation(members, _) => Relation(members, tags)
  }

  // ---------------------------------------------------------------- tags

  predicate HasPrefix(s: string, p: string)
  {
    |p| <= |s| && s[..|p|] == p
  }

  /** A key that carries meaning of its own, as opposed to attribution and
      import bookkeeping keys (the rule iD's tag helper applies). */
  predicate IsInterestingKey(k: string)
  {
    k != "attribution" && k != "created_by" && k != "source" && k != "odbl" &&
    !HasPrefix(k, "source:") && !HasPrefix(k, "source_ref") && !HasPrefix(k, "tiger:")
  }

  predicate HasInterestingTags(tags: Tags)
  {
    exists k :: k in tags && IsInterestingKey(k)
  }

  // ---------------------------------------------------------------- ways

  /** A way is closed when it has more than one node and ends where it starts. */
  predicate IsClosed(nodes: seq<Id>)
  {
    |nodes| > 1 && nodes[0] == nodes[|nodes| - 1]
  }

  /** The editor's area-key table: a key suggests an area unless its value is
      one of the listed exceptions. */
  type AreaKeys = map<string, set<string>>

  predicate TagIs(tags: Tags, k: string, v: string)
  {
    k in tags && tags[k] == v
  }

  /** `area=yes` makes any way an area; otherwise a closed way is an area when
      it is not `area=no` and some tag suggests an area. */
  predicate IsArea(nodes: seq<Id>, tags: Tags, areaKeys: AreaKeys)
  {
    TagIs(tags, "area", "yes") ||
    (IsClosed(nodes) && !TagIs(tags, "area", "no") &&
     exists k :: k in tags && k in areaKeys && tags[k] !in areaKeys[k])
  }

  function DistinctCount(nodes: seq<Id>): nat
  {
    |set x | x in nodes|
  }

  /** A way is degenerate when it has fewer than two distinct nodes (three for
      an area). */
  predicate IsWayDegenerate(nodes: seq<Id>, tags: Tags, areaKeys: AreaKeys)
  {
    DistinctCount(nodes) < if IsArea(nodes, tags, areaKeys) then 3 else 2
  }

  function Insert(s: seq<Id>, i: nat, x: Id): (r: seq<Id>)
    requires i <= |s|
    ensures |r| == |s| + 1 && r[i] == x
    ensures r[..i] == s[..i] && r[i + 1..] == s[i..]
  {
    s[..i] + [x] + s[i..]
  }

  /** All occurrences of `id` dropped. */
  function RemoveAll(s: seq<Id>, id: Id): (r: seq<Id>)
    ensures forall x :: x in r <==> x in s && x != id
  {
    if s == [] then [] else (if s[0] == id then [] else [s[0]]) + RemoveAll(s[1..], id)
  }

  /** Runs of one repeated node collapsed to a single occurrence. */
  function NoRepeat(s: seq<Id>): (r: seq<Id>)
    ensures forall x :: x in r <==> x in s
    ensures |s| > 0 ==> |r| > 0 && r[0] == s[0] && r[|r| - 1] == s[|s| - 1]
    ensures forall k :: 0 <= k < |r| - 1 ==> r[k] != r[k + 1]
  {
    if |s| <= 1 then s
    else
      var p := NoRepeat(s[..|s| - 1]);
      assert forall x :: x in s <==> x in s[..|s| - 1] || x == s[|s| - 1];
      if s[|s| - 1] == s[|s| - 2] then p else p + [s[|s| - 1]]
  }

  /** `way.removeNode(id)`: every occurrence removed, repeats collapsed, and a
      way that was closed is closed again. */
  function RemoveNode(nodes: seq<Id>, id: Id): (r: seq<Id>)
    ensures id !in r
    ensures forall x :: x in r ==> x in nodes
    ensures forall x :: x in nodes && x != id ==> x in r
    ensures IsClosed(nodes) && r != [] ==> IsClosed(r)
  {
    var f := NoRepeat(RemoveAll(nodes, id));
    if IsClosed(nodes) && (|f| == 1 || (|f| > 1 && f[0] != f[|f| - 1])) then f + [f[0]] else f
  }

  /** Removing occurrences works element by element, in order: on a
      concatenation it is the concatenation of the two removals, and a single
      node is dropped exactly when it is the removed one. */
  lemma {:induction false} RemoveAllConcat(a: seq<Id>, b: seq<Id>, id: Id)
    ensures RemoveAll(a + b, id) == RemoveAll(a, id) + RemoveAll(b, id)
  {
    if a == [] {
      assert a + b == b;
    } else {
      assert (a + b)[1..] == a[1..] + b;
      RemoveAllConcat(a[1..], b, id);
      var head := if a[0] == id then [] else [a[0]];
      var x, y := RemoveAll(a[1..], id), RemoveAll(b, id);
      assert head + (x + y) == (head + x) + y;
    }
  }

  lemma RemoveAllSingle(x: Id, id: Id)
    ensures RemoveAll([x], id) == if x == id then [] else [x]
  {
    assert [x][1..] == [];
  }

  /** Collapsing repeats leaves a sequence without adjacent repeats as it is. */
  lemma {:induction false} NoRepeatKeeps(s: seq<Id>)
    requires forall k :: 0 <= k < |s| - 1 ==> s[k] != s[k + 1]
    ensures NoRepeat(s) == s
    decreases |s|
  {
    if |s| > 1 {
      NoRepeatKeeps(s[..|s| - 1]);
      assert s[..|s| - 1] + [s[|s| - 1]] == s;
    }
  }

  /** Removing a node that the way does not hold, from a way without adjacent
      repeats, leaves the node list as it is. */
  lemma RemoveNodeAbsent(nodes: seq<Id>, id: Id)
    requires id !in nodes
    requires forall k :: 0 <= k < |nodes| - 1 ==> nodes[k] != nodes[k + 1]
    ensures RemoveNode(nodes, id) == nodes
  {
    RemoveAllAbsent(nodes, id);
    NoRepeatKeeps(nodes);
  }

  lemma {:induction false} RemoveAllAbsent(s: seq<Id>, id: Id)
    requires id !in s
    ensures RemoveAll(s, id) == s
  {
    if s != [] {
      RemoveAllAbsent(s[1..], id);
    }
  }

  /** `way.addNode(id, index)`: the index ranges over the positions before the
      closing node of a closed way; no index means the end of that range. */
  function AddNode(nodes: seq<Id>, id: Id, index: Option<int>): (r: Result<seq<Id>>)
    ensures var max := if IsClosed(nodes) then |nodes| - 1 else |nodes|;
            var i := if index.Some? then index.value else max;
            && (r.Err? <==> i < 0 || i > max)
            && (r.Err? ==> r.error == RangeError)
            && (r.Ok? && (!IsClosed(nodes) || i > 0) ==> r.value == Insert(nodes, i, id))
            // at the start of a closed way the new id becomes its connector
            && (r.Ok? && IsClosed(nodes) && i == 0 ==> r.value == [id] + nodes[..|nodes| - 1] + [id])
            && (r.Ok? && IsClosed(nodes) ==> IsClosed(r.value))
            && (r.Ok? ==> |r.value| == |nodes| + 1)
  {
    var closed := IsClosed(nodes);
    var max := if closed then |nodes| - 1 else |nodes|;
    var i := if index.Some? then index.value else max;
    if i < 0 || i > max then Err(RangeError)
    else if closed then
      var ins := Insert(nodes[..|nodes| - 1], i, id);
      assert i > 0 ==> ins + [ins[0]] == Insert(nodes, i, id);
      Ok(ins + [ins[0]])
    else Ok(Insert(nodes, i, id))
  }

  /** `way.updateNode(id, index)`: the node at `index` becomes `id`, and a
      closed way stays closed. Its first and closing references are one
      connector: replacing the first moves both ends to `id`, and replacing
      the closing one drops it and re-closes the way after `id`. */
  function UpdateNode(nodes: seq<Id>, id: Id, index: nat): (r: seq<Id>)
    requires index < |nodes|
    ensures !IsClosed(nodes) || 0 < index < |nodes| - 1 ==>
      |r| == |nodes| && r[index] == id && forall k :: 0 <= k < |nodes| && k != index ==> r[k] == nodes[k]
    ensures IsClosed(nodes) && index == 0 ==>
      |r| == |nodes| && r[0] == id && r[|r| - 1] == id && forall k :: 0 < k < |nodes| - 1 ==> r[k] == nodes[k]
    ensures IsClosed(nodes) && index == |nodes| - 1 ==>
      |r| == |nodes| + 1 && r[..index] == nodes[..index] && r[index] == id && r[index + 1] == nodes[0]
    ensures IsClosed(nodes) ==> IsClosed(r)
  {
    var last := |nodes| - 1;
    if IsClosed(nodes) && index == 0 then nodes[0 := id][last := id]
    else if IsClosed(nodes) && index == last then nodes[..last] + [id, nodes[0]]
    else nodes[index := id]
  }

  /** `way.replaceNode(needle, replacement)`: every occurrence substituted. */
  function ReplaceNode(nodes: seq<Id>, needle: Id, replacement: Id): (r: seq<Id>)
    ensures |r| == |nodes|
    ensures forall k :: 0 <= k < |nodes| ==> r[k] == if nodes[k] == needle then replacement else nodes[k]
  {
    seq(|nodes|, k requires 0 <= k < |nodes| => if nodes[k] == needle then replacement else nodes[k])
  }

  /** `way.unclose()` on a closed way: the closing reference dropped. */
  function Unclose(nodes: seq<Id>): (r: seq<Id>)
    requires IsClosed(nodes)
    ensures |r| == |nodes| - 1 && r == nodes[..|nodes| - 1]
  {
    nodes[..|nodes| - 1]
  }

  // ---------------------------------------------------------------- relations

  predicate IsRelationDegenerate(members: seq<Member>)
  {
    |members| == 0
  }

  /** Where JavaScript's `Array.prototype.splice` starts for a given `start`:
      negative values count from the end, and both ends are clamped. */
  function SpliceStart(len: nat, start: int): (r: nat)
    ensures r <= len
    ensures 0 <= start <= len ==> r == start
    ensures start > len ==> r == len
  {
    if start < 0 then (if len + start < 0 then 0 else len + start)
    else if start > len then len
    else start
  }

  /** `s.splice(start, deleteCount, ...items)`, as the new array. */
  function Splice(s: seq<Member>, start: int, deleteCount: nat, items: seq<Member>): (r: seq<Member>)
    ensures var a := SpliceStart(|s|, start);
            var d := if deleteCount <= |s| - a then deleteCount else |s| - a;
            r == s[..a] + items + s[a + d..]
  {
    var a := SpliceStart(|s|, start);
    var d := if deleteCount <= |s| - a then deleteCount else |s| - a;
    s[..a] + items + s[a + d..]
  }

  /** `relation.removeMember(index)`. */
  function RemoveMember(members: seq<Member>, index: int): (r: seq<Member>)
    ensures 0 <= index < |members| ==> r == members[..index] + members[index + 1..]
    ensures 0 <= index < |members| ==> |r| == |members| - 1
    ensures index >= |members| ==> r == members
    ensures |members| - 1 <= |r| <= |members|
  {
    Splice(members, index, 1, [])
  }

  /** `relation.updateMember(member, index)`. */
  function UpdateMember(members: seq<Member>, member: Member, index: int): (r: seq<Member>)
    ensures 0 <= index < |members| ==> |r| == |members| && r[index] == member
    ensures 0 <= index < |members| ==> forall k :: 0 <= k < |members| && k != index ==> r[k] == members[k]
    ensures index >= |members| ==> r == members + [member]
  {
    Splice(members, index, 1, [member])
  }

  /** `relation.removeMembersWithID(id)`. */
  function RemoveMembersWithID(members: seq<Member>, id: Id): (r: seq<Member>)
    ensures forall m :: m in r <==> m in members && m.id != id
    ensures |r| <= |members|
    ensures (forall m :: m in members ==> m.id != id) ==> r == members
  {
    if members == [] then []
    else (if members[0].id == id then [] else [members[0]]) + RemoveMembersWithID(members[1..], id)
  }

  /** Member removal keeps the order of the other members: on a
      concatenation it is the concatenation of the two removals, and a single
      member is dropped exactly when it has the identifier. */
  lemma {:induction false} RemoveMembersConcat(a: seq<Member>, b: seq<Member>, id: Id)
    ensures RemoveMembersWithID(a + b, id) == RemoveMembersWithID(a, id) + RemoveMembersWithID(b, id)
  {
    if a == [] {
      assert a + b == b;
    } else {
      assert (a + b)[1..] == a[1..] + b;
      RemoveMembersConcat(a[1..], b, id);
      var head := if a[0].id == id then [] else [a[0]];
      var x, y := RemoveMembersWithID(a[1..], id), RemoveMembersWithID(b, id);
      assert head + (x + y) == (head + x) + y;
    }
  }

  lemma RemoveMembersSingle(m: Member, id: Id)
    ensures RemoveMembersWithID([m], id) == if m.id == id then [] else [m]
  {
    assert [m][1..] == [];
  }

  predicate HasMember(members: seq<Member>, id: Id)
  {
    exists m :: m in members && m.id == id
  }

  /** The distinct identifiers of a sequence, each at its first occurrence. */
  function Uniq(s: seq<Id>): (r: seq<Id>)
    ensures forall x :: x in r <==> x in s
    ensures forall i, j :: 0 <= i < j < |r| ==> r[i] != r[j]
  {
    if s == [] then []
    else
      var p := Uniq(s[..|s| - 1]);
      assert forall x :: x in s <==> x in s[..|s| - 1] || x == s[|s| - 1];
      if s[|s| - 1] in p then p else p + [s[|s| - 1]]
  }

  function MemberIdList(members: seq<Member>): (r: seq<Id>)
    ensures |r| == |members| && forall k :: 0 <= k < |members| ==> r[k] == members[k].id
  {
    seq(|members|, k requires 0 <= k < |members| => members[k].id)
  }

  /** `utilArrayUniq(relation.members.map(m => m.id))`. */
  function MemberIds(members: seq<Member>): (r: seq<Id>)
    ensures forall x :: x in r <==> HasMember(members, x)
    ensures forall i, j :: 0 <= i < j < |r| ==> r[i] != r[j]
  {
    var ids := MemberIdList(members);
    assert forall x :: x in ids <==> HasMember(members, x) by {
      forall x ensures x in ids <==> HasMember(members, x) {
        if HasMember(members, x) {
          var m :| m in members && m.id == x;
          var k :| 0 <= k < |members| && members[k] == m;
          assert ids[k] == x;
        }
      }
    }
    Uniq(ids)
  }
}
