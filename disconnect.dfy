/** `actionDisconnect(nodeId, newNodeId)`: detach the ways that meet at a node
    so that each attachment but one gets a node of its own, optionally only
    for a given set of ways (`limitWays`). */
module Disconnect {
  import opened Ids
  import opened Wrappers
  import opened Osm
  import opened Graphs

  /** `{wayID, index}`: one attachment of the node to a way. */
  datatype Connection = Connection(wayId: Id, index: nat)

  /** The `limitWays` restriction: `None` when it is unset. Any array, even an
      empty one, counts as set. */
  type Limit = Option<seq<Id>>

  predicate Excluded(wayIds: Limit, w: Id)
  {
    wayIds.Some? && w !in wayIds.value
  }

  // ---------------------------------------------------------------- candidates

  /** A closed way of the restriction, when the node has several parent ways,
      yields no candidate for its closing position. */
  predicate SkipsClosing(nodes: seq<Id>, w: Id, multi: bool, wayIds: Limit)
  {
    IsClosed(nodes) && multi && wayIds.Some? && w in wayIds.value
  }

  /** The positions below `j` at which the node sits, as candidates. */
  function ScanUpTo(nodes: seq<Id>, w: Id, nodeId: Id, skip: bool, j: nat): seq<Connection>
    requires j <= |nodes|
  {
    if j == 0 then []
    else
      ScanUpTo(nodes, w, nodeId, skip, j - 1) +
      (if nodes[j - 1] == nodeId && !(skip && j - 1 == |nodes| - 1) then [Connection(w, j - 1)] else [])
  }

  /** An area that starts at the node attaches once, at position 0. */
  predicate AttachesAtStart(way: Entity, nodeId: Id, areaKeys: AreaKeys)
    requires way.Way?
  {
    IsArea(way.nodes, way.tags, areaKeys) && |way.nodes| > 0 && way.nodes[0] == nodeId
  }

  function WayCandidates(g: Graph, w: Id, nodeId: Id, multi: bool, wayIds: Limit, areaKeys: AreaKeys)
    : seq<Connection>
    requires w in g.entities && g.entities[w].Way?
  {
    var way := g.entities[w];
    if Excluded(wayIds, w) then []
    else if AttachesAtStart(way, nodeId, areaKeys) then [Connection(w, 0)]
    else ScanUpTo(way.nodes, w, nodeId, SkipsClosing(way.nodes, w, multi, wayIds), |way.nodes|)
  }

  predicate AllWays(g: Graph, ws: seq<Id>)
  {
    forall k :: 0 <= k < |ws| ==> ws[k] in g.entities && g.entities[ws[k]].Way?
  }

  /** The candidates of the first `i` parent ways, in order. */
  function CandidatesUpTo(g: Graph, parents: seq<Id>, nodeId: Id, wayIds: Limit, areaKeys: AreaKeys, i: nat)
    : seq<Connection>
    requires i <= |parents| && AllWays(g, parents)
  {
    if i == 0 then []
    else
      CandidatesUpTo(g, parents, nodeId, wayIds, areaKeys, i - 1) +
      WayCandidates(g, parents[i - 1], nodeId, |parents| > 1, wayIds, areaKeys)
  }

  lemma CandidatesStep(g: Graph, parents: seq<Id>, nodeId: Id, wayIds: Limit, areaKeys: AreaKeys, i: nat)
    requires i < |parents| && AllWays(g, parents)
    ensures CandidatesUpTo(g, parents, nodeId, wayIds, areaKeys, i + 1) ==
      CandidatesUpTo(g, parents, nodeId, wayIds, areaKeys, i) +
      WayCandidates(g, parents[i], nodeId, |parents| > 1, wayIds, areaKeys)
    ensures Excluded(wayIds, parents[i]) ==>
      CandidatesUpTo(g, parents, nodeId, wayIds, areaKeys, i + 1) ==
      CandidatesUpTo(g, parents, nodeId, wayIds, areaKeys, i)
  {
    if Excluded(wayIds, parents[i]) {
      var c := CandidatesUpTo(g, parents, nodeId, wayIds, areaKeys, i);
      assert c + [] == c;
    }
  }

  /** Some of the first `i` parent ways is left out by the restriction. */
  predicate KeepingUpTo(parents: seq<Id>, wayIds: Limit, i: nat)
    requires i <= |parents|
  {
    exists k :: 0 <= k < i && Excluded(wayIds, parents[k])
  }

  lemma KeepingStep(parents: seq<Id>, wayIds: Limit, i: nat)
    requires i < |parents|
    ensures KeepingUpTo(parents, wayIds, i + 1) == (KeepingUpTo(parents, wayIds, i) || Excluded(wayIds, parents[i]))
  {
    if Excluded(wayIds, parents[i]) {
      assert KeepingUpTo(parents, wayIds, i + 1);
    }
  }

  /** `candidates.slice(1)` */
  function DropFirst(s: seq<Connection>): (r: seq<Connection>)
  {
    if s == [] then [] else s[1..]
  }

  /** `action.connections(graph)`, as a value. */
  function ConnectionsOf(g: Graph, nodeId: Id, wayIds: Limit, areaKeys: AreaKeys): Result<seq<Connection>>
  {
    if nodeId !in g.entities then Err(NotFound(nodeId))
    else
      var parents := g.ParentWays(nodeId);
      ParentsAreWays(g, nodeId);
      var c := CandidatesUpTo(g, parents, nodeId, wayIds, areaKeys, |parents|);
      Ok(if KeepingUpTo(parents, wayIds, |parents|) then c else DropFirst(c))
  }

  lemma ParentsAreWays(g: Graph, nodeId: Id)
    ensures AllWays(g, g.ParentWays(nodeId))
  {
    var parents := g.ParentWays(nodeId);
    forall k | 0 <= k < |parents| ensures parents[k] in g.entities && g.entities[parents[k]].Way? {
      assert g.IsParentWay(parents[k], nodeId);
    }
  }

  // ---------------------------------------------------------------- what the candidates are

  /** Position `index` of way `w` is a candidate: the way is not left out,
      and either it is an area starting at the node (position 0 only) or the
      node sits at that position, which is not a skipped closing position. */
  predicate Attaches(way: Entity, w: Id, nodeId: Id, multi: bool, wayIds: Limit, areaKeys: AreaKeys, index: nat)
    requires way.Way?
  {
    && !Excluded(wayIds, w)
    && if AttachesAtStart(way, nodeId, areaKeys) then index == 0
       else index < |way.nodes| && way.nodes[index] == nodeId &&
            !(SkipsClosing(way.nodes, w, multi, wayIds) && index == |way.nodes| - 1)
  }

  /** `c` is an attachment of the node to one of its parent ways. */
  predicate IsCandidate(g: Graph, nodeId: Id, multi: bool, wayIds: Limit, areaKeys: AreaKeys, c: Connection)
  {
    g.IsParentWay(c.wayId, nodeId) &&
    Attaches(g.entities[c.wayId], c.wayId, nodeId, multi, wayIds, areaKeys, c.index)
  }

  /** Parent-way order first (ascending identifiers), then ascending index. */
  predicate Before(c: Connection, d: Connection)
  {
    c.wayId < d.wayId || (c.wayId == d.wayId && c.index < d.index)
  }

  predicate Ordered(s: seq<Connection>)
  {
    forall a, b :: 0 <= a < b < |s| ==> Before(s[a], s[b])
  }

  lemma {:induction false} ScanMembers(nodes: seq<Id>, w: Id, nodeId: Id, skip: bool, j: nat)
    requires j <= |nodes|
    ensures forall c :: c in ScanUpTo(nodes, w, nodeId, skip, j) <==>
      c.wayId == w && c.index < j && nodes[c.index] == nodeId && !(skip && c.index == |nodes| - 1)
  {
    if j > 0 {
      ScanMembers(nodes, w, nodeId, skip, j - 1);
    }
  }

  lemma {:induction false} ScanOrdered(nodes: seq<Id>, w: Id, nodeId: Id, skip: bool, j: nat)
    requires j <= |nodes|
    ensures Ordered(ScanUpTo(nodes, w, nodeId, skip, j))
  {
    if j > 0 {
      var s := ScanUpTo(nodes, w, nodeId, skip, j - 1);
      ScanOrdered(nodes, w, nodeId, skip, j - 1);
      ScanMembers(nodes, w, nodeId, skip, j - 1);
      forall x | x in s ensures Before(x, Connection(w, j - 1)) { }
      OrderedAppend(s, if nodes[j - 1] == nodeId && !(skip && j - 1 == |nodes| - 1) then [Connection(w, j - 1)] else []);
    }
  }

  lemma OrderedAppend(s: seq<Connection>, t: seq<Connection>)
    requires Ordered(s) && Ordered(t)
    requires forall x, y :: x in s && y in t ==> Before(x, y)
    ensures Ordered(s + t)
  {
    forall a, b | 0 <= a < b < |s + t| ensures Before((s + t)[a], (s + t)[b]) {
      if b < |s| {
        assert Before(s[a], s[b]);
      } else if a >= |s| {
        assert Before(t[a - |s|], t[b - |s|]);
      } else {
        assert s[a] in s && t[b - |s|] in t;
      }
    }
  }

  lemma WayCandidatesMembers(g: Graph, w: Id, nodeId: Id, multi: bool, wayIds: Limit, areaKeys: AreaKeys)
    requires w in g.entities && g.entities[w].Way?
    ensures forall c :: c in WayCandidates(g, w, nodeId, multi, wayIds, areaKeys) <==>
      c.wayId == w && Attaches(g.entities[w], w, nodeId, multi, wayIds, areaKeys, c.index)
  {
    var way := g.entities[w];
    ScanMembers(way.nodes, w, nodeId, SkipsClosing(way.nodes, w, multi, wayIds), |way.nodes|);
  }

  lemma WayCandidatesOrdered(g: Graph, w: Id, nodeId: Id, multi: bool, wayIds: Limit, areaKeys: AreaKeys)
    requires w in g.entities && g.entities[w].Way?
    ensures forall c :: c in WayCandidates(g, w, nodeId, multi, wayIds, areaKeys) ==> c.wayId == w
    ensures Ordered(WayCandidates(g, w, nodeId, multi, wayIds, areaKeys))
  {
    var way := g.entities[w];
    var skip := SkipsClosing(way.nodes, w, multi, wayIds);
    ScanMembers(way.nodes, w, nodeId, skip, |way.nodes|);
    ScanOrdered(way.nodes, w, nodeId, skip, |way.nodes|);
  }

  /** The candidates of the first `i` ways come from ways before `parents[i]`. */
  lemma {:induction false} CandidatesBelow(g: Graph, parents: seq<Id>, nodeId: Id, wayIds: Limit, areaKeys: AreaKeys, i: nat)
    requires i < |parents| && AllWays(g, parents) && Increasing(parents)
    ensures forall c :: c in CandidatesUpTo(g, parents, nodeId, wayIds, areaKeys, i) ==> c.wayId < parents[i]
  {
    if i > 0 {
      CandidatesBelow(g, parents, nodeId, wayIds, areaKeys, i - 1);
      WayCandidatesOrdered(g, parents[i - 1], nodeId, |parents| > 1, wayIds, areaKeys);
    }
  }

  lemma {:induction false} CandidatesMembers(g: Graph, parents: seq<Id>, nodeId: Id, wayIds: Limit, areaKeys: AreaKeys, i: nat)
    requires i <= |parents| && AllWays(g, parents)
    ensures forall c :: c in CandidatesUpTo(g, parents, nodeId, wayIds, areaKeys, i) <==>
      c.wayId in parents[..i] &&
      Attaches(g.entities[c.wayId], c.wayId, nodeId, |parents| > 1, wayIds, areaKeys, c.index)
  {
    if i > 0 {
      CandidatesMembers(g, parents, nodeId, wayIds, areaKeys, i - 1);
      WayCandidatesMembers(g, parents[i - 1], nodeId, |parents| > 1, wayIds, areaKeys);
      assert parents[..i] == parents[..i - 1] + [parents[i - 1]];
    }
  }

  lemma {:induction false} CandidatesOrdered(g: Graph, parents: seq<Id>, nodeId: Id, wayIds: Limit, areaKeys: AreaKeys, i: nat)
    requires i <= |parents| && AllWays(g, parents) && Increasing(parents)
    ensures Ordered(CandidatesUpTo(g, parents, nodeId, wayIds, areaKeys, i))
  {
    if i > 0 {
      var s := CandidatesUpTo(g, parents, nodeId, wayIds, areaKeys, i - 1);
      var t := WayCandidates(g, parents[i - 1], nodeId, |parents| > 1, wayIds, areaKeys);
      CandidatesOrdered(g, parents, nodeId, wayIds, areaKeys, i - 1);
      CandidatesBelow(g, parents, nodeId, wayIds, areaKeys, i - 1);
      WayCandidatesOrdered(g, parents[i - 1], nodeId, |parents| > 1, wayIds, areaKeys);
      OrderedAppend(s, t);
    }
  }

  /** The least element of an ordered sequence comes first: what
      `candidates.slice(1)` drops is the least one. */
  lemma DropFirstMembers(s: seq<Connection>)
    requires Ordered(s)
    ensures forall c :: c in DropFirst(s) <==> c in s && exists d :: d in s && Before(d, c)
  {
    forall c ensures c in DropFirst(s) <==> c in s && exists d :: d in s && Before(d, c) {
      if c in DropFirst(s) {
        DropFirstLater(s, c);
        assert s[0] in s;
      }
      if c in s && exists d :: d in s && Before(d, c) {
        var d :| d in s && Before(d, c);
        DropFirstKeeps(s, c, d);
      }
    }
  }

  lemma DropFirstLater(s: seq<Connection>, c: Connection)
    requires Ordered(s) && c in DropFirst(s)
    ensures c in s && s != [] && Before(s[0], c)
  {
    var k :| 1 <= k < |s| && s[k] == c;
    assert Before(s[0], s[k]);
  }

  lemma DropFirstKeeps(s: seq<Connection>, c: Connection, d: Connection)
    requires Ordered(s) && c in s && d in s && Before(d, c)
    ensures c in DropFirst(s)
  {
    var k :| 0 <= k < |s| && s[k] == c;
    var m :| 0 <= m < |s| && s[m] == d;
    assert !Before(c, d);
    assert m < k;
    assert s[1..][k - 1] == c;
  }

  lemma DropFirstOrdered(s: seq<Connection>)
    requires Ordered(s)
    ensures Ordered(DropFirst(s))
  {
    if s != [] {
      forall a, b | 0 <= a < b < |s| - 1 ensures Before(s[1..][a], s[1..][b]) {
        assert Before(s[a + 1], s[b + 1]);
      }
    }
  }

  /** Some parent way of the node is left out by the restriction. */
  ghost predicate SomeExcluded(g: Graph, nodeId: Id, wayIds: Limit)
  {
    exists w :: g.IsParentWay(w, nodeId) && Excluded(wayIds, w)
  }

  lemma KeepingIff(g: Graph, nodeId: Id, parents: seq<Id>, wayIds: Limit)
    requires forall w :: w in parents <==> g.IsParentWay(w, nodeId)
    ensures KeepingUpTo(parents, wayIds, |parents|) <==> SomeExcluded(g, nodeId, wayIds)
  {
    if SomeExcluded(g, nodeId, wayIds) {
      var w :| g.IsParentWay(w, nodeId) && Excluded(wayIds, w);
      var k :| 0 <= k < |parents| && parents[k] == w;
      assert Excluded(wayIds, parents[k]);
    }
    if KeepingUpTo(parents, wayIds, |parents|) {
      var k :| 0 <= k < |parents| && Excluded(wayIds, parents[k]);
      assert parents[k] in parents;
    }
  }

  /** What `action.connections` returns, stated over the attachments of the
      node: ordered by parent way then index; when the restriction leaves
      some parent way out, every attachment to the included ways; otherwise
      every attachment except the least one, which stays on the node. */
  lemma ConnectionsMembers(g: Graph, nodeId: Id, wayIds: Limit, areaKeys: AreaKeys)
    ensures ConnectionsOf(g, nodeId, wayIds, areaKeys).Ok? <==> nodeId in g.entities
    ensures nodeId in g.entities ==>
      var multi := |g.ParentWays(nodeId)| > 1;
      var conns := ConnectionsOf(g, nodeId, wayIds, areaKeys).value;
      && Ordered(conns)
      && (SomeExcluded(g, nodeId, wayIds) ==>
            forall c :: c in conns <==> IsCandidate(g, nodeId, multi, wayIds, areaKeys, c))
      && (!SomeExcluded(g, nodeId, wayIds) ==>
            forall c :: c in conns <==>
              IsCandidate(g, nodeId, multi, wayIds, areaKeys, c) &&
              exists d :: IsCandidate(g, nodeId, multi, wayIds, areaKeys, d) && Before(d, c))
  {
    if nodeId in g.entities {
      var parents := g.ParentWays(nodeId);
      var multi := |parents| > 1;
      ParentsAreWays(g, nodeId);
      var all := CandidatesUpTo(g, parents, nodeId, wayIds, areaKeys, |parents|);
      CandidatesMembers(g, parents, nodeId, wayIds, areaKeys, |parents|);
      CandidatesOrdered(g, parents, nodeId, wayIds, areaKeys, |parents|);
      assert parents[..|parents|] == parents;
      assert forall c :: c in all <==> IsCandidate(g, nodeId, multi, wayIds, areaKeys, c);
      KeepingIff(g, nodeId, parents, wayIds);
      DropFirstMembers(all);
      DropFirstOrdered(all);
    }
  }

  /** `connections` is empty exactly when there are fewer than two
      attachments to choose from (without a left-out way, one of them stays),
      or none at all (with one). */
  lemma NotConnectedIff(g: Graph, nodeId: Id, wayIds: Limit, areaKeys: AreaKeys)
    requires nodeId in g.entities
    ensures var multi := |g.ParentWays(nodeId)| > 1;
      var conns := ConnectionsOf(g, nodeId, wayIds, areaKeys).value;
      && (SomeExcluded(g, nodeId, wayIds) ==>
            (conns == [] <==> forall c :: !IsCandidate(g, nodeId, multi, wayIds, areaKeys, c)))
      && (!SomeExcluded(g, nodeId, wayIds) ==>
            (conns == [] <==> forall c, d ::
               (IsCandidate(g, nodeId, multi, wayIds, areaKeys, c) &&
                IsCandidate(g, nodeId, multi, wayIds, areaKeys, d)) ==> c == d))
  {
    var multi := |g.ParentWays(nodeId)| > 1;
    var conns := ConnectionsOf(g, nodeId, wayIds, areaKeys).value;
    ConnectionsMembers(g, nodeId, wayIds, areaKeys);
    if conns != [] {
      assert conns[0] in conns;
    }
    if SomeExcluded(g, nodeId, wayIds) {
      if exists c :: IsCandidate(g, nodeId, multi, wayIds, areaKeys, c) {
        var c :| IsCandidate(g, nodeId, multi, wayIds, areaKeys, c);
        assert c in conns;
      }
    } else {
      if exists c, d :: IsCandidate(g, nodeId, multi, wayIds, areaKeys, c) &&
                       IsCandidate(g, nodeId, multi, wayIds, areaKeys, d) && c != d {
        var c, d :| IsCandidate(g, nodeId, multi, wayIds, areaKeys, c) &&
                    IsCandidate(g, nodeId, multi, wayIds, areaKeys, d) && c != d;
        var later := if Before(c, d) then d else c;
        assert later in conns;
      }
    }
  }

  /** The scan of one way's node list, the inner `for` loop. */
  method ScanWay(nodes: seq<Id>, w: Id, nodeId: Id, skip: bool) returns (found: seq<Connection>)
    ensures found == ScanUpTo(nodes, w, nodeId, skip, |nodes|)
  {
    found := [];
    var j := 0;
    while j < |nodes|
      invariant j <= |nodes|
      invariant found == ScanUpTo(nodes, w, nodeId, skip, j)
    {
      if nodes[j] == nodeId {
        if skip && j == |nodes| - 1 {
          j := j + 1;
          continue;
        }
        found := found + [Connection(w, j)];
      }
      j := j + 1;
    }
  }

  /** The body of the outer loop for a way the restriction does not leave
      out. */
  method CandidatesOfWay(g: Graph, w: Id, nodeId: Id, multi: bool, wayIds: Limit, areaKeys: AreaKeys)
    returns (found: seq<Connection>)
    requires w in g.entities && g.entities[w].Way? && !Excluded(wayIds, w)
    ensures found == WayCandidates(g, w, nodeId, multi, wayIds, areaKeys)
  {
    var way := g.entities[w];
    if IsArea(way.nodes, way.tags, areaKeys) && |way.nodes| > 0 && way.nodes[0] == nodeId {
      found := [Connection(w, 0)];
    } else {
      found := ScanWay(way.nodes, w, nodeId, IsClosed(way.nodes) && multi && wayIds.Some? && w in wayIds.value);
    }
  }

  /** The outer loop of `action.connections` over the node's parent ways. */
  method ScanParents(g: Graph, parents: seq<Id>, nodeId: Id, wayIds: Limit, areaKeys: AreaKeys)
    returns (candidates: seq<Connection>, keeping: bool)
    requires AllWays(g, parents)
    ensures candidates == CandidatesUpTo(g, parents, nodeId, wayIds, areaKeys, |parents|)
    ensures keeping == KeepingUpTo(parents, wayIds, |parents|)
  {
    candidates := [];
    keeping := false;
    var multi := |parents| > 1;
    var i := 0;
    while i < |parents|
      invariant ScannedUpTo(g, parents, nodeId, wayIds, areaKeys, i, candidates, keeping)
    {
      var w := parents[i];
      var found := [];
      ghost var keeping0 := keeping;
      if wayIds.Some? && w !in wayIds.value {
        keeping := true;
      } else {
        found := CandidatesOfWay(g, w, nodeId, multi, wayIds, areaKeys);
      }
      ScanAdvance(g, parents, nodeId, wayIds, areaKeys, i, candidates, keeping0, keeping, found);
      candidates := candidates + found;
      i := i + 1;
    }
  }

  /** The state of `ScanParents` after the first `i` parent ways. */
  predicate ScannedUpTo(g: Graph, parents: seq<Id>, nodeId: Id, wayIds: Limit, areaKeys: AreaKeys, i: nat,
                        candidates: seq<Connection>, keeping: bool)
    requires AllWays(g, parents)
  {
    && i <= |parents|
    && candidates == CandidatesUpTo(g, parents, nodeId, wayIds, areaKeys, i)
    && keeping == KeepingUpTo(parents, wayIds, i)
  }

  lemma ScanAdvance(g: Graph, parents: seq<Id>, nodeId: Id, wayIds: Limit, areaKeys: AreaKeys, i: nat,
                    candidates: seq<Connection>, keeping0: bool, keeping: bool, found: seq<Connection>)
    requires AllWays(g, parents) && i < |parents|
    requires ScannedUpTo(g, parents, nodeId, wayIds, areaKeys, i, candidates, keeping0)
    requires keeping == (keeping0 || Excluded(wayIds, parents[i]))
    requires found == if Excluded(wayIds, parents[i]) then [] else WayCandidates(g, parents[i], nodeId, |parents| > 1, wayIds, areaKeys)
    ensures ScannedUpTo(g, parents, nodeId, wayIds, areaKeys, i + 1, candidates + found, keeping)
  {
    KeepingStep(parents, wayIds, i);
    CandidatesStep(g, parents, nodeId, wayIds, areaKeys, i);
    assert candidates + [] == candidates;
  }

  /** `action.connections(graph)`: the attachments to migrate to new nodes. */
  method Connections(g: Graph, nodeId: Id, wayIds: Limit, areaKeys: AreaKeys) returns (r: Result<seq<Connection>>)
    ensures r == ConnectionsOf(g, nodeId, wayIds, areaKeys)
  {
    var node :- g.Get(nodeId);
    var parentWays := g.ParentWays(nodeId);
    ParentsAreWays(g, nodeId);
    var candidates, keeping := ScanParents(g, parentWays, nodeId, wayIds, areaKeys);
    return Ok(if keeping then candidates else DropFirst(candidates));
  }

  // ---------------------------------------------------------------- disabled

  datatype Reason = NotConnected | SharedRelation

  /** One visit of the `disabled` scan: relation `rel` seen from parent way
      `way`. */
  datatype Visit = Visit(way: Id, rel: Id)

  /** `seenRelationIds` (relation to the first way it was seen from) and
      whether `sharedRelation` has been set. */
  datatype ScanState = ScanState(seen: map<Id, Id>, shared: bool)

  /** Under the restriction, a pair of ways counts only if one of them is
      in it; without a restriction every pair counts. */
  predicate Involves(wayIds: Limit, x: Id, y: Id)
  {
    wayIds.None? || x in wayIds.value || y in wayIds.value
  }

  /** The body of the inner `forEach`. */
  function Step(st: ScanState, v: Visit, wayIds: Limit): ScanState
  {
    if v.rel in st.seen then ScanState(st.seen, st.shared || Involves(wayIds, st.seen[v.rel], v.way))
    else ScanState(st.seen[v.rel := v.way], st.shared)
  }

  /** The state after the visits `vs`, in order. */
  function Fold(vs: seq<Visit>, wayIds: Limit): ScanState
  {
    if vs == [] then ScanState(map[], false)
    else Step(Fold(vs[..|vs| - 1], wayIds), vs[|vs| - 1], wayIds)
  }

  lemma FoldAppend(vs: seq<Visit>, v: Visit, wayIds: Limit)
    ensures Fold(vs + [v], wayIds) == Step(Fold(vs, wayIds), v, wayIds)
  {
    assert (vs + [v])[..|vs|] == vs;
  }

  function RelsOf(vs: seq<Visit>): set<Id>
  {
    set v | v in vs :: v.rel
  }

  /** The position of the first visit of `rel`. */
  function FirstVisit(vs: seq<Visit>, rel: Id): (f: nat)
    requires rel in RelsOf(vs)
    ensures f < |vs| && vs[f].rel == rel
    ensures forall a :: 0 <= a < f ==> vs[a].rel != rel
  {
    var p := vs[..|vs| - 1];
    if rel in RelsOf(p) then
      var f := FirstVisit(p, rel);
      assert vs[f] == p[f];
      f
    else
      assert forall a :: 0 <= a < |vs| - 1 ==> vs[a] == p[a] && p[a] in p;
      assert vs == p + [vs[|vs| - 1]];
      |vs| - 1
  }

  /** Two visits of one relation, one of them involving the restriction. */
  ghost predicate SharedIn(vs: seq<Visit>, wayIds: Limit)
  {
    exists a, b :: 0 <= a < b < |vs| && vs[a].rel == vs[b].rel && Involves(wayIds, vs[a].way, vs[b].way)
  }

  lemma RelsOfAppend(p: seq<Visit>, v: Visit)
    ensures RelsOf(p + [v]) == RelsOf(p) + {v.rel}
  {
    forall x ensures x in RelsOf(p + [v]) <==> x in RelsOf(p) + {v.rel} {
      if x in RelsOf(p + [v]) {
        var u :| u in p + [v] && u.rel == x;
      }
    }
  }

  /** After any prefix of the visits, every relation seen maps to the way
      of its first visit. */
  lemma {:induction false} FoldSeen(vs: seq<Visit>, wayIds: Limit)
    ensures Fold(vs, wayIds).seen.Keys == RelsOf(vs)
    ensures forall rel :: rel in Fold(vs, wayIds).seen ==> Fold(vs, wayIds).seen[rel] == vs[FirstVisit(vs, rel)].way
  {
    if vs != [] {
      var p := vs[..|vs| - 1];
      assert vs == p + [vs[|vs| - 1]];
      FoldSeen(p, wayIds);
      FoldAppend(p, vs[|vs| - 1], wayIds);
      SeenStep(p, vs[|vs| - 1], Fold(p, wayIds).seen);
    }
  }

  /** What one step does to the map, for a map that already records first visits. */
  lemma SeenStep(p: seq<Visit>, v: Visit, seen: map<Id, Id>)
    requires seen.Keys == RelsOf(p)
    requires forall rel :: rel in seen ==> seen[rel] == p[FirstVisit(p, rel)].way
    ensures var next := if v.rel in seen then seen else seen[v.rel := v.way];
      next.Keys == RelsOf(p + [v]) &&
      forall rel :: rel in next ==> next[rel] == (p + [v])[FirstVisit(p + [v], rel)].way
  {
    var next := if v.rel in seen then seen else seen[v.rel := v.way];
    RelsOfAppend(p, v);
    forall rel | rel in next ensures next[rel] == (p + [v])[FirstVisit(p + [v], rel)].way {
      FirstVisitAppend(p, v, rel);
      if rel in seen {
        assert (p + [v])[FirstVisit(p, rel)] == p[FirstVisit(p, rel)];
      }
    }
  }

  lemma FirstVisitAppend(p: seq<Visit>, v: Visit, rel: Id)
    requires rel in RelsOf(p + [v])
    ensures FirstVisit(p + [v], rel) == if rel in RelsOf(p) then FirstVisit(p, rel) else |p|
  {
    assert (p + [v])[..|p|] == p;
  }

  /** After any prefix of the visits, the flag is set exactly when some
      relation was visited twice with the pair involving the restriction. */
  lemma {:induction false} FoldShared(vs: seq<Visit>, wayIds: Limit)
    ensures Fold(vs, wayIds).shared <==> SharedIn(vs, wayIds)
  {
    if vs != [] {
      var n := |vs|;
      var p := vs[..n - 1];
      var v := vs[n - 1];
      FoldShared(p, wayIds);
      FoldSeen(p, wayIds);
      var st := Fold(p, wayIds);
      if v.rel in st.seen {
        var f := FirstVisit(p, v.rel);
        assert vs[f] == p[f];
        forall a | 0 <= a < f ensures vs[a].rel != vs[f].rel {
          assert vs[a] == p[a];
        }
        SharedStep(vs, wayIds, f);
      } else {
        SharedFresh(vs, wayIds);
      }
    }
  }

  /** A visit of a relation seen before, first at position `f`. */
  lemma SharedStep(vs: seq<Visit>, wayIds: Limit, f: nat)
    requires |vs| > 0 && f < |vs| - 1 && vs[f].rel == vs[|vs| - 1].rel
    requires forall a :: 0 <= a < f ==> vs[a].rel != vs[f].rel
    ensures SharedIn(vs, wayIds) <==>
      SharedIn(vs[..|vs| - 1], wayIds) || Involves(wayIds, vs[f].way, vs[|vs| - 1].way)
  {
    if SharedIn(vs, wayIds) && !Involves(wayIds, vs[f].way, vs[|vs| - 1].way) {
      SharedStepDown(vs, wayIds, f);
    }
    if SharedIn(vs[..|vs| - 1], wayIds) {
      SharedPrefix(vs, wayIds);
    }
    if Involves(wayIds, vs[f].way, vs[|vs| - 1].way) {
      SharedWitness(vs, wayIds, f, |vs| - 1);
    }
  }

  /** Without the pair made with the first visit, the pair the last visit
      makes with a later one already involved the restriction in the prefix. */
  lemma SharedStepDown(vs: seq<Visit>, wayIds: Limit, f: nat)
    requires |vs| > 0 && f < |vs| - 1 && vs[f].rel == vs[|vs| - 1].rel
    requires forall a :: 0 <= a < f ==> vs[a].rel != vs[f].rel
    requires SharedIn(vs, wayIds) && !Involves(wayIds, vs[f].way, vs[|vs| - 1].way)
    ensures SharedIn(vs[..|vs| - 1], wayIds)
  {
    var n := |vs|;
    var p := vs[..n - 1];
    var a, b :| 0 <= a < b < n && vs[a].rel == vs[b].rel && Involves(wayIds, vs[a].way, vs[b].way);
    if b < n - 1 {
      assert p[a] == vs[a] && p[b] == vs[b];
      SharedWitness(p, wayIds, a, b);
    } else {
      assert f < a;
      assert p[f] == vs[f] && p[a] == vs[a];
      SharedWitness(p, wayIds, f, a);
    }
  }

  /** A visit of a relation not seen before. */
  lemma SharedFresh(vs: seq<Visit>, wayIds: Limit)
    requires |vs| > 0 && vs[|vs| - 1].rel !in RelsOf(vs[..|vs| - 1])
    ensures SharedIn(vs, wayIds) <==> SharedIn(vs[..|vs| - 1], wayIds)
  {
    if SharedIn(vs, wayIds) {
      NotInRels(vs[..|vs| - 1], vs[|vs| - 1].rel);
      SharedFreshDown(vs, wayIds);
    }
    if SharedIn(vs[..|vs| - 1], wayIds) {
      SharedPrefix(vs, wayIds);
    }
  }

  lemma NotInRels(p: seq<Visit>, rel: Id)
    requires rel !in RelsOf(p)
    ensures forall k :: 0 <= k < |p| ==> p[k].rel != rel
  {
    forall k | 0 <= k < |p| ensures p[k].rel != rel {
      assert p[k] in p;
    }
  }

  lemma SharedFreshDown(vs: seq<Visit>, wayIds: Limit)
    requires |vs| > 0 && forall k :: 0 <= k < |vs| - 1 ==> vs[k].rel != vs[|vs| - 1].rel
    requires SharedIn(vs, wayIds)
    ensures SharedIn(vs[..|vs| - 1], wayIds)
  {
    var n := |vs|;
    var p := vs[..n - 1];
    var a, b :| 0 <= a < b < n && vs[a].rel == vs[b].rel && Involves(wayIds, vs[a].way, vs[b].way);
    assert b < n - 1;
    assert p[a] == vs[a] && p[b] == vs[b];
    SharedWitness(p, wayIds, a, b);
  }

  /** A pair found in a prefix is still there. */
  lemma SharedPrefix(vs: seq<Visit>, wayIds: Limit)
    requires |vs| > 0 && SharedIn(vs[..|vs| - 1], wayIds)
    ensures SharedIn(vs, wayIds)
  {
    var p := vs[..|vs| - 1];
    var a, b :| 0 <= a < b < |p| && p[a].rel == p[b].rel && Involves(wayIds, p[a].way, p[b].way);
    assert vs[a] == p[a] && vs[b] == p[b];
    SharedWitness(vs, wayIds, a, b);
  }

  /** The visits made from way `w`, one per parent relation, in order. */
  function VisitsOf(w: Id, rels: seq<Id>): (r: seq<Visit>)
    ensures |r| == |rels| && forall k :: 0 <= k < |rels| ==> r[k] == Visit(w, rels[k])
  {
    seq(|rels|, k requires 0 <= k < |rels| => Visit(w, rels[k]))
  }

  /** The visits made from the first `i` parent ways. */
  function VisitsUpTo(g: Graph, parents: seq<Id>, i: nat): seq<Visit>
    requires i <= |parents|
  {
    if i == 0 then []
    else VisitsUpTo(g, parents, i - 1) + VisitsOf(parents[i - 1], g.ParentRelations(parents[i - 1]))
  }

  predicate VisitBefore(x: Visit, y: Visit)
  {
    x.way < y.way || (x.way == y.way && x.rel < y.rel)
  }

  /** Every visit is of a parent relation of one of the parent ways. */
  lemma {:induction false} VisitFrom(g: Graph, parents: seq<Id>, i: nat, v: Visit)
    requires i <= |parents| && v in VisitsUpTo(g, parents, i)
    ensures v.way in parents && g.IsParentRelation(v.rel, v.way)
  {
    var s := VisitsUpTo(g, parents, i - 1);
    if v in s {
      VisitFrom(g, parents, i - 1, v);
    } else {
      var rels := g.ParentRelations(parents[i - 1]);
      var k :| 0 <= k < |rels| && VisitsOf(parents[i - 1], rels)[k] == v;
      assert rels[k] in rels;
    }
  }

  /** Every parent relation of every parent way is visited. */
  lemma {:induction false} VisitIn(g: Graph, parents: seq<Id>, i: nat, k: nat, rel: Id)
    requires k < i <= |parents| && rel in g.ParentRelations(parents[k])
    ensures Visit(parents[k], rel) in VisitsUpTo(g, parents, i)
  {
    VisitLast(g, parents, k, rel);
    VisitMono(g, parents, k + 1, i, Visit(parents[k], rel));
  }

  /** Visits are only ever added. */
  lemma {:induction false} VisitMono(g: Graph, parents: seq<Id>, j: nat, i: nat, v: Visit)
    requires j <= i <= |parents| && v in VisitsUpTo(g, parents, j)
    ensures v in VisitsUpTo(g, parents, i)
    decreases i
  {
    if j < i {
      VisitMono(g, parents, j, i - 1, v);
      VisitKept(g, parents, i, v);
    }
  }

  /** A visit made from the first `i - 1` ways is still there after `i`. */
  lemma VisitKept(g: Graph, parents: seq<Id>, i: nat, v: Visit)
    requires 0 < i <= |parents| && v in VisitsUpTo(g, parents, i - 1)
    ensures v in VisitsUpTo(g, parents, i)
  {
    InLeft(VisitsUpTo(g, parents, i - 1), VisitsOf(parents[i - 1], g.ParentRelations(parents[i - 1])), v);
  }

  /** The visits of way `k` are made at step `k + 1`. */
  lemma VisitLast(g: Graph, parents: seq<Id>, k: nat, rel: Id)
    requires k < |parents| && rel in g.ParentRelations(parents[k])
    ensures Visit(parents[k], rel) in VisitsUpTo(g, parents, k + 1)
  {
    var t := VisitsOf(parents[k], g.ParentRelations(parents[k]));
    VisitOfIn(parents[k], g.ParentRelations(parents[k]), rel);
    assert VisitsUpTo(g, parents, k + 1) == VisitsUpTo(g, parents, k) + t;
    InRight(VisitsUpTo(g, parents, k), t, Visit(parents[k], rel));
  }

  lemma InLeft(s: seq<Visit>, t: seq<Visit>, v: Visit)
    requires v in s
    ensures v in s + t
  {
    var k :| 0 <= k < |s| && s[k] == v;
    assert (s + t)[k] == v;
  }

  lemma InRight(s: seq<Visit>, t: seq<Visit>, v: Visit)
    requires v in t
    ensures v in s + t
  {
    var j :| 0 <= j < |t| && t[j] == v;
    assert (s + t)[|s| + j] == v;
  }

  lemma VisitOfIn(w: Id, rels: seq<Id>, rel: Id)
    requires rel in rels
    ensures Visit(w, rel) in VisitsOf(w, rels)
  {
    var j :| 0 <= j < |rels| && rels[j] == rel;
    assert VisitsOf(w, rels)[j] == Visit(w, rel);
  }

  predicate VisitsSorted(vs: seq<Visit>)
  {
    forall a, b :: 0 <= a < b < |vs| ==> VisitBefore(vs[a], vs[b])
  }

  lemma VisitsSortedAppend(s: seq<Visit>, t: seq<Visit>, w: Id)
    requires VisitsSorted(s) && VisitsSorted(t)
    requires forall x :: x in s ==> x.way < w
    requires forall y :: y in t ==> y.way == w
    ensures VisitsSorted(s + t)
  {
    forall a, b | 0 <= a < b < |s + t| ensures VisitBefore((s + t)[a], (s + t)[b]) {
      if b < |s| {
        assert VisitBefore(s[a], s[b]);
      } else if a >= |s| {
        assert VisitBefore(t[a - |s|], t[b - |s|]);
      } else {
        assert s[a] in s && t[b - |s|] in t;
      }
    }
  }

  /** Every visit among the first `i` parent ways is from a way below any
      bound of those ways. */
  lemma {:induction false} VisitsBelow(g: Graph, parents: seq<Id>, i: nat, bound: Id)
    requires i <= |parents|
    requires forall k :: 0 <= k < i ==> parents[k] < bound
    ensures forall v :: v in VisitsUpTo(g, parents, i) ==> v.way < bound
  {
    if i > 0 {
      VisitsBelow(g, parents, i - 1, bound);
      VisitsOfWay(parents[i - 1], g.ParentRelations(parents[i - 1]));
    }
  }

  lemma {:induction false} VisitsOrdered(g: Graph, parents: seq<Id>, i: nat)
    requires i <= |parents| && Increasing(parents)
    ensures VisitsSorted(VisitsUpTo(g, parents, i))
  {
    if i > 0 {
      VisitsOrdered(g, parents, i - 1);
      VisitsOrderedStep(g, parents, i);
    }
  }

  /** The visits of the next parent way come after all earlier ones. */
  lemma VisitsOrderedStep(g: Graph, parents: seq<Id>, i: nat)
    requires 0 < i <= |parents| && Increasing(parents)
    requires VisitsSorted(VisitsUpTo(g, parents, i - 1))
    ensures VisitsSorted(VisitsUpTo(g, parents, i))
  {
    var w := parents[i - 1];
    VisitsOfSorted(w, g.ParentRelations(w));
    VisitsBelowNext(g, parents, i - 1);
    VisitsSortedAppend(VisitsUpTo(g, parents, i - 1), VisitsOf(w, g.ParentRelations(w)), w);
  }

  lemma VisitsBelowNext(g: Graph, parents: seq<Id>, i: nat)
    requires i < |parents| && Increasing(parents)
    ensures forall v :: v in VisitsUpTo(g, parents, i) ==> v.way < parents[i]
  {
    VisitsBelow(g, parents, i, parents[i]);
  }

  lemma VisitsOfSorted(w: Id, rels: seq<Id>)
    requires Increasing(rels)
    ensures VisitsSorted(VisitsOf(w, rels))
    ensures forall y :: y in VisitsOf(w, rels) ==> y.way == w
  {
    VisitsOfWay(w, rels);
  }

  lemma VisitsOfWay(w: Id, rels: seq<Id>)
    ensures forall y :: y in VisitsOf(w, rels) ==> y.way == w
  {
  }

  /** Two distinct parent ways of the node are members of one relation, and
      the restriction, if any, includes one of them. */
  ghost predicate SharesRelation(g: Graph, nodeId: Id, wayIds: Limit)
  {
    exists w1, w2, rel ::
      && g.IsParentWay(w1, nodeId) && g.IsParentWay(w2, nodeId) && w1 != w2
      && g.IsParentRelation(rel, w1) && g.IsParentRelation(rel, w2)
      && Involves(wayIds, w1, w2)
  }

  lemma SharedGivesShares(g: Graph, nodeId: Id, parents: seq<Id>, wayIds: Limit)
    requires Increasing(parents) && forall w :: w in parents <==> g.IsParentWay(w, nodeId)
    requires SharedIn(VisitsUpTo(g, parents, |parents|), wayIds)
    ensures SharesRelation(g, nodeId, wayIds)
  {
    var vs := VisitsUpTo(g, parents, |parents|);
    var a, b :| 0 <= a < b < |vs| && vs[a].rel == vs[b].rel && Involves(wayIds, vs[a].way, vs[b].way);
    assert VisitBefore(vs[a], vs[b]) by {
      VisitsOrdered(g, parents, |parents|);
    }
    VisitFrom(g, parents, |parents|, vs[a]);
    VisitFrom(g, parents, |parents|, vs[b]);
  }

  lemma SharesGivesShared(g: Graph, nodeId: Id, parents: seq<Id>, wayIds: Limit)
    requires forall w :: w in parents <==> g.IsParentWay(w, nodeId)
    requires SharesRelation(g, nodeId, wayIds)
    ensures SharedIn(VisitsUpTo(g, parents, |parents|), wayIds)
  {
    var vs := VisitsUpTo(g, parents, |parents|);
    var w1, w2, rel :|
      && g.IsParentWay(w1, nodeId) && g.IsParentWay(w2, nodeId) && w1 != w2
      && g.IsParentRelation(rel, w1) && g.IsParentRelation(rel, w2)
      && Involves(wayIds, w1, w2);
    var a := VisitIndex(g, nodeId, parents, w1, rel);
    var b := VisitIndex(g, nodeId, parents, w2, rel);
    if a < b {
      SharedWitness(vs, wayIds, a, b);
    } else {
      assert b < a;
      SharedWitness(vs, wayIds, b, a);
    }
  }

  /** Where the scan visits relation `rel` from parent way `w`. */
  lemma VisitIndex(g: Graph, nodeId: Id, parents: seq<Id>, w: Id, rel: Id) returns (k: nat)
    requires forall w :: w in parents <==> g.IsParentWay(w, nodeId)
    requires g.IsParentWay(w, nodeId) && g.IsParentRelation(rel, w)
    ensures k < |VisitsUpTo(g, parents, |parents|)| && VisitsUpTo(g, parents, |parents|)[k] == Visit(w, rel)
  {
    var vs := VisitsUpTo(g, parents, |parents|);
    var m :| 0 <= m < |parents| && parents[m] == w;
    assert rel in g.ParentRelations(w);
    VisitIn(g, parents, |parents|, m, rel);
    k :| 0 <= k < |vs| && vs[k] == Visit(w, rel);
  }

  lemma SharedWitness(vs: seq<Visit>, wayIds: Limit, a: nat, b: nat)
    requires a < b < |vs| && vs[a].rel == vs[b].rel
    requires Involves(wayIds, vs[a].way, vs[b].way) || Involves(wayIds, vs[b].way, vs[a].way)
    ensures SharedIn(vs, wayIds)
  {
  }

  lemma VisitsOfStep(before: seq<Visit>, w: Id, rels: seq<Id>, j: nat)
    requires j < |rels|
    ensures before + VisitsOf(w, rels[..j + 1]) == (before + VisitsOf(w, rels[..j])) + [Visit(w, rels[j])]
  {
    assert VisitsOf(w, rels[..j + 1]) == VisitsOf(w, rels[..j]) + [Visit(w, rels[j])];
  }

  /** The inner `forEach`, over the parent relations of one parent way. */
  method ScanWayRelations(w: Id, rels: seq<Id>, wayIds: Limit, seen0: map<Id, Id>, shared0: bool, ghost before: seq<Visit>)
    returns (seen: map<Id, Id>, shared: bool)
    requires ScanState(seen0, shared0) == Fold(before, wayIds)
    ensures ScanState(seen, shared) == Fold(before + VisitsOf(w, rels), wayIds)
  {
    seen, shared := seen0, shared0;
    var j := 0;
    assert before + VisitsOf(w, rels[..0]) == before;
    while j < |rels|
      invariant j <= |rels|
      invariant ScanState(seen, shared) == Fold(before + VisitsOf(w, rels[..j]), wayIds)
    {
      var rel := rels[j];
      VisitsOfStep(before, w, rels, j);
      FoldAppend(before + VisitsOf(w, rels[..j]), Visit(w, rel), wayIds);
      if rel in seen {
        if wayIds.Some? {
          if w in wayIds.value || seen[rel] in wayIds.value {
            shared := true;
          }
        } else {
          shared := true;
        }
      } else {
        seen := seen[rel := w];
      }
      j := j + 1;
    }
    assert rels[..|rels|] == rels;
  }

  /** The outer `forEach`, over the parent ways of the node. */
  method ScanRelations(g: Graph, parents: seq<Id>, wayIds: Limit) returns (shared: bool)
    ensures shared == Fold(VisitsUpTo(g, parents, |parents|), wayIds).shared
  {
    var seen: map<Id, Id> := map[];
    shared := false;
    var i := 0;
    while i < |parents|
      invariant i <= |parents|
      invariant ScanState(seen, shared) == Fold(VisitsUpTo(g, parents, i), wayIds)
    {
      var way := parents[i];
      var relations := g.ParentRelations(way);
      seen, shared := ScanWayRelations(way, relations, wayIds, seen, shared, VisitsUpTo(g, parents, i));
      i := i + 1;
    }
  }

  /** `action.disabled(graph)`: `NotConnected` when there is nothing to
      migrate, `SharedRelation` when two parent ways share a parent relation
      (under the restriction, one of them in it), otherwise nothing. */
  method Disabled(g: Graph, nodeId: Id, wayIds: Limit, areaKeys: AreaKeys) returns (r: Result<Option<Reason>>)
    ensures r.Ok? <==> nodeId in g.entities
    ensures r.Err? ==> r.error == NotFound(nodeId)
    ensures r.Ok? ==>
      (r.value == Some(NotConnected) <==> ConnectionsOf(g, nodeId, wayIds, areaKeys).value == [])
    ensures r.Ok? ==>
      (r.value == Some(SharedRelation) <==>
        ConnectionsOf(g, nodeId, wayIds, areaKeys).value != [] && SharesRelation(g, nodeId, wayIds))
  {
    var connections :- Connections(g, nodeId, wayIds, areaKeys);
    if |connections| == 0 {
      return Ok(Some(NotConnected));
    }
    var parentWays := g.ParentWays(nodeId);
    var shared := ScanRelations(g, parentWays, wayIds);
    FoldShared(VisitsUpTo(g, parentWays, |parentWays|), wayIds);
    if shared {
      SharedGivesShares(g, nodeId, parentWays, wayIds);
      return Ok(Some(SharedRelation));
    }
    if SharesRelation(g, nodeId, wayIds) {
      SharesGivesShared(g, nodeId, parentWays, wayIds);
    }
    return Ok(None);
  }

  // ---------------------------------------------------------------- the action

  /** One branch of the action's `forEach`: the way's node list after
      attachment `index` is moved to `newId`. An area attached at index 0 has
      every reference to its first node replaced (its closing one too); a
      closed way attached at its closing index is unclosed and given `newId`
      as its new end; any other attachment is substituted in place, which at
      the start of a closed way moves its closing reference too. */
  function Rewire(way: Entity, index: nat, newId: Id, areaKeys: AreaKeys): (r: Result<Entity>)
    ensures !way.Way? ==> r == Err(TypeError)
    ensures way.Way? && index < |way.nodes| ==> r.Ok?
    ensures r.Ok? ==> r.value.Way? && r.value.tags == way.tags && |r.value.nodes| == |way.nodes|
  {
    if !way.Way? then Err(TypeError)
    else if index == 0 && IsArea(way.nodes, way.tags, areaKeys) then
      // `replaceNode(nodes[0], ...)`: with no nodes there is nothing to replace
      Ok(Way(if way.nodes == [] then [] else ReplaceNode(way.nodes, way.nodes[0], newId), way.tags))
    else if IsClosed(way.nodes) && index == |way.nodes| - 1 then
      var open := Unclose(way.nodes);
      var added := AddNode(open, newId, None);
      Ok(Way(added.value, way.tags))
    else if index < |way.nodes| then Ok(Way(UpdateNode(way.nodes, newId, index), way.tags))
    else Err(RangeError)
  }

  /** The node list each branch of `Rewire` produces. */
  lemma RewireShape(way: Entity, index: nat, newId: Id, areaKeys: AreaKeys)
    requires way.Way?
    ensures index == 0 && IsArea(way.nodes, way.tags, areaKeys) ==>
      Rewire(way, index, newId, areaKeys).Ok? && forall k :: 0 <= k < |way.nodes| ==>
        Rewire(way, index, newId, areaKeys).value.nodes[k] == if way.nodes[k] == way.nodes[0] then newId else way.nodes[k]
    ensures !(index == 0 && IsArea(way.nodes, way.tags, areaKeys)) &&
            IsClosed(way.nodes) && index == |way.nodes| - 1 ==>
      var open := way.nodes[..|way.nodes| - 1];
      Rewire(way, index, newId, areaKeys).Ok? && Rewire(way, index, newId, areaKeys).value.nodes ==
        if IsClosed(open) then open[..|open| - 1] + [newId, open[|open| - 1]] else open + [newId]
    ensures !(index == 0 && IsArea(way.nodes, way.tags, areaKeys)) &&
            !(IsClosed(way.nodes) && index == |way.nodes| - 1) ==>
      if index < |way.nodes| then
        Rewire(way, index, newId, areaKeys).Ok? &&
        forall k :: 0 <= k < |way.nodes| ==>
          Rewire(way, index, newId, areaKeys).value.nodes[k] ==
            if k == index || (index == 0 && IsClosed(way.nodes) && k == |way.nodes| - 1) then newId else way.nodes[k]
      else Rewire(way, index, newId, areaKeys) == Err(RangeError)
  {
    if !(index == 0 && IsArea(way.nodes, way.tags, areaKeys)) && IsClosed(way.nodes) && index == |way.nodes| - 1 {
      var open := way.nodes[..|way.nodes| - 1];
      assert IsClosed(open) ==> Insert(open, |open| - 1, newId) == open[..|open| - 1] + [newId, open[|open| - 1]];
    }
  }

  /** The identifiers in use in `h`: those of its entities and every node
      identifier one of its ways refers to. */
  function InUse(h: Graph): (r: set<Id>)
    ensures h.entities.Keys <= r
    ensures forall w, k :: w in h.entities && h.entities[w].Way? && 0 <= k < |h.entities[w].nodes| ==>
      h.entities[w].nodes[k] in r
  {
    h.entities.Keys + set w, k | w in h.entities && h.entities[w].Way? && 0 <= k < |h.entities[w].nodes| :: h.entities[w].nodes[k]
  }

  /** `newNodeId` when given (every new node gets it), otherwise an
      identifier not yet in use. */
  function MintedId(h: Graph, newNodeId: Option<Id>): Id
  {
    if newNodeId.Some? then newNodeId.value else FreshId(InUse(h))
  }

  /** One iteration of the action's `forEach`: read the way, write the new
      node (a copy of `node`), then write the rewired way. */
  function Migrate(h: Graph, node: Entity, c: Connection, newNodeId: Option<Id>, areaKeys: AreaKeys)
    : Result<Graph>
    requires node.Node?
  {
    var way :- h.Get(c.wayId);
    var id := MintedId(h, newNodeId);
    var rewired :- Rewire(way, c.index, id, areaKeys);
    Ok(h.Replace(id, Node(node.loc, node.tags)).Replace(c.wayId, rewired))
  }

  /** The graph after migrating the connections `conns` in order. */
  function Migrated(g: Graph, node: Entity, conns: seq<Connection>, newNodeId: Option<Id>, areaKeys: AreaKeys)
    : Result<Graph>
    requires node.Node?
  {
    if conns == [] then Ok(g)
    else
      var h :- Migrated(g, node, conns[..|conns| - 1], newNodeId, areaKeys);
      Migrate(h, node, conns[|conns| - 1], newNodeId, areaKeys)
  }

  /** `actionDisconnect(nodeId, newNodeId)` with `limitWays(wayIds)`, as a
      value. */
  function DisconnectOf(g: Graph, nodeId: Id, newNodeId: Option<Id>, wayIds: Limit, areaKeys: AreaKeys)
    : Result<Graph>
  {
    var node :- g.Get(nodeId);
    if !node.Node? then Err(TypeError)
    else
      var conns :- ConnectionsOf(g, nodeId, wayIds, areaKeys);
      Migrated(g, node, conns, newNodeId, areaKeys)
  }

  lemma MigratedPrefix(g: Graph, node: Entity, conns: seq<Connection>, i: nat, newNodeId: Option<Id>, areaKeys: AreaKeys)
    requires node.Node? && i < |conns|
    ensures Migrated(g, node, conns[..i + 1], newNodeId, areaKeys) ==
      match Migrated(g, node, conns[..i], newNodeId, areaKeys)
      case Ok(h) => Migrate(h, node, conns[i], newNodeId, areaKeys)
      case Err(e) => Err(e)
  {
    assert conns[..i + 1][..i] == conns[..i];
  }

  lemma MigratedNext(g: Graph, node: Entity, conns: seq<Connection>, k: nat, h: Graph, newNodeId: Option<Id>, areaKeys: AreaKeys)
    requires node.Node? && k < |conns| && Migrated(g, node, conns[..k], newNodeId, areaKeys) == Ok(h)
    ensures Migrated(g, node, conns[..k + 1], newNodeId, areaKeys) == Migrate(h, node, conns[k], newNodeId, areaKeys)
  {
    MigratedPrefix(g, node, conns, k, newNodeId, areaKeys);
  }

  /** Once a step fails the whole action fails with that error. */
  lemma {:induction false} MigratedFails(g: Graph, node: Entity, conns: seq<Connection>, i: nat, newNodeId: Option<Id>, areaKeys: AreaKeys)
    requires node.Node? && i <= |conns| && Migrated(g, node, conns[..i], newNodeId, areaKeys).Err?
    ensures Migrated(g, node, conns, newNodeId, areaKeys) == Migrated(g, node, conns[..i], newNodeId, areaKeys)
    decreases |conns| - i
  {
    if i < |conns| {
      MigratedPrefix(g, node, conns, i, newNodeId, areaKeys);
      MigratedFails(g, node, conns, i + 1, newNodeId, areaKeys);
    } else {
      assert conns[..i] == conns;
    }
  }

  // ---------------------------------------------------------------- what the action changes

  function WaysOf(conns: seq<Connection>): set<Id>
  {
    set c | c in conns :: c.wayId
  }

  /** The entities the migration may overwrite: the connected ways, and a
      given `newNodeId`. */
  function Touched(conns: seq<Connection>, newNodeId: Option<Id>): set<Id>
  {
    WaysOf(conns) + if newNodeId.Some? then {newNodeId.value} else {}
  }

  /** `h` differs from `g` only as a migration can make it differ: nothing is
      removed, every new entity is a copy of `node`, every entity outside
      `touched` is kept, every entity is kept, a copy of `node` or a way,
      and no way is created or changes its length or tags. */
  ghost predicate MigrationOf(g: Graph, h: Graph, node: Entity, touched: set<Id>)
    requires node.Node?
  {
    && g.entities.Keys <= h.entities.Keys
    && (forall id :: id in h.entities && id !in g.entities ==> h.entities[id] == Node(node.loc, node.tags))
    && (forall id :: id in h.entities ==>
          || (id in g.entities && h.entities[id] == g.entities[id])
          || h.entities[id] == Node(node.loc, node.tags)
          || h.entities[id].Way?)
    && (forall id :: id in g.entities && id !in touched ==> h.entities[id] == g.entities[id])
    && (forall id :: id in h.entities && h.entities[id].Way? ==>
          && id in g.entities && g.entities[id].Way?
          && |h.entities[id].nodes| == |g.entities[id].nodes|
          && h.entities[id].tags == g.entities[id].tags)
  }

  lemma MigrateFrame(h: Graph, node: Entity, c: Connection, newNodeId: Option<Id>, areaKeys: AreaKeys)
    requires node.Node? && Migrate(h, node, c, newNodeId, areaKeys).Ok?
    ensures MigrationOf(h, Migrate(h, node, c, newNodeId, areaKeys).value, node,
      {c.wayId} + if newNodeId.Some? then {newNodeId.value} else {})
  {
    var way := h.entities[c.wayId];
    var id := MintedId(h, newNodeId);
    var rewired := Rewire(way, c.index, id, areaKeys).value;
    var h1 := h.Replace(id, Node(node.loc, node.tags));
    var k := h1.Replace(c.wayId, rewired);
    assert Migrate(h, node, c, newNodeId, areaKeys).value == k;
    assert newNodeId.None? ==> id !in h.entities;
    if id == c.wayId {
      // the new node overwrote the way, which is then written back
      assert k.entities == h.Replace(c.wayId, rewired).entities;
      ReplaceWay(h, node, c.wayId, rewired);
    } else {
      ReplaceCopy(h, node, id);
      ReplaceWay(h1, node, c.wayId, rewired);
      MigrationTrans(h, h1, k, node, {id}, {c.wayId});
    }
    MigrationSubset(h, k, node, {id} + {c.wayId}, {c.wayId} + if newNodeId.Some? then {newNodeId.value} else {});
  }

  /** One more migration step after a migration that touched `before`. */
  lemma MigrateFrameAfter(g: Graph, h: Graph, node: Entity, c: Connection, newNodeId: Option<Id>,
                          areaKeys: AreaKeys, before: set<Id>, after: set<Id>)
    requires node.Node? && MigrationOf(g, h, node, before) && Migrate(h, node, c, newNodeId, areaKeys).Ok?
    requires after == before + {c.wayId} + if newNodeId.Some? then {newNodeId.value} else {}
    ensures MigrationOf(g, Migrate(h, node, c, newNodeId, areaKeys).value, node, after)
  {
    var step := {c.wayId} + if newNodeId.Some? then {newNodeId.value} else {};
    MigrateFrame(h, node, c, newNodeId, areaKeys);
    UnionAssoc(before, {c.wayId}, if newNodeId.Some? then {newNodeId.value} else {});
    MigrationTrans(g, h, Migrate(h, node, c, newNodeId, areaKeys).value, node, before, step);
  }

  lemma UnionAssoc(a: set<Id>, b: set<Id>, c: set<Id>)
    ensures a + b + c == a + (b + c)
  {
  }

  lemma ReplaceCopy(h: Graph, node: Entity, id: Id)
    requires node.Node?
    ensures MigrationOf(h, h.Replace(id, Node(node.loc, node.tags)), node, {id})
  {
  }

  lemma ReplaceWay(h: Graph, node: Entity, w: Id, e: Entity)
    requires node.Node? && w in h.entities && h.entities[w].Way? && e.Way?
    requires |e.nodes| == |h.entities[w].nodes| && e.tags == h.entities[w].tags
    ensures MigrationOf(h, h.Replace(w, e), node, {w})
  {
  }

  lemma MigrationSubset(g: Graph, h: Graph, node: Entity, t: set<Id>, t': set<Id>)
    requires node.Node? && MigrationOf(g, h, node, t)
    requires forall x :: x in t && x in g.entities ==> x in t'
    ensures MigrationOf(g, h, node, t')
  {
  }

  lemma MigrationTrans(g: Graph, h: Graph, k: Graph, node: Entity, t1: set<Id>, t2: set<Id>)
    requires node.Node? && MigrationOf(g, h, node, t1) && MigrationOf(h, k, node, t2)
    ensures MigrationOf(g, k, node, t1 + t2)
  {
  }

  lemma WaysOfPrefix(conns: seq<Connection>, i: nat)
    requires i < |conns|
    ensures WaysOf(conns[..i + 1]) == WaysOf(conns[..i]) + {conns[i].wayId}
  {
    var s := conns[..i + 1];
    assert s == conns[..i] + [conns[i]];
    forall x ensures x in WaysOf(s) <==> x in WaysOf(conns[..i]) + {conns[i].wayId} {
      if x in WaysOf(s) {
        var c :| c in s && c.wayId == x;
      }
      if x in WaysOf(conns[..i]) {
        var c :| c in conns[..i] && c.wayId == x;
        assert c in s;
      }
    }
  }

  /** Whatever the connections, a successful migration only changes what
      `MigrationOf` allows. */
  lemma {:induction false} MigratedFrame(g: Graph, node: Entity, conns: seq<Connection>, i: nat,
                                         newNodeId: Option<Id>, areaKeys: AreaKeys)
    requires node.Node? && i <= |conns| && Migrated(g, node, conns[..i], newNodeId, areaKeys).Ok?
    ensures MigrationOf(g, Migrated(g, node, conns[..i], newNodeId, areaKeys).value, node, Touched(conns[..i], newNodeId))
  {
    if i == 0 {
      assert conns[..0] == [];
    } else {
      var k := i - 1;
      MigratedPrefix(g, node, conns, k, newNodeId, areaKeys);
      var h := Migrated(g, node, conns[..k], newNodeId, areaKeys).value;
      MigratedFrame(g, node, conns, k, newNodeId, areaKeys);
      MigratedNext(g, node, conns, k, h, newNodeId, areaKeys);
      WaysOfPrefix(conns, k);
      MigrateFrameAfter(g, h, node, conns[k], newNodeId, areaKeys, Touched(conns[..k], newNodeId),
        Touched(conns[..k + 1], newNodeId));
    }
  }

  /** Every connection names a way of `h` and a position inside it. */
  ghost predicate Attachable(h: Graph, conns: seq<Connection>)
  {
    forall k :: 0 <= k < |conns| ==>
      conns[k].wayId in h.entities && h.entities[conns[k].wayId].Way? &&
      conns[k].index < |h.entities[conns[k].wayId].nodes|
  }

  /** A given `newNodeId` does not name a way. */
  predicate NotAWay(h: Graph, newNodeId: Option<Id>)
  {
    newNodeId.None? || !(newNodeId.value in h.entities && h.entities[newNodeId.value].Way?)
  }

  lemma MigrateKeeps(h: Graph, node: Entity, conns: seq<Connection>, i: nat, newNodeId: Option<Id>, areaKeys: AreaKeys)
    requires node.Node? && i < |conns| && Attachable(h, conns) && NotAWay(h, newNodeId)
    ensures Migrate(h, node, conns[i], newNodeId, areaKeys).Ok?
    ensures Attachable(Migrate(h, node, conns[i], newNodeId, areaKeys).value, conns)
    ensures NotAWay(Migrate(h, node, conns[i], newNodeId, areaKeys).value, newNodeId)
  {
    var c := conns[i];
    var way := h.entities[c.wayId];
    var id := MintedId(h, newNodeId);
    assert newNodeId.None? ==> id !in h.entities;
    var rewired := Rewire(way, c.index, id, areaKeys).value;
    var k := h.Replace(id, Node(node.loc, node.tags)).Replace(c.wayId, rewired);
    assert Migrate(h, node, c, newNodeId, areaKeys) == Ok(k);
    forall j | 0 <= j < |conns|
      ensures conns[j].wayId in k.entities && k.entities[conns[j].wayId].Way?
      ensures conns[j].index < |k.entities[conns[j].wayId].nodes|
    {
      assert conns[j].wayId != id;
    }
  }

  lemma {:induction false} MigratedOk(g: Graph, node: Entity, conns: seq<Connection>, i: nat,
                                      newNodeId: Option<Id>, areaKeys: AreaKeys)
    requires node.Node? && i <= |conns| && Attachable(g, conns) && NotAWay(g, newNodeId)
    ensures Migrated(g, node, conns[..i], newNodeId, areaKeys).Ok?
    ensures Attachable(Migrated(g, node, conns[..i], newNodeId, areaKeys).value, conns)
    ensures NotAWay(Migrated(g, node, conns[..i], newNodeId, areaKeys).value, newNodeId)
  {
    if i == 0 {
      assert conns[..0] == [];
    } else {
      var k := i - 1;
      MigratedOk(g, node, conns, k, newNodeId, areaKeys);
      var h := Migrated(g, node, conns[..k], newNodeId, areaKeys).value;
      MigratedNext(g, node, conns, k, h, newNodeId, areaKeys);
      MigrateKeeps(h, node, conns, k, newNodeId, areaKeys);
    }
  }

  lemma ConnectionsAttachable(g: Graph, nodeId: Id, wayIds: Limit, areaKeys: AreaKeys)
    requires nodeId in g.entities
    ensures Attachable(g, ConnectionsOf(g, nodeId, wayIds, areaKeys).value)
  {
    var conns := ConnectionsOf(g, nodeId, wayIds, areaKeys).value;
    ConnectionsMembers(g, nodeId, wayIds, areaKeys);
    forall k | 0 <= k < |conns|
      ensures conns[k].wayId in g.entities && g.entities[conns[k].wayId].Way?
      ensures conns[k].index < |g.entities[conns[k].wayId].nodes|
    {
      assert conns[k] in conns;
    }
  }

  lemma DisconnectOfIs(g: Graph, nodeId: Id, newNodeId: Option<Id>, wayIds: Limit, areaKeys: AreaKeys)
    requires nodeId in g.entities && g.entities[nodeId].Node?
    ensures ConnectionsOf(g, nodeId, wayIds, areaKeys).Ok?
    ensures DisconnectOf(g, nodeId, newNodeId, wayIds, areaKeys) ==
      Migrated(g, g.entities[nodeId], ConnectionsOf(g, nodeId, wayIds, areaKeys).value, newNodeId, areaKeys)
  {
  }

  /** The action succeeds on any node whose `newNodeId`, if given, is not a
      way. */
  lemma DisconnectOk(g: Graph, nodeId: Id, newNodeId: Option<Id>, wayIds: Limit, areaKeys: AreaKeys)
    requires nodeId in g.entities && g.entities[nodeId].Node? && NotAWay(g, newNodeId)
    ensures DisconnectOf(g, nodeId, newNodeId, wayIds, areaKeys).Ok?
  {
    var node := g.entities[nodeId];
    var conns := ConnectionsOf(g, nodeId, wayIds, areaKeys).value;
    DisconnectOfIs(g, nodeId, newNodeId, wayIds, areaKeys);
    ConnectionsAttachable(g, nodeId, wayIds, areaKeys);
    MigratedAllOk(g, node, conns, newNodeId, areaKeys);
  }

  lemma MigratedAllOk(g: Graph, node: Entity, conns: seq<Connection>, newNodeId: Option<Id>, areaKeys: AreaKeys)
    requires node.Node? && Attachable(g, conns) && NotAWay(g, newNodeId)
    ensures Migrated(g, node, conns, newNodeId, areaKeys).Ok?
  {
    MigratedOk(g, node, conns, |conns|, newNodeId, areaKeys);
    assert conns[..|conns|] == conns;
  }

  /** A successful action changes the graph only as `MigrationOf` allows,
      overwriting nothing but the connected ways and a given `newNodeId`;
      the node itself is kept unless `newNodeId` names it; with minted
      identifiers it detaches the node as `Detaches` says. */
  lemma DisconnectFrame(g: Graph, nodeId: Id, newNodeId: Option<Id>, wayIds: Limit, areaKeys: AreaKeys)
    requires DisconnectOf(g, nodeId, newNodeId, wayIds, areaKeys).Ok?
    ensures nodeId in g.entities && g.entities[nodeId].Node?
    ensures var h := DisconnectOf(g, nodeId, newNodeId, wayIds, areaKeys).value;
      var conns := ConnectionsOf(g, nodeId, wayIds, areaKeys).value;
      && MigrationOf(g, h, g.entities[nodeId], Touched(conns, newNodeId))
      && (newNodeId != Some(nodeId) ==> h.entities[nodeId] == g.entities[nodeId])
      && (newNodeId.None? ==> Detaches(g, nodeId, wayIds, areaKeys, h))
  {
    var node := g.entities[nodeId];
    var conns := ConnectionsOf(g, nodeId, wayIds, areaKeys).value;
    DisconnectOfIs(g, nodeId, newNodeId, wayIds, areaKeys);
    assert conns[..|conns|] == conns;
    MigratedFrame(g, node, conns, |conns|, newNodeId, areaKeys);
    ConnectionsAttachable(g, nodeId, wayIds, areaKeys);
    NodeNotConnected(g, conns, nodeId);
    if newNodeId.None? {
      DisconnectDetaches(g, nodeId, wayIds, areaKeys);
    }
  }

  lemma NodeNotConnected(g: Graph, conns: seq<Connection>, nodeId: Id)
    requires Attachable(g, conns) && nodeId in g.entities && g.entities[nodeId].Node?
    ensures nodeId !in WaysOf(conns)
  {
    forall c | c in conns ensures c.wayId != nodeId {
      var k :| 0 <= k < |conns| && conns[k] == c;
    }
  }

  // ---------------------------------------------------------------- what the action does to the attachments

  predicate IsWay(g: Graph, w: Id)
  {
    w in g.entities && g.entities[w].Way?
  }

  function Nodes(g: Graph, w: Id): seq<Id>
    requires IsWay(g, w)
  {
    g.entities[w].nodes
  }

  /** `x` is a new node: an identifier not in use in `g` that holds a copy
      of the disconnected node. */
  predicate IsCopy(g: Graph, h: Graph, node: Entity, x: Id)
    requires node.Node?
  {
    x !in InUse(g) && x in h.entities && h.entities[x] == Node(node.loc, node.tags)
  }

  /** Position `q` of the way of `c` is one that migrating `c` rewrites: its
      own; at the start of an area, every reference to the first node; at the
      start of a closed way, the closing reference as well. */
  predicate Rewrites(g: Graph, areaKeys: AreaKeys, c: Connection, q: nat)
    requires IsWay(g, c.wayId) && q < |Nodes(g, c.wayId)|
  {
    || q == c.index
    || (c.index == 0 && IsArea(Nodes(g, c.wayId), g.entities[c.wayId].tags, areaKeys) &&
        Nodes(g, c.wayId)[q] == Nodes(g, c.wayId)[0])
    || (c.index == 0 && IsClosed(Nodes(g, c.wayId)) && q == |Nodes(g, c.wayId)| - 1)
  }

  /** Position `q` of way `w` was given a new node by one of the connections
      `done`: one that `Rewrites` it. */
  predicate Moved(g: Graph, areaKeys: AreaKeys, done: seq<Connection>, w: Id, q: nat)
    requires IsWay(g, w) && q < |Nodes(g, w)|
  {
    || Connection(w, q) in done
    || (Connection(w, 0) in done && IsArea(Nodes(g, w), g.entities[w].tags, areaKeys) && Nodes(g, w)[q] == Nodes(g, w)[0])
    || (Connection(w, 0) in done && IsClosed(Nodes(g, w)) && q == |Nodes(g, w)| - 1)
  }

  /** Every way of `g` is still a way of `h`, with its length and tags. */
  ghost predicate WaysKept(g: Graph, h: Graph)
  {
    forall w :: IsWay(g, w) ==>
      IsWay(h, w) && |Nodes(h, w)| == |Nodes(g, w)| && h.entities[w].tags == g.entities[w].tags
  }

  /** Every connection names a position of a way of `g`. */
  ghost predicate ValidConns(g: Graph, conns: seq<Connection>)
  {
    forall c :: c in conns ==> IsWay(g, c.wayId) && c.index < |Nodes(g, c.wayId)|
  }

  /** A moved position holds a new node; any other position is as in `g`. */
  ghost predicate PositionsMoved(g: Graph, h: Graph, node: Entity, areaKeys: AreaKeys, done: seq<Connection>)
    requires node.Node? && WaysKept(g, h)
  {
    forall w, q :: IsWay(g, w) && 0 <= q < |Nodes(g, w)| ==>
      if Moved(g, areaKeys, done, w, q) then IsCopy(g, h, node, Nodes(h, w)[q])
      else Nodes(h, w)[q] == Nodes(g, w)[q]
  }

  /** What the migration left at the position of connection `c`. */
  function At(h: Graph, c: Connection): Id
    requires IsWay(h, c.wayId) && c.index < |Nodes(h, c.wayId)|
  {
    Nodes(h, c.wayId)[c.index]
  }

  ghost predicate DistinctAt(g: Graph, h: Graph, done: seq<Connection>)
    requires WaysKept(g, h) && ValidConns(g, done)
  {
    forall a, b :: 0 <= a < b < |done| ==> done[a] in done && done[b] in done && At(h, done[a]) != At(h, done[b])
  }

  /** The state after migrating the connections `done` with minted ids. */
  ghost predicate Detached(g: Graph, h: Graph, node: Entity, areaKeys: AreaKeys, done: seq<Connection>)
  {
    && node.Node?
    && g.entities.Keys <= h.entities.Keys
    && WaysKept(g, h)
    && ValidConns(g, done)
    && PositionsMoved(g, h, node, areaKeys, done)
    && DistinctAt(g, h, done)
  }

  /** What the connections of a node satisfy, as the migration relies on:
      ordered; each at a position holding the node; an area attached at its
      start has no other connection; and a closing position whose neighbour
      also holds the node (in a closed way) comes after a connection at that
      neighbour. */
  ghost predicate Spread(g: Graph, nodeId: Id, areaKeys: AreaKeys, conns: seq<Connection>)
  {
    && Ordered(conns)
    && (forall c :: c in conns ==> IsWay(g, c.wayId) && c.index < |Nodes(g, c.wayId)| && Nodes(g, c.wayId)[c.index] == nodeId)
    && (forall c, d ::
          (c in conns && d in conns && c.index == 0 &&
           IsArea(Nodes(g, c.wayId), g.entities[c.wayId].tags, areaKeys) && d.wayId == c.wayId) ==> d == c)
    && (forall c ::
          (c in conns && IsClosed(Nodes(g, c.wayId)) && c.index >= 2 && c.index == |Nodes(g, c.wayId)| - 1 &&
           Nodes(g, c.wayId)[c.index - 1] == nodeId) ==> Connection(c.wayId, c.index - 1) in conns)
  }

  /** `nn` is the node list of the way of `c` once `c` has moved its positions to `x`. */
  ghost predicate RewiredAs(g: Graph, h: Graph, areaKeys: AreaKeys, done: seq<Connection>, c: Connection, x: Id, nn: seq<Id>)
    requires IsWay(g, c.wayId) && WaysKept(g, h)
  {
    && |nn| == |Nodes(g, c.wayId)|
    && forall q :: 0 <= q < |nn| ==>
         nn[q] == if Rewrites(g, areaKeys, c, q) then x else Nodes(h, c.wayId)[q]
  }

  lemma WrittenPositions(g: Graph, h: Graph, h2: Graph, node: Entity, areaKeys: AreaKeys, done: seq<Connection>,
                         c: Connection, x: Id, nn: seq<Id>)
    requires Detached(g, h, node, areaKeys, done) && IsWay(g, c.wayId) && x !in h.entities && x !in InUse(g)
    requires RewiredAs(g, h, areaKeys, done, c, x, nn)
    requires h2 == h.Replace(x, Node(node.loc, node.tags)).Replace(c.wayId, Way(nn, g.entities[c.wayId].tags))
    requires WaysKept(g, h2)
    ensures PositionsMoved(g, h2, node, areaKeys, done + [c])
  {
    var w := c.wayId;
    forall v, q | IsWay(g, v) && 0 <= q < |Nodes(g, v)|
      ensures if Moved(g, areaKeys, done + [c], v, q) then IsCopy(g, h2, node, Nodes(h2, v)[q])
              else Nodes(h2, v)[q] == Nodes(g, v)[q]
    {
      if v == w && Rewrites(g, areaKeys, c, q) {
        assert Nodes(h2, v)[q] == x;
      } else {
        assert v != x;
        assert Nodes(h2, v)[q] == Nodes(h, v)[q];
        assert Moved(g, areaKeys, done + [c], v, q) == Moved(g, areaKeys, done, v, q);
        if Moved(g, areaKeys, done, v, q) {
          var y := Nodes(h, v)[q];
          assert IsCopy(g, h, node, y);
          assert y != w && y != x;
        }
      }
    }
  }

  lemma WrittenDistinct(g: Graph, h: Graph, h2: Graph, node: Entity, areaKeys: AreaKeys, done: seq<Connection>,
                        c: Connection, x: Id, nn: seq<Id>)
    requires Detached(g, h, node, areaKeys, done) && IsWay(g, c.wayId) && c.index < |Nodes(g, c.wayId)|
    requires x !in h.entities && forall d :: d in done && d.wayId == c.wayId ==> d.index < c.index
    requires RewiredAs(g, h, areaKeys, done, c, x, nn)
    requires h2 == h.Replace(x, Node(node.loc, node.tags)).Replace(c.wayId, Way(nn, g.entities[c.wayId].tags))
    requires WaysKept(g, h2) && ValidConns(g, done + [c])
    ensures DistinctAt(g, h2, done + [c])
  {
    var w := c.wayId;
    var done2 := done + [c];
    forall d | d in done ensures At(h2, d) == At(h, d) && At(h, d) != x {
      assert Moved(g, areaKeys, done, d.wayId, d.index);
      assert IsCopy(g, h, node, At(h, d));
      assert d.wayId == w ==> !Rewrites(g, areaKeys, c, d.index);
    }
    assert Rewrites(g, areaKeys, c, c.index);
    assert At(h2, c) == x;
    forall a, b | 0 <= a < b < |done2| ensures At(h2, done2[a]) != At(h2, done2[b]) {
      assert done2[a] == done[a];
      if b < |done| {
        assert done2[b] == done[b];
      }
    }
  }

  /** Writing a new node `x` and the way of `c` rewired by `c` extends
      `Detached` by one connection. */
  lemma WriteDetached(g: Graph, h: Graph, node: Entity, areaKeys: AreaKeys, done: seq<Connection>,
                      c: Connection, x: Id, nn: seq<Id>)
    requires Detached(g, h, node, areaKeys, done) && IsWay(g, c.wayId) && c.index < |Nodes(g, c.wayId)|
    requires x !in h.entities && x !in InUse(g) && forall d :: d in done && d.wayId == c.wayId ==> d.index < c.index
    requires RewiredAs(g, h, areaKeys, done, c, x, nn)
    ensures Detached(g, h.Replace(x, Node(node.loc, node.tags)).Replace(c.wayId, Way(nn, g.entities[c.wayId].tags)),
                     node, areaKeys, done + [c])
  {
    var h2 := h.Replace(x, Node(node.loc, node.tags)).Replace(c.wayId, Way(nn, g.entities[c.wayId].tags));
    forall v | IsWay(g, v)
      ensures IsWay(h2, v) && |Nodes(h2, v)| == |Nodes(g, v)| && h2.entities[v].tags == g.entities[v].tags
    {
      assert v != x;
    }
    forall d | d in done + [c] ensures IsWay(g, d.wayId) && d.index < |Nodes(g, d.wayId)| {
      if d != c {
        assert d in done;
      }
    }
    WrittenPositions(g, h, h2, node, areaKeys, done, c, x, nn);
    WrittenDistinct(g, h, h2, node, areaKeys, done, c, x, nn);
  }

  lemma PrefixIn(conns: seq<Connection>, i: nat, d: Connection) returns (k: nat)
    requires i <= |conns| && d in conns[..i]
    ensures k < i && conns[k] == d && d in conns
  {
    k :| 0 <= k < i && conns[..i][k] == d;
  }

  /** The connections before `conns[i]` on its way sit at lower indexes, so
      none of them has rewritten a position of that way from its index on,
      except the closing reference of a closed way attached at its start. */
  lemma StepUnmoved(g: Graph, nodeId: Id, areaKeys: AreaKeys, conns: seq<Connection>, i: nat)
    requires Spread(g, nodeId, areaKeys, conns) && i < |conns|
    ensures conns[i] in conns
    ensures forall d :: d in conns[..i] && d.wayId == conns[i].wayId ==> d.index < conns[i].index
    ensures forall q ::
      (conns[i].index <= q < |Nodes(g, conns[i].wayId)| &&
       !(q == |Nodes(g, conns[i].wayId)| - 1 && Connection(conns[i].wayId, 0) in conns[..i] &&
         IsClosed(Nodes(g, conns[i].wayId)))) ==>
      !Moved(g, areaKeys, conns[..i], conns[i].wayId, q)
  {
    var c := conns[i];
    var w := c.wayId;
    assert c in conns;
    var area := IsArea(Nodes(g, w), g.entities[w].tags, areaKeys);
    forall k | 0 <= k < i
      ensures conns[k].wayId == w ==> conns[k].index < c.index
      ensures !(conns[k] == Connection(w, 0) && area)
    {
      assert Before(conns[k], conns[i]);
      assert conns[k] in conns;
    }
    forall d | d in conns[..i] && d.wayId == w ensures d.index < c.index {
      var k := PrefixIn(conns, i, d);
    }
    forall q | c.index <= q < |Nodes(g, w)| &&
               !(q == |Nodes(g, w)| - 1 && Connection(w, 0) in conns[..i] && IsClosed(Nodes(g, w)))
      ensures !Moved(g, areaKeys, conns[..i], w, q)
    {
      assert Connection(w, q) !in conns[..i];
      assert !(Connection(w, 0) in conns[..i] && area);
    }
  }

  /** A closing position whose neighbour also holds the node is preceded by
      a connection at that neighbour. */
  lemma ClosingNeighbour(g: Graph, nodeId: Id, areaKeys: AreaKeys, conns: seq<Connection>, i: nat)
    requires Spread(g, nodeId, areaKeys, conns) && i < |conns|
    requires conns[i] in conns && IsClosed(Nodes(g, conns[i].wayId))
    requires 2 <= conns[i].index == |Nodes(g, conns[i].wayId)| - 1
    requires Nodes(g, conns[i].wayId)[conns[i].index - 1] == nodeId
    ensures Connection(conns[i].wayId, conns[i].index - 1) in conns[..i]
  {
    var c := conns[i];
    var k :| 0 <= k < |conns| && conns[k] == Connection(c.wayId, c.index - 1);
    assert k != i;
    assert !Before(conns[i], conns[k]);
    assert conns[..i][k] == conns[k];
  }

  /** A connection away from the start of its way means the way is not an
      area attached at its start. */
  lemma AreaAlone(g: Graph, nodeId: Id, areaKeys: AreaKeys, conns: seq<Connection>, c: Connection)
    requires Spread(g, nodeId, areaKeys, conns) && c in conns && c.index != 0
    ensures !(Connection(c.wayId, 0) in conns && IsArea(Nodes(g, c.wayId), g.entities[c.wayId].tags, areaKeys))
  {
  }

  /** The state before migrating `conns[i]`. */
  ghost predicate StepReady(g: Graph, nodeId: Id, node: Entity, areaKeys: AreaKeys, conns: seq<Connection>, i: nat, h: Graph)
  {
    && node.Node? && nodeId in g.entities && Spread(g, nodeId, areaKeys, conns) && i < |conns|
    && Detached(g, h, node, areaKeys, conns[..i])
  }

  /** From its index on, the way of `conns[i]` is as in `g`, but for the
      closing reference that a connection at the start of a closed way has
      rewritten; at index 0 the whole way is as in `g`. */
  lemma StepSuffix(g: Graph, nodeId: Id, node: Entity, areaKeys: AreaKeys, conns: seq<Connection>, i: nat, h: Graph)
    requires StepReady(g, nodeId, node, areaKeys, conns, i, h)
    ensures conns[i] in conns && IsWay(h, conns[i].wayId)
    ensures |Nodes(h, conns[i].wayId)| == |Nodes(g, conns[i].wayId)|
    ensures h.entities[conns[i].wayId].tags == g.entities[conns[i].wayId].tags
    ensures forall d :: d in conns[..i] && d.wayId == conns[i].wayId ==> d.index < conns[i].index
    ensures forall q ::
      (conns[i].index <= q < |Nodes(g, conns[i].wayId)| &&
       !(q == |Nodes(g, conns[i].wayId)| - 1 && Connection(conns[i].wayId, 0) in conns[..i] &&
         IsClosed(Nodes(g, conns[i].wayId)))) ==>
      !Moved(g, areaKeys, conns[..i], conns[i].wayId, q) && Nodes(h, conns[i].wayId)[q] == Nodes(g, conns[i].wayId)[q]
    ensures conns[i].index == 0 ==> Nodes(h, conns[i].wayId) == Nodes(g, conns[i].wayId)
  {
    StepUnmoved(g, nodeId, areaKeys, conns, i);
    var w := conns[i].wayId;
    if conns[i].index == 0 {
      assert Connection(w, 0) !in conns[..i];
      assert forall q :: 0 <= q < |Nodes(g, w)| ==> Nodes(h, w)[q] == Nodes(g, w)[q];
    }
  }

  lemma RewireArea(g: Graph, nodeId: Id, node: Entity, areaKeys: AreaKeys, conns: seq<Connection>, i: nat, h: Graph, x: Id)
    requires StepReady(g, nodeId, node, areaKeys, conns, i, h) && IsWay(h, conns[i].wayId)
    requires conns[i].index == 0
    requires IsArea(Nodes(h, conns[i].wayId), h.entities[conns[i].wayId].tags, areaKeys)
    ensures Rewire(h.entities[conns[i].wayId], conns[i].index, x, areaKeys).Ok?
    ensures RewiredAs(g, h, areaKeys, conns[..i], conns[i], x,
                      Rewire(h.entities[conns[i].wayId], conns[i].index, x, areaKeys).value.nodes)
  {
    var c := conns[i];
    var w := c.wayId;
    StepSuffix(g, nodeId, node, areaKeys, conns, i, h);
    RewireShape(h.entities[w], 0, x, areaKeys);
    assert c == Connection(w, 0);
    forall q | 0 <= q < |Nodes(g, w)|
      ensures Rewrites(g, areaKeys, c, q) == (Nodes(g, w)[q] == Nodes(g, w)[0])
    {
    }
  }

  /** Before a closing connection runs, the way of `g` is closed on the node. */
  lemma ClosingInG(g: Graph, nodeId: Id, node: Entity, areaKeys: AreaKeys, conns: seq<Connection>, i: nat, h: Graph)
    requires StepReady(g, nodeId, node, areaKeys, conns, i, h) && IsWay(h, conns[i].wayId)
    requires IsClosed(Nodes(h, conns[i].wayId)) && conns[i].index == |Nodes(h, conns[i].wayId)| - 1
    ensures conns[i].index != 0
    ensures IsClosed(Nodes(g, conns[i].wayId)) && Nodes(g, conns[i].wayId)[0] == nodeId
  {
    var c := conns[i];
    var w := c.wayId;
    var done := conns[..i];
    var nodes := Nodes(h, w);
    var n := |nodes|;
    StepSuffix(g, nodeId, node, areaKeys, conns, i, h);
    AreaAlone(g, nodeId, areaKeys, conns, c);
    assert Nodes(g, w)[n - 1] == nodeId;
    assert Connection(w, n - 1) !in done;
    assert Moved(g, areaKeys, done, w, 0) ==> IsCopy(g, h, node, nodes[0]);
    assert !Moved(g, areaKeys, done, w, 0) ==> nodes[0] == Nodes(g, w)[0];
    assert !Moved(g, areaKeys, done, w, n - 1) ==> nodes[n - 1] == nodeId;
  }

  /** Before a closing connection runs, the way of `h` without its closing
      reference is not closed: its first and its last remaining node differ. */
  lemma ClosingEnds(g: Graph, nodeId: Id, node: Entity, areaKeys: AreaKeys, conns: seq<Connection>, i: nat, h: Graph)
    requires StepReady(g, nodeId, node, areaKeys, conns, i, h) && IsWay(h, conns[i].wayId)
    requires IsClosed(Nodes(h, conns[i].wayId)) && 3 <= |Nodes(h, conns[i].wayId)|
    requires conns[i].index == |Nodes(h, conns[i].wayId)| - 1
    ensures Nodes(h, conns[i].wayId)[|Nodes(h, conns[i].wayId)| - 2] != Nodes(h, conns[i].wayId)[0]
  {
    var c := conns[i];
    var w := c.wayId;
    var done := conns[..i];
    var nodes := Nodes(h, w);
    var n := |nodes|;
    StepSuffix(g, nodeId, node, areaKeys, conns, i, h);
    ClosingInG(g, nodeId, node, areaKeys, conns, i, h);
    AreaAlone(g, nodeId, areaKeys, conns, c);
    var a := Connection(w, 0);
    var b := Connection(w, n - 2);
    if Nodes(g, w)[n - 2] == nodeId {
      ClosingNeighbour(g, nodeId, areaKeys, conns, i);
    }
    assert Moved(g, areaKeys, done, w, 0) == (a in done);
    assert Moved(g, areaKeys, done, w, n - 2) == (b in done);
    assert a in done ==> IsCopy(g, h, node, nodes[0]);
    assert a !in done ==> nodes[0] == nodeId;
    assert b in done ==> IsCopy(g, h, node, nodes[n - 2]);
    assert b !in done ==> nodes[n - 2] == Nodes(g, w)[n - 2];
    if a in done && b in done {
      var ka := PrefixIn(conns, i, a);
      var kb := PrefixIn(conns, i, b);
      assert done[ka] == a && done[kb] == b;
      if ka < kb {
        assert At(h, done[ka]) != At(h, done[kb]);
      } else {
        assert At(h, done[kb]) != At(h, done[ka]);
      }
    }
  }

  lemma RewireClosing(g: Graph, nodeId: Id, node: Entity, areaKeys: AreaKeys, conns: seq<Connection>, i: nat, h: Graph, x: Id)
    requires StepReady(g, nodeId, node, areaKeys, conns, i, h) && IsWay(h, conns[i].wayId)
    requires !(conns[i].index == 0 && IsArea(Nodes(h, conns[i].wayId), h.entities[conns[i].wayId].tags, areaKeys))
    requires IsClosed(Nodes(h, conns[i].wayId)) && conns[i].index == |Nodes(h, conns[i].wayId)| - 1
    ensures Rewire(h.entities[conns[i].wayId], conns[i].index, x, areaKeys).Ok?
    ensures RewiredAs(g, h, areaKeys, conns[..i], conns[i], x,
                      Rewire(h.entities[conns[i].wayId], conns[i].index, x, areaKeys).value.nodes)
  {
    var c := conns[i];
    var w := c.wayId;
    var nodes := Nodes(h, w);
    var n := |nodes|;
    StepSuffix(g, nodeId, node, areaKeys, conns, i, h);
    ClosingInG(g, nodeId, node, areaKeys, conns, i, h);
    if n >= 3 {
      ClosingEnds(g, nodeId, node, areaKeys, conns, i, h);
    }
    var open := nodes[..n - 1];
    assert !IsClosed(open);
    RewireShape(h.entities[w], c.index, x, areaKeys);
    forall q | 0 <= q < n
      ensures Rewire(h.entities[w], c.index, x, areaKeys).value.nodes[q] ==
        if Rewrites(g, areaKeys, c, q) then x else nodes[q]
    {
    }
  }

  lemma RewireInPlace(g: Graph, nodeId: Id, node: Entity, areaKeys: AreaKeys, conns: seq<Connection>, i: nat, h: Graph, x: Id)
    requires StepReady(g, nodeId, node, areaKeys, conns, i, h) && IsWay(h, conns[i].wayId)
    requires !(conns[i].index == 0 && IsArea(Nodes(h, conns[i].wayId), h.entities[conns[i].wayId].tags, areaKeys))
    requires !(IsClosed(Nodes(h, conns[i].wayId)) && conns[i].index == |Nodes(h, conns[i].wayId)| - 1)
    ensures Rewire(h.entities[conns[i].wayId], conns[i].index, x, areaKeys).Ok?
    ensures RewiredAs(g, h, areaKeys, conns[..i], conns[i], x,
                      Rewire(h.entities[conns[i].wayId], conns[i].index, x, areaKeys).value.nodes)
  {
    var c := conns[i];
    var w := c.wayId;
    StepSuffix(g, nodeId, node, areaKeys, conns, i, h);
    RewireShape(h.entities[w], c.index, x, areaKeys);
    forall q | 0 <= q < |Nodes(g, w)|
      ensures Rewire(h.entities[w], c.index, x, areaKeys).value.nodes[q] ==
        if Rewrites(g, areaKeys, c, q) then x else Nodes(h, w)[q]
    {
    }
  }

  /** Whatever branch `Rewire` takes, the way of `conns[i]` comes out as
      `RewiredAs` says. */
  lemma StepRewired(g: Graph, nodeId: Id, node: Entity, areaKeys: AreaKeys, conns: seq<Connection>, i: nat, h: Graph, x: Id)
    requires StepReady(g, nodeId, node, areaKeys, conns, i, h) && IsWay(h, conns[i].wayId)
    ensures Rewire(h.entities[conns[i].wayId], conns[i].index, x, areaKeys).Ok?
    ensures RewiredAs(g, h, areaKeys, conns[..i], conns[i], x,
                      Rewire(h.entities[conns[i].wayId], conns[i].index, x, areaKeys).value.nodes)
  {
    var c := conns[i];
    var way := h.entities[c.wayId];
    if c.index == 0 && IsArea(way.nodes, way.tags, areaKeys) {
      RewireArea(g, nodeId, node, areaKeys, conns, i, h, x);
    } else if IsClosed(way.nodes) && c.index == |way.nodes| - 1 {
      RewireClosing(g, nodeId, node, areaKeys, conns, i, h, x);
    } else {
      RewireInPlace(g, nodeId, node, areaKeys, conns, i, h, x);
    }
  }

  /** A position that earlier connections have moved held the node in `g`. */
  lemma MovedHeldNode(g: Graph, nodeId: Id, areaKeys: AreaKeys, conns: seq<Connection>, i: nat, v: Id, q: nat)
    requires Spread(g, nodeId, areaKeys, conns) && i <= |conns|
    requires IsWay(g, v) && q < |Nodes(g, v)| && Moved(g, areaKeys, conns[..i], v, q)
    ensures Nodes(g, v)[q] == nodeId
  {
    if Connection(v, q) in conns[..i] {
      var k := PrefixIn(conns, i, Connection(v, q));
    } else {
      var k := PrefixIn(conns, i, Connection(v, 0));
    }
  }

  /** The id minted before migrating `conns[i]` is in use neither in `h`
      nor in `g`. */
  lemma MintFresh(g: Graph, nodeId: Id, node: Entity, areaKeys: AreaKeys, conns: seq<Connection>, i: nat, h: Graph)
    requires StepReady(g, nodeId, node, areaKeys, conns, i, h)
    ensures FreshId(InUse(h)) !in h.entities && FreshId(InUse(h)) !in InUse(g)
  {
    var x := FreshId(InUse(h));
    var done := conns[..i];
    forall v, q | v in g.entities && g.entities[v].Way? && 0 <= q < |g.entities[v].nodes|
      ensures g.entities[v].nodes[q] != x
    {
      assert IsWay(g, v) && IsWay(h, v);
      if Moved(g, areaKeys, done, v, q) {
        MovedHeldNode(g, nodeId, areaKeys, conns, i, v, q);
      } else {
        assert Nodes(h, v)[q] == Nodes(g, v)[q];
      }
    }
  }

  /** One step of the migration with a minted id. */
  lemma MigrateMinted(h: Graph, node: Entity, c: Connection, areaKeys: AreaKeys)
    requires node.Node? && IsWay(h, c.wayId) && c.index < |Nodes(h, c.wayId)|
    ensures var x := FreshId(InUse(h));
      Migrate(h, node, c, None, areaKeys) ==
        Ok(h.Replace(x, Node(node.loc, node.tags)).Replace(c.wayId, Rewire(h.entities[c.wayId], c.index, x, areaKeys).value))
  {
  }

  lemma PrefixSnoc(conns: seq<Connection>, i: nat)
    requires i < |conns|
    ensures conns[..i + 1] == conns[..i] + [conns[i]]
  {
  }

  /** Migrating `conns[i]` with a minted id extends `Detached` by it. */
  lemma DetachStep(g: Graph, nodeId: Id, node: Entity, areaKeys: AreaKeys, conns: seq<Connection>, i: nat, h: Graph)
    requires StepReady(g, nodeId, node, areaKeys, conns, i, h)
    ensures Migrate(h, node, conns[i], None, areaKeys).Ok?
    ensures Detached(g, Migrate(h, node, conns[i], None, areaKeys).value, node, areaKeys, conns[..i + 1])
  {
    var c := conns[i];
    var w := c.wayId;
    StepSuffix(g, nodeId, node, areaKeys, conns, i, h);
    MintFresh(g, nodeId, node, areaKeys, conns, i, h);
    var x := FreshId(InUse(h));
    StepRewired(g, nodeId, node, areaKeys, conns, i, h, x);
    var rewired := Rewire(h.entities[w], c.index, x, areaKeys).value;
    assert rewired == Way(rewired.nodes, g.entities[w].tags);
    MigrateMinted(h, node, c, areaKeys);
    WriteDetached(g, h, node, areaKeys, conns[..i], c, x, rewired.nodes);
    PrefixSnoc(conns, i);
  }

  /** Migrating a prefix of spread connections with minted ids. */
  lemma {:induction false} DetachedUpTo(g: Graph, nodeId: Id, node: Entity, areaKeys: AreaKeys, conns: seq<Connection>, i: nat)
    requires node.Node? && nodeId in g.entities && Spread(g, nodeId, areaKeys, conns) && i <= |conns|
    ensures Migrated(g, node, conns[..i], None, areaKeys).Ok?
    ensures Detached(g, Migrated(g, node, conns[..i], None, areaKeys).value, node, areaKeys, conns[..i])
  {
    if i == 0 {
      assert conns[..0] == [];
    } else {
      var k := i - 1;
      DetachedUpTo(g, nodeId, node, areaKeys, conns, k);
      var h := Migrated(g, node, conns[..k], None, areaKeys).value;
      MigratedNext(g, node, conns, k, h, None, areaKeys);
      DetachStep(g, nodeId, node, areaKeys, conns, k, h);
    }
  }


  /** The connections are attachments of the node, and every attachment
      with an earlier one is among them. */
  lemma ConnectionsCandidates(g: Graph, nodeId: Id, wayIds: Limit, areaKeys: AreaKeys)
    requires nodeId in g.entities
    ensures var multi := |g.ParentWays(nodeId)| > 1;
      var conns := ConnectionsOf(g, nodeId, wayIds, areaKeys).value;
      && Ordered(conns)
      && (forall c :: c in conns ==> IsCandidate(g, nodeId, multi, wayIds, areaKeys, c))
      && (forall c, d ::
            (IsCandidate(g, nodeId, multi, wayIds, areaKeys, c) &&
             IsCandidate(g, nodeId, multi, wayIds, areaKeys, d) && Before(d, c)) ==> c in conns)
  {
    ConnectionsMembers(g, nodeId, wayIds, areaKeys);
  }

  lemma SpreadArea(g: Graph, nodeId: Id, multi: bool, wayIds: Limit, areaKeys: AreaKeys, conns: seq<Connection>)
    requires forall c :: c in conns ==> IsCandidate(g, nodeId, multi, wayIds, areaKeys, c)
    requires forall c :: c in conns ==> IsWay(g, c.wayId) && c.index < |Nodes(g, c.wayId)|
    ensures forall c, d ::
      (c in conns && d in conns && c.index == 0 &&
       IsArea(Nodes(g, c.wayId), g.entities[c.wayId].tags, areaKeys) && d.wayId == c.wayId) ==> d == c
  {
    forall c, d | (c in conns && d in conns && c.index == 0 &&
                   IsArea(Nodes(g, c.wayId), g.entities[c.wayId].tags, areaKeys) && d.wayId == c.wayId)
      ensures d == c
    {
      assert IsCandidate(g, nodeId, multi, wayIds, areaKeys, c);
      assert IsCandidate(g, nodeId, multi, wayIds, areaKeys, d);
      assert AttachesAtStart(g.entities[c.wayId], nodeId, areaKeys);
    }
  }

  lemma SpreadClosing(g: Graph, nodeId: Id, multi: bool, wayIds: Limit, areaKeys: AreaKeys, conns: seq<Connection>)
    requires forall c :: c in conns ==> IsCandidate(g, nodeId, multi, wayIds, areaKeys, c)
    requires forall c :: c in conns ==> IsWay(g, c.wayId) && c.index < |Nodes(g, c.wayId)|
    requires forall c, d ::
      (IsCandidate(g, nodeId, multi, wayIds, areaKeys, c) &&
       IsCandidate(g, nodeId, multi, wayIds, areaKeys, d) && Before(d, c)) ==> c in conns
    ensures forall c ::
      (c in conns && IsClosed(Nodes(g, c.wayId)) && c.index >= 2 && c.index == |Nodes(g, c.wayId)| - 1 &&
       Nodes(g, c.wayId)[c.index - 1] == nodeId) ==> Connection(c.wayId, c.index - 1) in conns
  {
    forall c | (c in conns && IsClosed(Nodes(g, c.wayId)) && c.index >= 2 && c.index == |Nodes(g, c.wayId)| - 1 &&
                Nodes(g, c.wayId)[c.index - 1] == nodeId)
      ensures Connection(c.wayId, c.index - 1) in conns
    {
      var w := c.wayId;
      assert IsCandidate(g, nodeId, multi, wayIds, areaKeys, c);
      assert !AttachesAtStart(g.entities[w], nodeId, areaKeys);
      assert IsCandidate(g, nodeId, multi, wayIds, areaKeys, Connection(w, c.index - 1));
      assert IsCandidate(g, nodeId, multi, wayIds, areaKeys, Connection(w, 0));
      assert Before(Connection(w, 0), Connection(w, c.index - 1));
    }
  }

  /** The connections `action.connections` returns are spread as the
      migration needs. */
  lemma ConnectionsSpread(g: Graph, nodeId: Id, wayIds: Limit, areaKeys: AreaKeys)
    requires nodeId in g.entities
    ensures Spread(g, nodeId, areaKeys, ConnectionsOf(g, nodeId, wayIds, areaKeys).value)
  {
    var multi := |g.ParentWays(nodeId)| > 1;
    var conns := ConnectionsOf(g, nodeId, wayIds, areaKeys).value;
    ConnectionsCandidates(g, nodeId, wayIds, areaKeys);
    forall c | c in conns
      ensures IsWay(g, c.wayId) && c.index < |Nodes(g, c.wayId)| && Nodes(g, c.wayId)[c.index] == nodeId
    {
      assert IsCandidate(g, nodeId, multi, wayIds, areaKeys, c);
    }
    SpreadArea(g, nodeId, multi, wayIds, areaKeys, conns);
    SpreadClosing(g, nodeId, multi, wayIds, areaKeys, conns);
  }

  /** `c` is an attachment with no attachment before it: the one
      `connections` drops when no parent way is left out. */
  ghost predicate LeastCandidate(g: Graph, nodeId: Id, multi: bool, wayIds: Limit, areaKeys: AreaKeys, c: Connection)
  {
    && IsCandidate(g, nodeId, multi, wayIds, areaKeys, c)
    && forall d :: IsCandidate(g, nodeId, multi, wayIds, areaKeys, d) ==> !Before(d, c)
  }

  /** The attachment that a position holding the node belongs to: the start
      of an area that starts at the node; the start of a closed way whose
      closing position is skipped, for that position; otherwise the
      position itself. */
  function Anchor(way: Entity, w: Id, nodeId: Id, multi: bool, wayIds: Limit, areaKeys: AreaKeys, q: nat): Connection
    requires way.Way?
  {
    if AttachesAtStart(way, nodeId, areaKeys) || (SkipsClosing(way.nodes, w, multi, wayIds) && q == |way.nodes| - 1)
    then Connection(w, 0)
    else Connection(w, q)
  }

  /** What the action leaves when it mints the new identifiers (no
      `newNodeId`): every connection ends up on a node of its own, a new
      identifier not in use in the original graph holding a copy of the
      node's location and tags, a different one for each connection; when
      the restriction leaves no parent way out, the least attachment, which
      `connections` drops, still holds the node; and a position of an
      included parent way that held the node still holds it exactly when it
      belongs to that kept least attachment. */
  ghost predicate Detaches(g: Graph, nodeId: Id, wayIds: Limit, areaKeys: AreaKeys, h: Graph)
    requires nodeId in g.entities && g.entities[nodeId].Node?
  {
    var conns := ConnectionsOf(g, nodeId, wayIds, areaKeys).value;
    var node := g.entities[nodeId];
    var multi := |g.ParentWays(nodeId)| > 1;
    && (forall c :: c in conns ==>
          IsWay(h, c.wayId) && c.index < |Nodes(h, c.wayId)| && IsCopy(g, h, node, At(h, c)))
    && (forall a, b :: 0 <= a < b < |conns| ==> At(h, conns[a]) != At(h, conns[b]))
    && (!SomeExcluded(g, nodeId, wayIds) ==>
          forall c0 :: LeastCandidate(g, nodeId, multi, wayIds, areaKeys, c0) ==>
            IsWay(h, c0.wayId) && c0.index < |Nodes(h, c0.wayId)| && At(h, c0) == nodeId)
    && (forall w, q ::
          (g.IsParentWay(w, nodeId) && !Excluded(wayIds, w) && 0 <= q < |Nodes(g, w)| && Nodes(g, w)[q] == nodeId) ==>
          && IsWay(h, w) && |Nodes(h, w)| == |Nodes(g, w)|
          && (Nodes(h, w)[q] == nodeId <==>
                !SomeExcluded(g, nodeId, wayIds) &&
                LeastCandidate(g, nodeId, multi, wayIds, areaKeys, Anchor(g.entities[w], w, nodeId, multi, wayIds, areaKeys, q))))
  }

  /** The least attachment, when `connections` drops it, is not moved. */
  lemma FirstKept(g: Graph, nodeId: Id, wayIds: Limit, areaKeys: AreaKeys, h: Graph, c0: Connection)
    requires nodeId in g.entities && g.entities[nodeId].Node? && !SomeExcluded(g, nodeId, wayIds)
    requires Detached(g, h, g.entities[nodeId], areaKeys, ConnectionsOf(g, nodeId, wayIds, areaKeys).value)
    requires LeastCandidate(g, nodeId, |g.ParentWays(nodeId)| > 1, wayIds, areaKeys, c0)
    ensures IsWay(h, c0.wayId) && c0.index < |Nodes(h, c0.wayId)| && At(h, c0) == nodeId
  {
    var multi := |g.ParentWays(nodeId)| > 1;
    var conns := ConnectionsOf(g, nodeId, wayIds, areaKeys).value;
    ConnectionsMembers(g, nodeId, wayIds, areaKeys);
    var w0 := c0.wayId;
    assert c0 !in conns;
    assert Connection(w0, c0.index) == c0;
    var start := Connection(w0, 0);
    assert start in conns ==> IsCandidate(g, nodeId, multi, wayIds, areaKeys, start);
    assert IsCandidate(g, nodeId, multi, wayIds, areaKeys, start) ==> !Before(start, c0);
    assert start !in conns;
    assert !Moved(g, areaKeys, conns, w0, c0.index);
  }

  /** The anchor of a position of an included parent way that held the
      node is an attachment, and it rewrites that position. */
  lemma AnchorRewrites(g: Graph, nodeId: Id, wayIds: Limit, areaKeys: AreaKeys, done: seq<Connection>, w: Id, q: nat)
    requires g.IsParentWay(w, nodeId) && !Excluded(wayIds, w)
    requires q < |Nodes(g, w)| && Nodes(g, w)[q] == nodeId
    ensures var multi := |g.ParentWays(nodeId)| > 1;
      var c := Anchor(g.entities[w], w, nodeId, multi, wayIds, areaKeys, q);
      IsCandidate(g, nodeId, multi, wayIds, areaKeys, c) && (c in done ==> Moved(g, areaKeys, done, w, q))
  {
  }

  /** A moved position of an included parent way that held the node was
      moved by its anchor. */
  lemma MovedByAnchor(g: Graph, nodeId: Id, wayIds: Limit, areaKeys: AreaKeys, w: Id, q: nat)
    requires nodeId in g.entities && g.IsParentWay(w, nodeId) && !Excluded(wayIds, w)
    requires q < |Nodes(g, w)| && Nodes(g, w)[q] == nodeId
    requires Moved(g, areaKeys, ConnectionsOf(g, nodeId, wayIds, areaKeys).value, w, q)
    ensures Anchor(g.entities[w], w, nodeId, |g.ParentWays(nodeId)| > 1, wayIds, areaKeys, q) in
      ConnectionsOf(g, nodeId, wayIds, areaKeys).value
  {
    var multi := |g.ParentWays(nodeId)| > 1;
    var way := g.entities[w];
    var c := Anchor(way, w, nodeId, multi, wayIds, areaKeys, q);
    var conns := ConnectionsOf(g, nodeId, wayIds, areaKeys).value;
    ConnectionsCandidates(g, nodeId, wayIds, areaKeys);
    var start := Connection(w, 0);
    var here := Connection(w, q);
    assert here in conns ==> IsCandidate(g, nodeId, multi, wayIds, areaKeys, here);
    assert start in conns ==> IsCandidate(g, nodeId, multi, wayIds, areaKeys, start);
    assert c == here && start in conns && q != 0 ==>
      IsCandidate(g, nodeId, multi, wayIds, areaKeys, here) && Before(start, here);
  }

  /** A position of an included parent way that held the node holds it
      after the migration exactly when its anchor is the least attachment
      and no parent way is left out. */
  lemma Released(g: Graph, nodeId: Id, wayIds: Limit, areaKeys: AreaKeys, h: Graph, w: Id, q: nat)
    requires nodeId in g.entities && g.entities[nodeId].Node?
    requires Detached(g, h, g.entities[nodeId], areaKeys, ConnectionsOf(g, nodeId, wayIds, areaKeys).value)
    requires g.IsParentWay(w, nodeId) && !Excluded(wayIds, w) && q < |Nodes(g, w)| && Nodes(g, w)[q] == nodeId
    ensures IsWay(h, w) && |Nodes(h, w)| == |Nodes(g, w)|
    ensures var multi := |g.ParentWays(nodeId)| > 1;
      Nodes(h, w)[q] == nodeId <==>
        !SomeExcluded(g, nodeId, wayIds) &&
        LeastCandidate(g, nodeId, multi, wayIds, areaKeys, Anchor(g.entities[w], w, nodeId, multi, wayIds, areaKeys, q))
  {
    var multi := |g.ParentWays(nodeId)| > 1;
    var conns := ConnectionsOf(g, nodeId, wayIds, areaKeys).value;
    var c := Anchor(g.entities[w], w, nodeId, multi, wayIds, areaKeys, q);
    AnchorRewrites(g, nodeId, wayIds, areaKeys, conns, w, q);
    if Moved(g, areaKeys, conns, w, q) {
      MovedByAnchor(g, nodeId, wayIds, areaKeys, w, q);
    }
    ConnectionsMembers(g, nodeId, wayIds, areaKeys);
    assert Moved(g, areaKeys, conns, w, q) ==> IsCopy(g, h, g.entities[nodeId], Nodes(h, w)[q]);
    assert !Moved(g, areaKeys, conns, w, q) ==> Nodes(h, w)[q] == nodeId;
  }

  /** `Detached` over all the connections is what `Detaches` states. */
  lemma DetachesFrom(g: Graph, nodeId: Id, wayIds: Limit, areaKeys: AreaKeys, h: Graph)
    requires nodeId in g.entities && g.entities[nodeId].Node?
    requires Detached(g, h, g.entities[nodeId], areaKeys, ConnectionsOf(g, nodeId, wayIds, areaKeys).value)
    ensures Detaches(g, nodeId, wayIds, areaKeys, h)
  {
    var node := g.entities[nodeId];
    var conns := ConnectionsOf(g, nodeId, wayIds, areaKeys).value;
    var multi := |g.ParentWays(nodeId)| > 1;
    forall c | c in conns ensures IsWay(h, c.wayId) && c.index < |Nodes(h, c.wayId)| && IsCopy(g, h, node, At(h, c)) {
      assert Connection(c.wayId, c.index) == c;
      assert Moved(g, areaKeys, conns, c.wayId, c.index);
    }
    if !SomeExcluded(g, nodeId, wayIds) {
      forall c0 | LeastCandidate(g, nodeId, multi, wayIds, areaKeys, c0)
        ensures IsWay(h, c0.wayId) && c0.index < |Nodes(h, c0.wayId)| && At(h, c0) == nodeId
      {
        FirstKept(g, nodeId, wayIds, areaKeys, h, c0);
      }
    }
    forall w, q | (g.IsParentWay(w, nodeId) && !Excluded(wayIds, w) && 0 <= q < |Nodes(g, w)| && Nodes(g, w)[q] == nodeId)
      ensures IsWay(h, w) && |Nodes(h, w)| == |Nodes(g, w)|
      ensures Nodes(h, w)[q] == nodeId <==>
        !SomeExcluded(g, nodeId, wayIds) &&
        LeastCandidate(g, nodeId, multi, wayIds, areaKeys, Anchor(g.entities[w], w, nodeId, multi, wayIds, areaKeys, q))
    {
      Released(g, nodeId, wayIds, areaKeys, h, w, q);
    }
  }

  /** The action with minted identifiers succeeds on any node and detaches
      it as `Detaches` says. */
  lemma DisconnectDetaches(g: Graph, nodeId: Id, wayIds: Limit, areaKeys: AreaKeys)
    requires nodeId in g.entities && g.entities[nodeId].Node?
    ensures DisconnectOf(g, nodeId, None, wayIds, areaKeys).Ok?
    ensures Detaches(g, nodeId, wayIds, areaKeys, DisconnectOf(g, nodeId, None, wayIds, areaKeys).value)
  {
    var node := g.entities[nodeId];
    var conns := ConnectionsOf(g, nodeId, wayIds, areaKeys).value;
    DisconnectOfIs(g, nodeId, None, wayIds, areaKeys);
    ConnectionsSpread(g, nodeId, wayIds, areaKeys);
    DetachedUpTo(g, nodeId, node, areaKeys, conns, |conns|);
    assert conns[..|conns|] == conns;
    DetachesFrom(g, nodeId, wayIds, areaKeys, Migrated(g, node, conns, None, areaKeys).value);
  }

  /** The body of the action's `forEach`. */
  method MigrateOne(graph: Graph, node: Entity, connection: Connection, newNodeId: Option<Id>, areaKeys: AreaKeys)
    returns (r: Result<Graph>)
    requires node.Node?
    ensures r == Migrate(graph, node, connection, newNodeId, areaKeys)
  {
    var way :- graph.Get(connection.wayId);
    var newId := MintedId(graph, newNodeId);
    var next := graph.Replace(newId, Node(node.loc, node.tags));
    var rewired :- Rewire(way, connection.index, newId, areaKeys);
    return Ok(next.Replace(connection.wayId, rewired));
  }

  /** The action's `forEach` over the connections. */
  method MigrateAll(g: Graph, node: Entity, connections: seq<Connection>, newNodeId: Option<Id>, areaKeys: AreaKeys)
    returns (r: Result<Graph>)
    requires node.Node?
    ensures r == Migrated(g, node, connections, newNodeId, areaKeys)
  {
    var graph := g;
    var i := 0;
    assert connections[..0] == [];
    while i < |connections|
      invariant i <= |connections|
      invariant Migrated(g, node, connections[..i], newNodeId, areaKeys) == Ok(graph)
    {
      MigratedNext(g, node, connections, i, graph, newNodeId, areaKeys);
      var step := MigrateOne(graph, node, connections[i], newNodeId, areaKeys);
      if step.Err? {
        MigratedFails(g, node, connections, i + 1, newNodeId, areaKeys);
        return step;
      }
      graph := step.value;
      i := i + 1;
    }
    assert connections[..i] == connections;
    return Ok(graph);
  }

  /** `action(graph)`. */
  method Apply(g: Graph, nodeId: Id, newNodeId: Option<Id>, wayIds: Limit, areaKeys: AreaKeys) returns (r: Result<Graph>)
    ensures r == DisconnectOf(g, nodeId, newNodeId, wayIds, areaKeys)
    ensures nodeId !in g.entities ==> r == Err(NotFound(nodeId))
    ensures nodeId in g.entities && !g.entities[nodeId].Node? ==> r == Err(TypeError)
    ensures newNodeId.None? && nodeId in g.entities && g.entities[nodeId].Node? ==>
      r.Ok? && Detaches(g, nodeId, wayIds, areaKeys, r.value)
  {
    if newNodeId.None? && nodeId in g.entities && g.entities[nodeId].Node? {
      DisconnectDetaches(g, nodeId, wayIds, areaKeys);
    }
    var node :- g.Get(nodeId);
    if !node.Node? {
      return Err(TypeError);
    }
    var connections := Connections(g, nodeId, wayIds, areaKeys);
    r := MigrateAll(g, node, connections.value, newNodeId, areaKeys);
  }
}
