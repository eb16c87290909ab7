/** `actionDeleteMembers(relationId, memberIndexes)`: remove several member
    entries of one relation by position. The indexes are first sorted,
    largest first, so that each removal leaves the positions still to be
    removed where they were. */
module DeleteMembers {
  import opened Ids
  import opened Wrappers
  import opened Osm
  import opened Graphs
  import Deletion
  import DeleteMember

  // ---------------------------------------------------------------- the sort

  predicate Descending(s: seq<int>)
  {
    forall j, k :: 0 <= j < k < |s| ==> s[j] >= s[k]
  }

  /** `memberIndexes.sort((a, b) => b - a)`: the caller's array is reordered
      in place, larger indexes first. */
  method SortDescending(a: array<int>)
    modifies a
    ensures Descending(a[..])
    ensures multiset(a[..]) == multiset(old(a[..]))
  {
    var i := 0;
    while i < a.Length
      invariant 0 <= i <= a.Length
      invariant Descending(a[..i])
      invariant multiset(a[..]) == multiset(old(a[..]))
    {
      ghost var before := a[..];
      var j := SinkNext(a, i);
      RotatedPerm(before, j, i);
      i := i + 1;
    }
  }

  /** One insertion step: `a[i]` moves left past the smaller entries, to
      position `j`; the entries in between shift right by one. */
  method SinkNext(a: array<int>, i: nat) returns (j: nat)
    modifies a
    requires i < a.Length && Descending(a[..i])
    ensures j <= i && a[..] == Rotated(old(a[..]), j, i)
    ensures Descending(a[..i + 1])
  {
    ghost var s := a[..];
    j := i;
    assert a[..] == Rotated(s, i, i);
    while j > 0 && a[j - 1] < a[j]
      invariant 0 <= j <= i
      invariant a[..] == Rotated(s, j, i)
      invariant j < i ==> s[i] > s[j]
    {
      a[j - 1], a[j] := a[j], a[j - 1];
      RotatedStep(s, j, i);
      j := j - 1;
    }
    InsertedDescending(s, j, i);
    assert a[..i + 1] == Rotated(s, j, i)[..i + 1];
  }

  /** Where the step stops, the moved entry is no larger than the one
      before it and larger than the one after it, so the prefix stays sorted. */
  lemma InsertedDescending(s: seq<int>, j: nat, i: nat)
    requires j <= i < |s| && Descending(s[..i])
    requires j > 0 ==> s[j - 1] >= s[i]
    requires j < i ==> s[i] > s[j]
    ensures Descending(Rotated(s, j, i)[..i + 1])
  {
    var r := Rotated(s, j, i);
    forall p, q | 0 <= p < q <= i ensures r[p] >= r[q] {
      if p < j && q == j {
        assert s[..i][p] >= s[..i][j - 1];
      } else if p == j && q > j {
        assert s[..i][j] >= s[..i][q - 1];
      } else if p < j {
        assert s[..i][p] >= s[..i][q - 1];
      } else {
        assert s[..i][p - 1] >= s[..i][q - 1];
      }
    }
  }

  /** `s` with the entry at `i` moved to position `j <= i`. */
  function Rotated(s: seq<int>, j: nat, i: nat): (r: seq<int>)
    requires j <= i < |s|
    ensures |r| == |s|
  {
    seq(|s|, k requires 0 <= k < |s| => if k < j || k > i then s[k] else if k == j then s[i] else s[k - 1])
  }

  lemma RotatedStep(s: seq<int>, j: nat, i: nat)
    requires 0 < j <= i < |s|
    ensures Rotated(s, j, i)[j - 1 := Rotated(s, j, i)[j]][j := Rotated(s, j, i)[j - 1]] == Rotated(s, j - 1, i)
  {
  }

  lemma RotatedPerm(s: seq<int>, j: nat, i: nat)
    requires j <= i < |s|
    ensures multiset(Rotated(s, j, i)) == multiset(s)
  {
    assert Rotated(s, j, i) == s[..j] + [s[i]] + s[j..i] + s[i + 1..];
    assert s == s[..j] + s[j..i] + [s[i]] + s[i + 1..];
  }

  // ---------------------------------------------------------------- positions

  /** The positions an index list names. */
  ghost function Named(ixs: seq<int>): set<int>
  {
    set x | x in ixs
  }

  /** Indexes naming distinct entries of a member list of length `n`. */
  ghost predicate DistinctIndexes(ixs: seq<int>, n: nat)
  {
    (forall k :: 0 <= k < |ixs| ==> 0 <= ixs[k] < n) &&
    (forall x :: multiset(ixs)[x] <= 1)
  }

  /** Being distinct in-range indexes, and the set they name, do not depend on
      their order. */
  lemma SameIndexes(s: seq<int>, t: seq<int>, n: nat)
    requires multiset(s) == multiset(t)
    ensures DistinctIndexes(s, n) <==> DistinctIndexes(t, n)
    ensures Named(s) == Named(t)
  {
    forall x ensures x in s <==> x in t {
      assert x in s <==> x in multiset(s);
      assert x in t <==> x in multiset(t);
    }
    if DistinctIndexes(s, n) {
      forall k | 0 <= k < |t| ensures 0 <= t[k] < n {
        assert t[k] in s;
      }
    }
    if DistinctIndexes(t, n) {
      forall k | 0 <= k < |s| ensures 0 <= s[k] < n {
        assert s[k] in t;
      }
    }
  }

  lemma PairCount(s: seq<int>, p: nat, q: nat)
    requires p < q < |s|
    ensures s[p] == s[q] ==> multiset(s)[s[q]] >= 2
  {
    assert s == s[..q] + s[q..];
    assert s[..q][p] == s[p] && s[q..][0] == s[q];
    assert multiset(s) == multiset(s[..q]) + multiset(s[q..]);
  }

  /** Sorted largest first with no repeats: strictly decreasing. */
  lemma StrictlyDescending(s: seq<int>, p: nat, q: nat)
    requires Descending(s) && (forall x :: multiset(s)[x] <= 1)
    requires p < q < |s|
    ensures s[p] > s[q]
  {
    PairCount(s, p, q);
  }

  /** The entries of `s` whose position, counting the first as `offset`, is
      not in `drop`, in their order. */
  function Keep(s: seq<Member>, drop: set<int>, offset: int): (r: seq<Member>)
    ensures |r| <= |s|
  {
    if s == [] then [] else (if offset in drop then [] else [s[0]]) + Keep(s[1..], drop, offset + 1)
  }

  /** The member list without the entries at the positions in `drop`. */
  function Without(members: seq<Member>, drop: set<int>): seq<Member>
  {
    Keep(members, drop, 0)
  }

  lemma {:induction false} KeepMembers(s: seq<Member>, drop: set<int>, offset: int, m: Member)
    ensures m in Keep(s, drop, offset) <==>
      exists k :: 0 <= k < |s| && offset + k !in drop && s[k] == m
  {
    if m in Keep(s, drop, offset) {
      var k := KeepIndex(s, drop, offset, m);
    } else {
      forall k | 0 <= k < |s| && offset + k !in drop ensures s[k] != m {
        KeepHas(s, drop, offset, k);
      }
    }
  }

  /** Where a kept entry came from. */
  lemma {:induction false} KeepIndex(s: seq<Member>, drop: set<int>, offset: int, m: Member) returns (k: nat)
    requires m in Keep(s, drop, offset)
    ensures k < |s| && offset + k !in drop && s[k] == m
    decreases |s|
  {
    var head := if offset in drop then [] else [s[0]];
    var rest := Keep(s[1..], drop, offset + 1);
    assert Keep(s, drop, offset) == head + rest;
    if m in head {
      k := 0;
    } else {
      assert m in rest;
      var j := KeepIndex(s[1..], drop, offset + 1, m);
      k := j + 1;
      assert s[1..][j] == s[k];
    }
  }

  /** An entry at a position that is not dropped is kept. */
  lemma {:induction false} KeepHas(s: seq<Member>, drop: set<int>, offset: int, k: nat)
    requires k < |s| && offset + k !in drop
    ensures s[k] in Keep(s, drop, offset)
    decreases k
  {
    var head := if offset in drop then [] else [s[0]];
    var rest := Keep(s[1..], drop, offset + 1);
    assert Keep(s, drop, offset) == head + rest;
    if k == 0 {
      assert s[0] in head;
    } else {
      KeepHas(s[1..], drop, offset + 1, k - 1);
      assert s[1..][k - 1] == s[k];
    }
  }

  /** A member survives exactly when some entry equal to it sits at a
      position that is not dropped. */
  lemma WithoutMembers(members: seq<Member>, drop: set<int>, m: Member)
    ensures m in Without(members, drop) <==>
      exists k :: 0 <= k < |members| && k !in drop && members[k] == m
  {
    KeepMembers(members, drop, 0, m);
  }

  lemma {:induction false} KeepSplit(s: seq<Member>, t: seq<Member>, drop: set<int>, offset: int)
    ensures Keep(s + t, drop, offset) == Keep(s, drop, offset) + Keep(t, drop, offset + |s|)
  {
    if s == [] {
      assert s + t == t;
    } else {
      assert (s + t)[1..] == s[1..] + t;
      KeepSplit(s[1..], t, drop, offset + 1);
    }
  }

  lemma {:induction false} KeepAll(s: seq<Member>, drop: set<int>, offset: int)
    requires forall k :: k in drop ==> k < offset || k >= offset + |s|
    ensures Keep(s, drop, offset) == s
  {
    if s != [] {
      KeepAll(s[1..], drop, offset + 1);
    }
  }

  lemma {:induction false} KeepBelow(s: seq<Member>, drop: set<int>, k: int, offset: int)
    requires k < offset
    ensures Keep(s, drop + {k}, offset) == Keep(s, drop, offset)
  {
    if s != [] {
      KeepBelow(s[1..], drop, k, offset + 1);
    }
  }

  /** Removing position `i` from a list whose dropped positions all lie above
      `i` is dropping `i` as well: the removals above did not move it. */
  lemma RemoveBelow(s: seq<Member>, drop: set<int>, i: int)
    requires 0 <= i < |s|
    requires forall k :: k in drop ==> k > i
    ensures RemoveMember(Without(s, drop), i) == Without(s, drop + {i})
  {
    WithoutAround(s, drop, i);
    WithoutAroundDropped(s, drop, i);
    var w := s[..i] + [s[i]] + Keep(s[i + 1..], drop, i + 1);
    assert w[..i] == s[..i];
    assert w[i + 1..] == Keep(s[i + 1..], drop, i + 1);
  }

  /** With only positions above `i` dropped, everything up to `i` stays. */
  lemma WithoutAround(s: seq<Member>, drop: set<int>, i: int)
    requires 0 <= i < |s|
    requires forall k :: k in drop ==> k > i
    ensures Without(s, drop) == s[..i] + [s[i]] + Keep(s[i + 1..], drop, i + 1)
  {
    var tail := s[i + 1..];
    assert s == s[..i] + ([s[i]] + tail);
    KeepSplit(s[..i], [s[i]] + tail, drop, 0);
    KeepAll(s[..i], drop, 0);
    KeepCons(s[i], tail, drop, i);
  }

  /** Dropping `i` too removes exactly the entry at `i`. */
  lemma WithoutAroundDropped(s: seq<Member>, drop: set<int>, i: int)
    requires 0 <= i < |s|
    requires forall k :: k in drop ==> k > i
    ensures Without(s, drop + {i}) == s[..i] + Keep(s[i + 1..], drop, i + 1)
  {
    var tail := s[i + 1..];
    assert s == s[..i] + ([s[i]] + tail);
    KeepSplit(s[..i], [s[i]] + tail, drop + {i}, 0);
    KeepAll(s[..i], drop + {i}, 0);
    KeepCons(s[i], tail, drop + {i}, i);
    KeepBelow(tail, drop, i, i + 1);
  }

  lemma KeepCons(x: Member, t: seq<Member>, drop: set<int>, offset: int)
    ensures Keep([x] + t, drop, offset) == (if offset in drop then [] else [x]) + Keep(t, drop, offset + 1)
  {
    assert ([x] + t)[1..] == t;
  }

  /** The next removal, at the largest position not yet removed, drops
      exactly that position from what is left. */
  lemma RemoveNext(members: seq<Member>, ixs: seq<int>, i: nat)
    requires Descending(ixs) && DistinctIndexes(ixs, |members|)
    requires i < |ixs|
    ensures RemoveMember(Without(members, Named(ixs[..i])), ixs[i]) == Without(members, Named(ixs[..i + 1]))
  {
    assert ixs[..i + 1] == ixs[..i] + [ixs[i]];
    assert Named(ixs[..i + 1]) == Named(ixs[..i]) + {ixs[i]};
    forall k | k in Named(ixs[..i]) ensures k > ixs[i] {
      var p :| 0 <= p < i && ixs[..i][p] == k;
      StrictlyDescending(ixs, p, i);
    }
    RemoveBelow(members, Named(ixs[..i]), ixs[i]);
  }

  /** Each position lies below the list length by at least as many as the
      positions sorted before it, so every removal is in range. */
  lemma {:induction false} IndexBound(n: nat, ixs: seq<int>, i: nat)
    requires Descending(ixs) && DistinctIndexes(ixs, n)
    requires i < |ixs|
    ensures 0 <= ixs[i] < n - i
  {
    if i > 0 {
      IndexBound(n, ixs, i - 1);
      StrictlyDescending(ixs, i - 1, i);
    }
  }

  lemma ReplaceTwice(g: Graph, id: Id, e: Entity, f: Entity)
    ensures g.Replace(id, e).Replace(id, f) == g.Replace(id, f)
  {
    assert g.Replace(id, e).Replace(id, f).entities == g.Replace(id, f).entities;
  }

  // ---------------------------------------------------------------- the action

  /** The relation is gone, the rest of the graph only lost entities, and
      `h` is what `actionDeleteRelation` makes of the relation once emptied
      (with `tags`): its parent loop and its member cascade. */
  ghost predicate Emptied(g: Graph, h: Graph, relationId: Id, tags: Tags)
  {
    && Deletion.DeletionOnly(g, h) && relationId !in h.entities
    && Deletion.RelationDeleted(g.Replace(relationId, Relation([], tags)), relationId, false, Ok(h))
  }

  /** The relation exists and the indexes name distinct entries of it. */
  ghost predicate RelationIndexes(g: Graph, relationId: Id, ixs: seq<int>)
  {
    relationId in g.entities && g.entities[relationId].Relation? &&
    DistinctIndexes(ixs, |g.entities[relationId].members|)
  }

  /** What is left of the relation after the first `i` sorted removals. */
  ghost predicate RemovedSoFar(g: Graph, graph: Graph, relationId: Id, members: seq<Member>, tags: Tags,
                               ixs: seq<int>, i: nat)
    requires i <= |ixs|
  {
    graph == g.Replace(relationId, Relation(Without(members, Named(ixs[..i])), tags)) &&
    |Without(members, Named(ixs[..i]))| == |members| - i
  }

  /** One `actionDeleteMember` of the loop. When the indexes are valid, the
      removal is the next position of the sorted list, and the one that
      empties the relation deletes it. */
  method RemoveNextMember(fuel: nat, ghost valid: bool, ghost g: Graph, graph: Graph, relationId: Id,
                          ghost members: seq<Member>, ghost tags: Tags, ixs: seq<int>, i: nat,
                          areaKeys: AreaKeys)
    returns (step: Result<Graph>)
    requires i < |ixs|
    requires valid ==> Descending(ixs) && DistinctIndexes(ixs, |members|) && i < |members| &&
                       relationId in g.entities && g.entities[relationId].Relation? &&
                       RemovedSoFar(g, graph, relationId, members, tags, ixs, i)
    ensures relationId !in graph.entities ==> step == Err(NotFound(relationId))
    ensures relationId in graph.entities && !graph.entities[relationId].Relation? ==> step == Err(TypeError)
    ensures (valid && i + 1 < |members|) ==>
      step.Ok? && RemovedSoFar(g, step.value, relationId, members, tags, ixs, i + 1)
    ensures (valid && i + 1 == |members| && step.Ok?) ==>
      Emptied(g, step.value, relationId, tags)
  {
    if valid {
      var left := Without(members, Named(ixs[..i]));
      IndexBound(|members|, ixs, i);
      RemoveNext(members, ixs, i);
      ReplaceTwice(g, relationId, Relation(left, tags), Relation(RemoveMember(left, ixs[i]), tags));
      Deletion.ReplaceKeeps(g, g, relationId, Relation(left, tags));
    }
    step := DeleteMember.Apply(fuel, graph, relationId, ixs[i], areaKeys);
    if valid && i + 1 == |members| && step.Ok? {
      Deletion.DeletionOnlyTrans(g, graph, step.value);
    }
  }

  /** The loop over the sorted indexes, one `actionDeleteMember` each. */
  method RemoveSorted(fuel: nat, g: Graph, relationId: Id, ixs: seq<int>, areaKeys: AreaKeys)
    returns (r: Result<Graph>)
    requires Descending(ixs)
    ensures |ixs| == 0 ==> r == Ok(g)
    ensures |ixs| > 0 && relationId !in g.entities ==> r == Err(NotFound(relationId))
    ensures (|ixs| > 0 && relationId in g.entities && !g.entities[relationId].Relation?) ==>
      r == Err(TypeError)
    // some entries kept: exactly the named ones are gone, the rest keep their order
    ensures (RelationIndexes(g, relationId, ixs) && |ixs| < |g.entities[relationId].members|) ==>
      r == Ok(g.Replace(relationId,
        Relation(Without(g.entities[relationId].members, Named(ixs)), g.entities[relationId].tags)))
    // every entry named: the emptied relation is deleted
    ensures (RelationIndexes(g, relationId, ixs) && |ixs| == |g.entities[relationId].members| > 0 &&
             r.Ok?) ==>
      Emptied(g, r.value, relationId, g.entities[relationId].tags)
  {
    ghost var valid := RelationIndexes(g, relationId, ixs);
    ghost var members := if valid then g.entities[relationId].members else [];
    ghost var tags := if valid then g.entities[relationId].tags else map[];
    if valid {
      assert Named(ixs[..0]) == {};
      KeepAll(members, {}, 0);
      assert RemovedSoFar(g, g, relationId, members, tags, ixs, 0);
    }
    if |ixs| == 0 {
      return Ok(g);
    }
    var first := RemoveNextMember(fuel, valid, g, g, relationId, members, tags, ixs, 0, areaKeys);
    if first.Err? {
      return first;
    }
    r := RemoveRest(fuel, valid, g, first.value, relationId, members, tags, ixs, 1, areaKeys);
    assert ixs[..|ixs|] == ixs;
  }

  /** The removals after the first `i0`, which have left the relation as
      the invariant describes. */
  method RemoveRest(fuel: nat, ghost valid: bool, ghost g: Graph, graph0: Graph, relationId: Id,
                    ghost members: seq<Member>, ghost tags: Tags, ixs: seq<int>, i0: nat,
                    areaKeys: AreaKeys)
    returns (r: Result<Graph>)
    requires 1 <= i0 <= |ixs|
    requires relationId in g.entities && g.entities[relationId].Relation?
    requires valid ==> Descending(ixs) && DistinctIndexes(ixs, |members|)
    requires valid && i0 < |members| ==> RemovedSoFar(g, graph0, relationId, members, tags, ixs, i0)
    requires valid && i0 == |members| ==> Emptied(g, graph0, relationId, tags)
    ensures valid && |ixs| < |members| ==> r.Ok? && RemovedSoFar(g, r.value, relationId, members, tags, ixs, |ixs|)
    ensures valid && |ixs| == |members| && r.Ok? ==> Emptied(g, r.value, relationId, tags)
  {
    var graph := graph0;
    var i := i0;
    while i < |ixs|
      invariant i0 <= i <= |ixs|
      invariant valid && i < |members| ==> RemovedSoFar(g, graph, relationId, members, tags, ixs, i)
      invariant valid && i == |members| ==> Emptied(g, graph, relationId, tags)
    {
      if valid {
        IndexBound(|members|, ixs, i);
      }
      var step := RemoveNextMember(fuel, valid, g, graph, relationId, members, tags, ixs, i, areaKeys);
      if step.Err? {
        return step;
      }
      graph := step.value;
      i := i + 1;
    }
    return Ok(graph);
  }

  method Apply(fuel: nat, g: Graph, relationId: Id, memberIndexes: array<int>, areaKeys: AreaKeys)
    returns (r: Result<Graph>)
    modifies memberIndexes
    ensures Descending(memberIndexes[..])
    ensures multiset(memberIndexes[..]) == multiset(old(memberIndexes[..]))
    ensures memberIndexes.Length == 0 ==> r == Ok(g)
    ensures memberIndexes.Length > 0 && relationId !in g.entities ==> r == Err(NotFound(relationId))
    ensures (memberIndexes.Length > 0 && relationId in g.entities &&
             !g.entities[relationId].Relation?) ==> r == Err(TypeError)
    ensures (RelationIndexes(g, relationId, old(memberIndexes[..])) &&
             memberIndexes.Length < |g.entities[relationId].members|) ==>
      r == Ok(g.Replace(relationId,
        Relation(Without(g.entities[relationId].members, Named(old(memberIndexes[..]))),
                 g.entities[relationId].tags)))
    ensures (RelationIndexes(g, relationId, old(memberIndexes[..])) &&
             memberIndexes.Length == |g.entities[relationId].members| > 0 && r.Ok?) ==>
      Emptied(g, r.value, relationId, g.entities[relationId].tags)
  {
    SortDescending(memberIndexes);
    var ixs := memberIndexes[..];
    SameIndexes(ixs, old(memberIndexes[..]), if relationId in g.entities && g.entities[relationId].Relation?
      then |g.entities[relationId].members| else 0);
    r := RemoveSorted(fuel, g, relationId, ixs, areaKeys);
  }
}
