/** Entity identifiers, ordered sequences of identifier sets, and minting of
    fresh identifiers. */
module Ids {

  type Id = nat

  /** Strictly ascending: the fixed order in which derived parent lists are
      returned. */
  predicate Increasing(s: seq<Id>)
  {
    forall i, j :: 0 <= i < j < |s| ==> s[i] < s[j]
  }

  /** A smallest element of a non-empty set, found by removing one element
      at a time. */
  lemma MinOf(s: set<Id>) returns (m: Id)
    requires s != {}
    ensures m in s && forall x :: x in s ==> m <= x
    decreases |s|
  {
    var y :| y in s;
    if s == {y} {
      m := y;
    } else {
      var m0 := MinOf(s - {y});
      m := if y < m0 then y else m0;
      forall x | x in s ensures m <= x {
        if x != y { assert x in s - {y}; }
      }
    }
  }

  lemma MinExists(s: set<Id>)
    requires s != {}
    ensures exists m :: m in s && forall x :: x in s ==> m <= x
  {
    var m := MinOf(s);
  }

  function Min(s: set<Id>): (m: Id)
    requires s != {}
    ensures m in s && forall x :: x in s ==> m <= x
  {
    MinExists(s);
    var m :| m in s && forall x :: x in s ==> m <= x; m
  }

  /** The elements of `s` in ascending order. */
  function Sorted(s: set<Id>): (r: seq<Id>)
    ensures forall x :: x in r <==> x in s
    ensures Increasing(r)
    decreases |s|
  {
    if s == {} then []
    else
      var m := Min(s);
      var rest := Sorted(s - {m});
      assert forall k :: 0 <= k < |rest| ==> m < rest[k] by {
        forall k | 0 <= k < |rest| ensures m < rest[k] { assert rest[k] in s - {m}; }
      }
      [m] + rest
  }

  /** The identifier oracle: one more than the largest identifier in use. */
  function FreshId(used: set<Id>): (r: Id)
    ensures r !in used
  {
    var s := Sorted(used);
    if s == [] then 0
    else
      assert forall x :: x in used ==> x <= s[|s| - 1] by {
        forall x | x in used ensures x <= s[|s| - 1] {
          var k :| 0 <= k < |s| && s[k] == x;
        }
      }
      s[|s| - 1] + 1
  }
}
