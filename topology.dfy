/** Node numbering of `add_element`: endpoints are matched against the
    endpoints of earlier elements by exact coordinate equality. */
module Topology {
  import opened Options
  import opened Elements

  /** Endpoint `second` (false: point 1, true: point 2) of an element and its node ID. */
  function EndPoint(e: Element, second: bool): Point {
    if second then e.point2 else e.point1
  }

  function EndNode(e: Element, second: bool): int {
    if second then e.nodeId2 else e.nodeId1
  }

  /** The node ID the scan over the earlier elements settles on for point p.
      The scan has no break, so the last element touching p wins; within one
      element point 1 is compared before point 2. */
  function LastMatch(els: seq<Element>, p: Point): (r: Option<int>)
    ensures r.None? ==> forall i :: 0 <= i < |els| ==> !Touches(els[i], p)
    decreases |els|
  {
    if |els| == 0 then None
    else
      var e := els[|els| - 1];
      if e.point1 == p then Some(e.nodeId1)
      else if e.point2 == p then Some(e.nodeId2)
      else LastMatch(els[..|els| - 1], p)
  }

  predicate Touches(e: Element, p: Point) {
    e.point1 == p || e.point2 == p
  }

  /** No earlier element touches p exactly when the scan finds nothing. */
  lemma {:induction false} LastMatchNone(els: seq<Element>, p: Point)
    ensures LastMatch(els, p).None? <==> forall i :: 0 <= i < |els| ==> !Touches(els[i], p)
    decreases |els|
  {
    if |els| > 0 {
      var els' := els[..|els| - 1];
      LastMatchNone(els', p);
      if LastMatch(els, p).None? {
        forall i | 0 <= i < |els| ensures !Touches(els[i], p) {
          if i < |els| - 1 {
            assert els[i] == els'[i];
          }
        }
      }
      if forall i :: 0 <= i < |els| ==> !Touches(els[i], p) {
        forall i | 0 <= i < |els'| ensures !Touches(els'[i], p) {
          assert els'[i] == els[i];
        }
      }
    }
  }

  /** The scan returns the ID of the last element that touches p: its node 1
      when point 1 is p, its node 2 otherwise. */
  lemma {:induction false} LastMatchLast(els: seq<Element>, p: Point, i: nat)
    requires i < |els| && Touches(els[i], p)
    requires forall j :: i < j < |els| ==> !Touches(els[j], p)
    ensures LastMatch(els, p) == Some(if els[i].point1 == p then els[i].nodeId1 else els[i].nodeId2)
    decreases |els|
  {
    if i < |els| - 1 {
      var els' := els[..|els| - 1];
      assert !Touches(els[|els| - 1], p);
      assert els'[i] == els[i];
      forall j | i < j < |els'| ensures !Touches(els'[j], p) {
        assert els'[j] == els[j];
      }
      LastMatchLast(els', p, i);
    }
  }

  /** A found ID belongs to an endpoint at p. */
  lemma {:induction false} LastMatchSound(els: seq<Element>, p: Point)
    requires LastMatch(els, p).Some?
    ensures exists i, second :: 0 <= i < |els| && EndPoint(els[i], second) == p
                               && EndNode(els[i], second) == LastMatch(els, p).value
    decreases |els|
  {
    var e := els[|els| - 1];
    if e.point1 == p {
      assert EndPoint(els[|els| - 1], false) == p;
    } else if e.point2 == p {
      assert EndPoint(els[|els| - 1], true) == p;
    } else {
      var els' := els[..|els| - 1];
      LastMatchSound(els', p);
      var i, second :| 0 <= i < |els'| && EndPoint(els'[i], second) == p
                       && EndNode(els'[i], second) == LastMatch(els', p).value;
      assert els'[i] == els[i];
    }
  }

  /** Every node ID in use lies in 1 .. maxId. */
  predicate IdsBelow(els: seq<Element>, maxId: int) {
    forall i :: 0 <= i < |els| ==> 1 <= els[i].nodeId1 <= maxId && 1 <= els[i].nodeId2 <= maxId
  }

  /** Two endpoints share a node ID exactly when they are the same point. */
  predicate ConsistentIds(els: seq<Element>) {
    forall i, j, s, t {:trigger Agree(els[i], s, els[j], t)} :: 0 <= i < |els| && 0 <= j < |els| ==>
      Agree(els[i], s, els[j], t)
  }

  predicate Agree(a: Element, s: bool, b: Element, t: bool) {
    EndPoint(a, s) == EndPoint(b, t) <==> EndNode(a, s) == EndNode(b, t)
  }

  /** The node IDs and new `max_node_id` that `add_element` settles on. */
  datatype Assignment = Assignment(id1: int, id2: int, maxId: int)

  function AssignIds(els: seq<Element>, maxId: int, p1: Point, p2: Point): (a: Assignment)
    ensures maxId <= a.maxId <= maxId + 2
  {
    if |els| == 0 then Assignment(1, 2, maxId)
    else
      var m1 := LastMatch(els, p1);
      var max1 := if m1.None? then maxId + 1 else maxId;
      var m2 := LastMatch(els, p2);
      var max2 := if m2.None? then max1 + 1 else max1;
      Assignment(if m1.Some? then m1.value else max1, if m2.Some? then m2.value else max2, max2)
  }

  /** The first element gets nodes 1 and 2 and leaves `max_node_id` at its
      initial value. `max_node_id` only grows; all IDs stay in 1 .. new max; an endpoint no
      earlier element touches gets an ID above every earlier ID, and one that
      is touched takes the ID of the last element touching it. */
  lemma {:induction false} AssignIdsFresh(els: seq<Element>, maxId: int, p1: Point, p2: Point)
    requires IdsBelow(els, maxId) && 2 <= maxId
    ensures |els| == 0 ==> AssignIds(els, maxId, p1, p2) == Assignment(1, 2, maxId)
    ensures var a := AssignIds(els, maxId, p1, p2);
      && maxId <= a.maxId <= maxId + 2
      && 1 <= a.id1 <= a.maxId && 1 <= a.id2 <= a.maxId
    ensures var a := AssignIds(els, maxId, p1, p2);
      forall i :: 0 <= i < |els| && LastMatch(els, p1).None? ==>
        a.id1 > els[i].nodeId1 && a.id1 > els[i].nodeId2
    ensures var a := AssignIds(els, maxId, p1, p2);
      forall i :: 0 <= i < |els| && LastMatch(els, p2).None? ==>
        a.id2 > els[i].nodeId1 && a.id2 > els[i].nodeId2
    ensures IdsBelow(els, AssignIds(els, maxId, p1, p2).maxId)
  {
    var a := AssignIds(els, maxId, p1, p2);
    if |els| > 0 {
      var m1, m2 := LastMatch(els, p1), LastMatch(els, p2);
      if m1.Some? {
        LastMatchSound(els, p1);
      }
      if m2.Some? {
        LastMatchSound(els, p2);
      }
    }
  }

  lemma {:induction false} NewEndpointConsistent(els: seq<Element>, maxId: int, p: Point, id: int, j: nat, t: bool)
    requires ConsistentIds(els) && IdsBelow(els, maxId) && j < |els|
    requires if LastMatch(els, p).Some? then id == LastMatch(els, p).value else id > maxId
    ensures EndPoint(els[j], t) == p <==> EndNode(els[j], t) == id
  {
    if LastMatch(els, p).Some? {
      LastMatchSound(els, p);
      var i, s :| 0 <= i < |els| && EndPoint(els[i], s) == p && EndNode(els[i], s) == LastMatch(els, p).value;
      assert Agree(els[j], t, els[i], s);
    } else {
      LastMatchNone(els, p);
    }
  }

  /** `add_element` keeps the numbering consistent: with the new element
      appended, two endpoints still share a node ID exactly when they are the
      same point (so an element meeting an earlier one at an exact endpoint
      shares its node), and all IDs stay within the new `max_node_id`. */
  lemma {:induction false} AssignKeepsConsistent(els: seq<Element>, maxId: int, p1: Point, p2: Point, e: Element)
    requires ConsistentIds(els) && IdsBelow(els, maxId) && 2 <= maxId && p1 != p2
    requires e.point1 == p1 && e.point2 == p2
    requires e.nodeId1 == AssignIds(els, maxId, p1, p2).id1 && e.nodeId2 == AssignIds(els, maxId, p1, p2).id2
    ensures ConsistentIds(els + [e]) && IdsBelow(els + [e], AssignIds(els, maxId, p1, p2).maxId)
  {
    var a := AssignIds(els, maxId, p1, p2);
    var all := els + [e];
    var n := |els|;
    AssignIdsFresh(els, maxId, p1, p2);
    assert e.nodeId1 != e.nodeId2 by {
      if n > 0 {
        if LastMatch(els, p1).Some? {
          LastMatchSound(els, p1);
          var i, s :| 0 <= i < n && EndPoint(els[i], s) == p1 && EndNode(els[i], s) == a.id1;
          if LastMatch(els, p2).Some? {
            LastMatchSound(els, p2);
            var j, t :| 0 <= j < n && EndPoint(els[j], t) == p2 && EndNode(els[j], t) == a.id2;
            assert Agree(els[i], s, els[j], t);
          }
        } else if LastMatch(els, p2).Some? {
          LastMatchSound(els, p2);
        }
      }
    }
    forall i, j, s, t | 0 <= i < |all| && 0 <= j < |all|
      ensures Agree(all[i], s, all[j], t)
    {
      if i < n && j < n {
        assert all[i] == els[i] && all[j] == els[j];
        assert Agree(els[i], s, els[j], t);
      } else if i < n {
        assert all[i] == els[i];
        var id := if t then a.id2 else a.id1;
        NewEndpointConsistent(els, maxId, EndPoint(e, t), id, i, s);
      } else if j < n {
        assert all[j] == els[j];
        var id := if s then a.id2 else a.id1;
        NewEndpointConsistent(els, maxId, EndPoint(e, s), id, j, t);
      }
    }
  }

  /** The list 1, 2, ..., n. */
  function NodeRange(n: nat): (r: seq<int>)
    ensures |r| == n && forall i :: 0 <= i < n ==> r[i] == i + 1
  {
    seq(n, i => i + 1)
  }

  lemma {:induction false} NodeRangeMembers(n: nat)
    ensures forall x :: x in NodeRange(n) <==> 1 <= x <= n
  {
    forall x | 1 <= x <= n ensures x in NodeRange(n) {
      assert NodeRange(n)[x - 1] == x;
    }
  }

  /** The system node list after `add_element`: nodeID1, then nodeID2, each
      appended when the list did not hold it before. */
  function Appended(ids: seq<int>, id1: int, id2: int): (r: seq<int>)
    ensures ids <= r && id1 in r && id2 in r && |r| <= |ids| + 2
  {
    ids + (if id1 in ids then [] else [id1]) + (if id2 in ids then [] else [id2])
  }

  predicate Distinct(s: seq<int>) {
    forall i, j :: 0 <= i < j < |s| ==> s[i] != s[j]
  }

  /** The appended list holds both IDs, keeps the old list as a prefix, and
      has no duplicates when the old list had none and the IDs differ. */
  lemma {:induction false} AppendedProperties(ids: seq<int>, id1: int, id2: int)
    requires Distinct(ids) && id1 != id2
    ensures id1 in Appended(ids, id1, id2) && id2 in Appended(ids, id1, id2)
    ensures ids <= Appended(ids, id1, id2)
    ensures Distinct(Appended(ids, id1, id2))
  {
    var r := Appended(ids, id1, id2);
    assert id1 in r by {
      if id1 !in ids {
        assert r[|ids|] == id1;
      }
    }
    assert r[..|ids|] == ids;
  }

  /** Once an element exists the system node list is exactly 1 .. max_node_id:
      reused IDs are already in it and fresh ones arrive in increasing order. */
  lemma {:induction false} AppendedRange(els: seq<Element>, maxId: int, p1: Point, p2: Point, ids: seq<int>)
    requires IdsBelow(els, maxId) && 2 <= maxId
    requires if |els| == 0 then ids == [] && maxId == 2 else ids == NodeRange(maxId)
    ensures var a := AssignIds(els, maxId, p1, p2);
      a.maxId >= 2 && Appended(ids, a.id1, a.id2) == NodeRange(a.maxId)
  {
    var a := AssignIds(els, maxId, p1, p2);
    AssignIdsFresh(els, maxId, p1, p2);
    if |els| == 0 {
      assert Appended(ids, a.id1, a.id2) == [1, 2];
    } else {
      var max1 := if LastMatch(els, p1).None? then maxId + 1 else maxId;
      var ids1 := ids + (if a.id1 in ids then [] else [a.id1]);
      NodeRangeMembers(maxId);
      NodeRangeMembers(max1);
      if LastMatch(els, p1).Some? {
        LastMatchSound(els, p1);
      }
      if LastMatch(els, p2).Some? {
        LastMatchSound(els, p2);
      }
      assert ids1 == NodeRange(max1);
      assert a.id2 in ids <==> a.id2 in ids1;
    }
  }
}
