/** The fixed-end forces `q_load` derives from a uniform load q on an element. */
module Loads {
  import opened Matrices
  import opened Conditions

  /** The two fixed-end moments and the two end reactions (each end gets the
      same reaction) of a uniformly loaded element. */
  datatype FixedEnd = FixedEnd(leftMoment: real, rightMoment: real, reactionX: real, reactionZ: real)

  /** q_load's formulas, for load q with direction +1 (towards the element) or
      -1 (away from it) on an element of length l with sin and cos of its angle.
      The two end reactions together carry the whole load q * l (times
      direction), resolved along the sine and cosine of the element angle. */
  function FixedEndOf(q: real, direction: real, l: real, sinAlpha: real, cosAlpha: real): (f: FixedEnd)
    ensures f.reactionX + f.reactionX == q * l * direction * sinAlpha
    ensures f.reactionZ + f.reactionZ == q * l * direction * cosAlpha
  {
    FixedEnd(1.0 / 12.0 * q * (l * l) * direction,
             -1.0 / 12.0 * q * (l * l) * direction,
             0.5 * q * l * direction * sinAlpha,
             0.5 * q * l * direction * cosAlpha)
  }

  /** What `q_load` adds to the element primary force vector, index by index. */
  /** Both ends receive the same reactions. */
  function PrimaryIncrement(f: FixedEnd): (v: Vector)
    ensures |v| == 6 && v[0] == v[3] && v[1] == v[4]
  {
    [-f.reactionX, -f.reactionZ, f.leftMoment, -f.reactionX, -f.reactionZ, f.rightMoment]
  }

  /** The list `q_load` hands to `set_force_vector`. */
  /** Each end node gets one force in each of the three directions: the
      entries come in pairs, node 1 then node 2, for the rotation, z and x. */
  function SystemEntries(f: FixedEnd, node1: int, node2: int): (es: seq<ForceEntry>)
    ensures |es| == 6
    ensures forall k :: 0 <= k < 6 ==>
      es[k].node == (if k % 2 == 0 then node1 else node2) && es[k].direction == 3 - k / 2
  {
    [ForceEntry(node1, 3, -f.leftMoment), ForceEntry(node2, 3, -f.rightMoment),
     ForceEntry(node1, 2, f.reactionZ), ForceEntry(node2, 2, f.reactionZ),
     ForceEntry(node1, 1, f.reactionX), ForceEntry(node2, 1, f.reactionX)]
  }

  /** The order in which `q_load` updates the primary vector: the k-th system
      entry belongs to local index PrimaryOrder[k]. */
  const PrimaryOrder: seq<nat> := [2, 5, 1, 4, 0, 3]

  /** The two fixed-end moments cancel, and each primary contribution is the
      exact negation of the system force placed at the same end and direction
      (local index i is node 1 for i < 3, node 2 otherwise, direction i % 3 + 1). */
  lemma {:induction false} FixedEndBalance(q: real, direction: real, l: real, sinAlpha: real, cosAlpha: real, node1: int, node2: int)
    ensures var f := FixedEndOf(q, direction, l, sinAlpha, cosAlpha);
      f.rightMoment == -f.leftMoment
    ensures var f := FixedEndOf(q, direction, l, sinAlpha, cosAlpha);
      var es := SystemEntries(f, node1, node2);
      forall k :: 0 <= k < 6 ==>
        && PrimaryIncrement(f)[PrimaryOrder[k]] == -es[k].magnitude
        && es[k].node == (if PrimaryOrder[k] < 3 then node1 else node2)
        && es[k].direction == PrimaryOrder[k] % 3 + 1
  {
    var m := 1.0 / 12.0 * q * (l * l) * direction;
    assert -1.0 / 12.0 * q * (l * l) * direction == -m;
  }

  /** Every entry `q_load` hands on falls inside the vector when both end
      nodes do. */
  lemma {:induction false} SystemEntriesFit(f: FixedEnd, node1: int, node2: int, n: nat)
    requires NodeFits(node1, n) && NodeFits(node2, n)
    ensures ForcesFit(SystemEntries(f, node1, node2), n)
  {
  }
}
