/** `SystemElements`: the frame as a whole. Elements are added one by one; the
    global matrix is assembled from their stiffness matrices; loads and
    supports fill the force and displacement vectors; the known displacements
    are condensed out, and a solution of the reduced system is spread back to
    the elements. */
module System {
  import opened Options
  import opened Matrices
  import opened Elements
  import opened Topology
  import opened Assembly
  import opened Conditions
  import opened Loads

  /** The stiffness matrices of the elements, in order. */
  function Stiffnesses(els: seq<Element>): (ks: seq<Matrix>)
    ensures |ks| == |els| && forall e :: 0 <= e < |els| ==> ks[e] == els[e].stiffness
  {
    seq(|els|, e requires 0 <= e < |els| => els[e].stiffness)
  }

  /** Element x is well formed and carries the ID `id`. */
  ghost predicate ElementValid(x: Element, id: int)
    reads x
  {
    x.Valid() && x.id == id && x.l > 0.0 && AngleOf(x.point1, x.point2, x.alpha, x.cosAlpha, x.sinAlpha)
  }

  /** The elements are well formed, numbered 1, 2, ... in order, each once. */
  ghost predicate ElementsValid(els: seq<Element>)
    reads els
  {
    && (forall e :: 0 <= e < |els| ==> ElementValid(els[e], e + 1))
    && (forall e, f :: 0 <= e < f < |els| ==> els[e] != els[f])
  }

  lemma {:induction false} ElementsAppend(els: seq<Element>, x: Element)
    requires ElementsValid(els) && ElementValid(x, |els| + 1) && x !in els
    ensures ElementsValid(els + [x])
  {
  }

  /** Every location block lies inside a global matrix of size n. */
  predicate LocationsFit(locs: seq<seq<seq<Location>>>, n: nat) {
    forall e :: 0 <= e < |locs| ==> IsBlock(locs[e], n)
  }

  lemma {:induction false} LocationsAppend(locs: seq<seq<seq<Location>>>, n: nat, start: int, m: nat)
    requires LocationsFit(locs, n) && n <= m && 1 <= start && start + 5 <= m
    ensures LocationsFit(locs + [LocationBlock(start)], m)
  {
  }

  class SystemElements {
    var nodeIds: seq<int>
    var maxNodeId: nat
    var elements: seq<Element>
    var count: int
    var systemMatrixLocations: seq<seq<seq<Location>>>
    var systemMatrix: Option<Matrix>
    var systemForceVector: Option<Vector>
    /** None entries stand for numpy's NaN: a displacement not known. */
    var systemDisplacementVector: Option<seq<Option<real>>>
    var shapeSystemMatrix: Option<nat>
    var reducedForceVector: Option<Vector>
    var reducedSystemMatrix: Option<Matrix>
    var removedIndexes: seq<int>
    var remainderIndexes: seq<int>

    /** The size of the assembled matrix, 0 before assembly. */
    function Shape(): nat
      reads this
    {
      if shapeSystemMatrix.Some? then shapeSystemMatrix.value else 0
    }

    /** The force vector `set_force_vector` starts from. */
    function ForceBase(): Vector
      reads this
    {
      if systemForceVector.Some? then systemForceVector.value else Zeros(3 * maxNodeId)
    }

    /** The displacement vector `set_displacement_vector` starts from. */
    function DisplacementBase(): seq<Option<real>>
      reads this
    {
      if systemDisplacementVector.Some? then systemDisplacementVector.value else Unknowns(3 * maxNodeId)
    }

    ghost predicate Valid()
      reads this, elements
    {
      NodeNumbering() && MatrixFits()
    }

    /** The elements, their node IDs and their location blocks fit together. */
    ghost predicate NodeNumbering()
      reads this`count, this`elements, this`maxNodeId, this`nodeIds, this`systemMatrixLocations, elements
    {
      && count == |elements| && ElementsValid(elements)
      && 2 <= maxNodeId && IdsBelow(elements, maxNodeId) && ConsistentIds(elements)
      && (if |elements| == 0 then nodeIds == [] && maxNodeId == 2 else nodeIds == NodeRange(maxNodeId))
      && |systemMatrixLocations| == |elements| && LocationsFit(systemMatrixLocations, 3 * |nodeIds|)
    }

    /** The assembled matrix, when there is one, is square of the recorded
        shape, which the node list covers; the index lists point into it. */
    ghost predicate MatrixFits()
      reads this
    {
      && (shapeSystemMatrix.Some? <==> systemMatrix.Some?)
      && (shapeSystemMatrix.Some? ==>
            shapeSystemMatrix.value <= 3 * |nodeIds| && IsMatrix(systemMatrix.value, Shape(), Shape()))
      && IndicesBelow(removedIndexes, Shape()) && IndicesBelow(remainderIndexes, Shape())
    }

    constructor ()
      ensures Valid()
      ensures nodeIds == [] && maxNodeId == 2 && elements == [] && count == 0 && systemMatrixLocations == []
      ensures systemMatrix == None && systemForceVector == None && systemDisplacementVector == None
      ensures shapeSystemMatrix == None && reducedForceVector == None && reducedSystemMatrix == None
      ensures removedIndexes == [] && remainderIndexes == []
    {
      nodeIds := [];
      maxNodeId := 2;
      elements := [];
      count := 0;
      systemMatrixLocations := [];
      systemMatrix := None;
      systemForceVector := None;
      systemDisplacementVector := None;
      shapeSystemMatrix := None;
      reducedForceVector := None;
      reducedSystemMatrix := None;
      removedIndexes := [];
      remainderIndexes := [];
    }

    /** `add_element` for the element from p1 to p2. Its length l and its
        angle alpha with cosine and sine come in as parameters. */
    method AddElement(p1: Point, p2: Point, ea: real, ei: real,
                      l: real, alpha: real, cosAlpha: real, sinAlpha: real)
      requires Valid()
      requires l > 0.0 && IsLength(l, p1, p2) && AngleOf(p1, p2, alpha, cosAlpha, sinAlpha)
      modifies this`count, this`maxNodeId, this`nodeIds, this`elements, this`systemMatrixLocations
      ensures Valid()
      ensures count == old(count) + 1
      ensures |elements| == |old(elements)| + 1 && elements[..|old(elements)|] == old(elements)
      ensures var e := elements[|elements| - 1];
        var a := AssignIds(old(elements), old(maxNodeId), p1, p2);
        && fresh(e) && e.Initial()
        && e.HasData(count, ea, ei, l, alpha, cosAlpha, sinAlpha, p1, p2, a.id1, a.id2)
      ensures var a := AssignIds(old(elements), old(maxNodeId), p1, p2);
        && maxNodeId == a.maxId
        && nodeIds == Appended(old(nodeIds), a.id1, a.id2)
      ensures |nodeIds| >= 2 && nodeIds[|nodeIds| - 2] == maxNodeId - 1
      ensures systemMatrixLocations
           == old(systemMatrixLocations) + [LocationBlock((nodeIds[|nodeIds| - 2] - 1) * 3 + 1)]
    {
      LengthSeparates(l, p1, p2);
      var nodeId1, nodeId2, newMax := FindNodeIds(elements, maxNodeId, p1, p2);
      var newIds := AppendNodeIds(nodeIds, nodeId1, nodeId2);
      var element := new Element(count + 1, ea, ei, l, alpha, cosAlpha, sinAlpha, p1, p2, nodeId1, nodeId2);
      AssignKeepsConsistent(elements, maxNodeId, p1, p2, element);
      AppendedRange(elements, maxNodeId, p1, p2, nodeIds);
      var start := (newIds[|newIds| - 2] - 1) * 3 + 1;
      var block := LocationBlockOf(element, start);
      Record(element, newMax, newIds, block, start);
      assert elements[|elements| - 1] == element;
    }

    /** `assemble_system_matrix`: a zero matrix of size 3 |node_ids| into
        which every element stiffness entry is added at its recorded
        location; the returned flag is the symmetry test. */
    method AssembleSystemMatrix() returns (symmetric: bool)
      requires Valid()
      modifies this`shapeSystemMatrix, this`systemMatrix
      ensures Valid()
      ensures shapeSystemMatrix == Some(3 * |nodeIds|)
      ensures AllShaped(systemMatrixLocations, Stiffnesses(elements))
      ensures systemMatrix == Some(Assembled(systemMatrixLocations, Stiffnesses(elements), 3 * |nodeIds|))
      ensures symmetric
    {
      var shape := |nodeIds| * 3;
      ValidBlocks(systemMatrixLocations, elements, shape);
      shapeSystemMatrix := Some(shape);
      var m := AssembleBlocks(systemMatrixLocations, Stiffnesses(elements), shape);
      systemMatrix := Some(m);
      symmetric := Symmetric(m);
      AssembledSymmetric(systemMatrixLocations, Stiffnesses(elements), shape);
    }

    /** `set_force_vector`: the force vector (zeros of length
        3 max_node_id on first use) with every listed force added in. */
    method SetForceVector(forces: seq<ForceEntry>) returns (v: Vector)
      requires Valid() && ForcesFit(forces, |ForceBase()|)
      modifies this`systemForceVector
      ensures Valid()
      ensures v == Accumulate(old(ForceBase()), forces) && systemForceVector == Some(v)
    {
      if systemForceVector.None? {
        systemForceVector := Some(Zeros(maxNodeId * 3));
      }
      v := AddForces(systemForceVector.value, forces);
      systemForceVector := Some(v);
    }

    /** `set_displacement_vector`: the displacement vector (all unknown, of
        length 3 max_node_id on first use) with every listed DOF known 0. */
    method SetDisplacementVector(dofs: seq<Dof>) returns (v: seq<Option<real>>)
      requires Valid() && DofsFit(dofs, |DisplacementBase()|)
      modifies this`systemDisplacementVector
      ensures Valid()
      ensures v == MarkKnown(old(DisplacementBase()), dofs) && systemDisplacementVector == Some(v)
    {
      if systemDisplacementVector.None? {
        systemDisplacementVector := Some(Unknowns(maxNodeId * 3));
      }
      v := MarkDofs(systemDisplacementVector.value, dofs);
      systemDisplacementVector := Some(v);
    }

    /** `add_support_hinged`: x and z of the node are held. */
    method AddSupportHinged(nodeId: int)
      requires Valid() && DofsFit(HingedDofs(nodeId), |DisplacementBase()|)
      modifies this`systemDisplacementVector
      ensures Valid()
      ensures systemDisplacementVector == Some(MarkKnown(old(DisplacementBase()), HingedDofs(nodeId)))
    {
      var _ := SetDisplacementVector([Dof(nodeId, 1), Dof(nodeId, 2)]);
    }

    /** `add_support_roll`: the one given direction (x = 1, z = 2; 2 by
        default in the source) of the node is held. */
    method AddSupportRoll(nodeId: int, direction: int)
      requires Valid() && DofsFit(RollDofs(nodeId, direction), |DisplacementBase()|)
      modifies this`systemDisplacementVector
      ensures Valid()
      ensures systemDisplacementVector == Some(MarkKnown(old(DisplacementBase()), RollDofs(nodeId, direction)))
    {
      var _ := SetDisplacementVector([Dof(nodeId, direction)]);
    }

    /** `add_support_fixed`: x, z and the rotation of the node are held. */
    method AddSupportFixed(nodeId: int)
      requires Valid() && DofsFit(FixedDofs(nodeId), |DisplacementBase()|)
      modifies this`systemDisplacementVector
      ensures Valid()
      ensures systemDisplacementVector == Some(MarkKnown(old(DisplacementBase()), FixedDofs(nodeId)))
    {
      var _ := SetDisplacementVector([Dof(nodeId, 1), Dof(nodeId, 2), Dof(nodeId, 3)]);
    }

    /** `point_load`: without a node nothing is registered; the result is the
        force vector as it then stands (None if never set). */
    method PointLoad(fx: real, fz: real, nodeId: Option<int>) returns (r: Option<Vector>)
      requires Valid()
      requires nodeId.Some? ==> ForcesFit(PointLoadEntries(fx, fz, nodeId.value), |ForceBase()|)
      modifies this`systemForceVector
      ensures Valid() && r == systemForceVector
      ensures nodeId.None? ==> systemForceVector == old(systemForceVector)
      ensures nodeId.Some? ==>
        systemForceVector == Some(Accumulate(old(ForceBase()), PointLoadEntries(fx, fz, nodeId.value)))
    {
      if nodeId.Some? {
        var _ := SetForceVector([ForceEntry(nodeId.value, 1, fx), ForceEntry(nodeId.value, 2, fz)]);
      }
      r := systemForceVector;
    }

    /** `q_load`: a uniform load q (direction +1 towards the element, -1
        away from it) on the element with the given ID. Its fixed-end forces
        join the element primary force vector, and their negations the system
        force vector. The source fails on an unknown ID; here the result is
        then None and nothing changes. */
    method QLoad(elementId: int, q: real, direction: real) returns (r: Option<Vector>)
      requires Valid()
      requires 1 <= elementId <= |elements| ==>
        && NodeFits(elements[elementId - 1].nodeId1, |ForceBase()|)
        && NodeFits(elements[elementId - 1].nodeId2, |ForceBase()|)
      modifies this`systemForceVector, elements
      ensures Valid()
      ensures !(1 <= elementId <= |elements|) ==>
        && r == None && systemForceVector == old(systemForceVector)
        && forall e :: 0 <= e < |elements| ==> unchanged(elements[e])
      ensures 1 <= elementId <= |elements| ==>
        var x := elements[elementId - 1];
        var f := FixedEndOf(q, direction, x.l, x.sinAlpha, x.cosAlpha);
        && x.qLoad == Some(q * direction)
        && x.primaryForce == Add(old(x.primaryForce), PrimaryIncrement(f))
        && x.displacement == old(x.displacement) && x.forceVector == old(x.forceVector)
        && x.node1 == old(x.node1) && x.node2 == old(x.node2) && x.normalForce == old(x.normalForce)
        && systemForceVector == Some(Accumulate(old(ForceBase()), SystemEntries(f, x.nodeId1, x.nodeId2)))
        && r == systemForceVector
        && forall e :: 0 <= e < |elements| && e != elementId - 1 ==> unchanged(elements[e])
    {
      var found := FindElement(elements, elementId);
      if found.None? {
        forall e | 0 <= e < |elements| ensures elements[e].id == e + 1 {
          assert ElementValid(elements[e], e + 1);
        }
        return None;
      }
      assert ElementValid(elements[found.value], found.value + 1);
      var v := LoadElement(found.value, q, direction);
      r := Some(v);
    }

    /** The part of `q_load` after the search, for the element at position k. */
    method LoadElement(k: nat, q: real, direction: real) returns (v: Vector)
      requires Valid() && k < |elements|
      requires NodeFits(elements[k].nodeId1, |ForceBase()|) && NodeFits(elements[k].nodeId2, |ForceBase()|)
      modifies this`systemForceVector, elements[k]
      ensures Valid()
      ensures var x := elements[k];
        var f := FixedEndOf(q, direction, x.l, x.sinAlpha, x.cosAlpha);
        && x.qLoad == Some(q * direction)
        && x.primaryForce == Add(old(x.primaryForce), PrimaryIncrement(f))
        && x.displacement == old(x.displacement) && x.forceVector == old(x.forceVector)
        && x.node1 == old(x.node1) && x.node2 == old(x.node2) && x.normalForce == old(x.normalForce)
        && v == Accumulate(old(ForceBase()), SystemEntries(f, x.nodeId1, x.nodeId2))
        && systemForceVector == Some(v)
    {
      assert ElementValid(elements[k], k + 1);
      var element := elements[k];
      ghost var p0 := element.primaryForce;
      element.qLoad := Some(q * direction);
      var leftMoment := 1.0 / 12.0 * q * (element.l * element.l) * direction;
      var rightMoment := -1.0 / 12.0 * q * (element.l * element.l) * direction;
      var reactionX := 0.5 * q * element.l * direction * element.sinAlpha;
      var reactionZ := 0.5 * q * element.l * direction * element.cosAlpha;
      element.primaryForce := AddPrimary(element.primaryForce, leftMoment, rightMoment, reactionX, reactionZ);
      ghost var f := FixedEndOf(q, direction, element.l, element.sinAlpha, element.cosAlpha);
      assert f == FixedEnd(leftMoment, rightMoment, reactionX, reactionZ);
      assert ElementValid(element, k + 1);
      assert ElementsValid(elements);
      var entries := [ForceEntry(element.node1.id, 3, -leftMoment), ForceEntry(element.node2.id, 3, -rightMoment),
                      ForceEntry(element.node1.id, 2, reactionZ), ForceEntry(element.node2.id, 2, reactionZ),
                      ForceEntry(element.node1.id, 1, reactionX), ForceEntry(element.node2.id, 1, reactionX)];
      assert entries == SystemEntries(f, element.nodeId1, element.nodeId2);
      SystemEntriesFit(f, element.nodeId1, element.nodeId2, |ForceBase()|);
      v := SetForceVector(entries);
    }

    /** `process_conditions`: the reduced force vector and matrix keep only
        the indices below the matrix shape whose displacement is not known 0
        (force entries past the shape stay at the end). The displacement
        vector is left reduced the same way; the force vector and the system
        matrix end as they began. The index lists grow by this call's removed
        and remaining indices and are never cleared. */
    method ProcessConditions()
      requires Valid() && shapeSystemMatrix.Some? && systemForceVector.Some? && systemDisplacementVector.Some?
      requires Shape() <= |systemForceVector.value| && Shape() <= |systemDisplacementVector.value|
      modifies this`systemDisplacementVector, this`reducedForceVector, this`reducedSystemMatrix
      modifies this`removedIndexes, this`remainderIndexes
      ensures Valid()
      ensures var d0 := old(systemDisplacementVector.value);
        var f0 := old(systemForceVector.value);
        var n := old(Shape());
        var kept := Remainder(d0, n);
        && removedIndexes == old(removedIndexes) + Removed(d0, n)
        && remainderIndexes == old(remainderIndexes) + kept
        && systemDisplacementVector == Some(Select(d0, kept) + d0[n..])
        && reducedForceVector == Some(Select(f0, kept) + f0[n..])
        && reducedSystemMatrix == Some(SubMatrix(systemMatrix.value, kept))
    {
      var originalForceVector := systemForceVector.value;
      var originalSystemMatrix := systemMatrix.value;
      var d0 := systemDisplacementVector.value;
      var d, f, m, removed, remainder := Condense(d0, originalForceVector, originalSystemMatrix, shapeSystemMatrix.value);
      StoreReduction(d, f, m, removed, remainder);
    }

    /** `solve`, with `x` the solution of the reduced system that
        `np.linalg.solve` returns. The displacement vector becomes the zero
        vector of the matrix shape with x[k] at the k-th remainder index;
        every element takes its six end displacements from it and recomputes
        its end forces, then `node_results` fills in the end nodes and the
        normal forces. */
    method Solve(x: Vector, sqrt: real -> real) returns (u: Vector)
      requires Valid() && shapeSystemMatrix.Some?
      requires reducedSystemMatrix.Some? && reducedForceVector.Some?
      requires IsMatrix(reducedSystemMatrix.value, |x|, |x|)
      requires MatVec(reducedSystemMatrix.value, x) == reducedForceVector.value
      requires |remainderIndexes| <= |x|
      requires forall e :: 0 <= e < |elements| ==> FitsSlice(elements[e], Shape())
      modifies this`systemDisplacementVector, elements
      ensures Valid()
      ensures u == Scatter(Zeros(Shape()), remainderIndexes, x)
      ensures systemDisplacementVector == Some(Known(u))
      ensures forall e :: 0 <= e < |elements| ==> Spread(elements[e], u) && HasResults(elements[e], sqrt)
      ensures forall e :: 0 <= e < |elements| ==> var el := elements[e];
        el.primaryForce == old(el.primaryForce) && el.qLoad == old(el.qLoad)
    {
      u := ScatterSolution(remainderIndexes, x, shapeSystemMatrix.value);
      systemDisplacementVector := Some(Known(u));
      SpreadDisplacements(u);
      NodeResults(sqrt);
    }

    /** The loop over the elements in `solve`. */
    method SpreadDisplacements(u: Vector)
      requires Valid() && forall e :: 0 <= e < |elements| ==> FitsSlice(elements[e], |u|)
      modifies elements`displacement, elements`forceVector
      ensures Valid()
      ensures forall e :: 0 <= e < |elements| ==> var el := elements[e];
        && Spread(el, u) && el.primaryForce == old(el.primaryForce) && el.qLoad == old(el.qLoad)
        && el.node1 == old(el.node1) && el.node2 == old(el.node2) && el.normalForce == old(el.normalForce)
    {
      for i := 0 to |elements|
        invariant Valid()
        invariant forall e :: 0 <= e < i ==> Spread(elements[e], u)
        invariant forall e :: 0 <= e < |elements| ==> var el := elements[e];
          && el.primaryForce == old(el.primaryForce) && el.qLoad == old(el.qLoad)
          && el.node1 == old(el.node1) && el.node2 == old(el.node2) && el.normalForce == old(el.normalForce)
      {
        assert ElementValid(elements[i], i + 1);
        SpreadToElement(elements[i], u);
        assert ElementsValid(elements);
      }
    }

    /** `node_results`: every element determines its node results. */
    method NodeResults(sqrt: real -> real)
      requires Valid() && forall e :: 0 <= e < |elements| ==> elements[e].forceVector.Some?
      modifies elements`node1, elements`node2, elements`normalForce
      ensures Valid()
      ensures forall e :: 0 <= e < |elements| ==> var el := elements[e];
        && HasResults(el, sqrt)
        && el.displacement == old(el.displacement) && el.forceVector == old(el.forceVector)
        && el.primaryForce == old(el.primaryForce) && el.qLoad == old(el.qLoad)
    {
      for i := 0 to |elements|
        invariant Valid()
        invariant forall e :: 0 <= e < i ==> HasResults(elements[e], sqrt)
      {
        assert ElementValid(elements[i], i + 1);
        ResultsOfElement(elements[i], sqrt);
        assert ElementsValid(elements);
      }
    }

    /** The assignments that close `process_conditions`. */
    method StoreReduction(d: seq<Option<real>>, f: Vector, m: Matrix, removed: seq<int>, remainder: seq<int>)
      requires Valid() && IndicesBelow(removed, Shape()) && IndicesBelow(remainder, Shape())
      modifies this`systemDisplacementVector, this`reducedForceVector, this`reducedSystemMatrix
      modifies this`removedIndexes, this`remainderIndexes
      ensures Valid()
      ensures removedIndexes == old(removedIndexes) + removed && remainderIndexes == old(remainderIndexes) + remainder
      ensures systemDisplacementVector == Some(d) && reducedForceVector == Some(f) && reducedSystemMatrix == Some(m)
    {
      IndicesBelowConcat(removedIndexes, removed, Shape());
      IndicesBelowConcat(remainderIndexes, remainder, Shape());
      systemDisplacementVector := Some(d);
      removedIndexes := removedIndexes + removed;
      remainderIndexes := remainderIndexes + remainder;
      reducedForceVector := Some(f);
      reducedSystemMatrix := Some(m);
    }

    /** The updates that close `add_element`: the element, the node list and
        the location block are appended and the counters raised. */
    method Record(element: Element, newMax: nat, newIds: seq<int>, block: seq<seq<Location>>, start: int)
      requires Valid() && ElementValid(element, count + 1) && element !in elements
      requires 2 <= newMax && newIds == NodeRange(newMax) && |nodeIds| <= |newIds|
      requires IdsBelow(elements + [element], newMax) && ConsistentIds(elements + [element])
      requires 2 <= |newIds| && start == (newIds[|newIds| - 2] - 1) * 3 + 1 && block == LocationBlock(start)
      modifies this`count, this`maxNodeId, this`nodeIds, this`elements, this`systemMatrixLocations
      ensures Valid()
      ensures count == old(count) + 1 && elements == old(elements) + [element]
      ensures maxNodeId == newMax && nodeIds == newIds
      ensures |nodeIds| >= 2 && nodeIds[|nodeIds| - 2] == maxNodeId - 1
      ensures systemMatrixLocations
           == old(systemMatrixLocations) + [LocationBlock((nodeIds[|nodeIds| - 2] - 1) * 3 + 1)]
    {
      ElementsAppend(elements, element);
      LocationsAppend(systemMatrixLocations, 3 * |nodeIds|, start, 3 * |newIds|);
      count := count + 1;
      maxNodeId := newMax;
      nodeIds := newIds;
      elements := elements + [element];
      systemMatrixLocations := systemMatrixLocations + [block];
    }
  }

  /** Element x's slice `node_ids[-1] * 3 - 6 .. + 6` indexes a vector of size n. */
  predicate FitsSlice(x: Element, n: nat) {
    InRange(3 * x.nodeId2 - 6, n) && InRange(3 * x.nodeId2 - 1, n)
  }

  /** After `solve`, element x holds its slice of u as end displacements and
      K . d as end forces. */
  ghost predicate Spread(x: Element, u: Vector)
    reads x`displacement, x`forceVector
  {
    && IsMatrix(x.stiffness, 6, 6) && FitsSlice(x, |u|)
    && x.displacement == ElementSlice(u, x.nodeId2)
    && x.forceVector == Some(MatVec(x.stiffness, x.displacement))
  }

  /** After `node_results`, both end nodes of x hold their end forces plus
      primary forces and their displacements, and x holds its normal force
      (which, by `NormalForceSet`, does not depend on the value before). */
  ghost predicate HasResults(x: Element, sqrt: real -> real)
    reads x
  {
    && x.Valid() && x.forceVector.Some?
    && x.node1 == EndResult(x.nodeId1, x.forceVector.value, x.primaryForce, x.displacement, 0)
    && x.node2 == EndResult(x.nodeId2, x.forceVector.value, x.primaryForce, x.displacement, 3)
    && x.normalForce == NormalForceOf(x.point1, x.point2, x.alpha, x.cosAlpha, x.node1.fx, x.node1.fz,
                                      sqrt(Resultant(x.node1.fx, x.node1.fz)), None)
  }

  /** `determine_node_results` for one element of `node_results`. */
  method ResultsOfElement(x: Element, sqrt: real -> real)
    requires x.Valid() && x.forceVector.Some?
    requires AngleOf(x.point1, x.point2, x.alpha, x.cosAlpha, x.sinAlpha)
    modifies x`node1, x`node2, x`normalForce
    ensures HasResults(x, sqrt)
  {
    ghost var previous := x.normalForce;
    x.DetermineNodeResults(sqrt);
    NormalForceSet(x.point1, x.point2, x.alpha, x.cosAlpha, x.sinAlpha, x.node1.fx, x.node1.fz,
                   sqrt(Resultant(x.node1.fx, x.node1.fz)), previous);
  }

  /** The first loop of `solve` on values: x[k] is written at the k-th
      index of idx in a zero vector of size n. */
  method ScatterSolution(idx: seq<int>, x: Vector, n: nat) returns (u: Vector)
    requires IndicesBelow(idx, n) && |idx| <= |x|
    ensures u == Scatter(Zeros(n), idx, x)
  {
    u := Zeros(n);
    for count := 0 to |idx|
      invariant u == Scatter(Zeros(n), idx[..count], x)
    {
      assert idx[..count + 1][..count] == idx[..count];
      u := u[idx[count] := x[count]];
    }
    assert idx[..|idx|] == idx;
  }

  /** The inner loop of `solve` for one element: its six end displacements
      are read from u from index `node_ids[-1] * 3 - 6` on (negative indices
      count from the end), and its end forces are recomputed after each. */
  method SpreadToElement(x: Element, u: Vector)
    requires x.Valid() && FitsSlice(x, |u|)
    modifies x`displacement, x`forceVector
    ensures x.Valid() && Spread(x, u)
  {
    var minIndex := x.nodeId2 * 3 - 6;
    for v := 0 to 6
      invariant x.Valid()
      invariant forall w :: 0 <= w < v ==> x.displacement[w] == u[Wrap(minIndex + w, |u|)]
      invariant 0 < v ==> x.forceVector == Some(MatVec(x.stiffness, x.displacement))
    {
      x.displacement := x.displacement[v := u[Wrap(minIndex + v, |u|)]];
      var f := x.DetermineForceVector();
    }
    assert x.displacement == ElementSlice(u, x.nodeId2);
  }

  /** Under `Valid`, the location blocks and element stiffness matrices are
      the shapes assembly needs, inside a matrix of size 3 |node_ids|. */
  lemma {:induction false} ValidBlocks(locs: seq<seq<seq<Location>>>, els: seq<Element>, n: nat)
    requires ElementsValid(els) && |locs| == |els| && LocationsFit(locs, n)
    ensures AllShaped(locs, Stiffnesses(els)) && AllBlocksSymmetric(locs, Stiffnesses(els), n)
  {
    var ks := Stiffnesses(els);
    forall e | 0 <= e < |locs| ensures Shaped(locs[e], ks[e]) {
      assert ElementValid(els[e], e + 1);
    }
    forall e | 0 <= e < |ks| ensures IsMatrix(ks[e], 6, 6) && Symmetric(ks[e]) {
      assert ElementValid(els[e], e + 1);
    }
  }

  /** The element loop of `assemble_system_matrix`, from a zero n x n matrix:
      the result is the assembled matrix. */
  method AssembleBlocks(locs: seq<seq<seq<Location>>>, ks: seq<Matrix>, n: nat) returns (m: Matrix)
    requires AllBlocksSymmetric(locs, ks, n)
    ensures AllShaped(locs, ks) && m == Assembled(locs, ks, n)
  {
    m := ZeroMatrix(n);
    for i := 0 to |locs|
      invariant IsMatrix(m, n, n)
      invariant forall r, c :: 0 <= r < n && 0 <= c < n ==> m[r][c] == CellSum(locs, ks, r, c, i)
    {
      m := AddBlock(m, locs[i], ks[i], n);
    }
    forall r | 0 <= r < n ensures m[r] == Assembled(locs, ks, n)[r] {
    }
  }

  /** The two inner loops of `assemble_system_matrix` for one element: each
      entry of its stiffness matrix k is added at its location in `loc`. */
  method AddBlock(m0: Matrix, loc: seq<seq<Location>>, k: Matrix, n: nat) returns (m: Matrix)
    requires IsMatrix(m0, n, n) && IsBlock(loc, n) && IsMatrix(k, 6, 6)
    ensures Shaped(loc, k) && IsMatrix(m, n, n)
    ensures forall r, c :: 0 <= r < n && 0 <= c < n ==> m[r][c] == m0[r][c] + BlockContrib(loc, k, r, c, 6)
  {
    m := m0;
    for row := 0 to |loc|
      invariant IsMatrix(m, n, n)
      invariant forall r, c :: 0 <= r < n && 0 <= c < n ==> m[r][c] == m0[r][c] + BlockContrib(loc, k, r, c, row)
    {
      m := AddRow(m, loc, k, row, n);
    }
  }

  /** The innermost loop of `assemble_system_matrix`: row `row` of k is added
      cell by cell at the locations `loc[row]`. */
  method AddRow(m0: Matrix, loc: seq<seq<Location>>, k: Matrix, row: nat, n: nat) returns (m: Matrix)
    requires IsMatrix(m0, n, n) && IsBlock(loc, n) && IsMatrix(k, 6, 6) && row < 6
    ensures Shaped(loc, k) && IsMatrix(m, n, n)
    ensures forall r, c :: 0 <= r < n && 0 <= c < n ==> m[r][c] == m0[r][c] + RowContrib(loc, k, row, r, c, 6)
  {
    m := m0;
    var count := 0;
    for b := 0 to |loc[row]|
      invariant count == b && IsMatrix(m, n, n)
      invariant forall r, c :: 0 <= r < n && 0 <= c < n ==> m[r][c] == m0[r][c] + RowContrib(loc, k, row, r, c, b)
    {
      var l := loc[row][b];
      m := AddAt(m, l.0 - 1, l.1 - 1, k[row][count]);
      count := count + 1;
    }
  }

  /** The six updates `q_load` makes to an element primary force vector. */
  method AddPrimary(p0: Vector, leftMoment: real, rightMoment: real, reactionX: real, reactionZ: real)
    returns (p: Vector)
    requires |p0| == 6
    ensures p == Add(p0, PrimaryIncrement(FixedEnd(leftMoment, rightMoment, reactionX, reactionZ)))
  {
    p := p0;
    p := p[2 := p[2] + leftMoment];
    p := p[5 := p[5] + rightMoment];
    p := p[1 := p[1] - reactionZ];
    p := p[4 := p[4] - reactionZ];
    p := p[0 := p[0] - reactionX];
    p := p[3 := p[3] - reactionX];
  }

  /** The search loop of `q_load`: the position of the first element with the
      given ID, None when there is none. */
  method FindElement(els: seq<Element>, id: int) returns (r: Option<nat>)
    ensures r.None? <==> forall e :: 0 <= e < |els| ==> els[e].id != id
    ensures r.Some? ==> r.value < |els| && els[r.value].id == id
    ensures r.Some? ==> forall e :: 0 <= e < r.value ==> els[e].id != id
  {
    r := None;
    var j := 0;
    while j < |els|
      invariant 0 <= j <= |els| && forall e :: 0 <= e < j ==> els[e].id != id
    {
      if els[j].id == id {
        return Some(j);
      }
      j := j + 1;
    }
  }

  /** The endpoint scan of `add_element` over the elements: the node IDs for
      p1 and p2, and `max_node_id` raised for each endpoint no element touches. */
  method FindNodeIds(elements: seq<Element>, maxNodeId0: int, p1: Point, p2: Point)
    returns (nodeId1: int, nodeId2: int, maxNodeId: int)
    ensures var a := AssignIds(elements, maxNodeId0, p1, p2);
      nodeId1 == a.id1 && nodeId2 == a.id2 && maxNodeId == a.maxId
  {
    ghost var a := AssignIds(elements, maxNodeId0, p1, p2);
    maxNodeId := maxNodeId0;
    nodeId1, nodeId2 := 1, 2;
    var existing1, existing2 := false, false;
    if |elements| != 0 {
      var c := 1;
      var j := 0;
      while j < |elements|
        invariant 0 <= j <= |elements| && c == j + 1
        invariant existing1 == LastMatch(elements[..j], p1).Some?
        invariant existing2 == LastMatch(elements[..j], p2).Some?
        invariant existing1 ==> nodeId1 == LastMatch(elements[..j], p1).value
        invariant existing2 ==> nodeId2 == LastMatch(elements[..j], p2).value
        invariant j < |elements| ==>
          maxNodeId == maxNodeId0 && (!existing1 ==> nodeId1 == 1) && (!existing2 ==> nodeId2 == 2)
        invariant j == |elements| ==> nodeId1 == a.id1 && nodeId2 == a.id2 && maxNodeId == a.maxId
      {
        var el := elements[j];
        assert elements[..j + 1][..j] == elements[..j];
        assert elements[..j + 1][j] == el;
        if el.point1 == p1 {
          nodeId1 := el.nodeId1;
          existing1 := true;
        } else if el.point2 == p1 {
          nodeId1 := el.nodeId2;
          existing1 := true;
        } else if c == |elements| && !existing1 {
          maxNodeId := maxNodeId + 1;
          nodeId1 := maxNodeId;
        }
        if el.point1 == p2 {
          nodeId2 := el.nodeId1;
          existing2 := true;
        } else if el.point2 == p2 {
          nodeId2 := el.nodeId2;
          existing2 := true;
        } else if c == |elements| && !existing2 {
          maxNodeId := maxNodeId + 1;
          nodeId2 := maxNodeId;
        }
        c := c + 1;
        j := j + 1;
        if j == |elements| {
          assert elements[..j] == elements;
        }
      }
    }
  }

  /** The membership scan of `add_element` over the system node list, then
      the append of each ID the list lacks. */
  method AppendNodeIds(nodeIds0: seq<int>, nodeId1: int, nodeId2: int) returns (nodeIds: seq<int>)
    ensures nodeIds == Appended(nodeIds0, nodeId1, nodeId2)
  {
    var id1, id2 := false, false;
    for k := 0 to |nodeIds0|
      invariant id1 == (nodeId1 in nodeIds0[..k]) && id2 == (nodeId2 in nodeIds0[..k])
    {
      assert nodeIds0[..k + 1] == nodeIds0[..k] + [nodeIds0[k]];
      if nodeIds0[k] == nodeId1 {
        id1 := true;
      }
      if nodeIds0[k] == nodeId2 {
        id2 := true;
      }
    }
    assert nodeIds0[..|nodeIds0|] == nodeIds0;
    nodeIds := nodeIds0;
    if !id1 {
      nodeIds := nodeIds + [nodeId1];
    }
    if !id2 {
      nodeIds := nodeIds + [nodeId2];
    }
  }

  /** The loops of `add_element` that record, for each cell of the element
      stiffness matrix, its 1-based location in the global matrix. */
  method LocationBlockOf(element: Element, start: int) returns (block: seq<seq<Location>>)
    requires element.Valid()
    ensures block == LocationBlock(start)
  {
    assert |element.stiffness| == 6 && forall a :: 0 <= a < 6 ==> |element.stiffness[a]| == 6;
    var row := start;
    block := [];
    for r := 0 to |element.stiffness|
      invariant row == start + r && |block| == r
      invariant forall a :: 0 <= a < r ==> |block[a]| == 6
      invariant forall a, b :: 0 <= a < r && 0 <= b < 6 ==> block[a][b] == (start + a, start + b)
    {
      var column := start;
      var fullRow: seq<Location> := [];
      for v := 0 to |element.stiffness[r]|
        invariant column == start + v && |fullRow| == v
        invariant forall b :: 0 <= b < v ==> fullRow[b] == (row, start + b)
      {
        fullRow := fullRow + [(row, column)];
        column := column + 1;
      }
      block := block + [fullRow];
      row := row + 1;
    }
    forall a | 0 <= a < 6 ensures block[a] == LocationBlock(start)[a] {
    }
  }
}
