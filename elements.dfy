/** `Element`: one beam element with its derived matrices, its primary (fixed-end)
    force vector, and the results recovered after the global solve. */
module Elements {
  import opened Options
  import opened Matrices
  import opened ElementMatrices
  import opened Nodes

  /** A point of the plane, compared by exact coordinate equality. */
  datatype Point = Point(x: real, z: real)

  /** The case table of `determine_normal_force`. `math.isclose(v, 0)` with its
      default absolute tolerance of zero holds exactly when v == 0. */
  datatype Orientation = Vertical | Horizontal | Inclined | Unresolved

  function OrientationOf(p1: Point, p2: Point, alpha: real, cosAlpha: real): (o: Orientation)
    ensures o == Vertical <==> p1.x == p2.x
    ensures o == Horizontal ==> alpha == 0.0
  {
    if p1.x - p2.x == 0.0 then Vertical
    else if alpha == 0.0 then Horizontal
    else if cosAlpha > 0.0 then Inclined
    else Unresolved
  }

  /** l is the distance between the endpoints: l^2 = dx^2 + dz^2. */
  predicate IsLength(l: real, p1: Point, p2: Point) {
    l * l == (p2.x - p1.x) * (p2.x - p1.x) + (p2.z - p1.z) * (p2.z - p1.z)
  }

  /** A positive length separates the endpoints. */
  lemma {:induction false} LengthSeparates(l: real, p1: Point, p2: Point)
    requires l > 0.0 && IsLength(l, p1, p2)
    ensures p1 != p2
  {
    PositiveSquare(l);
    if p1 == p2 {
      ZeroLength(l, p1);
    }
  }

  lemma {:induction false} ZeroLength(l: real, p: Point)
    requires IsLength(l, p, p)
    ensures l * l == 0.0
  {
  }

  lemma {:induction false} PositiveSquare(x: real)
    requires x > 0.0
    ensures x * x > 0.0
  {
  }

  /** The angle `add_element` derives from the endpoints, with its cosine and
      sine. A vertical element (dx = 0) gets 1.5 pi when dz > 0 and 0.5 pi
      otherwise, so cos = 0 and sin = -1 or 1. Otherwise the angle is
      -atan(dz / dx): its cosine is positive, its tangent is -dz / dx, and it
      is 0 exactly when dz = 0. */
  predicate AngleOf(p1: Point, p2: Point, alpha: real, cosAlpha: real, sinAlpha: real)
    ensures AngleOf(p1, p2, alpha, cosAlpha, sinAlpha) ==> (cosAlpha == 0.0 <==> p1.x == p2.x)
    ensures AngleOf(p1, p2, alpha, cosAlpha, sinAlpha) && alpha == 0.0 ==> sinAlpha == 0.0 && p1.z == p2.z
  {
    var dx, dz := p2.x - p1.x, p2.z - p1.z;
    if dx == 0.0 then alpha > 0.0 && cosAlpha == 0.0 && sinAlpha == (if dz > 0.0 then -1.0 else 1.0)
    else cosAlpha > 0.0 && sinAlpha * dx == -dz * cosAlpha && (alpha == 0.0 <==> dz == 0.0)
  }

  /** For the angles `add_element` computes one of the three cases of
      `determine_normal_force` always applies, so every element gets a
      normal force. */
  lemma {:induction false} OrientationResolved(p1: Point, p2: Point, alpha: real, cosAlpha: real, sinAlpha: real)
    requires AngleOf(p1, p2, alpha, cosAlpha, sinAlpha)
    ensures OrientationOf(p1, p2, alpha, cosAlpha) != Unresolved
  {
  }

  /** Hence the value `determine_normal_force` keeps when no case applies is
      never used: every element gets a normal force, whatever it held before. */
  lemma {:induction false} NormalForceSet(p1: Point, p2: Point, alpha: real, cosAlpha: real, sinAlpha: real,
                       fx: real, fz: real, magnitude: real, previous: Option<real>)
    requires AngleOf(p1, p2, alpha, cosAlpha, sinAlpha)
    ensures NormalForceOf(p1, p2, alpha, cosAlpha, fx, fz, magnitude, previous).Some?
    ensures NormalForceOf(p1, p2, alpha, cosAlpha, fx, fz, magnitude, previous)
         == NormalForceOf(p1, p2, alpha, cosAlpha, fx, fz, magnitude, None)
  {
    OrientationResolved(p1, p2, alpha, cosAlpha, sinAlpha);
  }

  /** fx^2 + fz^2, whose square root `determine_normal_force` takes. */
  function Resultant(fx: real, fz: real): real {
    fx * fx + fz * fz
  }

  /** The normal force `determine_normal_force` assigns, from the node-1 forces
      fx, fz of the element and `magnitude`, the value of sqrt(fx^2 + fz^2).
      When no case applies the previous value is kept. */
  function NormalForceOf(p1: Point, p2: Point, alpha: real, cosAlpha: real,
                         fx: real, fz: real, magnitude: real, previous: Option<real>): (n: Option<real>)
    ensures OrientationOf(p1, p2, alpha, cosAlpha) != Unresolved ==> n.Some?
    ensures OrientationOf(p1, p2, alpha, cosAlpha) == Inclined ==> n == Some(magnitude) || n == Some(-magnitude)
    ensures OrientationOf(p1, p2, alpha, cosAlpha) == Vertical ==> n == Some(fz) || n == Some(-fz)
    ensures OrientationOf(p1, p2, alpha, cosAlpha) == Horizontal ==> n == Some(fx) || n == Some(-fx)
  {
    match OrientationOf(p1, p2, alpha, cosAlpha)
    case Vertical => Some(if p1.z < p2.z then -fz else fz)
    case Horizontal => Some(if p1.x < p2.x then -fx else fx)
    case Inclined =>
      if p1.x < p2.x then Some(if fx > 0.0 then -magnitude else magnitude)
      else Some(if fx < 0.0 then -magnitude else magnitude)
    case Unresolved => previous
  }

  /** For an inclined element the normal force has the magnitude of the node-1
      resultant, and it is compression (negative) exactly when node 1 is left
      and pushed right, or node 1 is right and pushed left. Of the square root
      only its sign is used: it is never negative, and zero exactly when both
      force components are. */
  lemma {:induction false} InclinedNormalForceSign(p1: Point, p2: Point, alpha: real, cosAlpha: real,
                                fx: real, fz: real, magnitude: real, previous: Option<real>)
    requires p1.x != p2.x && alpha != 0.0 && cosAlpha > 0.0
    requires magnitude >= 0.0 && (magnitude == 0.0 <==> fx == 0.0 && fz == 0.0)
    ensures var n := NormalForceOf(p1, p2, alpha, cosAlpha, fx, fz, magnitude, previous);
      && n.Some?
      && (n.value == magnitude || n.value == -magnitude)
      && (n.value < 0.0 <==> (p1.x < p2.x && fx > 0.0) || (p1.x >= p2.x && fx < 0.0))
  {
  }

  /** Drawing the element the other way round (swapping its endpoints, so that
      the old node-2 end becomes node 1 and, for an unloaded element in
      equilibrium, the node-1 forces change sign) gives the same normal force:
      the sign convention does not depend on how the element was drawn.
      The angle -atan(dz/dx) is unchanged by the swap. */
  lemma {:induction false} NormalForceReversal(p1: Point, p2: Point, alpha: real, cosAlpha: real,
                            fx: real, fz: real, magnitude: real, previous: Option<real>)
    requires p1 != p2
    ensures NormalForceOf(p1, p2, alpha, cosAlpha, fx, fz, magnitude, previous)
         == NormalForceOf(p2, p1, alpha, cosAlpha, -fx, -fz, magnitude, previous)
  {
    if p1.x - p2.x == 0.0 {
      assert p1.z != p2.z;
    }
  }

  /** `determine_node_results` for one end: element force plus primary force,
      and the displacements copied, for the local indices k, k+1, k+2. */
  function EndResult(id: int, force: Vector, primary: Vector, d: Vector, k: nat): (n: Node)
    requires |force| == |primary| == |d| == 6 && k <= 3
    ensures n.id == id && [n.ux, n.uz, n.phiy] == d[k..k + 3]
    ensures [n.fx, n.fz, n.ty] == Add(force, primary)[k..k + 3]
  {
    Node(id, force[k] + primary[k], force[k + 1] + primary[k + 1], force[k + 2] + primary[k + 2],
         d[k], d[k + 1], d[k + 2])
  }

  /** Superposition: the node result with a primary force vector differs from
      the one without it exactly by the primary forces, with no displacement. */
  lemma {:induction false} EndResultSuperposition(id: int, force: Vector, primary: Vector, d: Vector, k: nat)
    requires |force| == |primary| == |d| == 6 && k <= 3
    ensures Sub(EndResult(id, force, primary, d, k), EndResult(id, force, Zeros(6), d, k))
         == Node(id, primary[k], primary[k + 1], primary[k + 2], 0.0, 0.0, 0.0)
  {
  }

  class Element {
    const id: int
    const ea: real
    const ei: real
    const l: real
    const point1: Point
    const point2: Point
    /** The angle with the global x axis, with its cosine and sine. */
    const alpha: real
    const cosAlpha: real
    const sinAlpha: real
    const kinematic: Matrix
    const constitutive: Matrix
    const stiffness: Matrix
    const nodeId1: int
    const nodeId2: int

    var displacement: Vector
    var primaryForce: Vector
    var forceVector: Option<Vector>
    var qLoad: Option<real>
    var node1: Node
    var node2: Node
    var normalForce: Option<real>

    /** The derived matrices are those of the element's own data (they are
        constants, fixed by the constructor). */
    ghost predicate Derived()
    {
      && l != 0.0
      && kinematic == KinematicMatrix(cosAlpha, sinAlpha, cosAlpha, sinAlpha, l)
      && constitutive == ConstitutiveMatrix(ea, ei, l)
      && stiffness == StiffnessMatrix(constitutive, kinematic)
    }

    ghost predicate Valid()
      reads this
    {
      && IsMatrix(stiffness, 6, 6) && Symmetric(stiffness)
      && |displacement| == 6 && |primaryForce| == 6
      && (forceVector.Some? ==> |forceVector.value| == 6)
      && node1.id == nodeId1 && node2.id == nodeId2
    }

    /** The element's own data. */
    predicate HasData(id: int, ea: real, ei: real, l: real, alpha: real, cosAlpha: real, sinAlpha: real,
                      point1: Point, point2: Point, nodeId1: int, nodeId2: int)
    {
      && this.id == id && this.ea == ea && this.ei == ei && this.l == l
      && this.alpha == alpha && this.cosAlpha == cosAlpha && this.sinAlpha == sinAlpha
      && this.point1 == point1 && this.point2 == point2
      && this.nodeId1 == nodeId1 && this.nodeId2 == nodeId2
    }

    /** Nothing has been loaded or solved yet: zero displacements and primary
        forces, no end forces, no load, no normal force, unloaded end nodes. */
    ghost predicate Initial()
      reads this
    {
      && displacement == Zeros(6) && primaryForce == Zeros(6)
      && forceVector == None && qLoad == None && normalForce == None
      && node1 == Unloaded(nodeId1) && node2 == Unloaded(nodeId2)
    }

    /** `Element.__init__` followed by the node bookkeeping of `add_element`. */
    constructor (id: int, ea: real, ei: real, l: real, alpha: real, cosAlpha: real, sinAlpha: real,
                 point1: Point, point2: Point, nodeId1: int, nodeId2: int)
      requires l != 0.0
      ensures Valid() && Derived() && Initial()
      ensures HasData(id, ea, ei, l, alpha, cosAlpha, sinAlpha, point1, point2, nodeId1, nodeId2)
    {
      this.id := id;
      this.ea := ea;
      this.ei := ei;
      this.l := l;
      this.point1 := point1;
      this.point2 := point2;
      this.alpha := alpha;
      this.cosAlpha := cosAlpha;
      this.sinAlpha := sinAlpha;
      var b := KinematicMatrix(cosAlpha, sinAlpha, cosAlpha, sinAlpha, l);
      var c := ConstitutiveMatrix(ea, ei, l);
      StiffnessSymmetric(c, b);
      kinematic := b;
      constitutive := c;
      stiffness := StiffnessMatrix(c, b);
      this.nodeId1 := nodeId1;
      this.nodeId2 := nodeId2;
      displacement := Zeros(6);
      primaryForce := Zeros(6);
      forceVector := None;
      qLoad := None;
      node1 := Unloaded(nodeId1);
      node2 := Unloaded(nodeId2);
      normalForce := None;
    }

    /** `determine_force_vector`: the element end forces K . d. */
    method DetermineForceVector() returns (f: Vector)
      requires Valid()
      modifies this`forceVector
      ensures Valid()
      ensures |f| == 6 && f == MatVec(stiffness, displacement) && forceVector == Some(f)
    {
      f := MatVec(stiffness, displacement);
      forceVector := Some(f);
    }

    /** `determine_normal_force`, with `sqrt` standing for `math.sqrt`. */
    method DetermineNormalForce(sqrt: real -> real)
      requires Valid()
      modifies this`normalForce
      ensures Valid()
      ensures normalForce == NormalForceOf(point1, point2, alpha, cosAlpha, node1.fx, node1.fz,
                                           sqrt(Resultant(node1.fx, node1.fz)), old(normalForce))
    {
      var dx := point1.x - point2.x;
      if dx == 0.0 {
        if point1.z < point2.z {
          normalForce := Some(-node1.fz);
        } else {
          normalForce := Some(node1.fz);
        }
      } else if alpha == 0.0 {
        if point1.x < point2.x {
          normalForce := Some(-node1.fx);
        } else {
          normalForce := Some(node1.fx);
        }
      } else if cosAlpha > 0.0 {
        var magnitude := sqrt(Resultant(node1.fx, node1.fz));
        if point1.x < point2.x {
          if node1.fx > 0.0 {
            normalForce := Some(-magnitude);
          } else {
            normalForce := Some(magnitude);
          }
        } else {
          if node1.fx < 0.0 {
            normalForce := Some(-magnitude);
          } else {
            normalForce := Some(magnitude);
          }
        }
      }
    }

    /** `determine_node_results`: end forces plus primary forces and the end
      displacements at both nodes, then the normal force. */
    method DetermineNodeResults(sqrt: real -> real)
      requires Valid() && forceVector.Some?
      modifies this`node1, this`node2, this`normalForce
      ensures Valid()
      ensures node1 == EndResult(nodeId1, forceVector.value, primaryForce, displacement, 0)
      ensures node2 == EndResult(nodeId2, forceVector.value, primaryForce, displacement, 3)
      ensures normalForce == NormalForceOf(point1, point2, alpha, cosAlpha, node1.fx, node1.fz,
                                           sqrt(Resultant(node1.fx, node1.fz)), old(normalForce))
    {
      var f := forceVector.value;
      node1 := Node(nodeId1, f[0] + primaryForce[0], f[1] + primaryForce[1], f[2] + primaryForce[2],
                    displacement[0], displacement[1], displacement[2]);
      node2 := Node(nodeId2, f[3] + primaryForce[3], f[4] + primaryForce[4], f[5] + primaryForce[5],
                    displacement[3], displacement[4], displacement[5]);
      DetermineNormalForce(sqrt);
    }
  }
}
