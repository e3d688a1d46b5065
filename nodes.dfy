/** `Nodes`: the six generalised quantities of one structural node as seen from
    one adjacent element (two forces, a moment, two translations, a rotation). */
module Nodes {
  datatype Node = Node(id: int, fx: real, fz: real, ty: real, ux: real, uz: real, phiy: real)

  /** `Nodes(ID)`: every force and displacement defaults to zero. */
  function Unloaded(id: int): (n: Node)
    ensures n.id == id && Quantities(n) == [0.0, 0.0, 0.0, 0.0, 0.0, 0.0]
  {
    Node(id, 0.0, 0.0, 0.0, 0.0, 0.0, 0.0)
  }

  /** The six quantities in the order Fx, Fz, Ty, ux, uz, phiy. */
  function Quantities(n: Node): seq<real> {
    [n.fx, n.fz, n.ty, n.ux, n.uz, n.phiy]
  }

  /** `Nodes.__sub__`: componentwise difference, keeping the left operand's ID. */
  function Sub(a: Node, b: Node): (r: Node)
    ensures r.id == a.id
    ensures forall k :: 0 <= k < 6 ==> Quantities(r)[k] == Quantities(a)[k] - Quantities(b)[k]
  {
    Node(a.id, a.fx - b.fx, a.fz - b.fz, a.ty - b.ty, a.ux - b.ux, a.uz - b.uz, a.phiy - b.phiy)
  }

  /** A node minus itself is the unloaded node with the same ID. */
  lemma {:induction false} SubSelf(a: Node)
    ensures Sub(a, a) == Unloaded(a.id)
  {
  }

  /** Subtracting an unloaded node (of any ID) changes nothing. */
  lemma {:induction false} SubUnloaded(a: Node, id: int)
    ensures Sub(a, Unloaded(id)) == a
  {
  }

  /** Subtraction is anti-symmetric in the six quantities. */
  lemma {:induction false} SubAntisymmetric(a: Node, b: Node)
    ensures forall k :: 0 <= k < 6 ==> Quantities(Sub(a, b))[k] == -Quantities(Sub(b, a))[k]
  {
  }
}
