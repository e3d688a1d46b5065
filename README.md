# Direct-stiffness frame solver: bookkeeping model

This project models the bookkeeping half of the 2D frame solver in
`StructuralEngineering/FEM/beams.py` (anaStruct) and proves its properties in Dafny 4.11.
The solver uses the direct stiffness method for slender (Euler-Bernoulli) beam elements.
Arithmetic is over Dafny `real`. Trigonometric values, square roots and the dense linear
solve come in as parameters.

What is modelled:

- **Element matrices** (`ElementMatrices`, `Matrices`). `kinematic_matrix` takes the
  cosine and sine of both element angles as parameters. `constitutive_matrix` and
  `stiffness_matrix` (BᵀCB) are modelled as written. Proved: the constitutive matrix is
  symmetric and positive semi-definite; BᵀCB is symmetric whenever C is; the element
  stiffness matrix is positive semi-definite; a rigid translation produces no end forces.
- **Element** (`Elements.Element`, a class). The derived matrices are constants. The
  displacement vector, primary force vector, end forces, end nodes and normal force are
  fields, updated by `determine_force_vector`, `determine_node_results` and
  `determine_normal_force`. The normal-force case table is the function `NormalForceOf`.
- **Node results** (`Nodes`): the `Nodes` record as a datatype, with `__sub__`.
- **Topology discovery** (`Topology`, `System.FindNodeIds`, `System.AppendNodeIds`). The
  endpoint scan of `add_element` is modelled exactly. The loop has no `break`, so the last
  element that touches a point wins. Within one element `point_1` is compared before
  `point_2`. A fresh ID is minted from `max_node_id` on the last iteration. Proved: equal
  coordinates share a node ID and different coordinates never do; `node_ids` has no
  duplicates and keeps its old entries as a prefix; once an element exists, `node_ids` is
  exactly `1 .. max_node_id`.
- **Assembly** (`Assembly`, `System.AssembleBlocks`). The location block starts at
  `(node_ids[-2]-1)*3+1`, as in the source, not at the element's own `nodeID1`. Every
  assembled cell is the sum of the stiffness entries mapped to it. The assembled matrix is
  symmetric, so the flag returned is always true.
- **Loads and supports** (`Conditions`, `Loads`). The NaN "unknown displacement" marker is
  `None`. Python's negative indexing into numpy vectors is modelled (`Conditions.Wrap`).
- **Condensation and scatter** (`Conditions.Condense`, `System.SystemElements.ProcessConditions`,
  `System.SystemElements.Solve`). The `remove_count` deletion loop is modelled step by step
  and proved to compute the restriction to the remainder indices. The displacement vector
  is left in its reduced form, and the removed/remainder lists are appended to and never
  cleared, as in the source. The reduced solution `x` is an input of `Solve`. The lemma
  `Equilibrium.ReducedSolutionBalances` shows that a solution of the reduced system,
  scattered back, satisfies every unsupported row of the full system.

Behaviour of `beams.py` that the model reproduces:

- The endpoint scan is last-element-wins across earlier elements (first match only within
  one element).
- `assemble_system_matrix` returns a flag and does not raise on asymmetry.
- `process_conditions` leaves `system_displacement_vector` reduced.
- The per-element slice starts at `node_ids[-1]*3-6`, whichever node the element starts
  at. For an element ending at node 1 this index is -3, and numpy wraps it
  (`Conditions.ElementSliceWraps`).
- `math.isclose(v, 0)` has an absolute tolerance of 0, so it holds only when `v == 0`. The
  model uses exact zero tests, which is the same behaviour, not an approximation.

## Model

| member | source | states |
|---|---|---|
| Matrices.AddAt | StructuralEngineering/FEM/beams.py:184 | `m[i][j] += x` grows cell (i, j) by x and keeps every other cell |
| Matrices.TripleProductSymmetric | StructuralEngineering/FEM/beams.py:28-31 | BᵀCB is square and symmetric whenever C is symmetric |
| Matrices.MatMulVec | StructuralEngineering/FEM/beams.py:28-31 | (A·B)·v equals A·(B·v): the product BᵀCB applied to d is Bᵀ(C(Bd)) |
| Matrices.TransposeDot | StructuralEngineering/FEM/beams.py:30 | x·(Mᵀw) equals (Mx)·w for the transpose used in `stiffness_matrix` |
| ElementMatrices.KinematicMatrix | StructuralEngineering/FEM/beams.py:14-18 | the kinematic matrix has 3 rows of 6 entries |
| ElementMatrices.KinematicTranslationFree | StructuralEngineering/FEM/beams.py:14-18 | with ai = aj, a rigid translation of both ends gives zero elongation and zero relative end rotations |
| ElementMatrices.ConstitutiveMatrix | StructuralEngineering/FEM/beams.py:21-25 | the constitutive matrix is 3×3 and symmetric, the axial term is uncoupled, and the off-diagonal bending term is minus half the diagonal one |
| ElementMatrices.ConstitutivePositiveSemiDefinite | StructuralEngineering/FEM/beams.py:21-25 | for EA, EI ≥ 0 and l > 0, eᵀCe ≥ 0 for every strain vector e |
| ElementMatrices.StiffnessMatrix | StructuralEngineering/FEM/beams.py:28-31 | `stiffness_matrix` as BᵀCB of a 3×6 kinematic and a 3×3 constitutive matrix; the result is 6×6 |
| ElementMatrices.StiffnessSymmetric | StructuralEngineering/FEM/beams.py:28-31 | the element stiffness matrix is 6×6 and symmetric whenever C is |
| ElementMatrices.StiffnessTranslationFree | StructuralEngineering/FEM/beams.py:14-31 | K·t = 0 for a rigid translation t, so it causes no end forces |
| ElementMatrices.StiffnessPositiveSemiDefinite | StructuralEngineering/FEM/beams.py:14-31 | the strain energy dᵀKd is never negative for EA, EI ≥ 0 and l > 0 |
| Nodes.Unloaded | StructuralEngineering/FEM/beams.py:627-636 | `Nodes(ID)` keeps the ID and sets all six quantities to zero |
| Nodes.Sub | StructuralEngineering/FEM/beams.py:638-646 | `__sub__` keeps the left ID and subtracts each of the six quantities |
| Nodes.SubSelf | StructuralEngineering/FEM/beams.py:638-646 | a node minus itself is the unloaded node with the same ID |
| Nodes.SubUnloaded | StructuralEngineering/FEM/beams.py:638-646 | subtracting an unloaded node changes nothing |
| Nodes.SubAntisymmetric | StructuralEngineering/FEM/beams.py:638-646 | a − b and b − a are opposite in all six quantities |
| Elements.AngleOf | StructuralEngineering/FEM/beams.py:131-141 | the angle `add_element` derives: 1.5π or 0.5π with cos 0 and sin ∓1 for a vertical element, otherwise a positive cosine with tan α = −dz/dx; the cosine is 0 exactly for a vertical element, and a zero angle has zero sine and a horizontal element |
| Elements.OrientationOf | StructuralEngineering/FEM/beams.py:511-537 | the case split of `determine_normal_force`: vertical exactly when dx = 0, horizontal only for α = 0, inclined for cos α > 0, otherwise no case applies |
| Elements.NormalForceOf | StructuralEngineering/FEM/beams.py:511-537 | the N of `determine_normal_force`: ±Fz of node 1 for a vertical element, ±Fx for a horizontal one, ± the resultant for an inclined one; the previous value when no case applies |
| Elements.EndResult | StructuralEngineering/FEM/beams.py:489-508 | one end of `determine_node_results`: the node keeps its ID, its forces are element force plus primary force and its displacements are copied, for local indices k..k+2 |
| Elements.LengthSeparates | StructuralEngineering/FEM/beams.py:127-129 | a positive length implies the two endpoints differ |
| Elements.OrientationResolved | StructuralEngineering/FEM/beams.py:131-141 | for every angle `add_element` can compute, one of the three cases of `determine_normal_force` applies |
| Elements.NormalForceSet | StructuralEngineering/FEM/beams.py:511-537 | every element of the system gets a normal force, and it is independent of the value held before |
| Elements.InclinedNormalForceSign | StructuralEngineering/FEM/beams.py:526-537 | inclined case with cos α > 0: \|N\| is the node-1 resultant, and N < 0 exactly when (x₁ < x₂ and Fx₁ > 0) or (x₁ ≥ x₂ and Fx₁ < 0) |
| Elements.NormalForceReversal | StructuralEngineering/FEM/beams.py:511-537 | swapping the endpoints and negating the node-1 forces gives the same N, in the vertical, horizontal and inclined cases |
| Elements.EndResultSuperposition | StructuralEngineering/FEM/beams.py:489-508 | a node result differs from the one without primary forces by exactly the primary forces, with no displacement |
| Elements.Element.constructor | StructuralEngineering/FEM/beams.py:452-482 | the derived matrices are those of EA, EI, l and the angle; the stiffness matrix is symmetric; nothing is loaded or solved yet |
| Elements.Element.DetermineForceVector | StructuralEngineering/FEM/beams.py:484-487 | end forces become K·d and are returned |
| Elements.Element.DetermineNormalForce | StructuralEngineering/FEM/beams.py:511-537 | N is set according to the vertical / horizontal / inclined case table; when no case applies it is left unchanged |
| Elements.Element.DetermineNodeResults | StructuralEngineering/FEM/beams.py:489-509 | each end node gets force plus primary force and its three displacements, then N is determined |
| Topology.LastMatch | StructuralEngineering/FEM/beams.py:87-111 | the endpoint scan for one point: the last element touching it decides, point 1 before point 2 within an element; no result only when no element touches the point |
| Topology.LastMatchNone | StructuralEngineering/FEM/beams.py:87-111 | the scan finds no node exactly when no earlier element has an endpoint at p |
| Topology.LastMatchLast | StructuralEngineering/FEM/beams.py:89-107 | the scan returns the node of the last element touching p, its node 1 if its point 1 is p and otherwise its node 2 |
| Topology.LastMatchSound | StructuralEngineering/FEM/beams.py:89-107 | a node ID the scan finds belongs to an earlier endpoint located at p |
| Topology.AssignIds | StructuralEngineering/FEM/beams.py:82-111 | the node IDs and the new `max_node_id` of `add_element`; `max_node_id` grows by at most the two fresh IDs |
| Topology.AssignIdsFresh | StructuralEngineering/FEM/beams.py:82-111 | the first element gets IDs 1 and 2; `max_node_id` grows by at most 2 and never shrinks; an unmatched endpoint gets an ID above every earlier ID |
| Topology.NewEndpointConsistent | StructuralEngineering/FEM/beams.py:82-111 | the ID given to a new endpoint equals an earlier endpoint's ID exactly when the coordinates are equal |
| Topology.AssignKeepsConsistent | StructuralEngineering/FEM/beams.py:82-111 | after `add_element`, two endpoints share a node ID exactly when they are the same point, and all IDs stay within `max_node_id` |
| Topology.Appended | StructuralEngineering/FEM/beams.py:113-125 | the node list after the membership scan: the old list as a prefix, both IDs present, at most two entries added |
| Topology.AppendedProperties | StructuralEngineering/FEM/beams.py:113-125 | the new node list contains both IDs, has the old list as a prefix, and has no duplicates |
| Topology.AppendedRange | StructuralEngineering/FEM/beams.py:82-125 | once an element exists, `node_ids` is exactly 1, 2, …, `max_node_id` |
| Assembly.LocationBlock | StructuralEngineering/FEM/beams.py:155-167 | local cell (a, b) maps to global 1-based location (s + a, s + b), with the same start for rows and columns |
| Assembly.BlockContribOfBlock | StructuralEngineering/FEM/beams.py:155-185 | a block starting at s adds k[r−s+1][c−s+1] to 0-based cell (r, c) inside the block and nothing outside it |
| Assembly.CellSumSymmetric | StructuralEngineering/FEM/beams.py:179-185 | with symmetric element matrices, the total added to (r, c) equals the total added to (c, r) |
| Assembly.Assembled | StructuralEngineering/FEM/beams.py:175-185 | reference definition of the assembled matrix: an n×n matrix whose every cell is the sum of the stiffness entries every element block maps to it |
| Assembly.AssembledSymmetric | StructuralEngineering/FEM/beams.py:169-188 | the assembled global matrix is symmetric |
| Conditions.DofIndex | StructuralEngineering/FEM/beams.py:206 | `(node - 1) * 3 + direction - 1`: for a direction 1..3 the index determines the node (index div 3) and the direction (index mod 3) |
| Conditions.Wrap | StructuralEngineering/FEM/beams.py:206-208 | numpy's index rule: a negative index counts from the end, and the result is in range |
| Conditions.Accumulate | StructuralEngineering/FEM/beams.py:203-208 | the `+=` loop of `set_force_vector` as a function of the entry list; the vector keeps its length |
| Conditions.AccumulateAt | StructuralEngineering/FEM/beams.py:203-208 | each entry becomes its old value plus the sum of the forces aimed at it; entries no force targets are unchanged |
| Conditions.AccumulateConcat | StructuralEngineering/FEM/beams.py:190-209 | registering two force lists one after the other equals registering their concatenation |
| Conditions.AddForces | StructuralEngineering/FEM/beams.py:203-208 | the `+=` loop computes the accumulated vector |
| Conditions.PointLoadEffect | StructuralEngineering/FEM/beams.py:342-348 | `point_load` adds Fx at the node's x index and Fz at its z index, and changes nothing else (not even the rotation) |
| Conditions.MarkKnown | StructuralEngineering/FEM/beams.py:223-225 | the marking loop of `set_displacement_vector` as a function of the DOF list; the vector keeps its length |
| Conditions.MarkKnownAt | StructuralEngineering/FEM/beams.py:223-225 | exactly the listed indices become known 0; every other entry keeps its value |
| Conditions.MarkKnownIdempotent | StructuralEngineering/FEM/beams.py:211-226 | registering the same supports twice changes nothing |
| Conditions.MarkKnownCommutes | StructuralEngineering/FEM/beams.py:211-226 | supports registered by separate calls give the same vector in either order |
| Conditions.MarkDofs | StructuralEngineering/FEM/beams.py:223-225 | the marking loop computes the marked vector |
| Conditions.Unknowns | StructuralEngineering/FEM/beams.py:219-221 | the initial displacement vector has length n and every entry unknown |
| Conditions.SupportsMark | StructuralEngineering/FEM/beams.py:281-301 | hinged marks exactly x and z of the node, roll only its given direction, fixed all three |
| Conditions.Removed | StructuralEngineering/FEM/beams.py:233-241 | the indices below n whose displacement is a known 0, in increasing order, all below n |
| Conditions.Remainder | StructuralEngineering/FEM/beams.py:233-243 | the indices below n whose displacement is not a known 0, in increasing order, all below n |
| Conditions.Partition | StructuralEngineering/FEM/beams.py:228-243 | removed and remainder lists are strictly increasing and disjoint and cover 0..n−1; an index is removed iff its displacement is known 0 |
| Conditions.DeleteStep | StructuralEngineering/FEM/beams.py:236-237 | deleting position `i - remove_count` of the working vector drops exactly original entry i |
| Conditions.SubMatrixDelete | StructuralEngineering/FEM/beams.py:238-239 | deleting row and column j of a submatrix gives the submatrix without the j-th index |
| Conditions.DeleteMatrixStep | StructuralEngineering/FEM/beams.py:238-239 | deleting row and column `i - remove_count` of the working matrix drops original index i |
| Conditions.DeleteKnown | StructuralEngineering/FEM/beams.py:234-241 | the deleting branch keeps the loop invariant with i advanced |
| Conditions.KeepUnknown | StructuralEngineering/FEM/beams.py:242-243 | the keeping branch keeps the loop invariant with i added to the remainder |
| Conditions.Condense | StructuralEngineering/FEM/beams.py:228-245 | the deletion loop gives the removed and remainder lists, the vectors restricted to the remainder, and the remainder×remainder submatrix |
| Conditions.Scatter | StructuralEngineering/FEM/beams.py:254-256 | the write `system_displacement_vector[i] = x[count]` for each remainder index in turn; the vector keeps its length |
| Conditions.ScatterAt | StructuralEngineering/FEM/beams.py:251-256 | for increasing indices, the scattered vector holds x[k] at idx[k] and is unchanged elsewhere |
| Conditions.ElementSlice | StructuralEngineering/FEM/beams.py:258-264 | each element receives six displacements |
| Conditions.ElementSliceContiguous | StructuralEngineering/FEM/beams.py:258-264 | for nodeID2 ≥ 2 the slice is the six entries ending at node nodeID2's rotation |
| Conditions.ElementSliceWraps | StructuralEngineering/FEM/beams.py:260-264 | for an element ending at node 1 the slice is the last three entries followed by the first three |
| Loads.FixedEndOf | StructuralEngineering/FEM/beams.py:319-322 | the fixed-end moments and reactions of `q_load`; the two end reactions together carry q·l·direction resolved along sin α and cos α |
| Loads.PrimaryIncrement | StructuralEngineering/FEM/beams.py:325-331 | the six `+=`/`-=` updates of the primary force vector as one increment; both ends receive the same reactions |
| Loads.SystemEntries | StructuralEngineering/FEM/beams.py:336-338 | the list handed to `set_force_vector`: six entries, in pairs for node 1 then node 2, for the rotation, z and x directions |
| Loads.FixedEndBalance | StructuralEngineering/FEM/beams.py:316-338 | the right moment is minus the left one; each primary contribution (indices 2, 5, 1, 4, 0, 3) is the exact negation of the matching system entry, at the same node and direction |
| Loads.SystemEntriesFit | StructuralEngineering/FEM/beams.py:336-338 | every entry `q_load` passes on is inside the force vector when both end nodes are |
| Equilibrium.DotScatter | StructuralEngineering/FEM/beams.py:251-256 | a row times the scattered solution equals the selected entries of the row times x |
| Equilibrium.SubMatrixSymmetric | StructuralEngineering/FEM/beams.py:238-245 | the reduced matrix of a symmetric matrix is symmetric |
| Equilibrium.ReducedSolutionBalances | StructuralEngineering/FEM/beams.py:228-256 | a solution of the reduced system, scattered back, is zero at supported DOFs and satisfies every unsupported row of the full system |
| System.SystemElements.constructor | StructuralEngineering/FEM/beams.py:35-51 | empty node list, `max_node_id` 2, no elements, no vectors or matrices |
| System.SystemElements.AddElement | StructuralEngineering/FEM/beams.py:53-167 | appends a fresh element with the scanned node IDs; updates `max_node_id` and `node_ids`; appends the location block starting at `(node_ids[-2]-1)*3+1`; keeps the system invariant |
| System.SystemElements.AssembleSystemMatrix | StructuralEngineering/FEM/beams.py:169-188 | the matrix becomes the (3·\|node_ids\|)² sum of all element contributions, and the returned symmetry flag is true |
| System.SystemElements.SetForceVector | StructuralEngineering/FEM/beams.py:190-209 | the force vector (zeros of length 3·`max_node_id` if none existed) with every listed force added |
| System.SystemElements.SetDisplacementVector | StructuralEngineering/FEM/beams.py:211-226 | the displacement vector (all unknown if none existed) with every listed DOF known 0 |
| System.SystemElements.AddSupportHinged | StructuralEngineering/FEM/beams.py:281-286 | marks directions 1 and 2 of the node |
| System.SystemElements.AddSupportRoll | StructuralEngineering/FEM/beams.py:288-294 | marks only the given direction of the node |
| System.SystemElements.AddSupportFixed | StructuralEngineering/FEM/beams.py:296-301 | marks directions 1, 2 and 3 of the node |
| System.SystemElements.PointLoad | StructuralEngineering/FEM/beams.py:342-348 | adds Fx and Fz at the node; without a node nothing changes; returns the current force vector |
| System.SystemElements.QLoad | StructuralEngineering/FEM/beams.py:303-340 | for a known element: records q·direction, adds the fixed-end forces to its primary vector and their negations to the system vector. For an unknown ID: returns None and changes nothing |
| System.SystemElements.LoadElement | StructuralEngineering/FEM/beams.py:316-340 | the updates `q_load` makes once the element is found |
| System.SystemElements.ProcessConditions | StructuralEngineering/FEM/beams.py:228-247 | index lists grow by this call's removed and remainder indices; reduced vector and matrix are the remainder restriction; displacement vector left reduced; force vector and matrix unchanged |
| System.SystemElements.Solve | StructuralEngineering/FEM/beams.py:249-268 | the full displacement vector is the scatter of x over the remainder indices; each element gets its slice, K·d and its node results; primary forces are kept |
| System.SystemElements.SpreadDisplacements | StructuralEngineering/FEM/beams.py:259-265 | every element holds its slice of the vector and the matching end forces |
| System.SystemElements.NodeResults | StructuralEngineering/FEM/beams.py:270-279 | every element holds its node results and normal force; displacements and forces are kept |
| System.SystemElements.StoreReduction | StructuralEngineering/FEM/beams.py:241-247 | stores the reduced vectors and matrix and appends to the index lists without clearing them |
| System.SystemElements.Record | StructuralEngineering/FEM/beams.py:145-167 | appends the element and its location block and updates the counters, keeping the invariant |
| System.ScatterSolution | StructuralEngineering/FEM/beams.py:251-256 | the scatter loop writes x[k] at the k-th index into a zero vector |
| System.ResultsOfElement | StructuralEngineering/FEM/beams.py:275-276 | one element's end nodes and normal force are its node results, whatever its normal force was before |
| System.SpreadToElement | StructuralEngineering/FEM/beams.py:259-265 | the element's displacement vector becomes its six-entry slice, and its end forces K·d |
| System.AssembleBlocks | StructuralEngineering/FEM/beams.py:177-185 | the element loop yields the assembled matrix |
| System.AddBlock | StructuralEngineering/FEM/beams.py:181-185 | one element's 36 entries are added at their locations |
| System.AddRow | StructuralEngineering/FEM/beams.py:183-185 | one row's 6 entries are added at their locations |
| System.AddPrimary | StructuralEngineering/FEM/beams.py:325-331 | the six in-place updates add the fixed-end increment to the primary vector |
| System.FindElement | StructuralEngineering/FEM/beams.py:311-314 | returns the first position with the given ID, or None exactly when no element has it |
| System.FindNodeIds | StructuralEngineering/FEM/beams.py:82-111 | the endpoint scan loop yields the node IDs and the new `max_node_id` of `AssignIds` |
| System.AppendNodeIds | StructuralEngineering/FEM/beams.py:113-125 | the membership scan appends each ID the list lacks, `nodeID1` first |
| System.LocationBlockOf | StructuralEngineering/FEM/beams.py:155-167 | the two nested loops build the contiguous location block from the start index |

## Left out

- Plotting (`show_bending_moment`, `show_normal_forces`, the `plot_values_*` methods): visualisation only.
- `Nodes.print` and the printing in `node_results`: console output. `node_results` is modelled without it.
- `np.linalg.solve`: a foreign floating-point solver. `Solve` takes the reduced solution `x` as an input and requires that it solves the reduced system. A singular reduced system is therefore not modelled.
- `math.sin`, `math.cos`, `math.atan`, `math.sqrt`: float functions. Cosines and sines are parameters. `determine_normal_force` takes the square root as a function parameter. Lemmas only use the facts that it is never negative and is zero exactly at zero.
- System.SystemElements.AddElement: the length and the angle are parameters, not computed. The length is tied to the endpoints by l² = dx² + dz² with l > 0, because `Point` and its `modulus` are not part of this model. The angle is constrained only by `AngleOf`: for a vertical element any α > 0 with cos α = 0 and sin α = ∓1 stands for 1.5π / 0.5π; otherwise cos α > 0, tan α = −dz/dx, and α = 0 exactly when dz = 0.
- Analytical checks such as midspan deflection P·l³/48EI depend on the floating-point solve and are not modelled.
- The commented-out legacy node-numbering block (lines 63-77), the unused `find_closest_index` import, and the never-used `node_objects` field.
- System.SystemElements.QLoad: the source raises on an unknown element ID (the local `element` is unbound). The model returns None and changes nothing instead.
- Default arguments (`add_support_roll(direction=2)`, `q_load(direction=1)`, `point_load(Fx=0, Fz=0, nodeID=None)`): Dafny has none, so every argument is explicit; calling with the default values gives the same behaviour.
- Index errors are preconditions, not exceptions. Examples: a force or support beyond the vector length; a vector created before later elements grew the node list; `process_conditions` before assembly or before both vectors exist.
- System.SystemElements.AssembleSystemMatrix: `np.allclose` is modelled as exact symmetry. The model proves exact symmetry, so the flag is the same either way.
- `Element.__init__` fills `element_displacement_vector` with `np.empty(6)`, whose contents are arbitrary. The model starts it at zeros; every entry is overwritten by `solve` before it is read.
