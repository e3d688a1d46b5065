/** The global stiffness matrix of `assemble_system_matrix`: every element
    stiffness entry is added at the 1-based global location recorded for it. */
module Assembly {
  import opened Matrices

  /** A 1-based (row, column) position in the global matrix. */
  type Location = (int, int)

  /** The 6x6 block of locations `add_element` records for a block starting at
      s: local cell (a, b) goes to global location (s + a, s + b). */
  function LocationBlock(s: int): (loc: seq<seq<Location>>)
    ensures |loc| == 6 && forall a :: 0 <= a < 6 ==> |loc[a]| == 6
    ensures forall a, b :: 0 <= a < 6 && 0 <= b < 6 ==> loc[a][b] == (s + a, s + b)
  {
    seq(6, a => seq(6, b => (s + a, s + b)))
  }

  /** A location block whose locations all fall inside an n x n matrix. */
  predicate IsBlock(loc: seq<seq<Location>>, n: nat) {
    |loc| == 6 && |loc[0]| == 6 && loc == LocationBlock(loc[0][0].0)
    && 1 <= loc[0][0].0 && loc[0][0].0 + 5 <= n
  }

  predicate Shaped(loc: seq<seq<Location>>, k: Matrix) {
    |loc| == 6 && IsMatrix(k, 6, 6) && forall a :: 0 <= a < 6 ==> |loc[a]| == 6
  }

  predicate AllShaped(locs: seq<seq<seq<Location>>>, ks: seq<Matrix>) {
    |locs| == |ks| && forall e :: 0 <= e < |locs| ==> Shaped(locs[e], ks[e])
  }

  /** What the first nb cells of row a of one element add to global cell
      (r, c) (0-based): the entries whose location is (r + 1, c + 1). */
  function RowContrib(loc: seq<seq<Location>>, k: Matrix, a: nat, r: int, c: int, nb: nat): real
    requires Shaped(loc, k) && a < 6 && nb <= 6
  {
    if nb == 0 then 0.0
    else RowContrib(loc, k, a, r, c, nb - 1) + (if loc[a][nb - 1] == (r + 1, c + 1) then k[a][nb - 1] else 0.0)
  }

  /** What the first na rows of one element add to global cell (r, c). */
  function BlockContrib(loc: seq<seq<Location>>, k: Matrix, r: int, c: int, na: nat): real
    requires Shaped(loc, k) && na <= 6
  {
    if na == 0 then 0.0
    else BlockContrib(loc, k, r, c, na - 1) + RowContrib(loc, k, na - 1, r, c, 6)
  }

  /** What the first ne elements add to global cell (r, c). */
  function CellSum(locs: seq<seq<seq<Location>>>, ks: seq<Matrix>, r: int, c: int, ne: nat): real
    requires AllShaped(locs, ks) && ne <= |locs|
  {
    if ne == 0 then 0.0
    else CellSum(locs, ks, r, c, ne - 1) + BlockContrib(locs[ne - 1], ks[ne - 1], r, c, 6)
  }

  /** The assembled n x n matrix: each cell is the sum of all the element
      entries mapped to it. */
  function Assembled(locs: seq<seq<seq<Location>>>, ks: seq<Matrix>, n: nat): (m: Matrix)
    requires AllShaped(locs, ks)
    ensures IsMatrix(m, n, n)
  {
    seq(n, r => seq(n, c => CellSum(locs, ks, r, c, |locs|)))
  }

  lemma {:induction false} RowContribOfBlock(s: int, k: Matrix, a: nat, r: int, c: int, nb: nat)
    requires IsMatrix(k, 6, 6) && a < 6 && nb <= 6
    ensures Shaped(LocationBlock(s), k)
    ensures RowContrib(LocationBlock(s), k, a, r, c, nb)
         == if r + 1 == s + a && s <= c + 1 < s + nb then k[a][c + 1 - s] else 0.0
  {
    if nb > 0 {
      RowContribOfBlock(s, k, a, r, c, nb - 1);
    }
  }

  lemma {:induction false} BlockContribPrefix(s: int, k: Matrix, r: int, c: int, na: nat)
    requires IsMatrix(k, 6, 6) && na <= 6
    ensures Shaped(LocationBlock(s), k)
    ensures BlockContrib(LocationBlock(s), k, r, c, na)
         == if s <= r + 1 < s + na && s <= c + 1 < s + 6 then k[r + 1 - s][c + 1 - s] else 0.0
  {
    if na > 0 {
      BlockContribPrefix(s, k, r, c, na - 1);
      RowContribOfBlock(s, k, na - 1, r, c, 6);
    }
  }

  /** A block starting at s adds k[r - (s - 1)][c - (s - 1)] to global cell
      (r, c) when both fall inside the block, and nothing elsewhere. */
  lemma {:induction false} BlockContribOfBlock(s: int, k: Matrix, r: int, c: int)
    requires IsMatrix(k, 6, 6)
    ensures Shaped(LocationBlock(s), k)
    ensures BlockContrib(LocationBlock(s), k, r, c, 6)
         == if s - 1 <= r < s + 5 && s - 1 <= c < s + 5 then k[r - s + 1][c - s + 1] else 0.0
  {
    BlockContribPrefix(s, k, r, c, 6);
  }

  predicate AllBlocksSymmetric(locs: seq<seq<seq<Location>>>, ks: seq<Matrix>, n: nat) {
    && |locs| == |ks|
    && (forall e :: 0 <= e < |locs| ==> IsBlock(locs[e], n))
    && (forall e :: 0 <= e < |ks| ==> IsMatrix(ks[e], 6, 6) && Symmetric(ks[e]))
  }

  lemma {:induction false} CellSumSymmetric(locs: seq<seq<seq<Location>>>, ks: seq<Matrix>, n: nat, r: int, c: int, ne: nat)
    requires AllBlocksSymmetric(locs, ks, n) && ne <= |locs|
    ensures AllShaped(locs, ks)
    ensures CellSum(locs, ks, r, c, ne) == CellSum(locs, ks, c, r, ne)
  {
    if ne > 0 {
      CellSumSymmetric(locs, ks, n, r, c, ne - 1);
      var s := locs[ne - 1][0][0].0;
      BlockContribOfBlock(s, ks[ne - 1], r, c);
      BlockContribOfBlock(s, ks[ne - 1], c, r);
    }
  }

  /** Contiguous blocks with equal row and column starts carry the symmetry of
      every element stiffness matrix over to the assembled matrix. */
  lemma {:induction false} AssembledSymmetric(locs: seq<seq<seq<Location>>>, ks: seq<Matrix>, n: nat)
    requires AllBlocksSymmetric(locs, ks, n)
    ensures AllShaped(locs, ks) && Symmetric(Assembled(locs, ks, n))
  {
    var m := Assembled(locs, ks, n);
    forall r, c | 0 <= r < n && 0 <= c < n ensures m[r][c] == m[c][r] {
      CellSumSymmetric(locs, ks, n, r, c, |locs|);
    }
  }
}
