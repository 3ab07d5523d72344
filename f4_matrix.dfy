/** The matrix product of MultiplyF4Matrices.py: matrices are lists of rows of F4
    elements, and the product accumulates every term trans[i][k] * basis[k][j] into
    the entry [i][j] of a result grid that starts at zero. */
module F4Matrix {
  import opened Wrappers
  import opened F4Field

  /** Every row of `m` has the length of the first one. */
  predicate Rectangular(m: seq<seq<F4>>)
  {
    forall k :: 0 <= k < |m| ==> |m[k]| == |m[0]|
  }

  /** The sum row[0] * basis[0][j] + ... + row[n-1] * basis[n-1][j], accumulated
      from zero in the order the loops of the product add the terms. */
  function ColumnSum(row: seq<F4>, basis: seq<seq<F4>>, j: nat, n: nat): F4
    requires n <= |basis| && n <= |row|
    requires forall k :: 0 <= k < n ==> j < |basis[k]|
  {
    if n == 0 then Zero
    else Add(ColumnSum(row, basis, j, n - 1), Mul(row[n - 1], basis[n - 1][j]))
  }

  /** The grid the product returns when no index is out of range. */
  ghost predicate IsProduct(r: seq<seq<F4>>, trans: seq<seq<F4>>, basis: seq<seq<F4>>)
    requires |basis| > 0 && Rectangular(basis)
  {
    && |r| == |trans|
    && (forall i :: 0 <= i < |r| ==> |r[i]| == |basis[0]|)
    && (|basis[0]| > 0 ==> forall i :: 0 <= i < |trans| ==> |trans[i]| >= |basis|)
    && (forall i, j :: 0 <= i < |r| && 0 <= j < |r[i]| ==>
          r[i][j] == ColumnSum(trans[i], basis, j, |basis|))
  }

  /** `Matrix.__mul__` (without the final wrapping in the undefined `Matrix2`).
      `basis[0]` of an empty `basis` and `trans_row_entries[basis_row]` of a row
      shorter than `basis` raise IndexError. */
  method Product(trans: seq<seq<F4>>, basis: seq<seq<F4>>) returns (r: Result<seq<seq<F4>>>)
    requires Rectangular(basis)
    ensures r.Err? <==>
      basis == [] || (|basis[0]| > 0 && exists i :: 0 <= i < |trans| && |trans[i]| < |basis|)
    ensures r.Ok? ==> IsProduct(r.value, trans, basis)
  {
    if |basis| == 0 {
      return Err(IndexError("list index out of range"));
    }
    var width := |basis[0]|;
    var emptyRow := seq(width, _ => Zero);
    var result := seq(|trans|, _ => emptyRow);
    for k := 0 to |basis|
      invariant |result| == |trans|
      invariant forall i :: 0 <= i < |trans| ==> |result[i]| == width
      invariant width > 0 ==> forall i :: 0 <= i < |trans| ==> |trans[i]| >= k
      invariant forall i, j :: 0 <= i < |trans| && 0 <= j < width ==>
                  k <= |trans[i]| && result[i][j] == ColumnSum(trans[i], basis, j, k)
    {
      for j := 0 to |basis[k]|
        invariant |result| == |trans|
        invariant forall i :: 0 <= i < |trans| ==> |result[i]| == width
        invariant j > 0 ==> forall i :: 0 <= i < |trans| ==> |trans[i]| > k
        invariant forall i, j' :: 0 <= i < |trans| && 0 <= j' < width ==>
                    k <= |trans[i]| &&
                    result[i][j'] == ColumnSum(trans[i], basis, j', if j' < j then k + 1 else k)
      {
        var factor := basis[k][j];
        for i := 0 to |trans|
          invariant |result| == |trans|
          invariant forall i' :: 0 <= i' < |trans| ==> |result[i']| == width
          invariant j > 0 ==> forall i' :: 0 <= i' < |trans| ==> |trans[i']| > k
          invariant forall i' :: 0 <= i' < i ==> |trans[i']| > k
          invariant forall i', j' :: 0 <= i' < |trans| && 0 <= j' < width ==>
                      k <= |trans[i']| &&
                      result[i'][j'] == ColumnSum(trans[i'], basis, j',
                        if j' < j || (j' == j && i' < i) then k + 1 else k)
        {
          if k >= |trans[i]| {
            return Err(IndexError("list index out of range"));
          }
          var product := Mul(trans[i][k], factor);
          result := result[i := result[i][j := Add(result[i][j], product)]];
        }
      }
    }
    return Ok(result);
  }

  /** The n-by-n identity grid. */
  function Identity(n: nat): (m: seq<seq<F4>>)
    ensures |m| == n && Rectangular(m)
    ensures forall i :: 0 <= i < n ==> |m[i]| == n
  {
    seq(n, i => seq(n, j => if i == j then One else Zero))
  }

  /** Row i of the identity picks out row i of the other factor. */
  lemma {:induction false} IdentityColumnSum(n: nat, i: nat, basis: seq<seq<F4>>, j: nat, m: nat)
    requires i < n && m <= n && m <= |basis|
    requires forall k :: 0 <= k < m ==> j < |basis[k]|
    ensures ColumnSum(Identity(n)[i], basis, j, m) == if i < m then basis[i][j] else Zero
  {
    if m > 0 {
      IdentityColumnSum(n, i, basis, j, m - 1);
      var prev := ColumnSum(Identity(n)[i], basis, j, m - 1);
      var term := Mul(Identity(n)[i][m - 1], basis[m - 1][j]);
      Identities(basis[m - 1][j]);
      MulCommutative(Zero, basis[m - 1][j]);
      NoZeroDivisors(Zero, basis[m - 1][j]);
      if i == m - 1 {
        assert term == basis[i][j];
        assert prev == Zero;
        Identities(term);
        AddCommutative(prev, term);
      } else {
        assert term == Zero;
        Identities(prev);
      }
    }
  }

  /** The identity is a left unit of the product: I * B == B for a square-compatible B. */
  lemma IdentityProduct(basis: seq<seq<F4>>, r: seq<seq<F4>>)
    requires |basis| > 0 && Rectangular(basis)
    requires IsProduct(r, Identity(|basis|), basis)
    ensures r == basis
  {
    var n := |basis|;
    forall i | 0 <= i < n
      ensures r[i] == basis[i]
    {
      forall j | 0 <= j < |basis[0]|
        ensures r[i][j] == basis[i][j]
      {
        IdentityColumnSum(n, i, basis, j, n);
      }
    }
  }
}
