/** `Vector` and `Matrix` of matrix.py (the same two classes are a section of
    onefile.py), with entries in the four-element field. A vector is its
    `list_form`; a matrix is its `vector_list`, a list of COLUMN vectors. The
    Python methods build fresh lists, so the operands are never changed; here
    they are values. */
module Linear {
  import opened Wrappers
  import opened F4Field

  type Vec = seq<F4>
  type Mat = seq<Vec>

  const OutOfRange := "list index out of range"
  const DotMismatch := "Dot product vectors must be same length"
  const VectorMismatch := "Attempting to multiply matrix with a vector of incompatible dimensions."
  const MatrixMismatch := "Attempting to multiply matrix with another matrix of incompatible dimensions."

  // ---------------------------------------------------------------------------
  // Vectors

  /** The entry-wise sum of `u` and the first |u| entries of `v`. */
  function Sum(u: Vec, v: Vec): (r: Vec)
    requires |u| <= |v|
    ensures |r| == |u|
  {
    seq(|u|, i requires 0 <= i < |u| => Add(u[i], v[i]))
  }

  /** `Vector.__add__`: a copy of `u` to which `v[i]` is added entry by entry;
      a shorter `v` runs out of entries. */
  method VectorAdd(u: Vec, v: Vec) returns (r: Result<Vec>)
    ensures |v| < |u| ==> r == Err(IndexError(OutOfRange))
    ensures |u| <= |v| ==> r.Ok? && |r.value| == |u|
    ensures |u| <= |v| ==> forall i :: 0 <= i < |u| ==> r.value[i] == Add(u[i], v[i])
  {
    var result := u;
    var i := 0;
    while i < |result|
      invariant 0 <= i <= |u| && |result| == |u|
      invariant i <= |v|
      invariant forall k :: 0 <= k < i ==> result[k] == Add(u[k], v[k])
      invariant forall k :: i <= k < |u| ==> result[k] == u[k]
    {
      if i >= |v| {
        return Err(IndexError(OutOfRange));
      }
      result := result[i := Add(result[i], v[i])];
      i := i + 1;
    }
    r := Ok(result);
  }

  /** The vector of `n` zeros. */
  function Zeros(n: nat): (r: Vec)
    ensures |r| == n && forall i :: 0 <= i < n ==> r[i] == Zero
  {
    seq(n, _ => Zero)
  }

  lemma SumCommutative(u: Vec, v: Vec)
    requires |u| == |v|
    ensures Sum(u, v) == Sum(v, u)
  {
    forall i | 0 <= i < |u|
      ensures Sum(u, v)[i] == Sum(v, u)[i]
    {
      AddCommutative(u[i], v[i]);
    }
  }

  /** Characteristic 2: a vector added to itself is zero. */
  lemma SumSelf(u: Vec)
    ensures Sum(u, u) == Zeros(|u|)
  {
    forall i | 0 <= i < |u|
      ensures Sum(u, u)[i] == Zero
    {
      AddSelfIsZero(u[i]);
    }
  }

  lemma SumZeros(u: Vec)
    ensures Sum(u, Zeros(|u|)) == u
  {
    forall i | 0 <= i < |u|
      ensures Sum(u, Zeros(|u|))[i] == u[i]
    {
      Identities(u[i]);
    }
  }

  /** `v * s`: every entry multiplied by the scalar. */
  function Scaled(v: Vec, s: F4): (r: Vec)
    ensures |r| == |v|
  {
    seq(|v|, i requires 0 <= i < |v| => Mul(v[i], s))
  }

  /** `Vector.__mul__` with a scalar: `list_form[i] *= other` on a copy. (A vector
      operand raises TypeError; the types rule it out here.) */
  method Scale(v: Vec, s: F4) returns (r: Vec)
    ensures r == Scaled(v, s)
  {
    r := v;
    var i := 0;
    while i < |r|
      invariant 0 <= i <= |v| && |r| == |v|
      invariant forall k :: 0 <= k < i ==> r[k] == Mul(v[k], s)
      invariant forall k :: i <= k < |v| ==> r[k] == v[k]
    {
      r := r[i := Mul(r[i], s)];
      i := i + 1;
    }
  }

  lemma ScaledOne(v: Vec)
    ensures Scaled(v, One) == v
  {
    forall i | 0 <= i < |v|
      ensures Scaled(v, One)[i] == v[i]
    {
      Identities(v[i]);
    }
  }

  /** Scaling twice is scaling by the product. */
  lemma ScaledTwice(v: Vec, a: F4, b: F4)
    ensures Scaled(Scaled(v, a), b) == Scaled(v, Mul(a, b))
  {
    forall i | 0 <= i < |v|
      ensures Scaled(Scaled(v, a), b)[i] == Scaled(v, Mul(a, b))[i]
    {
      MulAssociative(v[i], a, b);
    }
  }

  /** A nonzero scaling is undone by the inverse scalar. */
  lemma ScaledInverse(v: Vec, s: F4)
    requires s != Zero
    ensures Scaled(Scaled(v, s), Inverse(s)) == v
  {
    ScaledTwice(v, s, Inverse(s));
    ScaledOne(v);
  }

  /** The test of matrix.py: [x + 1, x] * x == [1, x + 1]. */
  lemma ScaleExample()
    ensures Scaled([Parse("x + 1"), Parse("x")], Parse("x")) == [Parse("1"), Parse("x + 1")]
  {
    assert [Parse("x + 1"), Parse("x")] == [XPlusOne, X];
    assert [Parse("1"), Parse("x + 1")] == [One, XPlusOne];
    assert Parse("x") == X;
    var r := Scaled([XPlusOne, X], X);
    assert r[0] == One && r[1] == XPlusOne;
    assert r == [r[0], r[1]];
  }

  /** a[0] * b[0] + ... + a[n-1] * b[n-1], summed from zero left to right. */
  function DotUpTo(a: Vec, b: Vec, n: nat): F4
    requires n <= |a| && n <= |b|
  {
    if n == 0 then Zero else Add(DotUpTo(a, b, n - 1), Mul(a[n - 1], b[n - 1]))
  }

  function Dot(a: Vec, b: Vec): F4
    requires |a| == |b|
  {
    DotUpTo(a, b, |a|)
  }

  /** `Vector.dot_product`: `a[0].add_id()` fails on an empty `a`, and the
      lengths must agree. */
  method DotProduct(a: Vec, b: Vec) returns (r: Result<F4>)
    ensures |a| == 0 ==> r == Err(IndexError(OutOfRange))
    ensures |a| > 0 && |a| != |b| ==> r == Err(ValueError(DotMismatch))
    ensures |a| > 0 && |a| == |b| ==> r == Ok(Dot(a, b))
  {
    if |a| == 0 {
      return Err(IndexError(OutOfRange));
    }
    if |a| != |b| {
      return Err(ValueError(DotMismatch));
    }
    var sum := SumProducts(a, b);
    r := Ok(sum);
  }

  /** The loop of `Vector.dot_product`: starting from `add_id()`, add the
      products of corresponding entries. */
  method SumProducts(a: Vec, b: Vec) returns (sum: F4)
    requires |a| == |b|
    ensures sum == Dot(a, b)
  {
    sum := AddId();
    for i := 0 to |a|
      invariant sum == DotUpTo(a, b, i)
    {
      sum := Add(sum, Mul(a[i], b[i]));
    }
  }

  /** Four-term rearrangement of sums. */
  lemma AddSwap(p: F4, q: F4, r: F4, s: F4)
    ensures Add(Add(p, q), Add(r, s)) == Add(Add(p, r), Add(q, s))
  {
    AddBits(p, q); AddBits(r, s); AddBits(Add(p, q), Add(r, s));
    AddBits(p, r); AddBits(q, s); AddBits(Add(p, r), Add(q, s));
    Ext(Add(Add(p, q), Add(r, s)), Add(Add(p, r), Add(q, s)));
  }

  /** The dot product is symmetric. */
  lemma {:induction false} DotSymmetric(a: Vec, b: Vec, n: nat)
    requires n <= |a| && n <= |b|
    ensures DotUpTo(a, b, n) == DotUpTo(b, a, n)
  {
    if n > 0 {
      DotSymmetric(a, b, n - 1);
      MulCommutative(a[n - 1], b[n - 1]);
    }
  }

  /** The dot product is linear in its second argument: scalars come out... */
  lemma {:induction false} DotScaled(a: Vec, b: Vec, s: F4, n: nat)
    requires n <= |a| && n <= |b|
    ensures DotUpTo(a, Scaled(b, s), n) == Mul(DotUpTo(a, b, n), s)
  {
    if n > 0 {
      DotScaled(a, b, s, n - 1);
      var d := DotUpTo(a, b, n - 1);
      var t := Mul(a[n - 1], b[n - 1]);
      MulAssociative(a[n - 1], b[n - 1], s);
      Distributive(s, d, t);
      MulCommutative(s, Add(d, t));
      MulCommutative(s, d);
      MulCommutative(s, t);
    }
  }

  /** ...and sums split. */
  lemma {:induction false} DotSum(a: Vec, b: Vec, c: Vec, n: nat)
    requires n <= |a| && n <= |b| && |b| == |c|
    ensures DotUpTo(a, Sum(b, c), n) == Add(DotUpTo(a, b, n), DotUpTo(a, c, n))
  {
    if n > 0 {
      DotSum(a, b, c, n - 1);
      Distributive(a[n - 1], b[n - 1], c[n - 1]);
      AddSwap(DotUpTo(a, b, n - 1), DotUpTo(a, c, n - 1), Mul(a[n - 1], b[n - 1]), Mul(a[n - 1], c[n - 1]));
    }
  }

  lemma {:induction false} DotZeros(a: Vec, n: nat)
    requires n <= |a|
    ensures DotUpTo(a, Zeros(|a|), n) == Zero
  {
    if n > 0 {
      DotZeros(a, n - 1);
      var z := Zeros(|a|);
      NoZeroDivisors(a[n - 1], Zero);
      var t := Mul(a[n - 1], z[n - 1]);
      assert t == Zero;
      var d := DotUpTo(a, z, n - 1);
      assert DotUpTo(a, z, n) == Add(d, t);
    }
  }

  // ---------------------------------------------------------------------------
  // Matrices

  function Width(m: Mat): nat
  {
    |m|
  }

  /** The length of the first column, 0 for a matrix without columns. */
  function Height(m: Mat): nat
  {
    if |m| > 0 then |m[0]| else 0
  }

  /** Every column reaches the height of the first, so every row can be read. */
  predicate FullColumns(m: Mat)
  {
    forall c :: 0 <= c < |m| ==> |m[c]| >= Height(m)
  }

  /** Every column has exactly the height of the first. */
  predicate Rect(m: Mat)
  {
    forall c :: 0 <= c < |m| ==> |m[c]| == Height(m)
  }

  /** The number of entries of the first row, 0 without rows. */
  function RowWidth(rows: seq<Vec>): nat
  {
    if |rows| > 0 then |rows[0]| else 0
  }

  /** The columns of a list of rows, each row cut to the width of the first. */
  function Transpose(rows: seq<Vec>): (m: Mat)
    requires forall k :: 0 <= k < |rows| ==> |rows[k]| >= RowWidth(rows)
    ensures |m| == RowWidth(rows) && forall c :: 0 <= c < |m| ==> |m[c]| == |rows|
  {
    seq(RowWidth(rows), c requires 0 <= c < RowWidth(rows) =>
      seq(|rows|, k requires 0 <= k < |rows| => rows[k][c]))
  }

  /** `Matrix.from_list`: one column per entry of the first row, filled row
      by row; a row shorter than the first runs out of entries. */
  method FromList(rows: seq<Vec>) returns (r: Result<Mat>)
    ensures r.Ok? <==> forall k :: 0 <= k < |rows| ==> |rows[k]| >= RowWidth(rows)
    ensures r.Err? ==> r.error == IndexError(OutOfRange)
    ensures r.Ok? ==> r.value == Transpose(rows)
  {
    var height := |rows|;
    var width := if height != 0 then |rows[0]| else 0;
    var columns: Mat := seq(width, _ => []);
    var k := 0;
    while k < height
      invariant 0 <= k <= height && |columns| == width
      invariant forall k' :: 0 <= k' < k ==> |rows[k']| >= width
      invariant forall c :: 0 <= c < width ==> columns[c] == seq(k, k' requires 0 <= k' < k => rows[k'][c])
    {
      var c := 0;
      while c < width
        invariant 0 <= c <= width && |columns| == width
        invariant c > 0 ==> |rows[k]| >= c
        invariant forall k' :: 0 <= k' < k ==> |rows[k']| >= width
        invariant forall c' :: 0 <= c' < width ==>
          columns[c'] == seq(if c' < c then k + 1 else k, k' requires 0 <= k' < (if c' < c then k + 1 else k) => rows[k'][c'])
      {
        if c >= |rows[k]| {
          return Err(IndexError(OutOfRange));
        }
        columns := columns[c := columns[c] + [rows[k][c]]];
        c := c + 1;
      }
      k := k + 1;
    }
    r := Ok(columns);
  }

  /** Row `i`: entry `i` of every column. */
  function Row(m: Mat, i: nat): (r: Vec)
    requires forall c :: 0 <= c < |m| ==> i < |m[c]|
    ensures |r| == |m|
  {
    seq(|m|, c requires 0 <= c < |m| => m[c][i])
  }

  /** `Matrix.get_row`. */
  method GetRow(m: Mat, i: nat) returns (r: Result<Vec>)
    ensures r.Ok? <==> forall c :: 0 <= c < |m| ==> i < |m[c]|
    ensures r.Err? ==> r.error == IndexError(OutOfRange)
    ensures r.Ok? ==> r.value == Row(m, i)
  {
    var row: Vec := [];
    var c := 0;
    while c < |m|
      invariant 0 <= c <= |m| && |row| == c
      invariant forall c' :: 0 <= c' < c ==> i < |m[c']| && row[c'] == m[c'][i]
    {
      if i >= |m[c]| {
        return Err(IndexError(OutOfRange));
      }
      row := row + [m[c][i]];
      c := c + 1;
    }
    r := Ok(row);
  }

  /** Reading back a row of the matrix built from rows gives the row. */
  lemma RowOfTranspose(rows: seq<Vec>, i: nat)
    requires forall k :: 0 <= k < |rows| ==> |rows[k]| == RowWidth(rows)
    requires i < |rows|
    ensures Row(Transpose(rows), i) == rows[i]
  {
  }

  /** The product with a vector, entry i being row i times `v`. */
  function Apply(m: Mat, v: Vec): (r: Vec)
    requires |v| == |m| && FullColumns(m)
    ensures |r| == Height(m)
  {
    seq(Height(m), i requires 0 <= i < Height(m) => Dot(Row(m, i), v))
  }

  /** `Matrix.__mul__` with a vector. */
  method MatVec(m: Mat, v: Vec) returns (r: Result<Vec>)
    ensures |v| != |m| ==> r == Err(IndexError(VectorMismatch))
    ensures |v| == |m| && !FullColumns(m) ==> r == Err(IndexError(OutOfRange))
    ensures |v| == |m| && FullColumns(m) ==> r == Ok(Apply(m, v))
  {
    if |v| != |m| {
      return Err(IndexError(VectorMismatch));
    }
    var result: Vec := [];
    var i := 0;
    var height := Height(m);
    while i < height
      invariant 0 <= i <= height && |result| == i
      invariant forall c :: 0 <= c < |m| ==> |m[c]| >= i
      invariant forall k :: 0 <= k < i ==> result[k] == Dot(Row(m, k), v)
    {
      var row := GetRow(m, i);
      if row.Err? {
        return Err(row.error);
      }
      var entry := DotProduct(row.value, v);
      if entry.Err? {
        assert false;
      }
      result := result + [entry.value];
      i := i + 1;
    }
    assert FullColumns(m);
    assert result == Apply(m, v);
    r := Ok(result);
  }

  /** Every column of `n` has the width of `m` as its length. */
  predicate Fitting(m: Mat, n: Mat)
  {
    forall j :: 0 <= j < |n| ==> |n[j]| == |m|
  }

  /** The product of two matrices, column by column. */
  function Product(m: Mat, n: Mat): (r: Mat)
    requires FullColumns(m) && Fitting(m, n)
    ensures |r| == |n| && forall j :: 0 <= j < |n| ==> |r[j]| == Height(m)
  {
    seq(|n|, j requires 0 <= j < |n| => Apply(m, n[j]))
  }

  /** `Matrix.__mul__` with a matrix: the heights must match the width, and
      each column is a product with a vector, which may raise in turn. */
  method MatMul(m: Mat, n: Mat) returns (r: Result<Mat>)
    ensures Height(n) != |m| ==> r == Err(IndexError(MatrixMismatch))
    ensures Height(n) == |m| && |n| > 0 && !FullColumns(m) ==> r == Err(IndexError(OutOfRange))
    ensures Height(n) == |m| && FullColumns(m) && !Fitting(m, n) ==> r == Err(IndexError(VectorMismatch))
    ensures Height(n) == |m| && FullColumns(m) && Fitting(m, n) ==> r == Ok(Product(m, n))
    ensures Height(n) == |m| && |n| == 0 ==> r == Ok([])
  {
    if Height(n) != |m| {
      return Err(IndexError(MatrixMismatch));
    }
    var result: Mat := [];
    var j := 0;
    while j < |n|
      invariant 0 <= j <= |n| && |result| == j
      invariant j > 0 ==> FullColumns(m)
      invariant forall k :: 0 <= k < j ==> |n[k]| == |m|
      invariant forall k :: 0 <= k < j ==> result[k] == Apply(m, n[k])
    {
      var column := MatVec(m, n[j]);
      if column.Err? {
        return Err(column.error);
      }
      result := result + [column.value];
      j := j + 1;
    }
    assert |n| > 0 ==> FullColumns(m);
    assert FullColumns(m) ==> result == Product(m, n);
    r := Ok(result);
  }

  /** Every column scaled. */
  function ScaledMatrix(m: Mat, s: F4): (r: Mat)
    ensures |r| == |m|
  {
    seq(|m|, j requires 0 <= j < |m| => Scaled(m[j], s))
  }

  /** `Matrix.__mul__` with a scalar: every column of a deep copy is scaled. */
  method MatScale(m: Mat, s: F4) returns (r: Mat)
    ensures r == ScaledMatrix(m, s)
  {
    r := m;
    var j := 0;
    while j < |r|
      invariant 0 <= j <= |m| && |r| == |m|
      invariant forall k :: 0 <= k < j ==> r[k] == Scaled(m[k], s)
      invariant forall k :: j <= k < |m| ==> r[k] == m[k]
    {
      var column := Scale(r[j], s);
      r := r[j := column];
      j := j + 1;
    }
  }

  // ---------------------------------------------------------------------------
  // Linearity

  /** The product with a vector commutes with scaling. */
  lemma ApplyScaled(m: Mat, v: Vec, s: F4)
    requires |v| == |m| && FullColumns(m)
    ensures Apply(m, Scaled(v, s)) == Scaled(Apply(m, v), s)
  {
    forall i | 0 <= i < Height(m)
      ensures Apply(m, Scaled(v, s))[i] == Scaled(Apply(m, v), s)[i]
    {
      DotScaled(Row(m, i), v, s, |v|);
    }
  }

  /** The product with a vector distributes over sums. */
  lemma ApplySum(m: Mat, u: Vec, v: Vec)
    requires |u| == |m| && |v| == |m| && FullColumns(m)
    ensures Apply(m, Sum(u, v)) == Sum(Apply(m, u), Apply(m, v))
  {
    forall i | 0 <= i < Height(m)
      ensures Apply(m, Sum(u, v))[i] == Sum(Apply(m, u), Apply(m, v))[i]
    {
      DotSum(Row(m, i), u, v, |u|);
    }
  }

  lemma ApplyZeros(m: Mat)
    requires FullColumns(m)
    ensures Apply(m, Zeros(|m|)) == Zeros(Height(m))
  {
    forall i | 0 <= i < Height(m)
      ensures Apply(m, Zeros(|m|))[i] == Zero
    {
      DotZeros(Row(m, i), |m|);
    }
  }

  /** v[0] * m[0] + ... + v[k-1] * m[k-1]: the first k columns of `m`
      weighted by the entries of `v`, as vectors of height h. */
  function Combination(m: Mat, v: Vec, k: nat, h: nat): (r: Vec)
    requires k <= |m| && k <= |v|
    requires forall c :: 0 <= c < |m| ==> |m[c]| == h
    ensures |r| == h
  {
    if k == 0 then Zeros(h) else Sum(Combination(m, v, k - 1, h), Scaled(m[k - 1], v[k - 1]))
  }

  /** Entry i of a weighted sum of columns is the dot product of row i with the weights. */
  lemma {:induction false} CombinationEntry(m: Mat, v: Vec, k: nat, h: nat, i: nat)
    requires k <= |m| && k <= |v|
    requires forall c :: 0 <= c < |m| ==> |m[c]| == h
    requires i < h
    ensures Combination(m, v, k, h)[i] == DotUpTo(Row(m, i), v, k)
  {
    if k > 0 {
      CombinationEntry(m, v, k - 1, h, i);
      MulCommutative(m[k - 1][i], v[k - 1]);
    }
  }

  /** The product with a vector is the combination of the columns. */
  lemma ApplyIsCombination(m: Mat, v: Vec)
    requires |v| == |m| && Rect(m)
    ensures Apply(m, v) == Combination(m, v, |m|, Height(m))
  {
    forall i | 0 <= i < Height(m)
      ensures Apply(m, v)[i] == Combination(m, v, |m|, Height(m))[i]
    {
      CombinationEntry(m, v, |m|, Height(m), i);
    }
  }

  lemma {:induction false} ApplyCombination(m: Mat, n: Mat, v: Vec, k: nat)
    requires Rect(m) && Fitting(m, n) && |v| == |n| && k <= |n|
    ensures Apply(m, Combination(n, v, k, |m|)) == Combination(Product(m, n), v, k, Height(m))
  {
    if k == 0 {
      ApplyZeros(m);
    } else {
      ApplyCombination(m, n, v, k - 1);
      var c := Combination(n, v, k - 1, |m|);
      ApplySum(m, c, Scaled(n[k - 1], v[k - 1]));
      ApplyScaled(m, n[k - 1], v[k - 1]);
    }
  }

  /** Matrix products compose: (m * n) * v == m * (n * v). */
  lemma ProductApply(m: Mat, n: Mat, v: Vec)
    requires Rect(m) && Rect(n) && Height(n) == |m| && |v| == |n|
    ensures Fitting(m, n) && FullColumns(Product(m, n)) && |v| == |Product(m, n)|
    ensures Apply(Product(m, n), v) == Apply(m, Apply(n, v))
  {
    assert Fitting(m, n);
    var p := Product(m, n);
    assert Rect(p) && FullColumns(p);
    ApplyIsCombination(n, v);
    ApplyIsCombination(p, v);
    ApplyCombination(m, n, v, |n|);
    if |n| == 0 {
      assert Apply(p, v) == [] == Apply(m, Apply(n, v));
    } else {
      assert Height(p) == Height(m);
    }
  }
}
