/** Coefficient-list arithmetic of `FiniteField` in onefile.py: `__add__` and
    `poly_mult`. An element of GF(p^r) is its list of coefficients over Z_p,
    constant term first. */
module FieldPoly {
  import opened Wrappers

  /** A coefficient list, constant term first. */
  type Poly = seq<nat>

  /** Coefficient `i`, a missing coefficient read as 0. */
  function Coef(a: Poly, i: nat): nat
  {
    if i < |a| then a[i] else 0
  }

  function Max(m: nat, n: nat): nat
  {
    if m >= n then m else n
  }

  /** No zero at the end, except a lone constant term. */
  predicate Trimmed(a: Poly)
  {
    |a| > 0 && (|a| > 1 ==> a[|a| - 1] != 0)
  }

  /** Every coefficient is already reduced modulo `p`. */
  predicate Below(a: Poly, p: nat)
  {
    forall i :: 0 <= i < |a| ==> a[i] < p
  }

  /** The form every element reached by the arithmetic has. */
  predicate Canonical(a: Poly, p: nat)
  {
    Trimmed(a) && Below(a, p)
  }

  /** The trim loop of `__add__` and `poly_mult`: drop zeros from the end, but
      never the constant term. */
  function Trim(a: Poly): (r: Poly)
    ensures |r| <= |a| && r == a[..|r|]
    ensures |a| > 0 ==> Trimmed(r)
    ensures forall i :: |r| <= i < |a| ==> a[i] == 0
    decreases |a|
  {
    if |a| > 1 && a[|a| - 1] == 0 then Trim(a[..|a| - 1]) else a
  }

  /** Trimming never changes a coefficient. */
  lemma TrimCoef(a: Poly)
    ensures forall i :: Coef(Trim(a), i) == Coef(a, i)
  {
  }

  /** Two trimmed lists with the same coefficients are the same list. */
  lemma TrimmedUnique(a: Poly, b: Poly)
    requires Trimmed(a) && Trimmed(b)
    requires forall i :: Coef(a, i) == Coef(b, i)
    ensures a == b
  {
    var n := Max(|a|, |b|);
    assert Coef(a, n - 1) == Coef(b, n - 1);
    if |a| == |b| {
      forall i | 0 <= i < |a|
        ensures a[i] == b[i]
      {
        assert Coef(a, i) == Coef(b, i);
      }
    }
  }

  lemma TrimTrimmed(a: Poly)
    requires Trimmed(a)
    ensures Trim(a) == a
  {
  }

  // ---------------------------------------------------------------------------
  // __add__

  /** The list `__add__` builds before trimming. */
  function Sum(p: nat, a: Poly, b: Poly): (s: Poly)
    requires p > 0
  {
    seq(Max(|a|, |b|), i requires 0 <= i => (Coef(a, i) + Coef(b, i)) % p)
  }

  /** `a + b`: coefficient-wise modulo `p`, then trimmed. */
  function AddSpec(p: nat, a: Poly, b: Poly): (r: Poly)
    requires p > 0
    ensures forall i :: Coef(r, i) == (Coef(a, i) + Coef(b, i)) % p
    ensures |a| + |b| > 0 ==> Canonical(r, p)
  {
    var s := Sum(p, a, b);
    SumCoef(p, a, b);
    TrimCoef(s);
    Trim(s)
  }

  lemma SumCoef(p: nat, a: Poly, b: Poly)
    requires p > 0
    ensures forall i :: Coef(Sum(p, a, b), i) == (Coef(a, i) + Coef(b, i)) % p
    ensures Below(Sum(p, a, b), p)
  {
    var s := Sum(p, a, b);
    forall i: nat
      ensures Coef(s, i) == (Coef(a, i) + Coef(b, i)) % p
    {
      if i >= |s| {
        assert Coef(a, i) == 0 && Coef(b, i) == 0;
      }
    }
  }

  /** `__add__`: one pass building the sums, then the trim loop. */
  method Add(p: nat, a: Poly, b: Poly) returns (r: Poly)
    requires p > 0
    ensures r == AddSpec(p, a, b)
  {
    var n := Max(|a|, |b|);
    r := [];
    for power := 0 to n
      invariant r == Sum(p, a, b)[..power]
    {
      var x := if power < |a| then a[power] else 0;
      var y := if power < |b| then b[power] else 0;
      r := r + [(x + y) % p];
    }
    assert r == Sum(p, a, b);
    while |r| > 1 && r[|r| - 1] == 0
      invariant Trim(r) == Trim(Sum(p, a, b))
      decreases |r|
    {
      r := r[..|r| - 1];
    }
  }

  /** Addition does not depend on the order of the operands. */
  lemma AddCommutes(p: nat, a: Poly, b: Poly)
    requires p > 0
    ensures AddSpec(p, a, b) == AddSpec(p, b, a)
  {
    if |a| + |b| > 0 {
      TrimmedUnique(AddSpec(p, a, b), AddSpec(p, b, a));
    }
  }

  /** Addition is associative on elements. */
  lemma AddAssociates(p: nat, a: Poly, b: Poly, c: Poly)
    requires p > 0 && |a| > 0 && |b| > 0 && |c| > 0
    ensures AddSpec(p, AddSpec(p, a, b), c) == AddSpec(p, a, AddSpec(p, b, c))
  {
    var l, r := AddSpec(p, AddSpec(p, a, b), c), AddSpec(p, a, AddSpec(p, b, c));
    forall i
      ensures Coef(l, i) == Coef(r, i)
    {
      AssociatesAt(p, a, b, c, i);
    }
    TrimmedUnique(l, r);
  }

  lemma AssociatesAt(p: nat, a: Poly, b: Poly, c: Poly, i: nat)
    requires p > 0
    ensures Coef(AddSpec(p, AddSpec(p, a, b), c), i) == Coef(AddSpec(p, a, AddSpec(p, b, c)), i)
  {
    var x, y, z := Coef(a, i), Coef(b, i), Coef(c, i);
    var ab, bc := AddSpec(p, a, b), AddSpec(p, b, c);
    assert Coef(ab, i) == (x + y) % p;
    assert Coef(bc, i) == (y + z) % p;
    assert Coef(AddSpec(p, ab, c), i) == ((x + y) % p + z) % p;
    assert Coef(AddSpec(p, a, bc), i) == (x + (y + z) % p) % p;
    ModAssociates(x, y, z, p);
  }

  lemma ModAssociates(x: int, y: int, z: int, p: int)
    requires p > 0
    ensures ((x + y) % p + z) % p == (x + (y + z) % p) % p
  {
    var u, v := x + y, y + z;
    ModAddLeft(u, z, p);
    ModAddRight(x, v, p);
    assert u + z == x + v;
  }

  lemma ModAddLeft(x: int, y: int, p: int)
    requires p > 0
    ensures (x % p + y) % p == (x + y) % p
  {
    var q := x / p;
    assert x == q * p + x % p;
    ModShift(x % p + y, q, p);
  }

  lemma ModAddRight(x: int, y: int, p: int)
    requires p > 0
    ensures (x + y % p) % p == (x + y) % p
  {
    ModAddLeft(y, x, p);
  }

  /** Adding a multiple of `p` does not change the remainder. */
  lemma ModShift(x: int, q: int, p: int)
    requires p > 0
    ensures (x + q * p) % p == x % p
  {
    var b := x / p;
    assert x == b * p + x % p;
    assert x + q * p == (b + q) * p + x % p;
    ModUnique(x + q * p, p, b + q, x % p);
  }

  /** The remainder is the only `r` in [0, p) with `y == d * p + r`. */
  lemma ModUnique(y: int, p: int, d: int, r: int)
    requires p > 0 && y == d * p + r && 0 <= r < p
    ensures y % p == r
  {
    var d2 := y / p;
    assert y == d2 * p + y % p;
    assert (d2 - d) * p == r - y % p;
    if d2 - d >= 1 {
      MulAtLeast(d2 - d, p);
    } else if d - d2 >= 1 {
      MulAtLeast(d - d2, p);
    }
  }

  lemma ModSmall(x: int, p: int)
    requires 0 <= x < p
    ensures x % p == x
  {
    ModUnique(x, p, 0, x);
  }

  lemma MulAtLeast(k: int, p: int)
    requires k >= 1 && p > 0
    ensures k * p >= p
  {
  }

  /** The zero element `[0]` is neutral for addition of an element. */
  lemma AddZero(p: nat, a: Poly)
    requires p > 0 && Canonical(a, p)
    ensures AddSpec(p, [0], a) == a
  {
    var r := AddSpec(p, [0], a);
    forall i
      ensures Coef(r, i) == Coef(a, i)
    {
      assert Coef([0], i) == 0;
      ModSmall(Coef(a, i), p);
    }
    TrimmedUnique(r, a);
  }

  // ---------------------------------------------------------------------------
  // poly_mult

  /** The product of row `i` of the schoolbook table with the coefficient of
      `b` that lands on power `k`, reduced modulo `p`. */
  function Term(p: nat, a: Poly, b: Poly, i: nat, k: nat): nat
    requires p > 0
  {
    if i < |a| && i <= k && k - i < |b| then (a[i] * b[k - i]) % p else 0
  }

  /** Power `k` of the schoolbook product after the first `n` rows. */
  function RowSum(p: nat, a: Poly, b: Poly, k: nat, n: nat): nat
    requires p > 0
  {
    if n == 0 then 0 else RowSum(p, a, b, k, n - 1) + Term(p, a, b, n - 1, k)
  }

  /** The unreduced product: the `result` list before the reduction step. Its
      entries are sums of reduced products and are not themselves reduced. */
  function Conv(p: nat, a: Poly, b: Poly): (c: Poly)
    requires p > 0 && |a| > 0 && |b| > 0
    ensures |c| == |a| + |b| - 1
  {
    seq(|a| + |b| - 1, k requires 0 <= k => RowSum(p, a, b, k, |a|))
  }

  /** The reduction step for a product of degree exactly `|irr| - 1`: the top
      coefficient is removed and minus that coefficient times the lower part
      of the irreducible polynomial is added, modulo `p`; then trimmed. */
  function ReduceTop(p: nat, irr: Poly, c: Poly): (r: Poly)
    requires p > 0 && |c| == |irr| >= 2
    ensures Canonical(r, p)
  {
    var d := |irr| - 1;
    Trim(seq(d, i requires 0 <= i < d => (c[i] + irr[i] * -c[d]) % p))
  }

  /** `poly_mult(p1, p2)`: ValueError when the product's degree exceeds that of
      the irreducible polynomial, one reduction step when it equals it, the
      plain product otherwise. */
  function PolyMultSpec(p: nat, irr: Poly, a: Poly, b: Poly): (r: Result<Poly>)
    requires p > 0 && |irr| > 0 && |a| > 0 && |b| > 0
    ensures r.Err? <==> |a| + |b| > |irr| + 1
    ensures r.Ok? && |a| + |b| < |irr| + 1 ==> r.value == Conv(p, a, b)
    ensures r.Ok? && |a| + |b| == |irr| + 1 && |irr| > 1 ==> Canonical(r.value, p) && |r.value| < |irr|
  {
    var newOrder, d := |a| + |b| - 2, |irr| - 1;
    if newOrder > d then Err(ValueError("Poly mult is not meant for this!"))
    else if newOrder == d then
      if d == 0 then Ok([])
      else Ok(ReduceTop(p, irr, Conv(p, a, b)))
    else Ok(Conv(p, a, b))
  }

  /** `poly_mult`: the double loop over both coefficient lists, then the
      reduction and trim loops. */
  method PolyMult(p: nat, irr: Poly, a: Poly, b: Poly) returns (r: Result<Poly>)
    requires p > 0 && |irr| > 0 && |a| > 0 && |b| > 0
    ensures r == PolyMultSpec(p, irr, a, b)
  {
    var n := |a| + |b| - 1;
    var result: Poly := seq(n, _ => 0);
    for i := 0 to |a|
      invariant |result| == n
      invariant forall k :: 0 <= k < n ==> result[k] == RowSum(p, a, b, k, i)
    {
      for j := 0 to |b|
        invariant |result| == n
        invariant forall k :: 0 <= k < n ==>
          result[k] == RowSum(p, a, b, k, i) + (if i <= k && k - i < j then Term(p, a, b, i, k) else 0)
      {
        result := result[i + j := result[i + j] + (a[i] * b[j]) % p];
      }
    }
    assert result == Conv(p, a, b);
    var d := |irr| - 1;
    if n - 1 > d {
      return Err(ValueError("Poly mult is not meant for this!"));
    }
    if n - 1 == d {
      if d == 0 {
        return Ok([]);
      }
      ghost var c := result;
      var neg := irr[..d];
      var factor: int := -(result[d] as int);
      result := result[..d];
      for power := 0 to d
        invariant |result| == d
        invariant forall i :: 0 <= i < power ==> result[i] == (c[i] + irr[i] * -c[d]) % p
        invariant forall i :: power <= i < d ==> result[i] == c[i]
      {
        result := result[power := (result[power] + neg[power] * factor) % p];
      }
      assert result == seq(d, i requires 0 <= i < d => (c[i] + irr[i] * -c[d]) % p);
      while |result| > 1 && result[|result| - 1] == 0
        invariant |result| > 0 && Trim(result) == ReduceTop(p, irr, c)
        decreases |result|
      {
        result := result[..|result| - 1];
      }
    }
    return Ok(result);
  }

  /** The value of the reduction step: below the degree `d` of the
      irreducible polynomial, coefficient `i` is `c[i] - c[d] * irr[i]`
      modulo `p` (x^d is replaced by minus the lower part of `irr`), and
      nothing is left from power `d` up. */
  lemma ReduceTopCoef(p: nat, irr: Poly, c: Poly)
    requires p > 0 && |c| == |irr| >= 2
    ensures forall i :: 0 <= i < |irr| - 1 ==>
      Coef(ReduceTop(p, irr, c), i) == (c[i] - c[|irr| - 1] * irr[i]) % p
    ensures forall i :: i >= |irr| - 1 ==> Coef(ReduceTop(p, irr, c), i) == 0
  {
    var d := |irr| - 1;
    var s := seq(d, i requires 0 <= i < d => (c[i] + irr[i] * -c[d]) % p);
    TrimCoef(s);
    forall i | 0 <= i < d
      ensures Coef(ReduceTop(p, irr, c), i) == (c[i] - c[d] * irr[i]) % p
    {
      var ci: int, ii: int, cd: int := c[i], irr[i], c[d];
      assert ci + ii * -cd == ci - cd * ii;
    }
  }

  /** Multiplying by x (`primitive == [0, 1]`) shifts the coefficients up by
      one place, as long as the degree stays below that of the irreducible
      polynomial. */
  lemma ConvByX(p: nat, v: Poly)
    requires p > 0 && |v| > 0 && Below(v, p)
    ensures Conv(p, v, [0, 1]) == [0] + v
  {
    var c := Conv(p, v, [0, 1]);
    forall k | 0 <= k < |c|
      ensures c[k] == ([0] + v)[k]
    {
      RowSumByX(p, v, k, |v|);
    }
  }

  lemma {:induction false} RowSumByX(p: nat, v: Poly, k: nat, n: nat)
    requires p > 0 && n <= |v| && Below(v, p)
    ensures RowSum(p, v, [0, 1], k, n) == if 1 <= k <= n then v[k - 1] else 0
  {
    if n > 0 {
      RowSumByX(p, v, k, n - 1);
      var i := n - 1;
      var x: Poly := [0, 1];
      if i <= k && k - i < 2 {
        if k - i == 1 {
          assert x[k - i] == 1 && v[i] * 1 == v[i];
          ModSmall(v[i], p);
        } else {
          assert x[k - i] == 0 && v[i] * 0 == 0;
          ModSmall(0, p);
        }
      }
    }
  }
}
