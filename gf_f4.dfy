/** The field `F4(FiniteField)` of onefile.py (p = 2, r = 2, primitive x,
    irreducible x^2 + x + 1) is the hard-coded GF(4) of f4old.py, element for
    element: the map `Embed` from the two-bit elements onto the coefficient
    lists of degree below 2 carries `+` to `+` and `*` to `*`. Through it, the
    field laws proved for the two bits (distributivity among them) hold for
    the table-driven class as well. */
module FieldF4 {
  import opened Wrappers
  import opened FieldPoly
  import opened FiniteField
  import opened FieldExamples
  import G = F4Field

  /** The elements of `F4(FiniteField)`: canonical lists mod 2 of degree
      below 2, that is 0, 1, x and x + 1. */
  predicate InF4(v: Poly)
  {
    Canonical(v, 2) && |v| <= 2
  }

  /** The coefficient list of a two-bit element, constant term first. */
  function Embed(a: G.F4): (v: Poly)
    ensures InF4(v)
    ensures Coef(v, 0) == a.c && Coef(v, 1) == a.x
  {
    if a.x == 0 then [a.c] else [a.c, a.x]
  }

  /** The two-bit element of a coefficient list. */
  function Lift(v: Poly): (a: G.F4)
    requires InF4(v)
    ensures Embed(a) == v
  {
    var a := G.F4(v[0], Coef(v, 1));
    TrimmedUnique(Embed(a), v);
    a
  }

  lemma EmbedInjective(a: G.F4, b: G.F4)
    ensures Embed(a) == Embed(b) <==> a == b
  {
    if Embed(a) == Embed(b) {
      assert Coef(Embed(a), 0) == Coef(Embed(b), 0);
      assert Coef(Embed(a), 1) == Coef(Embed(b), 1);
    }
  }

  /** Addition of onefile.py on the embedded elements is the bitwise
      addition of f4old.py. */
  lemma EmbedAdd(a: G.F4, b: G.F4)
    ensures AddSpec(2, Embed(a), Embed(b)) == Embed(G.Add(a, b))
  {
    var s := AddSpec(2, Embed(a), Embed(b));
    forall i ensures Coef(s, i) == Coef(Embed(G.Add(a, b)), i)
    {
      if i >= 2 {
        assert Coef(Embed(a), i) == 0 && Coef(Embed(b), i) == 0;
      }
    }
    TrimmedUnique(s, Embed(G.Add(a, b)));
  }

  /** The exponent of a nonzero element as a power of x: 1, x, x^2 = x + 1. */
  function Log(a: G.F4): (k: nat)
    requires a != G.Zero
    ensures k < 3
  {
    if a == G.One then 0 else if a == G.X then 1 else 2
  }

  /** The logarithm table of `F4(FiniteField)`, as built from the primitive
      element x. */
  lemma EmbedLog(a: G.F4)
    requires a != G.Zero
    ensures Embed(a) == ([One] + [[0, 1], [1, 1]])[Log(a)]
  {
    G.Elements(a);
  }

  /** Products of nonzero two-bit elements add their exponents modulo 3. */
  lemma LogMul(a: G.F4, b: G.F4)
    requires a != G.Zero && b != G.Zero
    ensures G.Mul(a, b) != G.Zero && Log(G.Mul(a, b)) == (Log(a) + Log(b)) % 3
  {
    G.Elements(a);
    G.Elements(b);
    G.MulBits(a, b);
  }

  /** Multiplication of onefile.py, through the logarithm tables, on the
      embedded elements is the multiplication of f4old.py. */
  lemma EmbedMul(F: Attrs, a: G.F4, b: G.F4)
    requires IsF4(F)
    ensures Sane(F) && MulSpec(F, Embed(a), Embed(b)) == Ok(Embed(G.Mul(a, b)))
  {
    F4Powers(F);
    F4Distinct();
    TablesGood(F, [[0, 1], [1, 1]]);
    G.NoZeroDivisors(a, b);
    EmbedInjective(a, G.Zero);
    EmbedInjective(b, G.Zero);
    if a != G.Zero && b != G.Zero {
      MulPowers(F, Log(a), Log(b));
      LogMul(a, b);
      EmbedLog(a);
      EmbedLog(b);
      EmbedLog(G.Mul(a, b));
    }
  }

  /** Distributivity in `F4(FiniteField)`: for all elements u, v, w,
      u * (v + w) == u * v + u * w, with every product defined. */
  lemma Distributive(F: Attrs, u: Poly, v: Poly, w: Poly)
    requires IsF4(F) && InF4(u) && InF4(v) && InF4(w)
    ensures Sane(F)
    ensures MulSpec(F, u, v).Ok? && MulSpec(F, u, w).Ok?
    ensures MulSpec(F, u, AddSpec(2, v, w))
         == Ok(AddSpec(2, MulSpec(F, u, v).value, MulSpec(F, u, w).value))
  {
    var a, b, c := Lift(u), Lift(v), Lift(w);
    EmbedAdd(b, c);
    EmbedMul(F, a, G.Add(b, c));
    EmbedMul(F, a, b);
    EmbedMul(F, a, c);
    EmbedAdd(G.Mul(a, b), G.Mul(a, c));
    G.Distributive(a, b, c);
  }

  /** The multiplication of `F4(FiniteField)` is closed on its elements and
      commutative, associative, with identity 1. */
  lemma MulLaws(F: Attrs, u: Poly, v: Poly, w: Poly)
    requires IsF4(F) && InF4(u) && InF4(v) && InF4(w)
    ensures Sane(F)
    ensures MulSpec(F, u, v).Ok? && InF4(MulSpec(F, u, v).value)
    ensures MulSpec(F, u, v) == MulSpec(F, v, u)
    ensures MulSpec(F, u, One) == Ok(u)
    ensures MulSpec(F, u, v).value == Zero <==> u == Zero || v == Zero
    ensures MulSpec(F, v, w).Ok? && MulSpec(F, u, MulSpec(F, v, w).value)
         == MulSpec(F, MulSpec(F, u, v).value, w)
  {
    var a, b, c := Lift(u), Lift(v), Lift(w);
    EmbedMul(F, a, b);
    EmbedMul(F, b, a);
    EmbedMul(F, b, c);
    EmbedMul(F, a, G.One);
    EmbedMul(F, a, G.Mul(b, c));
    EmbedMul(F, G.Mul(a, b), c);
    G.MulCommutative(a, b);
    G.MulAssociative(a, b, c);
    G.Identities(a);
    G.NoZeroDivisors(a, b);
    EmbedInjective(G.Mul(a, b), G.Zero);
    EmbedInjective(a, G.Zero);
    EmbedInjective(b, G.Zero);
    assert Embed(G.One) == One;
  }
}
