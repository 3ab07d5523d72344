/** The prime fields `F5(FiniteField)` and `F7(FiniteField)` of onefile.py
    (r = 1, irreducible polynomial x) multiply through their logarithm tables
    exactly as residues modulo p multiply, and are therefore distributive. */
module FieldPrime {
  import opened Wrappers
  import opened FieldPoly
  import opened FiniteField
  import opened FieldExamples

  /** The elements of a field with r = 1: one coefficient below p. */
  predicate InZp(p: nat, v: Poly)
  {
    Canonical(v, p) && |v| == 1
  }

  /** The table multiplication of `F` is multiplication of residues mod p. */
  predicate MulIsResidue(F: Attrs)
  {
    Sane(F) &&
    forall a: nat, b: nat | a < F.p && b < F.p :: MulSpec(F, [a], [b]) == Ok([(a * b) % F.p])
  }

  /** Adding two constants is adding residues. */
  lemma AddConst(p: nat, b: nat, c: nat)
    requires p > 0
    ensures AddSpec(p, [b], [c]) == [(b + c) % p]
  {
    var s := AddSpec(p, [b], [c]);
    forall i ensures Coef(s, i) == Coef([(b + c) % p], i)
    {
      if i >= 1 {
        assert Coef([b], i) == 0 && Coef([c], i) == 0;
      }
    }
    TrimmedUnique(s, [(b + c) % p]);
  }

  /** Multiplication distributes over addition modulo p. */
  lemma ModDistributive(p: nat, a: nat, b: nat, c: nat)
    requires p > 0
    ensures (a * ((b + c) % p)) % p == ((a * b) % p + (a * c) % p) % p
  {
    var q := (b + c) / p;
    assert b + c == q * p + (b + c) % p;
    assert a * (b + c) == a * ((b + c) % p) + (a * q) * p by {
      assert a * (b + c) == a * (q * p + (b + c) % p);
    }
    ModShift(a * ((b + c) % p), a * q, p);
    var qb, qc := (a * b) / p, (a * c) / p;
    assert a * b == qb * p + (a * b) % p;
    assert a * c == qc * p + (a * c) % p;
    ModShift((a * b) % p + (a * c) % p, qb + qc, p);
    assert (a * b) % p + (a * c) % p + (qb + qc) * p == a * (b + c);
  }

  /** Distributivity in a field whose multiplication is that of residues:
      for all elements u, v, w, u * (v + w) == u * v + u * w. */
  lemma Distributive(F: Attrs, u: Poly, v: Poly, w: Poly)
    requires MulIsResidue(F) && InZp(F.p, u) && InZp(F.p, v) && InZp(F.p, w)
    ensures Sane(F)
    ensures MulSpec(F, u, v).Ok? && MulSpec(F, u, w).Ok?
    ensures MulSpec(F, u, AddSpec(F.p, v, w))
         == Ok(AddSpec(F.p, MulSpec(F, u, v).value, MulSpec(F, u, w).value))
  {
    var p := F.p;
    var a, b, c := u[0], v[0], w[0];
    assert u == [a] && v == [b] && w == [c];
    AddConst(p, b, c);
    AddConst(p, (a * b) % p, (a * c) % p);
    ModDistributive(p, a, b, c);
  }

  /** The exponent of a nonzero residue mod 5 as a power of 2. */
  function Log5(a: nat): (k: nat)
    requires 1 <= a < 5
    ensures k < 4 && ([One] + [[2], [4], [3]])[k] == [a]
  {
    if a == 1 then 0 else if a == 2 then 1 else if a == 4 then 2 else 3
  }

  /** Exponents of 2 add modulo 4 as the residues mod 5 multiply. */
  lemma Log5Mul(a: nat, b: nat)
    requires 1 <= a < 5 && 1 <= b < 5
    ensures ([One] + [[2], [4], [3]])[(Log5(a) + Log5(b)) % 4] == [(a * b) % 5]
  {
    if a == 1 {
    } else if a == 2 {
      assert b == 1 || b == 2 || b == 3 || b == 4;
    } else if a == 3 {
      assert b == 1 || b == 2 || b == 3 || b == 4;
    } else {
      assert b == 1 || b == 2 || b == 3 || b == 4;
    }
  }

  /** The log tables of `F5(FiniteField)`: the powers of 2 mod 5. */
  lemma F5Tables(F: Attrs)
    requires IsF5(F)
    ensures Sane(F) && Size(F) == 5 && LogTablesSpec(F).Ok?
    ensures Good(LogTablesSpec(F).value, 4)
    ensures LogTablesSpec(F).value.table == [One] + [[2], [4], [3]]
  {
    F5Powers(F);
    F5Distinct();
    TablesGood(F, [[2], [4], [3]]);
  }

  /** One product of `F5(FiniteField)`. */
  lemma F5Mul(F: Attrs, a: nat, b: nat)
    requires IsF5(F) && a < 5 && b < 5
    ensures Sane(F) && MulSpec(F, [a], [b]) == Ok([(a * b) % 5])
  {
    F5Tables(F);
    if a != 0 && b != 0 {
      MulPowers(F, Log5(a), Log5(b));
      Log5Mul(a, b);
    }
  }

  /** `F5(FiniteField)` multiplies residues mod 5. */
  lemma F5Residue(F: Attrs)
    requires IsF5(F)
    ensures MulIsResidue(F)
  {
    forall a: nat, b: nat | a < 5 && b < 5
      ensures MulSpec(F, [a], [b]) == Ok([(a * b) % 5])
    {
      F5Mul(F, a, b);
    }
  }

  /** The exponent of a nonzero residue mod 7 as a power of 3. */
  function Log7(a: nat): (k: nat)
    requires 1 <= a < 7
    ensures k < 6 && ([One] + [[3], [2], [6], [4], [5]])[k] == [a]
  {
    if a == 1 then 0 else if a == 3 then 1 else if a == 2 then 2
    else if a == 6 then 3 else if a == 4 then 4 else 5
  }

  /** Exponents of 3 add modulo 6 as the residues mod 7 multiply. */
  lemma Log7Mul(a: nat, b: nat)
    requires 1 <= a < 7 && 1 <= b < 7
    ensures ([One] + [[3], [2], [6], [4], [5]])[(Log7(a) + Log7(b)) % 6] == [(a * b) % 7]
  {
    if a == 1 {
    } else if a == 2 {
      assert b == 1 || b == 2 || b == 3 || b == 4 || b == 5 || b == 6;
    } else if a == 3 {
      assert b == 1 || b == 2 || b == 3 || b == 4 || b == 5 || b == 6;
    } else if a == 4 {
      assert b == 1 || b == 2 || b == 3 || b == 4 || b == 5 || b == 6;
    } else if a == 5 {
      assert b == 1 || b == 2 || b == 3 || b == 4 || b == 5 || b == 6;
    } else {
      assert b == 1 || b == 2 || b == 3 || b == 4 || b == 5 || b == 6;
    }
  }

  /** The log tables of `F7(FiniteField)`: the powers of 3 mod 7. */
  lemma F7Tables(F: Attrs)
    requires IsF7(F)
    ensures Sane(F) && Size(F) == 7 && LogTablesSpec(F).Ok?
    ensures Good(LogTablesSpec(F).value, 6)
    ensures LogTablesSpec(F).value.table == [One] + [[3], [2], [6], [4], [5]]
  {
    F7Powers(F);
    F7Distinct();
    TablesGood(F, [[3], [2], [6], [4], [5]]);
  }

  /** One product of `F7(FiniteField)`. */
  lemma F7Mul(F: Attrs, a: nat, b: nat)
    requires IsF7(F) && a < 7 && b < 7
    ensures Sane(F) && MulSpec(F, [a], [b]) == Ok([(a * b) % 7])
  {
    F7Tables(F);
    if a != 0 && b != 0 {
      var i, j := Log7(a), Log7(b);
      MulPowers(F, i, j);
      Log7Mul(a, b);
    }
  }

  /** `F7(FiniteField)` multiplies residues mod 7. */
  lemma F7Residue(F: Attrs)
    requires IsF7(F)
    ensures MulIsResidue(F)
  {
    forall a: nat, b: nat | a < 7 && b < 7
      ensures MulSpec(F, [a], [b]) == Ok([(a * b) % 7])
    {
      F7Mul(F, a, b);
    }
  }
}
