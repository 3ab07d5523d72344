/** The checks of `field_tests` in onefile.py on the fields F4, F5, F7 and
    F8: the powers of each primitive element, and the products, sums and
    quotients the checks compare. */
module FieldExamples {
  import opened Wrappers
  import opened FieldPoly
  import opened FiniteField
  import opened FieldText

  /* The field classes of onefile.py used below, given by their class
     attributes. The lemmas take the class as a parameter: a class written
     as a literal would have the verifier evaluate all its tables on every
     mention. */

  predicate IsF4(F: Attrs)
  {
    F.p == 2 && F.r == 2 && F.primitive == [0, 1] && F.irreducible == [1, 1, 1]
  }

  predicate IsF5(F: Attrs)
  {
    F.p == 5 && F.r == 1 && F.primitive == [2] && F.irreducible == [0, 1]
  }

  predicate IsF7(F: Attrs)
  {
    F.p == 7 && F.r == 1 && F.primitive == [3] && F.irreducible == [0, 1]
  }

  predicate IsF8(F: Attrs)
  {
    F.p == 2 && F.r == 3 && F.primitive == [0, 1] && F.irreducible == [1, 1, 0, 1]
  }

  /** The product of two constants. */
  lemma ConvConst(p: nat, c: nat, d: nat)
    requires p > 0
    ensures Conv(p, [c], [d]) == [(c * d) % p]
  {
    assert Conv(p, [c], [d])[0] == RowSum(p, [c], [d], 0, 1);
  }

  /** The reduction step, coefficient by coefficient. */
  lemma Reduced(p: nat, irr: Poly, c: Poly, r: Poly)
    requires p > 0 && |c| == |irr| >= 2 && |r| == |irr| - 1
    requires forall i :: 0 <= i < |r| ==> r[i] == (c[i] + irr[i] * -c[|r|]) % p
    ensures ReduceTop(p, irr, c) == Trim(r)
  {
    var d := |irr| - 1;
    var s := seq(d, i requires 0 <= i < d => (c[i] + irr[i] * -c[d]) % p);
    forall i | 0 <= i < d
      ensures s[i] == r[i]
    {
    }
    assert s == r;
  }

  /** Multiplying by the primitive element x below the degree of the
      irreducible polynomial shifts the coefficients up. */
  lemma ShiftStep(F: Attrs, v: Poly)
    requires Sane(F) && F.primitive == [0, 1] && |v| > 0 && Below(v, F.p)
    requires |v| + 1 < |F.irreducible|
    ensures NextPower(F, v) == Ok([0] + v)
  {
    ConvByX(F.p, v);
  }

  /** Multiplying by x up to the degree of the irreducible polynomial
      shifts the coefficients up and then reduces the top one. */
  lemma ReduceStep(F: Attrs, v: Poly, r: Poly)
    requires Sane(F) && F.primitive == [0, 1] && |v| > 0 && Below(v, F.p)
    requires |v| + 1 == |F.irreducible| && |r| == |v|
    requires forall i :: 0 <= i < |r| ==> r[i] == (([0] + v)[i] + F.irreducible[i] * -v[|v| - 1]) % F.p
    ensures NextPower(F, v) == Ok(Trim(r))
  {
    ConvByX(F.p, v);
    Reduced(F.p, F.irreducible, [0] + v, r);
  }

  /** One more power of the primitive element at the front of the list. */
  lemma PowersStep(F: Attrs, v: Poly, w: Poly, count: nat, ws: seq<Poly>)
    requires Sane(F) && |v| > 0 && count >= 1 && w != One
    requires NextPower(F, v) == Ok(w) && PowersFrom(F, w, count - 1) == Ok(ws)
    ensures PowersFrom(F, v, count) == Ok([w] + ws)
  {
  }

  // ---------------------------------------------------------------------------
  // F4 = Z_2[x] / (x^2 + x + 1), primitive element x

  lemma F4Powers(F: Attrs)
    requires IsF4(F)
    ensures Sane(F) && Size(F) == 4
    ensures PowersFrom(F, One, Size(F) - 2) == Ok([[0, 1], [1, 1]])
  {
    assert Size(F) == 4;
    ShiftStep(F, [1]);
    assert [0] + [1] == [0, 1];
    ReduceStep(F, [0, 1], [1, 1]);
    assert [0, 1] != One && [1, 1] != One;
    PowersStep(F, [0, 1], [1, 1], 1, []);
    assert [[1, 1]] + [] == [[1, 1]];
    PowersStep(F, [1], [0, 1], 2, [[1, 1]]);
    assert [[0, 1]] + [[1, 1]] == [[0, 1], [1, 1]];
  }

  lemma F4Distinct()
    ensures Distinct([One] + [[0, 1], [1, 1]])
  {
    var s := [One] + [[0, 1], [1, 1]];
    forall i, j | 0 <= i < j < |s|
      ensures s[i] != s[j]
    {
      assert |s[i]| != |s[j]| || s[i][0] != s[j][0];
    }
  }

  /** (x + 1) * (x + 1) == x in F4. */
  lemma F4Product(F: Attrs)
    requires IsF4(F)
    ensures Sane(F) && MulSpec(F, [1, 1], [1, 1]) == Ok([0, 1])
  {
    F4Powers(F);
    F4Distinct();
    TablesGood(F, [[0, 1], [1, 1]]);
    MulPowers(F, 2, 2);
    ModShift(1, 1, Size(F) - 1);
    ModSmall(1, Size(F) - 1);
  }

  /** (x + 1) + (x + 1) == 0 and 0 + (x + 1) == x + 1 in F4. */
  lemma F4Sums()
    ensures AddSpec(2, [1, 1], [1, 1]) == Zero
    ensures AddSpec(2, Zero, [1, 1]) == [1, 1]
  {
    assert Sum(2, [1, 1], [1, 1]) == [0, 0];
    assert Sum(2, Zero, [1, 1]) == [1, 1];
  }

  // ---------------------------------------------------------------------------
  // F5 and F7: prime fields, primitive elements 2 and 3

  lemma F5Powers(F: Attrs)
    requires IsF5(F)
    ensures Sane(F) && Size(F) == 5
    ensures PowersFrom(F, One, Size(F) - 2) == Ok([[2], [4], [3]])
  {
    assert Size(F) == 5;
    ConvConst(5, 1, 2);
    ConvConst(5, 2, 2);
    ConvConst(5, 4, 2);
    assert [2] != One && [4] != One && [3] != One by { assert One[0] == 1; }
    PowersStep(F, [4], [3], 1, []);
    assert [[3]] + [] == [[3]];
    PowersStep(F, [2], [4], 2, [[3]]);
    assert [[4]] + [[3]] == [[4], [3]];
    PowersStep(F, [1], [2], 3, [[4], [3]]);
    assert [[2]] + [[4], [3]] == [[2], [4], [3]];
  }

  lemma F5Distinct()
    ensures Distinct([One] + [[2], [4], [3]])
  {
    var s := [One] + [[2], [4], [3]];
    forall i, j | 0 <= i < j < |s|
      ensures s[i] != s[j]
    {
      assert s[i][0] != s[j][0];
    }
  }

  /** 3 * 3 == 4 in F5. */
  lemma F5Product(F: Attrs)
    requires IsF5(F)
    ensures Sane(F) && MulSpec(F, [3], [3]) == Ok([4])
  {
    F5Powers(F);
    F5Distinct();
    TablesGood(F, [[2], [4], [3]]);
    MulPowers(F, 3, 3);
    ModShift(2, 1, Size(F) - 1);
    ModSmall(2, Size(F) - 1);
  }

  /** 3 + 3 == 1 in F5. */
  lemma F5Sum()
    ensures AddSpec(5, [3], [3]) == [1]
  {
    assert Sum(5, [3], [3]) == [1];
  }

  lemma F7Powers(F: Attrs)
    requires IsF7(F)
    ensures Sane(F) && Size(F) == 7
    ensures PowersFrom(F, One, Size(F) - 2) == Ok([[3], [2], [6], [4], [5]])
  {
    assert Size(F) == 7;
    ConvConst(7, 1, 3);
    ConvConst(7, 3, 3);
    ConvConst(7, 2, 3);
    ConvConst(7, 6, 3);
    ConvConst(7, 4, 3);
    assert [3] != One && [2] != One && [6] != One && [4] != One && [5] != One by { assert One[0] == 1; }
    PowersStep(F, [4], [5], 1, []);
    assert [[5]] + [] == [[5]];
    PowersStep(F, [6], [4], 2, [[5]]);
    assert [[4]] + [[5]] == [[4], [5]];
    PowersStep(F, [2], [6], 3, [[4], [5]]);
    assert [[6]] + [[4], [5]] == [[6], [4], [5]];
    PowersStep(F, [3], [2], 4, [[6], [4], [5]]);
    assert [[2]] + [[6], [4], [5]] == [[2], [6], [4], [5]];
    PowersStep(F, [1], [3], 5, [[2], [6], [4], [5]]);
    assert [[3]] + [[2], [6], [4], [5]] == [[3], [2], [6], [4], [5]];
  }

  lemma F7Distinct()
    ensures Distinct([One] + [[3], [2], [6], [4], [5]])
  {
    var s := [One] + [[3], [2], [6], [4], [5]];
    forall i, j | 0 <= i < j < |s|
      ensures s[i] != s[j]
    {
      assert s[i][0] != s[j][0];
    }
  }

  /** 3 * 4 == 5 in F7. */
  lemma F7Product(F: Attrs)
    requires IsF7(F)
    ensures Sane(F) && MulSpec(F, [3], [4]) == Ok([5])
  {
    F7Powers(F);
    F7Distinct();
    TablesGood(F, [[3], [2], [6], [4], [5]]);
    MulPowers(F, 1, 4);
    ModSmall(1 + 4, Size(F) - 1);
  }

  /** 3 + 4 == 0 in F7. */
  lemma F7Sum()
    ensures AddSpec(7, [3], [4]) == Zero
  {
    assert Sum(7, [3], [4]) == [0];
  }

  // ---------------------------------------------------------------------------
  // F8 = Z_2[x] / (x^3 + x + 1), primitive element x

  /** The powers of x in F8 below x^3 times x: plain shifts. */
  lemma F8Shifts(F: Attrs)
    requires IsF8(F)
    ensures Sane(F) && Size(F) == 8
    ensures NextPower(F, [1]) == Ok([0, 1])
    ensures NextPower(F, [0, 1]) == Ok([0, 0, 1])
    ensures NextPower(F, [1, 1]) == Ok([0, 1, 1])
  {
    assert Size(F) == 8;
    ShiftStep(F, [1]);
    assert [0] + [1] == [0, 1];
    ShiftStep(F, [0, 1]);
    assert [0] + [0, 1] == [0, 0, 1];
    ShiftStep(F, [1, 1]);
    assert [0] + [1, 1] == [0, 1, 1];
  }

  /** x^2 * x == x + 1 in F8: x^3 is replaced by x + 1. */
  lemma F8Cube(F: Attrs)
    requires IsF8(F)
    ensures NextPower(F, [0, 0, 1]) == Ok([1, 1])
  {
    ReduceStep(F, [0, 0, 1], [1, 1, 0]);
    assert Trim([1, 1, 0]) == [1, 1];
  }

  /** (x^2 + x) * x == x^2 + x + 1 in F8. */
  lemma F8Fifth(F: Attrs)
    requires IsF8(F)
    ensures NextPower(F, [0, 1, 1]) == Ok([1, 1, 1])
  {
    ReduceStep(F, [0, 1, 1], [1, 1, 1]);
  }

  /** (x^2 + x + 1) * x == x^2 + 1 in F8. */
  lemma F8Sixth(F: Attrs)
    requires IsF8(F)
    ensures NextPower(F, [1, 1, 1]) == Ok([1, 0, 1])
  {
    ReduceStep(F, [1, 1, 1], [1, 0, 1]);
  }

  lemma F8Powers(F: Attrs)
    requires IsF8(F)
    ensures Sane(F) && Size(F) == 8
    ensures PowersFrom(F, One, Size(F) - 2) ==
      Ok([[0, 1], [0, 0, 1], [1, 1], [0, 1, 1], [1, 1, 1], [1, 0, 1]])
  {
    F8Shifts(F);
    F8Cube(F);
    F8Fifth(F);
    F8Sixth(F);
    PowersStep(F, [1, 1, 1], [1, 0, 1], 1, []);
    assert [[1, 0, 1]] + [] == [[1, 0, 1]];
    PowersStep(F, [0, 1, 1], [1, 1, 1], 2, [[1, 0, 1]]);
    assert [[1, 1, 1]] + [[1, 0, 1]] == [[1, 1, 1], [1, 0, 1]];
    PowersStep(F, [1, 1], [0, 1, 1], 3, [[1, 1, 1], [1, 0, 1]]);
    assert [[0, 1, 1]] + [[1, 1, 1], [1, 0, 1]] == [[0, 1, 1], [1, 1, 1], [1, 0, 1]];
    PowersStep(F, [0, 0, 1], [1, 1], 4, [[0, 1, 1], [1, 1, 1], [1, 0, 1]]);
    assert [[1, 1]] + [[0, 1, 1], [1, 1, 1], [1, 0, 1]] == [[1, 1], [0, 1, 1], [1, 1, 1], [1, 0, 1]];
    PowersStep(F, [0, 1], [0, 0, 1], 5, [[1, 1], [0, 1, 1], [1, 1, 1], [1, 0, 1]]);
    assert [[0, 0, 1]] + [[1, 1], [0, 1, 1], [1, 1, 1], [1, 0, 1]] == [[0, 0, 1], [1, 1], [0, 1, 1], [1, 1, 1], [1, 0, 1]];
    PowersStep(F, [1], [0, 1], 6, [[0, 0, 1], [1, 1], [0, 1, 1], [1, 1, 1], [1, 0, 1]]);
    assert [[0, 1]] + [[0, 0, 1], [1, 1], [0, 1, 1], [1, 1, 1], [1, 0, 1]] == [[0, 1], [0, 0, 1], [1, 1], [0, 1, 1], [1, 1, 1], [1, 0, 1]];
  }

  lemma F8Distinct()
    ensures Distinct([One] + [[0, 1], [0, 0, 1], [1, 1], [0, 1, 1], [1, 1, 1], [1, 0, 1]])
  {
    var s := [One] + [[0, 1], [0, 0, 1], [1, 1], [0, 1, 1], [1, 1, 1], [1, 0, 1]];
    forall i, j | 0 <= i < j < |s|
      ensures s[i] != s[j]
    {
      assert |s[i]| != |s[j]| || s[i][0] != s[j][0] || s[i][1] != s[j][1];
    }
  }

  /** (x^2 + 1) * x == 1 in F8. */
  lemma F8Product(F: Attrs)
    requires IsF8(F)
    ensures Sane(F) && MulSpec(F, [1, 0, 1], [0, 1]) == Ok(One)
  {
    F8Powers(F);
    F8Distinct();
    TablesGood(F, [[0, 1], [0, 0, 1], [1, 1], [0, 1, 1], [1, 1, 1], [1, 0, 1]]);
    MulPowers(F, 6, 1);
    ModUnique(6 + 1, Size(F) - 1, 1, 0);
  }

  /** (x^2 + 1) + x == x^2 + x + 1 in F8. */
  lemma F8Sum()
    ensures AddSpec(2, [1, 0, 1], [0, 1]) == [1, 1, 1]
  {
    assert Sum(2, [1, 0, 1], [0, 1]) == [1, 1, 1];
  }

  /** ((x^2 + 1) / x) * x == x^2 + 1 in F8. */
  lemma F8Quotient(F: Attrs)
    requires IsF8(F)
    ensures Sane(F) && DivSpec(F, [1, 0, 1], [0, 1]).Ok?
    ensures MulSpec(F, DivSpec(F, [1, 0, 1], [0, 1]).value, [0, 1]) == Ok([1, 0, 1])
  {
    F8Powers(F);
    F8Distinct();
    TablesGood(F, [[0, 1], [0, 0, 1], [1, 1], [0, 1, 1], [1, 1, 1], [1, 0, 1]]);
    var t := LogTablesSpec(F).value;
    assert t.table[6] in t.reverse && t.table[1] in t.reverse;
    DivThenMul(F, t, [1, 0, 1], [0, 1]);
  }

  /** x * (1 / x) == 1 in F8. */
  lemma F8Reciprocal(F: Attrs)
    requires IsF8(F)
    ensures Sane(F) && DivSpec(F, One, [0, 1]).Ok?
    ensures MulSpec(F, [0, 1], DivSpec(F, One, [0, 1]).value) == Ok(One)
  {
    F8Powers(F);
    F8Distinct();
    TablesGood(F, [[0, 1], [0, 0, 1], [1, 1], [0, 1, 1], [1, 1, 1], [1, 0, 1]]);
    var t := LogTablesSpec(F).value;
    assert t.table[1] in t.reverse;
    Reciprocal(F, t, [0, 1]);
  }

  // ---------------------------------------------------------------------------
  // The strings the checks construct their elements from

  /** `F4("x + 1")` reads x + 1. */
  lemma ParsedLinear()
    ensures ParseSpec(2, "x + 1") == Ok([1, 1])
  {
    assert TermText(1, 1) == "x";
    assert TermText(1, 0) == "1" by { assert NatStr(1) == "1"; }
    assert RenderTerms([1, 1], 2) == ["x", "1"];
    assert ["x", "1"][1..] == ["1"];
    assert RenderSpec([1, 1]) == "x + 1";
    RenderParse(2, [1, 1]);
  }

  /** `F8("x^2 + 1")` reads x^2 + 1. */
  lemma ParsedSquare()
    ensures ParseSpec(2, "x^2 + 1") == Ok([1, 0, 1])
  {
    assert TermText(1, 2) == "x^2" by { assert NatStr(2) == "2"; }
    assert TermText(1, 0) == "1" by { assert NatStr(1) == "1"; }
    assert RenderTerms([1, 0, 1], 3) == ["x^2", "1"];
    assert ["x^2", "1"][1..] == ["1"];
    assert RenderSpec([1, 0, 1]) == "x^2 + 1";
    RenderParse(2, [1, 0, 1]);
  }

  /** `"0"` reads zero in every field. */
  lemma ParsedZero(p: nat)
    requires p > 0
    ensures ParseSpec(p, "0") == Ok(Zero)
  {
    assert RemoveSpaces("0") == "0";
  }
}
