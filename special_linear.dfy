/** The matrices of the isomorphism demonstration: 2x2 matrices over GF(4)
    built by `Matrix.from_list([[a1, a2], [a3, a4]])` from entries drawn until
    a1 * a4 - a2 * a3 == 1, the special linear group SL(2, 4). Every matrix
    with a nonzero determinant permutes the five lines of GF(4)^2, so the
    homomorphism property holds for every pair the demonstration can draw. */
module SpecialLinear {
  import opened Wrappers
  import opened F4Field
  import opened Linear
  import opened Permutations
  import opened PermutationOps
  import opened PermutationCompose
  import opened Isomorphism
  import opened IsomorphismLaws
  import Ex = IsomorphismExample
  import Hom = Homomorphism

  /** Two columns of two entries each. */
  predicate Square2(m: Mat)
  {
    |m| == 2 && |m[0]| == 2 && |m[1]| == 2
  }

  /** The determinant of a 2x2 matrix given by its columns; in characteristic
      2 subtraction is addition. */
  function Det(m: Mat): F4
    requires Square2(m)
  {
    Add(Mul(m[0][0], m[1][1]), Mul(m[1][0], m[0][1]))
  }

  /** The rows [[a1, a2], [a3, a4]] the demonstration accepts: two rows of
      two entries with a1 * a4 + a2 * a3 * (-1) == 1, where -1 == 1 in GF(4). */
  predicate InSL2(rows: seq<Vec>)
  {
    && |rows| == 2 && |rows[0]| == 2 && |rows[1]| == 2
    && Add(Mul(rows[0][0], rows[1][1]), Mul(Mul(rows[0][1], rows[1][0]), One)) == One
  }

  /** `from_list` of accepted rows is a square matrix of determinant 1. */
  lemma FromRows(rows: seq<Vec>)
    requires InSL2(rows)
    ensures Square2(Transpose(rows)) && Det(Transpose(rows)) == One
  {
    var m := Transpose(rows);
    assert m[0][0] == rows[0][0] && m[1][1] == rows[1][1];
    assert m[1][0] == rows[0][1] && m[0][1] == rows[1][0];
    Identities(Mul(rows[0][1], rows[1][0]));
    MulCommutative(rows[0][1], rows[1][0]);
  }

  /** In characteristic 2 a sum is zero exactly when the summands are equal. */
  lemma AddZeroEq(x: F4, y: F4)
    ensures Add(x, y) == Zero <==> x == y
  {
    AddBits(x, y);
    if Add(x, y) == Zero { Ext(x, y); }
    AddSelfIsZero(x);
  }

  /** Sums of four terms may be regrouped. */
  lemma Regroup(p: F4, q: F4, r: F4, s: F4)
    ensures Add(Add(p, q), Add(r, s)) == Add(Add(p, r), Add(q, s))
  {
    AddBits(p, q); AddBits(r, s); AddBits(Add(p, q), Add(r, s));
    AddBits(p, r); AddBits(q, s); AddBits(Add(p, r), Add(q, s));
    Ext(Add(Add(p, q), Add(r, s)), Add(Add(p, r), Add(q, s)));
  }

  /** The factors of a triple product may be exchanged. */
  lemma Exchange(x: F4, y: F4, z: F4)
    ensures Mul(x, Mul(y, z)) == Mul(y, Mul(x, z)) == Mul(Mul(x, y), z)
  {
    MulAssociative(x, y, z);
    MulAssociative(y, x, z);
    MulCommutative(x, y);
  }

  /** A linear form that vanishes on (w0, w1) for two rows of nonzero
      determinant forces w0 == w1 == 0. */
  lemma CramerZero(a: F4, b: F4, c: F4, d: F4, w0: F4, w1: F4)
    requires Add(Mul(a, d), Mul(b, c)) != Zero
    requires Add(Mul(a, w0), Mul(b, w1)) == Zero && Add(Mul(c, w0), Mul(d, w1)) == Zero
    ensures w0 == Zero && w1 == Zero
  {
    var det := Add(Mul(a, d), Mul(b, c));
    AddZeroEq(Mul(a, w0), Mul(b, w1));
    AddZeroEq(Mul(c, w0), Mul(d, w1));
    // (a d) w0 == (b c) w0
    Exchange(a, d, w0);
    Exchange(d, b, w1);
    Exchange(b, c, w0);
    assert Mul(Mul(a, d), w0) == Mul(Mul(b, c), w0);
    Distributive(w0, Mul(a, d), Mul(b, c));
    MulCommutative(w0, Mul(a, d)); MulCommutative(w0, Mul(b, c));
    AddZeroEq(Mul(Mul(a, d), w0), Mul(Mul(b, c), w0));
    NoZeroDivisors(w0, det);
    // (a d) w1 == (b c) w1
    Exchange(a, d, w1);
    Exchange(a, c, w0);
    Exchange(b, c, w1);
    assert Mul(Mul(a, d), w1) == Mul(Mul(b, c), w1);
    Distributive(w1, Mul(a, d), Mul(b, c));
    MulCommutative(w1, Mul(a, d)); MulCommutative(w1, Mul(b, c));
    AddZeroEq(Mul(Mul(a, d), w1), Mul(Mul(b, c), w1));
    NoZeroDivisors(w1, det);
  }

  /** The difference of a linear form's values is its value on the
      difference of the arguments. */
  lemma FormDifference(a: F4, b: F4, u0: F4, u1: F4, v0: F4, v1: F4)
    ensures Add(Add(Mul(a, u0), Mul(b, u1)), Add(Mul(a, v0), Mul(b, v1)))
         == Add(Mul(a, Add(u0, v0)), Mul(b, Add(u1, v1)))
  {
    Regroup(Mul(a, u0), Mul(b, u1), Mul(a, v0), Mul(b, v1));
    Distributive(a, u0, v0);
    Distributive(b, u1, v1);
  }

  /** Two linear forms that agree on two vectors whose determinant is
      nonzero agree only when the vectors are equal: Cramer's rule over GF(4). */
  lemma Cramer(a: F4, b: F4, c: F4, d: F4, u0: F4, u1: F4, v0: F4, v1: F4)
    requires Add(Mul(a, d), Mul(b, c)) != Zero
    requires Add(Mul(a, u0), Mul(b, u1)) == Add(Mul(a, v0), Mul(b, v1))
    requires Add(Mul(c, u0), Mul(d, u1)) == Add(Mul(c, v0), Mul(d, v1))
    ensures u0 == v0 && u1 == v1
  {
    AddZeroEq(Add(Mul(a, u0), Mul(b, u1)), Add(Mul(a, v0), Mul(b, v1)));
    AddZeroEq(Add(Mul(c, u0), Mul(d, u1)), Add(Mul(c, v0), Mul(d, v1)));
    FormDifference(a, b, u0, u1, v0, v1);
    FormDifference(c, d, u0, u1, v0, v1);
    CramerZero(a, b, c, d, Add(u0, v0), Add(u1, v1));
    AddZeroEq(u0, v0);
    AddZeroEq(u1, v1);
  }

  /** A matrix with a nonzero determinant sends distinct pairs to distinct
      pairs. */
  lemma ApplyInjective(m: Mat, u: Vec, v: Vec)
    requires Square2(m) && Det(m) != Zero && |u| == 2 && |v| == 2
    requires FullColumns(m) && Apply(m, u) == Apply(m, v)
    ensures u == v
  {
    assert u == [u[0], u[1]] && v == [v[0], v[1]];
    Ex.ApplyPair(m, u[0], u[1]);
    Ex.ApplyPair(m, v[0], v[1]);
    Identities(Mul(m[0][0], u[0])); Identities(Mul(m[0][1], u[0]));
    Identities(Mul(m[0][0], v[0])); Identities(Mul(m[0][1], v[0]));
    Cramer(m[0][0], m[1][0], m[0][1], m[1][1], u[0], u[1], v[0], v[1]);
  }

  /** Every nonzero pair lies on one of the five lines. */
  lemma LineOf(v: Vec)
    requires |v| == 2 && v != [Zero, Zero]
    ensures FirstLine(v, Ex.LinesF4, 0).Some?
  {
    assert v == [v[0], v[1]];
    Elements(v[0]);
    Elements(v[1]);
    Ex.Line0(v); Ex.Line1(v); Ex.Line2(v); Ex.Line3(v); Ex.Line4(v);
  }

  /** The spanning vectors of the five lines, one by one. */
  lemma LineVectors(i: nat)
    requires i < 5
    ensures i == 0 ==> Ex.LinesF4[i] == [One, Zero]
    ensures i == 1 ==> Ex.LinesF4[i] == [Zero, One]
    ensures i == 2 ==> Ex.LinesF4[i] == [One, X]
    ensures i == 3 ==> Ex.LinesF4[i] == [One, One]
    ensures i == 4 ==> Ex.LinesF4[i] == [One, XPlusOne]
  {
  }

  /** The vector of a line lies on no other line. */
  lemma LinesApart(i: nat, j: nat)
    requires i < 5 && j < 5 && OnLine(Ex.LinesF4[i], Ex.LinesF4[j])
    ensures i == j
  {
    var v := Ex.LinesF4[i];
    LineVectors(i);
    if j == 0 { Ex.Line0(v); ApartFrom(v, i, Zero); }
    else if j == 1 { Ex.Line1(v); ApartFrom1(v, i); }
    else if j == 2 { Ex.Line2(v); ApartFrom(v, i, X); }
    else if j == 3 { Ex.Line3(v); ApartFrom(v, i, One); }
    else { Ex.Line4(v); ApartFrom(v, i, XPlusOne); }
  }

  /** The three vectors [s, s * y] of slope `y` lie on one line only: line 0
      for y = 0, line 2 for x, line 3 for 1 and line 4 for x + 1. */
  lemma ApartFrom(v: Vec, i: nat, y: F4)
    requires i < 5 && v == Ex.LinesF4[i]
    requires y == Zero ==> v == [One, Zero] || v == [X, Zero] || v == [XPlusOne, Zero]
    requires y == X ==> v == [One, X] || v == [X, XPlusOne] || v == [XPlusOne, One]
    requires y == One ==> v == [One, One] || v == [X, X] || v == [XPlusOne, XPlusOne]
    requires y == XPlusOne ==> v == [One, XPlusOne] || v == [X, One] || v == [XPlusOne, X]
    ensures y == Zero ==> i == 0
    ensures y == X ==> i == 2
    ensures y == One ==> i == 3
    ensures y == XPlusOne ==> i == 4
  {
    LineVectors(i);
  }

  /** Only line 1 holds vectors with first entry zero. */
  lemma ApartFrom1(v: Vec, i: nat)
    requires i < 5 && v == Ex.LinesF4[i]
    requires v == [Zero, One] || v == [Zero, X] || v == [Zero, XPlusOne]
    ensures i == 1
  {
    LineVectors(i);
  }

  /** A matrix with a nonzero determinant carries every line onto a line. */
  lemma ImageOnLine(m: Mat, i: nat)
    requires Square2(m) && Det(m) != Zero && i < 5
    ensures FullColumns(m) && FirstLine(Apply(m, Ex.LinesF4[i]), Ex.LinesF4, 0).Some?
  {
    var l := Ex.LinesF4[i];
    assert l != [Zero, Zero] by { assert l[0] != Zero || l[1] != Zero; }
    ApplyZeros(m);
    assert Zeros(2) == [Zero, Zero];
    if Apply(m, l) == [Zero, Zero] {
      ApplyInjective(m, l, Zeros(2));
      assert false;
    }
    LineOf(Apply(m, l));
  }

  /** A matrix with a nonzero determinant acts on the five lines. */
  lemma Acting(m: Mat)
    requires Square2(m) && Det(m) != Zero
    ensures Rect(m) && Acts(m, Ex.LinesF4)
  {
    var lines := Ex.LinesF4;
    Ex.LinesArePairs();
    assert FullColumns(m) && Rect(m);
    forall i | 0 <= i < |lines|
      ensures FirstLine(Apply(m, lines[i]), lines, 0).Some?
    {
      ImageOnLine(m, i);
    }
    assert forall i {:trigger FirstLine(Apply(m, lines[i]), lines, 0)} :: 0 <= i < |lines| ==>
      FirstLine(Apply(m, lines[i]), lines, 0).Some?;
  }

  /** Two lines carried onto the same line are the same line. */
  lemma ActionInjective(m: Mat, i: nat, j: nat)
    requires Square2(m) && Det(m) != Zero && i < 5 && j < 5
    requires Acts(m, Ex.LinesF4) && Action(m, Ex.LinesF4)[i] == Action(m, Ex.LinesF4)[j]
    ensures i == j
  {
    var lines := Ex.LinesF4;
    var k := Action(m, lines)[i];
    var li, lj, lk := lines[i], lines[j], lines[k];
    var s :| s in NonZero() && Apply(m, li) == Scaled(lk, s);
    var t :| t in NonZero() && Apply(m, lj) == Scaled(lk, t);
    ApplyScaled(m, li, t);
    ApplyScaled(m, lj, s);
    ScaledTwice(lk, s, t);
    ScaledTwice(lk, t, s);
    MulCommutative(s, t);
    ApplyInjective(m, Scaled(li, t), Scaled(lj, s));
    ScaledInverse(li, t);
    ScaledTwice(lj, s, F4Field.Inverse(t));
    NoZeroDivisors(t, F4Field.Inverse(t));
    NoZeroDivisors(s, F4Field.Inverse(t));
    assert Mul(s, F4Field.Inverse(t)) in NonZero();
    assert OnLine(li, lj);
    LinesApart(i, j);
  }

  /** Every matrix with a nonzero determinant permutes the five lines. */
  lemma InvertiblePermutes(m: Mat)
    requires Square2(m) && Det(m) != Zero
    ensures Rect(m) && Permutes(m, Ex.LinesF4)
  {
    Acting(m);
    var f := Action(m, Ex.LinesF4);
    forall i, j | 0 <= i < |f| && 0 <= j < |f| && f[i] == f[j]
      ensures i == j
    {
      ActionInjective(m, i, j);
    }
  }

  /** Both matrices permute the lines. */
  lemma BothPermute(a: Mat, b: Mat, lines: seq<Vec>)
    requires Square2(a) && Square2(b) && Det(a) != Zero && Det(b) != Zero
    requires lines == Ex.LinesF4
    ensures Rect(a) && Rect(b) && Permutes(a, lines) && Permutes(b, lines)
  {
    InvertiblePermutes(a);
    InvertiblePermutes(b);
  }

  /** The homomorphism property for every pair of matrices with nonzero
      determinants, over the five lines `lines` of GF(4)^2: the permutation of
      `a * b` is the composite of the permutations of `a` and `b`, and both
      render alike. */
  lemma InvertibleHomomorphism(a: Mat, b: Mat, lines: seq<Vec>)
    requires Square2(a) && Square2(b) && Det(a) != Zero && Det(b) != Zero
    requires lines == Ex.LinesF4
    ensures Fitting(a, b)
    ensures var pa, pb, pab := MatrixToPermutationSpec(a, lines), MatrixToPermutationSpec(b, lines),
                               MatrixToPermutationSpec(Product(a, b), lines);
      && pa.Ok? && pb.Ok? && pab.Ok?
      && var c := ComposeSpec(pa.value, pb.value);
         && c.Ok? && Valid(c.value) && c.value.next == pab.value.next
         && RenderSpec(c.value) == RenderSpec(pab.value)
  {
    BothPermute(a, b, lines);
    Hom.MatrixToPermutationHomomorphism(a, b, lines);
  }

  /** The assertion of the demonstration, for every pair of SL(2, 4)
      matrices it can draw: `from_list` of the accepted rows gives matrices
      whose product's permutation, over the five lines `lines`, is the
      composite of their permutations. */
  lemma SpecialLinearHomomorphism(ra: seq<Vec>, rb: seq<Vec>, lines: seq<Vec>)
    requires InSL2(ra) && InSL2(rb) && lines == Ex.LinesF4
    ensures Square2(Transpose(ra)) && Square2(Transpose(rb))
    ensures var a, b := Transpose(ra), Transpose(rb);
      && Fitting(a, b)
      && var pa, pb, pab := MatrixToPermutationSpec(a, lines), MatrixToPermutationSpec(b, lines),
                            MatrixToPermutationSpec(Product(a, b), lines);
         && pa.Ok? && pb.Ok? && pab.Ok?
         && var c := ComposeSpec(pa.value, pb.value);
            && c.Ok? && Valid(c.value) && c.value.next == pab.value.next
            && RenderSpec(c.value) == RenderSpec(pab.value)
  {
    FromRows(ra);
    FromRows(rb);
    InvertibleHomomorphism(Transpose(ra), Transpose(rb), lines);
  }
}
