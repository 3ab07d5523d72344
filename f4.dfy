/** The hard-coded four-element field GF(4) of f4old.py and MultiplyF4Matrices.py.
    An element is c_term + x_term * x with both terms in {0, 1}, and x * x = x + 1
    (so x is a root of x^2 + x + 1 over GF(2)). Both files define the same arithmetic;
    they differ only in `all_values` (a set in f4old.py, a list in MultiplyF4Matrices.py)
    and in f4old.py's `__hash__` and identities. */
module F4Field {

  type Bit = b: nat | b < 2

  /** A field element: `c` is the constant term, `x` the coefficient of x. */
  datatype F4 = F4(c: Bit, x: Bit)

  const Zero: F4 := F4(0, 0)
  const One: F4 := F4(1, 0)
  const X: F4 := F4(0, 1)
  const XPlusOne: F4 := F4(1, 1)

  /** The constructor: only the four spellings below are recognised; every other
      string (including the default "0") gives zero, without an error. */
  function Parse(s: string := "0"): (r: F4)
    ensures s !in {"1", "x", "x + 1", "x+1"} ==> r == Zero
  {
    if s == "1" then One
    else if s == "x" then X
    else if s == "x + 1" || s == "x+1" then XPlusOne
    else Zero
  }

  /** `__add__`: component-wise addition mod 2. */
  function Add(a: F4, b: F4): F4
  {
    F4((a.c + b.c) % 2, (a.x + b.x) % 2)
  }

  /** `__mul__`: schoolbook product where the x*x term contributes x + 1. */
  function Mul(a: F4, b: F4): F4
  {
    var extra := a.x * b.x;
    F4((a.c * b.c + extra) % 2, (a.x * b.c + a.c * b.x + extra) % 2)
  }

  /** `__hash__` of f4old.py. */
  function Hash(a: F4): nat
  {
    a.x * 2 + a.c
  }

  /** `__unicode__`. */
  function Render(a: F4): string
  {
    if a.x == 1 && a.c == 1 then "x + 1"
    else if a.x == 1 && a.c == 0 then "x"
    else if a.c == 1 then "1" else "0"
  }

  /** `mult_id` and `add_id` of f4old.py. */
  function MultId(): (r: F4)
    ensures r == One
  {
    Parse("1")
  }

  function AddId(): (r: F4)
    ensures r == Zero
  {
    Parse("0")
  }

  /** `all_values` of MultiplyF4Matrices.py: a list of the elements. */
  function AllValues(): seq<F4>
  {
    [Parse("0"), Parse("1"), Parse("x"), Parse("x + 1")]
  }

  /** `all_values` of f4old.py: a set of the elements. */
  function AllValuesSet(): set<F4>
  {
    {Parse("0"), Parse("1"), Parse("x"), Parse("x + 1")}
  }

  /** The multiplicative inverse of a nonzero element (not in the source; it
      witnesses that F4 is a field). */
  function Inverse(a: F4): (r: F4)
    requires a != Zero
    ensures Mul(a, r) == One
  {
    var r := if a == One then One else if a == X then XPlusOne else X;
    MulBits(a, r);
    Ext(Mul(a, r), One);
    r
  }

  // ---------------------------------------------------------------------------
  // A boolean view of the mod-2 arithmetic: the solver reasons about `!=` on
  // booleans far more cheaply than about `%` on products.

  predicate Set(u: Bit) { u == 1 }

  lemma MulBits(a: F4, b: F4)
    ensures Set(Mul(a, b).c) == ((Set(a.c) && Set(b.c)) != (Set(a.x) && Set(b.x)))
    ensures Set(Mul(a, b).x) == (((Set(a.x) && Set(b.c)) != (Set(a.c) && Set(b.x))) != (Set(a.x) && Set(b.x)))
  {
    if a.x == 0 { assert a.x * b.x == 0 && a.x * b.c == 0; } else { assert a.x * b.x == b.x && a.x * b.c == b.c; }
    if a.c == 0 { assert a.c * b.c == 0 && a.c * b.x == 0; } else { assert a.c * b.c == b.c && a.c * b.x == b.x; }
  }

  lemma AddBits(a: F4, b: F4)
    ensures Set(Add(a, b).c) == (Set(a.c) != Set(b.c))
    ensures Set(Add(a, b).x) == (Set(a.x) != Set(b.x))
  {
  }

  lemma Ext(a: F4, b: F4)
    requires Set(a.c) == Set(b.c) && Set(a.x) == Set(b.x)
    ensures a == b
  {
  }

  // ---------------------------------------------------------------------------
  // Properties

  lemma Elements(a: F4)
    ensures a == Zero || a == One || a == X || a == XPlusOne
  {
  }

  /** The literal test cases of the source and the defining relation x * x = x + 1. */
  lemma SourceExamples()
    ensures Mul(X, X) == XPlusOne
    ensures Mul(XPlusOne, XPlusOne) == X
    ensures Add(XPlusOne, XPlusOne) == Zero
    ensures Add(Zero, XPlusOne) == XPlusOne
  {
    MulBits(X, X); Ext(Mul(X, X), XPlusOne);
    MulBits(XPlusOne, XPlusOne); Ext(Mul(XPlusOne, XPlusOne), X);
    AddBits(XPlusOne, XPlusOne); Ext(Add(XPlusOne, XPlusOne), Zero);
    AddBits(Zero, XPlusOne); Ext(Add(Zero, XPlusOne), XPlusOne);
  }

  /** Zero and one are the identities (`add_id`, `mult_id`). */
  lemma Identities(a: F4)
    ensures Add(a, AddId()) == a && Add(AddId(), a) == a
    ensures Mul(a, MultId()) == a && Mul(MultId(), a) == a
  {
    AddBits(a, Zero); Ext(Add(a, Zero), a);
    AddBits(Zero, a); Ext(Add(Zero, a), a);
    MulBits(a, One); Ext(Mul(a, One), a);
    MulBits(One, a); Ext(Mul(One, a), a);
  }

  /** Characteristic 2: every element is its own additive inverse. */
  lemma AddSelfIsZero(a: F4)
    ensures Add(a, a) == Zero
  {
    AddBits(a, a); Ext(Add(a, a), Zero);
  }

  lemma AddCommutative(a: F4, b: F4)
    ensures Add(a, b) == Add(b, a)
  {
    AddBits(a, b); AddBits(b, a); Ext(Add(a, b), Add(b, a));
  }

  lemma AddAssociative(a: F4, b: F4, c: F4)
    ensures Add(Add(a, b), c) == Add(a, Add(b, c))
  {
    AddBits(a, b); AddBits(Add(a, b), c); AddBits(b, c); AddBits(a, Add(b, c));
    Ext(Add(Add(a, b), c), Add(a, Add(b, c)));
  }

  lemma MulCommutative(a: F4, b: F4)
    ensures Mul(a, b) == Mul(b, a)
  {
    MulBits(a, b); MulBits(b, a); Ext(Mul(a, b), Mul(b, a));
  }

  lemma MulAssociative(a: F4, b: F4, c: F4)
    ensures Mul(Mul(a, b), c) == Mul(a, Mul(b, c))
  {
    MulBits(a, b); MulBits(Mul(a, b), c); MulBits(b, c); MulBits(a, Mul(b, c));
    Ext(Mul(Mul(a, b), c), Mul(a, Mul(b, c)));
  }

  lemma Distributive(a: F4, b: F4, c: F4)
    ensures Mul(a, Add(b, c)) == Add(Mul(a, b), Mul(a, c))
  {
    AddBits(b, c); MulBits(a, Add(b, c)); MulBits(a, b); MulBits(a, c);
    AddBits(Mul(a, b), Mul(a, c));
    Ext(Mul(a, Add(b, c)), Add(Mul(a, b), Mul(a, c)));
  }

  lemma NoZeroDivisors(a: F4, b: F4)
    ensures Mul(a, b) == Zero <==> a == Zero || b == Zero
  {
    MulBits(a, b);
    if a == Zero || b == Zero {
      Ext(Mul(a, b), Zero);
    }
  }

  /** Every nonzero element is a power of x: 1, x, x^2 = x + 1, and x^3 = 1. */
  lemma PowersOfX()
    ensures Mul(One, X) == X && Mul(X, X) == XPlusOne && Mul(XPlusOne, X) == One
  {
    MulBits(One, X); Ext(Mul(One, X), X);
    MulBits(X, X); Ext(Mul(X, X), XPlusOne);
    MulBits(XPlusOne, X); Ext(Mul(XPlusOne, X), One);
  }

  /** Equality compares both terms and the hash separates the four elements. */
  lemma HashInjective(a: F4, b: F4)
    ensures Hash(a) < 4
    ensures Hash(a) == Hash(b) <==> a == b
  {
  }

  /** `all_values` lists 0, 1, x, x + 1 in that order: four distinct elements and
      every element of the field; the set version holds the same four. */
  lemma AllValuesComplete(a: F4)
    ensures AllValues() == [Zero, One, X, XPlusOne]
    ensures forall i, j :: 0 <= i < j < |AllValues()| ==> AllValues()[i] != AllValues()[j]
    ensures a in AllValues() && a in AllValuesSet()
    ensures |AllValuesSet()| == 4
  {
    Elements(a);
    assert AllValuesSet() == {Zero, One, X, XPlusOne};
  }

  /** Parsing the rendering gives back the element. */
  lemma RenderParseRoundTrip(a: F4)
    ensures Parse(Render(a)) == a
    ensures Render(a) in {"0", "1", "x", "x + 1"}
  {
    Elements(a);
  }
}
