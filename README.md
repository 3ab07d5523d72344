# discrete-math in Dafny

This project models the computational core of the `discrete-math` Python
repository and proves properties of it. The core has three parts.

- **Finite fields GF(p^r)** (`onefile.py`).
  - An element is a list of coefficients over Z_p, lowest power first.
  - A field class holds the characteristic `p`, the degree `r`, an irreducible polynomial and a primitive element.
  - Addition works coefficient by coefficient, then trims trailing zeros.
  - Multiplication and division go through a discrete-log table. The class builds it lazily on first use and caches it on the class.
  - The polynomial product `poly_mult` reduces once by the irreducible polynomial.
  - `all_values` enumerates the field as 0, 1 and the powers of the primitive element.
  - The module also includes the string parser (`__init__`), the renderer (`__unicode__`) and `__hash__`.
  - The field classes F4, F5, F7 and F8 and their `field_tests` are proved as examples.
  - `F4(FiniteField)` is proved equal, element for element, to the two-bit GF(4) below. F4, F5 and F7 are proved distributive.
- **The hard-coded GF(4)** of `f4old.py` and `MultiplyF4Matrices.py`.
  - An element is two bits, the constant and the `x` term.
  - `MultiplyF4Matrices.py` also has a triple-loop product of matrices given as lists of rows.
- **Vectors, matrices and permutations** (`matrix.py`, `permutation.py`, `MultiplyA6Permutations.py`, `isomorphism.py`).
  - A vector is a list of field elements. A matrix is a list of column vectors.
  - A permutation is parsed from cycle notation over a list of one-character symbols. It is kept as a list of cycle heads plus successor and predecessor links.
  - The permutation operations are inverse, the `__str__` renderer and `compose`, which gives `b` after `a`.
  - `which_line` finds the line (one-dimensional subspace) that holds a vector.
  - `matrix_to_permutation` turns a matrix into the permutation it induces on a list of lines. It does so by composing transpositions while it follows the orbits.
  - The main theorem is the homomorphism property. The permutation of `a * b` has the same successor map as, and renders like, the composition of the permutations of `a` and `b`. The demo script of `onefile.py` checks this at run time for random matrices of determinant 1. Over GF(4) it is proved for every such pair: every 2x2 matrix with a nonzero determinant permutes the five lines.

Python exceptions are modelled as values of `Result`: `Err(IndexError(..))`,
`Err(ValueError(..))`, `Err(KeyError(..))` and so on. Each member models the
branches of the code, including its failure paths. Loops in the source are
methods with loop invariants, proved equal to recursive specification
functions. The field-class cache is a Dafny `class` whose methods fill its
fields. `MultiplyA6Permutations.py` reverses its symbols in place; that
reversal is a method on an `array`.

Where the repository's description and its code differ, the model follows the code:

- **Division by zero.** `a / 0` returns zero rather than signalling an error. `0 / b` for nonzero `b` is a `KeyError`, because zero has no logarithm.
- **Parser does not canonicalise.** The polynomial parser does not trim trailing zeros; `"5x"` in GF(5) gives `[0, 0]`.
- **Parser term order.** The parser expects terms from the highest power down; `"1 + x"` does not read as `x + 1`. It does not accept a `c*x` term.
- **compose with different domains.** It raises `KeyError` when the two permutations have different domains. It does not treat missing symbols as fixed points.
- **Invalid primitive element.** It is detected only when a power returns to 1 early. Other bad primitives, such as one whose powers repeat without reaching 1 or reach 0, are not detected at construction.
- **Renderer separator.** Terms are joined with `" + "`, not with `"+"`.

## Model

| member | source | states |
|---|---|---|
| FieldPoly.Trim | onefile.py:241-246 | the result is a prefix of the coefficients with only zero coefficients dropped, and it ends in a nonzero coefficient unless it is the single coefficient left |
| FieldPoly.TrimCoef | onefile.py:241-246 | trimming changes no coefficient (missing coefficients read as zero) |
| FieldPoly.TrimmedUnique | onefile.py:282-286 | two trimmed lists with the same coefficients are equal, so list equality in `__eq__` is equality of polynomials |
| FieldPoly.TrimTrimmed | onefile.py:241-246 | trimming an already trimmed list leaves it unchanged |
| FieldPoly.AddSpec | onefile.py:228-248 | coefficient i of a + b is (a_i + b_i) mod p, a missing coefficient counting as zero; the sum is canonical: reduced mod p, trimmed and nonempty |
| FieldPoly.Add | onefile.py:228-248 | the padding loop and trim of `__add__` compute exactly AddSpec |
| FieldPoly.AddCommutes | onefile.py:228-248 | a + b == b + a |
| FieldPoly.AddAssociates | onefile.py:228-248 | (a + b) + c == a + (b + c) |
| FieldPoly.AddZero | onefile.py:416 | 0 + a == a for a canonical element |
| FieldPoly.Conv | onefile.py:64-78 | the schoolbook product of nonempty lists has length deg a + deg b + 1 |
| FieldPoly.ConvByX | onefile.py:64-78 | multiplying by x shifts every coefficient up one power |
| FieldPoly.ReduceTop | onefile.py:85-97 | one reduction by the irreducible polynomial leaves a canonical element |
| FieldPoly.ReduceTopCoef | onefile.py:85-97 | the value of one reduction step: x^d is replaced by minus the lower part of the irreducible polynomial, so coefficient i below d becomes (c_i - c_d * irr_i) mod p and nothing is left from x^d up |
| FieldPoly.PolyMultSpec | onefile.py:64-99 | ValueError exactly when the product degree exceeds the irreducible degree; below it the result is the plain product, at it the result is canonical and of degree below r |
| FieldPoly.PolyMult | onefile.py:64-99 | the loops of `poly_mult` compute exactly PolyMultSpec |
| FiniteField.Size | onefile.py:102-104 | the field size p^r is at least 2 |
| FiniteField.NextPower | onefile.py:121-126 | one step of `all_values`: a successful product with the primitive element is a nonempty list |
| FiniteField.PowersFrom | onefile.py:117-132 | exactly `count` powers are produced and none of them is the multiplicative identity, which would be the "Invalid primitive element" error |
| FiniteField.PowersChain | onefile.py:121-132 | every power is the primitive element times the previous one |
| FiniteField.AllValuesSpec | onefile.py:107-132 | on success there are exactly p^r values, 0 first and 1 second |
| FiniteField.AllValues | onefile.py:107-132 | the loop of `all_values` computes exactly AllValuesSpec |
| FiniteField.NonZero | onefile.py:149-151 | the kept values are all nonzero, and nothing is dropped when no value is zero |
| FiniteField.TabulateInverse | onefile.py:147-157 | appending values to the log table keeps the reverse table an inverse of the table |
| FiniteField.TabulateTable | onefile.py:147-154 | the table receives exactly the nonzero values, in order |
| FiniteField.DistinctLog | onefile.py:153-157 | with distinct table entries the reverse table returns the exponent of every entry |
| FiniteField.TablesOfValues | onefile.py:135-165 | the built table is 1 followed by the nonzero powers of the primitive element, and the reverse table is its inverse |
| FiniteField.LogTablesShape | onefile.py:135-165 | the table starts at 1; when no power is zero it has p^r - 1 entries, each the primitive element times the previous one |
| FiniteField.TablesGood | onefile.py:135-165 | for a primitive element whose powers are nonzero and distinct the tables build, and the reverse table inverts the table exactly |
| FiniteField.MulZero | onefile.py:258-267 | a product is zero exactly when an operand is zero, and otherwise lands in the log table |
| FiniteField.MulCommutes | onefile.py:258-267 | a * b == b * a, errors included |
| FiniteField.MulOne | onefile.py:258-267 | 1 * a == a |
| FiniteField.MulLog | onefile.py:258-267 | the product is the table entry at the sum of the logarithms mod p^r - 1, whose logarithm is that sum |
| FiniteField.DivLog | onefile.py:270-279 | the quotient is the table entry at the difference of the logarithms mod p^r - 1 |
| FiniteField.MulAssociates | onefile.py:258-267 | (a * b) * c == a * (b * c) on nonzero elements |
| FiniteField.DivThenMul | onefile.py:270-279 | (a / b) * b == a for nonzero a and b |
| FiniteField.Reciprocal | onefile.py:270-279 | b * (1 / b) == 1 for nonzero b |
| FiniteField.DivByZero | onefile.py:270-279 | a / 0 returns zero, and 0 / b for nonzero b is a KeyError |
| FiniteField.MulPowers | onefile.py:258-267 | prim^i * prim^j == prim^((i + j) mod (p^r - 1)) through the class's own tables |
| FiniteField.DivPowers | onefile.py:270-279 | prim^i / prim^j == prim^((i - j) mod (p^r - 1)) |
| FiniteField.FieldClass.constructor | onefile.py:36-52 | a field class starts with its attributes and no tables built |
| FiniteField.FieldClass.GetLogTable | onefile.py:135-159 | returns the table of the specification; the cache is filled on first success and never rebuilt afterwards |
| FiniteField.FieldClass.GetLogTableReverse | onefile.py:162-165 | returns the reverse table, building the tables first if needed |
| FiniteField.FieldClass.Mul | onefile.py:258-267 | `__mul__` through the cache gives exactly the product of the specification; afterwards the cache is built iff it was before, or both factors are nonzero and the log tables build |
| FiniteField.FieldClass.Div | onefile.py:270-279 | `__div__` through the cache gives exactly the quotient of the specification; afterwards the cache is built iff it was before, or the divisor is nonzero and the log tables build |
| FiniteField.ComputeHash | onefile.py:251-255 | the hash loop computes the sum of coef_k * p^k |
| FiniteField.HashPositive | onefile.py:251-255 | a nonzero element has a positive hash |
| FiniteField.HashInjective | onefile.py:251-255 | canonical elements with equal hashes are equal, so `__hash__` agrees with `__eq__` |
| FieldText.RemoveSpaces | onefile.py:174 | the result contains no spaces |
| FieldText.SplitOn | onefile.py:182 | `split` always yields at least one piece |
| FieldText.ParseInt | onefile.py:185-214 | `int()` fails only with a ValueError |
| FieldText.NatStrParses | onefile.py:308-316 | int(str(n)) == n |
| FieldText.SignThenSpace | onefile.py:199 | whitespace after the sign is skipped: `int("-\t2")` is -2 |
| FieldText.RenderTerms | onefile.py:297-318 | at most one written term per coefficient |
| FieldText.Render | onefile.py:295-323 | the loop of `__unicode__` writes exactly the terms of the nonzero coefficients from the top down, joined by " + ", or "0" |
| FieldText.ParseTerm | onefile.py:185-218 | reading a term fails only with a ValueError |
| FieldText.TermReads | onefile.py:185-218 | reading back the text of a term with a positive coefficient gives that coefficient and power |
| FieldText.Place | onefile.py:220-225 | adding a term keeps the earlier coefficients, appends the padding zeros (as many as the power exceeds the last power by, less one, or none) and then appends the coefficient mod p, and records the power; a term out of order is therefore appended, not put at its power ("1 + x" reads as [0, 1, 1]) |
| FieldText.AddTerm | onefile.py:220-225 | the padding loop computes exactly Place |
| FieldText.Fold | onefile.py:184-225 | reading the terms keeps every coefficient below p, and an error is the error of one of the terms |
| FieldText.ParseSpec | onefile.py:168-225 | a parsed element is nonempty with every coefficient below p; every failure is a ValueError |
| FieldText.Parse | onefile.py:168-225 | the loop of the string constructor computes exactly ParseSpec |
| FieldText.JoinCompacts | onefile.py:174 | removing spaces from a rendering leaves the terms joined by "+" |
| FieldText.JoinSplits | onefile.py:182 | splitting the compact rendering on "+" gives back the terms |
| FieldText.RenderedAscending | onefile.py:184 | reversing the rendered terms lists them from the lowest power up, the order the parser reads them in |
| FieldText.LastNonzero | onefile.py:300-318 | the highest nonzero coefficient, if any, and none exactly when nothing is rendered |
| FieldText.PlaceExtends | onefile.py:220-225 | placing the next nonzero coefficient of a reduces a's prefix to a longer prefix |
| FieldText.ParseCompact | onefile.py:168-225 | the constructor's result is the fold of the term reader over the reversed compact terms |
| FieldText.RenderParse | onefile.py:168-323 | parsing the rendering of any canonical element gives that element back |
| FieldExamples.ParsedZero | onefile.py:177-178 | "0" parses to the zero element in every field |
| FieldExamples.ParsedLinear | onefile.py:412 | "x + 1" parses to [1, 1] |
| FieldExamples.ParsedSquare | onefile.py:432 | "x^2 + 1" parses to [1, 0, 1] |
| FieldExamples.F4Powers | onefile.py:329-335 | in F4 the powers of x are x and x + 1 |
| FieldExamples.F4Product | onefile.py:414 | (x + 1) * (x + 1) == x in F4 |
| FieldExamples.F4Sums | onefile.py:415-416 | (x + 1) + (x + 1) == 0 and 0 + (x + 1) == x + 1 in F4 |
| FieldExamples.F5Powers | onefile.py:337-343 | in F5 the powers of 2 are 2, 4, 3 |
| FieldExamples.F5Product | onefile.py:424 | 3 * 3 == 4 in F5 |
| FieldExamples.F5Sum | onefile.py:425 | 3 + 3 == 1 in F5 |
| FieldExamples.F7Powers | onefile.py:345-351 | in F7 the powers of 3 are 3, 2, 6, 4, 5 |
| FieldExamples.F7Product | onefile.py:429 | 3 * 4 == 5 in F7 |
| FieldExamples.F7Sum | onefile.py:430 | 3 + 4 == 0 in F7 |
| FieldF4.Embed | onefile.py:329-335 | every two-bit element of GF(4) names an element of `F4(FiniteField)`: a canonical list mod 2 of degree below 2 with the same constant and x coefficients |
| FieldF4.Lift | onefile.py:329-335 | every element of `F4(FiniteField)` is the image of a two-bit element, so the two carriers correspond one to one |
| FieldF4.EmbedInjective | onefile.py:329-335 | distinct two-bit elements name distinct elements of `F4(FiniteField)` |
| FieldF4.EmbedAdd | onefile.py:228-248 | `__add__` of `F4(FiniteField)` on the images is the bitwise addition of `f4old.py` |
| FieldF4.EmbedLog | onefile.py:329-335 | the logarithm table of `F4(FiniteField)` lists 1, x, x + 1 as the powers 0, 1, 2 of x |
| FieldF4.LogMul | f4old.py:45-58 | products of nonzero two-bit elements add their exponents of x modulo 3 |
| FieldF4.EmbedMul | onefile.py:258-267 | `__mul__` of `F4(FiniteField)`, through its log tables, on the images is the multiplication of `f4old.py` (x^2 = x + 1) |
| FieldF4.Distributive | onefile.py:228-267 | in `F4(FiniteField)`, u * (v + w) == u * v + u * w for all elements, every product defined |
| FieldF4.MulLaws | onefile.py:258-267 | in `F4(FiniteField)` products of elements are defined elements; multiplication is commutative and associative, 1 is its identity and a product is 0 exactly when a factor is |
| FieldPrime.AddConst | onefile.py:228-248 | in a field with r = 1 the sum of two constants is the residue of their sum |
| FieldPrime.ModDistributive | onefile.py:228-267 | multiplication of residues mod p distributes over their addition |
| FieldPrime.Distributive | onefile.py:228-267 | in a field whose table multiplication is that of residues mod p, u * (v + w) == u * v + u * w for all elements |
| FieldPrime.Log5 | onefile.py:337-343 | every nonzero residue mod 5 is listed in the log table of `F5` at its exponent of 2 |
| FieldPrime.Log5Mul | onefile.py:337-343 | exponents of 2 add modulo 4 as residues mod 5 multiply |
| FieldPrime.F5Tables | onefile.py:337-343 | the log table of `F5(FiniteField)` is 1, 2, 4, 3 and is well built |
| FieldPrime.F5Mul | onefile.py:258-267 | one product of `F5(FiniteField)` through its log tables is the product of residues mod 5 |
| FieldPrime.F5Residue | onefile.py:337-343 | `F5(FiniteField)` multiplies as residues mod 5, hence is distributive |
| FieldPrime.Log7 | onefile.py:345-351 | every nonzero residue mod 7 is listed in the log table of `F7` at its exponent of 3 |
| FieldPrime.Log7Mul | onefile.py:345-351 | exponents of 3 add modulo 6 as residues mod 7 multiply |
| FieldPrime.F7Tables | onefile.py:345-351 | the log table of `F7(FiniteField)` is 1, 3, 2, 6, 4, 5 and is well built |
| FieldPrime.F7Mul | onefile.py:258-267 | one product of `F7(FiniteField)` through its log tables is the product of residues mod 7 |
| FieldPrime.F7Residue | onefile.py:345-351 | `F7(FiniteField)` multiplies as residues mod 7, hence is distributive |
| FieldExamples.F8Powers | onefile.py:353-359 | in F8 the powers of x run through all six other nonzero elements |
| FieldExamples.F8Product | onefile.py:434 | (x^2 + 1) * x == 1 in F8 |
| FieldExamples.F8Sum | onefile.py:435 | (x^2 + 1) + x == x^2 + x + 1 in F8 |
| FieldExamples.F8Quotient | onefile.py:436 | ((x^2 + 1) / x) * x == x^2 + 1 in F8 |
| FieldExamples.F8Reciprocal | onefile.py:437 | x * (1 / x) == 1 in F8 |
| F4Field.Parse | f4old.py:3-18 | any string other than "1", "x", "x + 1", "x+1" gives zero |
| F4Field.MultId | f4old.py:26-28 | the multiplicative identity is 1 |
| F4Field.AddId | f4old.py:30-32 | the additive identity is 0 |
| F4Field.Inverse | f4old.py:45-58 | every nonzero element has a multiplicative inverse |
| F4Field.Ext | f4old.py:60-64 | elements with the same two bits are equal, as `__eq__` compares |
| F4Field.Elements | f4old.py:3-18 | every element is 0, 1, x or x + 1 |
| F4Field.SourceExamples | MultiplyF4Matrices.py:43-56 | x * x == x + 1, (x + 1)^2 == x, (x + 1) + (x + 1) == 0, 0 + (x + 1) == x + 1 |
| F4Field.Identities | f4old.py:26-32 | 0 and 1 are two-sided identities of + and * |
| F4Field.AddSelfIsZero | f4old.py:35-42 | a + a == 0 |
| F4Field.AddCommutative | f4old.py:35-42 | a + b == b + a |
| F4Field.AddAssociative | f4old.py:35-42 | (a + b) + c == a + (b + c) |
| F4Field.MulCommutative | f4old.py:45-58 | a * b == b * a |
| F4Field.MulAssociative | f4old.py:45-58 | (a * b) * c == a * (b * c) |
| F4Field.Distributive | f4old.py:35-58 | a * (b + c) == a * b + a * c |
| F4Field.NoZeroDivisors | f4old.py:45-58 | a * b == 0 exactly when a or b is 0 |
| F4Field.PowersOfX | f4old.py:45-58 | x generates the nonzero elements: x, x + 1, 1 |
| F4Field.HashInjective | f4old.py:66-67 | the hash is below 4 and equal hashes mean equal elements |
| F4Field.AllValuesComplete | f4old.py:21-23 | `all_values` holds each of the four elements exactly once, as a list and as a set |
| F4Field.RenderParseRoundTrip | f4old.py:69-73 | parsing the rendering of an element gives it back |
| F4Matrix.Product | MultiplyF4Matrices.py:111-132 | the triple loop fails exactly when `basis` is empty or a row of `trans` is too short, and otherwise every entry is the sum over k of trans[i][k] * basis[k][j] |
| F4Matrix.Identity | MultiplyF4Matrices.py:111-132 | the identity matrix is n by n |
| F4Matrix.IdentityProduct | MultiplyF4Matrices.py:111-132 | the identity times any rectangular matrix is that matrix |
| Linear.VectorAdd | matrix.py:10-16 | an IndexError when `other` is shorter; otherwise entry i is u_i + v_i, with the length of u |
| Linear.SumCommutative | matrix.py:10-16 | u + v == v + u for equal lengths |
| Linear.SumSelf | matrix.py:10-16 | v + v is the zero vector |
| Linear.SumZeros | matrix.py:10-16 | v + 0 == v |
| Linear.Scale | matrix.py:18-28 | the loop scales every entry by the scalar |
| Linear.ScaledOne | matrix.py:18-28 | v * 1 == v |
| Linear.ScaledTwice | matrix.py:18-28 | (v * a) * b == v * (a * b) |
| Linear.ScaledInverse | matrix.py:18-28 | scaling by s and then by 1/s gives v back |
| Linear.ScaleExample | matrix.py:166-168 | [x + 1, x] * x == [1, x + 1] |
| Linear.DotProduct | matrix.py:30-39 | an IndexError on an empty first vector, a ValueError on unequal lengths, and otherwise the sum of the products |
| Linear.SumProducts | matrix.py:36-39 | the accumulating loop computes the sum of pairwise products |
| Linear.DotSymmetric | matrix.py:30-39 | a . b == b . a |
| Linear.DotScaled | matrix.py:30-39 | a . (b * s) == (a . b) * s |
| Linear.DotSum | matrix.py:30-39 | a . (b + c) == a . b + a . c |
| Linear.DotZeros | matrix.py:30-39 | a . 0 == 0 |
| Linear.Transpose | matrix.py:74-87 | from a list of rows, the column vectors: one per entry of the first row, each as tall as the list |
| Linear.FromList | matrix.py:74-87 | `from_list` fails with an IndexError exactly when a row is shorter than the first, and otherwise gives the transpose |
| Linear.Row | matrix.py:96-101 | a row has one entry per column |
| Linear.GetRow | matrix.py:96-101 | an IndexError exactly when a column is too short, and otherwise row i |
| Linear.RowOfTranspose | matrix.py:74-101 | row i of `from_list(rows)` is rows[i] |
| Linear.Apply | matrix.py:109-117 | the matrix-vector product has one entry per row |
| Linear.MatVec | matrix.py:104-117 | an IndexError on a vector of the wrong length or a short column, and otherwise the product of each row with the vector |
| Linear.Product | matrix.py:120-127 | the product has one column per column of the right factor, each as tall as the left factor |
| Linear.MatMul | matrix.py:104-127 | IndexError cases for mismatched dimensions, and otherwise the matrix of products with the right factor's columns |
| Linear.MatScale | matrix.py:129-134 | every column scaled by the scalar |
| Linear.ApplyScaled | matrix.py:104-117 | M (v * s) == (M v) * s |
| Linear.ApplySum | matrix.py:104-117 | M (u + v) == M u + M v |
| Linear.ApplyZeros | matrix.py:104-117 | M 0 == 0 |
| Linear.ApplyIsCombination | matrix.py:104-117 | M v is the combination of M's columns with v's entries as coefficients |
| Linear.ProductApply | matrix.py:104-127 | (M N) v == M (N v) |
| Permutations.Remove | permutation.py:61 | `list.remove` drops exactly one element |
| Permutations.RemoveCounts | permutation.py:61 | `list.remove(x)` leaves one copy of x fewer, as multisets, and keeps every other entry |
| Permutations.Parse | permutation.py:33-92 | the parsing loop computes exactly the specification parser |
| Permutations.ParseGroups | permutation.py:33-92 | the notation of cycle groups fits the symbols exactly when it parses: each group becomes a cycle linked forward and backward, and the result is a permutation; a symbol outside the domain or repeated gives the ValueError of `list.remove` |
| Permutations.ParseIdentity | permutation.py:36-38 | "I" and "" parse alike, to the identity with every symbol a fixed cycle of its own |
| Permutations.ParseWellFormed | permutation.py:33-92 | whatever parses, even malformed notation, has consistent link maps |
| Permutations.AddFixedFacts | permutation.py:88-92 | the symbols left become fixed points appended as cycle heads, and nothing else changes |
| Permutations.BuiltValid | permutation.py:33-92 | linked cycle groups plus fixed points over a domain form a valid permutation |
| Permutations.NextBijective | permutation.py:3-10 | the successor links of a valid permutation are a bijection of its domain |
| Permutations.ParseReversing | MultiplyA6Permutations.py:43-101 | the caller's symbol list is reversed in place, then parsed as in `permutation.py` over the reversed list |
| Permutations.Reversed | MultiplyA6Permutations.py:46 | entry i of the reversed list is entry n - 1 - i of the original |
| Permutations.ReversedDistinct | MultiplyA6Permutations.py:46 | reversing keeps the symbols distinct |
| PermutationOps.Inverse | permutation.py:95-104 | the loop swaps successor and predecessor of every symbol |
| PermutationOps.InverseInvolution | permutation.py:95-104 | the inverse of the inverse is the permutation |
| PermutationOps.InverseValid | permutation.py:95-104 | the inverse of a permutation is a permutation that undoes it |
| PermutationOps.CycleRepr | permutation.py:12-24 | `ChainedSymbol.__repr__` writes the orbit of a symbol in parentheses |
| PermutationOps.Walk | permutation.py:17-21 | the walk from a symbol collects exactly its orbit |
| PermutationOps.Filter | permutation.py:109-115 | exactly the heads that are not fixed points are kept, in order |
| PermutationOps.JoinCycles | permutation.py:112-117 | the texts of the kept cycles joined in order |
| PermutationOps.Render | permutation.py:107-117 | `__str__` computes exactly the specification rendering |
| PermutationOps.ShownHeads | permutation.py:109-115 | on a parsed permutation the shown heads are those of the groups of length two or more |
| PermutationOps.TextsHeads | permutation.py:12-24 | the cycles of parsed groups print as their own notation |
| PermutationOps.RenderParsed | permutation.py:33-117 | printing a parsed permutation gives its notation without the one-symbol groups, or "I" when none is left |
| PermutationOps.RenderIdentity | permutation.py:117 | the identity prints as "I" |
| PermutationCompose.SortedDescending | permutation.py:128-129 | the union sorted descending holds exactly its members, in descending order |
| PermutationCompose.SortDescending | permutation.py:128-129 | the sort computes exactly that order |
| PermutationCompose.DescendingUnique | permutation.py:128-129 | there is only one descending listing of a set |
| PermutationCompose.Compose | permutation.py:121-189 | the two loops of `compose` compute exactly the specification composition |
| ComposeLaws.ComposeCorrect | permutation.py:121-189 | compose succeeds exactly when both operands have the same domain (else KeyError); the result is a permutation whose successor of x is b(a(x)), with its cycles headed by their least symbol in ascending order |
| Orbits.CycleUnique | permutation.py:12-24 | a cycle through a symbol is unique |
| Orbits.OrbitOfCycle | permutation.py:12-24 | the orbit of a cycle's first symbol is that cycle |
| Orbits.CycleMin | permutation.py:128-183 | the least symbol of a cycle is the least of its orbit |
| Orbits.AscendingUnique | permutation.py:128-183 | there is only one ascending listing of a set of heads |
| PermutationExample.ComposeTest | permutation.py:194-200 | composing the identity after (14) over the symbols 0..4 prints "(14)" |
| Isomorphism.NonZero | isomorphism.py:12-15 | the list of nonzero scalars holds exactly the nonzero field elements |
| Isomorphism.FirstLine | isomorphism.py:17-21 | the first line holding some nonzero multiple of the vector, or none when no line does |
| Isomorphism.WhichLine | isomorphism.py:6-21 | an IndexError when the first line is empty, otherwise the index of the first line holding the vector |
| Isomorphism.OnLineScaled | isomorphism.py:17-19 | a nonzero multiple of a vector lies on the same lines |
| Isomorphism.FirstLineScaled | isomorphism.py:17-21 | `which_line` gives the same answer for a nonzero multiple |
| Isomorphism.Chars | isomorphism.py:27-29 | the symbols are "n-1" down to "0", one character each |
| Isomorphism.SwapFacts | isomorphism.py:53-56 | the swap notation parses to the transposition of the two symbols |
| Isomorphism.IdentityStart | isomorphism.py:32 | the starting permutation parses to the identity on the line symbols |
| Isomorphism.Transposed | isomorphism.py:53-58 | composing with a transposition exchanges the successors of two symbols |
| Isomorphism.SwapStep | isomorphism.py:53-58 | one swap step is `compose` with the transposition, and the walk continues from the image line |
| Isomorphism.PopStep | isomorphism.py:60-62 | when the image is already mapped the walk restarts from the last symbol left |
| Isomorphism.Walk | isomorphism.py:37-62 | the walk ends in a permutation of the line symbols or in the IndexError or ValueError of the source |
| Isomorphism.MatrixToPermutationSpec | isomorphism.py:24-64 | success gives a permutation of the line symbols |
| Isomorphism.MatrixToPermutation | isomorphism.py:24-64 | the worklist loop computes exactly the specification |
| IsomorphismLaws.Action | isomorphism.py:44-46 | the action of a matrix on line indices sends each line to the first line holding its image |
| IsomorphismLaws.WalkMaps | isomorphism.py:37-62 | from any state of the loop the walk succeeds and sends each line symbol to the symbol of its image line |
| IsomorphismLaws.MatrixToPermutationMaps | isomorphism.py:24-64 | for a matrix that permutes the lines, the result sends the symbol of line i to the symbol of the line it is carried to |
| Homomorphism.ProductAction | matrix.py:120-127 | the line action of a * b is the action of a after that of b |
| Homomorphism.SameRender | permutation.py:107-117 | permutations of the line symbols with the same successors print alike |
| Homomorphism.ComposeOver | permutation.py:121-189 | composing two permutations of the line symbols succeeds, over the same domain |
| Homomorphism.ComposeMatches | permutation.py:121-189 | the composition of the permutations of g and h has the successors of g after h |
| Homomorphism.MatrixToPermutationHomomorphism | onefile.py:1197-1207 | perm(a * b) has the successors of, and prints like, compose(perm(a), perm(b)) for matrices permuting the lines |
| SpecialLinear.FromRows | onefile.py:1162-1170 | `from_list` of the rows [[a1, a2], [a3, a4]] the draw loop accepts (a1 * a4 + a2 * a3 * (-1) == 1) is a 2x2 matrix of determinant 1 |
| SpecialLinear.CramerZero | onefile.py:1168 | two linear forms whose coefficient rows have a nonzero determinant vanish together only at (0, 0) |
| SpecialLinear.Cramer | onefile.py:1168 | two such forms agree on two pairs only when the pairs are equal |
| SpecialLinear.ApplyInjective | onefile.py:1168-1170 | a 2x2 matrix with a nonzero determinant sends distinct vectors to distinct vectors |
| SpecialLinear.LineOf | onefile.py:872-888 | every nonzero vector of GF(4)^2 lies on one of the five lines of `lines_f4` |
| SpecialLinear.LinesApart | onefile.py:932-938 | the vector of each line of `lines_f4` lies on no other line |
| SpecialLinear.ImageOnLine | onefile.py:901-911 | a matrix with a nonzero determinant carries every line's vector onto some line, so `which_line` never fails |
| SpecialLinear.Acting | onefile.py:901-911 | such a matrix acts on `lines_f4` |
| SpecialLinear.ActionInjective | onefile.py:901-911 | two lines carried onto the same line are the same line |
| SpecialLinear.InvertiblePermutes | onefile.py:1162-1191 | every 2x2 matrix over GF(4) with a nonzero determinant, in particular every matrix the demonstration draws, permutes the five lines |
| SpecialLinear.InvertibleHomomorphism | onefile.py:1197-1207 | for all matrices a, b with nonzero determinants, perm(a * b) over `lines_f4` exists and has the successors of, and prints like, compose(perm(a), perm(b)) |
| SpecialLinear.SpecialLinearHomomorphism | onefile.py:1162-1207 | the demonstration's assertion holds for every pair of SL(2, 4) matrices its draw loops can accept, over `lines_f4` |
| IsomorphismExample.FromListExample | isomorphism.py:85 | the test matrix built by `from_list` |
| IsomorphismExample.ExampleAction | isomorphism.py:85-86 | the test matrix permutes the five lines of F4^2 by 0 to 4, 4 to 1 and 1 to 0 |
| IsomorphismExample.ExampleNext | isomorphism.py:85-86 | the permutation built for the test matrix has those successors |
| IsomorphismExample.ExampleRender | isomorphism.py:85-87 | `matrix_to_permutation` on the test matrix prints "(041)" |

## Left out

- `fields.py` and `DemonstrateIsomorphism.py` are not part of this model. Both cannot be imported as written: `isomorphism.py` imports `F4` from `fields.py`, which defines none. The field that runs is `F4(FiniteField)` of `onefile.py:329-335`, with irreducible polynomial x^2 + x + 1, so x^2 = x + 1. The vectors and matrices of `matrix.py` and `isomorphism.py` are modelled over the two-bit GF(4) of `f4old.py`, whose arithmetic equals that of `F4(FiniteField)` element for element, as `FieldF4.EmbedAdd` and `FieldF4.EmbedMul` prove.
- The interactive demonstration in `__main__.py` and the second half of `onefile.py` are left out (user input, printing and random matrices). The property the demonstration asserts, at `onefile.py:1207`, is modelled for the matrices its draw loops accept: `SpecialLinear.SpecialLinearHomomorphism`.
- Homomorphism.MatrixToPermutationHomomorphism and SpecialLinear.SpecialLinearHomomorphism are proved over GF(4) and `lines_f4` only. The demonstration as written sets `field_string = "F5"` (`onefile.py:1128`) and so runs over `lines_f5`; vectors and matrices over GF(5) are not modelled. Over GF(4) the random draw is replaced by a quantifier over every accepted pair.
- The real-number field class `R` and the floating-point matrix test of `matrix.py:159-164` are left out; floating point is not modelled.
- `compose` of `MultiplyA6Permutations.py` is left out: it reads an undefined global `symbols` at line 136 and cannot run. Its parser, inverse and `__str__` match `permutation.py` and share those members; only its in-place reversal of the symbols differs, modelled as `Permutations.ParseReversing`.
- `PermutationCompose.Compose` models only the default `sort_output=True`; the unsorted order of a Python set is not deterministic.
- The `__repr__`/`__unicode__` of vectors, matrices and field elements other than `FiniteField.__unicode__` and `F4.__unicode__` are left out (debug printing).
- `Vector.__add__` and `Matrix.__init__` of `MultiplyF4Matrices.py` are left out: the first indexes the vector objects directly, and the second names an undefined `Matrix2`. Only the product loop of its `Matrix.__mul__` is modelled.
- The GF(5) isomorphism test (`lines_f5`, "(035412)") is left out, since the vectors are modelled over GF(4) only.
- The field classes F9, F16, F25, F27, F32 and F49 and their tests are left out; F4, F5, F7 and F8 are proved.
- Exception messages are kept as short constants: only the exception kind is modelled faithfully.
- The TypeError of `Vector * Vector` is left out; scalar multiplication is the only product of vectors modelled.
- `__eq__`/`__ne__` are modelled as equality of coefficient lists. Comparing with an object of another type, which returns a TypeError object, is left out.
- `FieldText.ParseInt` accepts ASCII digits only, with surrounding whitespace, a sign and whitespace after the sign, as Python 2's `int()` does for these inputs; Unicode digits and spaces are not modelled. The "Could not parse" branch of the constructor cannot be reached after the earlier cases and is not modelled.
- FiniteField.MulAssociates, MulOne, MulLog, DivLog, DivThenMul, Reciprocal, MulZero, MulPowers and DivPowers take well-built log tables as a hypothesis rather than proving that every field class's polynomial is irreducible and its element primitive. `FiniteField.TablesGood` gives the hypothesis from distinct nonzero powers, and the F4, F5, F7 and F8 examples discharge it.
- FiniteField.FieldClass: the cache lives on one `FieldClass` object per field class instead of on the Python class. Concurrent first use is not modelled.
- PermutationOps.Inverse and Linear.MatScale: `copy.deepcopy` and the aliasing of chained symbols are modelled by value semantics. A permutation is a value whose nodes are named by their symbols.
- Isomorphism.MatrixToPermutation requires at most ten lines, so that every `str(i)` symbol is one character. The permutation parser reads single characters.
- F4Matrix.Product requires a rectangular `basis`; a ragged basis list is not modelled.
- Permutations.Parse and Permutations.ParseReversing require distinct symbols. Nodes are named by their symbols, so a symbol list that repeats a symbol is not modelled. For such a list the source makes a second, separate fixed node; "(12)" over `['1', '1', '2']` still prints "(12)". `Permutations.ParseSpec` is still defined on such a list, but it does not give the repeated symbol the source's separate node.
- FiniteField: distributivity of multiplication over addition is proved for `F4` (`FieldF4.Distributive`), `F5` and `F7` (`FieldPrime.Distributive`), not for `F8` or for a field class in general. That a log-table multiplication agrees with polynomial multiplication modulo an irreducible polynomial is field theory not modelled here.
- Permutations.ParseGroups states the parse of well-formed cycle notation only. Malformed strings that the loop still accepts, such as "(12)3)", are covered by `Permutations.ParseWellFormed` and the exact parser, not by a bijection claim.
