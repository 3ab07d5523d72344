/** The class-level machinery of `FiniteField` in onefile.py: `size`,
    `all_values`, the lazily built logarithm tables, and multiplication and
    division through them. */
module FiniteField {
  import opened Wrappers
  import opened FieldPoly

  /** The class attributes of a `FiniteField` subclass: `characteristic`,
      `r`, `primitive` and `irreducible_poly`. */
  datatype Attrs = Attrs(p: nat, r: nat, primitive: Poly, irreducible: Poly)

  /** What every field class of the source has: a characteristic of at least
      2, at least one copy of Z_p, a primitive element and an irreducible
      polynomial of degree at least 1. */
  predicate Sane(F: Attrs)
  {
    F.p >= 2 && F.r >= 1 && |F.primitive| > 0 && |F.irreducible| >= 2
  }

  /** `cls("0")` and `cls("1")`. */
  const Zero: Poly := [0]
  const One: Poly := [1]

  function Pow(b: nat, e: nat): (n: nat)
    ensures b >= 1 ==> n >= 1
    ensures b >= 2 && e >= 1 ==> n >= 2
  {
    if e == 0 then 1 else b * Pow(b, e - 1)
  }

  /** `size`: the number of elements, p^r. */
  function Size(F: Attrs): (n: nat)
    requires Sane(F)
    ensures n >= 2
  {
    Pow(F.p, F.r)
  }

  /** One pass of the `all_values` loop: the next power of the primitive. */
  function NextPower(F: Attrs, v: Poly): (r: Result<Poly>)
    requires Sane(F) && |v| > 0
    ensures r.Ok? ==> |r.value| > 0
  {
    PolyMultSpec(F.p, F.irreducible, v, F.primitive)
  }

  /** The `count` powers the `all_values` loop yields after `v`: each is the
      previous times the primitive element, and reaching 1 again is the error
      "Invalid primitive element". */
  function PowersFrom(F: Attrs, v: Poly, count: nat): (r: Result<seq<Poly>>)
    requires Sane(F) && |v| > 0
    ensures r.Ok? ==> |r.value| == count
    ensures r.Ok? ==> forall k :: 0 <= k < count ==> |r.value[k]| > 0 && r.value[k] != One
    decreases count
  {
    if count == 0 then Ok([])
    else
      match NextPower(F, v)
      case Err(e) => Err(e)
      case Ok(w) =>
        if w == One then Err(ValueError("Invalid primitive element"))
        else
          match PowersFrom(F, w, count - 1)
          case Err(e) => Err(e)
          case Ok(ws) => Ok([w] + ws)
  }

  /** Each yielded power is the previous one times the primitive element. */
  lemma {:induction false} PowersChain(F: Attrs, v: Poly, count: nat)
    requires Sane(F) && |v| > 0 && PowersFrom(F, v, count).Ok?
    ensures var ws := PowersFrom(F, v, count).value;
      && (count > 0 ==> NextPower(F, v) == Ok(ws[0]))
      && forall k :: 0 <= k < count - 1 ==> NextPower(F, ws[k]) == Ok(ws[k + 1])
    decreases count
  {
    if count > 0 {
      var w := NextPower(F, v).value;
      PowersChain(F, w, count - 1);
      var ws := PowersFrom(F, v, count).value;
      assert ws == [w] + PowersFrom(F, w, count - 1).value;
    }
  }

  /** `all_values`: 0, then 1, then the powers g, g^2, ..., g^(size-2) of the
      primitive element g. */
  function AllValuesSpec(F: Attrs): (r: Result<seq<Poly>>)
    requires Sane(F)
    ensures r.Ok? ==> |r.value| == Size(F) && r.value[0] == Zero && r.value[1] == One
  {
    match PowersFrom(F, One, Size(F) - 2)
    case Err(e) => Err(e)
    case Ok(ws) => Ok([Zero, One] + ws)
  }

  /** `xs` followed by what `r` yields, or the error of `r`. */
  function Prepend(xs: seq<Poly>, r: Result<seq<Poly>>): Result<seq<Poly>>
  {
    match r
    case Err(e) => Err(e)
    case Ok(ys) => Ok(xs + ys)
  }

  /** The generator `all_values`, run to the end. */
  method AllValues(F: Attrs) returns (r: Result<seq<Poly>>)
    requires Sane(F)
    ensures r == AllValuesSpec(F)
  {
    var values := [Zero, One];
    var sizeMult := Size(F) - 1;
    var value := One;
    var iteration := 1;
    while iteration < sizeMult
      invariant 1 <= iteration <= sizeMult && |value| > 0
      invariant AllValuesSpec(F) == Prepend(values, PowersFrom(F, value, sizeMult - iteration))
      decreases sizeMult - iteration
    {
      var next := PolyMult(F.p, F.irreducible, value, F.primitive);
      if next.Err? {
        return Err(next.error);
      }
      value := next.value;
      if value == One {
        return Err(ValueError("Invalid primitive element"));
      }
      PrependStep(values, value, PowersFrom(F, value, sizeMult - iteration - 1));
      values := values + [value];
      iteration := iteration + 1;
    }
    assert PowersFrom(F, value, 0) == Ok([]);
    assert values + [] == values;
    return Ok(values);
  }

  lemma PrependStep(xs: seq<Poly>, w: Poly, r: Result<seq<Poly>>)
    ensures Prepend(xs, match r case Err(e) => Err(e) case Ok(ws) => Ok([w] + ws)) == Prepend(xs + [w], r)
  {
    if r.Ok? {
      assert xs + ([w] + r.value) == (xs + [w]) + r.value;
    }
  }

  // ---------------------------------------------------------------------------
  // get_log_table

  /** `log_table` and `log_table_reverse`. */
  datatype LogTables = LogTables(table: seq<Poly>, reverse: map<Poly, nat>)

  /** The loop of `get_log_table` over the remaining values `vs`: zero is
      skipped, every other value is appended to the table and mapped to its
      position (the running `power`, which is the table's length). */
  function Tabulate(vs: seq<Poly>, t: LogTables): LogTables
    decreases |vs|
  {
    if vs == [] then t
    else if vs[0] == Zero then Tabulate(vs[1..], t)
    else Tabulate(vs[1..], LogTables(t.table + [vs[0]], t.reverse[vs[0] := |t.table|]))
  }

  /** The values that are not zero, in order. */
  function NonZero(vs: seq<Poly>): (r: seq<Poly>)
    ensures forall k :: 0 <= k < |r| ==> r[k] != Zero
    ensures |r| <= |vs|
    ensures (forall k :: 0 <= k < |vs| ==> vs[k] != Zero) ==> r == vs
  {
    if vs == [] then []
    else if vs[0] == Zero then NonZero(vs[1..])
    else [vs[0]] + NonZero(vs[1..])
  }

  /** `log_table_reverse` undoes `log_table` on every key, holds exactly the
      table's entries, and has no entry for zero. */
  ghost predicate Inverse(t: LogTables)
  {
    && (forall v :: v in t.reverse ==> t.reverse[v] < |t.table| && t.table[t.reverse[v]] == v)
    && (forall k :: 0 <= k < |t.table| ==> t.table[k] in t.reverse && t.table[k] != Zero)
  }

  /** Appending a nonzero value at the next position keeps the reverse map
      the inverse of the table. */
  lemma InverseAppend(t: LogTables, v: Poly)
    requires Inverse(t) && v != Zero
    ensures Inverse(LogTables(t.table + [v], t.reverse[v := |t.table|]))
  {
    var t' := LogTables(t.table + [v], t.reverse[v := |t.table|]);
    forall w | w in t'.reverse
      ensures t'.reverse[w] < |t'.table| && t'.table[t'.reverse[w]] == w
    {
      if w != v {
        assert t'.table[t.reverse[w]] == t.table[t.reverse[w]];
      }
    }
    forall k | 0 <= k < |t'.table|
      ensures t'.table[k] in t'.reverse && t'.table[k] != Zero
    {
      if k < |t.table| {
        assert t'.table[k] == t.table[k];
      }
    }
  }

  lemma {:induction false} TabulateInverse(vs: seq<Poly>, t: LogTables)
    requires Inverse(t)
    ensures Inverse(Tabulate(vs, t))
    decreases |vs|
  {
    if vs != [] {
      if vs[0] == Zero {
        TabulateInverse(vs[1..], t);
      } else {
        InverseAppend(t, vs[0]);
        TabulateInverse(vs[1..], LogTables(t.table + [vs[0]], t.reverse[vs[0] := |t.table|]));
      }
    }
  }

  /** The table is the nonzero values, in order. */
  lemma {:induction false} TabulateTable(vs: seq<Poly>, t: LogTables)
    ensures Tabulate(vs, t).table == t.table + NonZero(vs)
    decreases |vs|
  {
    if vs != [] {
      if vs[0] == Zero {
        TabulateTable(vs[1..], t);
      } else {
        var t' := LogTables(t.table + [vs[0]], t.reverse[vs[0] := |t.table|]);
        TabulateTable(vs[1..], t');
        assert NonZero(vs) == [vs[0]] + NonZero(vs[1..]);
        assert t.table + NonZero(vs) == t'.table + NonZero(vs[1..]);
      }
    }
  }

  /** `get_log_table`'s result, computed from scratch. */
  function LogTablesSpec(F: Attrs): Result<LogTables>
    requires Sane(F)
  {
    match AllValuesSpec(F)
    case Err(e) => Err(e)
    case Ok(vs) => Ok(Tabulate(vs, LogTables([], map[])))
  }

  ghost predicate Distinct(s: seq<Poly>)
  {
    forall i, j :: 0 <= i < j < |s| ==> s[i] != s[j]
  }

  /** Tables fit for logarithm arithmetic modulo `n`: `n` nonzero entries
      starting with 1, and the reverse map and the table invert each other. */
  ghost predicate Good(t: LogTables, n: nat)
  {
    && Inverse(t) && |t.table| == n && n >= 1 && t.table[0] == One
    && forall k :: 0 <= k < n ==> t.reverse[t.table[k]] == k
  }

  /** When the table's entries are distinct, the reverse map sends each
      entry back to its position. */
  lemma DistinctLog(t: LogTables)
    requires Inverse(t) && Distinct(t.table)
    ensures forall k :: 0 <= k < |t.table| ==> t.reverse[t.table[k]] == k
  {
    forall k | 0 <= k < |t.table|
      ensures t.reverse[t.table[k]] == k
    {
      var j := t.reverse[t.table[k]];
      assert t.table[j] == t.table[k];
    }
  }

  /** The powers of the primitive element listed after 1 form a chain of
      multiplications by it. */
  lemma PowersTable(F: Attrs, ws: seq<Poly>)
    requires Sane(F) && PowersFrom(F, One, |ws|) == Ok(ws)
    ensures forall k :: 0 <= k < |ws| ==> NextPower(F, ([One] + ws)[k]) == Ok(([One] + ws)[k + 1])
  {
    PowersChain(F, One, |ws|);
    forall k | 0 <= k < |ws|
      ensures NextPower(F, ([One] + ws)[k]) == Ok(([One] + ws)[k + 1])
    {
      assert ([One] + ws)[k + 1] == ws[k];
      if k > 0 {
        assert ([One] + ws)[k] == ws[k - 1];
      }
    }
  }

  /** The tables `get_log_table` builds from a successful `all_values`. */
  lemma TablesOfValues(F: Attrs)
    requires Sane(F) && LogTablesSpec(F).Ok?
    ensures var t := LogTablesSpec(F).value;
      Inverse(t) && t.table == [One] + NonZero(PowersFrom(F, One, Size(F) - 2).value)
  {
    var vs := AllValuesSpec(F).value;
    var ws := PowersFrom(F, One, Size(F) - 2).value;
    assert vs == [Zero, One] + ws;
    TabulateInverse(vs, LogTables([], map[]));
    TabulateTable(vs, LogTables([], map[]));
    assert vs[1..] == [One] + ws;
    assert ([One] + ws)[1..] == ws;
    assert NonZero(vs) == [One] + NonZero(ws);
  }

  /** The logarithm table lists 1, g, g^2, ... : its first entry is 1, each
      further entry is the previous one times the primitive element, and when
      no power of g is zero it has exactly size - 1 entries. The reverse map
      inverts it. */
  lemma LogTablesShape(F: Attrs)
    requires Sane(F) && LogTablesSpec(F).Ok?
    ensures var t := LogTablesSpec(F).value;
      && Inverse(t) && |t.table| >= 1 && t.table[0] == One
      && var ws := PowersFrom(F, One, Size(F) - 2).value;
      && t.table == [One] + NonZero(ws)
      && ((forall k :: 0 <= k < |ws| ==> ws[k] != Zero) ==>
            && |t.table| == Size(F) - 1
            && forall k :: 0 <= k < |t.table| - 1 ==> NextPower(F, t.table[k]) == Ok(t.table[k + 1]))
  {
    TablesOfValues(F);
    var ws := PowersFrom(F, One, Size(F) - 2).value;
    if forall k :: 0 <= k < |ws| ==> ws[k] != Zero {
      PowersTable(F, ws);
    }
  }

  /** When the powers of the primitive element are nonzero and distinct
      (the primitive element really generates the field), the computed
      tables are fit for logarithm arithmetic and list 1 followed by those
      powers. */
  lemma TablesGood(F: Attrs, ws: seq<Poly>)
    requires Sane(F) && PowersFrom(F, One, Size(F) - 2) == Ok(ws)
    requires forall k :: 0 <= k < |ws| ==> ws[k] != Zero
    requires Distinct([One] + ws)
    ensures LogTablesSpec(F).Ok?
    ensures Good(LogTablesSpec(F).value, Size(F) - 1) && LogTablesSpec(F).value.table == [One] + ws
  {
    assert AllValuesSpec(F).Ok?;
    LogTablesShape(F);
    DistinctLog(LogTablesSpec(F).value);
  }

  // ---------------------------------------------------------------------------
  // __mul__ and __div__ through the tables

  /** `a * b` given the tables: zero if either operand is zero, otherwise the
      table entry at the sum of the logarithms modulo size - 1. A value with
      no logarithm is a KeyError. */
  function MulIn(F: Attrs, t: LogTables, a: Poly, b: Poly): (r: Result<Poly>)
    requires Sane(F)
  {
    if b == Zero || a == Zero then Ok(Zero)
    else if a !in t.reverse || b !in t.reverse then Err(KeyError("element"))
    else
      var k := (t.reverse[a] + t.reverse[b]) % (Size(F) - 1);
      if k < |t.table| then Ok(t.table[k]) else Err(IndexError("list index out of range"))
  }

  /** `a / b` given the tables: zero when `b` is zero, otherwise the entry at
      the difference of the logarithms modulo size - 1. Zero has no
      logarithm, so `0 / b` is a KeyError. */
  function DivIn(F: Attrs, t: LogTables, a: Poly, b: Poly): (r: Result<Poly>)
    requires Sane(F)
  {
    if b == Zero then Ok(Zero)
    else if a !in t.reverse || b !in t.reverse then Err(KeyError("element"))
    else
      var k := (t.reverse[a] as int - t.reverse[b] as int) % (Size(F) - 1);
      if k < |t.table| then Ok(t.table[k]) else Err(IndexError("list index out of range"))
  }

  /** Multiplication is zero exactly when an operand is zero, and otherwise
      lands in the table. */
  lemma MulZero(F: Attrs, t: LogTables, a: Poly, b: Poly)
    requires Sane(F) && Good(t, Size(F) - 1)
    requires a == Zero || a in t.reverse
    requires b == Zero || b in t.reverse
    ensures MulIn(F, t, a, b).Ok?
    ensures MulIn(F, t, a, b).value == Zero <==> a == Zero || b == Zero
    ensures a != Zero && b != Zero ==> MulIn(F, t, a, b).value in t.reverse
  {
  }

  lemma MulCommutes(F: Attrs, t: LogTables, a: Poly, b: Poly)
    requires Sane(F)
    ensures MulIn(F, t, a, b) == MulIn(F, t, b, a)
  {
  }

  /** 1 is neutral. */
  lemma MulOne(F: Attrs, t: LogTables, a: Poly)
    requires Sane(F) && Good(t, Size(F) - 1) && a in t.reverse
    ensures MulIn(F, t, One, a) == Ok(a)
  {
    var n := Size(F) - 1;
    assert t.reverse[One] == 0;
    ModSmall(t.reverse[a], n);
  }

  /** On good tables a product of nonzero values is the entry at the sum
      of their logarithms, and that entry's logarithm is the sum. */
  lemma MulLog(F: Attrs, t: LogTables, n: nat, a: Poly, b: Poly)
    requires Sane(F) && n == Size(F) - 1 && Good(t, n)
    requires a in t.reverse && b in t.reverse
    ensures var k := (t.reverse[a] + t.reverse[b]) % n;
      0 <= k < |t.table| && MulIn(F, t, a, b) == Ok(t.table[k]) && t.table[k] in t.reverse && t.reverse[t.table[k]] == k
  {
  }

  /** On good tables a quotient of nonzero values is the entry at the
      difference of their logarithms, and that entry's logarithm is the
      difference. */
  lemma DivLog(F: Attrs, t: LogTables, n: nat, a: Poly, b: Poly)
    requires Sane(F) && n == Size(F) - 1 && Good(t, n)
    requires a in t.reverse && b in t.reverse
    ensures var k := (t.reverse[a] as int - t.reverse[b] as int) % n;
      0 <= k < |t.table| && DivIn(F, t, a, b) == Ok(t.table[k]) && t.table[k] in t.reverse && t.reverse[t.table[k]] == k
  {
  }

  /** Multiplication through the tables is associative. */
  lemma MulAssociates(F: Attrs, t: LogTables, a: Poly, b: Poly, c: Poly)
    requires Sane(F) && Good(t, Size(F) - 1)
    requires a in t.reverse && b in t.reverse && c in t.reverse
    ensures MulIn(F, t, a, b).Ok? && MulIn(F, t, b, c).Ok?
    ensures MulIn(F, t, MulIn(F, t, a, b).value, c) == MulIn(F, t, a, MulIn(F, t, b, c).value)
  {
    var n := Size(F) - 1;
    var x, y, z := t.reverse[a], t.reverse[b], t.reverse[c];
    MulLog(F, t, n, a, b);
    MulLog(F, t, n, b, c);
    var ab, bc := t.table[(x + y) % n], t.table[(y + z) % n];
    assert t.reverse[ab] == (x + y) % n && t.reverse[bc] == (y + z) % n;
    MulLog(F, t, n, ab, c);
    MulLog(F, t, n, a, bc);
    ModAssociates(x, y, z, n);
  }

  /** `(a / b) * b == a` for nonzero `a` and `b`. */
  lemma DivThenMul(F: Attrs, t: LogTables, a: Poly, b: Poly)
    requires Sane(F) && Good(t, Size(F) - 1)
    requires a in t.reverse && b in t.reverse
    ensures DivIn(F, t, a, b).Ok?
    ensures MulIn(F, t, DivIn(F, t, a, b).value, b) == Ok(a)
  {
    var n := Size(F) - 1;
    var x, y := t.reverse[a], t.reverse[b];
    DivLog(F, t, n, a, b);
    var q := t.table[(x - y) % n];
    assert t.reverse[q] == (x - y) % n;
    MulLog(F, t, n, q, b);
    SubThenAdd(x, y, n);
  }

  /** `b * (1 / b) == 1` for nonzero `b`. */
  lemma Reciprocal(F: Attrs, t: LogTables, b: Poly)
    requires Sane(F) && Good(t, Size(F) - 1) && b in t.reverse
    ensures DivIn(F, t, One, b).Ok?
    ensures MulIn(F, t, b, DivIn(F, t, One, b).value) == Ok(One)
  {
    var n := Size(F) - 1;
    var y := t.reverse[b];
    assert t.reverse[t.table[0]] == 0;
    DivLog(F, t, n, One, b);
    var q := t.table[(0 - y) % n];
    assert t.reverse[q] == (0 - y) % n;
    MulLog(F, t, n, b, q);
    AddNegated(y, n);
  }

  /** Arithmetic modulo n: subtracting then adding `y` returns `x`. */
  lemma SubThenAdd(x: int, y: int, n: int)
    requires 0 <= x < n
    ensures ((x - y) % n + y) % n == x
  {
    ModAddLeft(x - y, y, n);
    ModSmall(x, n);
  }

  /** Arithmetic modulo n: `y + (-y mod n)` is 0 modulo n. */
  lemma AddNegated(y: int, n: int)
    requires n > 0
    ensures (y + (0 - y) % n) % n == 0
  {
    ModAddRight(y, 0 - y, n);
    ModSmall(0, n);
  }

  /** Division by zero gives zero; zero divided by anything else has no
      logarithm and is a KeyError. */
  lemma DivByZero(F: Attrs, t: LogTables, a: Poly, b: Poly)
    requires Sane(F) && Inverse(t)
    ensures DivIn(F, t, a, Zero) == Ok(Zero)
    ensures b != Zero ==> DivIn(F, t, Zero, b).Err? && DivIn(F, t, Zero, b).error.KeyError?
  {
    assert forall v | v in t.reverse :: t.table[t.reverse[v]] != Zero;
  }

  /** `a * b` in the field `F`, with the tables computed as `get_log_table`
      computes them; a zero operand never builds the tables. */
  function MulSpec(F: Attrs, a: Poly, b: Poly): Result<Poly>
    requires Sane(F)
  {
    if b == Zero || a == Zero then Ok(Zero)
    else
      match LogTablesSpec(F)
      case Err(e) => Err(e)
      case Ok(t) => MulIn(F, t, a, b)
  }

  /** `a / b` in the field `F`. */
  function DivSpec(F: Attrs, a: Poly, b: Poly): Result<Poly>
    requires Sane(F)
  {
    if b == Zero then Ok(Zero)
    else
      match LogTablesSpec(F)
      case Err(e) => Err(e)
      case Ok(t) => DivIn(F, t, a, b)
  }

  /** On good tables, multiplying two powers of the primitive element adds
      their exponents modulo size - 1. */
  lemma MulPowers(F: Attrs, i: nat, j: nat)
    requires Sane(F) && LogTablesSpec(F).Ok? && Good(LogTablesSpec(F).value, Size(F) - 1)
    requires i < Size(F) - 1 && j < Size(F) - 1
    ensures var t := LogTablesSpec(F).value;
      MulSpec(F, t.table[i], t.table[j]) == Ok(t.table[(i + j) % (Size(F) - 1)])
  {
    var t := LogTablesSpec(F).value;
    MulLog(F, t, Size(F) - 1, t.table[i], t.table[j]);
  }

  /** On good tables, dividing two powers of the primitive element subtracts
      their exponents modulo size - 1. */
  lemma DivPowers(F: Attrs, i: nat, j: nat)
    requires Sane(F) && LogTablesSpec(F).Ok? && Good(LogTablesSpec(F).value, Size(F) - 1)
    requires i < Size(F) - 1 && j < Size(F) - 1
    ensures var t := LogTablesSpec(F).value;
      DivSpec(F, t.table[i], t.table[j]) == Ok(t.table[(i as int - j as int) % (Size(F) - 1)])
  {
    var t := LogTablesSpec(F).value;
    DivLog(F, t, Size(F) - 1, t.table[i], t.table[j]);
  }

  /** A `FiniteField` subclass: its class attributes and the class-level
      cache `log_table` / `log_table_reverse`, which stays unset (`None`)
      until a call of `get_log_table` succeeds. */
  class FieldClass {
    const attrs: Attrs
    var built: bool
    var logTable: seq<Poly>
    var logTableReverse: map<Poly, nat>

    /** A set cache holds exactly what `get_log_table` computes. */
    ghost predicate Valid()
      reads this
    {
      Sane(attrs) && (built ==> LogTablesSpec(attrs) == Ok(LogTables(logTable, logTableReverse)))
    }

    constructor (attrs: Attrs)
      requires Sane(attrs)
      ensures this.attrs == attrs && !built && Valid()
    {
      this.attrs := attrs;
      built := false;
      logTable := [];
      logTableReverse := map[];
    }

    /** `get_log_table`: builds both tables on first use and keeps them; an
        error from `all_values` leaves the cache unset. */
    method GetLogTable() returns (r: Result<seq<Poly>>)
      requires Valid()
      modifies this
      ensures Valid()
      ensures r == (match LogTablesSpec(attrs) case Ok(t) => Ok(t.table) case Err(e) => Err(e))
      ensures built == (old(built) || r.Ok?)
      ensures r.Err? ==> unchanged(this)
      ensures old(built) ==> unchanged(this)
    {
      if built {
        return Ok(logTable);
      }
      var values := AllValues(attrs);
      if values.Err? {
        return Err(values.error);
      }
      var vs := values.value;
      var table: seq<Poly> := [];
      var reverse: map<Poly, nat> := map[];
      var power := 0;
      for i := 0 to |vs|
        invariant power == |table|
        invariant Tabulate(vs[i..], LogTables(table, reverse)) == Tabulate(vs, LogTables([], map[]))
      {
        var value := vs[i];
        assert vs[i..][1..] == vs[i + 1..];
        if value != Zero {
          table := table + [value];
          reverse := reverse[value := power];
          power := power + 1;
        }
      }
      logTable := table;
      logTableReverse := reverse;
      built := true;
      return Ok(table);
    }

    /** `get_log_table_reverse`. */
    method GetLogTableReverse() returns (r: Result<map<Poly, nat>>)
      requires Valid()
      modifies this
      ensures Valid()
      ensures r == (match LogTablesSpec(attrs) case Ok(t) => Ok(t.reverse) case Err(e) => Err(e))
      ensures built == (old(built) || r.Ok?)
      ensures r.Err? ==> unchanged(this)
      ensures old(built) ==> unchanged(this)
    {
      var t := GetLogTable();
      if t.Err? {
        return Err(t.error);
      }
      return Ok(logTableReverse);
    }

    /** `__mul__`. */
    method Mul(a: Poly, b: Poly) returns (r: Result<Poly>)
      requires Valid()
      modifies this
      ensures Valid() && r == MulSpec(attrs, a, b)
      ensures built == (old(built) || (a != Zero && b != Zero && LogTablesSpec(attrs).Ok?))
      ensures old(built) ==> unchanged(this)
    {
      if b == Zero || a == Zero {
        return Ok(Zero);
      }
      var rev := GetLogTableReverse();
      if rev.Err? {
        return Err(rev.error);
      }
      if a !in rev.value || b !in rev.value {
        return Err(KeyError("element"));
      }
      var k := (rev.value[a] + rev.value[b]) % (Size(attrs) - 1);
      if k >= |logTable| {
        return Err(IndexError("list index out of range"));
      }
      return Ok(logTable[k]);
    }

    /** `__div__`. */
    method Div(a: Poly, b: Poly) returns (r: Result<Poly>)
      requires Valid()
      modifies this
      ensures Valid() && r == DivSpec(attrs, a, b)
      ensures built == (old(built) || (b != Zero && LogTablesSpec(attrs).Ok?))
      ensures old(built) ==> unchanged(this)
    {
      if b == Zero {
        return Ok(Zero);
      }
      var rev := GetLogTableReverse();
      if rev.Err? {
        return Err(rev.error);
      }
      if a !in rev.value || b !in rev.value {
        return Err(KeyError("element"));
      }
      var k := (rev.value[a] as int - rev.value[b] as int) % (Size(attrs) - 1);
      if k >= |logTable| {
        return Err(IndexError("list index out of range"));
      }
      return Ok(logTable[k]);
    }
  }

  // ---------------------------------------------------------------------------
  // __hash__

  /** `__hash__` summed up to power `n`: sum of p^power * coef. */
  function HashUpTo(p: nat, a: Poly, n: nat): nat
    requires n <= |a|
  {
    if n == 0 then 0 else HashUpTo(p, a, n - 1) + Pow(p, n - 1) * a[n - 1]
  }

  /** `__hash__`. */
  function Hash(p: nat, a: Poly): nat
  {
    HashUpTo(p, a, |a|)
  }

  /** The loop of `__hash__`: p^power * coef accumulated over the coefficients. */
  method ComputeHash(p: nat, a: Poly) returns (h: nat)
    ensures h == Hash(p, a)
  {
    h := 0;
    for power := 0 to |a|
      invariant h == HashUpTo(p, a, power)
    {
      h := h + Pow(p, power) * a[power];
    }
  }

  lemma Distribute(p: int, h: int, q: int, c: int)
    ensures p * (h + q * c) == p * h + (p * q) * c
  {
  }

  /** The hash read from the constant term up: a[0] + p * hash(rest). */
  lemma {:induction false} HashHorner(p: nat, a: Poly, n: nat)
    requires 1 <= n <= |a|
    ensures HashUpTo(p, a, n) == a[0] + p * HashUpTo(p, a[1..], n - 1)
  {
    if n > 1 {
      HashHorner(p, a, n - 1);
      var h := HashUpTo(p, a[1..], n - 2);
      var q := Pow(p, n - 2);
      var c := a[n - 1];
      assert a[1..][n - 2] == c;
      assert HashUpTo(p, a[1..], n - 1) == h + q * c;
      assert Pow(p, n - 1) == p * q;
      assert HashUpTo(p, a, n) == a[0] + p * h + (p * q) * c;
      Distribute(p, h, q, c);
    }
  }

  /** The hash of a list ending in a nonzero coefficient is positive. */
  lemma {:induction false} HashPositive(p: nat, a: Poly)
    requires p >= 1 && |a| > 0 && a[|a| - 1] != 0
    ensures Hash(p, a) > 0
    decreases |a|
  {
    HashHorner(p, a, |a|);
    if |a| > 1 {
      HashPositive(p, a[1..]);
      MulAtLeast(Hash(p, a[1..]), p);
    }
  }

  /** Base-p digits are unique: a low digit and the rest determine each
      other. */
  lemma DigitUnique(p: nat, x0: nat, h0: nat, x1: nat, h1: nat)
    requires 0 < p && x0 < p && x1 < p && x0 + p * h0 == x1 + p * h1
    ensures x0 == x1 && h0 == h1
  {
    ModUnique(x0 + p * h0, p, h0, x0);
    ModUnique(x1 + p * h1, p, h1, x1);
  }

  /** `__hash__` tells elements apart: two elements with the same hash are
      equal. */
  lemma {:induction false} HashInjective(p: nat, a: Poly, b: Poly)
    requires p >= 2 && Canonical(a, p) && Canonical(b, p) && Hash(p, a) == Hash(p, b)
    ensures a == b
    decreases |a|
  {
    HashHorner(p, a, |a|);
    HashHorner(p, b, |b|);
    var ha, hb := Hash(p, a[1..]), Hash(p, b[1..]);
    DigitUnique(p, a[0], ha, b[0], hb);
    if |a| == 1 && |b| > 1 {
      HashPositive(p, b[1..]);
    } else if |a| > 1 && |b| == 1 {
      HashPositive(p, a[1..]);
    } else if |a| > 1 && |b| > 1 {
      HashInjective(p, a[1..], b[1..]);
      assert a == [a[0]] + a[1..] && b == [b[0]] + b[1..];
    }
  }
}
