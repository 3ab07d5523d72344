/** `which_line` and `matrix_to_permutation` of isomorphism.py (also a section
    of onefile.py): a matrix over F4 moves the lines through the origin, given
    as a list of spanning vectors, and the builder records that action as a
    permutation of the line indices "0", "1", ... */
module Isomorphism {
  import opened Wrappers
  import opened F4Field
  import opened Linear
  import opened Orbits
  import opened Permutations
  import opened PermutationCompose
  import opened ComposeLaws

  // ---------------------------------------------------------------------------
  // Lines

  /** `v` is a nonzero multiple of `l`. */
  predicate OnLine(v: Vec, l: Vec)
  {
    exists s :: s in NonZero() && v == Scaled(l, s)
  }

  /** `all_non_zero`: `all_values()` without `add_id()`. */
  function NonZero(): (r: seq<F4>)
    ensures forall s :: s in r <==> s != Zero
  {
    AllValuesComplete(Zero);
    var r := Remove(AllValues(), AddId());
    assert r == [One, X, XPlusOne];
    forall s
      ensures s in r <==> s != Zero
    {
      Elements(s);
    }
    r
  }

  /** The first index from `i` on whose line holds `v`, None if there is none. */
  function FirstLine(v: Vec, lines: seq<Vec>, i: nat): (r: Option<nat>)
    requires i <= |lines|
    ensures r.Some? ==> i <= r.value < |lines| && OnLine(v, lines[r.value])
    ensures r.Some? ==> forall j :: i <= j < r.value ==> !OnLine(v, lines[j])
    ensures r.None? ==> forall j :: i <= j < |lines| ==> !OnLine(v, lines[j])
    decreases |lines| - i
  {
    if i == |lines| then None
    else if OnLine(v, lines[i]) then Some(i)
    else FirstLine(v, lines, i + 1)
  }

  /** `which_line`: `lines` must not be empty (an assert), and `lines[0][0]`
      is read to find the field. */
  method WhichLine(v: Vec, lines: seq<Vec>) returns (r: Result<Option<nat>>)
    requires |lines| > 0
    ensures |lines[0]| == 0 ==> r == Err(IndexError(OutOfRange))
    ensures |lines[0]| > 0 ==> r == Ok(FirstLine(v, lines, 0))
  {
    if |lines[0]| == 0 {
      return Err(IndexError(OutOfRange));
    }
    var nonZero := Remove(AllValues(), AddId());
    var index := 0;
    while index < |lines|
      invariant 0 <= index <= |lines|
      invariant FirstLine(v, lines, 0) == FirstLine(v, lines, index)
    {
      var k := 0;
      while k < |nonZero|
        invariant 0 <= k <= |nonZero|
        invariant forall k' :: 0 <= k' < k ==> v != Scaled(lines[index], nonZero[k'])
      {
        var scaled := Scale(lines[index], nonZero[k]);
        if v == scaled {
          return Ok(Some(index));
        }
        k := k + 1;
      }
      index := index + 1;
    }
    r := Ok(None);
  }

  /** Nonzero scaling keeps a vector on the same lines. */
  lemma OnLineScaled(v: Vec, l: Vec, s: F4)
    requires s != Zero
    ensures OnLine(Scaled(v, s), l) <==> OnLine(v, l)
  {
    if OnLine(v, l) {
      var t :| t in NonZero() && v == Scaled(l, t);
      ScaledTwice(l, t, s);
      NoZeroDivisors(t, s);
      assert Mul(t, s) in NonZero();
    }
    if OnLine(Scaled(v, s), l) {
      var t :| t in NonZero() && Scaled(v, s) == Scaled(l, t);
      ScaledInverse(v, s);
      ScaledTwice(l, t, Inverse(s));
      NoZeroDivisors(t, Inverse(s));
      assert Inverse(s) != Zero by {
        NoZeroDivisors(s, Inverse(s));
      }
      assert Mul(t, Inverse(s)) in NonZero();
    }
  }

  /** Two vectors on the same lines find the same first line. */
  lemma {:induction false} FirstLineSame(v: Vec, w: Vec, lines: seq<Vec>, i: nat)
    requires i <= |lines|
    requires forall j :: 0 <= j < |lines| ==> (OnLine(v, lines[j]) <==> OnLine(w, lines[j]))
    ensures FirstLine(v, lines, i) == FirstLine(w, lines, i)
    decreases |lines| - i
  {
    if i < |lines| {
      FirstLineSame(v, w, lines, i + 1);
    }
  }

  /** `which_line` does not depend on which nonzero multiple of a vector it is given. */
  lemma FirstLineScaled(v: Vec, s: F4, lines: seq<Vec>)
    requires s != Zero
    ensures FirstLine(Scaled(v, s), lines, 0) == FirstLine(v, lines, 0)
  {
    forall j | 0 <= j < |lines|
      ensures OnLine(Scaled(v, s), lines[j]) <==> OnLine(v, lines[j])
    {
      OnLineScaled(v, lines[j], s);
    }
    FirstLineSame(Scaled(v, s), v, lines, 0);
  }

  // ---------------------------------------------------------------------------
  // Symbols

  /** `str(i)` of a one-digit index. */
  function Sym(i: nat): (c: char)
    requires i < 10
    ensures '0' <= c <= '9' && c as int == 48 + i
  {
    (48 + i) as char
  }

  /** `range(n)` reversed: n - 1 down to 0. */
  function Countdown(n: nat): (r: seq<nat>)
    ensures |r| == n && forall k :: 0 <= k < n ==> r[k] == n - 1 - k
  {
    if n == 0 then [] else [n - 1] + Countdown(n - 1)
  }

  /** `char_symbols`: the digits of `Countdown(n)`. */
  function Chars(n: nat): (r: seq<char>)
    requires n <= 10
    ensures |r| == n && forall k :: 0 <= k < n ==> r[k] == Sym(n - 1 - k)
    ensures forall x :: x in r <==> '0' <= x && (x as int) < 48 + n
  {
    var r := seq(n, k requires 0 <= k < n => Sym(n - 1 - k));
    forall x | '0' <= x && (x as int) < 48 + n
      ensures x in r
    {
      assert r[n - 1 - (x as int - 48)] == x;
    }
    r
  }

  lemma CharsMembers(n: nat)
    requires n <= 10
    ensures Distinct(Chars(n))
  {
  }

  /** The text `"(" + smaller + larger + ")"`. */
  function SwapText(i: nat, j: nat): string
    requires i < 10 && j < 10
  {
    "(" + [Sym(if i < j then i else j), Sym(if i < j then j else i)] + ")"
  }

  /** The transposition of `i` and `j` over the domain `Chars(n)`. */
  lemma SwapFacts(i: nat, j: nat, n: nat)
    requires n <= 10 && i < n && j < n && i != j
    ensures var r := ParseSpec(SwapText(i, j), Chars(n));
      && r.Ok? && Valid(r.value)
      && (forall x :: x in r.value.dict <==> x in Chars(n))
      && Sym(i) in r.value.dict && Sym(j) in r.value.dict
      && r.value.next[Sym(i)] == Sym(j) && r.value.next[Sym(j)] == Sym(i)
      && (forall x :: x in r.value.dict && x != Sym(i) && x != Sym(j) ==> r.value.next[x] == x)
  {
    CharsMembers(n);
    var g := [Sym(if i < j then i else j), Sym(if i < j then j else i)];
    var gs := [g];
    assert Notation(gs) == SwapText(i, j) by {
      assert gs[1..] == [];
    }
    assert Flatten(gs) == g by {
      assert gs[1..] == [];
    }
    assert WellShaped(gs);
    assert Fits(Chars(n), [], Flatten(gs)) by {
      assert [] + g == g;
    }
    ParseGroups(gs, Chars(n));
    var p := ParseSpec(SwapText(i, j), Chars(n)).value;
    assert Linked(p.next, p.prev, gs[0]);
  }

  // ---------------------------------------------------------------------------
  // The builder

  const PopEmpty := "pop from empty list"
  const NotOnLine := "Found a vector not in any of the lines: "

  /** The permutations the builder can hold: either the cycle list is the
      ascending list of orbit minima (what `compose` returns), or every
      symbol is fixed (the identity it starts from). */
  ghost predicate Canonical(p: Perm)
  {
    || (Ascending(p.cycles) && forall x :: x in p.dict ==> (x in p.cycles <==> OrbitMin(p.next, x)))
    || (forall x :: x in p.dict ==> x in p.next && p.next[x] == x)
  }

  /** A permutation of the symbols `Chars(n)` that the builder can hold. */
  ghost predicate Over(p: Perm, n: nat)
    requires n <= 10
  {
    Valid(p) && Canonical(p) && forall x :: x in p.dict <==> x in Chars(n)
  }

  /** `Permutation("I", char_symbols)`. */
  lemma IdentityStart(n: nat)
    requires n <= 10
    ensures Distinct(Chars(n))
    ensures ParseSpec("I", Chars(n)).Ok? && Over(ParseSpec("I", Chars(n)).value, n)
  {
    CharsMembers(n);
    ParseIdentity(Chars(n));
  }

  /** `permutation = Permutation.compose(permutation, swap)`: composing on the
      right with the transposition of `i` and `j` exchanges their images. */
  ghost function Transposed(p: Perm, i: nat, j: nat, n: nat): (q: Perm)
    requires n <= 10 && i < n && j < n && i != j
    requires Over(p, n)
    ensures Over(q, n)
    ensures q.next[Sym(i)] == p.next[Sym(j)] && q.next[Sym(j)] == p.next[Sym(i)]
    ensures forall x :: x in q.dict && x != Sym(i) && x != Sym(j) ==> q.next[x] == p.next[x]
  {
    SwapFacts(i, j, n);
    CharsMembers(n);
    var swap := ParseSpec(SwapText(i, j), Chars(n)).value;
    assert swap.dict == p.dict;
    ComposeCorrect(p, swap);
    ValidIsWellFormed(p);
    ValidIsWellFormed(swap);
    ComposeSpec(p, swap).value
  }

  /** The `while symbols_left_to_map` loop, from the worklist `left`, the
      current `from_index` and the permutation built so far. */
  ghost function Walk(m: Mat, lines: seq<Vec>, left: seq<nat>, from: nat, p: Perm): (r: Result<Perm>)
    requires |lines| <= 10 && from < |lines|
    requires forall x :: x in left ==> x < |lines|
    requires Over(p, |lines|)
    ensures r.Ok? ==> Over(r.value, |lines|)
    ensures r.Err? ==> r.error in {IndexError(VectorMismatch), IndexError(OutOfRange), ValueError(NotOnLine)}
    decreases 2 * |left| + (if from in left then 0 else 1)
  {
    if left == [] then Ok(p)
    else if from in left then
      RemoveCounts(left, from);
      Walk(m, lines, Remove(left, from), from, p)
    else if |lines[from]| != |m| then Err(IndexError(VectorMismatch))
    else if !FullColumns(m) then Err(IndexError(OutOfRange))
    else if |lines[0]| == 0 then Err(IndexError(OutOfRange))
    else match FirstLine(Apply(m, lines[from]), lines, 0)
      case None => Err(ValueError(NotOnLine))
      case Some(to) =>
        if to in left then Walk(m, lines, left, to, Transposed(p, from, to, |lines|))
        else
          var rest := left[..|left| - 1];
          assert left == rest + [left[|left| - 1]];
          assert left[|left| - 1] in left && forall x :: x in rest ==> x in left;
          Walk(m, lines, rest, left[|left| - 1], p)
  }

  /** One transposition step of the builder: `to` is still to be mapped, the
      swap parses over the symbols, and composing with it is `Transposed`. */
  lemma SwapStep(m: Mat, lines: seq<Vec>, left: seq<nat>, from: nat, p: Perm, to: nat)
    requires |lines| <= 10 && from < |lines|
    requires forall x :: x in left ==> x < |lines|
    requires Over(p, |lines|)
    requires left != [] && from !in left && |lines[from]| == |m| && FullColumns(m) && |lines[0]| > 0
    requires FirstLine(Apply(m, lines[from]), lines, 0) == Some(to) && to in left
    ensures to < |lines| && to != from
    ensures var swap := ParseSpec(SwapText(from, to), Chars(|lines|));
      && swap.Ok? && WellFormed(p) && WellFormed(swap.value)
      && ComposeSpec(p, swap.value) == Ok(Transposed(p, from, to, |lines|))
    ensures Walk(m, lines, left, from, p) == Walk(m, lines, left, to, Transposed(p, from, to, |lines|))
  {
    var n := |lines|;
    SwapFacts(from, to, n);
    CharsMembers(n);
    var swap := ParseSpec(SwapText(from, to), Chars(n)).value;
    assert swap.dict == p.dict;
    ComposeCorrect(p, swap);
    ValidIsWellFormed(p);
    ValidIsWellFormed(swap);
  }

  /** Moving on: `to` is already mapped, so the next index is popped. */
  lemma PopStep(m: Mat, lines: seq<Vec>, left: seq<nat>, from: nat, p: Perm, to: nat, rest: seq<nat>)
    requires |lines| <= 10 && from < |lines|
    requires forall x :: x in left ==> x < |lines|
    requires Over(p, |lines|)
    requires left != [] && from !in left && |lines[from]| == |m| && FullColumns(m) && |lines[0]| > 0
    requires FirstLine(Apply(m, lines[from]), lines, 0) == Some(to) && to !in left
    requires rest == left[..|left| - 1]
    ensures left[|left| - 1] < |lines| && forall x :: x in rest ==> x < |lines|
    ensures Walk(m, lines, left, from, p) == Walk(m, lines, rest, left[|left| - 1], p)
  {
    assert left == rest + [left[|left| - 1]];
    assert left[|left| - 1] in left && forall x :: x in rest ==> x in left;
  }

  /** `matrix_to_permutation` as a function of the matrix and the lines. */
  ghost function MatrixToPermutationSpec(m: Mat, lines: seq<Vec>): (r: Result<Perm>)
    requires |lines| <= 10
    ensures r.Ok? ==> Over(r.value, |lines|)
  {
    var n := |lines|;
    IdentityStart(n);
    var p := ParseSpec("I", Chars(n)).value;
    if n == 0 then Err(IndexError(PopEmpty))
    else
      var symbols := Countdown(n);
      Walk(m, lines, symbols[..n - 1], symbols[n - 1], p)
  }

  /** `matrix_to_permutation`. Indices are rendered with `str`, so the model
      covers up to ten lines, whose names are single characters. */
  method MatrixToPermutation(m: Mat, lines: seq<Vec>) returns (r: Result<Perm>)
    requires |lines| <= 10
    ensures r == MatrixToPermutationSpec(m, lines)
  {
    var n := |lines|;
    var symbols := Countdown(n);
    var chars := Chars(n);
    IdentityStart(n);
    var permutation := Permutations.Parse("I", chars);
    var p := permutation.value;
    if n == 0 {
      return Err(IndexError(PopEmpty));
    }
    var left: seq<nat> := symbols;
    var from: nat := left[|left| - 1];
    left := left[..|left| - 1];
    while left != []
      invariant from < n && forall x :: x in left ==> x < n
      invariant Over(p, n)
      invariant MatrixToPermutationSpec(m, lines) == Walk(m, lines, left, from, p)
      decreases 2 * |left| + (if from in left then 0 else 1)
    {
      if from in left {
        RemoveCounts(left, from);
        left := Remove(left, from);
        continue;
      }
      var image := MatVec(m, lines[from]);
      if image.Err? {
        return Err(image.error);
      }
      var found := WhichLine(image.value, lines);
      if found.Err? {
        return Err(found.error);
      }
      if found.value.None? {
        return Err(ValueError(NotOnLine));
      }
      var to := found.value.value;
      if to in left {
        SwapStep(m, lines, left, from, p, to);
        var smaller := if from < to then from else to;
        var larger := if from < to then to else from;
        var swap := Permutations.Parse("(" + [Sym(smaller), Sym(larger)] + ")", chars);
        var composed := Compose(p, swap.value);
        p := composed.value;
        from := to;
      } else {
        PopStep(m, lines, left, from, p, to, left[..|left| - 1]);
        from := left[|left| - 1];
        left := left[..|left| - 1];
      }
    }
    r := Ok(p);
  }
}
