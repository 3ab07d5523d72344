/** The homomorphism property the demonstration asserts: for matrices `a` and
    `b` that permute the lines, `matrix_to_permutation(a * b)` renders the same
    as `Permutation.compose(perm(a), perm(b))`. */
module Homomorphism {
  import opened Wrappers
  import opened F4Field
  import opened Linear
  import opened Orbits
  import opened Permutations
  import opened PermutationOps
  import opened PermutationCompose
  import opened ComposeLaws
  import opened Isomorphism
  import opened IsomorphismLaws

  /** Line `i` is sent by `b` to a nonzero multiple of line `Action(b)[i]`. */
  lemma ActionWitness(b: Mat, lines: seq<Vec>, i: nat) returns (s: F4)
    requires Acts(b, lines) && i < |lines|
    ensures Action(b, lines)[i] < |lines|
    ensures s != Zero && Apply(b, lines[i]) == Scaled(lines[Action(b, lines)[i]], s)
  {
    var j := Action(b, lines)[i];
    assert FirstLine(Apply(b, lines[i]), lines, 0) == Some(j);
    assert OnLine(Apply(b, lines[i]), lines[j]);
    s :| s in NonZero() && Apply(b, lines[i]) == Scaled(lines[j], s);
  }

  /** Two matrices acting on the same lines fit together: the columns of `b`
      are as long as `a` is wide. */
  lemma ActsFit(a: Mat, b: Mat, lines: seq<Vec>)
    requires Rect(b) && Acts(a, lines) && Acts(b, lines)
    ensures Fitting(a, b)
  {
    var s := ActionWitness(b, lines, 0);
    assert |Apply(b, lines[0])| == Height(b) == |lines[Action(b, lines)[0]]| == |a|;
  }

  /** A nonzero multiple of line `j` lies on the line `a` carries line `j` to. */
  lemma ScaledImage(a: Mat, lines: seq<Vec>, j: nat, s: F4)
    requires Acts(a, lines) && j < |lines| && s != Zero
    ensures |Scaled(lines[j], s)| == |a|
    ensures FirstLine(Apply(a, Scaled(lines[j], s)), lines, 0) == Some(Action(a, lines)[j])
  {
    ApplyScaled(a, lines[j], s);
    FirstLineScaled(Apply(a, lines[j]), s, lines);
  }

  /** The product sends line `i` where `a` sends the line `b` sends it to. */
  lemma ProductLine(a: Mat, b: Mat, lines: seq<Vec>, i: nat)
    requires Rect(a) && Rect(b) && Acts(a, lines) && Acts(b, lines) && i < |lines|
    requires Fitting(a, b)
    ensures |lines[i]| == |Product(a, b)| && FullColumns(Product(a, b))
    ensures FirstLine(Apply(Product(a, b), lines[i]), lines, 0) == Some(Action(a, lines)[Action(b, lines)[i]])
  {
    var s := ActionWitness(b, lines, i);
    var j := Action(b, lines)[i];
    ProductApply(a, b, lines[i]);
    ScaledImage(a, lines, j, s);
  }

  /** The product of two matrices carrying every line onto a line does so too,
      and carries line `i` where `a` carries the line `b` carries it to. */
  lemma ProductActs(a: Mat, b: Mat, lines: seq<Vec>)
    requires Rect(a) && Rect(b) && Acts(a, lines) && Acts(b, lines)
    ensures Fitting(a, b) && Acts(Product(a, b), lines)
    ensures forall i {:trigger FirstLine(Apply(Product(a, b), lines[i]), lines, 0)} :: 0 <= i < |lines| ==>
      FirstLine(Apply(Product(a, b), lines[i]), lines, 0) == Some(Action(a, lines)[Action(b, lines)[i]])
  {
    ActsFit(a, b, lines);
    var ab := Product(a, b);
    forall i {:trigger FirstLine(Apply(ab, lines[i]), lines, 0)} | 0 <= i < |lines|
      ensures |lines[i]| == |ab| && FullColumns(ab)
      ensures FirstLine(Apply(ab, lines[i]), lines, 0) == Some(Action(a, lines)[Action(b, lines)[i]])
    {
      ProductLine(a, b, lines, i);
    }
  }

  /** The action of a product is the composite of the actions, and a product
      of matrices permuting the lines permutes them too. */
  lemma ProductAction(a: Mat, b: Mat, lines: seq<Vec>)
    requires Rect(a) && Rect(b) && Permutes(a, lines) && Permutes(b, lines)
    ensures Fitting(a, b) && Permutes(Product(a, b), lines)
    ensures forall i {:trigger Action(Product(a, b), lines)[i]} :: 0 <= i < |lines| ==>
      Action(Product(a, b), lines)[i] == Action(a, lines)[Action(b, lines)[i]]
  {
    ProductActs(a, b, lines);
    ComposedBijection(Action(Product(a, b), lines), Action(a, lines), Action(b, lines));
  }

  /** Following one bijection of `0 .. n-1` by another gives a bijection. */
  lemma ComposedBijection(f: seq<nat>, g: seq<nat>, h: seq<nat>)
    requires Bijection(g) && Bijection(h) && |f| == |g| == |h|
    requires forall i :: 0 <= i < |f| ==> f[i] == g[h[i]]
    ensures Bijection(f)
  {
    forall i, j | 0 <= i < |f| && 0 <= j < |f| && f[i] == f[j]
      ensures i == j
    {
      assert h[i] == h[j];
    }
  }

  /** `__str__` of a permutation the builder can hold depends only on where
      it sends each symbol. */
  lemma SameRender(p: Perm, q: Perm, n: nat)
    requires n <= 10 && Over(p, n) && Over(q, n) && p.next == q.next
    ensures RenderSpec(p) == RenderSpec(q)
  {
    assert p.dict == q.dict;
    forall y | y in p.dict
      ensures p.prev[y] == q.prev[y]
    {
      var u, w := p.prev[y], q.prev[y];
      assert p.next[u] == y == p.next[w];
      assert p.prev[p.next[u]] == u && p.prev[p.next[w]] == w;
    }
    assert p.prev == q.prev;
    if forall x :: x in p.dict ==> p.next[x] == x {
      ShownFixed(p, p.cycles);
      ShownFixed(q, q.cycles);
    } else {
      var z :| z in p.dict && p.next[z] != z;
      assert Ascending(p.cycles) && forall x :: x in p.dict ==> (x in p.cycles <==> OrbitMin(p.next, x));
      assert Ascending(q.cycles) && forall x :: x in q.dict ==> (x in q.cycles <==> OrbitMin(q.next, x));
      AscendingUnique(p.cycles, q.cycles);
      assert p == q;
    }
  }

  /** Composing two permutations of the line symbols succeeds and gives one
      the builder can hold. */
  lemma ComposeOver(pg: Perm, ph: Perm, n: nat)
    requires n <= 10 && Over(pg, n) && Over(ph, n)
    ensures var c := ComposeSpec(pg, ph);
      && c.Ok? && Over(c.value, n) && c.value.dict == ph.dict
  {
    ComposeCorrect(pg, ph);
    assert pg.dict == ph.dict;
    var c := ComposeSpec(pg, ph).value;
    assert Canonical(c);
    assert forall x :: x in c.dict <==> x in ph.dict;
  }

  /** Two permutations of the line symbols sending every symbol alike have
      the same `next` links. */
  lemma SameNext(c: Perm, q: Perm, n: nat)
    requires n <= 10 && Over(c, n) && Over(q, n)
    requires forall i :: 0 <= i < n ==> Sym(i) in c.next && Sym(i) in q.next && c.next[Sym(i)] == q.next[Sym(i)]
    ensures c.next == q.next
  {
    forall x | x in c.dict
      ensures c.next[x] == q.next[x]
    {
      assert x in Chars(n);
      assert Sym(x as int - 48) == x;
    }
  }

  /** Composing two permutations of the line symbols that follow `g` and `h`
      gives one that follows `g` after `h`. */
  lemma ComposeFollows(pg: Perm, ph: Perm, g: seq<nat>, h: seq<nat>, n: nat)
    requires n <= 10 && Over(pg, n) && Over(ph, n) && |g| == n && |h| == n
    requires HasSyms(pg, n) && HasSyms(ph, n)
    requires forall i :: 0 <= i < n ==> g[i] < n && h[i] < n
    requires forall i: nat {:trigger pg.next[Sym(i)]} :: i < n ==> pg.next[Sym(i)] == Sym(g[i])
    requires forall i: nat {:trigger ph.next[Sym(i)]} :: i < n ==> ph.next[Sym(i)] == Sym(h[i])
    ensures var c := ComposeSpec(pg, ph);
      && c.Ok? && Over(c.value, n)
      && forall i: nat {:trigger c.value.next[Sym(i)]} :: i < n ==> c.value.next[Sym(i)] == Sym(g[h[i]])
  {
    ComposeOver(pg, ph, n);
    ComposeCorrect(pg, ph);
    var c := ComposeSpec(pg, ph).value;
    forall i: nat | i < n
      ensures c.next[Sym(i)] == Sym(g[h[i]])
    {
      assert Sym(i) in ph.dict;
      assert ph.next[Sym(i)] == Sym(h[i]);
      assert pg.next[Sym(h[i])] == Sym(g[h[i]]);
    }
  }

  /** Three permutations of the line symbols, following `g`, `h` and `g`
      after `h`: the composite of the first two exists, has the links of the
      third, and renders like it. */
  lemma ComposeMatches(pg: Perm, ph: Perm, q: Perm, g: seq<nat>, h: seq<nat>, n: nat)
    requires n <= 10 && Over(pg, n) && Over(ph, n) && Over(q, n) && |g| == n && |h| == n
    requires forall i :: 0 <= i < n ==> g[i] < n && h[i] < n
    requires forall i: nat {:trigger pg.next[Sym(i)]} :: i < n ==> pg.next[Sym(i)] == Sym(g[i])
    requires forall i: nat {:trigger ph.next[Sym(i)]} :: i < n ==> ph.next[Sym(i)] == Sym(h[i])
    requires forall i: nat {:trigger q.next[Sym(i)]} :: i < n ==> q.next[Sym(i)] == Sym(g[h[i]])
    ensures var c := ComposeSpec(pg, ph);
      && c.Ok? && Valid(c.value) && c.value.next == q.next
      && RenderSpec(c.value) == RenderSpec(q)
  {
    OverHasSyms(pg, n);
    OverHasSyms(ph, n);
    ComposeFollows(pg, ph, g, h, n);
    var c := ComposeSpec(pg, ph).value;
    OverHasSyms(c, n);
    OverHasSyms(q, n);
    SameNext(c, q, n);
    SameRender(c, q, n);
  }

  /** The homomorphism property: when `a` and `b` permute the lines, the
      permutation of `a * b` and the composite of the permutations of `a` and
      `b` both exist, have the same links, and render alike. */
  lemma MatrixToPermutationHomomorphism(a: Mat, b: Mat, lines: seq<Vec>)
    requires Rect(a) && Rect(b) && Permutes(a, lines) && Permutes(b, lines)
    ensures Fitting(a, b)
    ensures var pa, pb, pab := MatrixToPermutationSpec(a, lines), MatrixToPermutationSpec(b, lines),
                               MatrixToPermutationSpec(Product(a, b), lines);
      && pa.Ok? && pb.Ok? && pab.Ok?
      && var c := ComposeSpec(pa.value, pb.value);
         && c.Ok? && Valid(c.value) && c.value.next == pab.value.next
         && RenderSpec(c.value) == RenderSpec(pab.value)
  {
    ProductAction(a, b, lines);
    MatrixToPermutationMaps(a, lines);
    MatrixToPermutationMaps(b, lines);
    MatrixToPermutationMaps(Product(a, b), lines);
    ComposeMatches(MatrixToPermutationSpec(a, lines).value, MatrixToPermutationSpec(b, lines).value,
                   MatrixToPermutationSpec(Product(a, b), lines).value,
                   Action(a, lines), Action(b, lines), |lines|);
  }
}
