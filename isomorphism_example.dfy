/** The GF(4) test case of `isomorphism_tests`: the matrix with rows
    (1, x) and (x + 1, 0) acts on the five lines of GF(4)^2 as the permutation
    printed "(041)". */
module IsomorphismExample {
  import opened Wrappers
  import opened F4Field
  import opened Linear
  import opened Orbits
  import opened Permutations
  import opened PermutationOps
  import opened Isomorphism
  import opened IsomorphismLaws

  /** `lines_f4`: one spanning vector for each of the five lines. */
  const LinesF4: seq<Vec> := [[One, Zero], [Zero, One], [One, X], [One, One], [One, XPlusOne]]

  /** The rows of `m_f4`, as passed to `Matrix.from_list`. */
  const RowsF4: seq<Vec> := [[One, X], [XPlusOne, Zero]]

  /** `m_f4` as a list of columns. */
  const MF4: Mat := [[One, XPlusOne], [X, Zero]]

  /** `from_list` turns the rows of `m_f4` into its columns. */
  lemma FromListExample()
    ensures Transpose(RowsF4) == MF4
  {
    var m := Transpose(RowsF4);
    assert m[0] == [One, XPlusOne] && m[1] == [X, Zero];
  }

  /** A vector is on a line exactly when it is one of the three nonzero
      multiples of the line's vector. */
  lemma OnLineCases(v: Vec, l: Vec)
    ensures OnLine(v, l) <==> v == Scaled(l, One) || v == Scaled(l, X) || v == Scaled(l, XPlusOne)
  {
    if OnLine(v, l) {
      var s :| s in NonZero() && v == Scaled(l, s);
      Elements(s);
    }
    if v == Scaled(l, One) {
      assert One in NonZero();
    } else if v == Scaled(l, X) {
      assert X in NonZero();
    } else if v == Scaled(l, XPlusOne) {
      assert XPlusOne in NonZero();
    }
  }

  /** A multiple of a pair, entry by entry. */
  lemma ScaledPair(a: F4, b: F4, s: F4)
    ensures Scaled([a, b], s) == [Mul(a, s), Mul(b, s)]
  {
  }

  /** The dot product of two pairs. */
  lemma DotPair(a0: F4, a1: F4, b0: F4, b1: F4)
    ensures Dot([a0, a1], [b0, b1]) == Add(Add(Zero, Mul(a0, b0)), Mul(a1, b1))
  {
    var a, b := [a0, a1], [b0, b1];
    assert DotUpTo(a, b, 1) == Add(Zero, Mul(a0, b0));
  }

  /** A 2x2 matrix applied to a pair. */
  lemma ApplyPair(m: Mat, a: F4, b: F4)
    requires |m| == 2 && |m[0]| == 2 && |m[1]| == 2
    ensures FullColumns(m)
    ensures Apply(m, [a, b]) == [Add(Add(Zero, Mul(m[0][0], a)), Mul(m[1][0], b)),
                                 Add(Add(Zero, Mul(m[0][1], a)), Mul(m[1][1], b))]
  {
    var r := Apply(m, [a, b]);
    assert Row(m, 0) == [m[0][0], m[1][0]];
    assert Row(m, 1) == [m[0][1], m[1][1]];
    DotPair(m[0][0], m[1][0], a, b);
    DotPair(m[0][1], m[1][1], a, b);
    assert r[0] == Dot(Row(m, 0), [a, b]);
    assert r[1] == Dot(Row(m, 1), [a, b]);
  }

  /** The addition and multiplication tables of the four elements. */
  lemma Tables()
    ensures Add(Zero, Zero) == Zero
    ensures Add(Zero, One) == One
    ensures Add(Zero, X) == X
    ensures Add(Zero, XPlusOne) == XPlusOne
    ensures Add(One, Zero) == One
    ensures Add(One, One) == Zero
    ensures Add(One, X) == XPlusOne
    ensures Add(One, XPlusOne) == X
    ensures Add(X, Zero) == X
    ensures Add(X, One) == XPlusOne
    ensures Add(X, X) == Zero
    ensures Add(X, XPlusOne) == One
    ensures Add(XPlusOne, Zero) == XPlusOne
    ensures Add(XPlusOne, One) == X
    ensures Add(XPlusOne, X) == One
    ensures Add(XPlusOne, XPlusOne) == Zero
    ensures Mul(Zero, Zero) == Zero
    ensures Mul(Zero, One) == Zero
    ensures Mul(Zero, X) == Zero
    ensures Mul(Zero, XPlusOne) == Zero
    ensures Mul(One, Zero) == Zero
    ensures Mul(One, One) == One
    ensures Mul(One, X) == X
    ensures Mul(One, XPlusOne) == XPlusOne
    ensures Mul(X, Zero) == Zero
    ensures Mul(X, One) == X
    ensures Mul(X, X) == XPlusOne
    ensures Mul(X, XPlusOne) == One
    ensures Mul(XPlusOne, Zero) == Zero
    ensures Mul(XPlusOne, One) == XPlusOne
    ensures Mul(XPlusOne, X) == One
    ensures Mul(XPlusOne, XPlusOne) == X
  {
  }

  /** The three nonzero vectors on line 0. */
  lemma Line0(v: Vec)
    ensures OnLine(v, LinesF4[0]) <==> v == [One, Zero] || v == [X, Zero] || v == [XPlusOne, Zero]
  {
    assert LinesF4[0] == [One, Zero];
    OnLineCases(v, [One, Zero]);
    assert Scaled([One, Zero], One) == [One, Zero] && Scaled([One, Zero], X) == [X, Zero] && Scaled([One, Zero], XPlusOne) == [XPlusOne, Zero] by {
      ScaledPair(One, Zero, One);
      ScaledPair(One, Zero, X);
      ScaledPair(One, Zero, XPlusOne);
      Tables();
    }
  }

  /** The three nonzero vectors on line 1. */
  lemma Line1(v: Vec)
    ensures OnLine(v, LinesF4[1]) <==> v == [Zero, One] || v == [Zero, X] || v == [Zero, XPlusOne]
  {
    assert LinesF4[1] == [Zero, One];
    OnLineCases(v, [Zero, One]);
    assert Scaled([Zero, One], One) == [Zero, One] && Scaled([Zero, One], X) == [Zero, X] && Scaled([Zero, One], XPlusOne) == [Zero, XPlusOne] by {
      ScaledPair(Zero, One, One);
      ScaledPair(Zero, One, X);
      ScaledPair(Zero, One, XPlusOne);
      Tables();
    }
  }

  /** The three nonzero vectors on line 2. */
  lemma Line2(v: Vec)
    ensures OnLine(v, LinesF4[2]) <==> v == [One, X] || v == [X, XPlusOne] || v == [XPlusOne, One]
  {
    assert LinesF4[2] == [One, X];
    OnLineCases(v, [One, X]);
    assert Scaled([One, X], One) == [One, X] && Scaled([One, X], X) == [X, XPlusOne] && Scaled([One, X], XPlusOne) == [XPlusOne, One] by {
      ScaledPair(One, X, One);
      ScaledPair(One, X, X);
      ScaledPair(One, X, XPlusOne);
      Tables();
    }
  }

  /** The three nonzero vectors on line 3. */
  lemma Line3(v: Vec)
    ensures OnLine(v, LinesF4[3]) <==> v == [One, One] || v == [X, X] || v == [XPlusOne, XPlusOne]
  {
    assert LinesF4[3] == [One, One];
    OnLineCases(v, [One, One]);
    assert Scaled([One, One], One) == [One, One] && Scaled([One, One], X) == [X, X] && Scaled([One, One], XPlusOne) == [XPlusOne, XPlusOne] by {
      ScaledPair(One, One, One);
      ScaledPair(One, One, X);
      ScaledPair(One, One, XPlusOne);
      Tables();
    }
  }

  /** The three nonzero vectors on line 4. */
  lemma Line4(v: Vec)
    ensures OnLine(v, LinesF4[4]) <==> v == [One, XPlusOne] || v == [X, One] || v == [XPlusOne, X]
  {
    assert LinesF4[4] == [One, XPlusOne];
    OnLineCases(v, [One, XPlusOne]);
    assert Scaled([One, XPlusOne], One) == [One, XPlusOne] && Scaled([One, XPlusOne], X) == [X, One] && Scaled([One, XPlusOne], XPlusOne) == [XPlusOne, X] by {
      ScaledPair(One, XPlusOne, One);
      ScaledPair(One, XPlusOne, X);
      ScaledPair(One, XPlusOne, XPlusOne);
      Tables();
    }
  }

  /** `m_f4` applied to a pair. */
  lemma ApplyMF4(a: F4, b: F4)
    ensures FullColumns(MF4)
    ensures Apply(MF4, [a, b]) == [Add(Add(Zero, Mul(One, a)), Mul(X, b)), Add(Add(Zero, Mul(XPlusOne, a)), Mul(Zero, b))]
  {
    ApplyPair(MF4, a, b);
  }

  /** `m_f4` sends the vector of line 0 to (One, XPlusOne). */
  lemma Image0()
    ensures FullColumns(MF4) && Apply(MF4, LinesF4[0]) == [One, XPlusOne]
  {
    assert LinesF4[0] == [One, Zero];
    ApplyMF4(One, Zero);
    assert [Add(Add(Zero, Mul(One, One)), Mul(X, Zero)), Add(Add(Zero, Mul(XPlusOne, One)), Mul(Zero, Zero))] == [One, XPlusOne] by {
      Tables();
    }
  }

  /** `m_f4` sends the vector of line 1 to (X, Zero). */
  lemma Image1()
    ensures FullColumns(MF4) && Apply(MF4, LinesF4[1]) == [X, Zero]
  {
    assert LinesF4[1] == [Zero, One];
    ApplyMF4(Zero, One);
    assert [Add(Add(Zero, Mul(One, Zero)), Mul(X, One)), Add(Add(Zero, Mul(XPlusOne, Zero)), Mul(Zero, One))] == [X, Zero] by {
      Tables();
    }
  }

  /** `m_f4` sends the vector of line 2 to (X, XPlusOne). */
  lemma Image2()
    ensures FullColumns(MF4) && Apply(MF4, LinesF4[2]) == [X, XPlusOne]
  {
    assert LinesF4[2] == [One, X];
    ApplyMF4(One, X);
    assert [Add(Add(Zero, Mul(One, One)), Mul(X, X)), Add(Add(Zero, Mul(XPlusOne, One)), Mul(Zero, X))] == [X, XPlusOne] by {
      Tables();
    }
  }

  /** `m_f4` sends the vector of line 3 to (XPlusOne, XPlusOne). */
  lemma Image3()
    ensures FullColumns(MF4) && Apply(MF4, LinesF4[3]) == [XPlusOne, XPlusOne]
  {
    assert LinesF4[3] == [One, One];
    ApplyMF4(One, One);
    assert [Add(Add(Zero, Mul(One, One)), Mul(X, One)), Add(Add(Zero, Mul(XPlusOne, One)), Mul(Zero, One))] == [XPlusOne, XPlusOne] by {
      Tables();
    }
  }

  /** `m_f4` sends the vector of line 4 to (Zero, XPlusOne). */
  lemma Image4()
    ensures FullColumns(MF4) && Apply(MF4, LinesF4[4]) == [Zero, XPlusOne]
  {
    assert LinesF4[4] == [One, XPlusOne];
    ApplyMF4(One, XPlusOne);
    assert [Add(Add(Zero, Mul(One, One)), Mul(X, XPlusOne)), Add(Add(Zero, Mul(XPlusOne, One)), Mul(Zero, XPlusOne))] == [Zero, XPlusOne] by {
      Tables();
    }
  }

  /** (One, XPlusOne) lies on line 4 and on no earlier line. */
  lemma Lands0()
    ensures FirstLine([One, XPlusOne], LinesF4, 0) == Some(4)
  {
    Line0([One, XPlusOne]);
    Line1([One, XPlusOne]);
    Line2([One, XPlusOne]);
    Line3([One, XPlusOne]);
    Line4([One, XPlusOne]);
    assert FirstLine([One, XPlusOne], LinesF4, 4) == Some(4);
    assert FirstLine([One, XPlusOne], LinesF4, 3) == Some(4);
    assert FirstLine([One, XPlusOne], LinesF4, 2) == Some(4);
    assert FirstLine([One, XPlusOne], LinesF4, 1) == Some(4);
    assert FirstLine([One, XPlusOne], LinesF4, 0) == Some(4);
  }

  /** (X, Zero) lies on line 0 and on no earlier line. */
  lemma Lands1()
    ensures FirstLine([X, Zero], LinesF4, 0) == Some(0)
  {
    Line0([X, Zero]);
    assert FirstLine([X, Zero], LinesF4, 0) == Some(0);
  }

  /** (X, XPlusOne) lies on line 2 and on no earlier line. */
  lemma Lands2()
    ensures FirstLine([X, XPlusOne], LinesF4, 0) == Some(2)
  {
    Line0([X, XPlusOne]);
    Line1([X, XPlusOne]);
    Line2([X, XPlusOne]);
    assert FirstLine([X, XPlusOne], LinesF4, 2) == Some(2);
    assert FirstLine([X, XPlusOne], LinesF4, 1) == Some(2);
    assert FirstLine([X, XPlusOne], LinesF4, 0) == Some(2);
  }

  /** (XPlusOne, XPlusOne) lies on line 3 and on no earlier line. */
  lemma Lands3()
    ensures FirstLine([XPlusOne, XPlusOne], LinesF4, 0) == Some(3)
  {
    Line0([XPlusOne, XPlusOne]);
    Line1([XPlusOne, XPlusOne]);
    Line2([XPlusOne, XPlusOne]);
    Line3([XPlusOne, XPlusOne]);
    assert FirstLine([XPlusOne, XPlusOne], LinesF4, 3) == Some(3);
    assert FirstLine([XPlusOne, XPlusOne], LinesF4, 2) == Some(3);
    assert FirstLine([XPlusOne, XPlusOne], LinesF4, 1) == Some(3);
    assert FirstLine([XPlusOne, XPlusOne], LinesF4, 0) == Some(3);
  }

  /** (Zero, XPlusOne) lies on line 1 and on no earlier line. */
  lemma Lands4()
    ensures FirstLine([Zero, XPlusOne], LinesF4, 0) == Some(1)
  {
    Line0([Zero, XPlusOne]);
    Line1([Zero, XPlusOne]);
    assert FirstLine([Zero, XPlusOne], LinesF4, 1) == Some(1);
    assert FirstLine([Zero, XPlusOne], LinesF4, 0) == Some(1);
  }

  /** Where `m_f4` carries each line. */
  const ActionF4: seq<nat> := [4, 0, 2, 3, 1]

  /** The image of each spanning vector first lies on line `ActionF4[i]`. */
  lemma ExampleImages()
    ensures forall i :: 0 <= i < 5 ==> FirstLine(Apply(MF4, LinesF4[i]), LinesF4, 0) == Some(ActionF4[i])
  {
    forall i | 0 <= i < 5
      ensures FirstLine(Apply(MF4, LinesF4[i]), LinesF4, 0) == Some(ActionF4[i])
    {
      if i == 0 {
        Image0();
        Lands0();
      } else if i == 1 {
        Image1();
        Lands1();
      } else if i == 2 {
        Image2();
        Lands2();
      } else if i == 3 {
        Image3();
        Lands3();
      } else {
        Image4();
        Lands4();
      }
    }
  }

  /** `m_f4` carries the lines 0, 1, 2, 3, 4 onto 4, 0, 2, 3, 1. */
  lemma ExampleAction()
    ensures Permutes(MF4, LinesF4)
    ensures Action(MF4, LinesF4) == ActionF4
  {
    ExampleActs();
    ExampleImages();
    var f := Action(MF4, LinesF4);
    forall i | 0 <= i < 5
      ensures f[i] == ActionF4[i]
    {
      assert FirstLine(Apply(MF4, LinesF4[i]), LinesF4, 0) == Some(f[i]);
    }
    assert f == ActionF4;
    ExampleBijection();
  }

  /** `m_f4` carries every line onto a line. */
  lemma ExampleActs()
    ensures Acts(MF4, LinesF4)
  {
    LinesArePairs();
    assert |MF4| == 2 && |MF4[0]| == 2 && |MF4[1]| == 2;
    assert FullColumns(MF4);
    assert forall i :: 0 <= i < |LinesF4| ==> |LinesF4[i]| == |MF4|;
    ExampleImages();
    assert forall i {:trigger FirstLine(Apply(MF4, LinesF4[i]), LinesF4, 0)} :: 0 <= i < |LinesF4| ==>
      FirstLine(Apply(MF4, LinesF4[i]), LinesF4, 0).Some?;
  }

  /** Every spanning vector has two coordinates. */
  lemma LinesArePairs()
    ensures |LinesF4| == 5 && forall i :: 0 <= i < 5 ==> |LinesF4[i]| == 2
  {
    forall i | 0 <= i < 5
      ensures |LinesF4[i]| == 2
    {
      if i == 0 {
        assert LinesF4[0] == [One, Zero];
      } else if i == 1 {
        assert LinesF4[1] == [Zero, One];
      } else if i == 2 {
        assert LinesF4[2] == [One, X];
      } else if i == 3 {
        assert LinesF4[3] == [One, One];
      } else {
        assert LinesF4[4] == [One, XPlusOne];
      }
    }
  }

  /** [4, 0, 2, 3, 1] is undone by [1, 4, 2, 3, 0], so it is one-to-one. */
  lemma ExampleBijection()
    ensures Bijection(ActionF4)
  {
    var f, g := ActionF4, [1, 4, 2, 3, 0];
    forall i | 0 <= i < 5
      ensures f[i] < 5 && g[f[i]] == i
    {
      if i == 0 {
      } else if i == 1 {
      } else if i == 2 {
      } else if i == 3 {
      } else {
      }
    }
  }

  /** The links of the permutation built for `m_f4`: 0 to 4, 1 to 0, 2 to 2,
      3 to 3 and 4 to 1. */
  ghost predicate LinksF4(p: Perm)
  {
    && '0' in p.next && '1' in p.next && '2' in p.next && '3' in p.next && '4' in p.next
    && p.next['0'] == '4' && p.next['1'] == '0' && p.next['2'] == '2'
    && p.next['3'] == '3' && p.next['4'] == '1'
  }

  /** `matrix_to_permutation(m_f4, lines_f4)` links 0 to 4, 4 to 1 and 1 to 0,
      and fixes 2 and 3. */
  lemma ExampleNext()
    ensures var r := MatrixToPermutationSpec(MF4, LinesF4);
      r.Ok? && Over(r.value, 5) && LinksF4(r.value)
  {
    ExampleAction();
    MatrixToPermutationMaps(MF4, LinesF4);
    var p := MatrixToPermutationSpec(MF4, LinesF4).value;
    OverHasSyms(p, 5);
    LinksOf(p);
  }

  /** A map on the symbols 0 to 4 that follows `ActionF4` has these links. */
  lemma LinksOf(p: Perm)
    requires forall i :: 0 <= i < 5 ==> Sym(i) in p.next && p.next[Sym(i)] == Sym(ActionF4[i])
    ensures LinksF4(p)
  {
    assert p.next[Sym(0)] == Sym(ActionF4[0]) && ActionF4[0] == 4;
    assert p.next[Sym(1)] == Sym(ActionF4[1]) && ActionF4[1] == 0;
    assert p.next[Sym(2)] == Sym(ActionF4[2]) && ActionF4[2] == 2;
    assert p.next[Sym(3)] == Sym(ActionF4[3]) && ActionF4[3] == 3;
    assert p.next[Sym(4)] == Sym(ActionF4[4]) && ActionF4[4] == 1;
    assert Sym(0) == '0' && Sym(1) == '1' && Sym(2) == '2' && Sym(3) == '3' && Sym(4) == '4';
  }

  /** The five symbols of `lines_f4`. */
  const SymbolsF4: set<char> := {'0', '1', '2', '3', '4'}

  lemma ExampleDomain(p: Perm)
    requires Over(p, 5)
    ensures p.dict == SymbolsF4
  {
    forall x
      ensures x in p.dict <==> x in SymbolsF4
    {
      assert x in p.dict <==> x in Chars(5);
    }
  }

  /** With these links, 0, 2 and 3 are the least symbols of their cycles and
      4 and 1 are not. */
  lemma ExampleMinima(f: map<char, char>, D: set<char>)
    requires D == SymbolsF4 && D <= f.Keys
    requires f['0'] == '4' && f['1'] == '0' && f['2'] == '2' && f['3'] == '3' && f['4'] == '1'
    ensures IsCycle(f, D, ['0', '4', '1'])
    ensures OrbitMin(f, '0') && OrbitMin(f, '2') && OrbitMin(f, '3')
    ensures !OrbitMin(f, '4') && !OrbitMin(f, '1')
  {
    var P := ['0', '4', '1'];
    assert IsCycle(f, D, P);
    CycleMin(f, D, P);
    NotMinOnCycle(f, D, P, 1);
    NotMinOnCycle(f, D, P, 2);
    assert IsCycle(f, D, ['2']);
    CycleMin(f, D, ['2']);
    assert IsCycle(f, D, ['3']);
    CycleMin(f, D, ['3']);
  }

  /** The cycle heads kept by the builder are 0, 2 and 3, in that order. */
  lemma ExampleHeads(p: Perm)
    requires Over(p, 5) && LinksF4(p)
    ensures p.cycles == ['0', '2', '3']
  {
    ExampleDomain(p);
    ExampleMinima(p.next, p.dict);
    assert !(p.next['0'] == '0');
    assert Ascending(p.cycles) && forall x :: x in p.dict ==> (x in p.cycles <==> OrbitMin(p.next, x));
    var heads := ['0', '2', '3'];
    forall x
      ensures x in p.cycles <==> x in heads
    {
      if x in p.cycles {
        assert x in p.dict;
      }
    }
    AscendingUnique(p.cycles, heads);
  }

  /** Of the heads 0, 2 and 3 only 0 is moved. */
  lemma ExampleShown(p: Perm)
    requires LinksF4(p)
    ensures Shown(p, ['0', '2', '3']) == ['0']
  {
    var hs := ['0', '2', '3'];
    assert hs[1..] == ['2', '3'] && hs[1..][1..] == ['3'] && hs[1..][1..][1..] == [];
    assert Shown(p, ['3']) == [] + Shown(p, []);
    assert Shown(p, ['2', '3']) == [] + Shown(p, ['3']);
  }

  /** Any permutation of the five symbols with these links prints as "(041)":
      only the cycle headed by 0 is shown, and it runs 0, 4, 1. */
  lemma RenderLinksF4(p: Perm)
    requires Over(p, 5) && LinksF4(p)
    ensures RenderSpec(p) == "(041)"
  {
    ExampleHeads(p);
    ExampleDomain(p);
    ExampleMinima(p.next, p.dict);
    NextBijective(p);
    ExampleShown(p);
    OrbitOfCycle(p.next, p.dict, ['0', '4', '1']);
    assert Texts(p, ['0']) == CycleText(p, '0') + Texts(p, []);
  }

  /** `isomorphism_tests` for GF(4): `unicode(matrix_to_permutation(m_f4,
      lines_f4))` is "(041)". */
  lemma ExampleRender()
    ensures var r := MatrixToPermutationSpec(Transpose(RowsF4), LinesF4);
      r.Ok? && Valid(r.value) && RenderSpec(r.value) == "(041)"
  {
    FromListExample();
    ExampleNext();
    RenderLinksF4(MatrixToPermutationSpec(MF4, LinesF4).value);
  }
}
