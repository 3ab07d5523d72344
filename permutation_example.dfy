/** The test of permutation.py: over the symbols 0 to 4, composing the
    identity after the transposition (14) gives a permutation that prints
    "(14)". */
module PermutationExample {
  import opened Wrappers
  import opened Orbits
  import opened Permutations
  import opened PermutationOps
  import opened PermutationCompose
  import opened ComposeLaws

  /** `symbols` of `permutation_tests`. */
  const Symbols: seq<char> := ['0', '1', '2', '3', '4']

  lemma SymbolsDistinct()
    ensures Distinct(Symbols)
  {
    forall i, j | 0 <= i < j < |Symbols|
      ensures Symbols[i] != Symbols[j]
    {
      assert Symbols[i] as int == 48 + i && Symbols[j] as int == 48 + j;
    }
  }

  /** `Permutation("(14)", symbols)` links 1 and 4 to each other and fixes
      the rest. */
  lemma Transposition()
    ensures ParseSpec("(14)", Symbols).Ok?
    ensures var p := ParseSpec("(14)", Symbols).value;
      && Valid(p) && (forall x :: x in p.dict <==> x in Symbols)
      && p.next['1'] == '4' && p.next['4'] == '1'
      && p.next['0'] == '0' && p.next['2'] == '2' && p.next['3'] == '3'
  {
    SymbolsDistinct();
    var gs: seq<seq<char>> := [['1', '4']];
    assert WellShaped(gs);
    assert Flatten(gs) == ['1', '4'] by {
      assert Flatten(gs[1..]) == [];
    }
    assert Fits(Symbols, [], Flatten(gs)) by {
      assert [] + Flatten(gs) == ['1', '4'];
      assert Symbols[1] == '1' && Symbols[4] == '4';
    }
    assert Notation(gs) == "(14)" by {
      assert Notation(gs[1..]) == "";
    }
    ParseGroups(gs, Symbols);
    var p := ParseSpec("(14)", Symbols).value;
    assert Linked(p.next, p.prev, gs[0]);
    assert Symbols[0] == '0' && Symbols[2] == '2' && Symbols[3] == '3';
    assert '0' !in Flatten(gs) && '2' !in Flatten(gs) && '3' !in Flatten(gs);
  }

  /** The links of the composite: 1 and 4 swapped, 0, 2 and 3 fixed. */
  ghost predicate Links14(p: Perm)
  {
    && '0' in p.next && '1' in p.next && '2' in p.next && '3' in p.next && '4' in p.next
    && p.next['0'] == '0' && p.next['1'] == '4' && p.next['2'] == '2'
    && p.next['3'] == '3' && p.next['4'] == '1'
  }

  /** With these links 4 is the only symbol that is not the least of its
      cycle, and 1, 4 is a cycle. */
  lemma Minima14(f: map<char, char>, D: set<char>)
    requires D == Five && D <= f.Keys
    requires f['0'] == '0' && f['1'] == '4' && f['2'] == '2' && f['3'] == '3' && f['4'] == '1'
    ensures IsCycle(f, D, ['1', '4'])
    ensures OrbitMin(f, '0') && OrbitMin(f, '1') && OrbitMin(f, '2') && OrbitMin(f, '3')
    ensures !OrbitMin(f, '4')
  {
    assert IsCycle(f, D, ['1', '4']);
    CycleMin(f, D, ['1', '4']);
    NotMinOnCycle(f, D, ['1', '4'], 1);
    assert IsCycle(f, D, ['0']);
    CycleMin(f, D, ['0']);
    assert IsCycle(f, D, ['2']);
    CycleMin(f, D, ['2']);
    assert IsCycle(f, D, ['3']);
    CycleMin(f, D, ['3']);
  }

  /** The symbols 0 to 4. */
  const Five: set<char> := {'0', '1', '2', '3', '4'}

  /** The transposition of 1 and 4. */
  function Swapped(x: char): char
  {
    if x == '1' then '4' else if x == '4' then '1' else x
  }

  /** The identity permutation of the five symbols. */
  ghost predicate IsIdentity(p: Perm)
  {
    Valid(p) && p.dict == Five && forall x :: x in Five ==> p.next[x] == x
  }

  /** A permutation of the five symbols that swaps 1 and 4. */
  ghost predicate IsSwap(p: Perm)
  {
    Valid(p) && p.dict == Five && forall x :: x in Five ==> p.next[x] == Swapped(x)
  }

  /** A domain equal to `symbols` is the set of the five symbols. */
  lemma DomainFive(p: Perm)
    requires forall x :: x in p.dict <==> x in Symbols
    ensures p.dict == Five
  {
    forall x
      ensures x in p.dict <==> x in Five
    {
      assert x in Symbols <==> x in Five;
    }
  }

  /** A valid permutation of the five symbols fixing each of them. */
  lemma FixesAll(p: Perm)
    requires Valid(p) && p.dict == Five
    requires forall x :: x in Symbols ==> p.next[x] == x
    ensures IsIdentity(p)
  {
    forall x | x in Five
      ensures p.next[x] == x
    {
      assert x in Symbols;
    }
  }

  /** `pId = Permutation("I", symbols)` is the identity on the five symbols. */
  lemma IdentityParsed(b: Perm)
    requires ParseSpec("I", Symbols) == Ok(b)
    ensures IsIdentity(b)
  {
    SymbolsDistinct();
    ParseIdentity(Symbols);
    DomainFive(b);
    FixesAll(b);
  }

  /** `p = Permutation("(14)", symbols)` swaps 1 and 4. */
  lemma TranspositionParsed(a: Perm)
    requires ParseSpec("(14)", Symbols) == Ok(a)
    ensures IsSwap(a)
  {
    Transposition();
    DomainFive(a);
    SwapsOneFour(a);
  }

  lemma SwapsOneFour(a: Perm)
    requires Valid(a) && a.dict == Five
    requires a.next['1'] == '4' && a.next['4'] == '1'
    requires a.next['0'] == '0' && a.next['2'] == '2' && a.next['3'] == '3'
    ensures IsSwap(a)
  {
  }

  /** The identity after the swap of 1 and 4 is that swap. */
  lemma AfterIdentity(b: Perm, a: Perm, c: Perm)
    requires IsIdentity(b) && IsSwap(a)
    requires Valid(c) && c.dict == a.dict
    requires forall x :: x in a.dict ==> c.next[x] == b.next[a.next[x]]
    ensures IsSwap(c)
  {
    forall x | x in Five
      ensures c.next[x] == Swapped(x)
    {
      var y := a.next[x];
      assert y in Five;
      assert c.next[x] == b.next[y];
    }
  }

  /** Composing the identity after the swap of 1 and 4 gives the swap again,
      with its cycles headed by their least symbols in ascending order. */
  lemma ComposedLinks(b: Perm, a: Perm)
    requires IsIdentity(b) && IsSwap(a)
    ensures WellFormed(a) && WellFormed(b)
    ensures var c := ComposeSpec(b, a);
      && c.Ok? && IsSwap(c.value)
      && Ascending(c.value.cycles)
      && forall x :: x in c.value.dict ==> (x in c.value.cycles <==> OrbitMin(c.value.next, x))
  {
    ValidIsWellFormed(a);
    ValidIsWellFormed(b);
    ComposeCorrect(b, a);
    AfterIdentity(b, a, ComposeSpec(b, a).value);
  }

  /** Of the heads 0, 1, 2 and 3 only 1 is moved. */
  lemma Shown14(p: Perm)
    requires Links14(p)
    ensures Shown(p, ['0', '1', '2', '3']) == ['1']
  {
    var hs := ['0', '1', '2', '3'];
    assert hs[1..] == ['1', '2', '3'] && hs[1..][1..] == ['2', '3'];
    assert hs[1..][1..][1..] == ['3'] && hs[1..][1..][1..][1..] == [];
    assert Shown(p, ['3']) == [] + Shown(p, []);
    assert Shown(p, ['2', '3']) == [] + Shown(p, ['3']);
  }

  /** `permutation_tests`: `str(Permutation.compose(pId, p)) == "(14)"`, where
      `pId` and `p` are the two permutations parsed over `symbols` (both parse,
      by `ParseIdentity` and `Transposition`). */
  lemma ComposeTest(b: Perm, a: Perm)
    requires ParseSpec("I", Symbols) == Ok(b) && ParseSpec("(14)", Symbols) == Ok(a)
    ensures WellFormed(a) && WellFormed(b)
    ensures var c := ComposeSpec(b, a);
      c.Ok? && Valid(c.value) && RenderSpec(c.value) == "(14)"
  {
    IdentityParsed(b);
    TranspositionParsed(a);
    ComposedLinks(b, a);
    RenderSwap14(ComposeSpec(b, a).value);
  }

  /** A permutation of the five symbols that swaps 1 and 4, with its cycles
      headed by their least symbols in ascending order, prints as "(14)". */
  lemma RenderSwap14(p: Perm)
    requires IsSwap(p) && Ascending(p.cycles)
    requires forall x :: x in p.dict ==> (x in p.cycles <==> OrbitMin(p.next, x))
    ensures RenderSpec(p) == "(14)"
  {
    assert Links14(p);
    Minima14(p.next, p.dict);
    var heads := ['0', '1', '2', '3'];
    forall x
      ensures x in p.cycles <==> x in heads
    {
      if x in p.cycles {
        assert x in p.dict;
      }
    }
    AscendingUnique(p.cycles, heads);
    NextBijective(p);
    Shown14(p);
    OrbitOfCycle(p.next, p.dict, ['1', '4']);
    assert Texts(p, ['1']) == CycleText(p, '1') + Texts(p, []);
  }
}
