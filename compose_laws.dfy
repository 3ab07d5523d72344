/** What `Permutation.compose(b, a)` computes on well-built permutations: the
    map x -> b(a(x)) in cycle form, cycle heads ascending, each head the
    smallest symbol of its cycle; and it fails, always with KeyError, exactly
    when the two permutations act on different symbols. */
module ComposeLaws {
  import opened Wrappers
  import opened Orbits
  import opened Permutations
  import opened PermutationCompose

  /** Both lookups of one step of `compose` succeed at `x`: `x` has a node
      in a, and the symbol after it has a node in b. */
  ghost predicate Defined(a: Perm, b: Perm, x: char)
  {
    x in a.dict && x in a.next && a.next[x] in b.dict && a.next[x] in b.next
  }

  /** `F` is the composite b∘a, defined wherever both lookups succeed. */
  ghost predicate IsComposite(a: Perm, b: Perm, F: map<char, char>)
  {
    && (forall x {:trigger Defined(a, b, x)} :: x in F <==> Defined(a, b, x))
    && (forall x {:trigger Defined(a, b, x)} :: Defined(a, b, x) ==> x in F && F[x] == b.next[a.next[x]])
    && (forall x, y :: x in F && y in F && F[x] == F[y] ==> x == y)
  }

  /** Valid permutations have an injective composite. */
  lemma MakeComposite(a: Perm, b: Perm) returns (F: map<char, char>)
    requires Valid(a) && Valid(b)
    ensures IsComposite(a, b, F)
  {
    F := map x | Defined(a, b, x) :: b.next[a.next[x]];
    forall x, y | x in F && y in F && F[x] == F[y]
      ensures x == y
    {
      assert b.prev[b.next[a.next[x]]] == a.next[x];
      assert a.prev[a.next[x]] == x && a.prev[a.next[y]] == y;
    }
  }

  lemma RemoveDescending(xs: seq<char>, x: char)
    requires Descending(xs) && x in xs
    ensures Descending(Remove(xs, x))
    ensures forall y :: y in Remove(xs, x) <==> y in xs && y != x
  {
    RemoveMembers(xs, x);
    RemoveSorted(xs, x);
  }

  /** Over descending, hence distinct, entries `list.remove(x)` drops `x`
      altogether; the other entries are kept by `RemoveCounts`. */
  lemma {:induction false} RemoveMembers(xs: seq<char>, x: char)
    requires Descending(xs) && x in xs
    ensures forall y :: y in Remove(xs, x) <==> y in xs && y != x
  {
    RemoveCounts(xs, x);
    DescendingTail(xs);
    assert xs == [xs[0]] + xs[1..];
    if xs[0] != x {
      RemoveMembers(xs[1..], x);
    }
  }

  lemma {:induction false} RemoveSorted(xs: seq<char>, x: char)
    requires Descending(xs) && x in xs
    ensures Descending(Remove(xs, x))
  {
    DescendingTail(xs);
    if xs[0] != x {
      assert x in xs[1..] by {
        assert xs == [xs[0]] + xs[1..];
      }
      RemoveSorted(xs[1..], x);
      RemoveMembers(xs[1..], x);
      DescendingCons(xs[0], Remove(xs[1..], x));
    }
  }

  /** The tail of a descending sequence descends, below its head. */
  lemma DescendingTail(xs: seq<char>)
    requires Descending(xs) && |xs| > 0
    ensures Descending(xs[1..]) && forall y :: y in xs[1..] ==> xs[0] > y
  {
    forall i, j | 0 <= i < j < |xs[1..]|
      ensures xs[1..][i] > xs[1..][j]
    {
      assert xs[1..][i] == xs[i + 1] && xs[1..][j] == xs[j + 1];
    }
  }

  /** A head above every element of a descending sequence keeps it descending. */
  lemma DescendingCons(a: char, r: seq<char>)
    requires Descending(r) && forall y :: y in r ==> a > y
    ensures Descending([a] + r)
  {
    var q := [a] + r;
    forall i, j | 0 <= i < j < |q|
      ensures q[i] > q[j]
    {
      assert q[j] == r[j - 1] && q[j] in r;
      if 0 < i {
        assert q[i] == r[i - 1];
      }
    }
  }

  /** The symbols still to map are sorted largest first, lie in the union of
      both domains and have no entry yet. */
  ghost predicate LeftOK(U: set<char>, t: Trace)
  {
    && Descending(t.left)
    && (forall i :: 0 <= i < |t.left| ==> t.left[i] in U && t.left[i] !in t.dict)
    && (forall x {:trigger x in U} :: x in U ==> x in t.dict || x in t.left)
    && t.dict <= U
  }

  /** Every mapped symbol is linked as the composite maps it. */
  ghost predicate LinksOK(F: map<char, char>, t: Trace)
  {
    && t.next.Keys == t.dict
    && t.prev.Keys == t.dict
    && (forall x {:trigger t.next[x]} :: x in t.dict ==> x in F && t.next[x] == F[x])
    && (forall x {:trigger F[x] in t.dict} :: x in t.dict ==> F[x] in t.dict)
    && (forall y {:trigger t.prev[y] in t.dict} :: y in t.dict ==> t.prev[y] in t.dict)
    && (forall y {:trigger t.prev[y]} :: y in t.dict ==> t.prev[y] in F && F[t.prev[y]] == y)
  }

  /** The cycle heads so far: ascending, below every symbol left, and exactly
      the mapped symbols that are smallest on their orbit. */
  ghost predicate HeadsOK(F: map<char, char>, t: Trace)
  {
    && Ascending(t.cycles)
    && (forall i :: 0 <= i < |t.cycles| ==> t.cycles[i] in t.dict)
    && (forall i, j :: 0 <= i < |t.cycles| && 0 <= j < |t.left| ==> t.cycles[i] < t.left[j])
    && (forall x {:trigger OrbitMin(F, x)} {:trigger x in t.cycles} :: x in t.dict ==> (x in t.cycles <==> OrbitMin(F, x)))
  }

  /** The state between two cycles of the outer loop. */
  ghost predicate Good(F: map<char, char>, U: set<char>, t: Trace)
  {
    LeftOK(U, t) && LinksOK(F, t) && HeadsOK(F, t)
  }

  /** Inside the inner loop: `P` is the path of the composite traced from the
      seed (the last symbol of `t0.left`) so far; its symbols have left
      `t0.left`, all but the seed have entries, and the new nodes are linked
      along `P`. */
  ghost predicate Mid(F: map<char, char>, t0: Trace, P: seq<char>, t: Trace)
  {
    MidPath(F, t0, P) && MidLeft(t0, P, t) && MidDict(t0, P, t) && MidLinks(t0, P, t)
  }

  ghost predicate MidPath(F: map<char, char>, t0: Trace, P: seq<char>)
  {
    && |t0.left| > 0 && |P| > 0 && P[0] == t0.left[|t0.left| - 1]
    && Distinct(P)
    && (forall i :: 0 <= i < |P| - 1 ==> P[i] in F && F[P[i]] == P[i + 1])
    && (forall i :: 0 <= i < |P| ==> P[i] in t0.left)
    && (forall i :: 0 <= i < |t0.left| ==> t0.left[i] !in t0.dict)
  }

  ghost predicate MidLeft(t0: Trace, P: seq<char>, t: Trace)
  {
    && Descending(t.left)
    && |t.left| + |P| == |t0.left|
    && (forall x :: x in t.left <==> x in t0.left && x !in P)
  }

  ghost predicate MidDict(t0: Trace, P: seq<char>, t: Trace)
    requires |P| > 0
  {
    && (forall x :: x in t.dict <==> x in t0.dict || (x in P && x != P[0]))
    && t.cycles == t0.cycles + [P[0]]
  }

  ghost predicate MidLinks(t0: Trace, P: seq<char>, t: Trace)
    requires |P| > 0
  {
    && (forall x :: x in t.next <==> x in t0.dict || x in P)
    && (forall x :: x in t.prev <==> x in t0.dict || x in P)
    && (forall x :: x in t0.dict && x in t0.next ==> t.next[x] == t0.next[x])
    && (forall x :: x in t0.dict && x in t0.prev ==> t.prev[x] == t0.prev[x])
    && (forall i :: 0 <= i < |P| - 1 ==> P[i] in t.next && t.next[P[i]] == P[i + 1])
    && (forall i :: 0 < i < |P| ==> P[i] in t.prev && t.prev[P[i]] == P[i - 1])
  }

  /** A descending sequence has no repeated symbol. */
  lemma DescendingDistinct(xs: seq<char>)
    requires Descending(xs)
    ensures Distinct(xs)
  {
  }

  /** Popping the seed opens the path [seed]. */
  lemma SeedMid(F: map<char, char>, U: set<char>, t0: Trace)
    requires LeftOK(U, t0) && t0.next.Keys == t0.dict && t0.prev.Keys == t0.dict
    requires |t0.left| > 0
    ensures Mid(F, t0, [t0.left[|t0.left| - 1]], Seed(t0, t0.left[|t0.left| - 1]))
  {
    var n := |t0.left|;
    var s := t0.left[n - 1];
    var t := Seed(t0, s);
    var P := [s];
    forall x
      ensures x in t.left <==> x in t0.left && x !in P
    {
      if x in t0.left && x != s {
        var k :| 0 <= k < n && t0.left[k] == x;
        assert t.left[k] == x;
      }
      if x in t.left {
        var k :| 0 <= k < n - 1 && t.left[k] == x;
        assert t0.left[k] == x && t0.left[k] > t0.left[n - 1];
      }
    }
    assert s !in t0.dict;
  }

  /** A result that is still to be mapped extends the path by one node. */
  lemma AdvanceMid(F: map<char, char>, t0: Trace, P: seq<char>, t: Trace, res: char)
    requires Mid(F, t0, P, t)
    requires P[|P| - 1] in F && F[P[|P| - 1]] == res && res in t.left
    ensures Mid(F, t0, P + [res], Advance(t, P[|P| - 1], res).(left := Remove(t.left, res)))
  {
    var cur := P[|P| - 1];
    var P1 := P + [res];
    var t1 := Advance(t, cur, res).(left := Remove(t.left, res));
    assert res !in P && res in t0.left;
    assert res !in t0.dict && cur !in t0.dict;
    assert MidPath(F, t0, P1) by {
      AppendDistinct(P, res);
      AppendStep(F, P, res);
    }
    assert MidLeft(t0, P1, t1) by {
      RemoveDescending(t.left, res);
    }
    assert MidDict(t0, P1, t1) by {
      assert res != P[0];
    }
    AdvanceLinks(t0, P, t, res);
  }

  lemma AdvanceLinks(t0: Trace, P: seq<char>, t: Trace, res: char)
    requires |P| > 0 && MidLinks(t0, P, t) && Distinct(P)
    requires res !in P && res !in t0.dict && P[|P| - 1] !in t0.dict
    ensures MidLinks(t0, P + [res], Advance(t, P[|P| - 1], res))
  {
    var cur := P[|P| - 1];
    var P1 := P + [res];
    var t1 := Advance(t, cur, res);
    forall i | 0 <= i < |P1| - 1
      ensures P1[i] in t1.next && t1.next[P1[i]] == P1[i + 1]
    {
      if i < |P| - 1 {
        assert P[i] != cur;
      }
    }
    assert forall x :: x in P1 <==> x in P || x == res;
  }

  /** The seed is the smallest symbol of `t0.left`. */
  lemma SeedSmallest(t0: Trace, x: char)
    requires |t0.left| > 0 && Descending(t0.left) && x in t0.left
    ensures t0.left[|t0.left| - 1] <= x
  {
  }

  /** Rounding out the cycle keeps the symbols left in order and accounted for. */
  lemma CloseLeft(F: map<char, char>, U: set<char>, t0: Trace, P: seq<char>, t: Trace)
    requires LeftOK(U, t0) && Mid(F, t0, P, t)
    ensures LeftOK(U, Close(t, P[|P| - 1], P[0]))
    ensures |t.left| < |t0.left|
  {
    var t1 := Close(t, P[|P| - 1], P[0]);
    assert forall x :: x in t1.dict <==> x in t0.dict || x in P;
    forall x | x in U
      ensures x in t1.dict || x in t1.left
    {
      if x in t0.left && x !in t1.left {
        assert x in P;
      }
    }
    forall i | 0 <= i < |t1.left|
      ensures t1.left[i] in U && t1.left[i] !in t1.dict
    {
      assert t1.left[i] in t.left;
    }
  }

  /** Rounding out the cycle links its last node back to the seed, so every
      entry follows the composite again. */
  lemma CloseLinks(F: map<char, char>, U: set<char>, t0: Trace, P: seq<char>, t: Trace)
    requires LinksOK(F, t0) && MidPath(F, t0, P) && MidDict(t0, P, t) && MidLinks(t0, P, t)
    requires P[|P| - 1] in F && F[P[|P| - 1]] == P[0]
    ensures LinksOK(F, Close(t, P[|P| - 1], P[0]))
  {
    CloseKeys(F, t0, P, t);
    CloseNext(F, t0, P, t);
    ClosePrev(F, t0, P, t);
  }

  lemma CloseKeys(F: map<char, char>, t0: Trace, P: seq<char>, t: Trace)
    requires LinksOK(F, t0) && MidPath(F, t0, P) && MidDict(t0, P, t) && MidLinks(t0, P, t)
    requires P[|P| - 1] in F && F[P[|P| - 1]] == P[0]
    ensures var t1 := Close(t, P[|P| - 1], P[0]);
      t1.next.Keys == t1.dict && t1.prev.Keys == t1.dict
  {
  }

  lemma CloseNext(F: map<char, char>, t0: Trace, P: seq<char>, t: Trace)
    requires LinksOK(F, t0) && MidPath(F, t0, P) && MidDict(t0, P, t) && MidLinks(t0, P, t)
    requires P[|P| - 1] in F && F[P[|P| - 1]] == P[0]
    ensures var t1 := Close(t, P[|P| - 1], P[0]);
      && (forall x {:trigger t1.next[x]} :: x in t1.dict ==> x in F && t1.next[x] == F[x])
      && (forall x {:trigger F[x] in t1.dict} :: x in t1.dict ==> F[x] in t1.dict)
  {
    var t1 := Close(t, P[|P| - 1], P[0]);
    forall x {:trigger t1.next[x]} | x in t1.dict
      ensures x in F && t1.next[x] == F[x]
    {
      NextAfterClose(F, t0, P, t, x);
    }
    forall x {:trigger F[x] in t1.dict} | x in t1.dict
      ensures F[x] in t1.dict
    {
      NextAfterClose(F, t0, P, t, x);
    }
  }

  lemma ClosePrev(F: map<char, char>, t0: Trace, P: seq<char>, t: Trace)
    requires LinksOK(F, t0) && MidPath(F, t0, P) && MidDict(t0, P, t) && MidLinks(t0, P, t)
    requires P[|P| - 1] in F && F[P[|P| - 1]] == P[0]
    ensures var t1 := Close(t, P[|P| - 1], P[0]);
      && (forall y {:trigger t1.prev[y] in t1.dict} :: y in t1.dict ==> t1.prev[y] in t1.dict)
      && (forall y {:trigger t1.prev[y]} :: y in t1.dict ==> t1.prev[y] in F && F[t1.prev[y]] == y)
  {
    var t1 := Close(t, P[|P| - 1], P[0]);
    forall y {:trigger t1.prev[y] in t1.dict} | y in t1.dict
      ensures t1.prev[y] in t1.dict
    {
      PrevAfterClose(F, t0, P, t, y);
    }
    forall y {:trigger t1.prev[y]} | y in t1.dict
      ensures t1.prev[y] in F && F[t1.prev[y]] == y
    {
      PrevAfterClose(F, t0, P, t, y);
    }
  }

  /** Rounding out the cycle adds its seed as the next head, and the seed is
      the only symbol of the cycle smallest on its orbit. */
  lemma CloseHeads(F: map<char, char>, U: set<char>, t0: Trace, P: seq<char>, t: Trace)
    requires LeftOK(U, t0) && HeadsOK(F, t0) && Mid(F, t0, P, t)
    requires P[|P| - 1] in F && F[P[|P| - 1]] == P[0]
    ensures HeadsOK(F, Close(t, P[|P| - 1], P[0]))
  {
    var t1 := Close(t, P[|P| - 1], P[0]);
    CloseOrbits(F, U, t0, P, t);
    CloseBelow(F, U, t0, P, t);
    assert P[0] in t0.left;
  }

  /** The seed is the only symbol of the closed cycle smallest on its orbit. */
  lemma CloseOrbits(F: map<char, char>, U: set<char>, t0: Trace, P: seq<char>, t: Trace)
    requires LeftOK(U, t0) && HeadsOK(F, t0) && Mid(F, t0, P, t)
    requires P[|P| - 1] in F && F[P[|P| - 1]] == P[0]
    ensures var t1 := Close(t, P[|P| - 1], P[0]);
      forall x {:trigger OrbitMin(F, x)} {:trigger x in t1.cycles} :: x in t1.dict ==> (x in t1.cycles <==> OrbitMin(F, x))
  {
    var cur, s := P[|P| - 1], P[0];
    var t1 := Close(t, cur, s);
    assert IsCycle(F, U, P);
    forall i | 0 <= i < |P|
      ensures s <= P[i]
    {
      SeedSmallest(t0, P[i]);
    }
    CycleMin(F, U, P);
    forall x | x in t1.dict
      ensures x in t1.cycles <==> OrbitMin(F, x)
    {
      if x !in t0.dict {
        var j :| 0 <= j < |P| && P[j] == x;
        assert x !in t0.cycles;
        if j > 0 {
          NotMinOnCycle(F, U, P, j);
        }
      }
    }
  }

  /** The heads, the seed included, stay below every symbol left. */
  lemma CloseBelow(F: map<char, char>, U: set<char>, t0: Trace, P: seq<char>, t: Trace)
    requires LeftOK(U, t0) && HeadsOK(F, t0) && Mid(F, t0, P, t)
    ensures var t1 := Close(t, P[|P| - 1], P[0]);
      forall i, j :: 0 <= i < |t1.cycles| && 0 <= j < |t1.left| ==> t1.cycles[i] < t1.left[j]
  {
    var t1 := Close(t, P[|P| - 1], P[0]);
    forall i, j | 0 <= i < |t1.cycles| && 0 <= j < |t1.left|
      ensures t1.cycles[i] < t1.left[j]
    {
      assert t1.left[j] in t.left;
      SeedSmallest(t0, t1.left[j]);
    }
  }

  lemma PrevAfterClose(F: map<char, char>, t0: Trace, P: seq<char>, t: Trace, y: char)
    requires LinksOK(F, t0) && MidPath(F, t0, P) && MidDict(t0, P, t) && MidLinks(t0, P, t)
    requires P[|P| - 1] in F && F[P[|P| - 1]] == P[0]
    requires y in Close(t, P[|P| - 1], P[0]).dict
    ensures Close(t, P[|P| - 1], P[0]).prev[y] in Close(t, P[|P| - 1], P[0]).dict
    ensures Close(t, P[|P| - 1], P[0]).prev[y] in F
    ensures F[Close(t, P[|P| - 1], P[0]).prev[y]] == y
  {
    var cur, s := P[|P| - 1], P[0];
    var t1 := Close(t, cur, s);
    assert s !in t0.dict;
    if y in t0.dict {
      assert y != s && t1.prev[y] == t0.prev[y];
    } else if y == s {
      assert t1.prev[y] == cur && cur in P;
    } else {
      var i :| 0 <= i < |P| && P[i] == y;
      assert 0 < i && t1.prev[y] == P[i - 1] && P[i - 1] in P;
    }
  }

  lemma NextAfterClose(F: map<char, char>, t0: Trace, P: seq<char>, t: Trace, x: char)
    requires LinksOK(F, t0) && MidPath(F, t0, P) && MidDict(t0, P, t) && MidLinks(t0, P, t)
    requires P[|P| - 1] in F && F[P[|P| - 1]] == P[0]
    requires x in Close(t, P[|P| - 1], P[0]).dict
    ensures x in F && Close(t, P[|P| - 1], P[0]).next[x] == F[x]
    ensures F[x] in Close(t, P[|P| - 1], P[0]).dict
  {
    var cur, s := P[|P| - 1], P[0];
    var t1 := Close(t, cur, s);
    assert cur !in t0.dict;
    if x in t0.dict {
      assert x in F && t0.next[x] == F[x] && F[x] in t0.dict;
      assert x != cur;
    } else {
      var i :| 0 <= i < |P| && P[i] == x;
      if i < |P| - 1 {
        assert P[i] != cur && t.next[P[i]] == P[i + 1] && P[i + 1] in P;
      }
    }
  }

  /** The composite of the current symbol is never a symbol already mapped nor
      one already on the path, other than the seed: `list.remove` cannot fail
      on valid permutations. */
  lemma ResultLeft(F: map<char, char>, U: set<char>, t0: Trace, P: seq<char>, t: Trace)
    requires LeftOK(U, t0) && LinksOK(F, t0) && Mid(F, t0, P, t)
    requires forall x, y :: x in F && y in F && F[x] == F[y] ==> x == y
    requires P[|P| - 1] in F && F[P[|P| - 1]] in U && F[P[|P| - 1]] != P[0]
    ensures F[P[|P| - 1]] in t.left
  {
    var cur := P[|P| - 1];
    var res := F[cur];
    assert cur in t0.left;
    if res in t0.dict {
      assert false;
    }
    ImageOffPath(F, P);
  }

  /** On an injective map, the image of a path's last symbol is none of the
      path's symbols after the first. */
  lemma ImageOffPath(F: map<char, char>, P: seq<char>)
    requires |P| > 0 && Distinct(P) && P[|P| - 1] in F
    requires forall i :: 0 <= i < |P| - 1 ==> P[i] in F && F[P[i]] == P[i + 1]
    requires forall x, y :: x in F && y in F && F[x] == F[y] ==> x == y
    ensures forall k :: 0 < k < |P| ==> P[k] != F[P[|P| - 1]]
  {
    forall k | 0 < k < |P|
      ensures P[k] != F[P[|P| - 1]]
    {
      assert F[P[k - 1]] == P[k];
      assert P[k - 1] != P[|P| - 1];
    }
  }

  /** The inner loop, from the path `P`, ends either with KeyError or with the
      cycle rounded out and the outer invariant restored; with equal domains
      it always ends well. */
  lemma {:induction false} InnerGood(a: Perm, b: Perm, F: map<char, char>, U: set<char>,
                                     t0: Trace, P: seq<char>, t: Trace)
    requires Valid(a) && Valid(b) && IsComposite(a, b, F) && U == a.dict + b.dict
    requires Good(F, U, t0) && Mid(F, t0, P, t) && P[|P| - 1] in a.dict
    ensures var r := Inner(a, b, P[0], P[|P| - 1], t);
      && (r.Ok? ==> Good(F, U, r.value) && |r.value.left| < |t0.left|)
      && (r.Err? ==> r.error.KeyError?)
      && (a.dict == b.dict ==> r.Ok?)
    decreases |t.left|
  {
    var cur, s := P[|P| - 1], P[0];
    var na := a.next[cur];
    assert na in a.dict;
    if na in b.dict {
      var res := b.next[na];
      assert Defined(a, b, cur);
      assert cur in F && F[cur] == res && res in b.dict;
      if res in a.dict {
        if res == s {
          CloseLeft(F, U, t0, P, t);
          CloseLinks(F, U, t0, P, t);
          CloseHeads(F, U, t0, P, t);
        } else {
          ResultLeft(F, U, t0, P, t);
          AdvanceMid(F, t0, P, t, res);
          InnerGood(a, b, F, U, t0, P + [res], Advance(t, cur, res).(left := Remove(t.left, res)));
        }
      }
    }
  }

  /** The outer loop from an invariant state ends with every symbol mapped,
      or with KeyError, and with equal domains it ends well. */
  lemma {:induction false} OuterGood(a: Perm, b: Perm, F: map<char, char>, U: set<char>, t: Trace)
    requires Valid(a) && Valid(b) && IsComposite(a, b, F) && U == a.dict + b.dict
    requires Good(F, U, t)
    ensures var r := Outer(a, b, t);
      && (r.Ok? ==> Good(F, U, r.value) && r.value.left == [])
      && (r.Err? ==> r.error.KeyError?)
      && (a.dict == b.dict ==> r.Ok?)
    decreases |t.left|
  {
    if t.left != [] {
      var s := t.left[|t.left| - 1];
      assert s in U;
      if s in a.dict {
        SeedMid(F, U, t);
        InnerGood(a, b, F, U, t, [s], Seed(t, s));
        var r1 := Inner(a, b, s, s, Seed(t, s));
        if r1.Ok? {
          OuterGood(a, b, F, U, r1.value);
        }
      }
    }
  }

  /** Before the first cycle nothing is mapped and every symbol is left. */
  lemma StartGood(F: map<char, char>, U: set<char>)
    ensures Good(F, U, Trace(SortedDescending(U), [], {}, map[], map[]))
  {
    var t := Trace(SortedDescending(U), [], {}, map[], map[]);
    assert LeftOK(U, t);
  }

  /** Once every symbol is mapped, both permutations act on the same symbols
      and the links are exactly the composite. */
  lemma DoneDomains(a: Perm, b: Perm, F: map<char, char>, t: Trace)
    requires Valid(a) && Valid(b) && IsComposite(a, b, F)
    requires LeftOK(a.dict + b.dict, t) && LinksOK(F, t) && t.left == []
    ensures a.dict == b.dict && t.dict == a.dict
  {
    forall x | x in b.dict
      ensures x in a.dict
    {
      DefinedWhenDone(a, b, F, t, x);
    }
    forall y | y in a.dict
      ensures y in b.dict
    {
      DefinedWhenDone(a, b, F, t, a.prev[y]);
    }
    forall x | x in a.dict
      ensures x in t.dict
    {
      DefinedWhenDone(a, b, F, t, x);
    }
  }

  lemma DefinedWhenDone(a: Perm, b: Perm, F: map<char, char>, t: Trace, x: char)
    requires Valid(a) && Valid(b) && IsComposite(a, b, F)
    requires LeftOK(a.dict + b.dict, t) && LinksOK(F, t) && t.left == []
    requires x in a.dict || x in b.dict
    ensures x in t.dict && Defined(a, b, x)
  {
    assert t.next[x] == F[x];
  }

  /** Once the domains agree, every symbol of the composite has been mapped. */
  lemma DoneKeys(a: Perm, b: Perm, F: map<char, char>, t: Trace)
    requires Valid(a) && Valid(b) && IsComposite(a, b, F)
    requires a.dict == b.dict && t.dict == a.dict
    ensures forall x {:trigger x in F} :: x in F ==> x in t.dict
  {
    forall x {:trigger x in F} | x in F
      ensures x in t.dict
    {
      DoneKey(a, b, F, t, x);
    }
  }

  /** Links that agree with the composite on a domain covering it are it. */
  lemma DoneLinks(F: map<char, char>, t: Trace)
    requires LinksOK(F, t)
    requires forall x {:trigger x in F} :: x in F ==> x in t.dict
    ensures t.next == F
  {
    assert t.next.Keys == F.Keys;
  }

  lemma DoneValues(a: Perm, b: Perm, F: map<char, char>, t: Trace)
    requires Valid(a) && Valid(b) && IsComposite(a, b, F)
    requires LinksOK(F, t) && a.dict == b.dict && t.dict == a.dict
    ensures forall x {:trigger t.next[x]} :: x in a.dict ==> t.next[x] == b.next[a.next[x]]
  {
    forall x | x in a.dict
      ensures t.next[x] == b.next[a.next[x]]
    {
      DoneAt(a, b, F, t, x);
    }
  }

  lemma DoneKey(a: Perm, b: Perm, F: map<char, char>, t: Trace, x: char)
    requires Valid(a) && Valid(b) && IsComposite(a, b, F)
    requires a.dict == b.dict && t.dict == a.dict
    requires x in F
    ensures x in t.dict
  {
    assert Defined(a, b, x);
  }

  lemma DoneAt(a: Perm, b: Perm, F: map<char, char>, t: Trace, x: char)
    requires Valid(a) && Valid(b) && IsComposite(a, b, F)
    requires LinksOK(F, t) && a.dict == b.dict && t.dict == a.dict
    requires x in a.dict
    ensures x in F && t.next[x] == F[x] && t.next[x] == b.next[a.next[x]]
  {
    assert t.next[x] == F[x];
    assert Defined(a, b, x);
  }

  /** The links of the finished composite satisfy the permutation invariant. */
  lemma DoneValid(F: map<char, char>, t: Trace)
    requires LinksOK(F, t)
    requires forall i :: 0 <= i < |t.cycles| ==> t.cycles[i] in t.dict
    requires forall x, y :: x in F && y in F && F[x] == F[y] ==> x == y
    ensures Valid(Perm(t.cycles, t.dict, t.next, t.prev))
  {
    var p := Perm(t.cycles, t.dict, t.next, t.prev);
    forall x {:trigger p.next[x] in p.dict} | x in p.dict
      ensures p.next[x] in p.dict
    {
      PrevOfNext(F, t, x);
    }
    forall y {:trigger p.prev[y] in p.dict} | y in p.dict
      ensures p.prev[y] in p.dict
    {
      NextOfPrev(F, t, y);
    }
    forall x {:trigger p.prev[p.next[x]]} | x in p.dict
      ensures p.prev[p.next[x]] == x
    {
      PrevOfNext(F, t, x);
    }
    forall y {:trigger p.next[p.prev[y]]} | y in p.dict
      ensures p.next[p.prev[y]] == y
    {
      NextOfPrev(F, t, y);
    }
  }

  lemma PrevOfNext(F: map<char, char>, t: Trace, x: char)
    requires LinksOK(F, t)
    requires forall x, y :: x in F && y in F && F[x] == F[y] ==> x == y
    requires x in t.dict
    ensures t.next[x] in t.dict && t.prev[t.next[x]] == x
  {
    assert F[x] in t.dict;
    assert t.prev[F[x]] in t.dict;
    assert F[t.prev[F[x]]] == F[x];
  }

  lemma NextOfPrev(F: map<char, char>, t: Trace, y: char)
    requires LinksOK(F, t)
    requires y in t.dict
    ensures t.prev[y] in t.dict && t.next[t.prev[y]] == y
  {
    assert t.prev[y] in t.dict;
    assert t.next[t.prev[y]] == F[t.prev[y]];
  }

  /** `Permutation.compose(b, a)` on valid permutations: it fails, and then
      with KeyError, exactly when a and b act on different symbols; otherwise
      the result is a valid permutation of the same symbols sending x to
      b(a(x)), whose cycle list is ascending and holds exactly the symbols
      smallest on their cycle. */
  lemma ComposeCorrect(b: Perm, a: Perm)
    requires Valid(a) && Valid(b)
    ensures (ValidIsWellFormed(a); ValidIsWellFormed(b);
      var r := ComposeSpec(b, a);
      && (r.Ok? <==> a.dict == b.dict)
      && (r.Err? ==> r.error.KeyError?)
      && (r.Ok? ==>
            && Valid(r.value)
            && r.value.dict == a.dict
            && (forall x {:trigger r.value.next[x]} :: x in a.dict ==> r.value.next[x] == b.next[a.next[x]])
            && Ascending(r.value.cycles)
            && (forall x :: x in r.value.dict ==> (x in r.value.cycles <==> OrbitMin(r.value.next, x)))))
  {
    ValidIsWellFormed(a);
    ValidIsWellFormed(b);
    var F := MakeComposite(a, b);
    OuterFinal(a, b, F);
    var r := Outer(a, b, Trace(SortedDescending(a.dict + b.dict), [], {}, map[], map[]));
    if r.Ok? {
      DoneFacts(a, b, F, r.value);
    }
  }

  /** The whole outer loop, from the sorted symbols: it fails only with
      KeyError, never when the domains agree, and otherwise leaves every
      symbol linked as the composite maps it. */
  lemma OuterFinal(a: Perm, b: Perm, F: map<char, char>)
    requires Valid(a) && Valid(b) && IsComposite(a, b, F)
    ensures (ValidIsWellFormed(a); ValidIsWellFormed(b);
      var r := Outer(a, b, Trace(SortedDescending(a.dict + b.dict), [], {}, map[], map[]));
      && (r.Err? ==> r.error.KeyError?)
      && (a.dict == b.dict ==> r.Ok?)
      && (r.Ok? ==> a.dict == b.dict && r.value.dict == a.dict && LinksOK(F, r.value) && HeadsOK(F, r.value)))
  {
    ValidIsWellFormed(a);
    ValidIsWellFormed(b);
    var U := a.dict + b.dict;
    StartGood(F, U);
    var t0 := Trace(SortedDescending(U), [], {}, map[], map[]);
    OuterGood(a, b, F, U, t0);
    var r := Outer(a, b, t0);
    if r.Ok? {
      DoneDomains(a, b, F, r.value);
    }
  }

  /** The state the outer loop ends in, as a permutation. */
  lemma DoneFacts(a: Perm, b: Perm, F: map<char, char>, t: Trace)
    requires Valid(a) && Valid(b) && IsComposite(a, b, F)
    requires LinksOK(F, t) && HeadsOK(F, t) && a.dict == b.dict && t.dict == a.dict
    ensures Ascending(t.cycles)
    ensures Valid(Perm(t.cycles, t.dict, t.next, t.prev))
    ensures forall x {:trigger t.next[x]} :: x in a.dict ==> t.next[x] == b.next[a.next[x]]
    ensures forall x {:trigger OrbitMin(t.next, x)} {:trigger x in t.cycles} :: x in t.dict ==> (x in t.cycles <==> OrbitMin(t.next, x))
  {
    DoneValid(F, t);
    DoneValues(a, b, F, t);
    DoneKeys(a, b, F, t);
    DoneHeads(F, t);
  }

  /** The cycle heads of the finished links, read off the composite. */
  lemma DoneHeads(F: map<char, char>, t: Trace)
    requires LinksOK(F, t) && HeadsOK(F, t)
    requires forall x {:trigger x in F} :: x in F ==> x in t.dict
    ensures forall x {:trigger OrbitMin(t.next, x)} {:trigger x in t.cycles} :: x in t.dict ==> (x in t.cycles <==> OrbitMin(t.next, x))
  {
    DoneLinks(F, t);
  }
}
