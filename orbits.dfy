/** Orbits of a bijection on a finite set of symbols, shared by the permutation
    engine (rendering a cycle, tracing the orbits of a composition) and the
    isomorphism builder (walking the orbits of the action on lines). */
module Orbits {

  /** No symbol occurs twice. */
  ghost predicate Distinct(s: seq<char>)
  {
    forall i, j :: 0 <= i < j < |s| ==> s[i] != s[j]
  }

  /** Strictly ascending in code-point order (the order of Python's `sorted`
      on one-character strings). */
  ghost predicate Ascending(s: seq<char>)
  {
    forall i, j :: 0 <= i < j < |s| ==> s[i] < s[j]
  }

  ghost predicate Descending(s: seq<char>)
  {
    forall i, j :: 0 <= i < j < |s| ==> s[i] > s[j]
  }

  /** `f` maps `D` one-to-one onto itself. */
  ghost predicate Bijective(f: map<char, char>, D: set<char>)
  {
    && f.Keys == D
    && (forall x {:trigger f[x] in D} :: x in D ==> f[x] in D)
    && (forall x, y :: x in D && y in D && f[x] == f[y] ==> x == y)
  }

  /** `P` is a walk along `f` inside `D` that has not repeated a symbol yet. */
  ghost predicate IsPath(f: map<char, char>, D: set<char>, P: seq<char>)
  {
    && |P| > 0
    && (forall i :: 0 <= i < |P| ==> P[i] in D)
    && (forall i :: 0 <= i < |P| - 1 ==> P[i] in f && f[P[i]] == P[i + 1])
    && Distinct(P)
  }

  /** A path that `f` closes: the last symbol is mapped back to the first. */
  ghost predicate IsCycle(f: map<char, char>, D: set<char>, P: seq<char>)
  {
    IsPath(f, D, P) && P[|P| - 1] in f && f[P[|P| - 1]] == P[0]
  }

  /** `f` applied k times; a symbol outside the keys stays put. */
  function Iter(f: map<char, char>, x: char, k: nat): char
  {
    if k == 0 then x
    else
      var y := Iter(f, x, k - 1);
      if y in f then f[y] else y
  }

  /** `x` is the smallest symbol on its orbit. */
  ghost predicate OrbitMin(f: map<char, char>, x: char)
  {
    forall k: nat :: Iter(f, x, k) >= x
  }

  lemma {:induction false} DistinctCard(P: seq<char>)
    requires Distinct(P)
    ensures |set i | 0 <= i < |P| :: P[i]| == |P|
  {
    if |P| > 0 {
      var init := P[..|P| - 1];
      DistinctCard(init);
      var s := set i | 0 <= i < |P| :: P[i];
      var t := set i | 0 <= i < |init| :: init[i];
      assert s == t + {P[|P| - 1]};
      assert P[|P| - 1] !in t;
    }
  }

  /** Distinct symbols drawn from `D` are never more than `D` has. */
  lemma PathBound(P: seq<char>, D: set<char>)
    requires Distinct(P) && forall i :: 0 <= i < |P| ==> P[i] in D
    ensures |P| <= |D|
  {
    DistinctCard(P);
    var s := set i | 0 <= i < |P| :: P[i];
    assert s <= D;
    SubsetCard(s, D);
  }

  lemma SubsetCard(s: set<char>, D: set<char>)
    requires s <= D
    ensures |s| <= |D|
  {
    assert D == s + (D - s);
  }

  /** Injectivity: the step out of the last symbol of a path either closes the
      cycle at its first symbol or reaches a symbol not yet on the path. */
  lemma ReturnOrFresh(f: map<char, char>, D: set<char>, P: seq<char>)
    requires Bijective(f, D) && IsPath(f, D, P)
    ensures f[P[|P| - 1]] == P[0] || f[P[|P| - 1]] !in P
  {
    var x := f[P[|P| - 1]];
    forall j | 0 < j < |P|
      ensures P[j] != x
    {
      assert P[j] == f[P[j - 1]];
      assert P[j - 1] != P[|P| - 1];
    }
  }

  lemma AppendDistinct(P: seq<char>, x: char)
    requires Distinct(P) && x !in P
    ensures Distinct(P + [x])
  {
    var Q := P + [x];
    forall i, j | 0 <= i < j < |Q|
      ensures Q[i] != Q[j]
    {
      assert Q[i] == P[i];
      if j == |P| {
        assert P[i] in P;
      } else {
        assert Q[j] == P[j];
      }
    }
  }

  lemma AppendStep(f: map<char, char>, P: seq<char>, x: char)
    requires |P| > 0 && P[|P| - 1] in f && f[P[|P| - 1]] == x
    requires forall i :: 0 <= i < |P| - 1 ==> P[i] in f && f[P[i]] == P[i + 1]
    ensures forall i :: 0 <= i < |P + [x]| - 1 ==> (P + [x])[i] in f && f[(P + [x])[i]] == (P + [x])[i + 1]
  {
    var Q := P + [x];
    forall i | 0 <= i < |Q| - 1
      ensures Q[i] in f && f[Q[i]] == Q[i + 1]
    {
      assert Q[i] == P[i];
      if i < |P| - 1 {
        assert Q[i + 1] == P[i + 1];
      }
    }
  }

  /** A path extended by a fresh symbol of `D` is a path, so it was shorter than `D`. */
  lemma ExtendPath(f: map<char, char>, D: set<char>, P: seq<char>, x: char)
    requires IsPath(f, D, P) && P[|P| - 1] in f && f[P[|P| - 1]] == x
    requires x in D && x !in P
    ensures IsPath(f, D, P + [x])
    ensures |P| < |D|
  {
    var Q := P + [x];
    AppendDistinct(P, x);
    AppendStep(f, P, x);
    assert forall i :: 0 <= i < |Q| ==> Q[i] in D;
    PathBound(Q, D);
  }

  /** The cycle of `f` that continues path `P` until it closes. */
  ghost function CycleFrom(f: map<char, char>, D: set<char>, P: seq<char>): (r: seq<char>)
    requires Bijective(f, D) && IsPath(f, D, P)
    ensures IsCycle(f, D, r) && P <= r
    decreases |D| - |P|
  {
    var x := f[P[|P| - 1]];
    if x == P[0] then P
    else
      ReturnOrFresh(f, D, P);
      ExtendPath(f, D, P, x);
      CycleFrom(f, D, P + [x])
  }

  /** The cycle of `f` through `s`, starting at `s`. */
  ghost function Orbit(f: map<char, char>, D: set<char>, s: char): (r: seq<char>)
    requires Bijective(f, D) && s in D
    ensures IsCycle(f, D, r) && r[0] == s
  {
    assert IsPath(f, D, [s]);
    CycleFrom(f, D, [s])
  }

  /** The image of the k-th symbol of a cycle (counting from 1) is the next
      one, or the first after the last; only the last goes back to the first. */
  lemma OnCycle(f: map<char, char>, D: set<char>, P: seq<char>, k: nat)
    requires IsCycle(f, D, P) && 0 < k <= |P|
    ensures P[k - 1] in f
    ensures k < |P| ==> f[P[k - 1]] == P[k] && P[k] != P[0]
    ensures k == |P| ==> f[P[k - 1]] == P[0]
  {
  }

  /** Walking a cycle: k steps from its j-th symbol stay on it, and the walk
      from the j-th symbol is back at the start after |P| - j steps. */
  lemma {:induction false} IterOnCycle(f: map<char, char>, D: set<char>, P: seq<char>, j: nat, k: nat)
    requires IsCycle(f, D, P) && j < |P|
    ensures Iter(f, P[j], k) in P
    ensures j + k < |P| ==> Iter(f, P[j], k) == P[j + k]
    ensures j + k == |P| ==> Iter(f, P[j], k) == P[0]
  {
    if k > 0 {
      IterOnCycle(f, D, P, j, k - 1);
      var y := Iter(f, P[j], k - 1);
      var i :| 0 <= i < |P| && P[i] == y;
      assert y in f && (f[y] == P[0] || (i + 1 < |P| && f[y] == P[i + 1]));
    }
  }

  /** A cycle is determined by its first symbol. */
  lemma CycleUnique(f: map<char, char>, D: set<char>, P: seq<char>, Q: seq<char>)
    requires IsCycle(f, D, P) && IsCycle(f, D, Q) && P[0] == Q[0]
    ensures P == Q
  {
    forall k | 0 <= k < |P| && k < |Q|
      ensures P[k] == Q[k]
    {
      IterOnCycle(f, D, P, 0, k);
      IterOnCycle(f, D, Q, 0, k);
    }
    if |P| < |Q| {
      IterOnCycle(f, D, P, 0, |P|);
      IterOnCycle(f, D, Q, 0, |P|);
      assert false;
    }
    if |Q| < |P| {
      IterOnCycle(f, D, Q, 0, |Q|);
      IterOnCycle(f, D, P, 0, |Q|);
      assert false;
    }
  }

  /** The orbit through the first symbol of a cycle is that cycle. */
  lemma OrbitOfCycle(f: map<char, char>, D: set<char>, P: seq<char>)
    requires Bijective(f, D) && IsCycle(f, D, P)
    ensures Orbit(f, D, P[0]) == P
  {
    CycleUnique(f, D, Orbit(f, D, P[0]), P);
  }

  /** The first symbol of a cycle is its orbit minimum exactly when it is the
      smallest symbol on the cycle. */
  lemma CycleMin(f: map<char, char>, D: set<char>, P: seq<char>)
    requires IsCycle(f, D, P)
    ensures OrbitMin(f, P[0]) <==> forall i :: 0 <= i < |P| ==> P[0] <= P[i]
  {
    if forall i :: 0 <= i < |P| ==> P[0] <= P[i] {
      forall k: nat
        ensures Iter(f, P[0], k) >= P[0]
      {
        IterOnCycle(f, D, P, 0, k);
      }
    } else {
      var i :| 0 <= i < |P| && P[i] < P[0];
      IterOnCycle(f, D, P, 0, i);
    }
  }

  /** A later symbol of a cycle is never its orbit minimum when the first is smaller. */
  lemma NotMinOnCycle(f: map<char, char>, D: set<char>, P: seq<char>, j: nat)
    requires IsCycle(f, D, P) && 0 < j < |P| && P[0] < P[j]
    ensures !OrbitMin(f, P[j])
  {
    IterOnCycle(f, D, P, j, |P| - j);
  }

  /** Two ascending sequences with the same symbols are equal. */
  lemma {:induction false} AscendingUnique(s: seq<char>, t: seq<char>)
    requires Ascending(s) && Ascending(t)
    requires forall x :: x in s <==> x in t
    ensures s == t
  {
    assert |s| > 0 ==> s[0] in t;
    assert |t| > 0 ==> t[0] in s;
    if |s| > 0 && |t| > 0 {
      assert forall k :: 0 < k < |t| ==> t[0] < t[k];
      assert forall k :: 0 < k < |s| ==> s[0] < s[k];
      forall x
        ensures x in s[1..] <==> x in t[1..]
      {
        if x in s[1..] {
          var i :| 1 <= i < |s| && s[i] == x;
          assert s[0] < s[i];
          assert x in s;
          var j :| 0 <= j < |t| && t[j] == x;
          assert j != 0;
          assert t[1..][j - 1] == x;
        }
        if x in t[1..] {
          var i :| 1 <= i < |t| && t[i] == x;
          assert t[0] < t[i];
          assert x in t;
          var j :| 0 <= j < |s| && s[j] == x;
          assert j != 0;
          assert s[1..][j - 1] == x;
        }
      }
      AscendingUnique(s[1..], t[1..]);
    }
  }
}
