/** `Permutation.inverse` and `Permutation.__str__` (with `ChainedSymbol.__repr__`)
    of permutation.py; the same two methods of MultiplyA6Permutations.py differ
    only in spelling. */
module PermutationOps {
  import opened Wrappers
  import opened Orbits
  import opened Permutations

  // ---------------------------------------------------------------------------
  // inverse

  /** The links after swapping `next` and `previous` on every node of the
      dictionary; a node outside the dictionary keeps its links. */
  function InverseSpec(p: Perm): Perm
    requires WellFormed(p)
  {
    Perm(p.cycles, p.dict,
         map x | x in p.next :: if x in p.dict then p.prev[x] else p.next[x],
         map x | x in p.prev :: if x in p.dict then p.next[x] else p.prev[x])
  }

  /** `inverse`: the deep copy is the value `p` itself (a `Perm` is a value, so
      the caller's permutation is never changed); the loop swaps the links of
      one dictionary entry at a time. */
  method Inverse(p: Perm) returns (q: Perm)
    requires WellFormed(p)
    ensures q == InverseSpec(p)
  {
    var next, prev := p.next, p.prev;
    var todo := p.dict;
    while todo != {}
      invariant todo <= p.dict
      invariant next.Keys == p.next.Keys && prev.Keys == p.prev.Keys
      invariant forall x :: x in next ==> next[x] == if x in p.dict && x !in todo then p.prev[x] else p.next[x]
      invariant forall x :: x in prev ==> prev[x] == if x in p.dict && x !in todo then p.next[x] else p.prev[x]
      decreases todo
    {
      var x :| x in todo;
      var previous := prev[x];
      prev := prev[x := next[x]];
      next := next[x := previous];
      todo := todo - {x};
    }
    q := Perm(p.cycles, p.dict, next, prev);
  }

  /** Swapping twice restores the original links. */
  lemma InverseInvolution(p: Perm)
    requires WellFormed(p)
    ensures WellFormed(InverseSpec(p))
    ensures InverseSpec(InverseSpec(p)) == p
  {
    var q := InverseSpec(p);
    var r := InverseSpec(q);
    assert r.next == p.next;
    assert r.prev == p.prev;
  }

  /** The inverse of a permutation of the domain is a permutation of the same
      domain whose `next` is the original `prev`: it maps every image back to
      its source. */
  lemma InverseValid(p: Perm)
    requires Valid(p)
    ensures Valid(InverseSpec(p))
    ensures InverseSpec(p).next == p.prev && InverseSpec(p).prev == p.next
    ensures forall x :: x in p.dict ==> InverseSpec(p).next[p.next[x]] == x
  {
    var q := InverseSpec(p);
    assert q.next == p.prev;
    assert q.prev == p.next;
  }

  // ---------------------------------------------------------------------------
  // __str__

  /** `str` of the node of `x`: its cycle, from `x` following `next`. */
  ghost function CycleText(p: Perm, x: char): string
    requires Bijective(p.next, p.dict) && x in p.dict
  {
    "(" + Orbit(p.next, p.dict, x) + ")"
  }

  /** The cycle heads `filterer` keeps: those not linked to themselves. */
  function Shown(p: Perm, cs: seq<char>): (r: seq<char>)
    requires forall i :: 0 <= i < |cs| ==> cs[i] in p.next
    ensures forall i :: 0 <= i < |r| ==> r[i] in cs && p.next[r[i]] != r[i]
  {
    if cs == [] then []
    else (if p.next[cs[0]] != cs[0] then [cs[0]] else []) + Shown(p, cs[1..])
  }

  /** The `str` of each head in `hs`, joined. */
  ghost function Texts(p: Perm, hs: seq<char>): string
    requires Bijective(p.next, p.dict) && forall i :: 0 <= i < |hs| ==> hs[i] in p.dict
  {
    if hs == [] then "" else CycleText(p, hs[0]) + Texts(p, hs[1..])
  }

  /** `__str__`: "I" when every cycle is a 1-cycle. */
  ghost function RenderSpec(p: Perm): string
    requires Valid(p)
  {
    NextBijective(p);
    var hs := Shown(p, p.cycles);
    if hs == [] then "I" else Texts(p, hs)
  }

  /** `ChainedSymbol.__repr__`: the symbols met walking `next` from `x` until
      back at `x`, between parentheses. */
  method CycleRepr(p: Perm, x: char) returns (s: string)
    requires Bijective(p.next, p.dict) && x in p.dict
    ensures s == CycleText(p, x)
  {
    var path := Walk(p.next, p.dict, x);
    s := "(" + path + ")";
  }

  /** The loop of `__repr__`. It only ends on a bijection, which is what the
      source relies on. */
  method Walk(f: map<char, char>, D: set<char>, x: char) returns (path: seq<char>)
    requires Bijective(f, D) && x in D
    ensures path == Orbit(f, D, x)
  {
    ghost var cycle := Orbit(f, D, x);
    path := [x];
    var it := f[x];
    while it != x
      invariant 0 < |path| <= |cycle| && path == cycle[..|path|]
      invariant it == f[path[|path| - 1]]
      decreases |cycle| - |path|
    {
      OnCycle(f, D, cycle, |path|);
      path := path + [it];
      it := f[it];
    }
    OnCycle(f, D, cycle, |path|);
  }

  lemma {:induction false} ShownAppend(p: Perm, a: seq<char>, b: seq<char>)
    requires forall i :: 0 <= i < |a| ==> a[i] in p.next
    requires forall i :: 0 <= i < |b| ==> b[i] in p.next
    ensures Shown(p, a + b) == Shown(p, a) + Shown(p, b)
  {
    if a != [] {
      assert (a + b)[0] == a[0] && (a + b)[1..] == a[1..] + b;
      ShownAppend(p, a[1..], b);
    } else {
      assert a + b == b;
    }
  }

  lemma {:induction false} TextsAppend(p: Perm, a: seq<char>, b: seq<char>)
    requires Bijective(p.next, p.dict)
    requires forall i :: 0 <= i < |a| ==> a[i] in p.dict
    requires forall i :: 0 <= i < |b| ==> b[i] in p.dict
    ensures Texts(p, a + b) == Texts(p, a) + Texts(p, b)
  {
    if a != [] {
      assert (a + b)[0] == a[0] && (a + b)[1..] == a[1..] + b;
      TextsAppend(p, a[1..], b);
    } else {
      assert a + b == b;
    }
  }

  /** `Permutation.__str__`. */
  method Render(p: Perm) returns (s: string)
    requires Valid(p)
    ensures s == RenderSpec(p)
  {
    var filtered := Filter(p);
    NextBijective(p);
    var text := JoinCycles(p, filtered);
    s := if |filtered| == 0 then "I" else text;
  }

  /** `filter(filterer, self.cycle_list)`. */
  method Filter(p: Perm) returns (filtered: seq<char>)
    requires forall i :: 0 <= i < |p.cycles| ==> p.cycles[i] in p.next
    ensures filtered == Shown(p, p.cycles)
  {
    filtered := [];
    for i := 0 to |p.cycles|
      invariant filtered == Shown(p, p.cycles[..i])
    {
      var c := p.cycles[i];
      ShownAppend(p, p.cycles[..i], [c]);
      assert p.cycles[..i + 1] == p.cycles[..i] + [c];
      if p.next[c] != c {
        filtered := filtered + [c];
      }
    }
    assert p.cycles[..|p.cycles|] == p.cycles;
  }

  /** `''.join(map(mapper, filtered_list))`. */
  method JoinCycles(p: Perm, hs: seq<char>) returns (text: string)
    requires Bijective(p.next, p.dict) && forall i :: 0 <= i < |hs| ==> hs[i] in p.dict
    ensures text == Texts(p, hs)
  {
    text := "";
    for j := 0 to |hs|
      invariant text == Texts(p, hs[..j])
    {
      var t := CycleRepr(p, hs[j]);
      TextsAppend(p, hs[..j], [hs[j]]);
      assert hs[..j + 1] == hs[..j] + [hs[j]];
      text := text + t;
    }
    assert hs[..|hs|] == hs;
  }

  // ---------------------------------------------------------------------------
  // What `__str__` prints for a permutation built from cycle notation

  /** The groups of two or more symbols, in order. */
  function Long(gs: seq<seq<char>>): (r: seq<seq<char>>)
    ensures forall k :: 0 <= k < |r| ==> r[k] in gs && |r[k]| >= 2
  {
    if gs == [] then []
    else (if |gs[0]| >= 2 then [gs[0]] else []) + Long(gs[1..])
  }

  lemma {:induction false} LongWellShaped(gs: seq<seq<char>>)
    requires WellShaped(gs)
    ensures WellShaped(Long(gs))
  {
    forall k | 0 <= k < |Long(gs)|
      ensures |Long(gs)[k]| > 0 && '(' !in Long(gs)[k] && ')' !in Long(gs)[k]
    {
      var i :| 0 <= i < |gs| && gs[i] == Long(gs)[k];
    }
  }

  /** A group's ring, walked from its first symbol, is the group. */
  lemma RingOrbit(p: Perm, g: seq<char>)
    requires Bijective(p.next, p.dict) && |g| > 0 && Linked(p.next, p.prev, g) && Distinct(g)
    requires forall i :: 0 <= i < |g| ==> g[i] in p.dict
    ensures g[0] in p.dict && Orbit(p.next, p.dict, g[0]) == g
  {
    RingIsCycle(p.next, p.prev, p.dict, g);
    OrbitOfCycle(p.next, p.dict, g);
  }

  lemma RingIsCycle(next: map<char, char>, prev: map<char, char>, D: set<char>, g: seq<char>)
    requires |g| > 0 && Linked(next, prev, g) && Distinct(g)
    requires forall i :: 0 <= i < |g| ==> g[i] in D
    ensures IsCycle(next, D, g)
  {
  }

  lemma {:induction false} DistinctGroups(gs: seq<seq<char>>, k: nat)
    requires Distinct(Flatten(gs)) && k < |gs|
    ensures Distinct(gs[k])
  {
    DistinctParts(gs[0], Flatten(gs[1..]));
    if k > 0 {
      DistinctGroups(gs[1..], k - 1);
    }
  }

  /** The rings of the groups of the notation, as `__str__` sees them. */
  ghost predicate Rings(p: Perm, gs: seq<seq<char>>)
  {
    && (forall k :: 0 <= k < |gs| ==> |gs[k]| > 0 && Linked(p.next, p.prev, gs[k]) && Distinct(gs[k]))
    && (forall x :: x in Flatten(gs) ==> x in p.dict)
  }

  lemma {:induction false} RingsTail(p: Perm, gs: seq<seq<char>>)
    requires |gs| > 0 && Rings(p, gs)
    ensures Rings(p, gs[1..])
    ensures forall i :: 0 <= i < |gs[0]| ==> gs[0][i] in p.dict
  {
    assert Flatten(gs) == gs[0] + Flatten(gs[1..]);
    assert Rings(p, gs[1..]) by {
      forall k | 0 <= k < |gs[1..]|
        ensures |gs[1..][k]| > 0 && Linked(p.next, p.prev, gs[1..][k]) && Distinct(gs[1..][k])
      {
        assert gs[1..][k] == gs[k + 1];
      }
    }
  }

  /** The heads `filterer` keeps are those of the groups of two or more symbols. */
  lemma {:induction false} ShownHeads(p: Perm, gs: seq<seq<char>>)
    requires WellShaped(gs) && Rings(p, gs)
    ensures forall i :: 0 <= i < |Heads(gs)| ==> Heads(gs)[i] in p.next
    ensures WellShaped(Long(gs))
    ensures Shown(p, Heads(gs)) == Heads(Long(gs))
  {
    HeadsInFlatten(gs);
    LongWellShaped(gs);
    if gs != [] {
      var g := gs[0];
      RingsTail(p, gs);
      assert WellShaped(gs[1..]);
      ShownHeads(p, gs[1..]);
      assert Heads(gs) == [g[0]] + Heads(gs[1..]);
      if |g| >= 2 {
        assert p.next[g[0]] == g[1];
        assert g[1] != g[0];
        assert Long(gs) == [g] + Long(gs[1..]);
        assert Heads(Long(gs)) == [g[0]] + Heads(Long(gs[1..]));
      } else {
        assert p.next[g[0]] == g[0];
        assert Long(gs) == Long(gs[1..]);
      }
    }
  }

  /** Joining the rings of the groups gives back their notation. */
  lemma {:induction false} TextsHeads(p: Perm, gs: seq<seq<char>>)
    requires WellShaped(gs) && Rings(p, gs) && Bijective(p.next, p.dict)
    ensures forall i :: 0 <= i < |Heads(gs)| ==> Heads(gs)[i] in p.dict
    ensures Texts(p, Heads(gs)) == Notation(gs)
  {
    HeadsInFlatten(gs);
    if gs != [] {
      var g := gs[0];
      RingsTail(p, gs);
      assert WellShaped(gs[1..]);
      TextsHeads(p, gs[1..]);
      RingOrbit(p, g);
      assert CycleText(p, g[0]) == "(" + g + ")";
      assert Heads(gs) == [g[0]] + Heads(gs[1..]);
      assert Heads(gs)[1..] == Heads(gs[1..]);
    }
  }

  lemma {:induction false} RingsLong(p: Perm, gs: seq<seq<char>>)
    requires Rings(p, gs)
    ensures Rings(p, Long(gs))
  {
    forall x | x in Flatten(Long(gs))
      ensures x in p.dict
    {
      var k, i := FlattenIndex(Long(gs), x);
      var j :| 0 <= j < |gs| && gs[j] == Long(gs)[k];
      FlattenHas(gs, j, i);
    }
  }

  lemma {:induction false} ShownFixed(p: Perm, cs: seq<char>)
    requires forall i :: 0 <= i < |cs| ==> cs[i] in p.next && p.next[cs[i]] == cs[i]
    ensures Shown(p, cs) == []
  {
    if cs != [] {
      ShownFixed(p, cs[1..]);
    }
  }

  /** Rendering what the constructor built from well-formed notation gives the
      notation back, without its 1-cycles, and "I" when only 1-cycles remain. */
  lemma RenderParsed(gs: seq<seq<char>>, symbols: seq<char>)
    requires Distinct(symbols) && WellShaped(gs) && Fits(symbols, [], Flatten(gs))
    ensures ParseSpec(Notation(gs), symbols).Ok?
    ensures Valid(ParseSpec(Notation(gs), symbols).value)
    ensures RenderSpec(ParseSpec(Notation(gs), symbols).value)
         == if Long(gs) == [] then "I" else Notation(Long(gs))
  {
    ParseGroups(gs, symbols);
    var p := ParseSpec(Notation(gs), symbols).value;
    assert [] + Flatten(gs) == Flatten(gs);
    assert Rings(p, gs) by {
      forall k | 0 <= k < |gs|
        ensures Distinct(gs[k])
      {
        DistinctGroups(gs, k);
      }
    }
    ShownHeads(p, gs);
    var left := Without(symbols, Flatten(gs));
    WithoutMembers(symbols, Flatten(gs));
    ShownFixed(p, left);
    ShownAppend(p, Heads(gs), left);
    assert Shown(p, p.cycles) == Heads(Long(gs));
    RingsLong(p, gs);
    NextBijective(p);
    TextsHeads(p, Long(gs));
  }

  /** The identity renders as "I". */
  lemma RenderIdentity(symbols: seq<char>)
    requires Distinct(symbols)
    ensures ParseSpec("I", symbols).Ok?
    ensures Valid(ParseSpec("I", symbols).value)
    ensures RenderSpec(ParseSpec("I", symbols).value) == "I"
  {
    ParseIdentity(symbols);
    var p := ParseSpec("I", symbols).value;
    ShownFixed(p, p.cycles);
  }
}
