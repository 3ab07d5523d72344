/** `Permutation.compose(b, a)` of permutation.py (with `sort_output` left at its
    default, True): the product b∘a, built one cycle at a time by tracing the
    orbits of b∘a from seeds taken in ascending symbol order. */
module PermutationCompose {
  import opened Wrappers
  import opened Orbits
  import opened Permutations

  /** The local state of `compose`: `symbols_left_to_map`, and the `cycle_list`,
      `symbol_dict` and node links of the result under construction. */
  datatype Trace = Trace(left: seq<char>, cycles: seq<char>, dict: set<char>,
                         next: map<char, char>, prev: map<char, char>)

  /** `sorted(list(symbols_union), reverse=True)`: the symbols, largest first. */
  ghost function SortedDescending(s: set<char>): (r: seq<char>)
    ensures Descending(r) && forall x :: x in r <==> x in s
  {
    DescendingExists(s);
    var r :| Descending(r) && forall x :: x in r <==> x in s; r
  }

  lemma {:induction false} DescendingExists(s: set<char>)
    ensures exists r :: Descending(r) && forall x :: x in r <==> x in s
    decreases |s|
  {
    if s == {} {
      assert Descending([]) && forall x :: x in [] <==> x in s;
    } else {
      var m := MaxOf(s);
      DescendingExists(s - {m});
      var r :| Descending(r) && forall x :: x in r <==> x in s - {m};
      var q := [m] + r;
      forall i, j | 0 <= i < j < |q|
        ensures q[i] > q[j]
      {
        assert q[j] == r[j - 1] && q[j] in s - {m};
        if 0 < i {
          assert q[i] == r[i - 1];
        }
      }
      forall x
        ensures x in q <==> x in s
      {
        if x in s && x != m {
          assert x in r;
        }
      }
      assert Descending(q);
    }
  }

  /** The largest symbol of a nonempty set. */
  lemma {:induction false} MaxOf(s: set<char>) returns (m: char)
    requires s != {}
    ensures m in s && forall x :: x in s ==> x <= m
    decreases |s|
  {
    var x :| x in s;
    if s == {x} {
      m := x;
    } else {
      var m1 := MaxOf(s - {x});
      m := if x > m1 then x else m1;
      forall y | y in s
        ensures y <= m
      {
        if y != x {
          assert y in s - {x};
        }
      }
    }
  }

  /** A new self-linked node for the seed opens the next cycle. */
  function Seed(t: Trace, seed: char): Trace
    requires |t.left| > 0
  {
    t.(left := t.left[..|t.left| - 1], cycles := t.cycles + [seed],
       next := t.next[seed := seed], prev := t.prev[seed := seed])
  }

  /** A new node for `r`, registered in the dictionary and linked after `cur`. */
  function Advance(t: Trace, cur: char, r: char): Trace
  {
    t.(dict := t.dict + {r}, next := t.next[r := r][cur := r], prev := t.prev[r := r][r := cur])
  }

  /** Rounding out: the last node links back to the seed's node, which is
      (again) the dictionary entry of the seed. */
  function Close(t: Trace, cur: char, seed: char): Trace
  {
    t.(dict := t.dict + {seed}, next := t.next[cur := seed], prev := t.prev[seed := cur])
  }

  /** The inner `while True` loop, from the node of `cur` in a: a lookup of a
      symbol missing from `b_dict` or `a_dict` raises KeyError, and a result
      already mapped raises ValueError in `list.remove`. */
  function Inner(a: Perm, b: Perm, seed: char, cur: char, t: Trace): (r: Result<Trace>)
    requires WellFormed(a) && WellFormed(b) && cur in a.dict
    ensures r.Ok? ==> |r.value.left| <= |t.left|
    decreases |t.left|
  {
    var na := a.next[cur];
    if na !in b.dict then Err(KeyError([na]))
    else
      var res := b.next[na];
      if res !in a.dict then Err(KeyError([res]))
      else if res == seed then Ok(Close(t, cur, seed))
      else if res !in t.left then Err(ValueError(RemoveMessage))
      else Inner(a, b, seed, res, Advance(t, cur, res).(left := Remove(t.left, res)))
  }

  /** The outer loop: pop the smallest symbol left and trace its cycle. */
  function Outer(a: Perm, b: Perm, t: Trace): Result<Trace>
    requires WellFormed(a) && WellFormed(b)
    decreases |t.left|
  {
    if t.left == [] then Ok(t)
    else
      var seed := t.left[|t.left| - 1];
      if seed !in a.dict then Err(KeyError([seed]))
      else
        var t1 :- Inner(a, b, seed, seed, Seed(t, seed));
        Outer(a, b, t1)
  }

  ghost function ComposeSpec(b: Perm, a: Perm): Result<Perm>
    requires WellFormed(a) && WellFormed(b)
  {
    var t :- Outer(a, b, Trace(SortedDescending(a.dict + b.dict), [], {}, map[], map[]));
    Ok(Perm(t.cycles, t.dict, t.next, t.prev))
  }

  /** Inner followed by the rest of the outer loop. */
  function Continue(a: Perm, b: Perm, seed: char, cur: char, t: Trace): Result<Trace>
    requires WellFormed(a) && WellFormed(b) && cur in a.dict
  {
    var t1 :- Inner(a, b, seed, cur, t);
    Outer(a, b, t1)
  }

  /** `sorted(..., reverse=True)` on the union of the two key sets. */
  method SortDescending(s: set<char>) returns (r: seq<char>)
    ensures r == SortedDescending(s)
  {
    r := [];
    var rest := s;
    while rest != {}
      invariant Descending(r)
      invariant forall x :: x in s <==> x in r || x in rest
      invariant forall x :: x in r ==> x !in rest
      invariant forall i, y :: 0 <= i < |r| && y in rest ==> r[i] > y
      decreases rest
    {
      ghost var top := MaxOf(rest);
      var m :| m in rest && forall y :: y in rest ==> y <= m;
      forall i, j | 0 <= i < j < |r + [m]|
        ensures (r + [m])[i] > (r + [m])[j]
      {
        if j < |r| {
          assert (r + [m])[j] == r[j];
        }
      }
      r := r + [m];
      rest := rest - {m};
    }
    DescendingUnique(r, SortedDescending(s));
  }

  /** Two descending sequences with the same symbols are equal. */
  lemma DescendingUnique(s: seq<char>, t: seq<char>)
    requires Descending(s) && Descending(t)
    requires forall x :: x in s <==> x in t
    ensures s == t
  {
    var rs, rt := Reversed(s), Reversed(t);
    forall i, j | 0 <= i < j < |rs|
      ensures rs[i] < rs[j]
    {
      assert rs[i] == s[|s| - 1 - i] && rs[j] == s[|s| - 1 - j];
    }
    forall i, j | 0 <= i < j < |rt|
      ensures rt[i] < rt[j]
    {
      assert rt[i] == t[|t| - 1 - i] && rt[j] == t[|t| - 1 - j];
    }
    forall x
      ensures x in rs <==> x in rt
    {
      if x in rs {
        var i :| 0 <= i < |rs| && rs[i] == x;
        assert s[|s| - 1 - i] == x;
      }
      if x in s {
        var i :| 0 <= i < |s| && s[i] == x;
        assert rs[|s| - 1 - i] == x;
      }
      if x in rt {
        var i :| 0 <= i < |rt| && rt[i] == x;
        assert t[|t| - 1 - i] == x;
      }
      if x in t {
        var i :| 0 <= i < |t| && t[i] == x;
        assert rt[|t| - 1 - i] == x;
      }
    }
    AscendingUnique(rs, rt);
    forall i | 0 <= i < |s|
      ensures s[i] == t[i]
    {
      assert rs[|s| - 1 - i] == s[i];
    }
  }

  /** `Permutation.compose(b, a)`. */
  method Compose(b: Perm, a: Perm) returns (r: Result<Perm>)
    requires WellFormed(a) && WellFormed(b)
    ensures r == ComposeSpec(b, a)
  {
    var symbols := SortDescending(a.dict + b.dict);
    var left := symbols;
    var cycles: seq<char> := [];
    var dict: set<char> := {};
    var next: map<char, char> := map[];
    var prev: map<char, char> := map[];
    ghost var start := Trace(symbols, [], {}, map[], map[]);
    while left != []
      invariant Outer(a, b, start) == Outer(a, b, Trace(left, cycles, dict, next, prev))
      decreases |left|
    {
      ghost var t0 := Trace(left, cycles, dict, next, prev);
      var seed := left[|left| - 1];
      left := left[..|left| - 1];
      if seed !in a.dict {
        return Err(KeyError([seed]));
      }
      cycles := cycles + [seed];
      next := next[seed := seed];
      prev := prev[seed := seed];
      assert Trace(left, cycles, dict, next, prev) == Seed(t0, seed);
      var cur := seed;
      while true
        invariant cur in a.dict
        invariant Outer(a, b, start) == Continue(a, b, seed, cur, Trace(left, cycles, dict, next, prev))
        decreases |left|
      {
        ghost var t := Trace(left, cycles, dict, next, prev);
        var na := a.next[cur];
        if na !in b.dict {
          return Err(KeyError([na]));
        }
        var res := b.next[na];
        if res !in a.dict {
          return Err(KeyError([res]));
        }
        if res == seed {
          dict := dict + {seed};
          next := next[cur := seed];
          prev := prev[seed := cur];
          assert Trace(left, cycles, dict, next, prev) == Close(t, cur, seed);
          break;
        }
        if res !in left {
          return Err(ValueError(RemoveMessage));
        }
        dict := dict + {res};
        next := next[res := res][cur := res];
        prev := prev[res := res][res := cur];
        left := Remove(left, res);
        cur := res;
      }
    }
    r := Ok(Perm(cycles, dict, next, prev));
  }
}
