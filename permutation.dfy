/** The permutation engine of permutation.py (the same code is the permutation
    section of onefile.py and, but for the domain reversal, the constructor,
    `inverse` and `__str__` of MultiplyA6Permutations.py).

    A permutation is a list of cycle heads (`cycle_list`) and a dictionary from
    symbol to a doubly linked `ChainedSymbol` node. The model names every node by
    its symbol: the parser creates a node only together with removing its symbol
    from the list of symbols still to map, so a symbol never gets two nodes. The
    links of all nodes are then two maps, `next` and `prev`. */
module Permutations {
  import opened Wrappers
  import opened Orbits

  /** `cycles`: the symbol of each node of `cycle_list`, in order; `dict`: the
      keys of `symbol_dict`; `next`/`prev`: the links of the node of each symbol. */
  datatype Perm = Perm(cycles: seq<char>, dict: set<char>, next: map<char, char>, prev: map<char, char>)

  /** Every node has both links, and the dictionary and the cycle list hold
      only nodes. */
  ghost predicate WellFormed(p: Perm)
  {
    && p.next.Keys == p.prev.Keys
    && p.dict <= p.next.Keys
    && (forall i :: 0 <= i < |p.cycles| ==> p.cycles[i] in p.next)
  }

  /** A permutation of `dict`: `next` is a bijection and `prev` is its inverse. */
  ghost predicate Valid(p: Perm)
  {
    && p.next.Keys == p.dict
    && p.prev.Keys == p.dict
    && (forall i :: 0 <= i < |p.cycles| ==> p.cycles[i] in p.dict)
    && (forall x {:trigger p.next[x] in p.dict} :: x in p.dict ==> p.next[x] in p.dict)
    && (forall x {:trigger p.prev[x] in p.dict} :: x in p.dict ==> p.prev[x] in p.dict)
    && (forall x {:trigger p.prev[p.next[x]]} :: x in p.dict ==> p.prev[p.next[x]] == x)
    && (forall x {:trigger p.next[p.prev[x]]} :: x in p.dict ==> p.next[p.prev[x]] == x)
  }

  lemma ValidIsWellFormed(p: Perm)
    requires Valid(p)
    ensures WellFormed(p)
  {
  }

  lemma NextBijective(p: Perm)
    requires Valid(p)
    ensures Bijective(p.next, p.dict)
  {
    forall x, y | x in p.dict && y in p.dict && p.next[x] == p.next[y]
      ensures x == y
    {
      assert p.prev[p.next[x]] == x && p.prev[p.next[y]] == y;
    }
  }

  lemma PrevBijective(p: Perm)
    requires Valid(p)
    ensures Bijective(p.prev, p.dict)
  {
    forall x, y | x in p.dict && y in p.dict && p.prev[x] == p.prev[y]
      ensures x == y
    {
      assert p.next[p.prev[x]] == x && p.next[p.prev[y]] == y;
    }
  }

  // ---------------------------------------------------------------------------
  // `list.remove` and the symbols still to map

  /** `list.remove(x)`: drops the first occurrence of `x`. */
  function Remove<T(==)>(xs: seq<T>, x: T): (r: seq<T>)
    requires x in xs
    ensures |r| == |xs| - 1
  {
    if xs[0] == x then xs[1..] else [xs[0]] + Remove(xs[1..], x)
  }

  /** `list.remove(x)` leaves one copy of `x` fewer and every other entry as
      often as before. */
  lemma {:induction false} RemoveCounts<T>(xs: seq<T>, x: T)
    requires x in xs
    ensures multiset(Remove(xs, x)) == multiset(xs) - multiset{x}
    ensures forall y :: y != x ==> (y in Remove(xs, x) <==> y in xs)
    ensures forall y :: y in Remove(xs, x) ==> y in xs
  {
    assert xs == [xs[0]] + xs[1..];
    if xs[0] != x {
      RemoveCounts(xs[1..], x);
    }
  }

  /** The symbols of `xs` that are not in `ys`, in their order in `xs`. */
  function Without(xs: seq<char>, ys: seq<char>): seq<char>
  {
    if xs == [] then []
    else (if xs[0] in ys then [] else [xs[0]]) + Without(xs[1..], ys)
  }

  lemma {:induction false} WithoutMembers(xs: seq<char>, ys: seq<char>)
    ensures forall y :: y in Without(xs, ys) <==> y in xs && y !in ys
  {
    if xs != [] {
      WithoutMembers(xs[1..], ys);
      assert xs == [xs[0]] + xs[1..];
    }
  }

  /** Removing a symbol still to map extends the symbols already mapped. */
  lemma {:induction false} RemoveWithout(xs: seq<char>, ys: seq<char>, x: char)
    requires Distinct(xs) && x in xs && x !in ys
    ensures x in Without(xs, ys)
    ensures Remove(Without(xs, ys), x) == Without(xs, ys + [x])
  {
    WithoutMembers(xs, ys);
    if xs[0] == x {
      assert x !in xs[1..];
      WithoutMembers(xs[1..], ys);
      WithoutSame(xs[1..], ys, ys + [x]);
    } else {
      assert x in xs[1..];
      assert Distinct(xs[1..]);
      RemoveWithout(xs[1..], ys, x);
      var w := Without(xs[1..], ys);
      if xs[0] !in ys {
        assert Without(xs, ys) == [xs[0]] + w;
        assert ([xs[0]] + w)[0] == xs[0] && ([xs[0]] + w)[1..] == w;
        assert xs[0] !in ys + [x];
        assert Without(xs, ys + [x]) == [xs[0]] + Without(xs[1..], ys + [x]);
      } else {
        assert xs[0] in ys + [x];
        calc {
          Remove(Without(xs, ys), x);
          { assert Without(xs, ys) == w; }
          Remove(w, x);
          Without(xs[1..], ys + [x]);
          { assert Without(xs, ys + [x]) == Without(xs[1..], ys + [x]); }
          Without(xs, ys + [x]);
        }
      }
    }
  }

  lemma {:induction false} WithoutSame(xs: seq<char>, ys: seq<char>, zs: seq<char>)
    requires forall y :: y in xs ==> (y in ys <==> y in zs)
    ensures Without(xs, ys) == Without(xs, zs)
  {
    if xs != [] {
      assert xs[0] in xs;
      assert forall y :: y in xs[1..] ==> y in xs;
      WithoutSame(xs[1..], ys, zs);
    }
  }

  lemma {:induction false} WithoutDistinct(xs: seq<char>, ys: seq<char>)
    requires Distinct(xs)
    ensures Distinct(Without(xs, ys))
  {
    if xs != [] {
      WithoutDistinct(xs[1..], ys);
      WithoutMembers(xs[1..], ys);
      assert xs[0] !in xs[1..];
      var w := Without(xs[1..], ys);
      if xs[0] !in ys {
        assert xs[0] !in w;
        AppendFrontDistinct(xs[0], w);
      }
    }
  }

  lemma AppendFrontDistinct(x: char, w: seq<char>)
    requires Distinct(w) && x !in w
    ensures Distinct([x] + w)
  {
    var q := [x] + w;
    forall i, j | 0 <= i < j < |q|
      ensures q[i] != q[j]
    {
      assert q[j] == w[j - 1];
      if i > 0 {
        assert q[i] == w[i - 1];
      }
    }
  }

  // ---------------------------------------------------------------------------
  // The constructor

  /** The constructor's local state: the permutation built so far, the list of
      symbols still to map, and `last_added_symbol`. */
  datatype ParseState = ParseState(built: Perm, left: seq<char>, last: Option<char>)

  function Start(symbols: seq<char>): ParseState
  {
    ParseState(Perm([], {}, map[], map[]), symbols, None)
  }

  const RemoveMessage := "list.remove(x): x not in list"

  /** A new node for `n`, linked to itself, and `n` removed from the symbols to map. */
  function Create(st: ParseState, n: char): ParseState
    requires n in st.left
  {
    st.(built := st.built.(next := st.built.next[n := n], prev := st.built.prev[n := n]),
        left := Remove(st.left, n))
  }

  /** "(" followed by `n`: a new node for `n` opens a cycle. */
  function Open(st: ParseState, n: char): ParseState
    requires n in st.left
  {
    var st1 := Create(st, n);
    st1.(built := st1.built.(cycles := st1.built.cycles + [n]), last := Some(n))
  }

  /** `last_added_symbol.next = target`, `target.previous = last_added_symbol`,
      `symbol_dict[target.symbol] = target`, `last_added_symbol = target`. */
  function Link(st: ParseState, from: char, target: char): ParseState
  {
    st.(built := st.built.(next := st.built.next[from := target],
                           prev := st.built.prev[target := from],
                           dict := st.built.dict + {target}),
        last := Some(target))
  }

  /** One pass of the constructor's loop over the character `c`, with the
      following character `lookahead` (None past the end of the string). */
  function Step(c: char, lookahead: Option<char>, st: ParseState): Result<ParseState>
  {
    if c == ')' then Ok(st)
    else if lookahead.None? then Err(IndexError("string index out of range"))
    else
      var n := lookahead.value;
      if c == '(' then
        if n !in st.left then Err(ValueError(RemoveMessage))
        else Ok(Open(st, n))
      else if n == ')' && st.built.cycles == [] then Err(IndexError("list index out of range"))
      else if n != ')' && n !in st.left then Err(ValueError(RemoveMessage))
      else if st.last.None? then Err(AttributeError("'NoneType' object has no attribute 'next'"))
      else if n == ')' then Ok(Link(st, st.last.value, st.built.cycles[|st.built.cycles| - 1]))
      else Ok(Link(Create(st, n), st.last.value, n))
  }

  /** The constructor's loop over the rest `s` of the string. */
  function Process(s: string, st: ParseState): Result<ParseState>
    decreases |s|
  {
    if s == [] then Ok(st)
    else
      var st1 :- Step(s[0], if |s| > 1 then Some(s[1]) else None, st);
      Process(s[1..], st1)
  }

  /** The final loop: every symbol not mapped becomes a 1-cycle. */
  function AddFixed(p: Perm, rest: seq<char>): Perm
    decreases |rest|
  {
    if rest == [] then p
    else
      var x := rest[0];
      AddFixed(Perm(p.cycles + [x], p.dict + {x}, p.next[x := x], p.prev[x := x]), rest[1..])
  }

  /** `Permutation(string, symbols)`; "I" is another spelling of the identity "". */
  function ParseSpec(s: string, symbols: seq<char>): Result<Perm>
  {
    var text := if s == "I" then "" else s;
    var st :- Process(text, Start(symbols));
    Ok(AddFixed(st.built, st.left))
  }

  /** `Permutation.__init__`, over a list of distinct symbols: nodes are
      named by their symbols, so a list that repeats a symbol (for which the
      source makes a second, separate node) is outside the model. */
  method Parse(s: string, symbols: seq<char>) returns (r: Result<Perm>)
    requires Distinct(symbols)
    ensures r == ParseSpec(s, symbols)
  {
    var text := if s == "I" then "" else s;
    var cycles: seq<char> := [];
    var dict: set<char> := {};
    var next: map<char, char> := map[];
    var prev: map<char, char> := map[];
    var left := symbols;
    var last: Option<char> := None;
    var index := 0;
    while index < |text|
      invariant 0 <= index <= |text|
      invariant Process(text, Start(symbols))
             == Process(text[index..], ParseState(Perm(cycles, dict, next, prev), left, last))
    {
      ghost var st := ParseState(Perm(cycles, dict, next, prev), left, last);
      assert text[index..][0] == text[index] && text[index..][1..] == text[index + 1..];
      var c := text[index];
      if c != ')' {
        if index + 1 >= |text| {
          return Err(IndexError("string index out of range"));
        }
        assert text[index..][1] == text[index + 1];
        var n := text[index + 1];
        if c == '(' {
          if n !in left {
            return Err(ValueError(RemoveMessage));
          }
          next := next[n := n];
          prev := prev[n := n];
          left := Remove(left, n);
          cycles := cycles + [n];
          last := Some(n);
        } else {
          var target: char;
          if n == ')' {
            if cycles == [] {
              return Err(IndexError("list index out of range"));
            }
            target := cycles[|cycles| - 1];
          } else {
            if n !in left {
              return Err(ValueError(RemoveMessage));
            }
            target := n;
            next := next[n := n];
            prev := prev[n := n];
            left := Remove(left, n);
          }
          if last.None? {
            return Err(AttributeError("'NoneType' object has no attribute 'next'"));
          }
          next := next[last.value := target];
          prev := prev[target := last.value];
          dict := dict + {target};
          last := Some(target);
        }
        assert Step(c, Some(n), st) == Ok(ParseState(Perm(cycles, dict, next, prev), left, last));
      }
      index := index + 1;
    }
    assert text[index..] == [];
    var i := 0;
    while i < |left|
      invariant 0 <= i <= |left|
      invariant ParseSpec(s, symbols) == Ok(AddFixed(Perm(cycles, dict, next, prev), left[i..]))
    {
      var x := left[i];
      assert left[i..][0] == x && left[i..][1..] == left[i + 1..];
      next := next[x := x];
      prev := prev[x := x];
      dict := dict + {x};
      cycles := cycles + [x];
      i := i + 1;
    }
    return Ok(Perm(cycles, dict, next, prev));
  }

  /** The constructor of MultiplyA6Permutations.py: it first reverses the
      caller's list of symbols in place, then parses as above over the
      reversed domain. */
  method ParseReversing(s: string, symbols: array<char>) returns (r: Result<Perm>)
    requires Distinct(symbols[..])
    modifies symbols
    ensures symbols[..] == Reversed(old(symbols[..]))
    ensures r == ParseSpec(s, symbols[..])
  {
    var lo, hi := 0, symbols.Length;
    while lo + 1 < hi
      invariant 0 <= lo <= hi <= symbols.Length && lo + hi == symbols.Length
      invariant forall i :: 0 <= i < lo ==> symbols[i] == old(symbols[symbols.Length - 1 - i])
      invariant forall i :: hi <= i < symbols.Length ==> symbols[i] == old(symbols[symbols.Length - 1 - i])
      invariant forall i :: lo <= i < hi ==> symbols[i] == old(symbols[i])
    {
      symbols[lo], symbols[hi - 1] := symbols[hi - 1], symbols[lo];
      lo, hi := lo + 1, hi - 1;
    }
    ReversedDistinct(old(symbols[..]));
    r := Parse(s, symbols[..]);
  }

  function Reversed(xs: seq<char>): (r: seq<char>)
    ensures |r| == |xs|
    ensures forall i :: 0 <= i < |xs| ==> r[i] == xs[|xs| - 1 - i]
  {
    if xs == [] then [] else Reversed(xs[1..]) + [xs[0]]
  }

  lemma ReversedDistinct(xs: seq<char>)
    requires Distinct(xs)
    ensures Distinct(Reversed(xs))
  {
    var r := Reversed(xs);
    forall i, j | 0 <= i < j < |r|
      ensures r[i] != r[j]
    {
      assert r[i] == xs[|xs| - 1 - i] && r[j] == xs[|xs| - 1 - j];
    }
  }

  // ---------------------------------------------------------------------------
  // What the constructor builds from well-formed cycle notation

  /** "(" + g + ")" for each group g, in order. */
  function Notation(gs: seq<seq<char>>): string
  {
    if gs == [] then "" else "(" + gs[0] + ")" + Notation(gs[1..])
  }

  function Flatten(gs: seq<seq<char>>): seq<char>
  {
    if gs == [] then [] else gs[0] + Flatten(gs[1..])
  }

  /** The first symbol of each group. */
  function Heads(gs: seq<seq<char>>): seq<char>
    requires forall k :: 0 <= k < |gs| ==> |gs[k]| > 0
  {
    if gs == [] then [] else [gs[0][0]] + Heads(gs[1..])
  }

  /** Groups of symbols other than parentheses, none of them empty. */
  ghost predicate WellShaped(gs: seq<seq<char>>)
  {
    forall k :: 0 <= k < |gs| ==> |gs[k]| > 0 && '(' !in gs[k] && ')' !in gs[k]
  }

  /** The nodes of `g` form one ring: each links to the following symbol, the
      last back to the first, and `prev` is the reverse link. */
  ghost predicate Linked(next: map<char, char>, prev: map<char, char>, g: seq<char>)
    requires |g| > 0
  {
    && (forall i :: 0 <= i < |g| - 1 ==> g[i] in next && next[g[i]] == g[i + 1])
    && (forall i :: 1 <= i < |g| ==> g[i] in prev && prev[g[i]] == g[i - 1])
    && g[|g| - 1] in next && next[g[|g| - 1]] == g[0]
    && g[0] in prev && prev[g[0]] == g[|g| - 1]
  }

  /** The symbols of `g` are in the domain and none repeats one of `done` or of `g`. */
  ghost predicate Fits(domain: seq<char>, done: seq<char>, g: seq<char>)
  {
    Distinct(done + g) && forall x :: x in g ==> x in domain
  }

  /** The links of `q` are those of `p` except at the symbols of `g`. */
  ghost predicate SameOutside(p: Perm, q: Perm, g: seq<char>)
  {
    && (forall x :: x in p.next && x !in g ==> x in q.next && q.next[x] == p.next[x])
    && (forall x :: x in p.prev && x !in g ==> x in q.prev && q.prev[x] == p.prev[x])
  }

  /** The state after "(" + g[..t+1], before the lookahead of g[t] is read. */
  ghost predicate Stage(domain: seq<char>, done: seq<char>, g: seq<char>, t: nat, st0: ParseState, st: ParseState)
    requires t < |g|
  {
    && StageKeys(g, t, st0.built, st.built)
    && SameOutside(st0.built, st.built, g[..t + 1])
    && StageLinks(g, t, st.built)
    && st.left == Without(domain, done + g[..t + 1])
    && st.last == Some(g[t])
    && Distinct(done + g[..t + 1])
    && (forall i :: 0 <= i <= t ==> g[i] in domain)
  }

  ghost predicate StageKeys(g: seq<char>, t: nat, p0: Perm, p: Perm)
    requires t < |g|
  {
    && p.cycles == p0.cycles + [g[0]]
    && (forall x :: x in p.dict <==> x in p0.dict || x in g[1..t + 1])
    && (forall x :: x in p.next <==> x in p0.next || x in g[..t + 1])
    && (forall x :: x in p.prev <==> x in p0.prev || x in g[..t + 1])
  }

  /** g[0..t] are linked in a chain; g[t] still points to itself and g[0]
      is still its own predecessor. */
  ghost predicate StageLinks(g: seq<char>, t: nat, p: Perm)
    requires t < |g|
  {
    && (forall i :: 0 <= i < t ==> g[i] in p.next && p.next[g[i]] == g[i + 1])
    && g[t] in p.next && p.next[g[t]] == g[t]
    && g[0] in p.prev && p.prev[g[0]] == g[0]
    && (forall i :: 1 <= i <= t ==> g[i] in p.prev && p.prev[g[i]] == g[i - 1])
  }

  /** The state after "(" + g + ")". */
  ghost predicate AfterGroup(domain: seq<char>, done: seq<char>, g: seq<char>, st0: ParseState, st: ParseState)
    requires |g| > 0
  {
    && AfterKeys(g, st0.built, st.built)
    && SameOutside(st0.built, st.built, g)
    && Linked(st.built.next, st.built.prev, g)
    && st.left == Without(domain, done + g)
  }

  ghost predicate AfterKeys(g: seq<char>, p0: Perm, p: Perm)
    requires |g| > 0
  {
    && p.cycles == p0.cycles + [g[0]]
    && (forall x :: x in p.dict <==> x in p0.dict || x in g)
    && (forall x :: x in p.next <==> x in p0.next || x in g)
    && (forall x :: x in p.prev <==> x in p0.prev || x in g)
  }

  lemma DistinctParts(a: seq<char>, b: seq<char>)
    requires Distinct(a + b)
    ensures Distinct(a) && Distinct(b)
    ensures forall x :: x in a ==> x !in b
  {
    var s := a + b;
    forall i, j | 0 <= i < j < |b|
      ensures b[i] != b[j]
    {
      assert s[|a| + i] == b[i] && s[|a| + j] == b[j];
    }
    forall i, j | 0 <= i < j < |a|
      ensures a[i] != a[j]
    {
      assert s[i] == a[i] && s[j] == a[j];
    }
    forall x | x in a
      ensures x !in b
    {
      var i :| 0 <= i < |a| && a[i] == x;
      forall j | 0 <= j < |b|
        ensures b[j] != x
      {
        assert s[i] == a[i] && s[|a| + j] == b[j];
      }
    }
  }

  lemma DupNotDistinct(s: seq<char>, m: nat)
    requires m < |s| && s[m] in s[..m]
    ensures !Distinct(s)
  {
    var j :| 0 <= j < m && s[..m][j] == s[m];
    assert s[j] == s[m];
  }

  /** "(" + g[0]: the state of the first stage. */
  lemma StageOpen(domain: seq<char>, done: seq<char>, g: seq<char>, st0: ParseState)
    requires Distinct(domain) && Distinct(done) && st0.left == Without(domain, done)
    requires |g| > 0 && g[0] in domain && g[0] !in done
    ensures g[0] in st0.left
    ensures Stage(domain, done, g, 0, st0, Open(st0, g[0]))
  {
    RemoveWithout(domain, done, g[0]);
    assert g[..1] == [g[0]];
    AppendDistinct(done, g[0]);
    assert g[1..1] == [];
  }

  /** A symbol followed by the fresh symbol `g[t + 1]`: the next stage. */
  lemma StageNext(domain: seq<char>, done: seq<char>, g: seq<char>, t: nat, st0: ParseState, st: ParseState)
    requires Distinct(domain) && t + 1 < |g| && Stage(domain, done, g, t, st0, st)
    requires g[t + 1] in domain && g[t + 1] !in done + g[..t + 1]
    ensures g[t + 1] in st.left
    ensures Stage(domain, done, g, t + 1, st0, Link(Create(st, g[t + 1]), g[t], g[t + 1]))
  {
    var n := g[t + 1];
    RemoveWithout(domain, done + g[..t + 1], n);
    assert g[..t + 2] == g[..t + 1] + [n];
    assert done + g[..t + 2] == (done + g[..t + 1]) + [n];
    AppendDistinct(done + g[..t + 1], n);
    DistinctParts(done, g[..t + 1]);
    var st2 := Link(Create(st, n), g[t], n);
    NextKeys(g, t, st0.built, st.built, st2.built);
    NextOutside(g, t, st0.built, st.built, st2.built);
    NextLinks(g, t, st.built, st2.built);
  }

  lemma NextKeys(g: seq<char>, t: nat, p0: Perm, p: Perm, q: Perm)
    requires t + 1 < |g| && StageKeys(g, t, p0, p)
    requires q == p.(next := p.next[g[t + 1] := g[t + 1]][g[t] := g[t + 1]],
                     prev := p.prev[g[t + 1] := g[t + 1]][g[t + 1] := g[t]],
                     dict := p.dict + {g[t + 1]})
    ensures StageKeys(g, t + 1, p0, q)
  {
    assert g[..t + 2] == g[..t + 1] + [g[t + 1]];
    assert g[1..t + 2] == g[1..t + 1] + [g[t + 1]];
    assert g[t] in g[..t + 1];
  }

  lemma NextOutside(g: seq<char>, t: nat, p0: Perm, p: Perm, q: Perm)
    requires t + 1 < |g| && SameOutside(p0, p, g[..t + 1])
    requires q == p.(next := p.next[g[t + 1] := g[t + 1]][g[t] := g[t + 1]],
                     prev := p.prev[g[t + 1] := g[t + 1]][g[t + 1] := g[t]],
                     dict := p.dict + {g[t + 1]})
    ensures SameOutside(p0, q, g[..t + 2])
  {
    assert g[..t + 2] == g[..t + 1] + [g[t + 1]];
    assert g[t] in g[..t + 1];
  }

  lemma NextLinks(g: seq<char>, t: nat, p: Perm, q: Perm)
    requires t + 1 < |g| && StageLinks(g, t, p)
    requires Distinct(g[..t + 1]) && g[t + 1] !in g[..t + 1]
    requires q == p.(next := p.next[g[t + 1] := g[t + 1]][g[t] := g[t + 1]],
                     prev := p.prev[g[t + 1] := g[t + 1]][g[t + 1] := g[t]],
                     dict := p.dict + {g[t + 1]})
    ensures StageLinks(g, t + 1, q)
  {
    assert forall i :: 0 <= i <= t ==> g[..t + 1][i] == g[i];
    assert forall i :: 0 <= i < t ==> g[i] != g[t] by {
      forall i | 0 <= i < t
        ensures g[i] != g[t]
      {
        assert g[..t + 1][i] == g[i] && g[..t + 1][t] == g[t];
      }
    }
  }

  /** The last symbol of the group followed by ")": the ring is closed. */
  lemma StageClose(domain: seq<char>, done: seq<char>, g: seq<char>, st0: ParseState, st: ParseState)
    requires |g| > 0 && Stage(domain, done, g, |g| - 1, st0, st)
    ensures Fits(domain, done, g)
    ensures AfterGroup(domain, done, g, st0, Link(st, g[|g| - 1], g[0]))
  {
    var t := |g| - 1;
    assert g[..t + 1] == g;
    DistinctParts(done, g);
    forall x | x in g
      ensures x in domain
    {
      var i :| 0 <= i < |g| && g[i] == x;
    }
    var q := Link(st, g[t], g[0]).built;
    CloseKeys(g, st0.built, st.built, q);
    CloseOutside(g, st0.built, st.built, q);
    CloseLinks(g, st.built, q);
  }

  lemma CloseKeys(g: seq<char>, p0: Perm, p: Perm, q: Perm)
    requires |g| > 0 && StageKeys(g, |g| - 1, p0, p)
    requires q == p.(next := p.next[g[|g| - 1] := g[0]], prev := p.prev[g[0] := g[|g| - 1]],
                     dict := p.dict + {g[0]})
    ensures AfterKeys(g, p0, q)
  {
    var t := |g| - 1;
    assert g[..t + 1] == g;
    assert g == [g[0]] + g[1..t + 1];
    assert g[0] in g && g[t] in g;
  }

  lemma CloseOutside(g: seq<char>, p0: Perm, p: Perm, q: Perm)
    requires |g| > 0 && SameOutside(p0, p, g[..|g|])
    requires q == p.(next := p.next[g[|g| - 1] := g[0]], prev := p.prev[g[0] := g[|g| - 1]],
                     dict := p.dict + {g[0]})
    ensures SameOutside(p0, q, g)
  {
    assert g[..|g|] == g;
    assert g[0] in g && g[|g| - 1] in g;
  }

  lemma CloseLinks(g: seq<char>, p: Perm, q: Perm)
    requires |g| > 0 && StageLinks(g, |g| - 1, p) && Distinct(g)
    requires q == p.(next := p.next[g[|g| - 1] := g[0]], prev := p.prev[g[0] := g[|g| - 1]],
                     dict := p.dict + {g[0]})
    ensures Linked(q.next, q.prev, g)
  {
    assert g[0] in p.next && g[|g| - 1] in p.prev;
  }

  /** A symbol followed by ")" links the last symbol added to the head of the
      newest cycle. */
  lemma StepClose(x: char, head: char, st: ParseState)
    requires x != '(' && x != ')' && st.last == Some(x)
    requires |st.built.cycles| > 0 && st.built.cycles[|st.built.cycles| - 1] == head
    ensures Step(x, Some(')'), st) == Ok(Link(st, x, head))
  {
  }

  /** A symbol followed by a symbol still to map links a new node after it. */
  lemma StepNext(x: char, n: char, st: ParseState)
    requires x != '(' && x != ')' && n != ')' && n in st.left && st.last == Some(x)
    ensures Step(x, Some(n), st) == Ok(Link(Create(st, n), x, n))
  {
  }

  /** A symbol followed by a symbol no longer to map: `list.remove` raises. */
  lemma StepBad(x: char, n: char, st: ParseState)
    requires x != '(' && x != ')' && n != ')' && n !in st.left
    ensures Step(x, Some(n), st) == Err(ValueError(RemoveMessage))
  {
  }

  /** One pass of the loop that succeeds. */
  lemma ProcessOk(s: string, st: ParseState, st1: ParseState)
    requires |s| > 1 && Step(s[0], Some(s[1]), st) == Ok(st1)
    ensures Process(s, st) == Process(s[1..], st1)
  {
  }

  /** One pass of the loop that raises. */
  lemma ProcessErr(s: string, st: ParseState)
    requires |s| > 1 && Step(s[0], Some(s[1]), st).Err?
    ensures Process(s, st) == Err(Step(s[0], Some(s[1]), st).error)
  {
  }

  /** Reading g[t..] + ")" from stage t: the ring closes when the group fits,
      and `list.remove` raises at the first symbol that does not. */
  lemma {:induction false} ProcessInGroup(domain: seq<char>, done: seq<char>, g: seq<char>, t: nat, rest: string,
                                          st0: ParseState, st: ParseState) returns (st1: ParseState)
    requires Distinct(domain) && t < |g| && '(' !in g && ')' !in g
    requires Stage(domain, done, g, t, st0, st)
    ensures Fits(domain, done, g) ==>
      Process(g[t..] + ")" + rest, st) == Process(rest, st1) && AfterGroup(domain, done, g, st0, st1)
    ensures !Fits(domain, done, g) ==> Process(g[t..] + ")" + rest, st) == Err(ValueError(RemoveMessage))
    decreases |g| - t
  {
    if t == |g| - 1 {
      st1 := InGroupClose(domain, done, g, rest, st0, st);
    } else {
      var n := g[t + 1];
      WithoutMembers(domain, done + g[..t + 1]);
      if n in domain && n !in done + g[..t + 1] {
        var st2 := InGroupNext(domain, done, g, t, rest, st0, st);
        st1 := ProcessInGroup(domain, done, g, t + 1, rest, st0, st2);
      } else {
        st1 := st;
        InGroupBad(domain, done, g, t, rest, st0, st);
      }
    }
  }

  lemma InGroupClose(domain: seq<char>, done: seq<char>, g: seq<char>, rest: string,
                     st0: ParseState, st: ParseState) returns (st1: ParseState)
    requires |g| > 0 && '(' !in g && ')' !in g
    requires Stage(domain, done, g, |g| - 1, st0, st)
    ensures Fits(domain, done, g)
    ensures Process(g[|g| - 1..] + ")" + rest, st) == Process(rest, st1)
    ensures AfterGroup(domain, done, g, st0, st1)
  {
    var t := |g| - 1;
    st1 := Link(st, g[t], g[0]);
    assert g[t] in g;
    assert StageKeys(g, t, st0.built, st.built) && st.last == Some(g[t]);
    assert g[t..] == [g[t]];
    CloseText(g[t], g[0], rest, st);
    StageClose(domain, done, g, st0, st);
  }

  /** The last symbol of a group and ")" close the ring; the loop goes on
      after the ")". */
  lemma CloseText(x: char, head: char, rest: string, st: ParseState)
    requires x != '(' && x != ')' && st.last == Some(x)
    requires |st.built.cycles| > 0 && st.built.cycles[|st.built.cycles| - 1] == head
    ensures Process([x] + ")" + rest, st) == Process(rest, Link(st, x, head))
  {
    var s := [x] + ")" + rest;
    var st1 := Link(st, x, head);
    StepClose(x, head, st);
    assert s[0] == x && s[1] == ')';
    ProcessOk(s, st, st1);
    assert s[1..] == ")" + rest;
    assert Process(")" + rest, st1) == Process(rest, st1) by {
      assert (")" + rest)[0] == ')' && (")" + rest)[1..] == rest;
    }
  }

  lemma InGroupNext(domain: seq<char>, done: seq<char>, g: seq<char>, t: nat, rest: string,
                    st0: ParseState, st: ParseState) returns (st2: ParseState)
    requires Distinct(domain) && t + 1 < |g| && '(' !in g && ')' !in g
    requires Stage(domain, done, g, t, st0, st)
    requires g[t + 1] in domain && g[t + 1] !in done + g[..t + 1]
    ensures Stage(domain, done, g, t + 1, st0, st2)
    ensures Process(g[t..] + ")" + rest, st) == Process(g[t + 1..] + ")" + rest, st2)
  {
    var n := g[t + 1];
    var s := g[t..] + ")" + rest;
    assert s[0] == g[t] && s[1] == n && s[1..] == g[t + 1..] + ")" + rest;
    assert g[t] in g && n in g;
    StageNext(domain, done, g, t, st0, st);
    st2 := Link(Create(st, n), g[t], n);
    StepNext(g[t], n, st);
    ProcessOk(s, st, st2);
  }

  lemma InGroupBad(domain: seq<char>, done: seq<char>, g: seq<char>, t: nat, rest: string,
                   st0: ParseState, st: ParseState)
    requires t + 1 < |g| && '(' !in g && ')' !in g
    requires Stage(domain, done, g, t, st0, st)
    requires g[t + 1] !in domain || g[t + 1] in done + g[..t + 1]
    ensures !Fits(domain, done, g)
    ensures Process(g[t..] + ")" + rest, st) == Err(ValueError(RemoveMessage))
  {
    var n := g[t + 1];
    var s := g[t..] + ")" + rest;
    assert s[0] == g[t] && s[1] == n;
    assert g[t] in g && n in g;
    WithoutMembers(domain, done + g[..t + 1]);
    StepBad(g[t], n, st);
    ProcessErr(s, st);
    if n in done + g[..t + 1] {
      assert (done + g)[..|done| + t + 1] == done + g[..t + 1];
      assert (done + g)[|done| + t + 1] == n;
      DupNotDistinct(done + g, |done| + t + 1);
    }
  }

  lemma ProcessGroup(domain: seq<char>, done: seq<char>, g: seq<char>, rest: string, st0: ParseState)
    returns (st1: ParseState)
    requires Distinct(domain) && Distinct(done) && st0.left == Without(domain, done)
    requires |g| > 0 && '(' !in g && ')' !in g
    ensures Fits(domain, done, g) ==>
      Process("(" + g + ")" + rest, st0) == Process(rest, st1) && AfterGroup(domain, done, g, st0, st1)
    ensures !Fits(domain, done, g) ==> Process("(" + g + ")" + rest, st0) == Err(ValueError(RemoveMessage))
  {
    var s := "(" + g + ")" + rest;
    assert s[0] == '(' && s[1] == g[0] && s[1..] == g[0..] + ")" + rest;
    WithoutMembers(domain, done);
    if g[0] in domain && g[0] !in done {
      StageOpen(domain, done, g, st0);
      assert Step('(', Some(g[0]), st0) == Ok(Open(st0, g[0]));
      st1 := ProcessInGroup(domain, done, g, 0, rest, st0, Open(st0, g[0]));
    } else {
      st1 := st0;
      assert Step('(', Some(g[0]), st0) == Err(ValueError(RemoveMessage));
      assert g[0] in g;
      if g[0] in done {
        assert (done + g)[..|done|] == done && (done + g)[|done|] == g[0];
        DupNotDistinct(done + g, |done|);
      }
    }
  }

  /** The state after Notation(gs). */
  ghost predicate AfterGroups(domain: seq<char>, done: seq<char>, gs: seq<seq<char>>, st0: ParseState, st: ParseState)
    requires WellShaped(gs)
  {
    && GroupsKeys(gs, st0.built, st.built)
    && SameOutside(st0.built, st.built, Flatten(gs))
    && (forall k :: 0 <= k < |gs| ==> Linked(st.built.next, st.built.prev, gs[k]))
    && st.left == Without(domain, done + Flatten(gs))
  }

  ghost predicate GroupsKeys(gs: seq<seq<char>>, p0: Perm, p: Perm)
    requires WellShaped(gs)
  {
    && p.cycles == p0.cycles + Heads(gs)
    && (forall x :: x in p.dict <==> x in p0.dict || x in Flatten(gs))
    && (forall x :: x in p.next <==> x in p0.next || x in Flatten(gs))
    && (forall x :: x in p.prev <==> x in p0.prev || x in Flatten(gs))
  }

  /** A sequence of groups fits exactly when its first group fits and the rest
      fit after it. */
  lemma FitsSplit(domain: seq<char>, done: seq<char>, a: seq<char>, b: seq<char>)
    ensures Fits(domain, done, a + b) <==> Fits(domain, done, a) && Fits(domain, done + a, b)
  {
    assert done + (a + b) == (done + a) + b;
    if Distinct((done + a) + b) {
      DistinctParts(done + a, b);
    }
  }

  lemma SameOutsideTrans(p: Perm, q: Perm, r: Perm, g: seq<char>, h: seq<char>)
    requires SameOutside(p, q, g) && SameOutside(q, r, h)
    ensures SameOutside(p, r, g + h)
  {
  }

  /** A ring whose nodes a later step does not touch stays a ring. */
  lemma LinkedKept(p: Perm, q: Perm, g: seq<char>, h: seq<char>)
    requires |g| > 0 && Linked(p.next, p.prev, g) && SameOutside(p, q, h)
    requires forall x :: x in g ==> x !in h
    ensures Linked(q.next, q.prev, g)
  {
    assert g[0] in g && g[|g| - 1] in g;
    forall i | 0 <= i < |g| - 1
      ensures g[i] in q.next && q.next[g[i]] == g[i + 1]
    {
      assert g[i] in g;
    }
    forall i | 1 <= i < |g|
      ensures g[i] in q.prev && q.prev[g[i]] == g[i - 1]
    {
      assert g[i] in g;
    }
  }

  lemma GroupsKeysCons(gs: seq<seq<char>>, p0: Perm, p1: Perm, p: Perm)
    requires |gs| > 0 && WellShaped(gs)
    requires AfterKeys(gs[0], p0, p1) && GroupsKeys(gs[1..], p1, p)
    ensures GroupsKeys(gs, p0, p)
  {
    assert Flatten(gs) == gs[0] + Flatten(gs[1..]);
  }

  /** Appending the effect of one more group at the front. */
  lemma AfterGroupsCons(domain: seq<char>, done: seq<char>, gs: seq<seq<char>>,
                        st0: ParseState, mid: ParseState, st1: ParseState)
    requires |gs| > 0 && WellShaped(gs) && Distinct(gs[0] + Flatten(gs[1..]))
    requires AfterGroup(domain, done, gs[0], st0, mid)
    requires AfterGroups(domain, done + gs[0], gs[1..], mid, st1)
    ensures AfterGroups(domain, done, gs, st0, st1)
  {
    var g, tail := gs[0], gs[1..];
    assert Flatten(gs) == g + Flatten(tail);
    assert done + Flatten(gs) == (done + g) + Flatten(tail);
    GroupsKeysCons(gs, st0.built, mid.built, st1.built);
    SameOutsideTrans(st0.built, mid.built, st1.built, g, Flatten(tail));
    DistinctParts(g, Flatten(tail));
    LinkedKept(mid.built, st1.built, g, Flatten(tail));
    forall k | 0 <= k < |gs|
      ensures Linked(st1.built.next, st1.built.prev, gs[k])
    {
      if k > 0 {
        assert gs[k] == tail[k - 1];
      }
    }
  }

  /** Reading the notation of well-shaped groups: each group becomes one ring
      when all of them fit the domain, and `list.remove` raises otherwise. */
  lemma {:induction false} ProcessGroups(domain: seq<char>, done: seq<char>, gs: seq<seq<char>>, rest: string,
                                         st0: ParseState) returns (st1: ParseState)
    requires Distinct(domain) && Distinct(done) && st0.left == Without(domain, done) && WellShaped(gs)
    ensures Fits(domain, done, Flatten(gs)) ==>
      Process(Notation(gs) + rest, st0) == Process(rest, st1) && AfterGroups(domain, done, gs, st0, st1)
    ensures !Fits(domain, done, Flatten(gs)) ==> Process(Notation(gs) + rest, st0) == Err(ValueError(RemoveMessage))
    decreases |gs|
  {
    if gs == [] {
      st1 := st0;
      assert Notation(gs) + rest == rest && Flatten(gs) == [] && done + [] == done;
    } else {
      var g, tail := gs[0], gs[1..];
      assert Notation(gs) + rest == "(" + g + ")" + (Notation(tail) + rest);
      assert Flatten(gs) == g + Flatten(tail);
      assert WellShaped(tail);
      var mid := ProcessGroup(domain, done, g, Notation(tail) + rest, st0);
      FitsSplit(domain, done, g, Flatten(tail));
      if Fits(domain, done, g) {
        st1 := ProcessGroups(domain, done + g, tail, rest, mid);
        if Fits(domain, done, Flatten(gs)) {
          DistinctParts(done, Flatten(gs));
          AfterGroupsCons(domain, done, gs, st0, mid, st1);
        }
      } else {
        st1 := st0;
      }
    }
  }

  /** The final loop appends each leftover symbol as a 1-cycle and changes no
      other link. */
  lemma {:induction false} AddFixedFacts(p: Perm, rest: seq<char>)
    requires Distinct(rest) && forall x :: x in rest ==> x !in p.next && x !in p.prev
    ensures AddFixed(p, rest).cycles == p.cycles + rest
    ensures forall x :: x in AddFixed(p, rest).dict <==> x in p.dict || x in rest
    ensures forall x :: x in AddFixed(p, rest).next <==> x in p.next || x in rest
    ensures forall x :: x in AddFixed(p, rest).prev <==> x in p.prev || x in rest
    ensures forall x :: x in rest ==> AddFixed(p, rest).next[x] == x && AddFixed(p, rest).prev[x] == x
    ensures forall x :: x in p.next ==> AddFixed(p, rest).next[x] == p.next[x]
    ensures forall x :: x in p.prev ==> AddFixed(p, rest).prev[x] == p.prev[x]
    decreases |rest|
  {
    if rest != [] {
      var x := rest[0];
      var q := Perm(p.cycles + [x], p.dict + {x}, p.next[x := x], p.prev[x := x]);
      assert rest == [x] + rest[1..];
      assert Distinct(rest[1..]) && x !in rest[1..] by {
        DistinctParts([x], rest[1..]);
      }
      AddFixedFacts(q, rest[1..]);
      assert q.cycles + rest[1..] == p.cycles + rest;
    }
  }

  /** Every symbol of the flattened groups sits at some position of some group. */
  lemma {:induction false} FlattenIndex(gs: seq<seq<char>>, x: char) returns (k: nat, i: nat)
    requires x in Flatten(gs)
    ensures k < |gs| && i < |gs[k]| && gs[k][i] == x
  {
    assert Flatten(gs) == gs[0] + Flatten(gs[1..]);
    if x in gs[0] {
      k := 0;
      i :| 0 <= i < |gs[0]| && gs[0][i] == x;
    } else {
      var k1, i1 := FlattenIndex(gs[1..], x);
      k, i := k1 + 1, i1;
    }
  }

  /** Every symbol of a group is in the flattened groups. */
  lemma {:induction false} FlattenHas(gs: seq<seq<char>>, k: nat, i: nat)
    requires k < |gs| && i < |gs[k]|
    ensures gs[k][i] in Flatten(gs)
  {
    assert Flatten(gs) == gs[0] + Flatten(gs[1..]);
    if k > 0 {
      FlattenHas(gs[1..], k - 1, i);
    }
  }

  lemma {:induction false} HeadsInFlatten(gs: seq<seq<char>>)
    requires WellShaped(gs)
    ensures forall x :: x in Heads(gs) ==> x in Flatten(gs)
  {
    if gs != [] {
      assert WellShaped(gs[1..]);
      HeadsInFlatten(gs[1..]);
      assert Flatten(gs) == gs[0] + Flatten(gs[1..]);
      assert gs[0][0] in gs[0];
    }
  }

  /** At every position of a ring, `prev` undoes `next` and `next` undoes `prev`,
      and both stay inside the ring. */
  lemma LinkedAt(next: map<char, char>, prev: map<char, char>, g: seq<char>, i: nat)
    requires |g| > 0 && i < |g| && Linked(next, prev, g)
    ensures g[i] in next && next[g[i]] in g && next[g[i]] in prev && prev[next[g[i]]] == g[i]
    ensures g[i] in prev && prev[g[i]] in g && prev[g[i]] in next && next[prev[g[i]]] == g[i]
  {
    var n := |g|;
    if i < n - 1 {
      assert next[g[i]] == g[i + 1] && prev[g[i + 1]] == g[i];
    }
    if i > 0 {
      assert prev[g[i]] == g[i - 1] && next[g[i - 1]] == g[i];
    }
    if n > 1 {
      assert prev[g[1]] == g[0];
    }
  }

  /** What `Permutation(notation, symbols)` builds from the cycle notation of
      well-shaped groups. */
  ghost predicate BuiltFrom(gs: seq<seq<char>>, symbols: seq<char>, p: Perm)
    requires WellShaped(gs)
  {
    && p.cycles == Heads(gs) + Without(symbols, Flatten(gs))
    && (forall x :: x in p.dict <==> x in symbols)
    && (forall k :: 0 <= k < |gs| ==> Linked(p.next, p.prev, gs[k]))
    && (forall x :: x in symbols && x !in Flatten(gs) ==> x in p.next && p.next[x] == x && x in p.prev && p.prev[x] == x)
  }

  /** Well-formed cycle notation over a domain of distinct symbols: when every
      symbol of the groups is in the domain and none repeats, the result has a
      cycle head per group followed by the unmentioned symbols as 1-cycles,
      each group is one ring, every domain symbol has a node, and the result is
      a permutation of the domain; otherwise `list.remove` raises ValueError. */
  lemma ParseGroups(gs: seq<seq<char>>, symbols: seq<char>)
    requires Distinct(symbols) && WellShaped(gs)
    ensures Fits(symbols, [], Flatten(gs)) ==>
      && ParseSpec(Notation(gs), symbols).Ok?
      && BuiltFrom(gs, symbols, ParseSpec(Notation(gs), symbols).value)
      && Valid(ParseSpec(Notation(gs), symbols).value)
    ensures !Fits(symbols, [], Flatten(gs)) ==> ParseSpec(Notation(gs), symbols) == Err(ValueError(RemoveMessage))
  {
    assert Notation(gs) != "I" by {
      if gs != [] {
        assert Notation(gs)[0] == '(';
      }
    }
    assert Notation(gs) + "" == Notation(gs);
    assert Without(symbols, []) == symbols by {
      WithoutMembers(symbols, []);
      WithoutAll(symbols);
    }
    var st := ProcessGroups(symbols, [], gs, "", Start(symbols));
    if Fits(symbols, [], Flatten(gs)) {
      assert ParseSpec(Notation(gs), symbols) == Ok(AddFixed(st.built, st.left));
      GroupsThenFixed(gs, symbols, st);
      BuiltValid(gs, symbols, AddFixed(st.built, st.left));
    }
  }

  /** The leftover loop after the groups: the result is built from the groups
      and has a node for exactly the domain symbols. */
  lemma GroupsThenFixed(gs: seq<seq<char>>, symbols: seq<char>, st: ParseState)
    requires Distinct(symbols) && WellShaped(gs) && Fits(symbols, [], Flatten(gs))
    requires AfterGroups(symbols, [], gs, Start(symbols), st)
    ensures BuiltFrom(gs, symbols, AddFixed(st.built, st.left))
    ensures forall x :: x in Flatten(gs) ==> x in symbols
    ensures forall x :: x in AddFixed(st.built, st.left).next <==> x in symbols
    ensures forall x :: x in AddFixed(st.built, st.left).prev <==> x in symbols
  {
    assert [] + Flatten(gs) == Flatten(gs);
    WithoutMembers(symbols, Flatten(gs));
    WithoutDistinct(symbols, Flatten(gs));
    FixedShape(gs, symbols, st.built, st.left);
    FixedRings(gs, st.built, st.left);
  }

  lemma FixedShape(gs: seq<seq<char>>, symbols: seq<char>, p: Perm, left: seq<char>)
    requires WellShaped(gs) && GroupsKeys(gs, Perm([], {}, map[], map[]), p)
    requires forall x :: x in Flatten(gs) ==> x in symbols
    requires left == Without(symbols, Flatten(gs)) && Distinct(left)
    requires forall x :: x in left <==> x in symbols && x !in Flatten(gs)
    ensures AddFixed(p, left).cycles == Heads(gs) + Without(symbols, Flatten(gs))
    ensures forall x :: x in AddFixed(p, left).dict <==> x in symbols
    ensures forall x :: x in AddFixed(p, left).next <==> x in symbols
    ensures forall x :: x in AddFixed(p, left).prev <==> x in symbols
    ensures forall x :: x in symbols && x !in Flatten(gs) ==>
      x in AddFixed(p, left).next && AddFixed(p, left).next[x] == x &&
      x in AddFixed(p, left).prev && AddFixed(p, left).prev[x] == x
  {
    AddFixedFacts(p, left);
    assert [] + Heads(gs) == Heads(gs);
  }

  lemma FixedRings(gs: seq<seq<char>>, p: Perm, left: seq<char>)
    requires WellShaped(gs) && Distinct(left)
    requires forall x :: x in left ==> x !in p.next && x !in p.prev
    requires forall k :: 0 <= k < |gs| ==> Linked(p.next, p.prev, gs[k])
    ensures forall k :: 0 <= k < |gs| ==> Linked(AddFixed(p, left).next, AddFixed(p, left).prev, gs[k])
  {
    AddFixedFacts(p, left);
    forall k | 0 <= k < |gs|
      ensures Linked(AddFixed(p, left).next, AddFixed(p, left).prev, gs[k])
    {
      LinkedExtended(p, AddFixed(p, left), gs[k]);
    }
  }

  /** Links that a later step only adds to are kept. */
  lemma LinkedExtended(p: Perm, q: Perm, g: seq<char>)
    requires |g| > 0 && Linked(p.next, p.prev, g)
    requires forall x :: x in p.next ==> x in q.next && q.next[x] == p.next[x]
    requires forall x :: x in p.prev ==> x in q.prev && q.prev[x] == p.prev[x]
    ensures Linked(q.next, q.prev, g)
  {
    assert g[0] in p.next && g[|g| - 1] in p.prev;
  }

  lemma {:induction false} WithoutAll(xs: seq<char>)
    ensures Without(xs, []) == xs
  {
    if xs != [] {
      WithoutAll(xs[1..]);
    }
  }

  lemma BuiltAt(gs: seq<seq<char>>, symbols: seq<char>, p: Perm, x: char)
    requires WellShaped(gs) && BuiltFrom(gs, symbols, p)
    requires forall x :: x in Flatten(gs) ==> x in symbols
    requires forall x :: x in p.next <==> x in symbols
    requires forall x :: x in p.prev <==> x in symbols
    requires x in p.dict
    ensures p.next[x] in p.dict && p.prev[p.next[x]] == x
    ensures p.prev[x] in p.dict && p.next[p.prev[x]] == x
  {
    if x in Flatten(gs) {
      var k, i := FlattenIndex(gs, x);
      LinkedAt(p.next, p.prev, gs[k], i);
      FlattenMembers(gs, k);
    }
  }

  lemma BuiltValid(gs: seq<seq<char>>, symbols: seq<char>, p: Perm)
    requires WellShaped(gs) && BuiltFrom(gs, symbols, p)
    requires forall x :: x in Flatten(gs) ==> x in symbols
    requires forall x :: x in p.next <==> x in symbols
    requires forall x :: x in p.prev <==> x in symbols
    ensures Valid(p)
  {
    forall x {:trigger p.next[x] in p.dict} | x in p.dict
      ensures p.next[x] in p.dict
    {
      BuiltAt(gs, symbols, p, x);
    }
    forall x {:trigger p.prev[x] in p.dict} | x in p.dict
      ensures p.prev[x] in p.dict
    {
      BuiltAt(gs, symbols, p, x);
    }
    forall x {:trigger p.prev[p.next[x]]} | x in p.dict
      ensures p.prev[p.next[x]] == x
    {
      BuiltAt(gs, symbols, p, x);
    }
    forall x {:trigger p.next[p.prev[x]]} | x in p.dict
      ensures p.next[p.prev[x]] == x
    {
      BuiltAt(gs, symbols, p, x);
    }
    HeadsInFlatten(gs);
    WithoutMembers(symbols, Flatten(gs));
  }

  lemma FlattenMembers(gs: seq<seq<char>>, k: nat)
    requires k < |gs|
    ensures forall x :: x in gs[k] ==> x in Flatten(gs)
  {
    forall x | x in gs[k]
      ensures x in Flatten(gs)
    {
      var i :| 0 <= i < |gs[k]| && gs[k][i] == x;
      FlattenHas(gs, k, i);
    }
  }

  /** "I" and "" both give the identity: every domain symbol is a 1-cycle,
      listed in domain order. */
  lemma ParseIdentity(symbols: seq<char>)
    requires Distinct(symbols)
    ensures ParseSpec("I", symbols) == ParseSpec("", symbols)
    ensures ParseSpec("", symbols).Ok?
    ensures var p := ParseSpec("", symbols).value;
      && Valid(p) && p.cycles == symbols
      && (forall x :: x in p.dict <==> x in symbols)
      && (forall x :: x in symbols ==> p.next[x] == x && p.prev[x] == x)
  {
    ParseGroups([], symbols);
    assert Notation([]) == "" && Flatten([]) == [] && Heads([]) == [];
    assert Fits(symbols, [], []);
    WithoutAll(symbols);
  }

  // ---------------------------------------------------------------------------
  // Every string the constructor accepts gives well-formed links

  /** Every node has both links, every link points to a node, and
      `last_added_symbol` is a node. */
  ghost predicate StateOK(st: ParseState)
  {
    WellFormed(st.built) && (st.last.Some? ==> st.last.value in st.built.next)
  }

  /** A new self-linked node keeps the links well formed. */
  lemma AddNodeOK(p: Perm, n: char, cycles: seq<char>, dict: set<char>)
    requires WellFormed(p)
    requires forall i :: 0 <= i < |cycles| ==> cycles[i] in p.next || cycles[i] == n
    requires dict <= p.dict + {n}
    ensures WellFormed(Perm(cycles, dict, p.next[n := n], p.prev[n := n]))
  {
  }

  lemma StepOK(c: char, lookahead: Option<char>, st: ParseState)
    requires StateOK(st)
    ensures Step(c, lookahead, st).Ok? ==> StateOK(Step(c, lookahead, st).value)
  {
    if c != ')' && lookahead.Some? && Step(c, lookahead, st).Ok? {
      var n := lookahead.value;
      var p := st.built;
      if c == '(' {
        AddNodeOK(p, n, p.cycles + [n], p.dict);
      } else if n == ')' {
        assert p.cycles[|p.cycles| - 1] in p.next;
      } else {
        AddNodeOK(p, n, p.cycles, p.dict);
      }
    }
  }

  lemma {:induction false} ProcessOK(s: string, st: ParseState)
    requires StateOK(st)
    ensures Process(s, st).Ok? ==> StateOK(Process(s, st).value)
    decreases |s|
  {
    if s != [] {
      var la := if |s| > 1 then Some(s[1]) else None;
      StepOK(s[0], la, st);
      if Step(s[0], la, st).Ok? {
        ProcessOK(s[1..], Step(s[0], la, st).value);
      }
    }
  }

  lemma {:induction false} AddFixedOK(p: Perm, rest: seq<char>)
    requires WellFormed(p)
    ensures WellFormed(AddFixed(p, rest))
    decreases |rest|
  {
    if rest != [] {
      var x := rest[0];
      AddNodeOK(p, x, p.cycles + [x], p.dict + {x});
      AddFixedOK(Perm(p.cycles + [x], p.dict + {x}, p.next[x := x], p.prev[x := x]), rest[1..]);
    }
  }

  /** Whatever string the constructor accepts, malformed notation included, the
      nodes it builds all have both links, and the dictionary and the cycle
      list only hold nodes. */
  lemma ParseWellFormed(s: string, symbols: seq<char>)
    ensures ParseSpec(s, symbols).Ok? ==> WellFormed(ParseSpec(s, symbols).value)
  {
    var text := if s == "I" then "" else s;
    ProcessOK(text, Start(symbols));
    if Process(text, Start(symbols)).Ok? {
      var st := Process(text, Start(symbols)).value;
      AddFixedOK(st.built, st.left);
    }
  }
}
