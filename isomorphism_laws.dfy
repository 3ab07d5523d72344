/** What `matrix_to_permutation` computes: when the matrix permutes the lines,
    the permutation it builds sends the symbol of each line to the symbol of
    the line that line is carried to. */
module IsomorphismLaws {
  import opened Wrappers
  import opened Linear
  import opened Permutations
  import opened Isomorphism

  /** The matrix carries every line onto one of the lines. */
  ghost predicate Acts(m: Mat, lines: seq<Vec>)
  {
    && 0 < |lines| <= 10 && |lines[0]| > 0 && FullColumns(m)
    && (forall i :: 0 <= i < |lines| ==> |lines[i]| == |m|)
    && forall i {:trigger FirstLine(Apply(m, lines[i]), lines, 0)} :: 0 <= i < |lines| ==>
         FirstLine(Apply(m, lines[i]), lines, 0).Some?
  }

  /** The action on line indices: line `i` is carried onto line `f[i]`, the
      first line that holds the image of its spanning vector. */
  ghost function Action(m: Mat, lines: seq<Vec>): (f: seq<nat>)
    requires Acts(m, lines)
    ensures |f| == |lines|
    ensures forall i {:trigger f[i]} :: 0 <= i < |lines| ==> FirstLine(Apply(m, lines[i]), lines, 0) == Some(f[i])
  {
    seq(|lines|, i requires 0 <= i < |lines| => FirstLine(Apply(m, lines[i]), lines, 0).value)
  }

  /** A map of `0 .. |f|-1` into itself that is one-to-one. */
  ghost predicate Bijection(f: seq<nat>)
  {
    && (forall i :: 0 <= i < |f| ==> f[i] < |f|)
    && (forall i, j :: 0 <= i < |f| && 0 <= j < |f| && f[i] == f[j] ==> i == j)
  }

  /** The matrix acts on the lines as a permutation. */
  ghost predicate Permutes(m: Mat, lines: seq<Vec>)
  {
    Acts(m, lines) && Bijection(Action(m, lines))
  }

  ghost predicate Unique(xs: seq<nat>)
  {
    forall i, j :: 0 <= i < j < |xs| ==> xs[i] != xs[j]
  }

  /** Over distinct entries, `list.remove(x)` drops `x` altogether and keeps
      the rest distinct; the other entries are kept by `RemoveCounts`. */
  lemma {:induction false} RemoveUnique(xs: seq<nat>, x: nat)
    requires x in xs && Unique(xs)
    ensures Unique(Remove(xs, x)) && x !in Remove(xs, x)
    ensures forall y :: y != x ==> (y in Remove(xs, x) <==> y in xs)
  {
    RemoveCounts(xs, x);
    if xs[0] == x {
      assert xs == [x] + xs[1..];
    } else {
      var r := Remove(xs[1..], x);
      RemoveUnique(xs[1..], x);
      assert Remove(xs, x) == [xs[0]] + r;
      assert xs[0] !in r by {
        assert xs[0] !in xs[1..];
      }
    }
  }

  // ---------------------------------------------------------------------------
  // The state of the builder loop, for an action `f`

  /** The indices whose cycles are complete: closed under `f` both ways. */
  ghost predicate Done(f: seq<nat>, done: set<nat>)
    requires Bijection(f)
  {
    && (forall x :: x in done ==> x < |f|)
    && (forall x {:trigger f[x]} :: x in done ==> f[x] in done)
    && (forall x {:trigger f[x]} :: 0 <= x < |f| && f[x] in done ==> x in done)
  }

  /** The cycle being traced: distinct indices outside `done`, each sent by
      `f` to the next. Its last element is `from_index`. */
  ghost predicate Path(f: seq<nat>, done: set<nat>, path: seq<nat>)
  {
    && |path| > 0 && Unique(path)
    && (forall k :: 0 <= k < |path| ==> path[k] < |f| && path[k] !in done)
    && (forall k {:trigger f[path[k]]} :: 0 <= k < |path| - 1 ==> f[path[k]] == path[k + 1])
  }

  /** `symbols_left_to_map` holds (once) every index that is neither done nor
      on the path, and possibly `from_index` itself. */
  ghost predicate Pending(n: nat, left: seq<nat>, done: set<nat>, path: seq<nat>)
    requires |path| > 0
  {
    && Unique(left)
    && forall x: nat :: x != path[|path| - 1] ==> (x in left <==> x < n && x !in done && x !in path)
  }

  /** Every line symbol has a node. */
  ghost predicate HasSyms(p: Perm, n: nat)
  {
    n <= 10 && forall x :: 0 <= x < n ==> Sym(x) in p.next
  }

  lemma OverHasSyms(p: Perm, n: nat)
    requires n <= 10 && Over(p, n)
    ensures HasSyms(p, n)
  {
    forall x | 0 <= x < n
      ensures Sym(x) in p.next
    {
      assert Sym(x) in Chars(n);
    }
  }

  /** The permutation so far, on the done indices: their images. */
  ghost predicate MapsDone(f: seq<nat>, done: set<nat>, p: Perm)
    requires Bijection(f) && HasSyms(p, |f|) && Done(f, done)
  {
    forall x {:trigger p.next[Sym(x)]} :: x in done ==> p.next[Sym(x)] == Sym(f[x])
  }

  /** On the path: each index to the next, and the last back to the first. */
  ghost predicate MapsPath(n: nat, path: seq<nat>, p: Perm)
    requires HasSyms(p, n) && |path| > 0 && forall k :: 0 <= k < |path| ==> path[k] < n
  {
    && (forall k {:trigger p.next[Sym(path[k])]} :: 0 <= k < |path| - 1 ==> p.next[Sym(path[k])] == Sym(path[k + 1]))
    && p.next[Sym(path[|path| - 1])] == Sym(path[0])
  }

  /** Everything else is fixed. */
  ghost predicate MapsRest(n: nat, done: set<nat>, path: seq<nat>, p: Perm)
    requires HasSyms(p, n)
  {
    forall x :: 0 <= x < n && x !in done && x !in path ==> p.next[Sym(x)] == Sym(x)
  }

  /** The loop invariant of the builder, apart from the shape of `p`. */
  ghost predicate Inv(f: seq<nat>, left: seq<nat>, done: set<nat>, path: seq<nat>, p: Perm)
    requires Bijection(f)
  {
    && HasSyms(p, |f|) && Done(f, done) && Path(f, done, path)
    && Pending(|f|, left, done, path)
    && MapsDone(f, done, p) && MapsPath(|f|, path, p) && MapsRest(|f|, done, path, p)
  }

  /** When the image of the path's end is not left to map, it is the path's
      start: the cycle closes. */
  lemma Closes(f: seq<nat>, left: seq<nat>, done: set<nat>, path: seq<nat>)
    requires Bijection(f) && Done(f, done) && Path(f, done, path)
    requires Pending(|f|, left, done, path)
    requires f[path[|path| - 1]] !in left
    ensures f[path[|path| - 1]] == path[0]
  {
    var from := path[|path| - 1];
    var to := f[from];
    if to in done {
      assert false;
    }
    assert to in path;
    forall k | 0 < k < |path|
      ensures to != path[k]
    {
      assert path[k - 1] != from;
      assert f[path[k - 1]] == path[k];
    }
  }

  /** With nothing left to map, the permutation is the action. */
  lemma AllMapped(f: seq<nat>, done: set<nat>, path: seq<nat>, p: Perm)
    requires Bijection(f) && Inv(f, [], done, path, p)
    ensures forall x :: 0 <= x < |f| ==> p.next[Sym(x)] == Sym(f[x])
  {
    Closes(f, [], done, path);
    forall x | 0 <= x < |f|
      ensures p.next[Sym(x)] == Sym(f[x])
    {
      if x in done {
        assert p.next[Sym(x)] == Sym(f[x]);
      } else {
        assert x in path;
        var k :| 0 <= k < |path| && path[k] == x;
        if k < |path| - 1 {
          assert p.next[Sym(path[k])] == Sym(path[k + 1]);
          assert f[path[k]] == path[k + 1];
        } else {
          assert p.next[Sym(path[|path| - 1])] == Sym(path[0]);
        }
      }
    }
  }

  /** The swap step on the path: `to` is new, and extends the path. */
  lemma SwapPath(f: seq<nat>, left: seq<nat>, done: set<nat>, path: seq<nat>, to: nat)
    requires Bijection(f) && Done(f, done) && Path(f, done, path)
    requires Pending(|f|, left, done, path)
    requires path[|path| - 1] !in left && to == f[path[|path| - 1]] && to in left
    ensures to != path[|path| - 1] && to !in done && to !in path
    ensures Path(f, done, path + [to]) && Pending(|f|, left, done, path + [to])
  {
    var path' := path + [to];
    forall i, j | 0 <= i < j < |path'|
      ensures path'[i] != path'[j]
    {
      if j < |path| {
        assert path'[i] == path[i] && path'[j] == path[j];
      }
    }
    forall k | 0 <= k < |path'| - 1
      ensures f[path'[k]] == path'[k + 1]
    {
      if k < |path| - 1 {
        assert f[path[k]] == path[k + 1];
      }
    }
    forall x: nat | x != to
      ensures x in left <==> x < |f| && x !in done && x !in path'
    {
      assert x in path' <==> x in path;
    }
  }

  /** The swap step on the links: `from` now reaches `to`, and `to` closes the path. */
  lemma SwapMaps(f: seq<nat>, done: set<nat>, path: seq<nat>, p: Perm, to: nat, q: Perm)
    requires Bijection(f) && HasSyms(p, |f|) && HasSyms(q, |f|)
    requires Done(f, done) && Path(f, done, path)
    requires MapsDone(f, done, p) && MapsPath(|f|, path, p) && MapsRest(|f|, done, path, p)
    requires to < |f| && to !in done && to !in path
    requires q.next[Sym(path[|path| - 1])] == p.next[Sym(to)] && q.next[Sym(to)] == p.next[Sym(path[|path| - 1])]
    requires forall x :: 0 <= x < |f| && x != path[|path| - 1] && x != to ==> q.next[Sym(x)] == p.next[Sym(x)]
    ensures MapsDone(f, done, q) && MapsPath(|f|, path + [to], q) && MapsRest(|f|, done, path + [to], q)
  {
    var path' := path + [to];
    forall x | x in done
      ensures q.next[Sym(x)] == Sym(f[x])
    {
      assert q.next[Sym(x)] == p.next[Sym(x)];
    }
    forall k | 0 <= k < |path'| - 1
      ensures q.next[Sym(path'[k])] == Sym(path'[k + 1])
    {
      if k < |path| - 1 {
        assert q.next[Sym(path[k])] == p.next[Sym(path[k])];
      }
    }
    assert q.next[Sym(path'[|path'| - 1])] == Sym(path'[0]);
    forall x | 0 <= x < |f| && x !in done && x !in path'
      ensures q.next[Sym(x)] == Sym(x)
    {
      assert q.next[Sym(x)] == p.next[Sym(x)];
    }
  }

  /** The swap step: the image `to` of the path's end is still to be mapped,
      so the path grows by `to` and the permutation is composed with the
      transposition of the two. */
  lemma SwapKeeps(f: seq<nat>, left: seq<nat>, done: set<nat>, path: seq<nat>, p: Perm)
    requires Bijection(f) && |f| <= 10 && Over(p, |f|) && Inv(f, left, done, path, p)
    requires path[|path| - 1] !in left && f[path[|path| - 1]] in left
    ensures var from, to := path[|path| - 1], f[path[|path| - 1]];
      && to != from
      && Inv(f, left, done, path + [to], Transposed(p, from, to, |f|))
  {
    var n, from := |f|, path[|path| - 1];
    var to := f[from];
    SwapPath(f, left, done, path, to);
    var q := Transposed(p, from, to, n);
    TransposedAt(p, from, to, n);
    SwapMaps(f, done, path, p, to, q);
    assert Done(f, done) && Path(f, done, path + [to]) && Pending(n, left, done, path + [to]);
  }

  /** `Transposed` on the line symbols: every other symbol keeps its image. */
  lemma TransposedAt(p: Perm, i: nat, j: nat, n: nat)
    requires n <= 10 && i < n && j < n && i != j && Over(p, n)
    ensures var q := Transposed(p, i, j, n);
      && HasSyms(q, n)
      && q.next[Sym(i)] == p.next[Sym(j)] && q.next[Sym(j)] == p.next[Sym(i)]
      && forall x :: 0 <= x < n && x != i && x != j ==> q.next[Sym(x)] == p.next[Sym(x)]
  {
    var q := Transposed(p, i, j, n);
    OverHasSyms(q, n);
    forall x | 0 <= x < n && x != i && x != j
      ensures q.next[Sym(x)] == p.next[Sym(x)]
    {
      assert Sym(x) in q.dict by {
        assert Sym(x) in Chars(n);
      }
    }
  }

  /** Dropping `from_index` from the indices left to map keeps the invariant. */
  lemma RemoveKeepsInv(f: seq<nat>, left: seq<nat>, done: set<nat>, path: seq<nat>, p: Perm)
    requires Bijection(f) && Inv(f, left, done, path, p) && path[|path| - 1] in left
    ensures Inv(f, Remove(left, path[|path| - 1]), done, path, p)
    ensures path[|path| - 1] !in Remove(left, path[|path| - 1])
  {
    RemoveUnique(left, path[|path| - 1]);
  }

  /** `done` with the indices of the path added. */
  function WithPath(done: set<nat>, path: seq<nat>): set<nat>
  {
    done + set y | y in path
  }

  /** The indices of a closed cycle join the done ones. */
  lemma PopDone(f: seq<nat>, left: seq<nat>, done: set<nat>, path: seq<nat>, p: Perm)
    requires Bijection(f) && Inv(f, left, done, path, p)
    requires f[path[|path| - 1]] !in left
    ensures var done' := WithPath(done, path);
      Done(f, done') && MapsDone(f, done', p)
  {
    var from := path[|path| - 1];
    var done' := WithPath(done, path);
    Closes(f, left, done, path);
    forall y | y in done'
      ensures y < |f| && f[y] in done'
    {
      if y !in done {
        var k :| 0 <= k < |path| && path[k] == y;
        if k < |path| - 1 {
          assert f[path[k]] == path[k + 1];
        }
      }
    }
    forall y | 0 <= y < |f| && f[y] in done'
      ensures y in done'
    {
      if f[y] !in done {
        var k :| 0 <= k < |path| && path[k] == f[y];
        if k > 0 {
          assert f[path[k - 1]] == path[k];
        }
      }
    }
    forall y | y in done'
      ensures p.next[Sym(y)] == Sym(f[y])
    {
      if y !in done {
        var k :| 0 <= k < |path| && path[k] == y;
        if k < |path| - 1 {
          assert p.next[Sym(path[k])] == Sym(path[k + 1]);
          assert f[path[k]] == path[k + 1];
        }
      }
    }
  }

  /** The last index left is neither done nor on the closed path. */
  lemma PopFresh(f: seq<nat>, left: seq<nat>, done: set<nat>, path: seq<nat>, p: Perm)
    requires Bijection(f) && Inv(f, left, done, path, p)
    requires left != [] && path[|path| - 1] !in left
    ensures var x := left[|left| - 1];
      x < |f| && x !in done && x !in path && x !in WithPath(done, path)
  {
    var x := left[|left| - 1];
    assert x in left;
  }

  /** What is left after the pop is what is pending for the new path. */
  lemma PopPending(f: seq<nat>, left: seq<nat>, done: set<nat>, path: seq<nat>, p: Perm, rest: seq<nat>)
    requires Bijection(f) && Inv(f, left, done, path, p)
    requires left != [] && path[|path| - 1] !in left && rest == left[..|left| - 1]
    ensures Pending(|f|, rest, WithPath(done, path), [left[|left| - 1]])
  {
    var done', x := WithPath(done, path), left[|left| - 1];
    assert left == rest + [x];
    forall i, j | 0 <= i < j < |rest|
      ensures rest[i] != rest[j]
    {
      assert rest[i] == left[i] && rest[j] == left[j];
    }
    forall y: nat | y != x
      ensures y in rest <==> y < |f| && y !in done' && y !in [x]
    {
      assert y in rest <==> y in left;
    }
  }

  /** After a closed cycle, the last index left opens the next path. */
  lemma PopRest(f: seq<nat>, left: seq<nat>, done: set<nat>, path: seq<nat>, p: Perm, rest: seq<nat>)
    requires Bijection(f) && Inv(f, left, done, path, p)
    requires left != [] && path[|path| - 1] !in left && rest == left[..|left| - 1]
    ensures var done', x := WithPath(done, path), left[|left| - 1];
      && Path(f, done', [x]) && Pending(|f|, rest, done', [x])
      && MapsPath(|f|, [x], p) && MapsRest(|f|, done', [x], p)
  {
    var done', x := WithPath(done, path), left[|left| - 1];
    PopFresh(f, left, done, path, p);
    PopPending(f, left, done, path, p, rest);
    assert p.next[Sym(x)] == Sym(x);
    forall y | 0 <= y < |f| && y !in done' && y !in [x]
      ensures p.next[Sym(y)] == Sym(y)
    {
      assert y !in done && y !in path;
    }
  }

  /** The pop step: the cycle is closed, and a new path starts at the last
      index left. */
  lemma PopKeeps(f: seq<nat>, left: seq<nat>, done: set<nat>, path: seq<nat>, p: Perm)
    requires Bijection(f) && Inv(f, left, done, path, p)
    requires left != [] && path[|path| - 1] !in left && f[path[|path| - 1]] !in left
    ensures Inv(f, left[..|left| - 1], WithPath(done, path), [left[|left| - 1]], p)
  {
    PopDone(f, left, done, path, p);
    PopRest(f, left, done, path, p, left[..|left| - 1]);
  }

  /** `symbols_left_to_map` after the first pop: the indices `n-1` down to `1`. */
  lemma CountdownRest(n: nat, left: seq<nat>)
    requires 0 < n && left == Countdown(n)[..n - 1]
    ensures Unique(left)
    ensures forall y :: y in left <==> 0 < y < n
  {
    forall y
      ensures y in left <==> 0 < y < n
    {
      if 0 < y < n {
        assert left[n - 1 - y] == y;
      }
      if y in left {
        var k :| 0 <= k < |left| && left[k] == y;
        assert left[k] == n - 1 - k;
      }
    }
  }

  /** The state the builder starts from: nothing done, the path `[0]`, and
      the identity permutation. */
  lemma Initial(f: seq<nat>, p: Perm)
    requires Bijection(f) && 0 < |f| <= 10 && HasSyms(p, |f|)
    requires forall x :: 0 <= x < |f| ==> p.next[Sym(x)] == Sym(x)
    ensures Inv(f, Countdown(|f|)[..|f| - 1], {}, [0], p)
  {
    var n := |f|;
    var left := Countdown(n)[..n - 1];
    CountdownRest(n, left);
    forall y: nat | y != 0
      ensures y in left <==> y < n && y !in {} && y !in [0]
    {
      assert y !in [0];
    }
    assert Pending(n, left, {}, [0]);
    assert Path(f, {}, [0]);
    assert MapsPath(n, [0], p);
  }

  // ---------------------------------------------------------------------------
  // The builder computes the action

  /** The remove step: `from_index` is dropped from the indices left to map. */
  lemma RemoveStep(m: Mat, lines: seq<Vec>, left: seq<nat>, from: nat, p: Perm)
    requires |lines| <= 10 && from < |lines| && Over(p, |lines|)
    requires forall x :: x in left ==> x < |lines|
    requires from in left
    ensures && (forall x :: x in Remove<nat>(left, from) ==> x < |lines|)
            && Walk(m, lines, left, from, p) == Walk(m, lines, Remove<nat>(left, from), from, p)
  {
    RemoveCounts(left, from);
  }

  /** A state of the builder loop that satisfies the invariant. */
  ghost predicate WalkState(m: Mat, lines: seq<Vec>, left: seq<nat>, from: nat, p: Perm,
                            done: set<nat>, path: seq<nat>)
  {
    && Permutes(m, lines) && from < |lines| && Over(p, |lines|)
    && (forall x :: x in left ==> x < |lines|)
    && Inv(Action(m, lines), left, done, path, p) && path[|path| - 1] == from
  }

  /** The remove step keeps the invariant. */
  lemma RemoveCase(m: Mat, lines: seq<Vec>, left: seq<nat>, from: nat, p: Perm, done: set<nat>, path: seq<nat>)
    requires WalkState(m, lines, left, from, p, done, path) && from in left
    ensures WalkState(m, lines, Remove<nat>(left, from), from, p, done, path)
    ensures Walk(m, lines, left, from, p) == Walk(m, lines, Remove<nat>(left, from), from, p)
    ensures from !in Remove<nat>(left, from)
  {
    RemoveKeepsInv(Action(m, lines), left, done, path, p);
    RemoveStep(m, lines, left, from, p);
  }

  /** The swap step keeps the invariant. */
  lemma SwapCase(m: Mat, lines: seq<Vec>, left: seq<nat>, from: nat, p: Perm, done: set<nat>, path: seq<nat>)
    requires WalkState(m, lines, left, from, p, done, path) && left != [] && from !in left
    requires Action(m, lines)[from] in left
    ensures var to := Action(m, lines)[from];
      && to != from
      && WalkState(m, lines, left, to, Transposed(p, from, to, |lines|), done, path + [to])
      && Walk(m, lines, left, from, p) == Walk(m, lines, left, to, Transposed(p, from, to, |lines|))
  {
    var f := Action(m, lines);
    var to := f[from];
    assert FirstLine(Apply(m, lines[from]), lines, 0) == Some(to);
    SwapStep(m, lines, left, from, p, to);
    SwapKeeps(f, left, done, path, p);
  }

  /** The pop step keeps the invariant. */
  lemma PopCase(m: Mat, lines: seq<Vec>, left: seq<nat>, from: nat, p: Perm, done: set<nat>, path: seq<nat>)
    requires WalkState(m, lines, left, from, p, done, path) && left != [] && from !in left
    requires Action(m, lines)[from] !in left
    ensures WalkState(m, lines, left[..|left| - 1], left[|left| - 1], p, WithPath(done, path), [left[|left| - 1]])
    ensures Walk(m, lines, left, from, p) == Walk(m, lines, left[..|left| - 1], left[|left| - 1], p)
  {
    var f := Action(m, lines);
    var to := f[from];
    assert FirstLine(Apply(m, lines[from]), lines, 0) == Some(to);
    PopStep(m, lines, left, from, p, to, left[..|left| - 1]);
    PopKeeps(f, left, done, path, p);
  }

  /** From any state satisfying the invariant, the rest of the loop ends
      without an error, with every line symbol sent to the symbol of its image. */
  lemma {:induction false} WalkMaps(m: Mat, lines: seq<Vec>, left: seq<nat>, from: nat, p: Perm,
                                    done: set<nat>, path: seq<nat>)
    requires WalkState(m, lines, left, from, p, done, path)
    ensures var r := Walk(m, lines, left, from, p);
      r.Ok? && forall x :: 0 <= x < |lines| ==> r.value.next[Sym(x)] == Sym(Action(m, lines)[x])
    decreases 2 * |left| + (if from in left then 0 else 1)
  {
    if left == [] {
      AllMapped(Action(m, lines), done, path, p);
    } else if from in left {
      RemoveCase(m, lines, left, from, p, done, path);
      WalkMaps(m, lines, Remove<nat>(left, from), from, p, done, path);
    } else if Action(m, lines)[from] in left {
      SwapCase(m, lines, left, from, p, done, path);
      var to := Action(m, lines)[from];
      WalkMaps(m, lines, left, to, Transposed(p, from, to, |lines|), done, path + [to]);
    } else {
      PopCase(m, lines, left, from, p, done, path);
      WalkMaps(m, lines, left[..|left| - 1], left[|left| - 1], p, WithPath(done, path), [left[|left| - 1]]);
    }
  }

  /** The mapping theorem: when the matrix permutes the lines,
      `matrix_to_permutation` succeeds, and its permutation of the symbols
      "0", "1", ... sends the symbol of line `i` to the symbol of the line
      that line `i` is carried to. */
  lemma MatrixToPermutationMaps(m: Mat, lines: seq<Vec>)
    requires Permutes(m, lines)
    ensures var r := MatrixToPermutationSpec(m, lines);
      && r.Ok? && Over(r.value, |lines|)
      && forall i :: 0 <= i < |lines| ==> r.value.next[Sym(i)] == Sym(Action(m, lines)[i])
  {
    var n, f := |lines|, Action(m, lines);
    IdentityStart(n);
    CharsMembers(n);
    ParseIdentity(Chars(n));
    var p := ParseSpec("I", Chars(n)).value;
    OverHasSyms(p, n);
    forall x | 0 <= x < n
      ensures p.next[Sym(x)] == Sym(x)
    {
      assert Sym(x) in Chars(n);
    }
    Initial(f, p);
    var left := Countdown(n)[..n - 1];
    CountdownRest(n, left);
    assert WalkState(m, lines, left, 0, p, {}, [0]);
    WalkMaps(m, lines, left, 0, p, {}, [0]);
  }
}
