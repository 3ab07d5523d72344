/** The text form of `FiniteField` elements in onefile.py: the string
    parser of `__init__` and the renderer `__unicode__`. */
module FieldText {
  import opened Wrappers
  import opened FieldPoly

  // ---------------------------------------------------------------------------
  // The Python string builtins the parser and renderer use

  /** `s.replace(" ", "")`. */
  function RemoveSpaces(s: string): (r: string)
    ensures ' ' !in r
    ensures ' ' !in s ==> r == s
  {
    if s == [] then []
    else (if s[0] == ' ' then [] else [s[0]]) + RemoveSpaces(s[1..])
  }

  lemma {:induction false} RemoveSpacesAppend(s: string, t: string)
    ensures RemoveSpaces(s + t) == RemoveSpaces(s) + RemoveSpaces(t)
    decreases |s|
  {
    if s == [] {
      assert s + t == t;
    } else {
      var u := s + t;
      assert u != [] && u[0] == s[0] && u[1..] == s[1..] + t;
      RemoveSpacesAppend(s[1..], t);
    }
  }

  /** Whether `sep` occurs in `s` at position `i`. */
  predicate OccursAt(s: string, sep: string, i: nat)
  {
    i + |sep| <= |s| && s[i..i + |sep|] == sep
  }

  /** `s.split(sep)`: the pieces between the non-overlapping occurrences of
      `sep`, found from the left. */
  function SplitOn(s: string, sep: string): (r: seq<string>)
    requires |sep| > 0
    ensures |r| >= 1
    decreases |s|
  {
    if |s| < |sep| then [s]
    else if s[..|sep|] == sep then [""] + SplitOn(s[|sep|..], sep)
    else
      var rest := SplitOn(s[1..], sep);
      [[s[0]] + rest[0]] + rest[1..]
  }

  /** With no occurrence of the separator, `split` returns the string whole. */
  lemma {:induction false} SplitNone(s: string, sep: string)
    requires |sep| > 0 && forall i: nat :: !OccursAt(s, sep, i)
    ensures SplitOn(s, sep) == [s]
    decreases |s|
  {
    if |s| >= |sep| {
      assert !OccursAt(s, sep, 0);
      forall i: nat
        ensures !OccursAt(s[1..], sep, i)
      {
        assert !OccursAt(s, sep, i + 1);
        if i + |sep| <= |s[1..]| {
          assert s[1..][i..i + |sep|] == s[i + 1..i + 1 + |sep|];
        }
      }
      SplitNone(s[1..], sep);
      assert s[..|sep|] != sep;
      assert [s[0]] + s[1..] == s;
    }
  }

  /** A character the separator contains but the string does not rules out
      every occurrence. */
  lemma NoOccurrence(s: string, sep: string, k: nat)
    requires k < |sep| && sep[k] !in s
    ensures forall i: nat :: !OccursAt(s, sep, i)
  {
    forall i: nat
      ensures !OccursAt(s, sep, i)
    {
      if i + |sep| <= |s| {
        assert s[i..i + |sep|][k] == s[i + k] != sep[k];
      }
    }
  }

  /** A piece free of the separator's first character is split off whole. */
  lemma {:induction false} SplitCons(u: string, v: string, sep: string)
    requires |sep| > 0 && sep[0] !in u
    ensures SplitOn(u + sep + v, sep) == [u] + SplitOn(v, sep)
    decreases |u|
  {
    var s := u + sep + v;
    if u == [] {
      assert s == sep + v && s[..|sep|] == sep && s[|sep|..] == v;
    } else {
      assert s[0] == u[0] && s[..|sep|][0] != sep[0];
      assert s[1..] == u[1..] + sep + v;
      SplitCons(u[1..], v, sep);
      assert [u[0]] + u[1..] == u;
    }
  }

  /** `filter(None, pieces)`: the nonempty pieces. */
  function DropEmpty(pieces: seq<string>): (r: seq<string>)
    ensures |r| <= |pieces|
  {
    if pieces == [] then []
    else (if pieces[0] == "" then [] else [pieces[0]]) + DropEmpty(pieces[1..])
  }

  /** `sep.join(ts)`. */
  function Join(sep: string, ts: seq<string>): string
  {
    if ts == [] then ""
    else if |ts| == 1 then ts[0]
    else ts[0] + sep + Join(sep, ts[1..])
  }

  /** `reversed(ts)`. */
  function Reverse<T>(ts: seq<T>): (r: seq<T>)
    ensures |r| == |ts|
  {
    if ts == [] then [] else [ts[|ts| - 1]] + Reverse(ts[..|ts| - 1])
  }

  lemma {:induction false} ReverseAppend<T>(xs: seq<T>, ys: seq<T>)
    ensures Reverse(xs + ys) == Reverse(ys) + Reverse(xs)
    decreases |ys|
  {
    if ys == [] {
      assert xs + ys == xs;
    } else {
      var zs := xs + ys;
      assert zs[..|zs| - 1] == xs + ys[..|ys| - 1];
      ReverseAppend(xs, ys[..|ys| - 1]);
    }
  }

  // ---------------------------------------------------------------------------
  // int() and str() on decimal numbers

  predicate IsDigit(c: char)
  {
    '0' <= c <= '9'
  }

  predicate AllDigits(s: string)
  {
    forall k :: 0 <= k < |s| ==> IsDigit(s[k])
  }

  /** The whitespace `int()` ignores around its argument. */
  predicate IsSpace(c: char)
  {
    c == ' ' || c == '\t' || c == '\n' || c == '\r' || c == 11 as char || c == 12 as char
  }

  function StripLeft(s: string): string
  {
    if s != [] && IsSpace(s[0]) then StripLeft(s[1..]) else s
  }

  function StripRight(s: string): string
  {
    if s != [] && IsSpace(s[|s| - 1]) then StripRight(s[..|s| - 1]) else s
  }

  /** The value of a string of decimal digits. */
  function DigitsValue(s: string): nat
    requires AllDigits(s)
  {
    if s == [] then 0 else DigitsValue(s[..|s| - 1]) * 10 + (s[|s| - 1] as int - '0' as int)
  }

  /** `int(s)`: surrounding whitespace, an optional sign, whitespace again
      after the sign (Python 2 skips it there too), then one or more decimal
      digits; anything else is a ValueError. */
  function ParseInt(s: string): (r: Result<int>)
    ensures r.Err? ==> r.error.ValueError?
  {
    var t := StripRight(StripLeft(s));
    var signed := |t| > 0 && (t[0] == '-' || t[0] == '+');
    var digits := if signed then StripLeft(t[1..]) else t;
    if digits == [] || !AllDigits(digits) then Err(ValueError("invalid literal for int()"))
    else if signed && t[0] == '-' then Ok(-(DigitsValue(digits) as int))
    else Ok(DigitsValue(digits))
  }

  function Digit(d: nat): (c: char)
    requires d < 10
    ensures IsDigit(c)
  {
    ('0' as int + d) as char
  }

  /** `str(n)` for a natural number. */
  function NatStr(n: nat): (s: string)
    ensures |s| > 0 && AllDigits(s)
  {
    if n < 10 then [Digit(n)] else NatStr(n / 10) + [Digit(n % 10)]
  }

  lemma {:induction false} NatStrValue(n: nat)
    ensures DigitsValue(NatStr(n)) == n
  {
    if n >= 10 {
      var s := NatStr(n);
      assert s[..|s| - 1] == NatStr(n / 10);
      NatStrValue(n / 10);
    }
  }

  /** `int(str(n)) == n`. */
  lemma NatStrParses(n: nat)
    ensures ParseInt(NatStr(n)) == Ok(n)
  {
    var s := NatStr(n);
    assert StripLeft(s) == s;
    assert StripRight(s) == s;
    NatStrValue(n);
  }

  /** Whitespace between the sign and the digits is skipped: `int("-\t2")`
      is -2. */
  lemma SignThenSpace()
    ensures ParseInt("-\t2") == Ok(-2)
  {
    var t := StripRight(StripLeft("-\t2"));
    assert StripLeft("-\t2") == "-\t2";
    assert StripRight("-\t2") == "-\t2";
    assert StripLeft(t[1..]) == "2";
    assert DigitsValue("2") == DigitsValue("") * 10 + 2;
  }

  /** Only zero is written "0". */
  lemma NatStrZero(n: nat)
    requires NatStr(n) == "0"
    ensures n == 0
  {
    NatStrValue(n);
    assert DigitsValue("0") == 0 by {
      assert "0"[..0] == [];
    }
  }

  // ---------------------------------------------------------------------------
  // __unicode__

  /** The text of one nonzero term: the coefficient unless it is 1 on a
      non-constant term, then `x` unless the power is 0, then `^power` when
      the power exceeds 1. */
  function TermText(coef: nat, power: nat): string
  {
    (if coef != 1 || power == 0 then NatStr(coef) else "")
    + (if power != 0 then "x" else "")
    + (if power > 1 then "^" + NatStr(power) else "")
  }

  /** The terms written for powers `n - 1` down to 0, skipping zero
      coefficients. */
  function RenderTerms(a: Poly, n: nat): (ts: seq<string>)
    requires n <= |a|
    ensures |ts| <= n
  {
    if n == 0 then []
    else (if a[n - 1] != 0 then [TermText(a[n - 1], n - 1)] else []) + RenderTerms(a, n - 1)
  }

  /** `__unicode__`: the terms from the highest power down joined by " + ",
      or "0" when every coefficient is zero. */
  function RenderSpec(a: Poly): string
  {
    var ts := RenderTerms(a, |a|);
    if ts == [] then "0" else Join(" + ", ts)
  }

  /** Writing the term of power `power`, if any, moves it from the terms
      still to write to the terms written. */
  lemma RenderStep(a: Poly, power: nat, written: seq<string>)
    requires power < |a|
    ensures a[power] != 0 ==>
      written + [TermText(a[power], power)] + RenderTerms(a, power) == written + RenderTerms(a, power + 1)
    ensures a[power] == 0 ==> written + RenderTerms(a, power) == written + RenderTerms(a, power + 1)
  {
    var top := if a[power] != 0 then [TermText(a[power], power)] else [];
    assert RenderTerms(a, power + 1) == top + RenderTerms(a, power);
    assert written + top + RenderTerms(a, power) == written + (top + RenderTerms(a, power));
  }

  /** `__unicode__`, as the loop over `reversed(list(enumerate(...)))`. */
  method Render(a: Poly) returns (s: string)
    ensures s == RenderSpec(a)
  {
    var written: seq<string> := [];
    var power := |a|;
    while power > 0
      invariant 0 <= power <= |a|
      invariant written + RenderTerms(a, power) == RenderTerms(a, |a|)
    {
      power := power - 1;
      var coef := a[power];
      RenderStep(a, power, written);
      if coef != 0 {
        written := written + [TermText(coef, power)];
      }
    }
    assert written + [] == written;
    if written == [] {
      return "0";
    }
    return Join(" + ", written);
  }

  // ---------------------------------------------------------------------------
  // __init__(string)

  /** The coefficients read so far and `degree`, the power of the last
      term read (-1 before the first). */
  datatype ParseState = ParseState(coefs: Poly, degree: int)

  /** One term: its coefficient and its power. A term with `x^` between two
      nonempty parts is coefficient and power; otherwise a term without `x`
      is a constant, a term with `x` but no `^` has power 1 and the text
      before the `x` as coefficient (none meaning 1, "-" meaning -1), and
      the remaining form `x^n` has coefficient 1. */
  function ParseTerm(term: string): (r: Result<(int, int)>)
    ensures r.Err? ==> r.error.ValueError?
  {
    var cp := DropEmpty(SplitOn(term, "x^"));
    if |cp| > 1 then
      match ParseInt(cp[0])
      case Err(e) => Err(e)
      case Ok(c) =>
        match ParseInt(cp[1])
        case Err(e) => Err(e)
        case Ok(q) => Ok((c, q))
    else if 'x' !in term then
      match ParseInt(term)
      case Err(e) => Err(e)
      case Ok(c) => Ok((c, 0))
    else if '^' !in term then
      var cs := term[..|term| - 1];
      if cs == "" then Ok((1, 1))
      else
        match ParseInt(if cs == "-" then "-1" else cs)
        case Err(e) => Err(e)
        case Ok(c) => Ok((c, 1))
    else
      match ParseInt(if |term| >= 2 then term[2..] else "")
      case Err(e) => Err(e)
      case Ok(q) => Ok((1, q))
  }

  function Zeros(n: nat): (z: Poly)
    ensures |z| == n && forall k :: 0 <= k < n ==> z[k] == 0
  {
    seq(n, _ => 0)
  }

  /** How many zeros the padding loop appends before a term of power `q`. */
  function Pad(degree: int, q: int): nat
  {
    if degree < q - 1 then q - 1 - degree else 0
  }

  /** One pass of the parser's loop for a term read as coefficient `c` and
      power `q`: pad with zeros up to the power, store `c` modulo p, and
      remember the power. */
  function Place(p: nat, st: ParseState, c: int, q: int): (r: ParseState)
    requires p > 0
    ensures |r.coefs| == |st.coefs| + Pad(st.degree, q) + 1 && r.degree == q
    ensures r.coefs[..|st.coefs|] == st.coefs && r.coefs[|r.coefs| - 1] == c % p < p
    ensures forall k :: |st.coefs| <= k < |r.coefs| - 1 ==> r.coefs[k] == 0
  {
    ParseState(st.coefs + Zeros(Pad(st.degree, q)) + [c % p], q)
  }

  /** The parser's loop over `terms`, each read by `read` into a
      coefficient and a power, stopping at the first term that fails. */
  function Fold(p: nat, read: string -> Result<(int, int)>, st: ParseState, terms: seq<string>): (r: Result<ParseState>)
    requires p > 0
    ensures r.Ok? && Below(st.coefs, p) ==> Below(r.value.coefs, p)
    ensures r.Ok? && terms != [] ==> |r.value.coefs| > 0
    ensures r.Err? ==> exists k :: 0 <= k < |terms| && read(terms[k]) == Err(r.error)
    decreases |terms|
  {
    if terms == [] then Ok(st)
    else
      match read(terms[0])
      case Err(e) => Err(e)
      case Ok(cq) => Fold(p, read, Place(p, st, cq.0, cq.1), terms[1..])
  }

  /** `FiniteField(string).coefficients`: "0" (spaces aside) is `[0]`;
      otherwise the `+`-separated terms are read from last to first. Every
      stored coefficient is reduced mod p, and the list is not trimmed. */
  function ParseSpec(p: nat, s: string): (r: Result<Poly>)
    requires p > 0
    ensures r.Ok? ==> |r.value| > 0 && Below(r.value, p)
    ensures r.Err? ==> r.error.ValueError?
  {
    var compact := RemoveSpaces(s);
    if compact == "0" then Ok([0])
    else
      match Fold(p, ParseTerm, ParseState([], -1), Reverse(SplitOn(compact, "+")))
      case Err(e) => Err(e)
      case Ok(st) => Ok(st.coefs)
  }

  lemma ReversePrefix<T>(ts: seq<T>, i: nat)
    requires i < |ts|
    ensures Reverse(ts[..i + 1]) == [ts[i]] + Reverse(ts[..i])
  {
    assert ts[..i + 1][..i] == ts[..i];
  }

  /** One pass of the loop, then the rest. */
  lemma FoldCons(p: nat, read: string -> Result<(int, int)>, st: ParseState, term: string, rest: seq<string>)
    requires p > 0
    ensures read(term).Err? ==> Fold(p, read, st, [term] + rest) == Err(read(term).error)
    ensures read(term).Ok? ==>
      Fold(p, read, st, [term] + rest) == Fold(p, read, Place(p, st, read(term).value.0, read(term).value.1), rest)
  {
    assert ([term] + rest)[0] == term && ([term] + rest)[1..] == rest;
  }

  /** The body of the parser's loop for a term with coefficient `coef` and
      power `power`: the padding loop, then the coefficient. */
  method AddTerm(p: nat, coefs: Poly, degree: int, coef: int, power: int) returns (coefs': Poly, degree': int)
    requires p > 0
    ensures ParseState(coefs', degree') == Place(p, ParseState(coefs, degree), coef, power)
  {
    coefs', degree' := coefs, degree;
    while degree' < power - 1
      invariant coefs' + Zeros(Pad(degree', power)) == coefs + Zeros(Pad(degree, power))
      decreases power - 1 - degree'
    {
      assert [0] + Zeros(Pad(degree' + 1, power)) == Zeros(Pad(degree', power));
      coefs' := coefs' + [0];
      degree' := degree' + 1;
    }
    assert Zeros(Pad(degree', power)) == [] && coefs' == coefs + Zeros(Pad(degree, power));
    coefs' := coefs' + [coef % p];
    degree' := power;
  }

  /** `FiniteField.__init__(string)`, with its loop over the reversed terms
      and the padding loop inside it. */
  method Parse(p: nat, s: string) returns (r: Result<Poly>)
    requires p > 0
    ensures r == ParseSpec(p, s)
  {
    var compact := RemoveSpaces(s);
    if compact == "0" {
      return Ok([0]);
    }
    var terms := SplitOn(compact, "+");
    var coefs: Poly := [];
    var degree: int := -1;
    var i := |terms|;
    assert terms[..i] == terms;
    while i > 0
      invariant 0 <= i <= |terms|
      invariant Fold(p, ParseTerm, ParseState([], -1), Reverse(terms)) == Fold(p, ParseTerm, ParseState(coefs, degree), Reverse(terms[..i]))
    {
      i := i - 1;
      ReversePrefix(terms, i);
      FoldCons(p, ParseTerm, ParseState(coefs, degree), terms[i], Reverse(terms[..i]));
      var t := ParseTerm(terms[i]);
      if t.Err? {
        return Err(t.error);
      }
      coefs, degree := AddTerm(p, coefs, degree, t.value.0, t.value.1);
    }
    return Ok(coefs);
  }

  // ---------------------------------------------------------------------------
  // Reading back a rendering

  /** A constant term reads back. */
  lemma ConstantReads(c: nat)
    requires c >= 1
    ensures ParseTerm(TermText(c, 0)) == Ok((c, 0))
  {
    var term := TermText(c, 0);
    assert term == NatStr(c);
    NoOccurrence(term, "x^", 0);
    SplitNone(term, "x^");
    NatStrParses(c);
  }

  /** A term of power 1 reads back. */
  lemma LinearReads(c: nat)
    requires c >= 1
    ensures ParseTerm(TermText(c, 1)) == Ok((c, 1))
  {
    var term := TermText(c, 1);
    if c == 1 {
      assert term == "x";
    } else {
      assert term == NatStr(c) + "x";
      NoOccurrence(term, "x^", 1);
      SplitNone(term, "x^");
      assert term[..|term| - 1] == NatStr(c);
      NatStrParses(c);
    }
  }

  /** Splitting `u + "x^" + str(q)` at "x^" gives the two sides. */
  lemma PowerSplits(u: string, q: nat)
    requires 'x' !in u
    ensures SplitOn(u + "x^" + NatStr(q), "x^") == [u, NatStr(q)]
  {
    NoOccurrence(NatStr(q), "x^", 0);
    SplitNone(NatStr(q), "x^");
    SplitCons(u, NatStr(q), "x^");
  }

  /** A term `x^q` reads back with coefficient 1. */
  lemma MonicPowerReads(q: nat)
    requires q >= 2
    ensures ParseTerm(TermText(1, q)) == Ok((1, q))
  {
    var term := TermText(1, q);
    assert term == "" + "x^" + NatStr(q);
    PowerSplits("", q);
    assert DropEmpty(["", NatStr(q)]) == [NatStr(q)];
    assert 'x' in term && '^' in term by {
      assert term[0] == 'x' && term[1] == '^';
    }
    assert term[2..] == NatStr(q);
    NatStrParses(q);
  }

  /** A term `cx^q` with c other than 1 reads back. */
  lemma ScaledPowerReads(c: nat, q: nat)
    requires c >= 2 && q >= 2
    ensures ParseTerm(TermText(c, q)) == Ok((c, q))
  {
    var term := TermText(c, q);
    assert term == NatStr(c) + "x^" + NatStr(q);
    PowerSplits(NatStr(c), q);
    assert DropEmpty([NatStr(c), NatStr(q)]) == [NatStr(c), NatStr(q)];
    NatStrParses(c);
    NatStrParses(q);
  }

  /** Each rendered term reads back as its own coefficient and power. */
  lemma TermReads(c: nat, q: nat)
    requires c >= 1
    ensures ParseTerm(TermText(c, q)) == Ok((c, q))
  {
    if q == 0 {
      ConstantReads(c);
    } else if q == 1 {
      LinearReads(c);
    } else {
      if c == 1 {
        MonicPowerReads(q);
      } else {
        ScaledPowerReads(c, q);
      }
    }
  }

  /** No rendered term of a nonzero coefficient reads "0". */
  lemma TermNotZero(c: nat, q: nat)
    requires c >= 1
    ensures TermText(c, q) != "0"
  {
    if q == 0 {
      if NatStr(c) == "0" {
        NatStrZero(c);
      }
    } else {
      var pre := if c != 1 then NatStr(c) else "";
      var suf := if q > 1 then "^" + NatStr(q) else "";
      assert TermText(c, q) == pre + "x" + suf;
      assert (pre + "x" + suf)[|pre|] == 'x';
    }
  }

  /** Rendered terms hold only digits, `x` and `^`. */
  lemma TermChars(c: nat, q: nat)
    ensures Bare(TermText(c, q))
  {
    var s := TermText(c, q);
    forall k | 0 <= k < |s|
      ensures s[k] != ' ' && s[k] != '+'
    {
    }
  }

  /** A written term is neither empty nor holds a space or a plus sign. */
  predicate Bare(t: string)
  {
    t != "" && ' ' !in t && '+' !in t
  }

  /** Every written term is bare. */
  predicate AllBare(ts: seq<string>)
  {
    forall k :: 0 <= k < |ts| ==> Bare(ts[k])
  }

  lemma BareConcat(xs: seq<string>, ys: seq<string>)
    requires AllBare(xs) && AllBare(ys)
    ensures AllBare(xs + ys)
  {
    forall k | 0 <= k < |xs + ys|
      ensures Bare((xs + ys)[k])
    {
      if k >= |xs| {
        assert (xs + ys)[k] == ys[k - |xs|];
      }
    }
  }

  lemma {:induction false} TermsChars(a: Poly, n: nat)
    requires n <= |a|
    ensures AllBare(RenderTerms(a, n))
  {
    if n > 0 {
      TermsChars(a, n - 1);
      var top := if a[n - 1] != 0 then [TermText(a[n - 1], n - 1)] else [];
      TermChars(a[n - 1], n - 1);
      BareConcat(top, RenderTerms(a, n - 1));
    }
  }

  lemma {:induction false} JoinCompacts(ts: seq<string>)
    requires AllBare(ts)
    ensures RemoveSpaces(Join(" + ", ts)) == Join("+", ts)
    decreases |ts|
  {
    if |ts| > 1 {
      JoinCompacts(ts[1..]);
      RemoveSpacesAppend(ts[0] + " + ", Join(" + ", ts[1..]));
      RemoveSpacesAppend(ts[0], " + ");
      assert RemoveSpaces(" + ") == "+";
    }
  }

  /** Splitting a "+" join of pieces without "+" gives the pieces back. */
  lemma {:induction false} JoinSplits(ts: seq<string>)
    requires |ts| > 0 && AllBare(ts)
    ensures SplitOn(Join("+", ts), "+") == ts
    decreases |ts|
  {
    if |ts| == 1 {
      NoOccurrence(ts[0], "+", 0);
      SplitNone(ts[0], "+");
    } else {
      JoinSplits(ts[1..]);
      SplitCons(ts[0], Join("+", ts[1..]), "+");
    }
  }

  lemma {:induction false} FoldAppend(p: nat, read: string -> Result<(int, int)>, st: ParseState, xs: seq<string>, ys: seq<string>)
    requires p > 0
    ensures Fold(p, read, st, xs + ys) ==
      match Fold(p, read, st, xs) case Err(e) => Err(e) case Ok(st') => Fold(p, read, st', ys)
    decreases |xs|
  {
    if xs == [] {
      assert xs + ys == ys;
    } else {
      assert (xs + ys)[0] == xs[0] && (xs + ys)[1..] == xs[1..] + ys;
      match read(xs[0])
      case Err(e) =>
      case Ok(cq) => FoldAppend(p, read, Place(p, st, cq.0, cq.1), xs[1..], ys);
    }
  }

  /** The highest power below `n` with a nonzero coefficient, or -1. */
  function LastNonzero(a: Poly, n: nat): (l: int)
    requires n <= |a|
    ensures -1 <= l < n
    ensures l >= 0 ==> a[l] != 0
    ensures forall k :: l < k < n ==> a[k] == 0
    ensures l == -1 <==> RenderTerms(a, n) == []
  {
    if n == 0 then -1 else if a[n - 1] != 0 then n - 1 else LastNonzero(a, n - 1)
  }

  /** The zeros the parser pads with are the coefficients skipped by the
      rendering. */
  lemma PadFill(a: Poly, l0: int, q: nat)
    requires -1 <= l0 < q < |a|
    requires forall k :: l0 < k < q ==> a[k] == 0
    ensures a[..l0 + 1] + Zeros(q - 1 - l0) + [a[q]] == a[..q + 1]
  {
    var lhs := a[..l0 + 1] + Zeros(q - 1 - l0) + [a[q]];
    assert |lhs| == q + 1;
    forall k | 0 <= k <= q
      ensures lhs[k] == a[k]
    {
      if k <= l0 {
        assert lhs[k] == a[..l0 + 1][k];
      } else if k < q {
        assert lhs[k] == Zeros(q - 1 - l0)[k - l0 - 1];
      }
    }
  }

  /** Placing the next nonzero coefficient extends the coefficients read
      so far up to its power. */
  lemma PlaceExtends(p: nat, a: Poly, l0: int, q: nat)
    requires p >= 2 && Below(a, p) && -1 <= l0 < q < |a|
    requires forall k :: l0 < k < q ==> a[k] == 0
    ensures Place(p, ParseState(a[..l0 + 1], l0), a[q], q) == ParseState(a[..q + 1], q)
  {
    ModSmall(a[q], p);
    PadFill(a, l0, q);
  }

  /** A term reader that reads every rendered term back as its coefficient
      and power. */
  ghost predicate ReadsTerms(read: string -> Result<(int, int)>)
  {
    forall c: nat, q: nat {:trigger TermText(c, q)} :: c >= 1 ==> read(TermText(c, q)) == Ok((c, q))
  }

  /** The rendered terms of the powers from `lo` up to `hi - 1`, lowest
      power first: the order in which the parser reads them. */
  function Ascending(a: Poly, lo: nat, hi: nat): seq<string>
    requires lo <= hi <= |a|
    decreases hi - lo
  {
    if lo == hi then []
    else (if a[lo] != 0 then [TermText(a[lo], lo)] else []) + Ascending(a, lo + 1, hi)
  }

  lemma {:induction false} AscendingSnoc(a: Poly, lo: nat, hi: nat)
    requires lo < hi <= |a|
    ensures Ascending(a, lo, hi) == Ascending(a, lo, hi - 1) + (if a[hi - 1] != 0 then [TermText(a[hi - 1], hi - 1)] else [])
    decreases hi - lo
  {
    if lo < hi - 1 {
      AscendingSnoc(a, lo + 1, hi);
    }
  }

  /** Reversing the rendered terms puts them in reading order. */
  lemma {:induction false} RenderedAscending(a: Poly, n: nat)
    requires n <= |a|
    ensures Reverse(RenderTerms(a, n)) == Ascending(a, 0, n)
  {
    if n > 0 {
      var top := if a[n - 1] != 0 then [TermText(a[n - 1], n - 1)] else [];
      RenderedAscending(a, n - 1);
      ReverseAppend(top, RenderTerms(a, n - 1));
      AscendingSnoc(a, 0, n);
      assert Reverse(top) == top;
    }
  }

  /** A reader of rendered terms, applied to the rendering of coefficients
      below p. */
  ghost predicate Reading(p: nat, read: string -> Result<(int, int)>, a: Poly)
  {
    p >= 2 && Below(a, p) && ReadsTerms(read)
  }

  /** Reading the rendered terms of the powers `lo` to `hi - 1`, after the
      coefficients below `lo` have been read, rebuilds the coefficients up
      to the highest nonzero one below `hi`. */
  /** The parser state once the coefficients of the powers below `n` have
      been read: the coefficients up to the highest nonzero one. */
  function Before(a: Poly, n: nat): ParseState
    requires n <= |a|
  {
    var l := LastNonzero(a, n);
    ParseState(a[..l + 1], l)
  }

  ghost predicate ReadsUpTo(p: nat, read: string -> Result<(int, int)>, a: Poly, lo: nat, hi: nat)
    requires p > 0 && lo <= hi <= |a|
  {
    Fold(p, read, Before(a, lo), Ascending(a, lo, hi)) == Ok(Before(a, hi))
  }

  /** Reading the term of a nonzero coefficient moves the state up to its
      power. */
  lemma ReadNonzero(p: nat, read: string -> Result<(int, int)>, a: Poly, lo: nat, hi: nat)
    requires Reading(p, read, a) && lo < hi <= |a| && a[lo] != 0
    requires ReadsUpTo(p, read, a, lo + 1, hi)
    ensures ReadsUpTo(p, read, a, lo, hi)
  {
    var term := TermText(a[lo], lo);
    assert Ascending(a, lo, hi) == [term] + Ascending(a, lo + 1, hi);
    assert read(term) == Ok((a[lo], lo));
    FoldCons(p, read, Before(a, lo), term, Ascending(a, lo + 1, hi));
    PlaceBefore(p, a, lo);
  }

  lemma PlaceBefore(p: nat, a: Poly, lo: nat)
    requires p >= 2 && Below(a, p) && lo < |a| && a[lo] != 0
    ensures Place(p, Before(a, lo), a[lo], lo) == Before(a, lo + 1)
  {
    PlaceExtends(p, a, LastNonzero(a, lo), lo);
  }

  /** A zero coefficient has no term and moves nothing. */
  lemma ReadZero(p: nat, read: string -> Result<(int, int)>, a: Poly, lo: nat, hi: nat)
    requires p > 0 && lo < hi <= |a| && a[lo] == 0
    requires ReadsUpTo(p, read, a, lo + 1, hi)
    ensures ReadsUpTo(p, read, a, lo, hi)
  {
    assert Ascending(a, lo, hi) == Ascending(a, lo + 1, hi);
    assert Before(a, lo + 1) == Before(a, lo);
  }

  lemma {:induction false} TermsRead(p: nat, read: string -> Result<(int, int)>, a: Poly, lo: nat, hi: nat)
    requires Reading(p, read, a) && lo <= hi <= |a|
    ensures ReadsUpTo(p, read, a, lo, hi)
    decreases hi - lo
  {
    if lo < hi {
      TermsRead(p, read, a, lo + 1, hi);
      ReadStep(p, read, a, lo, hi);
    } else {
      ReadNone(p, read, a, lo);
    }
  }

  /** Reading no terms moves nothing. */
  lemma ReadNone(p: nat, read: string -> Result<(int, int)>, a: Poly, lo: nat)
    requires p > 0 && lo <= |a|
    ensures ReadsUpTo(p, read, a, lo, lo)
  {
  }

  /** Reading one more coefficient's term, zero or not. */
  lemma ReadStep(p: nat, read: string -> Result<(int, int)>, a: Poly, lo: nat, hi: nat)
    requires Reading(p, read, a) && lo < hi <= |a|
    requires ReadsUpTo(p, read, a, lo + 1, hi)
    ensures ReadsUpTo(p, read, a, lo, hi)
  {
    if a[lo] != 0 {
      ReadNonzero(p, read, a, lo, hi);
    } else {
      ReadZero(p, read, a, lo, hi);
    }
  }

  /** The "+" join of the rendered terms of a nonzero element is not the
      string "0" the parser treats specially. */
  lemma JoinNotZero(ts: seq<string>, c: nat, q: nat)
    requires |ts| > 0 && c >= 1 && ts[0] == TermText(c, q)
    requires AllBare(ts)
    ensures Join("+", ts) != "0"
  {
    if |ts| == 1 {
      TermNotZero(c, q);
    } else {
      var j := Join("+", ts);
      assert j == ts[0] + "+" + Join("+", ts[1..]);
      assert j[|ts[0]|] == '+';
    }
  }

  lemma ParseCompact(p: nat, s: string, ts: seq<string>, a: Poly, l: int)
    requires p > 0 && RemoveSpaces(s) != "0" && SplitOn(RemoveSpaces(s), "+") == ts
    requires Fold(p, ParseTerm, ParseState([], -1), Reverse(ts)) == Ok(ParseState(a, l))
    ensures ParseSpec(p, s) == Ok(a)
  {
  }

  /** Re-parsing the rendering of a canonical element gives back its
      coefficient list. */
  lemma RenderParse(p: nat, a: Poly)
    requires p >= 2 && Canonical(a, p)
    ensures ParseSpec(p, RenderSpec(a)) == Ok(a)
  {
    var ts := RenderTerms(a, |a|);
    var l := LastNonzero(a, |a|);
    if ts == [] {
      assert a == [0];
      assert RemoveSpaces("0") == "0";
    } else {
      assert l == |a| - 1;
      assert a[..l + 1] == a;
      assert ts[0] == TermText(a[l], l);
      TermsChars(a, |a|);
      JoinCompacts(ts);
      var compact := Join("+", ts);
      assert RemoveSpaces(RenderSpec(a)) == compact;
      JoinNotZero(ts, a[l], l);
      JoinSplits(ts);
      forall c: nat, q: nat | c >= 1
        ensures ParseTerm(TermText(c, q)) == Ok((c, q))
      {
        TermReads(c, q);
      }
      assert Reading(p, ParseTerm, a);
      TermsRead(p, ParseTerm, a, 0, |a|);
      RenderedAscending(a, |a|);
      ParseCompact(p, RenderSpec(a), ts, a, l);
    }
  }
}
