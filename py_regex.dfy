/*
 * The pieces of Python `re` patterns the two line grammars are made of.
 * Each atom reads a prefix of its input and returns what it matched (its
 * group) and the rest. All the atoms used between tokens are greedy runs
 * followed by a character outside the run's class, so the regular
 * expression engine never backtracks into them; the one pattern end that
 * does backtrack, `\s+(.+)`, is modelled on its own in ReaderGrammar.
 */
module PyRegex {
  import opened PyText

  /** `[k]{n}`: exactly n characters of class k. */
  function Repeat(k: CharClass, n: nat, s: string): (r: Option<(string, string)>)
    ensures r.Some? <==> n <= |s| && AllIn(s[..n], k)
    ensures r.Some? ==> r.value.0 + r.value.1 == s && |r.value.0| == n
  {
    if n <= |s| && AllIn(s[..n], k) then Some((s[..n], s[n..])) else None
  }

  /** A literal text. */
  function Lit(p: string, s: string): (r: Option<string>)
    ensures r.Some? <==> p <= s
    ensures r.Some? ==> p + r.value == s
  {
    if p <= s then Some(s[|p|..]) else None
  }

  /** `[k]+`, greedy. */
  function Plus(k: CharClass, s: string): (r: Option<(string, string)>)
    ensures r.Some? <==> s != [] && InClass(s[0], k)
    ensures r.Some? ==> r.value.0 + r.value.1 == s && r.value.0 != [] && AllIn(r.value.0, k)
                        && (r.value.1 == [] || !InClass(r.value.1[0], k))
  {
    var n := Span(k, s);
    if n == 0 then None
    else
      assert s[..n] + s[n..] == s;
      Some((s[..n], s[n..]))
  }

  /** `\s+` between two tokens: what follows the whitespace. */
  function Gap(s: string): (r: Option<string>)
    ensures r.Some? <==> s != [] && IsSpace(s[0])
    ensures r.Some? ==> |r.value| < |s| && r.value == s[|s| - |r.value|..]
                        && AllIn(s[..|s| - |r.value|], Space)
                        && (r.value == [] || !IsSpace(r.value[0]))
  {
    match Plus(Space, s)
    case None => None
    case Some(p) =>
      assert s[..|p.0|] == p.0 && s[|p.0|..] == p.1;
      Some(p.1)
  }

  /** `(Rx|Tx)`. */
  function Direction(s: string): (r: Option<(string, string)>)
    ensures r.Some? <==> "Rx" <= s || "Tx" <= s
    ensures r.Some? ==> (r.value.0 == "Rx" || r.value.0 == "Tx") && r.value.0 + r.value.1 == s
  {
    if "Rx" <= s then Some(("Rx", s[2..]))
    else if "Tx" <= s then Some(("Tx", s[2..]))
    else None
  }

  /** The text of `-?\d+`. */
  predicate IsSignedInt(t: string) {
    if t != [] && t[0] == '-' then t[1..] != [] && AllIn(t[1..], Digit)
    else t != [] && AllIn(t, Digit)
  }

  /** `-?\d+`, greedy. */
  function SignedInt(s: string): (r: Option<(string, string)>)
    ensures r.Some? ==> IsSignedInt(r.value.0) && r.value.0 + r.value.1 == s
                        && (r.value.1 == [] || !IsDigit(r.value.1[0]))
  {
    if s != [] && s[0] == '-' then
      var p :- Plus(Digit, s[1..]);
      MinusJoin(s, p.0, p.1);
      Some(("-" + p.0, p.1))
    else Plus(Digit, s)
  }

  /** The text of `\d+\.\d+`. */
  predicate IsPointDecimal(t: string) {
    var p := Span(Digit, t);
    0 < p && p + 1 < |t| && t[p] == '.' && AllIn(t[p + 1..], Digit)
  }

  /** `\d+\.\d+`, greedy. */
  function PointDecimal(s: string): (r: Option<(string, string)>)
    ensures r.Some? ==> IsPointDecimal(r.value.0) && r.value.0 + r.value.1 == s
                        && (r.value.1 == [] || !IsDigit(r.value.1[0]))
  {
    var whole :- Plus(Digit, s);
    var afterDot :- Lit(".", whole.1);
    var frac :- Plus(Digit, afterDot);
    PointDecimalJoin(s, whole.0, whole.1, afterDot, frac.0, frac.1);
    Some((whole.0 + "." + frac.0, frac.1))
  }

  lemma PointDecimalJoin(s: string, whole: string, afterWhole: string, afterDot: string,
                         frac: string, rest: string)
    requires whole != [] && AllIn(whole, Digit) && whole + afterWhole == s
    requires "." + afterDot == afterWhole
    requires frac != [] && AllIn(frac, Digit) && frac + rest == afterDot
    ensures IsPointDecimal(whole + "." + frac) && (whole + "." + frac) + rest == s
  {
    PointDecimalShape(whole, frac);
    assert (whole + "." + frac) + rest == whole + ("." + (frac + rest));
  }

  /** A minus sign in front of the rest of the match. */
  lemma MinusJoin(s: string, t: string, rest: string)
    requires s != [] && s[0] == '-' && t + rest == s[1..]
    ensures ("-" + t)[0] == '-' && ("-" + t)[1..] == t && ("-" + t) + rest == s
  {
    assert ("-" + t)[1..] == t;
    assert s == [s[0]] + s[1..];
  }

  /** Two digit runs around a dot make the text of `\d+\.\d+`. */
  lemma PointDecimalShape(whole: string, frac: string)
    requires whole != [] && AllIn(whole, Digit)
    requires frac != [] && AllIn(frac, Digit)
    ensures IsPointDecimal(whole + "." + frac)
  {
    var t := whole + "." + frac;
    assert forall i :: 0 <= i < |whole| ==> t[i] == whole[i];
    assert t[|whole|] == '.';
    SpanUnique(Digit, t, |whole|);
    assert t[|whole| + 1..] == frac;
  }

  /** The text of `-?\d+\.\d+`. */
  predicate IsSignedPointDecimal(t: string) {
    if t != [] && t[0] == '-' then IsPointDecimal(t[1..]) else IsPointDecimal(t)
  }

  /** `-?\d+\.\d+`, greedy. */
  function SignedPointDecimal(s: string): (r: Option<(string, string)>)
    ensures r.Some? ==> IsSignedPointDecimal(r.value.0) && r.value.0 + r.value.1 == s
                        && (r.value.1 == [] || !IsDigit(r.value.1[0]))
  {
    if s != [] && s[0] == '-' then
      var p :- PointDecimal(s[1..]);
      MinusJoin(s, p.0, p.1);
      Some(("-" + p.0, p.1))
    else PointDecimal(s)
  }

  /** `.*`: everything up to the first line feed. */
  function DotStar(s: string): (r: string)
    ensures r <= s && AllIn(r, NonNewline)
    ensures |r| == |s| || s[|r|] == '\n'
  {
    s[..Span(NonNewline, s)]
  }

  // ---- each atom reads back exactly the text it is given ----

  lemma RepeatOn(k: CharClass, a: string, b: string)
    requires AllIn(a, k)
    ensures Repeat(k, |a|, a + b) == Some((a, b))
  {
    assert (a + b)[..|a|] == a && (a + b)[|a|..] == b;
  }

  lemma LitOn(p: string, b: string)
    ensures Lit(p, p + b) == Some(b)
  {
    assert (p + b)[|p|..] == b;
  }

  lemma PlusOn(k: CharClass, a: string, b: string)
    requires a != [] && AllIn(a, k)
    requires b == [] || !InClass(b[0], k)
    ensures Plus(k, a + b) == Some((a, b))
  {
    SpanUnique(k, a + b, |a|);
    assert (a + b)[..|a|] == a && (a + b)[|a|..] == b;
  }

  lemma GapOn(w: string, b: string)
    requires w != [] && AllIn(w, Space)
    requires b == [] || !IsSpace(b[0])
    ensures Gap(w + b) == Some(b)
  {
    PlusOn(Space, w, b);
  }

  lemma DirectionOn(d: string, b: string)
    requires d == "Rx" || d == "Tx"
    ensures Direction(d + b) == Some((d, b))
  {
    assert (d + b)[2..] == b;
  }

  lemma SignedIntOn(t: string, b: string)
    requires IsSignedInt(t)
    requires b == [] || !IsDigit(b[0])
    ensures SignedInt(t + b) == Some((t, b))
  {
    if t[0] == '-' {
      assert (t + b)[1..] == t[1..] + b;
      PlusOn(Digit, t[1..], b);
      assert "-" + t[1..] == t;
    } else {
      PlusOn(Digit, t, b);
    }
  }

  lemma PointDecimalOn(t: string, b: string)
    requires IsPointDecimal(t)
    requires b == [] || !IsDigit(b[0])
    ensures PointDecimal(t + b) == Some((t, b))
  {
    var p := Span(Digit, t);
    var whole, frac := t[..p], t[p + 1..];
    assert t == whole + "." + frac;
    assert t + b == whole + ("." + (frac + b));
    PlusOn(Digit, whole, "." + (frac + b));
    LitOn(".", frac + b);
    PlusOn(Digit, frac, b);
  }

  lemma SignedPointDecimalOn(t: string, b: string)
    requires IsSignedPointDecimal(t)
    requires b == [] || !IsDigit(b[0])
    ensures SignedPointDecimal(t + b) == Some((t, b))
  {
    if t != [] && t[0] == '-' {
      assert (t + b)[1..] == t[1..] + b;
      PointDecimalOn(t[1..], b);
      assert "-" + t[1..] == t;
    } else {
      PointDecimalOn(t, b);
    }
  }

  lemma DotStarOn(m: string, b: string)
    requires AllIn(m, NonNewline)
    requires b == [] || b[0] == '\n'
    ensures DotStar(m + b) == m
  {
    SpanUnique(NonNewline, m + b, |m|);
    assert (m + b)[..|m|] == m;
  }
}
