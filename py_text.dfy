/*
 * The parts of Python's built-in string, regular-expression and float
 * behaviour that both log converters rely on: `str.isspace`, `str.strip()`,
 * `str.split()`, the `in` substring test, greedy regular-expression atoms
 * (`\s+`, `\d+`, `\w+`, `[\d.]+`, `-?\d+`, `-?\d+\.\d+`), `float()` applied
 * to a run of digits and dots, and `str()` of a natural number.
 */
module PyText {

  /** An optional value; `:-` propagates None. */
  datatype Option<+T> = None | Some(value: T) {
    predicate IsFailure() { None? }
    function PropagateFailure<U>(): Option<U> requires None? { None }
    function Extract(): T requires Some? { value }
  }

  /** The built-in exceptions the two scripts can raise on unusual input. */
  datatype PyException = ValueError | IndexError | AttributeError

  /** A Python call either returns a value or raises; `:-` propagates the
    * exception, as an uncaught exception ends the enclosing function. */
  datatype Outcome<+T> = Done(value: T) | Raised(error: PyException) {
    predicate IsFailure() { Raised? }
    function PropagateFailure<U>(): Outcome<U> requires Raised? { Raised(error) }
    function Extract(): T requires Done? { value }
  }

  /** The characters for which Python's `str.isspace()` holds: ASCII tab,
    * line feed, vertical tab, form feed and carriage return (9 to 13), the
    * four information separators (28 to 31), space, next line, no-break
    * space, and the Unicode spaces and separators. `\s` in a `str`
    * pattern, `str.split()` and `str.strip()` all use it. */
  predicate IsSpace(c: char) {
    || c == ' '
    || '\t' <= c <= '\r'
    || '\U{1c}' <= c <= '\U{1f}'
    || c == '\U{85}' || c == '\U{a0}' || c == '\U{1680}'
    || '\U{2000}' <= c <= '\U{200a}'
    || c == '\U{2028}' || c == '\U{2029}' || c == '\U{202f}' || c == '\U{205f}' || c == '\U{3000}'
  }

  /** `\d`, restricted to ASCII. */
  predicate IsDigit(c: char) { '0' <= c <= '9' }

  /** `\w`, restricted to ASCII. */
  predicate IsWordChar(c: char) {
    'a' <= c <= 'z' || 'A' <= c <= 'Z' || IsDigit(c) || c == '_'
  }

  /** No whitespace character can begin or continue a digit, word or
    * number token. */
  lemma SpaceEndsToken(c: char)
    requires IsSpace(c)
    ensures !IsDigit(c) && !IsWordChar(c) && c != '.' && c != '-'
  {
  }

  /** The character classes the two line grammars are built from. */
  datatype CharClass = Space | NonSpace | Digit | Word | DigitOrDot | NonNewline

  predicate InClass(c: char, k: CharClass) {
    match k
    case Space => IsSpace(c)
    case NonSpace => !IsSpace(c)
    case Digit => IsDigit(c)
    case Word => IsWordChar(c)
    case DigitOrDot => IsDigit(c) || c == '.'
    case NonNewline => c != '\n'   // `.` without DOTALL
  }

  predicate AllIn(s: string, k: CharClass) {
    forall i :: 0 <= i < |s| ==> InClass(s[i], k)
  }

  /** Length of the longest prefix of `s` whose characters are all in `k`. */
  function Span(k: CharClass, s: string): (n: nat)
    ensures n <= |s|
    ensures forall i :: 0 <= i < n ==> InClass(s[i], k)
    ensures n == |s| || !InClass(s[n], k)
  {
    if s == [] || !InClass(s[0], k) then 0
    else 1 + Span(k, s[1..])
  }

  /** Length of the longest suffix of `s` whose characters are all in `k`. */
  function SpanBack(k: CharClass, s: string): (n: nat)
    ensures n <= |s|
    ensures forall i :: |s| - n <= i < |s| ==> InClass(s[i], k)
    ensures n == |s| || !InClass(s[|s| - 1 - n], k)
  {
    if s == [] || !InClass(s[|s| - 1], k) then 0
    else 1 + SpanBack(k, s[..|s| - 1])
  }

  /** Concatenation is associative; stated on plain strings so that it can
    * be applied where the pieces are large terms. */
  lemma Associative(a: string, b: string, c: string)
    ensures (a + b) + c == a + (b + c)
  {
  }

  /** The maximal prefix described by Span is unique. */
  lemma SpanUnique(k: CharClass, s: string, n: nat)
    requires n <= |s| && forall i :: 0 <= i < n ==> InClass(s[i], k)
    requires n == |s| || !InClass(s[n], k)
    ensures Span(k, s) == n
  {
  }

  /** A prefix that lies wholly in `k` adds its length to the span. */
  lemma SpanAfter(k: CharClass, a: string, b: string)
    requires AllIn(a, k)
    ensures Span(k, a + b) == |a| + Span(k, b)
  {
    var n := Span(k, b);
    SpanUnique(k, a + b, |a| + n);
  }

  /** `s.strip()`: `s` without its leading and trailing whitespace. The
    * result starts right after the leading whitespace, and only whitespace
    * follows it. */
  function Strip(s: string): (r: string)
    ensures r == [] || (!IsSpace(r[0]) && !IsSpace(r[|r| - 1]))
    ensures Span(Space, s) + |r| <= |s|
    ensures r == s[Span(Space, s)..Span(Space, s) + |r|]
    ensures forall i :: Span(Space, s) + |r| <= i < |s| ==> IsSpace(s[i])
  {
    var lo := Span(Space, s);
    var t := s[lo..];
    var hi := |t| - SpanBack(Space, t);
    assert lo < |s| ==> t[0] == s[lo] && hi > 0;
    t[..hi]
  }

  /** A string with no whitespace at either end is its own strip. */
  lemma StripUnchanged(s: string)
    requires s == [] || (!IsSpace(s[0]) && !IsSpace(s[|s| - 1]))
    ensures Strip(s) == s
  {
    SpanUnique(Space, s, 0);
  }

  /** Whitespace around a text that has none at its ends is what `strip` removes. */
  lemma StripPadded(lead: string, s: string, trail: string)
    requires AllIn(lead, Space) && AllIn(trail, Space)
    requires s == [] || (!IsSpace(s[0]) && !IsSpace(s[|s| - 1]))
    ensures Strip(lead + s + trail) == s
  {
    var line := lead + s + trail;
    assert forall i :: 0 <= i < |s| ==> line[|lead| + i] == s[i];
    assert forall i :: |lead| + |s| <= i < |line| ==> IsSpace(line[i]);
    if s == [] {
      SpanUnique(Space, line, |line|);
    } else {
      SpanUnique(Space, line, |lead|);
      var r := Strip(line);
      assert !IsSpace(line[|lead| + |s| - 1]);
      assert |r| == |s|;
      assert r == line[|lead|..|lead| + |s|] == s;
    }
  }

  /** `s.split()`: the maximal runs of non-whitespace characters, in order. */
  function Split(s: string): (parts: seq<string>)
    ensures forall t :: t in parts ==> t != [] && AllIn(t, NonSpace)
    decreases |s|
  {
    if s == [] then []
    else if IsSpace(s[0]) then Split(s[1..])
    else
      var b := Span(NonSpace, s);
      [s[..b]] + Split(s[b..])
  }

  /** Leading whitespace does not change the split. */
  lemma {:induction false} SplitAfterSpace(w: string, s: string)
    requires AllIn(w, Space)
    ensures Split(w + s) == Split(s)
    decreases |w|
  {
    if w != [] {
      assert (w + s)[1..] == w[1..] + s;
      SplitAfterSpace(w[1..], s);
    } else {
      assert w + s == s;
    }
  }

  /** A token followed by whitespace (or nothing) is the first part. */
  lemma SplitToken(t: string, rest: string)
    requires t != [] && AllIn(t, NonSpace)
    requires rest == [] || IsSpace(rest[0])
    ensures Split(t + rest) == [t] + Split(rest)
  {
    var s := t + rest;
    SpanUnique(NonSpace, s, |t|);
    assert s[..|t|] == t;
    assert s[|t|..] == rest;
  }

  /** The tokens joined by single spaces. */
  function JoinSpace(ts: seq<string>): string {
    if ts == [] then []
    else if |ts| == 1 then ts[0]
    else ts[0] + " " + JoinSpace(ts[1..])
  }

  /** One token more in front of a joined list. */
  lemma {:induction false} SplitJoinCons(t: string, ts: seq<string>)
    requires t != [] && AllIn(t, NonSpace) && ts != []
    ensures Split(JoinSpace([t] + ts)) == [t] + Split(JoinSpace(ts))
  {
    var rest := JoinSpace(ts);
    assert ([t] + ts)[1..] == ts;
    assert JoinSpace([t] + ts) == t + (" " + rest);
    assert IsSpace(' ');
    SplitToken(t, " " + rest);
    SplitAfterSpace(" ", rest);
  }

  /** Joining tokens with spaces and splitting gives the tokens back. */
  lemma {:induction false} SplitJoin(ts: seq<string>)
    requires forall t :: t in ts ==> t != [] && AllIn(t, NonSpace)
    ensures Split(JoinSpace(ts)) == ts
  {
    if ts == [] {
      assert Span(Space, []) == 0;
    } else if |ts| == 1 {
      assert ts[0] in ts;
      SplitToken(ts[0], []);
      assert ts[0] + [] == ts[0];
      assert Span(Space, []) == 0;
    } else {
      assert forall t :: t in ts[1..] ==> t in ts;
      assert ts[0] in ts;
      SplitJoin(ts[1..]);
      SplitJoinCons(ts[0], ts[1..]);
      assert ts == [ts[0]] + ts[1..];
    }
  }

  /** Python's `sub in s`. */
  predicate Contains(s: string, sub: string)
    decreases |s|
  {
    sub <= s || (s != [] && Contains(s[1..], sub))
  }

  /** `sub in s` holds exactly when `sub` occurs at some position of `s`. */
  lemma {:induction false} ContainsIff(s: string, sub: string)
    ensures Contains(s, sub) <==> exists i :: 0 <= i <= |s| && sub <= s[i..]
    decreases |s|
  {
    if sub <= s {
      assert s[0..] == s;
    } else if s == [] {
    } else {
      ContainsIff(s[1..], sub);
      if exists i :: 0 <= i <= |s| && sub <= s[i..] {
        var i :| 0 <= i <= |s| && sub <= s[i..];
        assert i > 0 by { assert s[0..] == s; }
        assert s[1..][i - 1..] == s[i..];
      } else {
        forall i | 0 <= i <= |s[1..]| ensures !(sub <= s[1..][i..]) {
          assert s[1..][i..] == s[i + 1..];
        }
      }
    }
  }

  /** An occurrence at a known position. */
  lemma ContainsAt(s: string, sub: string, i: nat)
    requires i <= |s| && sub <= s[i..]
    ensures Contains(s, sub)
  {
    ContainsIff(s, sub);
  }

  /** Any text containing "RR73" contains "73": the second half of the
    * sign-off test `"73" in m or "RR73" in m` never decides anything. */
  lemma RR73Contains73(s: string)
    ensures Contains(s, "RR73") ==> Contains(s, "73")
  {
    if Contains(s, "RR73") {
      ContainsIff(s, "RR73");
      var i :| 0 <= i <= |s| && "RR73" <= s[i..];
      assert "73" <= s[i + 2..] by {
        assert s[i + 2..][0] == s[i..][2] && s[i + 2..][1] == s[i..][3];
      }
      ContainsAt(s, "73", i + 2);
    }
  }

  /** A non-empty needle without whitespace is split out as part of some token. */
  lemma ContainsGivesToken(s: string, sub: string)
    requires sub != [] && AllIn(sub, NonSpace)
    requires Contains(s, sub)
    ensures Split(s) != []
  {
    ContainsIff(s, sub);
    var i :| 0 <= i <= |s| && sub <= s[i..];
    assert s[i] == sub[0] && !IsSpace(s[i]);
    var a := Span(Space, s);
    assert a <= i;
  }

  // ---- numbers ----

  function DigitValue(c: char): nat requires IsDigit(c) { (c as int - '0' as int) as nat }

  function DigitChar(d: nat): (c: char)
    requires d < 10
    ensures IsDigit(c) && DigitValue(c) == d
  {
    (d + '0' as int) as char
  }

  /** The value of a run of decimal digits, most significant first. */
  function DigitsValue(s: string): nat
    requires AllIn(s, Digit)
  {
    if s == [] then 0
    else 10 * DigitsValue(s[..|s| - 1]) + DigitValue(s[|s| - 1])
  }

  function Pow10(n: nat): (p: nat)
    ensures p >= 1
  {
    if n == 0 then 1 else 10 * Pow10(n - 1)
  }

  /** `str(n)`: decimal digits without leading zeros. */
  function NatToString(n: nat): (s: string)
    ensures s != [] && AllIn(s, Digit)
    ensures DigitsValue(s) == n
    ensures |s| > 1 ==> s[0] != '0'
  {
    if n < 10 then [DigitChar(n)]
    else
      var t := NatToString(n / 10);
      var s := t + [DigitChar(n % 10)];
      assert s[..|s| - 1] == t;
      s
  }

  /** An exact decimal number: mantissa / 10^scale. */
  datatype Decimal = Decimal(mantissa: nat, scale: nat)

  predicate HasDigit(t: string) { exists i :: 0 <= i < |t| && IsDigit(t[i]) }

  predicate AtMostOneDot(t: string) {
    forall i, j :: 0 <= i < j < |t| && t[i] == '.' ==> t[j] != '.'
  }

  /** `float(t)` for a run of digits and dots: defined exactly when the run
    * has a digit and at most one dot ("1.2.3" and "." raise ValueError). */
  function ParseFloat(t: string): (r: Option<Decimal>)
    requires AllIn(t, DigitOrDot)
    ensures r.Some? <==> HasDigit(t) && AtMostOneDot(t)
  {
    var dot := Span(Digit, t);
    if dot == |t| then
      if t == [] then None
      else
        assert IsDigit(t[0]) by { assert t[..dot][0] == t[0]; }
        Some(Decimal(DigitsValue(t), 0))
    else
      var whole := t[..dot];
      var frac := t[dot + 1..];
      assert t[dot] == '.';
      assert forall i :: 0 <= i < dot ==> IsDigit(t[i]) by {
        forall i | 0 <= i < dot ensures IsDigit(t[i]) { assert whole[i] == t[i]; }
      }
      if !AllIn(frac, Digit) then
        assert !AtMostOneDot(t) by {
          var k :| 0 <= k < |frac| && !IsDigit(frac[k]);
          assert t[dot + 1 + k] == frac[k];
        }
        None
      else if whole == [] && frac == [] then
        assert t == ".";
        None
      else
        assert forall i :: dot < i < |t| ==> IsDigit(t[i]) by {
          forall i | dot < i < |t| ensures IsDigit(t[i]) { assert frac[i - dot - 1] == t[i]; }
        }
        assert HasDigit(t) by {
          if whole != [] { assert IsDigit(t[0]); } else { assert IsDigit(t[dot + 1]) by { assert frac[0] == t[dot + 1]; } }
        }
        Some(Decimal(DigitsValue(whole + frac), |frac|))
  }

  /** A run of digits with two dots passes `[\d.]+` but is not a number. */
  lemma TwoDotsRaise()
    ensures AllIn("1.2.3", DigitOrDot) && ParseFloat("1.2.3") == None
  {
    var t := "1.2.3";
    assert t[1] == '.' && t[3] == '.';
  }

  /** `float("W.F")` is the decimal WF / 10^|F|. */
  lemma ParseFloatPoint(whole: string, frac: string)
    requires AllIn(whole, Digit) && AllIn(frac, Digit) && (whole != [] || frac != [])
    ensures AllIn(whole + "." + frac, DigitOrDot)
    ensures ParseFloat(whole + "." + frac) == Some(Decimal(DigitsValue(whole + frac), |frac|))
  {
    var t := whole + "." + frac;
    assert t[..|whole|] == whole;
    SpanUnique(Digit, t, |whole|);
    assert t[|whole| + 1..] == frac;
  }
}
