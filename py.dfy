/**
 * The Python 2 built-ins the scraper relies on: `strip`, `split`,
 * `string.printable`, `float` and `int`.  Page text reaches them as
 * `unicode` whenever it holds a non-ASCII character, so whitespace is the
 * whitespace of `unicode.isspace`.  A call that raises `ValueError` returns
 * `None`.
 */
module Py {
  import opened Wrappers
  import opened Seqs

  /**
   * `unicode.isspace` for one character (Python 2.7, Unicode 5.2): the ASCII
   * tab to carriage return, U+001C to the space, NEL, the no-break space and
   * the Unicode space separators, line and paragraph separators.
   */
  predicate IsSpace(c: char)
  {
    '\t' <= c <= '\r' || '\U{1C}' <= c <= ' ' || c == '\U{85}' || c == '\U{A0}'
    || c == '\U{1680}' || c == '\U{180E}' || '\U{2000}' <= c <= '\U{200A}'
    || c == '\U{2028}' || c == '\U{2029}' || c == '\U{202F}' || c == '\U{205F}' || c == '\U{3000}'
  }

  /** No whitespace character is a digit, a decimal point, a sign, a dollar sign or a bracket. */
  lemma SpaceIsNoSymbol(c: char)
    ensures IsSpace(c) ==> !IsDigit(c) && c != '.' && c != '+' && c != '-' && c != '$' && c != '(' && c != ')'
  {
  }

  /** The six characters of `string.whitespace`: space, tab, newline, vertical tab, form feed, carriage return. */
  predicate IsAsciiSpace(c: char)
  {
    c == ' ' || '\t' <= c <= '\r'
  }

  predicate IsDigit(c: char)
  {
    '0' <= c <= '9'
  }

  /** Membership in `string.printable`: digits, letters, punctuation (all of ' '..'~') and whitespace. */
  predicate IsPrintable(c: char)
    ensures IsPrintable(c) ==> c as int < 128
  {
    ' ' <= c <= '~' || IsAsciiSpace(c)
  }

  predicate AllDigits(s: string)
  {
    forall i :: 0 <= i < |s| ==> IsDigit(s[i])
  }

  // ---------------------------------------------------------------- strip

  /** `s.lstrip(cs)`: drops the longest prefix made of characters of `cs`. */
  function LStrip(s: string, cs: set<char>): (r: string)
    ensures |r| <= |s| && r == s[|s| - |r|..]
    ensures forall i :: 0 <= i < |s| - |r| ==> s[i] in cs
    ensures r != [] ==> r[0] !in cs
  {
    if s != [] && s[0] in cs then LStrip(s[1..], cs) else s
  }

  /** `s.rstrip(cs)`: drops the longest suffix made of characters of `cs`. */
  function RStrip(s: string, cs: set<char>): (r: string)
    ensures |r| <= |s| && r == s[..|r|]
    ensures forall i :: |r| <= i < |s| ==> s[i] in cs
    ensures r != [] ==> r[|r| - 1] !in cs
  {
    if s != [] && s[|s| - 1] in cs then RStrip(s[..|s| - 1], cs) else s
  }

  /** `s.strip(chars)` for an explicit set of characters. */
  function StripChars(s: string, cs: set<char>): (r: string)
    ensures |r| <= |s|
    ensures r != [] ==> r[0] !in cs && r[|r| - 1] !in cs
  {
    RStrip(LStrip(s, cs), cs)
  }

  /** The characters `strip()` and `split()` treat as whitespace. */
  const Whitespace: set<char> := set c: char | IsSpace(c)

  /** `s.strip()`: removes leading and trailing whitespace, so the result neither starts nor ends with it. */
  function Strip(s: string): (r: string)
    ensures |r| <= |s|
    ensures r != [] ==> !IsSpace(r[0]) && !IsSpace(r[|r| - 1])
  {
    StripChars(s, Whitespace)
  }

  /** A string that neither starts nor ends with a character of `cs` is left alone. */
  lemma StripCharsNoop(s: string, cs: set<char>)
    requires s == [] || (s[0] !in cs && s[|s| - 1] !in cs)
    ensures StripChars(s, cs) == s
  {
  }

  /** `s.strip()` is empty exactly when `s` is all whitespace. */
  lemma StripEmptyIffBlank(s: string)
    ensures Strip(s) == [] <==> forall i :: 0 <= i < |s| ==> IsSpace(s[i])
  {
    if forall i :: 0 <= i < |s| ==> IsSpace(s[i]) {
      LStripBlank(s);
    } else {
      var i :| 0 <= i < |s| && !IsSpace(s[i]);
      StripKeepsNonSpace(s, i);
    }
  }

  /** A non-whitespace character survives `strip()`, so the result is not empty. */
  lemma StripKeepsNonSpace(s: string, i: int)
    requires 0 <= i < |s| && !IsSpace(s[i])
    ensures Strip(s) != []
  {
    WhitespaceIsSpace(s[i]);
    var l := LStrip(s, Whitespace);
    var off := |s| - |l|;
    assert off <= i;
    assert l[i - off] == s[i];
    var r := RStrip(l, Whitespace);
    assert |r| > i - off;
  }

  /** A leading character of `cs` is dropped by `lstrip(cs)`. */
  lemma LStripSkips(c: char, s: string, cs: set<char>)
    requires c in cs
    ensures LStrip([c] + s, cs) == LStrip(s, cs)
  {
    assert ([c] + s)[1..] == s;
  }

  /** A string made only of whitespace is emptied by `lstrip()`. */
  lemma {:induction false} LStripBlank(s: string)
    requires forall i :: 0 <= i < |s| ==> IsSpace(s[i])
    ensures LStrip(s, Whitespace) == []
  {
    if s != [] {
      WhitespaceIsSpace(s[0]);
      LStripBlank(s[1..]);
    }
  }

  /** `strip(cs)` keeps a slice of `s`; everything cut off at either end is in `cs`. */
  lemma StripCharsSlice(s: string, cs: set<char>) returns (a: int, b: int)
    ensures 0 <= a <= b <= |s| && StripChars(s, cs) == s[a..b]
    ensures forall i :: 0 <= i < a ==> s[i] in cs
    ensures forall i :: b <= i < |s| ==> s[i] in cs
  {
    var l := LStrip(s, cs);
    a := |s| - |l|;
    b := a + |RStrip(l, cs)|;
    forall i | b <= i < |s|
      ensures s[i] in cs
    {
      assert s[i] == l[i - a];
    }
  }

  /** A filter that rejects every character of `cs` is not changed by stripping `cs` first. */
  lemma FilterIgnoresStrip(p: char -> bool, s: string, cs: set<char>)
    requires forall c :: c in cs ==> !p(c)
    ensures Filter(p, StripChars(s, cs)) == Filter(p, s)
  {
    var a, b := StripCharsSlice(s, cs);
    FilterDropsEnds(p, s, a, b);
  }

  lemma WhitespaceIsSpace(c: char)
    ensures c in Whitespace <==> IsSpace(c)
  {
  }

  /** Trailing whitespace after a stripped word is removed by `strip`. */
  lemma StripTrailingSpace(w: string, t: string)
    requires w != [] && !IsSpace(w[0]) && !IsSpace(w[|w| - 1])
    requires forall i :: 0 <= i < |t| ==> IsSpace(t[i])
    ensures Strip(w + t) == w
  {
    var s := w + t;
    WhitespaceIsSpace(s[0]);
    assert LStrip(s, Whitespace) == s;
    var r := RStrip(s, Whitespace);
    assert r == s[..|r|];
    if |r| < |w| {
      assert s[|w| - 1] in Whitespace;
      WhitespaceIsSpace(s[|w| - 1]);
    }
    assert r == w;
  }

  // ---------------------------------------------------------------- split

  /** `s.split(c)[0]`: the text before the first `c`, or all of `s` when there is none. */
  function BeforeFirst(s: string, c: char): (r: string)
    ensures |r| <= |s| && r == s[..|r|] && c !in r
    ensures |r| < |s| <==> c in s
    ensures |r| < |s| ==> s[|r|] == c
  {
    s[..IndexOf(s, c)]
  }

  /** `s.split(c)[1]`, for an `s` that contains `c`: the text between the first and the second `c`. */
  function SecondPiece(s: string, c: char): (r: string)
    requires c in s
    ensures var k := |BeforeFirst(s, c)| + 1;
      k + |r| <= |s| && r == s[k..k + |r|] && c !in r && (k + |r| < |s| ==> s[k + |r|] == c)
  {
    var rest := s[IndexOf(s, c) + 1..];
    rest[..IndexOf(rest, c)]
  }

  /** `s.split()[0]`: the first maximal run of non-whitespace characters; `None` (IndexError) when there is none. */
  function FirstField(s: string): (r: Option<string>)
    ensures r.None? <==> forall i :: 0 <= i < |s| ==> IsSpace(s[i])
    ensures r.Some? ==> r.value != [] && (forall i :: 0 <= i < |r.value| ==> !IsSpace(r.value[i]))
  {
    var t := LStrip(s, Whitespace);
    if t == [] then None else Some(Word(t))
  }

  /** The longest prefix of `s` without whitespace. */
  function Word(s: string): (r: string)
    ensures |r| <= |s| && r == s[..|r|]
    ensures forall i :: 0 <= i < |r| ==> !IsSpace(r[i])
    ensures |r| < |s| ==> IsSpace(s[|r|])
  {
    if s == [] || IsSpace(s[0]) then [] else [s[0]] + Word(s[1..])
  }
  /** `Word` reads a whitespace-free prefix up to the whitespace that ends it. */
  lemma {:induction false} WordOfPrefix(w: string, rest: string)
    requires forall i :: 0 <= i < |w| ==> !IsSpace(w[i])
    requires rest == [] || IsSpace(rest[0])
    ensures Word(w + rest) == w
  {
    if w != [] {
      assert (w + rest)[1..] == w[1..] + rest;
      WordOfPrefix(w[1..], rest);
    } else {
      assert w + rest == rest;
    }
  }


  // ---------------------------------------------------------------- numbers

  /** The value of a string of decimal digits. */
  function DigitsValue(s: string): nat
    requires AllDigits(s)
  {
    if s == [] then 0 else 10 * DigitsValue(s[..|s| - 1]) + (s[|s| - 1] as int - '0' as int)
  }

  /** A Python float: the real numbers plus the IEEE special values. */
  datatype PyFloat = Finite(value: real) | PosInf | NegInf | NaN

  /** `digits [. digits]` or `. digits`: at least one digit, at most one point. */
  function ParseDecimal(u: string): (r: Option<real>)
    ensures r.Some? ==> u != [] && r.value >= 0.0
  {
    var d := IndexOf(u, '.');
    var whole := u[..d];
    var frac := if d < |u| then u[d + 1..] else "";
    if AllDigits(whole) && AllDigits(frac) && |whole| + |frac| > 0
    then Some(DecimalOf(whole, frac))
    else None
  }

  /** The value of `whole.frac`. */
  function DecimalOf(whole: string, frac: string): real
    requires AllDigits(whole) && AllDigits(frac)
  {
    DigitsValue(whole) as real + FractionValue(frac)
  }

  /** The value of the digits after a decimal point: `FractionValue("25") == 0.25`. */
  function FractionValue(frac: string): (r: real)
    requires AllDigits(frac)
    ensures 0.0 <= r < 1.0
  {
    if frac == [] then 0.0 else ((frac[0] as int - '0' as int) as real + FractionValue(frac[1..])) / 10.0
  }

  /** The exponent after `e`/`E`: an optional sign and at least one digit. */
  function ParseExponent(u: string): (r: Option<int>)
    ensures r.Some? ==> u != [] && (u[0] != '-' ==> r.value >= 0) && (r.value < 0 ==> u[0] == '-')
  {
    if |u| > 0 && (u[0] == '+' || u[0] == '-') then
      var mag := u[1..];
      if mag != [] && AllDigits(mag) then
        var m: int := DigitsValue(mag);
        Some(if u[0] == '-' then -m else m)
      else None
    else if u != [] && AllDigits(u) then Some(DigitsValue(u))
    else None
  }

  /** Index of the first `e` or `E`, or `|u|`. */
  function ExponentMark(u: string): (k: nat)
    ensures k <= |u|
    ensures forall i :: 0 <= i < k ==> u[i] != 'e' && u[i] != 'E'
    ensures k < |u| ==> u[k] == 'e' || u[k] == 'E'
  {
    if u == [] || u[0] == 'e' || u[0] == 'E' then 0 else 1 + ExponentMark(u[1..])
  }

  /** `m` times ten to the power `e`. */
  function Scale(m: real, e: int): (r: real)
    ensures m >= 0.0 ==> r >= 0.0
    decreases if e < 0 then -e else e
  {
    if e == 0 then m else if e > 0 then 10.0 * Scale(m, e - 1) else Scale(m, e + 1) / 10.0
  }

  function LowerChar(c: char): char
  {
    if 'A' <= c <= 'Z' then (c as int - 'A' as int + 'a' as int) as char else c
  }

  /** Case-insensitive equality with a lower-case ASCII word. */
  predicate EqualsIgnoreCase(u: string, word: string)
  {
    |u| == |word| && forall i :: 0 <= i < |u| ==> LowerChar(u[i]) == word[i]
  }

  /** An unsigned float literal: `inf`, `infinity`, `nan` in any case, or a decimal with an optional exponent. */
  function ParseUnsigned(u: string): (r: Option<PyFloat>)
    ensures u == [] ==> r.None?
    ensures r.Some? ==> r.value != NegInf && (r.value.Finite? ==> r.value.value >= 0.0)
  {
    if EqualsIgnoreCase(u, "inf") || EqualsIgnoreCase(u, "infinity") then Some(PosInf)
    else if EqualsIgnoreCase(u, "nan") then Some(NaN)
    else
      var k := ExponentMark(u);
      match ParseDecimal(u[..k])
      case None => None
      case Some(m) =>
        if k == |u| then Some(Finite(m))
        else match ParseExponent(u[k + 1..])
          case None => None
          case Some(e) => Some(Finite(Scale(m, e)))
  }

  function Negate(f: PyFloat): PyFloat
  {
    match f
    case Finite(v) => Finite(-v)
    case PosInf => NegInf
    case NegInf => PosInf
    case NaN => NaN
  }

  /** `float(s)`: surrounding whitespace, an optional sign, then an unsigned literal; `None` is `ValueError`. */
  function ParseFloat(s: string): (r: Option<PyFloat>)
    ensures Strip(s) == [] ==> r.None?
  {
    var t := Strip(s);
    if |t| > 0 && (t[0] == '+' || t[0] == '-') then
      match ParseUnsigned(t[1..])
      case None => None
      case Some(f) => Some(if t[0] == '-' then Negate(f) else f)
    else ParseUnsigned(t)
  }

  /** `int(token)` for a token without whitespace: an optional sign and at least one digit. */
  function ParseInt(token: string): (r: Option<int>)
    ensures r.Some? <==> ((token != [] && AllDigits(token))
                          || (|token| > 1 && (token[0] == '+' || token[0] == '-') && AllDigits(token[1..])))
    ensures token != [] && AllDigits(token) ==> r == Some(DigitsValue(token))
  {
    ParseExponent(token)
  }

  // ---------------------------------------------------------------- what float() accepts

  /** A character that can occur in a string `float` accepts. */
  predicate FloatChar(c: char)
  {
    IsDigit(c) || c == '.' || c == 'e' || c == 'E' || c == '+' || c == '-' || IsSpace(c)
    || LowerChar(c) in "infatyn"
  }

  /** `float` rejects every string holding a character outside `FloatChar`. */
  lemma ParseFloatChars(s: string)
    requires ParseFloat(s).Some?
    ensures forall i :: 0 <= i < |s| ==> FloatChar(s[i])
  {
    var l := LStrip(s, Whitespace);
    var t := Strip(s);
    assert t == RStrip(l, Whitespace);
    var u := if |t| > 0 && (t[0] == '+' || t[0] == '-') then t[1..] else t;
    ParseUnsignedChars(u);
    forall i | 0 <= i < |s|
      ensures FloatChar(s[i])
    {
      var a := |s| - |l|;
      if i < a {
        assert s[i] in s[..a];
      } else if i - a >= |t| {
        assert l[i - a] == s[i];
        assert l[i - a] in l[|t|..];
      } else {
        assert t[i - a] == s[i];
        if t != u && i - a > 0 {
          assert u[i - a - 1] == s[i];
        }
      }
    }
  }

  lemma ParseUnsignedChars(u: string)
    requires ParseUnsigned(u).Some?
    ensures forall i :: 0 <= i < |u| ==> FloatChar(u[i])
  {
    if EqualsIgnoreCase(u, "inf") || EqualsIgnoreCase(u, "infinity") || EqualsIgnoreCase(u, "nan") {
      SpecialWordChars(u);
    } else {
      var k := ExponentMark(u);
      ParseDecimalChars(u[..k]);
      var e := if k < |u| then u[k + 1..] else [];
      if k < |u| {
        ParseExponentChars(e);
      }
      MantissaExponentChars(u, k, u[..k], e);
    }
  }

  /** `inf`, `infinity` and `nan` in any case are made of `FloatChar`s. */
  lemma SpecialWordChars(u: string)
    requires EqualsIgnoreCase(u, "inf") || EqualsIgnoreCase(u, "infinity") || EqualsIgnoreCase(u, "nan")
    ensures forall i :: 0 <= i < |u| ==> FloatChar(u[i])
  {
    forall i | 0 <= i < |u|
      ensures FloatChar(u[i])
    {
      assert LowerChar(u[i]) in "infinity" || LowerChar(u[i]) in "nan";
    }
  }

  /** A mantissa `m` of digits and points, a mark, and an exponent `e` of signs and digits. */
  lemma MantissaExponentChars(u: string, k: int, m: string, e: string)
    requires 0 <= k <= |u| && m == u[..k]
    requires forall i :: 0 <= i < |m| ==> IsDigit(m[i]) || m[i] == '.'
    requires k < |u| ==> (u[k] == 'e' || u[k] == 'E') && e == u[k + 1..]
    requires forall i :: 0 <= i < |e| ==> IsDigit(e[i]) || e[i] == '+' || e[i] == '-'
    ensures forall i :: 0 <= i < |u| ==> FloatChar(u[i])
  {
    forall i | 0 <= i < |u|
      ensures FloatChar(u[i])
    {
      if i < k {
        assert u[i] == m[i];
      } else if i > k {
        assert u[i] == e[i - k - 1];
      }
    }
  }

  lemma ParseExponentChars(e: string)
    requires ParseExponent(e).Some?
    ensures forall i :: 0 <= i < |e| ==> IsDigit(e[i]) || e[i] == '+' || e[i] == '-'
  {
    if |e| > 0 && (e[0] == '+' || e[0] == '-') {
      forall i | 1 <= i < |e|
        ensures IsDigit(e[i])
      {
        assert e[i] == e[1..][i - 1];
      }
    }
  }

  lemma ParseDecimalChars(u: string)
    requires ParseDecimal(u).Some?
    ensures forall i :: 0 <= i < |u| ==> IsDigit(u[i]) || u[i] == '.'
  {
    var d := IndexOf(u, '.');
    forall i | 0 <= i < |u|
      ensures IsDigit(u[i]) || u[i] == '.'
    {
      if i < d {
        assert u[i] == u[..d][i];
      } else if i > d {
        assert u[i] == u[d + 1..][i - d - 1];
      }
    }
  }
}
