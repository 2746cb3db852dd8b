/**
 * utils.py: the helpers shared by the reference-table builder and the keg
 * parser: `filter_printable`, `is_num` and `unique`.
 */
module Utils {
  import opened Wrappers
  import opened Seqs
  import opened Py

  // ---------------------------------------------------------------- filter_printable

  /** `filter_printable(line)`: the characters of `line` that are in `string.printable`. */
  function FilterPrintable(line: string): (r: string)
    ensures |r| <= |line|
    ensures forall c :: c in r ==> IsPrintable(c) && c in line
  {
    Filter(IsPrintable, line)
  }

  /**
   * filter_printable deletes exactly the unprintable characters: the result is
   * a subsequence of the line that keeps every printable character, and a
   * second application changes nothing.
   */
  lemma FilterPrintableSpec(line: string)
    ensures IsSubseq(FilterPrintable(line), line)
    ensures forall c :: multiset(FilterPrintable(line))[c] == if IsPrintable(c) then multiset(line)[c] else 0
    ensures FilterPrintable(FilterPrintable(line)) == FilterPrintable(line)
  {
    FilterIsSubseq(IsPrintable, line);
    FilterCounts(IsPrintable, line);
    FilterIdempotent(IsPrintable, line);
  }

  // ---------------------------------------------------------------- is_num

  /** The characters `is_num` removes before parsing. */
  const Ignore: seq<char> := ['-', '<', '>']

  /** `s.replace(c, '')`. */
  function RemoveAll(s: string, c: char): (r: string)
    ensures c !in r && |r| <= |s|
    ensures forall x :: x != c ==> multiset(r)[x] == multiset(s)[x]
  {
    FilterCounts(x => x != c, s);
    Filter(x => x != c, s)
  }

  /** `s` with every character of `cs` removed. */
  function Without(s: string, cs: seq<char>): (r: string)
    ensures forall c :: c in cs ==> c !in r
  {
    Filter(x => x !in cs, s)
  }

  /** `s` with every `-`, `<` and `>` removed. */
  function WithoutMarks(s: string): string
  {
    Without(s, Ignore)
  }

  /** `is_num(s)`: `float()` accepts `s` once `-`, `<` and `>` are removed, so something other than marks and whitespace is left. */
  predicate IsNumeric(s: string)
    ensures IsNumeric(s) ==> Strip(WithoutMarks(s)) != []
  {
    ParseFloat(WithoutMarks(s)).Some?
  }

  /** `is_num(num)`: rebinds `num` through one `replace` per ignored symbol, then tries `float`. */
  method IsNum(num: string) returns (b: bool)
    ensures b == IsNumeric(num)
    ensures b ==> exists c :: c in num && c !in Ignore
  {
    var n := num;
    FilterKeepsAll(x => x !in Ignore[..0], num);
    for i := 0 to |Ignore|
      invariant n == Without(num, Ignore[..i])
    {
      var sym := Ignore[i];
      RemoveNext(num, Ignore[..i + 1]);
      assert Ignore[..i + 1][..i] == Ignore[..i];
      if sym in n {
        n := RemoveAll(n, sym);
      } else {
        RemoveAbsent(n, sym);
      }
    }
    assert Ignore[..|Ignore|] == Ignore;
    b := ParseFloat(n).Some?;
    ParseFloatEmpty();
    if b {
      assert n[0] in n;
    }
  }

  /** Removing the characters of `cs` one `replace` at a time. */
  lemma RemoveNext(s: string, cs: seq<char>)
    requires cs != []
    ensures RemoveAll(Without(s, cs[..|cs| - 1]), cs[|cs| - 1]) == Without(s, cs)
  {
    var init, c := cs[..|cs| - 1], cs[|cs| - 1];
    assert forall x :: (x !in cs) == (x !in init && x != c) by {
      assert cs == init + [c];
    }
    FilterCompose(x => x !in init, x => x != c, x => x !in cs, s);
  }

  lemma RemoveAbsent(s: string, c: char)
    requires c !in s
    ensures RemoveAll(s, c) == s
  {
    FilterKeepsAll(x => x != c, s);
  }

  /** `float("")` raises. */
  lemma ParseFloatEmpty()
    ensures ParseFloat([]) == None
  {
    assert Strip([]) == [];
    assert ExponentMark([]) == 0;
    assert ParseDecimal([]) == None;
  }

  /** Mark removal distributes over concatenation. */
  lemma WithoutMarksAppend(a: string, b: string)
    ensures WithoutMarks(a + b) == WithoutMarks(a) + WithoutMarks(b)
  {
    FilterAppend(x => x !in Ignore, a, b);
  }

  lemma WithoutMarksNoop(s: string)
    requires forall i :: 0 <= i < |s| ==> s[i] !in Ignore
    ensures WithoutMarks(s) == s
  {
    FilterKeepsAll(x => x !in Ignore, s);
  }

  /** `is_num` looks only at what is left once `-`, `<` and `>` are removed, so removing them first changes nothing. */
  lemma IsNumericIgnoresMarks(s: string)
    ensures WithoutMarks(WithoutMarks(s)) == WithoutMarks(s)
    ensures IsNumeric(WithoutMarks(s)) == IsNumeric(s)
  {
    var w := WithoutMarks(s);
    assert forall i :: 0 <= i < |w| ==> w[i] in w;
    WithoutMarksNoop(w);
  }

  /** `""` is not a number, and neither is a string made only of `-`, `<` and `>`. */
  lemma NotNumericWhenOnlyMarks(s: string)
    requires forall i :: 0 <= i < |s| ==> s[i] in Ignore
    ensures !IsNumeric(s)
  {
    NotMarks(s);
    ParseFloatEmpty();
  }

  /** A string `is_num` accepts holds only marks and characters `float` can read. */
  lemma NumericChars(s: string)
    requires IsNumeric(s)
    ensures forall i :: 0 <= i < |s| ==> s[i] in Ignore || FloatChar(s[i])
  {
    var w := WithoutMarks(s);
    ParseFloatChars(w);
    forall i | 0 <= i < |s|
      ensures s[i] in Ignore || FloatChar(s[i])
    {
      if s[i] !in Ignore {
        FilterCounts(x => x !in Ignore, s);
        assert s[i] in multiset(s);
        assert s[i] in multiset(w);
        assert s[i] in w;
      }
    }
  }

  /** A run of digits is numeric, with the value its digits denote. */
  lemma DigitsAreNumeric(w: string)
    requires AllDigits(w) && w != []
    ensures IsNumeric(w)
    ensures ParseFloat(w) == Some(Finite(DigitsValue(w) as real))
  {
    DecimalTokenParse(w);
    assert IndexOf(w, '.') == |w| by {
      IndexOfAppend(w, [], '.');
      assert w + [] == w;
    }
    assert w[..|w|] == w;
  }

  /** `digits.digits` is numeric, with the value its digits denote. */
  lemma DecimalIsNumeric(whole: string, frac: string)
    requires AllDigits(whole) && AllDigits(frac) && whole != []
    ensures IsNumeric(whole + "." + frac)
    ensures ParseFloat(whole + "." + frac) == Some(Finite(DecimalOf(whole, frac)))
  {
    var u := whole + "." + frac;
    forall i | 0 <= i < |u|
      ensures IsDigit(u[i]) || u[i] == '.'
    {
      if i < |whole| {
        assert u[i] == whole[i];
      } else if i > |whole| {
        assert u[i] == frac[i - |whole| - 1];
      }
    }
    DecimalTokenParse(u);
    DecimalValue(whole, frac);
  }

  lemma NotMarks(s: string)
    requires forall i :: 0 <= i < |s| ==> s[i] in Ignore
    ensures WithoutMarks(s) == []
  {
    FilterDropsAll(x => x !in Ignore, s);
  }

  /** A single character is numeric exactly when it is a decimal digit. */
  lemma SingleCharNumeric(c: char)
    ensures IsNumeric([c]) <==> IsDigit(c)
  {
    if c in Ignore {
      NotMarks([c]);
      ParseFloatEmpty();
    } else {
      WithoutMarksNoop([c]);
      ParseFloatSingle(c);
    }
  }

  /** `float` of one character succeeds exactly on a digit. */
  lemma ParseFloatSingle(c: char)
    ensures ParseFloat([c]).Some? <==> IsDigit(c)
  {
    if IsSpace(c) {
      assert LStrip([c], Whitespace) == [];
    } else {
      StripCharsNoop([c], Whitespace);
      if c == '+' || c == '-' {
        assert [c][1..] == [];
        UnsignedEmpty();
        SignedFloat([c]);
      } else {
        ParseFloatPlain([c]);
        UnsignedSingle(c);
      }
    }
  }

  /** A sign followed by something that is not an unsigned literal is not a float. */
  lemma SignedFloat(t: string)
    requires t != [] && Strip(t) == t && (t[0] == '+' || t[0] == '-')
    requires ParseUnsigned(t[1..]) == None
    ensures ParseFloat(t) == None
  {
  }

  /** An empty unsigned literal is not a float. */
  lemma UnsignedEmpty()
    ensures ParseUnsigned([]) == None
  {
    assert !EqualsIgnoreCase([], "inf") && !EqualsIgnoreCase([], "infinity") && !EqualsIgnoreCase([], "nan");
    assert ExponentMark([]) == 0;
    assert ParseDecimal([]) == None;
  }

  /** An unsigned literal of one character is a digit. */
  lemma UnsignedSingle(c: char)
    requires c != '+' && c != '-'
    ensures ParseUnsigned([c]).Some? <==> IsDigit(c)
  {
    if c == 'e' || c == 'E' {
      assert ExponentMark([c]) == 0;
      assert ParseDecimal([]) == None;
    } else {
      assert ExponentMark([c]) == 1;
      assert [c][..1] == [c];
      if c == '.' {
        assert IndexOf([c], '.') == 0;
        assert ParseDecimal([c]) == None;
      } else {
        assert IndexOf([c], '.') == 1;
      }
    }
  }

  /** A token made of digits and points: is it numeric, and what does `float` make of it. */
  lemma DecimalTokenParse(s: string)
    requires forall i :: 0 <= i < |s| ==> IsDigit(s[i]) || s[i] == '.'
    ensures WithoutMarks(s) == s
    ensures ParseFloat(s) == match ParseDecimal(s) case Some(v) => Some(Finite(v)) case None => None
    ensures IsNumeric(s) <==> ParseDecimal(s).Some?
  {
    WithoutMarksNoop(s);
    DecimalTokenFloat(s);
  }

  lemma DecimalTokenFloat(s: string)
    requires forall i :: 0 <= i < |s| ==> IsDigit(s[i]) || s[i] == '.'
    ensures ParseFloat(s) == match ParseDecimal(s) case Some(v) => Some(Finite(v)) case None => None
  {
    DecimalTokenStripped(s);
    ParseFloatPlain(s);
    PlainUnsigned(s);
  }

  /** A token of digits and points has no surrounding whitespace and no sign. */
  lemma DecimalTokenStripped(s: string)
    requires forall i :: 0 <= i < |s| ==> IsDigit(s[i]) || s[i] == '.'
    ensures Strip(s) == s && (s == [] || (s[0] != '+' && s[0] != '-'))
  {
    if s != [] {
      assert s[0] !in Whitespace && s[|s| - 1] !in Whitespace;
    }
    StripCharsNoop(s, Whitespace);
  }

  /** `float` of a string without surrounding whitespace and without a sign. */
  lemma ParseFloatPlain(s: string)
    requires Strip(s) == s && (s == [] || (s[0] != '+' && s[0] != '-'))
    ensures ParseFloat(s) == ParseUnsigned(s)
  {
    var t := Strip(s);
    assert t == s;
    assert !(|t| > 0 && (t[0] == '+' || t[0] == '-'));
  }

  lemma PlainUnsigned(u: string)
    requires forall i :: 0 <= i < |u| ==> IsDigit(u[i]) || u[i] == '.'
    ensures ParseUnsigned(u) == match ParseDecimal(u) case Some(v) => Some(Finite(v)) case None => None
  {
    if |u| == 3 || |u| == 8 {
      assert LowerChar(u[0]) == u[0];
    }
    assert !EqualsIgnoreCase(u, "inf") && !EqualsIgnoreCase(u, "infinity") && !EqualsIgnoreCase(u, "nan");
    var k := ExponentMark(u);
    assert k == |u|;
    assert u[..k] == u;
  }

  /** `digits.digits` parses to the value its digits denote. */
  lemma DecimalValue(whole: string, frac: string)
    requires AllDigits(whole) && AllDigits(frac) && whole != []
    ensures ParseDecimal(whole + "." + frac) == Some(DecimalOf(whole, frac))
  {
    var u := whole + "." + frac;
    PointPosition(whole, frac);
    var d := IndexOf(u, '.');
    assert d < |u|;
    assert u[..d] == whole;
    assert u[d + 1..] == frac;
  }

  lemma PointPosition(whole: string, frac: string)
    requires AllDigits(whole)
    ensures IndexOf(whole + "." + frac, '.') == |whole|
  {
    assert '.' !in whole by {
      forall i | 0 <= i < |whole| ensures whole[i] != '.' {
        assert IsDigit(whole[i]);
      }
    }
    var tail := "." + frac;
    assert IndexOf(tail, '.') == 0;
    IndexOfAppend(whole, tail, '.');
    assert whole + "." + frac == whole + tail;
  }

  // ---------------------------------------------------------------- unique

  /** What `unique(s)` yields: each element at its first occurrence, in input order. */
  function Dedup<T(==)>(s: seq<T>): (r: seq<T>)
    ensures |r| <= |s|
  {
    if s == [] then []
    else
      var p := Dedup(s[..|s| - 1]);
      if s[|s| - 1] in p then p else p + [s[|s| - 1]]
  }

  /** Each element of `r` occurs in `s` before any occurrence of the elements that follow it in `r`. */
  predicate InFirstOccurrenceOrder<T(==)>(r: seq<T>, s: seq<T>)
  {
    forall i, j :: 0 <= i < j < |r| ==> IndexOf(s, r[i]) < IndexOf(s, r[j])
  }

  /** `unique` yields exactly the values of its input. */
  lemma {:induction false} DedupMembers<T>(s: seq<T>)
    ensures forall x :: x in Dedup(s) <==> x in s
  {
    if s != [] {
      var p := s[..|s| - 1];
      DedupMembers(p);
      assert s == p + [s[|s| - 1]];
    }
  }

  lemma DedupMember<T>(s: seq<T>, x: T)
    requires x in Dedup(s)
    ensures x in s
  {
    DedupMembers(s);
  }

  /** `unique` yields no value twice. */
  lemma {:induction false} DedupNoDups<T>(s: seq<T>)
    ensures NoDups(Dedup(s))
  {
    if s != [] {
      DedupNoDups(s[..|s| - 1]);
    }
  }

  /** `unique` keeps the order of its input: its output is a subsequence of it. */
  lemma {:induction false} DedupSubseq<T>(s: seq<T>)
    ensures IsSubseq(Dedup(s), s)
  {
    if s != [] {
      var p := s[..|s| - 1];
      var x := s[|s| - 1];
      DedupSubseq(p);
      assert s == p + [x];
      if x in Dedup(p) {
        SubseqAppendRight(Dedup(p), p, x);
      } else {
        SubseqAppendBoth(Dedup(p), p, x);
      }
    }
  }

  /** `unique` lists values in the order of their first occurrences. */
  lemma {:induction false} DedupFirstOccurrenceOrder<T>(s: seq<T>)
    ensures InFirstOccurrenceOrder(Dedup(s), s)
  {
    if s != [] {
      var p := s[..|s| - 1];
      DedupFirstOccurrenceOrder(p);
      assert s == p + [s[|s| - 1]];
      FirstOccurrenceOrderSnoc(p, s[|s| - 1]);
    }
  }

  lemma FirstOccurrenceOrderSnoc<T>(p: seq<T>, x: T)
    requires InFirstOccurrenceOrder(Dedup(p), p)
    ensures InFirstOccurrenceOrder(Dedup(p + [x]), p + [x])
  {
    var s := p + [x];
    assert s[..|s| - 1] == p;
    if x in Dedup(p) {
      assert Dedup(s) == Dedup(p);
      OrderSnocSeen(p, x);
    } else {
      assert Dedup(s) == Dedup(p) + [x];
      OrderSnocNew(p, x);
    }
  }

  /** A repeated value leaves the order of `unique`'s output intact. */
  lemma OrderSnocSeen<T>(p: seq<T>, x: T)
    requires InFirstOccurrenceOrder(Dedup(p), p)
    ensures InFirstOccurrenceOrder(Dedup(p), p + [x])
  {
    var d := Dedup(p);
    var s := p + [x];
    EarlierIndexesKept(p, x);
    forall i, j | 0 <= i < j < |d|
      ensures IndexOf(s, d[i]) < IndexOf(s, d[j])
    {
      assert IndexOf(p, d[i]) < IndexOf(p, d[j]);
    }
  }

  /** A new value goes last in `unique`'s output and first occurs last. */
  lemma OrderSnocNew<T>(p: seq<T>, x: T)
    requires InFirstOccurrenceOrder(Dedup(p), p)
    requires x !in Dedup(p)
    ensures InFirstOccurrenceOrder(Dedup(p) + [x], p + [x])
  {
    var d := Dedup(p);
    var s := p + [x];
    EarlierIndexesKept(p, x);
    NotInDedup(p, x);
    IndexOfAppend(p, [x], x);
    var r := d + [x];
    forall i, j | 0 <= i < j < |r|
      ensures IndexOf(s, r[i]) < IndexOf(s, r[j])
    {
      assert r[i] == d[i];
      if j < |d| {
        assert r[j] == d[j];
        assert IndexOf(p, d[i]) < IndexOf(p, d[j]);
      }
    }
  }

  lemma NotInDedup<T>(p: seq<T>, x: T)
    requires x !in Dedup(p)
    ensures x !in p
  {
    DedupMembers(p);
  }

  /** Appending `x` does not move the first occurrence of any value `unique` already yields. */
  lemma EarlierIndexesKept<T>(p: seq<T>, x: T)
    ensures var d := Dedup(p);
      forall i :: 0 <= i < |d| ==> IndexOf(p + [x], d[i]) == IndexOf(p, d[i]) < |p|
  {
    var d := Dedup(p);
    forall i | 0 <= i < |d|
      ensures IndexOf(p + [x], d[i]) == IndexOf(p, d[i]) < |p|
    {
      assert d[i] in d;
      DedupMember(p, d[i]);
      IndexOfPrefix(p, [x], d[i]);
    }
  }

  /** On a sequence without duplicates `unique` is the identity; hence `unique` is idempotent. */
  lemma {:induction false} DedupOfDistinct<T>(s: seq<T>)
    requires NoDups(s)
    ensures Dedup(s) == s
  {
    if s != [] {
      var p := s[..|s| - 1];
      DedupOfDistinct(p);
      assert s[|s| - 1] !in p by {
        forall i | 0 <= i < |p| ensures p[i] != s[|s| - 1] {
          assert p[i] == s[i];
        }
      }
    }
  }

  lemma DedupIdempotent<T>(s: seq<T>)
    ensures Dedup(Dedup(s)) == Dedup(s)
  {
    DedupNoDups(s);
    DedupOfDistinct(Dedup(s));
  }

  /** `unique(seq)`: a generator that yields each item not yet in its `seen` set, collected into a list. */
  method Unique<T(==)>(s: seq<T>) returns (r: seq<T>)
    ensures r == Dedup(s)
    ensures NoDups(r) && IsSubseq(r, s) && InFirstOccurrenceOrder(r, s)
    ensures forall x :: x in r <==> x in s
  {
    var seen: set<T> := {};
    r := [];
    for i := 0 to |s|
      invariant r == Dedup(s[..i])
      invariant forall x :: x in seen <==> x in r
    {
      var item := s[i];
      assert s[..i + 1][..i] == s[..i];
      if item !in seen {
        seen := seen + {item};
        r := r + [item];
      }
    }
    assert s[..|s|] == s;
    DedupNoDups(s);
    DedupSubseq(s);
    DedupFirstOccurrenceOrder(s);
    DedupMembers(s);
  }
}
