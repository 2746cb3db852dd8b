/**
 * beerkeg.py: one BevMo keg.  `parse` reads the product page once and
 * fills the fields, each with its own default when it cannot be read;
 * `get_abv` checks a found alcohol percentage against a ceiling, and
 * `get_ratio` turns it into gallons of alcohol per dollar.
 *
 * The page is an abstract record of the four texts `parse` extracts (the
 * first `h1` text, the price text, the first `em` text and the description
 * text); `None` stands for a page that could not be fetched or a query with
 * no result.  The web search of `get_abv` is an input.
 */
module BeerKeg {
  import opened Wrappers
  import opened Seqs
  import opened Py
  import opened Utils

  /** The texts `parse` reads; `None` where the XPath query has no result and `[0]` raises. */
  datatype Page = Page(title: Option<string>, price: Option<string>, stock: Option<string>, desc: Option<string>)

  /** What escapes from `get_abv` and `get_ratio`. */
  datatype PyError = SearchError | ZeroDivisionError

  /** A Python call that returns a value or raises. */
  datatype PyResult<T> = Return(value: T) | Raise(error: PyError)

  /**
   * The outcome of the search in `get_abv`: an exception on the way (no
   * page, no `#` link), no regex match, or the number the regex extracted.
   */
  datatype Search = SearchFailed | NoMatch | Match(abv: real)

  // ---------------------------------------------------------------- name and volume

  /**
   * The characters the `filter` on the volume text keeps: a `.`, and any
   * other character `is_num` accepts, which for one character is a digit
   * (`VolumeCharIsNumTest`).
   */
  predicate VolumeChar(c: char)
  {
    c == '.' || IsDigit(c)
  }

  /** The volume text: the piece after `(`, stripped of `)` and whitespace at both ends, filtered by `VolumeChar`. */
  function VolumeToken(piece: string): (v: string)
    ensures |v| <= |piece|
  {
    Filter(VolumeChar, Strip(StripChars(piece, {')'})))
  }

  /** `float(volume)` for a volume text `is_num` accepted. */
  function VolumeValue(v: string): (x: real)
    ensures (forall i :: 0 <= i < |v| ==> IsDigit(v[i]) || v[i] == '.') ==>
      x == match ParseDecimal(v) case Some(d) => d case None => 0.0
  {
    var x := match ParseFloat(v) case Some(Finite(x)) => x case _ => 0.0;
    if forall i :: 0 <= i < |v| ==> IsDigit(v[i]) || v[i] == '.' then DecimalTokenFloat(v); x else x
  }

  datatype Title = Title(name: string, volume: real)

  /**
   * The volume read from the piece after `(`: the value of the volume text
   * when it is a decimal, else `0.0`.  On a text of digits and points this
   * is `float(volume) if is_num(volume) else 0.0` (`VolumeOfIsNum`).
   */
  function VolumeOf(piece: string): (v: real)
    ensures v >= 0.0
  {
    match ParseDecimal(VolumeToken(piece))
    case Some(x) => x
    case None => 0.0
  }

  /**
   * The name and volume `parse` derives from the `h1` text: the name has no
   * surrounding whitespace and the volume is never negative.
   */
  function ParseTitle(title: string): (t: Title)
    ensures |t.name| <= |title|
    ensures t.name != [] ==> !IsSpace(t.name[0]) && !IsSpace(t.name[|t.name| - 1])
    ensures t.volume >= 0.0
  {
    var name := Strip(title);
    if '(' in name && ')' in name then Title(Strip(BeforeFirst(name, '(')), VolumeOf(SecondPiece(name, '(')))
    else Title(name, 0.0)
  }

  /**
   * The two cases of `parse`'s title handling: without both brackets the
   * stripped title is the name and the volume is `0.0`; with both, the name is
   * the stripped text before the first `(` and the volume is read from the
   * text after it.
   */
  lemma ParseTitleCases(title: string)
    ensures !('(' in Strip(title) && ')' in Strip(title)) ==> ParseTitle(title) == Title(Strip(title), 0.0)
    ensures '(' in Strip(title) && ')' in Strip(title) ==>
      ParseTitle(title).name == Strip(BeforeFirst(Strip(title), '('))
      && ParseTitle(title).volume == VolumeOf(SecondPiece(Strip(title), '('))
  {
  }

  /** The name and volume of a page; `('', 0.0)` when the `h1` text is missing. */
  function TitleOf(html: Option<Page>): (t: Title)
    ensures html.None? || html.value.title.None? ==> t == Title("", 0.0)
    ensures t.name != [] ==> !IsSpace(t.name[0]) && !IsSpace(t.name[|t.name| - 1])
    ensures t.volume >= 0.0
  {
    if html.Some? && html.value.title.Some? then ParseTitle(html.value.title.value) else Title("", 0.0)
  }

  /** `VolumeChar` is the test the `filter` applies: `is_num(x) if '.' not in x else x`. */
  lemma VolumeCharIsNumTest(c: char)
    ensures VolumeChar(c) <==> (if c != '.' then IsNumeric([c]) else true)
  {
    SingleCharNumeric(c);
  }

  /** The `filter` over the volume text, calling `is_num` on every character but the point. */
  method FilterVolume(text: string) returns (v: string)
    ensures v == Filter(VolumeChar, text)
  {
    v := [];
    for i := 0 to |text|
      invariant v == Filter(VolumeChar, text[..i])
    {
      var c := text[i];
      var keep := true;
      if c != '.' {
        keep := IsNum([c]);
      }
      VolumeCharIsNumTest(c);
      assert text[..i + 1][..i] == text[..i];
      if keep {
        v := v + [c];
      }
    }
    assert text[..|text|] == text;
  }

  /** Stripping `)` and whitespace first changes nothing: the filter drops those characters anyway. */
  lemma VolumeTokenIsFilter(piece: string)
    ensures VolumeToken(piece) == Filter(VolumeChar, piece)
  {
    var stripped := StripChars(piece, {')'});
    WhitespaceIsNotVolume();
    FilterIgnoresStrip(VolumeChar, stripped, Whitespace);
    assert VolumeToken(piece) == Filter(VolumeChar, stripped);
    FilterIgnoresStrip(VolumeChar, piece, {')'});
  }

  lemma WhitespaceIsNotVolume()
    ensures forall c :: c in Whitespace ==> !VolumeChar(c)
  {
    forall c | c in Whitespace
      ensures !VolumeChar(c)
    {
      WhitespaceIsSpace(c);
    }
  }

  /** The volume text holds digits and points only. */
  lemma VolumeTokenChars(piece: string)
    ensures forall i :: 0 <= i < |VolumeToken(piece)| ==> IsDigit(VolumeToken(piece)[i]) || VolumeToken(piece)[i] == '.'
  {
    var v := VolumeToken(piece);
    forall i | 0 <= i < |v|
      ensures IsDigit(v[i]) || v[i] == '.'
    {
      assert v[i] in v;
    }
  }

  /** `VolumeOf` is what the source computes: `float(volume)` when `is_num(volume)`, else `0.0`. */
  lemma VolumeOfIsNum(piece: string)
    ensures var v := VolumeToken(piece);
      VolumeOf(piece) == if IsNumeric(v) then VolumeValue(v) else 0.0
  {
    VolumeTokenChars(piece);
    DecimalTokenParse(VolumeToken(piece));
  }

  /** A title with both brackets gives a name with no `(`: the name is cut at the first one. */
  lemma TitleNameBeforeParen(title: string)
    requires '(' in Strip(title) && ')' in Strip(title)
    ensures '(' !in ParseTitle(title).name
    ensures |ParseTitle(title).name| < |Strip(title)|
  {
    var name := Strip(title);
    var before := BeforeFirst(name, '(');
    assert '(' !in before && |before| < |name|;
    var a, b := StripCharsSlice(before, Whitespace);
    assert ParseTitle(title).name == before[a..b];
  }

  /** A title `Name (piece` splits into the stripped name and the volume read from `piece`. */
  lemma TitleSplit(name: string, piece: string)
    requires name != [] && !IsSpace(name[0]) && !IsSpace(name[|name| - 1]) && '(' !in name
    requires '(' !in piece && piece != [] && piece[|piece| - 1] == ')'
    ensures ParseTitle(name + " (" + piece) == Title(name, VolumeOf(piece))
  {
    TitleIsStripped(name, piece);
    TitleParenSplit(name, piece);
    TitleNamePart(name, piece);
    ParseTitleOfParts(name + " (" + piece, name, piece);
  }

  /** The pieces `split('(')` makes of `name (piece`. */
  lemma TitleParenSplit(name: string, piece: string)
    requires '(' !in name && '(' !in piece && piece != [] && piece[|piece| - 1] == ')'
    ensures ')' in name + " (" + piece
    ensures BeforeFirst(name + " (" + piece, '(') == name + " "
    ensures '(' in name + " (" + piece && SecondPiece(name + " (" + piece, '(') == piece
  {
    var title := name + " (" + piece;
    assert title[|title| - 1] == ')';
    assert title == (name + " ") + "(" + piece;
    SplitAtParen(name + " ", piece);
  }

  /** The stripped text before the `(` of `name (piece` is the name. */
  lemma TitleNamePart(name: string, piece: string)
    requires name != [] && !IsSpace(name[0]) && !IsSpace(name[|name| - 1]) && '(' !in name
    requires '(' !in piece && piece != [] && piece[|piece| - 1] == ')'
    ensures Strip(BeforeFirst(name + " (" + piece, '(')) == name
  {
    TitleParenSplit(name, piece);
    StripTrailingSpace(name, " ");
  }

  /** `parse_title` in terms of the pieces its `strip` and `split` calls produce. */
  lemma ParseTitleOfParts(title: string, name: string, piece: string)
    requires Strip(title) == title && '(' in title && ')' in title
    requires Strip(BeforeFirst(title, '(')) == name && SecondPiece(title, '(') == piece
    ensures ParseTitle(title) == Title(name, VolumeOf(piece))
  {
  }

  /** A title that starts with a name and ends with `)` has nothing for `strip()` to remove. */
  lemma TitleIsStripped(name: string, piece: string)
    requires name != [] && !IsSpace(name[0])
    requires piece != [] && piece[|piece| - 1] == ')'
    ensures Strip(name + " (" + piece) == name + " (" + piece
  {
    var title := name + " (" + piece;
    assert title[0] == name[0];
    WhitespaceIsSpace(title[0]);
    assert title[|title| - 1] == ')';
    StripCharsNoop(title, Whitespace);
  }

  /** `split('(')` of `head(piece`, with no other `(`, gives `head` and `piece`. */
  lemma SplitAtParen(head: string, piece: string)
    requires '(' !in head && '(' !in piece
    ensures BeforeFirst(head + "(" + piece, '(') == head
    ensures '(' in head + "(" + piece && SecondPiece(head + "(" + piece, '(') == piece
  {
    var s := head + "(" + piece;
    assert s == head + ("(" + piece);
    IndexOfAppend(head, "(" + piece, '(');
    assert IndexOf(s, '(') == |head|;
    assert s[..|head|] == head;
    assert s[|head| + 1..] == piece + [];
    IndexOfAppend(piece, [], '(');
  }

  /** The volume text of `whole.frac unit)` is the number `whole.frac`. */
  lemma VolumeOfNumber(whole: string, frac: string, unit: string)
    requires AllDigits(whole) && AllDigits(frac)
    requires forall i :: 0 <= i < |unit| ==> unit[i] != '.' && !IsDigit(unit[i])
    ensures VolumeToken(whole + "." + frac + " " + unit + ")") == whole + "." + frac
  {
    var number := whole + "." + frac;
    var tail := " " + unit + ")";
    assert whole + "." + frac + " " + unit + ")" == number + tail;
    VolumeTokenIsFilter(number + tail);
    FilterAppend(VolumeChar, number, tail);
    NumberKept(whole, frac);
    UnitDropped(unit);
  }

  lemma NumberKept(whole: string, frac: string)
    requires AllDigits(whole) && AllDigits(frac)
    ensures Filter(VolumeChar, whole + "." + frac) == whole + "." + frac
  {
    var number := whole + "." + frac;
    forall i | 0 <= i < |number|
      ensures VolumeChar(number[i])
    {
      if i < |whole| {
        assert number[i] == whole[i];
      } else if i > |whole| {
        assert number[i] == frac[i - |whole| - 1];
      }
    }
    FilterKeepsEvery(VolumeChar, number);
  }

  lemma UnitDropped(unit: string)
    requires forall i :: 0 <= i < |unit| ==> unit[i] != '.' && !IsDigit(unit[i])
    ensures Filter(VolumeChar, " " + unit + ")") == []
  {
    assert forall i :: 0 <= i < |unit| ==> !VolumeChar(unit[i]);
    FilterDropsEvery(VolumeChar, unit);
    assert !VolumeChar(' ') && !VolumeChar(')');
    FilterSingleton(VolumeChar, ' ');
    FilterSingleton(VolumeChar, ')');
    FilterAppend(VolumeChar, " ", unit);
    FilterAppend(VolumeChar, " " + unit, ")");
  }

  /** `whole.frac unit)` has no `(` when the unit has none. */
  lemma NoOpenParen(whole: string, frac: string, unit: string)
    requires AllDigits(whole) && AllDigits(frac)
    requires forall i :: 0 <= i < |unit| ==> unit[i] != '('
    ensures '(' !in whole + "." + frac + " " + unit + ")"
  {
    var piece := whole + "." + frac + " " + unit + ")";
    forall i | 0 <= i < |piece| ensures piece[i] != '(' {
      if i < |whole| {
        assert piece[i] == whole[i];
      } else if |whole| < i <= |whole| + |frac| {
        assert piece[i] == frac[i - |whole| - 1];
      } else if |whole| + |frac| + 2 <= i < |whole| + |frac| + 2 + |unit| {
        assert piece[i] == unit[i - |whole| - |frac| - 2];
      }
    }
  }

  /**
   * Round trip of the title format `Name (whole.frac Unit)`: `parse` gives
   * back the name and the value of `whole.frac`, for a name that has no
   * `(` and no surrounding whitespace and a unit without `(`, digits or points.
   */
  lemma TitleRoundTrip(name: string, whole: string, frac: string, unit: string)
    requires name != [] && !IsSpace(name[0]) && !IsSpace(name[|name| - 1]) && '(' !in name
    requires whole != [] && AllDigits(whole) && AllDigits(frac)
    requires forall i :: 0 <= i < |unit| ==> unit[i] != '(' && unit[i] != '.' && !IsDigit(unit[i])
    ensures ParseTitle(name + " (" + whole + "." + frac + " " + unit + ")")
         == Title(name, DecimalOf(whole, frac))
  {
    var piece := whole + "." + frac + " " + unit + ")";
    assert name + " (" + whole + "." + frac + " " + unit + ")" == name + " (" + piece;
    NoOpenParen(whole, frac, unit);
    TitleSplit(name, piece);
    VolumeOfNumber(whole, frac, unit);
    DecimalValue(whole, frac);
  }

  // ---------------------------------------------------------------- price, availability, description

  /** `float(text.strip().strip('$'))`, `0.0` when `float` raises, as it does on a blank text. */
  function ParsePrice(text: string): (p: PyFloat)
    ensures Strip(text) == [] ==> p == Finite(0.0)
  {
    match ParseFloat(StripChars(Strip(text), {'$'}))
    case Some(f) => f
    case None => Finite(0.0)
  }

  /** The price of a page; `0.0` when the price text is missing. */
  function PriceOf(html: Option<Page>): (p: PyFloat)
    ensures html.None? || html.value.price.None? ==> p == Finite(0.0)
    ensures html.Some? && html.value.price.Some? && Strip(html.value.price.value) == [] ==> p == Finite(0.0)
  {
    if html.Some? && html.value.price.Some? then ParsePrice(html.value.price.value) else Finite(0.0)
  }

  /** `$number` strips down to `number` when it starts with a digit and ends with a digit or a point. */
  lemma PriceText(number: string)
    requires number != [] && IsDigit(number[0])
    requires IsDigit(number[|number| - 1]) || number[|number| - 1] == '.'
    ensures StripChars(Strip("$" + number), {'$'}) == number
  {
    assert number[0] != '$' && number[|number| - 1] != '$';
    DollarHasNoSpace(number);
    DollarStripped(number);
  }

  lemma DollarHasNoSpace(number: string)
    requires number != [] && (IsDigit(number[|number| - 1]) || number[|number| - 1] == '.')
    ensures Strip("$" + number) == "$" + number
  {
    var text := "$" + number;
    assert text[|text| - 1] == number[|number| - 1];
    WhitespaceIsSpace(text[0]);
    WhitespaceIsSpace(text[|text| - 1]);
    StripCharsNoop(text, Whitespace);
  }

  lemma DollarStripped(number: string)
    requires number != [] && number[0] != '$' && number[|number| - 1] != '$'
    ensures StripChars("$" + number, {'$'}) == number
  {
    LStripSkips('$', number, {'$'});
    assert LStrip("$" + number, {'$'}) == LStrip(number, {'$'});
    StripCharsNoop(number, {'$'});
  }

  /** Round trip of the price format `$whole.frac`. */
  lemma PriceRoundTrip(whole: string, frac: string)
    requires whole != [] && AllDigits(whole) && AllDigits(frac)
    ensures ParsePrice("$" + whole + "." + frac) == Finite(DecimalOf(whole, frac))
  {
    var number := whole + "." + frac;
    assert "$" + whole + "." + frac == "$" + number;
    assert number[0] == whole[0];
    if frac != [] {
      assert number[|number| - 1] == frac[|frac| - 1];
    }
    PriceText(number);
    DecimalIsNumeric(whole, frac);
  }

  /** `int(text.strip().split()[0])`, `0` when there is no field or `int` raises. */
  function ParseStock(text: string): (n: int)
    ensures (forall i :: 0 <= i < |text| ==> IsSpace(text[i])) ==> n == 0
  {
    match FirstField(Strip(text))
    case None => 0
    case Some(token) =>
      match ParseInt(token)
      case None => 0
      case Some(n) => n
  }

  /** The number available on a page; `0` when the availability text is missing. */
  function StockOf(html: Option<Page>): (n: int)
    ensures html.None? || html.value.stock.None? ==> n == 0
  {
    if html.Some? && html.value.stock.Some? then ParseStock(html.value.stock.value) else 0
  }

  /** The first field of `count rest` is `count`, for a `count` without whitespace. */
  lemma StockField(count: string, rest: string)
    requires count != [] && forall i :: 0 <= i < |count| ==> !IsSpace(count[i])
    ensures FirstField(Strip(count + " " + rest)) == Some(count)
  {
    var text := count + " " + rest;
    var a, b := StripCharsSlice(text, Whitespace);
    WhitespaceIsSpace(text[0]);
    assert a == 0;
    assert text[|count| - 1] == count[|count| - 1];
    WhitespaceIsSpace(text[|count| - 1]);
    assert b >= |count|;
    var t := text[..b];
    assert t == count + t[|count|..];
    assert t[|count|..] == [] || t[|count|] == ' ';
    WhitespaceIsSpace(t[0]);
    assert LStrip(t, Whitespace) == t;
    WordOfPrefix(count, t[|count|..]);
  }

  /** Round trip of the availability format `count words...`. */
  lemma StockRoundTrip(count: string, rest: string)
    requires count != [] && AllDigits(count)
    ensures ParseStock(count + " " + rest) == DigitsValue(count)
  {
    CountToken(count);
    StockField(count, rest);
  }

  /** A digit string is one whitespace-free token that `int` reads as its decimal value. */
  lemma CountToken(count: string)
    requires count != [] && AllDigits(count)
    ensures forall i :: 0 <= i < |count| ==> !IsSpace(count[i])
    ensures ParseInt(count) == Some(DigitsValue(count))
  {
    assert IsDigit(count[0]);
    forall i | 0 <= i < |count|
      ensures !IsSpace(count[i])
    {
      assert IsDigit(count[i]);
    }
  }

  /** The stripped description of a page; `''` when it is missing. */
  function DescOf(html: Option<Page>): (d: string)
    ensures html.None? || html.value.desc.None? ==> d == ""
    ensures d != [] ==> !IsSpace(d[0]) && !IsSpace(d[|d| - 1])
  {
    if html.Some? && html.value.desc.Some? then Strip(html.value.desc.value) else ""
  }

  // ---------------------------------------------------------------- get_abv and get_ratio

  /** `max_abv`: a found percentage at or above it is rejected. */
  const MaxAbv: real := 30.0

  /**
   * What `get_abv` returns for a search outcome: the search error escapes,
   * and a percentage is returned exactly when one was found below the ceiling.
   */
  function AbvOutcome(search: Search): (r: PyResult<Option<real>>)
    ensures r.Raise? <==> search.SearchFailed?
    ensures r.Return? && r.value.Some? <==> search.Match? && search.abv < MaxAbv
    ensures r.Return? && r.value.Some? ==> r.value.value == search.abv && r.value.value < MaxAbv
  {
    match search
    case SearchFailed => Raise(SearchError)
    case NoMatch => Return(None)
    case Match(abv) => if abv < MaxAbv then Return(Some(abv)) else Return(None)
  }

  /** Python's float division `n / d` for a finite `n`; `None` is `ZeroDivisionError`. */
  function Divide(n: real, d: PyFloat): (r: Option<PyFloat>)
    ensures r.None? <==> d == Finite(0.0)
    ensures d.Finite? && d.value != 0.0 ==> r.Some? && r.value.Finite? && r.value.value * d.value == n
  {
    match d
    case Finite(x) => if x == 0.0 then None else Some(Finite(n / x))
    case PosInf => Some(Finite(0.0))
    case NegInf => Some(Finite(0.0))
    case NaN => Some(NaN)
  }

  /** The alcohol in a keg: `alcohol_pct * .1 * volume`, with the volume in gallons. */
  function Alcohol(pct: real, volume: real): (a: real)
    ensures volume == 0.0 ==> a == 0.0
    ensures pct >= 0.0 && volume >= 0.0 ==> a >= 0.0
  {
    pct * 0.1 * volume
  }

  /**
   * What `get_ratio` returns, given what `get_abv` returned and the parsed
   * volume and price: `None` exactly when `get_abv` gave `None`,
   * `ZeroDivisionError` on a zero price, and otherwise the gallons of alcohol
   * per dollar, which times the price give the alcohol in the keg.
   */
  function RatioOutcome(abv: PyResult<Option<real>>, volume: real, price: PyFloat): (r: PyResult<Option<PyFloat>>)
    ensures r == Return(None) <==> abv == Return(None)
    ensures abv.Raise? ==> r == Raise(abv.error)
    ensures abv.Return? && abv.value.Some? && price == Finite(0.0) ==> r == Raise(ZeroDivisionError)
    ensures abv.Return? && abv.value.Some? && price.Finite? && price.value != 0.0 ==>
      r.Return? && r.value.Some? && r.value.value.Finite?
      && r.value.value.value * price.value == Alcohol(abv.value.value, volume)
  {
    if abv.Raise? then Raise(abv.error)
    else if abv.value.None? then Return(None)
    else
      var q := Divide(Alcohol(abv.value.value, volume), price);
      if q.None? then Raise(ZeroDivisionError) else Return(q)
  }

  /** The name and volume part of `parse`, with its fallback to `('', 0.0)`. */
  method ReadTitle(html: Option<Page>) returns (t: Title)
    ensures t == TitleOf(html)
  {
    if html.None? || html.value.title.None? {
      return Title("", 0.0);
    }
    var name := Strip(html.value.title.value);
    var volume: real;
    if '(' in name && ')' in name {
      var splitName0 := BeforeFirst(name, '(');
      var splitName1 := SecondPiece(name, '(');
      name := Strip(splitName0);
      var token := FilterVolume(Strip(StripChars(splitName1, {')'})));
      var isNum := IsNum(token);
      if isNum {
        volume := VolumeValue(token);
      } else {
        volume := 0.0;
      }
      VolumeOfIsNum(splitName1);
    } else {
      volume := 0.0;
    }
    t := Title(name, volume);
  }

  /** The price part of `parse`, with its fallback to `0.0`. */
  method ReadPrice(html: Option<Page>) returns (price: PyFloat)
    ensures price == PriceOf(html)
  {
    if html.None? || html.value.price.None? {
      return Finite(0.0);
    }
    price := ParsePrice(html.value.price.value);
  }

  /** The availability part of `parse`, with its fallback to `0`. */
  method ReadStock(html: Option<Page>) returns (numAvail: int)
    ensures numAvail == StockOf(html)
  {
    if html.None? || html.value.stock.None? {
      return 0;
    }
    numAvail := ParseStock(html.value.stock.value);
  }

  /** The description part of `parse`, with its fallback to `''`. */
  method ReadDesc(html: Option<Page>) returns (desc: string)
    ensures desc == DescOf(html)
  {
    if html.None? || html.value.desc.None? {
      return "";
    }
    desc := Strip(html.value.desc.value);
  }

  // ---------------------------------------------------------------- the keg

  class BeerKeg {
    /** The BevMo page of the keg. */
    const url: string
    /** Whether `get_abv` and `get_ratio` report what they find. */
    const verbose: bool
    /** Set by the first `parse`, so that the page is read at most once. */
    var parsed: bool
    /** The gallons of alcohol per dollar, once `get_ratio` has found them. */
    var ratio: Option<PyFloat>
    var name: string
    var volume: real
    var price: PyFloat
    var numAvail: int
    var desc: string

    /** The fields hold what `parse` extracts from `html`. */
    ghost predicate Holds(html: Option<Page>)
      reads this
    {
      parsed
      && name == TitleOf(html).name && volume == TitleOf(html).volume
      && price == PriceOf(html) && numAvail == StockOf(html) && desc == DescOf(html)
    }

    /** `BeerKeg(url, verbose)`: not parsed, no ratio. */
    constructor(url: string, verbose: bool)
      ensures this.url == url && this.verbose == verbose
      ensures !parsed && ratio == None
    {
      this.url := url;
      this.verbose := verbose;
      parsed := false;
      ratio := None;
    }

    /**
     * `parse()`, with `html` the page `get_html(self.url)` returns.  A
     * second call changes nothing; the first sets `parsed` and every field,
     * each falling back to its own default.
     */
    method Parse(html: Option<Page>)
      modifies this
      ensures old(parsed) ==> unchanged(this)
      ensures !old(parsed) ==> Holds(html) && ratio == old(ratio)
    {
      if parsed {
        return;
      }
      var title := ReadTitle(html);
      var cost := ReadPrice(html);
      var count := ReadStock(html);
      var text := ReadDesc(html);
      Store(title, cost, count, text);
    }

    /** The assignments that end `parse`. */
    method Store(title: Title, cost: PyFloat, count: int, text: string)
      modifies this
      ensures parsed && name == title.name && volume == title.volume
      ensures price == cost && numAvail == count && desc == text
      ensures ratio == old(ratio)
    {
      parsed, name, volume, price, numAvail, desc := true, title.name, title.volume, cost, count, text;
    }

    /** `get_abv()`: parse first if needed, then check the search outcome against the ceiling. */
    method GetAbv(html: Option<Page>, search: Search) returns (abv: PyResult<Option<real>>)
      modifies this
      ensures old(parsed) ==> unchanged(this)
      ensures !old(parsed) ==> Holds(html) && ratio == old(ratio)
      ensures abv == AbvOutcome(search)
    {
      if !parsed {
        Parse(html);
      }
      match search {
        case SearchFailed =>
          return Raise(SearchError);
        case NoMatch =>
          return Return(None);
        case Match(found) =>
          if found < MaxAbv {
            return Return(Some(found));
          }
          return Return(None);
      }
    }

    /** `get_ratio()`: the ratio is stored only when `get_abv` found a percentage and the division succeeded. */
    method GetRatio(html: Option<Page>, search: Search) returns (r: PyResult<Option<PyFloat>>)
      modifies this
      ensures old(parsed) ==> (name == old(name) && volume == old(volume) && price == old(price)
        && numAvail == old(numAvail) && desc == old(desc) && parsed)
      ensures !old(parsed) ==> Holds(html)
      ensures r == RatioOutcome(AbvOutcome(search), volume, price)
      ensures ratio == if r.Return? && r.value.Some? then r.value else old(ratio)
    {
      var alcoholPct := GetAbv(html, search);
      if alcoholPct.Raise? {
        return Raise(alcoholPct.error);
      }
      if alcoholPct.value.Some? {
        var q := Divide(Alcohol(alcoholPct.value.value, volume), price);
        if q.None? {
          return Raise(ZeroDivisionError);
        }
        ratio := q;
        return Return(q);
      }
      return Return(None);
    }
  }
}
