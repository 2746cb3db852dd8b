/**
 * alc_reference.py: turns the scraped cells of the calorie tables into the
 * alcohol reference `{first letter: ...}`.
 *
 * The cells go through three stages:
 *   - `filter_ref_text` cleans every cell;
 *   - `structure_ref_text` keeps only `brand, beer, alcohol %` triples;
 *   - `make_ref_dict` folds the triples into ordered dictionaries and
 *     re-keys them by the brand's first letter.
 * The pure stages are functions; the loops of the source are methods
 * proved against those functions.
 */
module AlcReference {
  import opened Wrappers
  import opened Seqs
  import opened Py
  import opened Utils
  import opened OrderedDicts

  // ---------------------------------------------------------------- filter_ref_text

  /** A cell that survives the stripping step. */
  predicate NonBlank(cell: string)
  {
    cell != ""
  }

  /** `filter_ref_text(cells)`: strip every cell, drop the cells that strip to `""`, keep the printable characters. */
  function FilterRefText(cells: seq<string>): (r: seq<string>)
    ensures |r| <= |cells|
    ensures forall i, k :: 0 <= i < |r| && 0 <= k < |r[i]| ==> IsPrintable(r[i][k])
  {
    var kept := Filter(NonBlank, Map(Strip, cells));
    var r := Map(FilterPrintable, kept);
    assert forall i, k :: 0 <= i < |r| && 0 <= k < |r[i]| ==> r[i][k] in r[i];
    r
  }

  /** Cleaning works cell by cell and keeps the order of the cells. */
  lemma FilterRefTextAppend(a: seq<string>, b: seq<string>)
    ensures FilterRefText(a + b) == FilterRefText(a) + FilterRefText(b)
  {
    MapAppend(Strip, a, b);
    FilterAppend(NonBlank, Map(Strip, a), Map(Strip, b));
    MapAppend(FilterPrintable, Filter(NonBlank, Map(Strip, a)), Filter(NonBlank, Map(Strip, b)));
  }

  /** A single cell: dropped when it strips to `""`, otherwise stripped and cleaned of unprintable characters. */
  lemma FilterRefTextCell(c: string)
    ensures FilterRefText([c]) == if Strip(c) == "" then [] else [FilterPrintable(Strip(c))]
  {
    StripOneCell(c);
    CleanOneCell(Strip(c));
  }

  lemma StripOneCell(c: string)
    ensures Map(Strip, [c]) == [Strip(c)]
  {
  }

  lemma CleanOneCell(t: string)
    ensures Map(FilterPrintable, Filter(NonBlank, [t])) == if t == "" then [] else [FilterPrintable(t)]
  {
    FilterSingleton(NonBlank, t);
  }

  // ---------------------------------------------------------------- structure_ref_text, first pass

  /** The first pass: a numeric entry is skipped when the entry before it in the input is numeric. */
  function FirstPass(isNum: string -> bool, s: seq<string>): (r: seq<string>)
    ensures |r| <= |s|
  {
    if s == [] then []
    else
      var p := s[..|s| - 1];
      var x := s[|s| - 1];
      if isNum(x) && p != [] && isNum(p[|p| - 1]) then FirstPass(isNum, p) else FirstPass(isNum, p) + [x]
  }

  /** No numeric entry is directly followed by another numeric entry. */
  ghost predicate NoAdjacentNumbers(isNum: string -> bool, s: seq<string>)
  {
    forall i :: 0 <= i < |s| - 1 ==> !(isNum(s[i]) && isNum(s[i + 1]))
  }

  /** The first pass keeps the first entry, and its last entry is numeric exactly when the input's is. */
  lemma {:induction false} FirstPassLast(isNum: string -> bool, s: seq<string>)
    requires s != []
    ensures FirstPass(isNum, s) != []
    ensures isNum(FirstPass(isNum, s)[|FirstPass(isNum, s)| - 1]) == isNum(s[|s| - 1])
  {
    var p := s[..|s| - 1];
    if p != [] {
      FirstPassLast(isNum, p);
    }
  }

  /** After the first pass no two numeric entries are adjacent. */
  lemma {:induction false} FirstPassNoAdjacent(isNum: string -> bool, s: seq<string>)
    ensures NoAdjacentNumbers(isNum, FirstPass(isNum, s))
  {
    if s != [] {
      var p := s[..|s| - 1];
      var x := s[|s| - 1];
      FirstPassNoAdjacent(isNum, p);
      if !(isNum(x) && p != [] && isNum(p[|p| - 1])) {
        var f := FirstPass(isNum, p);
        if p != [] {
          FirstPassLast(isNum, p);
        }
        assert FirstPass(isNum, s) == f + [x];
      }
    }
  }

  /** The first pass only deletes entries. */
  lemma {:induction false} FirstPassSubseq(isNum: string -> bool, s: seq<string>)
    ensures IsSubseq(FirstPass(isNum, s), s)
  {
    if s != [] {
      var p := s[..|s| - 1];
      var x := s[|s| - 1];
      FirstPassSubseq(isNum, p);
      assert s == p + [x];
      if isNum(x) && p != [] && isNum(p[|p| - 1]) {
        SubseqAppendRight(FirstPass(isNum, p), p, x);
      } else {
        SubseqAppendBoth(FirstPass(isNum, p), p, x);
      }
    }
  }

  /** The first pass keeps every non-numeric entry: the words of its output are the words of its input. */
  lemma {:induction false} FirstPassKeepsWords(isNum: string -> bool, s: seq<string>)
    ensures Filter(x => !isNum(x), FirstPass(isNum, s)) == Filter(x => !isNum(x), s)
  {
    if s != [] {
      var p := s[..|s| - 1];
      var x := s[|s| - 1];
      FirstPassKeepsWords(isNum, p);
      if !(isNum(x) && p != [] && isNum(p[|p| - 1])) {
        FilterAppend(x => !isNum(x), FirstPass(isNum, p), [x]);
        FilterSingleton(x => !isNum(x), x);
      }
    }
  }

  /** What the first pass keeps of a prefix of its input is a prefix of what it keeps of the whole input. */
  lemma {:induction false} FirstPassPrefix(isNum: string -> bool, s: seq<string>, n: int)
    requires 0 <= n <= |s|
    ensures FirstPass(isNum, s[..n]) <= FirstPass(isNum, s)
    decreases |s|
  {
    if n < |s| {
      var p := s[..|s| - 1];
      assert p[..n] == s[..n];
      FirstPassPrefix(isNum, p, n);
    } else {
      assert s[..n] == s;
    }
  }

  /**
   * The first of a run of numbers is kept: an entry that is first, or whose
   * predecessor in the input is not numeric, follows directly what the pass
   * keeps of the entries before it.
   */
  lemma FirstPassKeepsRunHead(isNum: string -> bool, s: seq<string>, i: int)
    requires 0 <= i < |s| && (i == 0 || !isNum(s[i - 1]))
    ensures FirstPass(isNum, s[..i]) + [s[i]] <= FirstPass(isNum, s)
  {
    var t := s[..i + 1];
    assert t[..i] == s[..i];
    FirstPassPrefix(isNum, s, i + 1);
  }

  /** A number whose predecessor in the input is a number is skipped: the pass keeps nothing more for it. */
  lemma FirstPassSkipsRepeat(isNum: string -> bool, s: seq<string>, i: int)
    requires 0 < i < |s| && isNum(s[i]) && isNum(s[i - 1])
    ensures FirstPass(isNum, s[..i + 1]) == FirstPass(isNum, s[..i])
  {
    var t := s[..i + 1];
    assert t[..i] == s[..i];
  }

  // ---------------------------------------------------------------- structure_ref_text, second pass

  /** The state of the second pass: the triples emitted so far and the current `line`. */
  datatype Split = Split(done: seq<string>, line: seq<string>)

  /** What the second pass emits for a `line` closed by a number: all of it when it has three entries, else its `unique` when that has three. */
  function Repair(line: seq<string>): (r: seq<string>)
    ensures |r| == 0 || |r| == 3
    ensures |r| <= |line| && IsSubseq(r, line)
    ensures |line| == 3 ==> r == line
    ensures |line| != 3 ==> (r != [] <==> |Dedup(line)| == 3)
    ensures |line| != 3 && |Dedup(line)| == 3 ==> r == Dedup(line)
  {
    SubseqRefl(line);
    DedupSubseq(line);
    if |line| == 3 then line
    else
      var u := Dedup(line);
      if |u| == 3 then u else []
  }

  /** The second pass over `s`: entries accumulate in `line`, and each numeric entry closes it. */
  function Cut(isNum: string -> bool, s: seq<string>): (st: Split)
    ensures |st.done| + |st.line| <= |s|
    ensures |st.done| % 3 == 0
    ensures forall i :: 0 <= i < |st.line| ==> !isNum(st.line[i])
  {
    if s == [] then Split([], [])
    else
      var st := Cut(isNum, s[..|s| - 1]);
      var x := s[|s| - 1];
      var line := st.line + [x];
      if isNum(x) then
        var r := Repair(line);
        assert |st.done + r| % 3 == 0 by {
          if r != [] {
            assert |st.done + r| == |st.done| + 3;
          }
        }
        Split(st.done + r, [])
      else
        assert forall i :: 0 <= i < |st.line| ==> line[i] == st.line[i];
        Split(st.done, line)
  }

  /** `structure_ref_text(s)`. */
  function Structure(isNum: string -> bool, s: seq<string>): (r: seq<string>)
    ensures |r| <= |s|
    ensures |r| % 3 == 0
  {
    Cut(isNum, FirstPass(isNum, s)).done
  }

  /** The triples that the `while` loop of `make_ref_dict` pops off the front of a list. */
  datatype Record = Record(brand: string, beer: string, pct: string)

  /** The records taken three entries at a time from the front; fewer than three leftover entries are not read. */
  function Records(t: seq<string>): (rs: seq<Record>)
    ensures |rs| == |t| / 3
    decreases |t|
  {
    if |t| < 3 then [] else [Record(t[0], t[1], t[2])] + Records(t[3..])
  }

  /** Brand and beer are words and the alcohol entry is a number. */
  predicate WellFormed(isNum: string -> bool, r: Record)
  {
    !isNum(r.brand) && !isNum(r.beer) && isNum(r.pct)
  }

  lemma {:induction false} RecordsAppend(a: seq<string>, b: seq<string>)
    requires |a| % 3 == 0
    ensures Records(a + b) == Records(a) + Records(b)
    decreases |a|
  {
    if a == [] {
      assert a + b == b;
    } else {
      assert (a + b)[3..] == a[3..] + b;
      RecordsAppend(a[3..], b);
    }
  }

  /** A line closed by a number is emitted as nothing or as one well-formed triple. */
  lemma RepairShape(isNum: string -> bool, words: seq<string>, x: string)
    requires forall i :: 0 <= i < |words| ==> !isNum(words[i])
    requires isNum(x)
    ensures var r := Repair(words + [x]);
      r == [] || (|r| == 3 && WellFormed(isNum, Record(r[0], r[1], r[2])))
  {
    var line := words + [x];
    if |line| != 3 {
      var d := Dedup(words);
      assert line[..|line| - 1] == words;
      if x in d {
        DedupMember(words, x);
        assert false;
      }
      assert Dedup(line) == d + [x];
      if |d| == 2 {
        assert d[0] in d && d[1] in d;
        DedupMember(words, d[0]);
        DedupMember(words, d[1]);
      }
    }
  }

  /** Every record the second pass emits is well formed. */
  lemma {:induction false} CutShape(isNum: string -> bool, s: seq<string>)
    ensures forall r :: r in Records(Cut(isNum, s).done) ==> WellFormed(isNum, r)
  {
    if s != [] {
      var p := s[..|s| - 1];
      var x := s[|s| - 1];
      var st := Cut(isNum, p);
      CutShape(isNum, p);
      if isNum(x) {
        var r := Repair(st.line + [x]);
        RepairShape(isNum, st.line, x);
        RecordsAppend(st.done, r);
        if r != [] {
          assert r[3..] == [];
          assert Records(r) == [Record(r[0], r[1], r[2])];
        }
      }
    }
  }

  /**
   * The output of `structure_ref_text` is a whole number of triples, each
   * two words followed by a number, and is no longer than the input.
   */
  lemma StructureShape(isNum: string -> bool, s: seq<string>)
    ensures |Structure(isNum, s)| % 3 == 0 && |Structure(isNum, s)| <= |s|
    ensures 3 * |Records(Structure(isNum, s))| == |Structure(isNum, s)|
    ensures forall r :: r in Records(Structure(isNum, s)) ==> WellFormed(isNum, r)
  {
    CutShape(isNum, FirstPass(isNum, s));
  }

  /** A line that ends in a number leaves the second pass with an empty `line`. */
  lemma CutLineEmpty(isNum: string -> bool, s: seq<string>)
    requires s != [] && isNum(s[|s| - 1])
    ensures Cut(isNum, s).line == []
  {
  }

  /**
   * The first pass does not change what the second pass emits: a skipped
   * number would have formed a line of its own, which is discarded.
   */
  lemma {:induction false} FirstPassRedundant(isNum: string -> bool, s: seq<string>)
    ensures Cut(isNum, FirstPass(isNum, s)) == Cut(isNum, s)
  {
    if s != [] {
      var p := s[..|s| - 1];
      var x := s[|s| - 1];
      FirstPassRedundant(isNum, p);
      if isNum(x) && p != [] && isNum(p[|p| - 1]) {
        CutLineEmpty(isNum, p);
        assert [x][..0] == [];
        assert Dedup([x]) == [x];
      } else {
        var f := FirstPass(isNum, p);
        assert (f + [x])[..|f|] == f;
      }
    }
  }

  /** Entries after the last number never reach the output. */
  lemma {:induction false} TrailingWordsIgnored(isNum: string -> bool, s: seq<string>, t: seq<string>)
    requires forall i :: 0 <= i < |t| ==> !isNum(t[i])
    ensures Structure(isNum, s + t) == Structure(isNum, s)
  {
    FirstPassTrailing(isNum, s, t);
    CutTrailing(isNum, FirstPass(isNum, s), t);
  }

  lemma {:induction false} FirstPassTrailing(isNum: string -> bool, s: seq<string>, t: seq<string>)
    requires forall i :: 0 <= i < |t| ==> !isNum(t[i])
    ensures FirstPass(isNum, s + t) == FirstPass(isNum, s) + t
  {
    if t == [] {
      assert s + t == s;
    } else {
      var t' := t[..|t| - 1];
      var x := t[|t| - 1];
      FirstPassTrailing(isNum, s, t');
      assert !isNum(x);
      assert (s + t)[..|s + t| - 1] == s + t' && (s + t)[|s + t| - 1] == x;
      assert FirstPass(isNum, s + t) == FirstPass(isNum, s + t') + [x];
      assert t == t' + [x];
    }
  }

  lemma {:induction false} CutTrailing(isNum: string -> bool, s: seq<string>, t: seq<string>)
    requires forall i :: 0 <= i < |t| ==> !isNum(t[i])
    ensures Cut(isNum, s + t).done == Cut(isNum, s).done
  {
    if t == [] {
      assert s + t == s;
    } else {
      var t' := t[..|t| - 1];
      CutTrailing(isNum, s, t');
      assert (s + t)[..|s + t| - 1] == s + t';
    }
  }

  /** `structure_ref_text(ref_text)`: the flag-driven first loop, then the line-cutting second loop. */
  method StructureRefText(refText: seq<string>) returns (structured: seq<string>)
    ensures structured == Structure(IsNumeric, refText)
  {
    var filtered := DropRepeatedNumbers(refText);
    structured := CutIntoTriples(filtered);
  }

  /** The first loop of `structure_ref_text`: a number right after a number is skipped. */
  method DropRepeatedNumbers(refText: seq<string>) returns (filtered: seq<string>)
    ensures filtered == FirstPass(IsNumeric, refText)
  {
    filtered := [];
    var prevWasNum := false;
    for i := 0 to |refText|
      invariant filtered == FirstPass(IsNumeric, refText[..i])
      invariant prevWasNum == (i > 0 && IsNumeric(refText[i - 1]))
    {
      var entry := refText[i];
      assert refText[..i + 1][..i] == refText[..i];
      var num := IsNum(entry);
      if num {
        if prevWasNum {
          continue;
        }
        prevWasNum := true;
        filtered := filtered + [entry];
      } else {
        prevWasNum := false;
        filtered := filtered + [entry];
      }
    }
    assert refText[..|refText|] == refText;
  }

  /** The second loop of `structure_ref_text`: each number closes a `line`, which is kept when it is (or its `unique` is) a triple. */
  method CutIntoTriples(filtered: seq<string>) returns (structured: seq<string>)
    ensures structured == Cut(IsNumeric, filtered).done
  {
    structured := [];
    var line: seq<string> := [];
    for i := 0 to |filtered|
      invariant Cut(IsNumeric, filtered[..i]) == Split(structured, line)
    {
      var entry := filtered[i];
      assert filtered[..i + 1][..i] == filtered[..i];
      line := line + [entry];
      var num := IsNum(entry);
      if num {
        var kept := CloseLine(line);
        structured := structured + kept;
        line := [];
      }
    }
    assert filtered[..|filtered|] == filtered;
  }

  /** What the second loop adds to `structured` when a number closes `line`. */
  method CloseLine(line: seq<string>) returns (kept: seq<string>)
    ensures kept == Repair(line)
  {
    if |line| == 3 {
      return line;
    }
    var u := Unique(line);
    if |u| == 3 {
      return u;
    }
    return [];
  }

  // ---------------------------------------------------------------- make_ref_dict: the brand table

  /** `{beer: alcohol %}` for one brand. */
  type BeerMap = ODict<string, string>

  /** `{brand: {beer: alcohol %}}`. */
  type BrandTable = ODict<string, BeerMap>

  /** The beer map of `brand`, or an empty one when `brand` is not a key yet. */
  function BeersOf(d: BrandTable, brand: string): (m: BeerMap)
    ensures brand !in d.items ==> m == Empty()
  {
    if brand in d.items then d.items[brand] else Empty()
  }

  /** The outer map and every inner map are well-formed ordered dictionaries. */
  ghost predicate TableValid(d: BrandTable)
  {
    d.Valid() && forall b :: b in d.items ==> d.items[b].Valid()
  }

  /** One round of the `while` loop: `d[brand][beer] = pct`, creating `d[brand]` first when it is missing. */
  function Insert(d: BrandTable, r: Record): (d': BrandTable)
    ensures r.brand in d'.items && r.beer in d'.items[r.brand].items
  {
    d.Put(r.brand, BeersOf(d, r.brand).Put(r.beer, r.pct))
  }

  /** The brand table after folding the records in order. */
  function Table(rs: seq<Record>): (d: BrandTable)
    ensures forall i :: 0 <= i < |rs| ==> rs[i].brand in d.items
  {
    if rs == [] then Empty() else Insert(Table(rs[..|rs| - 1]), rs[|rs| - 1])
  }

  /** The fold keeps both levels well-formed ordered dictionaries. */
  lemma {:induction false} TableIsValid(rs: seq<Record>)
    ensures TableValid(Table(rs))
  {
    if rs != [] {
      TableIsValid(rs[..|rs| - 1]);
    }
  }

  /** `d[brand][beer]`, or `None` where Python would raise `KeyError`. */
  function Lookup(d: BrandTable, brand: string, beer: string): (r: Option<string>)
    ensures r.Some? <==> brand in d.items && beer in d.items[brand].items
  {
    if brand in d.items && beer in d.items[brand].items then Some(d.items[brand].items[beer]) else None
  }

  function Brands(rs: seq<Record>): (bs: seq<string>)
    ensures |bs| == |rs| && forall i :: 0 <= i < |rs| ==> bs[i] == rs[i].brand
  {
    Map((r: Record) => r.brand, rs)
  }

  /** Record `i` is the last one for this brand and beer. */
  predicate IsLastFor(rs: seq<Record>, i: int, brand: string, beer: string)
  {
    0 <= i < |rs| && rs[i].brand == brand && rs[i].beer == beer
    && forall j :: i < j < |rs| ==> !(rs[j].brand == brand && rs[j].beer == beer)
  }

  /**
   * The brands of the table are the distinct brands of the records in the
   * order of their first occurrence, so there are no more of them than
   * records.
   */
  lemma {:induction false} TableBrands(rs: seq<Record>)
    ensures Table(rs).keys == Dedup(Brands(rs))
    ensures |Table(rs).keys| <= |rs|
  {
    if rs != [] {
      var p := rs[..|rs| - 1];
      TableBrands(p);
      TableIsValid(p);
      DedupMembers(Brands(p));
      assert Brands(rs)[..|rs| - 1] == Brands(p);
    }
  }

  /** Last write wins: a brand and beer map to the alcohol % of the last record naming both. */
  lemma {:induction false} TableFindsLast(rs: seq<Record>, i: int, brand: string, beer: string)
    requires IsLastFor(rs, i, brand, beer)
    ensures Lookup(Table(rs), brand, beer) == Some(rs[i].pct)
  {
    var p := rs[..|rs| - 1];
    if i < |rs| - 1 {
      TableFindsLast(p, i, brand, beer);
    }
  }

  /** Every value stored in the table is the alcohol % of some record naming that brand and beer. */
  lemma {:induction false} TableValueFromRecord(rs: seq<Record>, brand: string, beer: string)
    requires Lookup(Table(rs), brand, beer).Some?
    ensures exists i :: 0 <= i < |rs| && rs[i] == Record(brand, beer, Lookup(Table(rs), brand, beer).value)
  {
    var p := rs[..|rs| - 1];
    var r := rs[|rs| - 1];
    if !(r.brand == brand && r.beer == beer) {
      TableValueFromRecord(p, brand, beer);
      var i :| 0 <= i < |p| && p[i] == Record(brand, beer, Lookup(Table(p), brand, beer).value);
      assert rs[i] == p[i];
    } else {
      assert rs[|rs| - 1] == r;
    }
  }

  /** A brand and beer that no record names are not in the table. */
  lemma {:induction false} TableMissing(rs: seq<Record>, brand: string, beer: string)
    requires forall j :: 0 <= j < |rs| ==> !(rs[j].brand == brand && rs[j].beer == beer)
    ensures Lookup(Table(rs), brand, beer) == None
  {
    if rs != [] {
      TableMissing(rs[..|rs| - 1], brand, beer);
    }
  }

  /** Appending three entries to a whole number of triples appends one record. */
  lemma RecordsSnoc(t: seq<string>, brand: string, beer: string, pct: string)
    requires |t| % 3 == 0
    ensures Records(t + [brand, beer, pct]) == Records(t) + [Record(brand, beer, pct)]
  {
    RecordsAppend(t, [brand, beer, pct]);
    assert [brand, beer, pct][3..] == [];
  }

  lemma TableSnoc(rs: seq<Record>, r: Record)
    ensures Table(rs + [r]) == Insert(Table(rs), r)
  {
    assert (rs + [r])[..|rs|] == rs;
  }

  /** The body of the `while` loop: create `d[brand]` when it is missing, then set `d[brand][beer] = pct`. */
  method SetBeer(d: BrandTable, brand: string, beer: string, pct: string) returns (d': BrandTable)
    ensures d' == Insert(d, Record(brand, beer, pct))
  {
    d' := d;
    if brand !in d'.items {
      d' := d'.Put(brand, Empty());
    }
    d' := d'.Put(brand, d'.items[brand].Put(beer, pct));
  }

  /** The `while` loop of `make_ref_dict`: pop three entries at a time and store them in nested ordered dictionaries. */
  method BuildBrandTable(structuredText: seq<string>) returns (refDict: BrandTable)
    ensures refDict == Table(Records(structuredText))
  {
    refDict := Empty();
    var rest := structuredText;
    ghost var consumed: seq<string> := [];
    while |rest| > 2
      invariant consumed + rest == structuredText && |consumed| % 3 == 0
      invariant refDict == Table(Records(consumed))
      decreases |rest|
    {
      var brand := rest[0];
      var beer := rest[1];
      var alcoholPct := rest[2];
      assert consumed + [brand, beer, alcoholPct] + rest[3..] == structuredText by {
        assert rest == [brand, beer, alcoholPct] + rest[3..];
      }
      rest := rest[3..];
      refDict := SetBeer(refDict, brand, beer, alcoholPct);
      TableStep(consumed, brand, beer, alcoholPct);
      consumed := consumed + [brand, beer, alcoholPct];
    }
    RecordsAppend(consumed, rest);
    assert Records(structuredText) == Records(consumed);
  }

  /** One round of the `while` loop adds one record to the table. */
  lemma TableStep(t: seq<string>, brand: string, beer: string, pct: string)
    requires |t| % 3 == 0
    ensures Table(Records(t + [brand, beer, pct])) == Insert(Table(Records(t)), Record(brand, beer, pct))
  {
    RecordsSnoc(t, brand, beer, pct);
    TableSnoc(Records(t), Record(brand, beer, pct));
  }

  // ---------------------------------------------------------------- make_ref_dict: first-letter re-keying

  /** `{first letter: beer map}`, the shape the re-keying loop produces. */
  type LetterTable = ODict<char, BeerMap>

  /**
   * The re-keying loop over the brands `keys` of `d`:
   * `organized[brand[0]] = d[brand]`.  `None` is the `IndexError` that
   * `brand[0]` raises on an empty brand.
   */
  function Rekey(keys: seq<string>, d: BrandTable): (r: Option<LetterTable>)
    ensures r.Some? ==> r.value.Valid()
  {
    if keys == [] then Some(Empty())
    else
      var brand := keys[|keys| - 1];
      match Rekey(keys[..|keys| - 1], d)
      case None => None
      case Some(o) => if brand == "" then None else Some(o.Put(brand[0], BeersOf(d, brand)))
  }

  /** The second half of `make_ref_dict`, as written: it raises exactly when some brand is empty. */
  function ByFirstLetter(d: BrandTable): (r: Option<LetterTable>)
    ensures r.None? <==> "" in d.keys
    ensures r.Some? ==> r.value.Valid()
  {
    RekeyFails(d.keys, d);
    Rekey(d.keys, d)
  }

  /** The re-keying raises exactly when some brand is the empty string. */
  lemma {:induction false} RekeyFails(keys: seq<string>, d: BrandTable)
    ensures Rekey(keys, d).None? <==> "" in keys
  {
    if keys != [] {
      var p := keys[..|keys| - 1];
      RekeyFails(p, d);
      assert keys == p + [keys[|keys| - 1]];
    }
  }

  /** The letters of the re-keyed table are the first letters of the brands. */
  lemma RekeyLetters(keys: seq<string>, d: BrandTable, c: char)
    requires "" !in keys
    ensures Rekey(keys, d).Some?
    ensures c in Rekey(keys, d).value.items <==> exists i :: 0 <= i < |keys| && keys[i][0] == c
  {
    RekeyFails(keys, d);
    if c in Rekey(keys, d).value.items {
      RekeyOnlyLetters(keys, d, c);
    } else {
      forall i | 0 <= i < |keys|
        ensures keys[i][0] != c
      {
        RekeyHasLetter(keys, d, i);
      }
    }
  }

  /** The first letter of every brand is a key of the re-keyed table. */
  lemma {:induction false} RekeyHasLetter(keys: seq<string>, d: BrandTable, i: int)
    requires "" !in keys && 0 <= i < |keys|
    ensures Rekey(keys, d).Some? && keys[i][0] in Rekey(keys, d).value.items
  {
    RekeyFails(keys, d);
    if i < |keys| - 1 {
      var p := keys[..|keys| - 1];
      assert p[i] == keys[i];
      RekeyHasLetter(p, d, i);
    }
  }

  /** Every key of the re-keyed table is the first letter of some brand. */
  lemma {:induction false} RekeyOnlyLetters(keys: seq<string>, d: BrandTable, c: char)
    requires "" !in keys
    requires Rekey(keys, d).Some? && c in Rekey(keys, d).value.items
    ensures exists i :: 0 <= i < |keys| && keys[i][0] == c
  {
    assert keys != [];
    var p := keys[..|keys| - 1];
    var b := keys[|keys| - 1];
    assert "" !in p && b != "";
    RekeyFails(p, d);
    if b[0] == c {
      assert keys[|keys| - 1][0] == c;
    } else {
      assert c in Rekey(p, d).value.items;
      RekeyOnlyLetters(p, d, c);
      var i :| 0 <= i < |p| && p[i][0] == c;
      assert keys[i] == p[i];
    }
  }

  /** Each letter holds the beer map of the LAST brand with that first letter; earlier brands are overwritten. */
  lemma {:induction false} RekeyLastWins(keys: seq<string>, d: BrandTable, i: int)
    requires "" !in keys
    requires 0 <= i < |keys|
    requires forall j :: i < j < |keys| ==> keys[j][0] != keys[i][0]
    ensures Rekey(keys, d).Some?
    ensures keys[i][0] in Rekey(keys, d).value.items
    ensures Rekey(keys, d).value.items[keys[i][0]] == BeersOf(d, keys[i])
  {
    RekeyFails(keys, d);
    var p := keys[..|keys| - 1];
    if i < |keys| - 1 {
      RekeyLastWins(p, d, i);
    }
  }

  /**
   * The re-keyed table has no brand level, and a brand is lost when a later
   * brand shares its first letter: after `b1, e1, p1` and `b2, e2, p2` the
   * letter maps to `{e2: p2}` alone (for instance Anchor's Steam is lost
   * behind Amstel's Light).
   */
  lemma ByFirstLetterLosesBrands(b1: string, e1: string, p1: string, b2: string, e2: string, p2: string)
    requires b1 != "" && b2 != "" && b1 != b2 && b1[0] == b2[0]
    ensures var o := ByFirstLetter(Table([Record(b1, e1, p1), Record(b2, e2, p2)]));
      o.Some? && o.value.keys == [b1[0]] && o.value.items[b1[0]].items == map[e2 := p2]
  {
    var d := Table([Record(b1, e1, p1), Record(b2, e2, p2)]);
    TwoBrandTable(b1, e1, p1, b2, e2, p2);
    var keys := d.keys;
    assert keys[..0] == [];
    RekeyStep(keys, d, 0);
    RekeyStep(keys, d, 1);
    assert keys[..2] == keys;
  }

  /** The table of two records with different brands lists both brands, the second with its one beer. */
  lemma TwoBrandTable(b1: string, e1: string, p1: string, b2: string, e2: string, p2: string)
    requires b1 != b2
    ensures var d := Table([Record(b1, e1, p1), Record(b2, e2, p2)]);
      d.keys == [b1, b2] && BeersOf(d, b2).items == map[e2 := p2]
  {
    var r1 := Record(b1, e1, p1);
    var r2 := Record(b2, e2, p2);
    TableOfTwo(r1, r2);
    var none: BrandTable := Empty();
    var d1 := Insert(none, r1);
    assert d1.keys == [b1] && d1.items.Keys == {b1};
    assert BeersOf(d1, b2) == Empty();
  }

  lemma TableOfTwo(r1: Record, r2: Record)
    ensures Table([r1, r2]) == Insert(Insert(Empty(), r1), r2)
  {
    assert [r1, r2][..1] == [r1];
    assert [r1][..0] == [];
    assert Table([r1]) == Insert(Empty(), r1);
  }

  /** The index the documentation of `make_ref_dict` describes: `{first letter: {brand: {beer: alcohol %}}}`. */
  type BrandIndex = ODict<char, BrandTable>

  /** The re-keying loop as documented: each brand goes into the bucket of its first letter. */
  function Bucket(keys: seq<string>, d: BrandTable): (r: Option<BrandIndex>)
    ensures r.Some? ==> r.value.Valid()
    ensures r.Some? ==> forall c :: c in r.value.items ==> r.value.items[c].Valid()
  {
    if keys == [] then Some(Empty())
    else
      var brand := keys[|keys| - 1];
      match Bucket(keys[..|keys| - 1], d)
      case None => None
      case Some(o) =>
        if brand == "" then None
        else
          var bucket := if brand[0] in o.items then o.items[brand[0]] else Empty();
          Some(o.Put(brand[0], bucket.Put(brand, BeersOf(d, brand))))
  }

  /** The second half of `make_ref_dict`, as its documentation describes it: it raises exactly when some brand is empty. */
  function BucketByLetter(d: BrandTable): (r: Option<BrandIndex>)
    ensures r.None? <==> "" in d.keys
    ensures r.Some? ==> r.value.Valid() && forall c :: c in r.value.items ==> r.value.items[c].Valid()
  {
    BucketFails(d.keys, d);
    Bucket(d.keys, d)
  }

  /** The documented re-keying raises exactly when some brand is the empty string. */
  lemma {:induction false} BucketFails(keys: seq<string>, d: BrandTable)
    ensures Bucket(keys, d).None? <==> "" in keys
  {
    if keys != [] {
      var p := keys[..|keys| - 1];
      BucketFails(p, d);
      assert keys == p + [keys[|keys| - 1]];
    }
  }

  /** With the documented shape every brand keeps its own beer map under its first letter. */
  lemma {:induction false} BucketKeepsEveryBrand(keys: seq<string>, d: BrandTable, i: int)
    requires "" !in keys
    requires 0 <= i < |keys|
    ensures Bucket(keys, d).Some?
    ensures var o := Bucket(keys, d).value;
      keys[i][0] in o.items && keys[i] in o.items[keys[i][0]].items
      && o.items[keys[i][0]].items[keys[i]] == BeersOf(d, keys[i])
  {
    BucketFails(keys, d);
    var p := keys[..|keys| - 1];
    if i < |keys| - 1 {
      BucketKeepsEveryBrand(p, d, i);
    }
  }

  /** One round of the re-keying loop, for a non-empty brand. */
  lemma RekeyStep(keys: seq<string>, d: BrandTable, i: int)
    requires 0 <= i < |keys| && keys[i] != "" && Rekey(keys[..i], d).Some?
    ensures Rekey(keys[..i + 1], d) == Some(Rekey(keys[..i], d).value.Put(keys[i][0], BeersOf(d, keys[i])))
  {
    assert keys[..i + 1][..i] == keys[..i];
  }

  /** One round of the documented re-keying loop, for a non-empty brand. */
  lemma BucketStep(keys: seq<string>, d: BrandTable, i: int)
    requires 0 <= i < |keys| && keys[i] != "" && Bucket(keys[..i], d).Some?
    ensures var o := Bucket(keys[..i], d).value;
      var bucket := if keys[i][0] in o.items then o.items[keys[i][0]] else Empty();
      Bucket(keys[..i + 1], d) == Some(o.Put(keys[i][0], bucket.Put(keys[i], BeersOf(d, keys[i]))))
  {
    assert keys[..i + 1][..i] == keys[..i];
  }

  /** The re-keying loop at the end of `make_ref_dict`; `None` is the `IndexError` of an empty brand. */
  method RekeyByLetter(alcRef: BrandTable) returns (organized: Option<LetterTable>)
    requires alcRef.Valid()
    ensures organized == ByFirstLetter(alcRef)
  {
    var o: LetterTable := Empty();
    for i := 0 to |alcRef.keys|
      invariant Rekey(alcRef.keys[..i], alcRef) == Some(o)
    {
      var brand := alcRef.keys[i];
      if brand == "" {
        RekeyFails(alcRef.keys, alcRef);
        return None;
      }
      assert brand in alcRef.items;
      RekeyStep(alcRef.keys, alcRef, i);
      o := o.Put(brand[0], alcRef.items[brand]);
    }
    assert alcRef.keys[..|alcRef.keys|] == alcRef.keys;
    organized := Some(o);
  }

  /** `make_ref_dict(unstructured_text)` of alc_reference.py: structure, fold, re-key. */
  method MakeRefDict(unstructuredText: seq<string>) returns (organized: Option<LetterTable>)
    ensures organized == ByFirstLetter(Table(Records(Structure(IsNumeric, unstructuredText))))
  {
    var structuredText := StructureRefText(unstructuredText);
    var alcRef := BuildBrandTable(structuredText);
    TableIsValid(Records(structuredText));
    organized := RekeyByLetter(alcRef);
  }

  /** The re-keying loop as documented: brands are added to the bucket of their first letter. */
  method IndexByLetter(alcRef: BrandTable) returns (index: Option<BrandIndex>)
    requires alcRef.Valid()
    ensures index == BucketByLetter(alcRef)
  {
    var o: BrandIndex := Empty();
    for i := 0 to |alcRef.keys|
      invariant Bucket(alcRef.keys[..i], alcRef) == Some(o)
    {
      var brand := alcRef.keys[i];
      if brand == "" {
        BucketFails(alcRef.keys, alcRef);
        return None;
      }
      assert brand in alcRef.items;
      BucketStep(alcRef.keys, alcRef, i);
      var bucket: BrandTable := if brand[0] in o.items then o.items[brand[0]] else Empty();
      o := o.Put(brand[0], bucket.Put(brand, alcRef.items[brand]));
    }
    assert alcRef.keys[..|alcRef.keys|] == alcRef.keys;
    index := Some(o);
  }

  /** `make_ref_dict` with the documented three-level result. */
  method MakeRefIndex(unstructuredText: seq<string>) returns (index: Option<BrandIndex>)
    ensures index == BucketByLetter(Table(Records(Structure(IsNumeric, unstructuredText))))
  {
    var structuredText := StructureRefText(unstructuredText);
    var alcRef := BuildBrandTable(structuredText);
    TableIsValid(Records(structuredText));
    index := IndexByLetter(alcRef);
  }
}
