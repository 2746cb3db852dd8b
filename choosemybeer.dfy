/**
 * choosemybeer.py: the older copy of the reference pipeline.  Its `is_num`,
 * `unique`, `filter_ref_text` and `structure_ref_text` are the same code as
 * in utils.py and alc_reference.py (they are modelled once, by
 * `Utils.IsNum`, `Utils.Unique`, `AlcReference.FilterRefText` and
 * `AlcReference.StructureRefText`); its `make_ref_dict` stops at the
 * two-level brand table, without the first-letter re-keying.
 */
module ChooseMyBeer {
  import opened Seqs
  import opened Utils
  import opened OrderedDicts
  import opened AlcReference

  /**
   * The reference dictionary `make_ref_dict` builds from the scraped cells:
   * both levels are well-formed ordered dictionaries, with one brand for
   * every distinct brand of the triples.
   */
  function RefDict(unstructuredText: seq<string>): (d: BrandTable)
    ensures TableValid(d)
    ensures d.keys == Dedup(Brands(Records(Structure(IsNumeric, unstructuredText))))
  {
    var rs := Records(Structure(IsNumeric, unstructuredText));
    TableIsValid(rs);
    TableBrands(rs);
    Table(rs)
  }

  /**
   * `make_ref_dict(unstructured_text)`: structure the cells, then fold the
   * triples into the brand table.  The alc_reference.py version is this
   * result re-keyed by first letter (`AlcReference.MakeRefDict`).
   */
  method MakeRefDict(unstructuredText: seq<string>) returns (refDict: BrandTable)
    ensures refDict == RefDict(unstructuredText)
  {
    var structuredText := StructureRefText(unstructuredText);
    refDict := BuildBrandTable(structuredText);
  }

  /**
   * The two `make_ref_dict`s agree: the alc_reference.py result
   * (`AlcReference.MakeRefDict`) is this module's table re-keyed by first
   * letter, and the re-keying fails exactly when some triple's brand is empty.
   */
  lemma RefDictsAgree(unstructuredText: seq<string>)
    ensures ByFirstLetter(RefDict(unstructuredText))
         == ByFirstLetter(Table(Records(Structure(IsNumeric, unstructuredText))))
    ensures var rs := Records(Structure(IsNumeric, unstructuredText));
      ByFirstLetter(RefDict(unstructuredText)).None? <==> exists i :: 0 <= i < |rs| && rs[i].brand == ""
  {
    var rs := Records(Structure(IsNumeric, unstructuredText));
    DedupMembers(Brands(rs));
    if "" in Brands(rs) {
      var i :| 0 <= i < |rs| && Brands(rs)[i] == "";
      assert rs[i].brand == "";
    }
  }

  /**
   * The table built from any cells: a valid ordered dictionary whose brands
   * are the distinct brands of the triples in first-occurrence order, at
   * most one brand per three cells, and every stored percentage is the
   * numeric third cell of a triple.
   */
  lemma RefDictShape(isNum: string -> bool, text: seq<string>)
    ensures TableValid(Table(Records(Structure(isNum, text))))
    ensures Table(Records(Structure(isNum, text))).keys == Dedup(Brands(Records(Structure(isNum, text))))
    ensures 3 * |Table(Records(Structure(isNum, text))).keys| <= |text|
    ensures forall brand, beer :: Lookup(Table(Records(Structure(isNum, text))), brand, beer).Some? ==>
      isNum(Lookup(Table(Records(Structure(isNum, text))), brand, beer).value)
  {
    var rs := Records(Structure(isNum, text));
    StructureShape(isNum, text);
    TableIsValid(rs);
    TableBrands(rs);
    forall brand, beer | Lookup(Table(rs), brand, beer).Some?
      ensures isNum(Lookup(Table(rs), brand, beer).value)
    {
      TableValueFromRecord(rs, brand, beer);
      var i :| 0 <= i < |rs| && rs[i] == Record(brand, beer, Lookup(Table(rs), brand, beer).value);
      assert rs[i] in rs;
    }
  }
}
