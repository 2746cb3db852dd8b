# ChooseMyBeer core, modelled in Dafny

ChooseMyBeer ranks BevMo kegs by gallons of alcohol per dollar. This project
models the parts of it that are plain computation:

- **The alcohol reference pipeline** (`alc_reference.py`, and the older copy in
  `choosemybeer.py`).
  - `filter_ref_text` cleans the cells scraped from a beer table.
  - `structure_ref_text` runs two passes:
    - the first drops every number that directly follows a number;
    - the second cuts the cells into `brand, beer, alcohol %` lines at each
      number, and repairs a malformed line with `unique`.
  - `make_ref_dict` folds the triples into an ordered `{brand: {beer: alcohol %}}`
    table. In `alc_reference.py` it then re-keys that table by the first letter
    of each brand.
- **The helpers of `utils.py`.**
  - `filter_printable`.
  - `is_num`, which ignores `-`, `<` and `>` and then asks Python's `float()`.
  - `unique`, a generator that yields every distinct item once.
- **The `BeerKeg` object of `beerkeg.py`.**
  - `parse` reads the product page once, field by field. Each field has its
    own default when it cannot be read.
  - `get_abv` checks a found alcohol percentage against a 30 % ceiling.
  - `get_ratio` divides the alcohol in the keg by its price.

## Layout

| file | module | contents |
|---|---|---|
| `wrappers.dfy` | `Wrappers` | `Option` |
| `seqs.dfy` | `Seqs` | Python's `filter` and `map` on sequences, `index`, subsequences |
| `py.dfy` | `Py` | the string built-ins the core uses: `strip`, `split`, `float()`, `int()` |
| `utils.dfy` | `Utils` | `filter_printable`, `is_num`, `unique` |
| `odict.dfy` | `OrderedDicts` | `OrderedDict` as an insertion-ordered key list plus a map |
| `alc_reference.dfy` | `AlcReference` | `filter_ref_text`, `structure_ref_text`, `make_ref_dict` |
| `choosemybeer.dfy` | `ChooseMyBeer` | the two-level `make_ref_dict` of `choosemybeer.py` |
| `beerkeg.dfy` | `BeerKeg` | the `BeerKeg` class, with the page as an input |

### How the model is built

- **Loops become methods.** The loops of the source are methods with loop
  invariants:
  - `IsNum`;
  - `Unique`;
  - the two passes of `StructureRefText`;
  - the `pop(0)` loop of `BuildBrandTable`;
  - the re-keying loop of `RekeyByLetter`;
  - the volume `filter` of `FilterVolume`.

  Each method is proved equal to a specification function. The properties of
  the source are lemmas about those functions.
- **The numeric test is a parameter.** The functions of the reference
  pipeline take it as an argument (`isNum`), so every lemma about them holds
  for any numeric test. The methods use the real test, `Utils.IsNumeric`.
- **`BeerKeg` is a class.**
  - Its fields are updated by `Parse` and `GetRatio`.
  - `parsed` makes a second `Parse` change nothing.
  - The page is an input `Option<Page>`. `Page` holds the four texts the
    XPath queries pick out, each of them optional.
- **Python's `float()` is an explicit grammar over exact reals** (`Py.ParseFloat`):
  - surrounding whitespace;
  - an optional sign;
  - `inf`, `infinity` or `nan` in any case;
  - or a decimal with at least one digit, at most one point and an optional
    exponent.

  A failed parse is `None`, standing for `ValueError`.
- **Whitespace is Unicode whitespace** (`Py.IsSpace`). Page text that holds a
  non-ASCII character, such as a no-break space, is a `unicode` string in
  Python 2. Its `strip()`, `split()`, `float()` and `int()` skip every
  character `unicode.isspace` accepts: ASCII tab to carriage return, U+001C
  to the space, U+0085, U+00A0 and the Unicode space, line and paragraph
  separators. `string.printable` still holds only the six ASCII whitespace
  characters (`Py.IsPrintable`).

`choosemybeer.py` carries older copies of the pipeline: `is_num` (lines
38-48), `unique` (51-56), `filter_ref_text` (59-64) and `structure_ref_text`
(67-112). They are the same code as in `utils.py` and `alc_reference.py`, and the
same members model them: `Utils.IsNum`, `Utils.Unique`,
`AlcReference.FilterRefText` and `AlcReference.StructureRefText`. Its
`make_ref_dict` (115-140) stops at the two-level table (`ChooseMyBeer.MakeRefDict`).

## Model

| member | source | states |
|---|---|---|
| Utils.FilterPrintable | utils.py:28-29 | the result is no longer than the line, and every character of it is printable and comes from the line |
| Utils.FilterPrintableSpec | utils.py:28-29 | the result is a subsequence of the line; every printable character keeps its number of occurrences and no other character survives; applying it twice is applying it once |
| Utils.IsNum | utils.py:37-47 | the loop over `ignore` returns exactly whether `float()` accepts the string with every `-`, `<` and `>` removed; a True answer needs some character other than those three |
| Utils.IsNumeric | utils.py:37-47 | `is_num` holds when `float()` accepts the string without `-`, `<` and `>`; then something other than marks and whitespace is left |
| Utils.RemoveNext | utils.py:41-43 | removing the marks one `replace` at a time, in the order of `ignore`, equals removing all of them at once |
| Utils.RemoveAbsent | utils.py:42-43 | the `if sym in num` guard skips only a `replace` that would change nothing |
| Utils.IsNumericIgnoresMarks | utils.py:39-45 | removing the marks is idempotent, and `is_num` depends only on the string without marks |
| Utils.WithoutMarksAppend | utils.py:41-43 | mark removal distributes over concatenation |
| Utils.WithoutMarksNoop | utils.py:41-43 | a string without marks is left unchanged |
| Utils.NotNumericWhenOnlyMarks | utils.py:44-47 | the empty string and strings made only of `-`, `<`, `>` are not numbers: the `ValueError` is caught |
| Utils.ParseFloatEmpty | utils.py:44-47 | `float('')` raises |
| Utils.NumericChars | utils.py:37-47 | a numeric string holds only marks and characters `float()` accepts |
| Utils.DigitsAreNumeric | utils.py:44 | a non-empty run of digits is numeric, with the value its digits denote |
| Utils.DecimalIsNumeric | utils.py:44 | `whole.frac` with digits on both sides is numeric, with the value `whole + frac / 10^|frac|` |
| Utils.SingleCharNumeric | utils.py:37-47 | one character is numeric exactly when it is a decimal digit |
| Utils.ParseFloatSingle | utils.py:44 | `float()` of one character succeeds exactly on a digit |
| Utils.SignedFloat | utils.py:44 | a sign followed by something that is not an unsigned literal makes `float()` raise |
| Utils.UnsignedEmpty | utils.py:44 | an empty unsigned literal makes `float()` raise |
| Utils.UnsignedSingle | utils.py:44 | an unsigned literal of one character is accepted exactly when it is a digit |
| Utils.DecimalTokenParse | utils.py:37-47 | for a string of digits and points: no mark is removed, `float()` reads it as a decimal, and it is numeric exactly when it has at least one digit and at most one point |
| Utils.DecimalTokenFloat | utils.py:44 | `float()` reads a string of digits and points as a decimal |
| Utils.DecimalTokenStripped | utils.py:44 | a string of digits and points has no surrounding whitespace and no sign |
| Utils.DecimalValue | utils.py:44 | the decimal grammar reads `whole.frac` as its value |
| Utils.Dedup | utils.py:50-55 | `unique` never lengthens its input |
| Utils.DedupMembers | utils.py:50-55 | `unique` yields exactly the elements of its input |
| Utils.DedupNoDups | utils.py:50-55 | `unique` yields no element twice |
| Utils.DedupSubseq | utils.py:50-55 | the result is a subsequence of the input |
| Utils.DedupFirstOccurrenceOrder | utils.py:50-55 | the yielded elements come in the order of their first occurrences |
| Utils.FirstOccurrenceOrderSnoc | utils.py:50-55 | one more input element keeps the yielded elements in first-occurrence order |
| Utils.OrderSnocSeen | utils.py:52-53 | an element already seen is skipped and the order is kept |
| Utils.OrderSnocNew | utils.py:52-55 | a new element is yielded last, and it occurs first after every earlier yield |
| Utils.EarlierIndexesKept | utils.py:50-55 | a later element does not move the first occurrence of an element already yielded |
| Utils.DedupOfDistinct | utils.py:50-55 | an input without duplicates passes through unchanged |
| Utils.DedupIdempotent | utils.py:50-55 | `unique` applied twice is `unique` applied once |
| Utils.Unique | utils.py:50-55 | the `seen`-set loop yields `Dedup(s)`: no duplicates, a subsequence, in first-occurrence order, with the same elements as the input |
| Seqs.Filter | alc_reference.py:10 | Python's `filter` keeps only passing elements of the input and never lengthens it |
| Seqs.FilterIsSubseq | alc_reference.py:10 | `filter` keeps the input order |
| Seqs.FilterAppend | alc_reference.py:10 | `filter` distributes over concatenation |
| Seqs.FilterCounts | utils.py:29 | `filter` keeps every occurrence of a passing value and none of a failing one |
| Seqs.FilterIdempotent | utils.py:29 | filtering twice by the same test is filtering once |
| Seqs.FilterCompose | utils.py:41-43 | filtering by one test and then another is filtering by both |
| Seqs.FilterDropsEnds | beerkeg.py:59 | cutting off ends that the filter rejects anyway does not change the filter |
| Seqs.FilterKeepsEvery | beerkeg.py:59 | a sequence whose every element passes is its own filter |
| Seqs.FilterDropsEvery | beerkeg.py:59 | a sequence with no passing element filters to nothing |
| Seqs.Map | alc_reference.py:10 | Python's `map` gives one output per input, each the function applied to it |
| Seqs.IndexOf | beerkeg.py:56 | the position of the first `(`: in range exactly when the character occurs, and no earlier occurrence |
| Py.LStrip | beerkeg.py:74 | `lstrip(cs)` removes a prefix made of characters of `cs` and leaves a string that does not start with one |
| Py.RStrip | beerkeg.py:74 | `rstrip(cs)` removes a suffix made of characters of `cs` and leaves a string that does not end with one |
| Py.Strip | beerkeg.py:54 | `strip()` never lengthens the text, and what it leaves neither starts nor ends with whitespace |
| Py.StripEmptyIffBlank | alc_reference.py:10 | `strip()` gives the empty string exactly when the input is all whitespace |
| Py.LStripBlank | alc_reference.py:10 | `lstrip()` empties a string made only of whitespace |
| Py.StripKeepsNonSpace | alc_reference.py:10 | a string with a non-whitespace character does not strip to empty |
| Py.StripCharsSlice | beerkeg.py:59 | `strip(cs)` keeps one contiguous slice; everything cut off at either end is in `cs` |
| Py.StripChars | beerkeg.py:74 | `strip(cs)` is no longer than the text and neither starts nor ends with a character of `cs` |
| Py.SpaceIsNoSymbol | alc_reference.py:10 | no character `strip()` removes is a digit, a decimal point, a sign, `$` or a bracket |
| Py.IsPrintable | utils.py:29 | every character of `string.printable` is ASCII |
| Py.StripCharsNoop | beerkeg.py:54 | a string that neither starts nor ends with a character of `cs` is unchanged |
| Py.LStripSkips | beerkeg.py:74 | a leading character of `cs` is dropped by `lstrip(cs)` |
| Py.StripTrailingSpace | beerkeg.py:57 | `strip()` removes the whitespace after a word that has no surrounding whitespace |
| Py.FilterIgnoresStrip | beerkeg.py:59 | stripping characters that a filter rejects changes nothing about the filter's result |
| Py.BeforeFirst | beerkeg.py:56-57 | `split(c)[0]` is the prefix before the first `c`: it holds no `c`, and it is shorter than the text exactly when the text contains `c` |
| Py.SecondPiece | beerkeg.py:56-59 | `split(c)[1]` is the text right after the first `c`, up to the next `c` or the end, and holds no `c` |
| Py.FirstField | beerkeg.py:80 | `split()[0]` is `None` (`IndexError`) exactly when the text is all whitespace, and otherwise a non-empty run without whitespace |
| Py.Word | beerkeg.py:80 | the first field is the longest whitespace-free prefix, ended by whitespace or the end of the text |
| Py.WordOfPrefix | beerkeg.py:80 | a whitespace-free word followed by whitespace is read back as that word |
| Py.ParseFloatChars | utils.py:44 | every character of a string `float()` accepts is a digit, a point, a sign, an exponent letter, whitespace or a letter of `inf`/`nan` |
| Py.ParseUnsignedChars | utils.py:44 | every character of an unsigned string `float()` accepts is a digit, a point, an exponent letter or sign, or a letter of `inf`/`nan` |
| Py.ParseDecimalChars | utils.py:44 | a decimal `float()` reads holds only digits and points |
| Py.ParseExponentChars | utils.py:44 | an exponent `float()` reads holds only digits and signs |
| Py.ParseDecimal | utils.py:44 | the `digits.digits` part of `float()` succeeds only on a non-empty text and never gives a negative value |
| Py.FractionValue | utils.py:44 | the digits after the point add an amount in `[0, 1)` |
| Py.ParseExponent | utils.py:44 | the exponent after `e` reads only from a non-empty text, and is negative only after a leading `-` |
| Py.Scale | utils.py:44 | scaling a non-negative mantissa by a power of ten keeps it non-negative |
| Py.ParseUnsigned | utils.py:44 | `float()` of an unsigned text raises on the empty text and never gives `-inf` or a negative finite value |
| Py.ParseFloat | utils.py:44 | `float()` raises on a blank string; the characters it accepts are given by `Py.ParseFloatChars` |
| Py.ParseInt | beerkeg.py:80 | `int()` of a token accepts exactly an optional sign followed by at least one digit, and reads a digit string as its decimal value |
| OrderedDicts.Empty | alc_reference.py:72 | a new `OrderedDict` is empty and well formed |
| OrderedDicts.ODict.Put | alc_reference.py:80-82 | assigning a key keeps the dictionary well formed and sets that key's value; a new key goes to the end of the order and an existing key keeps its place |
| Utils.RemoveAll | utils.py:41-43 | `num.replace(sym, '')` leaves no `sym`, is no longer than `num`, and keeps every other character as often as `num` has it |
| AlcReference.FilterRefText | alc_reference.py:8-13 | the result is no longer than the input, and every character of every entry is printable |
| AlcReference.FilterRefTextAppend | alc_reference.py:8-13 | cells are cleaned one by one, in input order |
| AlcReference.FilterRefTextCell | alc_reference.py:10-13 | a cell is dropped exactly when it strips to empty; otherwise it is stripped and then filtered to printable characters |
| AlcReference.CleanOneCell | alc_reference.py:10-13 | a stripped cell is dropped when empty and otherwise filtered to printable characters |
| AlcReference.FirstPass | alc_reference.py:25-38 | the first pass never lengthens the list |
| AlcReference.FirstPassNoAdjacent | alc_reference.py:25-38 | after the first pass no two consecutive entries are numbers |
| AlcReference.FirstPassSubseq | alc_reference.py:25-38 | the first pass yields a subsequence of its input |
| AlcReference.FirstPassKeepsWords | alc_reference.py:36-38 | the first pass keeps every non-numeric entry, in order |
| AlcReference.FirstPassLast | alc_reference.py:28-38 | `prev_was_num` is right: the last kept entry is a number exactly when the last input entry is |
| AlcReference.FirstPassPrefix | alc_reference.py:25-38 | what the first pass keeps of a prefix of the input is a prefix of what it keeps of the whole input |
| AlcReference.FirstPassKeepsRunHead | alc_reference.py:28-38 | the first number of a run, like every entry whose predecessor in the input is not a number, is kept, directly after what the pass keeps of the entries before it |
| AlcReference.FirstPassSkipsRepeat | alc_reference.py:29-32 | a number whose predecessor in the input is a number adds nothing to the output |
| AlcReference.Repair | alc_reference.py:51-59 | a line of three is kept as is; any other line is kept exactly when `unique` leaves three entries, and is then replaced by that `unique` result; otherwise it is dropped |
| AlcReference.Cut | alc_reference.py:44-60 | the second pass emits a multiple of three entries and never more than its input; the open `line` holds only non-numbers |
| AlcReference.Structure | alc_reference.py:16-61 | the output length is a multiple of 3 and at most the input length |
| AlcReference.RepairShape | alc_reference.py:48-59 | a line that ends at a number is either dropped or becomes a record of non-number, non-number, number |
| AlcReference.CutShape | alc_reference.py:48-60 | every emitted triple is non-number, non-number, number |
| AlcReference.StructureShape | alc_reference.py:44-61 | the output splits into whole triples, each non-number, non-number, number |
| AlcReference.CutLineEmpty | alc_reference.py:60 | a line is reset at every number |
| AlcReference.FirstPassRedundant | alc_reference.py:25-61 | the second pass gives the same result with or without the first pass |
| AlcReference.TrailingWordsIgnored | alc_reference.py:48-61 | cells after the last number are never emitted |
| AlcReference.FirstPassTrailing | alc_reference.py:25-38 | the first pass keeps trailing non-numbers as they are |
| AlcReference.CutTrailing | alc_reference.py:48-60 | trailing non-numbers add nothing to the emitted lines |
| AlcReference.StructureRefText | alc_reference.py:16-61 | the two loops compute `Structure(IsNumeric, ref_text)` |
| AlcReference.DropRepeatedNumbers | alc_reference.py:25-38 | the first loop computes `FirstPass(IsNumeric, ref_text)` |
| AlcReference.CutIntoTriples | alc_reference.py:44-60 | the second loop computes the lines `Cut` emits |
| AlcReference.CloseLine | alc_reference.py:51-59 | a line closed by a number adds `Repair(line)` to the output |
| AlcReference.Records | alc_reference.py:73-77 | the loop reads one `(brand, beer, alcohol %)` record per three cells; a remainder of fewer than three is not read |
| AlcReference.RecordsAppend | alc_reference.py:73-77 | reading records from concatenated lists of whole triples is reading each list in turn |
| AlcReference.RecordsSnoc | alc_reference.py:75-77 | three more cells give one more record |
| AlcReference.BeersOf | alc_reference.py:80-82 | a brand not in the table has an empty beer map |
| AlcReference.Insert | alc_reference.py:79-82 | after one step the brand is present and its beer is in its beer map |
| AlcReference.Table | alc_reference.py:72-82 | every brand of a record is a key of the folded table |
| AlcReference.TableIsValid | alc_reference.py:72-82 | the folded table and every beer map in it are well-formed ordered dictionaries |
| AlcReference.TableBrands | alc_reference.py:79-81 | the brands are the distinct brands of the records in first-occurrence order, and there are at most as many brands as records |
| AlcReference.TableFindsLast | alc_reference.py:82 | `alc_ref[brand][beer]` is the alcohol % of the last record with that brand and beer |
| AlcReference.TableMissing | alc_reference.py:72-82 | a brand and beer that no record names are absent |
| AlcReference.Lookup | choosemybeer.py:132-134 | `d[brand][beer]` is found exactly when the brand is a key and the beer is a key of its beer map |
| AlcReference.TableValueFromRecord | alc_reference.py:73-82 | every alcohol % in the table is the third cell of a record naming that brand and beer |
| AlcReference.TableSnoc | alc_reference.py:73-82 | one more record is one more insertion step |
| AlcReference.SetBeer | alc_reference.py:80-82 | the body of the loop is one insertion step |
| AlcReference.BuildBrandTable | alc_reference.py:72-82 | the `pop(0)` loop consumes the whole list and builds `Table(Records(structured_text))` |
| AlcReference.TableStep | alc_reference.py:73-82 | one round of the `pop(0)` loop adds one record to the table |
| AlcReference.Rekey | alc_reference.py:92-94 | the re-keyed dictionary is well formed |
| AlcReference.ByFirstLetter | alc_reference.py:92-96 | the re-keyed dictionary as written raises exactly when some brand is empty, and is otherwise well formed |
| AlcReference.RekeyFails | alc_reference.py:93-94 | re-keying raises exactly when some brand is empty (`brand[0]`) |
| AlcReference.RekeyLetters | alc_reference.py:92-94 | the outer keys are exactly the first letters of the brands |
| AlcReference.RekeyHasLetter | alc_reference.py:92-94 | the first letter of every brand is an outer key |
| AlcReference.RekeyOnlyLetters | alc_reference.py:92-94 | every outer key is the first letter of some brand |
| AlcReference.RekeyStep | alc_reference.py:93-94 | one round of the re-keying loop sets the brand's first letter to its beer map |
| AlcReference.RekeyLastWins | alc_reference.py:92-94 | each letter maps to the beer map of the last brand, in insertion order, that starts with it |
| AlcReference.ByFirstLetterLosesBrands | alc_reference.py:92-94 | two brands with the same first letter leave only the second brand's beers: the first brand's beers are lost |
| AlcReference.TwoBrandTable | alc_reference.py:72-82 | two records with different brands give a table listing both brands in order, the second with only its own beer |
| AlcReference.TableOfTwo | alc_reference.py:72-82 | folding two records is two insertion steps from an empty table |
| AlcReference.RekeyByLetter | alc_reference.py:92-96 | the re-keying loop computes `ByFirstLetter`, or raises on an empty brand |
| AlcReference.MakeRefDict | alc_reference.py:64-96 | `make_ref_dict` is structure, then fold, then re-key by first letter |
| AlcReference.Bucket | alc_reference.py:84-91 | the documented three-level index is well formed: the outer dictionary and every letter's brand table |
| AlcReference.BucketByLetter | alc_reference.py:84-96 | the documented index raises exactly when some brand is empty, and is otherwise well formed at both levels |
| AlcReference.BucketFails | alc_reference.py:84-94 | the documented index also raises exactly on an empty brand |
| AlcReference.BucketKeepsEveryBrand | alc_reference.py:84-91 | in the documented index every brand keeps its own beer map under its first letter |
| AlcReference.IndexByLetter | alc_reference.py:84-94 | the corrected loop computes `BucketByLetter` |
| AlcReference.BucketStep | alc_reference.py:84-94 | one round of the documented loop adds the brand to the bucket of its first letter |
| AlcReference.MakeRefIndex | alc_reference.py:64-96 | the corrected `make_ref_dict` is structure, then fold, then the documented bucketing |
| ChooseMyBeer.MakeRefDict | choosemybeer.py:115-140 | the two-level `make_ref_dict` is structure then fold; the alc_reference.py version is this table re-keyed |
| ChooseMyBeer.RefDict | choosemybeer.py:115-140 | the reference dictionary is well formed at both levels, and its brands are the distinct brands of the structured triples in first-occurrence order |
| ChooseMyBeer.RefDictsAgree | choosemybeer.py:115-140 | re-keying this module's table by first letter gives the alc_reference.py `make_ref_dict` result, which fails exactly when some triple's brand is empty |
| ChooseMyBeer.RefDictShape | choosemybeer.py:123-140 | the table is well formed, its brands are the distinct brands of the triples in first-occurrence order, there is at most one brand per three input cells, and every stored alcohol % is a numeric cell |
| BeerKeg.VolumeCharIsNumTest | beerkeg.py:59 | the characters the volume filter keeps are a point or a character `is_num` accepts, which is a digit |
| BeerKeg.FilterVolume | beerkeg.py:59 | the `filter` loop over the volume text keeps exactly the digits and points, in order |
| BeerKeg.VolumeToken | beerkeg.py:59 | the volume text is never longer than the piece it comes from |
| BeerKeg.VolumeTokenIsFilter | beerkeg.py:59 | stripping `)` and whitespace first changes nothing: the volume text is the digits and points of the piece |
| BeerKeg.WhitespaceIsNotVolume | beerkeg.py:59 | no whitespace character passes the volume filter |
| BeerKeg.VolumeTokenChars | beerkeg.py:59 | the volume text holds only digits and points |
| BeerKeg.VolumeOfIsNum | beerkeg.py:59-64 | the volume read from the piece is `float(volume)` when `is_num(volume)` holds and `0.0` otherwise |
| BeerKeg.VolumeOf | beerkeg.py:59-64 | the volume read from the piece after `(` is never negative; its exact value is given by `BeerKeg.VolumeOfIsNum` |
| BeerKeg.VolumeValue | beerkeg.py:61 | `float(volume)` of a text of digits and points is the decimal value of that text, and `0.0` when it is not a decimal |
| BeerKeg.ParseTitle | beerkeg.py:54-67 | the name is no longer than the title and has no surrounding whitespace, and the volume is never negative |
| BeerKeg.ParseTitleCases | beerkeg.py:54-67 | without both brackets the name is the stripped title and the volume is `0.0`; with both, the name is the stripped text before the first `(` and the volume is read from the text after it |
| BeerKeg.TitleOf | beerkeg.py:53-70 | `('', 0.0)` when the page or its `h1` text is missing; otherwise a stripped name and a non-negative volume |
| BeerKeg.TitleNameBeforeParen | beerkeg.py:55-57 | with both brackets in the title, the name contains no `(` and is shorter than the title |
| BeerKeg.TitleIsStripped | beerkeg.py:54 | a title that starts with a name and ends with `)` is left alone by `strip()` |
| BeerKeg.SplitAtParen | beerkeg.py:56-59 | `split('(')` of `head(piece`, with no other `(`, gives `head` and then `piece` |
| BeerKeg.TitleParenSplit | beerkeg.py:55-59 | `Name (piece` holds both brackets and splits at `(` into `Name ` and `piece` |
| BeerKeg.TitleNamePart | beerkeg.py:56-57 | the stripped text before the `(` of `Name (piece` is `Name` |
| BeerKeg.ParseTitleOfParts | beerkeg.py:54-64 | with both brackets, the parsed title is the stripped first piece and the volume of the second |
| BeerKeg.TitleSplit | beerkeg.py:54-64 | `Name (piece` gives the name and the volume read from `piece` |
| BeerKeg.VolumeOfNumber | beerkeg.py:59 | the volume text of `whole.frac unit)` is `whole.frac` |
| BeerKeg.NumberKept | beerkeg.py:59 | the volume filter keeps all of `whole.frac` |
| BeerKeg.UnitDropped | beerkeg.py:59 | the volume filter keeps nothing of ` unit)` when the unit has no digit or point |
| BeerKeg.NoOpenParen | beerkeg.py:56 | `whole.frac unit)` has no `(` when the unit has none |
| BeerKeg.TitleRoundTrip | beerkeg.py:53-67 | the title `Name (whole.frac Unit)` is parsed back into `Name` and the value of `whole.frac` |
| BeerKeg.PriceText | beerkeg.py:74 | `$number` strips down to `number` |
| BeerKeg.ParsePrice | beerkeg.py:74-76 | a blank price text makes `float` raise, so the price is 0.0 |
| BeerKeg.PriceOf | beerkeg.py:73-76 | 0.0 when the page or its price text is missing, or the text is blank |
| BeerKeg.DollarHasNoSpace | beerkeg.py:74 | `strip()` leaves `$number` alone when the number ends in a digit or a point |
| BeerKeg.DollarStripped | beerkeg.py:74 | `strip('$')` of `$number` is `number` when the number neither starts nor ends with `$` |
| BeerKeg.PriceRoundTrip | beerkeg.py:73-76 | the price text `$whole.frac` is parsed back into the value of `whole.frac` |
| BeerKeg.StockField | beerkeg.py:80 | the first field of `count rest` is `count` |
| BeerKeg.ParseStock | beerkeg.py:80-82 | an all-whitespace availability text has no field, so the count is 0 |
| BeerKeg.StockOf | beerkeg.py:79-82 | 0 when the page or its `em` text is missing |
| BeerKeg.CountToken | beerkeg.py:80 | a digit string is one whitespace-free token that `int()` reads as its decimal value |
| BeerKeg.StockRoundTrip | beerkeg.py:79-82 | the availability text `count words` is parsed back into the value of `count` |
| BeerKeg.AbvOutcome | beerkeg.py:99-129 | `get_abv` raises exactly when the search raises, and returns a percentage exactly when one was found below 30.0, namely that percentage |
| BeerKeg.Divide | beerkeg.py:136 | dividing by zero raises `ZeroDivisionError`; dividing by a non-zero finite price gives the quotient |
| BeerKeg.Alcohol | beerkeg.py:136 | the alcohol in the keg, `alcohol_pct * .1 * volume`, is `0.0` for an empty keg and never negative for a non-negative percentage and volume |
| BeerKeg.RatioOutcome | beerkeg.py:132-143 | `get_ratio` returns `None` exactly when `get_abv` does, passes a search error on, raises on a zero price, and otherwise returns a ratio that times the price is the alcohol in the keg |
| BeerKeg.ReadTitle | beerkeg.py:53-70 | the name/volume block gives `TitleOf(html)`: `('', 0.0)` on a missing page or `h1` |
| BeerKeg.ReadPrice | beerkeg.py:73-76 | the price block gives `PriceOf(html)`, 0.0 when it fails |
| BeerKeg.ReadStock | beerkeg.py:79-82 | the availability block gives `StockOf(html)`, 0 when it fails |
| BeerKeg.ReadDesc | beerkeg.py:85-88 | the description block gives `DescOf(html)`, `''` when it fails |
| BeerKeg.DescOf | beerkeg.py:85-88 | `''` when the page or its description is missing; otherwise a text with no surrounding whitespace |
| BeerKeg.BeerKeg.constructor | beerkeg.py:18-29 | a new keg keeps its url and verbosity, is not parsed and has no ratio |
| BeerKeg.BeerKeg.Parse | beerkeg.py:36-88 | once `parsed` is set nothing changes; otherwise `parsed` becomes true whatever the page, every field gets its own value or default, and `ratio` is untouched |
| BeerKeg.BeerKeg.Store | beerkeg.py:48-88 | sets `parsed` and the five fields to the values read, and leaves `ratio` alone |
| BeerKeg.BeerKeg.GetAbv | beerkeg.py:91-129 | parses first if needed, then returns the ceiling-checked search outcome |
| BeerKeg.BeerKeg.GetRatio | beerkeg.py:132-143 | returns `RatioOutcome` of the parsed volume and price; `ratio` is set only when a ratio is returned |

## Left out

- `get_html`, `get_text`, `get_alc_reference` and `run`: network access, XPath
  queries and printing. The page is an input, and so are the scraped cells.
- `open`: it launches a web browser.
- `beer.py` and `keg.py` are not part of this model. They are earlier drafts of
  `beerkeg.py`.
- The search in `get_abv`: the Google query, the link chosen and the regular
  expression. Its outcome is an input (`Search`); only the 30.0 ceiling is
  modelled.
- The two unconditional prints of `Failed to retrieve volume!` in `parse`
  (beerkeg.py:63 and 66).
- The verbose-gated printing in `get_abv` and `get_ratio` (beerkeg.py:121,
  127 and 139).
- Floating point. Numbers are exact reals:
  - there is no rounding and no overflow to infinity;
  - `-0.0` is not told apart from `0.0`.
- Py.ParseFloat: covers ASCII digits only. Python 2's `float()` on a
  `unicode` string also accepts other Unicode decimal digits.
- Py.ParseInt: covers ASCII digits only. Python 2's `int()` on a `unicode`
  string also accepts other Unicode decimal digits.
- Py.IsSpace: the whitespace of `unicode.isspace` is used for every text. A
  page text made only of ASCII characters reaches the scraper as a `str`, for
  which U+001C to U+001F are not whitespace. The model strips them there too.
- AlcReference.FilterRefText: strips every cell. The source strips only cells
  of type `str` (`isinstance(x, str)`). The model has a single string type and
  treats every cell as a `str`.
- Utils.Unique: a generator in the source. The model returns the whole result
  at once.
- BeerKeg.BeerKeg.constructor: before the first `parse` the Python object has
  no `name`, `volume`, `price`, `num_avail` or `desc` attributes, and reading
  them raises `AttributeError`. The Dafny fields exist from the start with
  arbitrary values.
- `pop(0)` in `make_ref_dict` consumes the function's own list, the fresh
  list that `structure_ref_text` returns (alc_reference.py:66). The model
  reads that sequence without consuming it. The caller's list is never
  touched, in the source or in the model.

## Findings

| source | as written | input that shows it | evidently intended | confidence | as-written member | corrected member |
|---|---|---|---|---|---|---|
| alc_reference.py:92-94 | `organized_alc_ref[brand[0]] = alc_ref[brand]` replaces the entry of the letter with the beer map of each later brand that starts with the same letter | triples `Anchor, Steam, 4.9, Amstel, Light, 3.5`: the result is `{'A': {'Light': '3.5'}}`, and Anchor's beers are lost | the layout the comment at alc_reference.py:90 describes, `alc_ref['first brand letter']['brand']['beer']`, where each letter holds every brand that starts with it | not executed | AlcReference.ByFirstLetterLosesBrands | AlcReference.BucketKeepsEveryBrand |

The model keeps both versions. `AlcReference.MakeRefDict` does what the code
does. `AlcReference.MakeRefIndex` builds the documented index through
`AlcReference.IndexByLetter`.
