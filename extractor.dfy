/** The extractor: from the parsed page of one word to the nested record
    Data -> meanings -> items -> examples. */
module Extractor {
  import opened Text
  import opened Dom

  datatype Example = Example(en: string, rus: string)
  datatype Item = Item(rus: string, ex: seq<Example>)
  datatype Meaning = Meaning(enWord: string, trans: string, part: string, other: string, items: seq<Item>)
  /** The `data` dict: the looked-up word, its simple translation and its meanings. */
  datatype Data = Data(en: string, simple: string, meanings: seq<Meaning>)

  /** What stops the run for a word: the page could not be fetched or parsed,
      or it has no `id="tText"` element (the `[0]` at the simple-translation
      lookup raises). */
  datatype Error = FetchFailed | MissingSimpleTranslation
  datatype Result<T> = Ok(value: T) | Err(error: Error)

  // ---------------------------------------------------------------------------
  // The field-lookup helper

  /** `_search_value`: the normalised text of the first match, or "" if none. */
  function SearchValue(doc: Document, n: Node, sel: Selector): (r: string)
  {
    var res := doc.FindAll(n, sel);
    if |res| > 0 then Normalize(doc.GetText(res[0])) else ""
  }

  /** No match gives the empty string. */
  lemma SearchValueNoMatch(doc: Document, n: Node, sel: Selector)
    requires |doc.FindAll(n, sel)| == 0
    ensures SearchValue(doc, n, sel) == ""
  {
  }

  /** Only the first match matters: two lookups whose first matches have the
      same text give the same value, whatever else matched. */
  lemma SearchValueFirstMatchOnly(d1: Document, n1: Node, s1: Selector, d2: Document, n2: Node, s2: Selector)
    requires |d1.FindAll(n1, s1)| > 0 && |d2.FindAll(n2, s2)| > 0
    requires d1.GetText(d1.FindAll(n1, s1)[0]) == d2.GetText(d2.FindAll(n2, s2)[0])
    ensures SearchValue(d1, n1, s1) == SearchValue(d2, n2, s2)
  {
  }

  // ---------------------------------------------------------------------------
  // Records whose every scalar field came from the field-lookup helper

  predicate ExampleNormal(e: Example) {
    IsNormal(e.en) && IsNormal(e.rus)
  }

  predicate ItemNormal(it: Item) {
    IsNormal(it.rus) && forall e :: e in it.ex ==> ExampleNormal(e)
  }

  predicate MeaningNormal(m: Meaning) {
    && IsNormal(m.enWord) && IsNormal(m.trans) && IsNormal(m.part) && IsNormal(m.other)
    && forall it :: it in m.items ==> ItemNormal(it)
  }

  // ---------------------------------------------------------------------------
  // Specification of each extraction step

  /** `_get_example` */
  function ExtractExample(doc: Document, n: Node): (e: Example)
  {
    Example(SearchValue(doc, n, SampleSource), SearchValue(doc, n, SampleTranslation))
  }

  /** One example per `samplesList` match, in match order. */
  function ExtractExamples(doc: Document, ns: seq<Node>): (es: seq<Example>)
    ensures |es| == |ns|
  {
    if |ns| == 0 then []
    else ExtractExamples(doc, ns[..|ns| - 1]) + [ExtractExample(doc, ns[|ns| - 1])]
  }

  /** `_get_one_mean` */
  function ExtractItem(doc: Document, n: Node): (it: Item)
  {
    Item(SearchValue(doc, n, Gloss), ExtractExamples(doc, doc.FindAll(n, SamplesList)))
  }

  function ExtractItems(doc: Document, ns: seq<Node>): (its: seq<Item>)
    ensures |its| == |ns|
  {
    if |ns| == 0 then []
    else ExtractItems(doc, ns[..|ns| - 1]) + [ExtractItem(doc, ns[|ns| - 1])]
  }

  /** `_get_word_mean` */
  function ExtractMeaning(doc: Document, n: Node): (m: Meaning)
  {
    Meaning(
      SearchValue(doc, n, Headword),
      SearchValue(doc, n, Transcription),
      SearchValue(doc, n, PartOfSpeech),
      SearchValue(doc, n, OtherForms),
      ExtractItems(doc, doc.FindAll(n, TranslationItem)))
  }

  function ExtractMeanings(doc: Document, ns: seq<Node>): (ms: seq<Meaning>)
    ensures |ms| == |ns|
  {
    if |ns| == 0 then []
    else ExtractMeanings(doc, ns[..|ns| - 1]) + [ExtractMeaning(doc, ns[|ns| - 1])]
  }

  /** `_get_word_from_prompt` once the page is parsed. */
  function WordFromPage(word: string, doc: Document): (r: Result<Data>)
    ensures r.Err? <==> |doc.FindAll(doc.root, TranslationText)| == 0
    ensures r.Err? ==> r.error == MissingSimpleTranslation
    ensures r.Ok? ==> r.value.en == word
    ensures r.Ok? ==> r.value.simple == doc.GetText(doc.FindAll(doc.root, TranslationText)[0])
    ensures r.Ok? ==> |r.value.meanings| == |doc.FindAll(doc.root, ResultBlock)|
  {
    var tText := doc.FindAll(doc.root, TranslationText);
    if |tText| == 0 then Err(MissingSimpleTranslation)
    else Ok(Data(word, doc.GetText(tText[0]), ExtractMeanings(doc, doc.FindAll(doc.root, ResultBlock))))
  }

  /** `_get_word_from_prompt`: fetch and parse the page, then extract. The
      dictionary service is a table from word to parsed page; a word it has no
      page for is a fetch or parse failure. */
  function Lookup(word: string, service: map<string, Document>): Result<Data> {
    if word in service then WordFromPage(word, service[word]) else Err(FetchFailed)
  }

  /** `_is_valid_data` */
  predicate IsValidData(d: Data) {
    d.simple != "" && |d.meanings| > 0
  }

  // ---------------------------------------------------------------------------
  // Extraction keeps count and order at every level

  lemma {:induction false} ExtractExamplesAt(doc: Document, ns: seq<Node>, k: nat)
    requires k < |ns|
    ensures ExtractExamples(doc, ns)[k] == ExtractExample(doc, ns[k])
  {
    if k < |ns| - 1 {
      ExtractExamplesAt(doc, ns[..|ns| - 1], k);
    }
  }

  lemma {:induction false} ExtractItemsAt(doc: Document, ns: seq<Node>, k: nat)
    requires k < |ns|
    ensures ExtractItems(doc, ns)[k] == ExtractItem(doc, ns[k])
  {
    if k < |ns| - 1 {
      ExtractItemsAt(doc, ns[..|ns| - 1], k);
    }
  }

  lemma {:induction false} ExtractMeaningsAt(doc: Document, ns: seq<Node>, k: nat)
    requires k < |ns|
    ensures ExtractMeanings(doc, ns)[k] == ExtractMeaning(doc, ns[k])
  {
    if k < |ns| - 1 {
      ExtractMeaningsAt(doc, ns[..|ns| - 1], k);
    }
  }

  /** The i-th meaning of the record comes from the i-th result block. */
  lemma WordFromPageMirrorsBlocks(word: string, doc: Document, i: nat)
    requires WordFromPage(word, doc).Ok?
    requires i < |doc.FindAll(doc.root, ResultBlock)|
    ensures WordFromPage(word, doc).value.meanings[i] == ExtractMeaning(doc, doc.FindAll(doc.root, ResultBlock)[i])
  {
    ExtractMeaningsAt(doc, doc.FindAll(doc.root, ResultBlock), i);
  }

  /** A page with no result block gives no meanings, so the word is not valid,
      whatever its simple translation. */
  lemma NoResultBlockIsInvalid(word: string, doc: Document)
    requires |doc.FindAll(doc.root, ResultBlock)| == 0
    ensures WordFromPage(word, doc).Ok? ==> !IsValidData(WordFromPage(word, doc).value)
  {
  }

  /** Whether a looked-up word is valid is decided by its page alone: the
      first `id="tText"` element has some text and there is a result block. */
  lemma ValidOnPage(word: string, doc: Document)
    requires WordFromPage(word, doc).Ok?
    ensures IsValidData(WordFromPage(word, doc).value) <==>
      doc.GetText(doc.FindAll(doc.root, TranslationText)[0]) != "" && |doc.FindAll(doc.root, ResultBlock)| > 0
  {
  }

  /** A present but empty simple translation makes the word invalid too. */
  lemma EmptySimpleIsInvalid(word: string, doc: Document)
    requires WordFromPage(word, doc).Ok?
    requires doc.GetText(doc.FindAll(doc.root, TranslationText)[0]) == ""
    ensures !IsValidData(WordFromPage(word, doc).value)
  {
  }

  // ---------------------------------------------------------------------------
  // Every scalar field the extractor stores is normalised text

  /** The helper's value is always normal text: no tab, newline or carriage
      return, no two adjacent spaces, no whitespace at either end. */
  lemma SearchValueNormal(doc: Document, n: Node, sel: Selector)
    ensures IsNormal(SearchValue(doc, n, sel))
  {
    if |doc.FindAll(n, sel)| == 0 {
      assert SearchValue(doc, n, sel) == "";
    }
  }

  /** Looking up a value and normalising it again changes nothing. */
  lemma SearchValueStable(doc: Document, n: Node, sel: Selector)
    ensures Normalize(SearchValue(doc, n, sel)) == SearchValue(doc, n, sel)
  {
    SearchValueNormal(doc, n, sel);
    NormalizeFixesNormal(SearchValue(doc, n, sel));
  }

  lemma {:induction false} ExtractExamplesNormal(doc: Document, ns: seq<Node>)
    ensures forall e :: e in ExtractExamples(doc, ns) ==> ExampleNormal(e)
  {
    if |ns| > 0 {
      var last := ns[|ns| - 1];
      ExtractExamplesNormal(doc, ns[..|ns| - 1]);
      SearchValueNormal(doc, last, SampleSource);
      SearchValueNormal(doc, last, SampleTranslation);
    }
  }

  lemma ExtractItemNormal(doc: Document, n: Node)
    ensures ItemNormal(ExtractItem(doc, n))
  {
    SearchValueNormal(doc, n, Gloss);
    ExtractExamplesNormal(doc, doc.FindAll(n, SamplesList));
  }

  lemma {:induction false} ExtractItemsNormal(doc: Document, ns: seq<Node>)
    ensures forall it :: it in ExtractItems(doc, ns) ==> ItemNormal(it)
  {
    if |ns| > 0 {
      ExtractItemsNormal(doc, ns[..|ns| - 1]);
      ExtractItemNormal(doc, ns[|ns| - 1]);
    }
  }

  lemma ExtractMeaningNormal(doc: Document, n: Node)
    ensures MeaningNormal(ExtractMeaning(doc, n))
  {
    SearchValueNormal(doc, n, Headword);
    SearchValueNormal(doc, n, Transcription);
    SearchValueNormal(doc, n, PartOfSpeech);
    SearchValueNormal(doc, n, OtherForms);
    ExtractItemsNormal(doc, doc.FindAll(n, TranslationItem));
  }

  lemma {:induction false} ExtractMeaningsNormal(doc: Document, ns: seq<Node>)
    ensures forall m :: m in ExtractMeanings(doc, ns) ==> MeaningNormal(m)
  {
    if |ns| > 0 {
      ExtractMeaningsNormal(doc, ns[..|ns| - 1]);
      ExtractMeaningNormal(doc, ns[|ns| - 1]);
    }
  }

  /** Every meaning, item and example of an extracted record is normal text;
      only the simple translation is stored as the page has it. */
  lemma WordFromPageNormal(word: string, doc: Document)
    requires WordFromPage(word, doc).Ok?
    ensures forall m :: m in WordFromPage(word, doc).value.meanings ==> MeaningNormal(m)
  {
    ExtractMeaningsNormal(doc, doc.FindAll(doc.root, ResultBlock));
  }

  // ---------------------------------------------------------------------------
  // The imperative extraction code

  /** `_get_one_mean`: a loop appending one example per sample list. */
  method GetOneMean(doc: Document, n: Node) returns (item: Item)
    ensures item == ExtractItem(doc, n)
  {
    var ex: seq<Example> := [];
    var elements := doc.FindAll(n, SamplesList);
    for i := 0 to |elements|
      invariant ex == ExtractExamples(doc, elements[..i])
    {
      assert elements[..i + 1][..i] == elements[..i];
      ex := ex + [ExtractExample(doc, elements[i])];
    }
    assert elements[..|elements|] == elements;
    // The gloss lookup is pure, so taking it after the loop changes nothing.
    var rus := SearchValue(doc, n, Gloss);
    item := Item(rus, ex);
  }

  /** `_get_word_mean`: the four scalar fields, then a loop over translation items. */
  method GetWordMean(doc: Document, n: Node) returns (m: Meaning)
    ensures m == ExtractMeaning(doc, n)
  {
    var items: seq<Item> := [];
    var elements := doc.FindAll(n, TranslationItem);
    for i := 0 to |elements|
      invariant items == ExtractItems(doc, elements[..i])
    {
      assert elements[..i + 1][..i] == elements[..i];
      var item := GetOneMean(doc, elements[i]);
      items := items + [item];
    }
    assert elements[..|elements|] == elements;
    // The four scalar lookups are pure, so taking them after the loop gives
    // the same meaning as taking them first.
    var enWord := SearchValue(doc, n, Headword);
    var trans := SearchValue(doc, n, Transcription);
    var part := SearchValue(doc, n, PartOfSpeech);
    var other := SearchValue(doc, n, OtherForms);
    m := Meaning(enWord, trans, part, other, items);
  }

  /** The `data` dict, filled in place by `_add_simple_word` and `_add_meanings`.
      Keys the code has not yet set hold "" and []. */
  class DataDict {
    var en: string
    var simple: string
    var meanings: seq<Meaning>

    function Value(): Data
      reads this
    {
      Data(en, simple, meanings)
    }

    constructor (word: string)
      ensures en == word && simple == "" && meanings == []
    {
      en := word;
      simple := "";
      meanings := [];
    }

    /** `_add_simple_word`: the raw text of the first `id="tText"` element;
        `ok` is false where the source's `[0]` raises. */
    method AddSimpleWord(doc: Document) returns (ok: bool)
      modifies this
      ensures ok <==> |doc.FindAll(doc.root, TranslationText)| > 0
      ensures simple == if ok then doc.GetText(doc.FindAll(doc.root, TranslationText)[0]) else old(simple)
      ensures en == old(en) && meanings == old(meanings)
    {
      var tText := doc.FindAll(doc.root, TranslationText);
      if |tText| == 0 {
        ok := false;
      } else {
        simple := doc.GetText(tText[0]);
        ok := true;
      }
    }

    /** `_add_meanings`: the meanings built by the loop replace the dict's. */
    method AddMeanings(doc: Document)
      modifies this
      ensures meanings == ExtractMeanings(doc, doc.FindAll(doc.root, ResultBlock))
      ensures en == old(en) && simple == old(simple)
    {
      var ms := CollectMeanings(doc);
      meanings := ms;
    }
  }

  /** The loop of `_add_meanings`: one meaning per result block, appended in order. */
  method CollectMeanings(doc: Document) returns (ms: seq<Meaning>)
    ensures ms == ExtractMeanings(doc, doc.FindAll(doc.root, ResultBlock))
  {
    ms := [];
    var elements := doc.FindAll(doc.root, ResultBlock);
    for i := 0 to |elements|
      invariant ms == ExtractMeanings(doc, elements[..i])
    {
      assert elements[..i + 1][..i] == elements[..i];
      var m := GetWordMean(doc, elements[i]);
      ms := ms + [m];
    }
    assert elements[..|elements|] == elements;
  }

  /** `_get_word_from_prompt`: fetch, then fill a fresh dict step by step. */
  method GetWordFromPrompt(word: string, service: map<string, Document>) returns (r: Result<Data>)
    ensures r == Lookup(word, service)
  {
    if word !in service {
      return Err(FetchFailed);
    }
    var doc := service[word];
    var data := new DataDict(word);
    var ok := data.AddSimpleWord(doc);
    if !ok {
      return Err(MissingSimpleTranslation);
    }
    data.AddMeanings(doc);
    r := Ok(data.Value());
  }
}
