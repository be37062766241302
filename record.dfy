/** The renderer: each extracted record becomes one `;`-joined line of
    markup for the flashcard importer. */
module Record {
  import opened Text
  import opened Extractor

  /** A piece of markup: an element with one class and its children, or a
      text body (what `tag.string = value` leaves as the tag's only child). */
  datatype Markup = Element(name: string, cls: string, children: seq<Markup>) | Chars(text: string)

  // ---------------------------------------------------------------------------
  // Serialisation

  /** The escaping of text bodies by the "minimal" formatter: `&`, `<` and
      `>` become entities, every other character is kept. */
  function EscapeChar(c: char): string {
    if c == '&' then "&amp;"
    else if c == '<' then "&lt;"
    else if c == '>' then "&gt;"
    else [c]
  }

  function Escape(s: string): string {
    if |s| == 0 then "" else EscapeChar(s[0]) + Escape(s[1..])
  }

  /** Reading the three entities back. */
  function Unescape(s: string): string
    decreases |s|
  {
    if |s| >= 5 && s[0] == '&' && s[1] == 'a' && s[2] == 'm' && s[3] == 'p' && s[4] == ';' then
      "&" + Unescape(s[5..])
    else if |s| >= 4 && s[0] == '&' && s[1] == 'l' && s[2] == 't' && s[3] == ';' then
      "<" + Unescape(s[4..])
    else if |s| >= 4 && s[0] == '&' && s[1] == 'g' && s[2] == 't' && s[3] == ';' then
      ">" + Unescape(s[4..])
    else if |s| == 0 then ""
    else [s[0]] + Unescape(s[1..])
  }

  function StartTag(name: string, cls: string): string {
    "<" + name + " class=\"" + cls + "\">"
  }

  function EndTag(name: string): string {
    "</" + name + ">"
  }

  /** `str(tag)` */
  function Serialize(m: Markup): string
    decreases m
  {
    match m
    case Chars(text) => Escape(text)
    case Element(name, cls, children) => StartTag(name, cls) + SerializeAll(children) + EndTag(name)
  }

  /** The children one after another, as `str(soup)` renders the top level. */
  function SerializeAll(ms: seq<Markup>): string
    decreases ms, 1
  {
    Join(Rendered(ms))
  }

  /** Each of the children rendered on its own. */
  function Rendered(ms: seq<Markup>): seq<string>
    decreases ms, 0
  {
    if |ms| == 0 then [] else Rendered(ms[..|ms| - 1]) + [Serialize(ms[|ms| - 1])]
  }

  function Join(ss: seq<string>): string {
    if |ss| == 0 then "" else Join(ss[..|ss| - 1]) + ss[|ss| - 1]
  }

  // ---------------------------------------------------------------------------
  // The tree the renderer builds

  /** A tag holding one text body. */
  function Labelled(name: string, cls: string, text: string): Markup {
    Element(name, cls, [Chars(text)])
  }

  /** The `ex` div of one example. */
  function ExampleDiv(e: Example): Markup {
    Element("div", "ex", [Labelled("span", "ex_en", e.en), Labelled("span", "ex_rus", e.rus)])
  }

  function ExampleDivs(es: seq<Example>): seq<Markup> {
    if |es| == 0 then [] else ExampleDivs(es[..|es| - 1]) + [ExampleDiv(es[|es| - 1])]
  }

  /** An item contributes its gloss, then one `ex` div per example. */
  function ItemMarkup(it: Item): seq<Markup> {
    [Labelled("div", "item_rus", it.rus)] + ExampleDivs(it.ex)
  }

  function ItemsMarkup(its: seq<Item>): seq<Markup> {
    if |its| == 0 then [] else ItemsMarkup(its[..|its| - 1]) + ItemMarkup(its[|its| - 1])
  }

  /** The four tags every `mean` div starts with. */
  function MeanHead(m: Meaning): seq<Markup> {
    [ Labelled("span", "en_word", m.enWord), Labelled("span", "trans", m.trans),
      Labelled("span", "part", m.part), Labelled("div", "other", m.other) ]
  }

  /** The `mean` div of one meaning: everything appended to `tag_mean`, also
      what was appended after the tag was put into the soup. */
  function MeanDiv(m: Meaning): Markup {
    Element("div", "mean", MeanHead(m) + ItemsMarkup(m.items))
  }

  function MeanDivs(ms: seq<Meaning>): seq<Markup> {
    if |ms| == 0 then [] else MeanDivs(ms[..|ms| - 1]) + [MeanDiv(ms[|ms| - 1])]
  }

  function EnDiv(d: Data): Markup {
    Labelled("div", "en_simple", d.en)
  }

  function RusDiv(d: Data): Markup {
    Labelled("div", "rus_simple", d.simple)
  }

  /** The record `_make_record` returns for `d`. */
  function RecordOf(d: Data): string {
    Serialize(EnDiv(d)) + ";" + Serialize(RusDiv(d)) + ";" + SerializeAll(MeanDivs(d.meanings))
  }

  // ---------------------------------------------------------------------------
  // The imperative renderer

  /** A tag under construction: its children grow by `append`, and whoever
      holds a reference to it sees every child appended later. */
  class Tag {
    const name: string
    const cls: string
    var children: seq<Markup>

    constructor (name: string, cls: string)
      ensures this.name == name && this.cls == cls && children == []
    {
      this.name := name;
      this.cls := cls;
      children := [];
    }

    method Append(m: Markup)
      modifies this
      ensures children == old(children) + [m]
    {
      children := children + [m];
    }

    /** The markup the tag stands for in the current heap. */
    function Value(): Markup
      reads this
    {
      Element(name, cls, children)
    }
  }

  /** What a sequence of tag references renders as, in the current heap. */
  function Contents(tags: seq<Tag>): seq<Markup>
    reads tags
  {
    if |tags| == 0 then [] else Contents(tags[..|tags| - 1]) + [tags[|tags| - 1].Value()]
  }

  /** The innermost loop of `_make_mean_for_anki`: one `ex` div per example. */
  method AppendExamples(tagMean: Tag, es: seq<Example>)
    modifies tagMean
    ensures tagMean.children == old(tagMean.children) + ExampleDivs(es)
  {
    for k := 0 to |es|
      invariant tagMean.children == old(tagMean.children) + ExampleDivs(es[..k])
    {
      var example := es[k];
      // `ext` is complete before it is appended and is not touched
      // afterwards, so its value is what `tag_mean` holds.
      var ext := Element("div", "ex", [Labelled("span", "ex_en", example.en), Labelled("span", "ex_rus", example.rus)]);
      tagMean.Append(ext);
      assert es[..k + 1][..k] == es[..k];
    }
    assert es[..|es|] == es;
  }

  /** The loop over the items of one meaning: each gloss, then its examples. */
  method AppendItems(tagMean: Tag, items: seq<Item>)
    modifies tagMean
    ensures tagMean.children == old(tagMean.children) + ItemsMarkup(items)
  {
    for j := 0 to |items|
      invariant tagMean.children == old(tagMean.children) + ItemsMarkup(items[..j])
    {
      var item := items[j];
      tagMean.Append(Labelled("div", "item_rus", item.rus));
      AppendExamples(tagMean, item.ex);
      assert items[..j + 1][..j] == items[..j];
    }
    assert items[..|items|] == items;
  }

  /** One pass of the outer loop of `_make_mean_for_anki`: a new `tag_mean`
      gets its first three spans, goes into the soup, and then keeps growing;
      the soup sees all of it. */
  method AddMean(soup: seq<Tag>, mean: Meaning) returns (soup': seq<Tag>)
    ensures |soup'| == |soup| + 1 && soup'[..|soup|] == soup
    ensures Contents(soup') == old(Contents(soup)) + [MeanDiv(mean)]
  {
    ghost var done := Contents(soup);
    var tagMean := new Tag("div", "mean");
    tagMean.Append(Labelled("span", "en_word", mean.enWord));
    tagMean.Append(Labelled("span", "trans", mean.trans));
    tagMean.Append(Labelled("span", "part", mean.part));
    soup' := soup + [tagMean];
    tagMean.Append(Labelled("div", "other", mean.other));
    assert tagMean.children == MeanHead(mean);
    AppendItems(tagMean, mean.items);
    assert soup'[..|soup|] == soup;
    // The earlier tags are not the new one, so they are as they were.
    assert tagMean !in soup;
    assert Contents(soup) == done;
  }

  /** `_make_mean_for_anki`: the soup holds a reference to each `tag_mean`,
      put in after its first three spans; it still ends up holding one
      complete `mean` div per meaning. */
  method MakeMeanForAnki(data: Data) returns (soup: seq<Tag>)
    ensures Contents(soup) == MeanDivs(data.meanings)
  {
    soup := [];
    var ms := data.meanings;
    for i := 0 to |ms|
      invariant Contents(soup) == MeanDivs(ms[..i])
    {
      soup := AddMean(soup, ms[i]);
      assert ms[..i + 1][..i] == ms[..i];
    }
    assert ms[..|ms|] == ms;
  }

  /** `_make_record`: the word div, the simple-translation div and the soup,
      joined by `;`. */
  method MakeRecord(data: Data) returns (record: string)
    ensures record == RecordOf(data)
  {
    var wordEn := Labelled("div", "en_simple", data.en);
    var wordRus := Labelled("div", "rus_simple", data.simple);
    var wordMean := MakeMeanForAnki(data);
    record := Serialize(wordEn) + ";" + Serialize(wordRus) + ";" + SerializeAll(Contents(wordMean));
  }

  // ---------------------------------------------------------------------------
  // Escaping

  lemma UnescapeChar(c: char, rest: string)
    ensures Unescape(EscapeChar(c) + rest) == [c] + Unescape(rest)
  {
    var e := EscapeChar(c) + rest;
    if c == '&' {
      assert e[5..] == rest;
    } else if c == '<' {
      assert e[4..] == rest;
    } else if c == '>' {
      assert e[4..] == rest;
    } else {
      assert e[1..] == rest;
    }
  }

  /** Escaping loses nothing: the text body can be read back exactly. */
  lemma {:induction false} EscapeRoundTrip(s: string)
    ensures Unescape(Escape(s)) == s
  {
    if |s| > 0 {
      EscapeRoundTrip(s[1..]);
      UnescapeChar(s[0], Escape(s[1..]));
      assert s == [s[0]] + s[1..];
    }
  }

  /** Escaped text has no `<` or `>`, so it cannot open or close a tag. */
  lemma {:induction false} EscapeNoAngle(s: string)
    ensures '<' !in Escape(s) && '>' !in Escape(s)
  {
    if |s| > 0 {
      EscapeNoAngle(s[1..]);
    }
  }

  /** A character that is neither escaped nor part of an entity is in the
      escaped text exactly when it is in the text. */
  lemma {:induction false} EscapeKeeps(s: string, c: char)
    requires c !in "&amplgt;<>"
    ensures c in Escape(s) <==> c in s
  {
    if |s| > 0 {
      EscapeKeeps(s[1..], c);
      assert s == [s[0]] + s[1..];
      EscapeCharKeeps(s[0], c);
    }
  }

  lemma EscapeCharKeeps(d: char, c: char)
    requires c !in "&amplgt;<>"
    ensures c in EscapeChar(d) <==> c == d
  {
    assert c != '&' && c != 'a' && c != 'm' && c != 'p' && c != 'l' && c != 'g' && c != 't' && c != ';';
    if d == '&' {
      assert EscapeChar(d) == ['&', 'a', 'm', 'p', ';'];
    } else if d == '<' {
      assert EscapeChar(d) == ['&', 'l', 't', ';'];
    } else if d == '>' {
      assert EscapeChar(d) == ['&', 'g', 't', ';'];
    }
  }

  /** `;` is in the escaped text exactly when the text has a `;` or a
      character that becomes an entity. */
  lemma {:induction false} EscapeSemicolon(s: string)
    ensures ';' in Escape(s) <==> ';' in s || '&' in s || '<' in s || '>' in s
  {
    if |s| > 0 {
      EscapeSemicolon(s[1..]);
      assert s == [s[0]] + s[1..];
      assert ';' in EscapeChar(s[0]) <==> s[0] in ";&<>";
    }
  }

  // ---------------------------------------------------------------------------
  // Order and count

  lemma {:induction false} JoinAppend(a: seq<string>, b: seq<string>)
    ensures Join(a + b) == Join(a) + Join(b)
    decreases |b|
  {
    if |b| == 0 {
      assert a + b == a;
    } else {
      var c := a + b;
      assert c[..|c| - 1] == a + b[..|b| - 1];
      JoinAppend(a, b[..|b| - 1]);
    }
  }

  lemma {:induction false} RenderedAppend(a: seq<Markup>, b: seq<Markup>)
    ensures Rendered(a + b) == Rendered(a) + Rendered(b)
    decreases |b|
  {
    if |b| == 0 {
      assert a + b == a;
    } else {
      var c := a + b;
      assert c[..|c| - 1] == a + b[..|b| - 1];
      RenderedAppend(a, b[..|b| - 1]);
    }
  }

  lemma SerializeAllAppend(a: seq<Markup>, b: seq<Markup>)
    ensures SerializeAll(a + b) == SerializeAll(a) + SerializeAll(b)
  {
    RenderedAppend(a, b);
    JoinAppend(Rendered(a), Rendered(b));
  }

  lemma {:induction false} MeanDivsAppend(a: seq<Meaning>, b: seq<Meaning>)
    ensures MeanDivs(a + b) == MeanDivs(a) + MeanDivs(b)
    decreases |b|
  {
    if |b| == 0 {
      assert a + b == a;
    } else {
      assert (a + b)[..|a + b| - 1] == a + b[..|b| - 1];
      MeanDivsAppend(a, b[..|b| - 1]);
    }
  }

  /** One `mean` div per meaning, the k-th from the k-th meaning. */
  lemma {:induction false} MeanDivsAt(ms: seq<Meaning>, k: nat)
    requires k < |ms|
    ensures |MeanDivs(ms)| == |ms|
    ensures MeanDivs(ms)[k] == MeanDiv(ms[k])
  {
    if k < |ms| - 1 {
      MeanDivsAt(ms[..|ms| - 1], k);
    } else if |ms| > 1 {
      MeanDivsAt(ms[..|ms| - 1], 0);
    }
  }

  /** The meanings render in their own order: the record of `a + b` ends with
      the `mean` divs of `a` followed by those of `b`. */
  lemma RecordMeaningsInOrder(d: Data, a: seq<Meaning>, b: seq<Meaning>)
    requires d.meanings == a + b
    ensures RecordOf(d) == Serialize(EnDiv(d)) + ";" + Serialize(RusDiv(d)) + ";"
                           + SerializeAll(MeanDivs(a)) + SerializeAll(MeanDivs(b))
  {
    MeanDivsAppend(a, b);
    SerializeAllAppend(MeanDivs(a), MeanDivs(b));
  }

  // ---------------------------------------------------------------------------
  // What the importer sees: one line, three `;`-separated fields

  /** The characters of the fixed markup: tag and class names are lower-case
      letters and `_`, plus the punctuation of a start and an end tag. */
  predicate MarkupChar(c: char) {
    ('a' <= c <= 'z') || c == '_' || c == '<' || c == '>' || c == '/' || c == '=' || c == '"' || c == ' '
  }

  /** `c` occurs in no name, class or escaped text body of `m`. */
  predicate Avoids(m: Markup, c: char)
    decreases m
  {
    match m
    case Chars(text) => c !in Escape(text)
    case Element(name, cls, children) =>
      c !in name && c !in cls && forall k :: 0 <= k < |children| ==> Avoids(children[k], c)
  }

  lemma SerializeAvoids(m: Markup, c: char)
    requires !MarkupChar(c) && Avoids(m, c)
    ensures c !in Serialize(m)
    decreases m
  {
    if m.Element? {
      SerializeAllAvoids(m.children, c);
    }
  }

  lemma SerializeAllAvoids(ms: seq<Markup>, c: char)
    requires !MarkupChar(c) && AllAvoid(ms, c)
    ensures c !in SerializeAll(ms)
    decreases ms, 1
  {
    RenderedAvoids(ms, c);
    JoinAvoids(Rendered(ms), c);
  }

  lemma {:induction false} RenderedAvoids(ms: seq<Markup>, c: char)
    requires !MarkupChar(c) && AllAvoid(ms, c)
    ensures forall k :: 0 <= k < |Rendered(ms)| ==> c !in Rendered(ms)[k]
    decreases ms, 0
  {
    if |ms| > 0 {
      RenderedAvoids(ms[..|ms| - 1], c);
      SerializeAvoids(ms[|ms| - 1], c);
    }
  }

  lemma {:induction false} JoinAvoids(ss: seq<string>, c: char)
    requires forall k :: 0 <= k < |ss| ==> c !in ss[k]
    ensures c !in Join(ss)
  {
    if |ss| > 0 {
      JoinAvoids(ss[..|ss| - 1], c);
    }
  }

  /** `c` occurs in no escaped text field of the example, item or meaning. */
  predicate ExampleAvoids(e: Example, c: char) {
    c !in Escape(e.en) && c !in Escape(e.rus)
  }

  predicate ItemAvoids(it: Item, c: char) {
    c !in Escape(it.rus) && forall e :: e in it.ex ==> ExampleAvoids(e, c)
  }

  predicate MeaningAvoids(m: Meaning, c: char) {
    && c !in Escape(m.enWord) && c !in Escape(m.trans) && c !in Escape(m.part) && c !in Escape(m.other)
    && forall it :: it in m.items ==> ItemAvoids(it, c)
  }

  predicate AllAvoid(ms: seq<Markup>, c: char) {
    forall k :: 0 <= k < |ms| ==> Avoids(ms[k], c)
  }

  lemma AllAvoidAppend(a: seq<Markup>, b: seq<Markup>, c: char)
    requires AllAvoid(a, c) && AllAvoid(b, c)
    ensures AllAvoid(a + b, c)
  {
    forall k | 0 <= k < |a + b| ensures Avoids((a + b)[k], c) {
      if k >= |a| {
        assert (a + b)[k] == b[k - |a|];
      }
    }
  }

  /** No character outside the fixed markup is in a tag or class name. */
  lemma FixedLabels(c: char)
    requires !MarkupChar(c)
    ensures c !in "div" && c !in "span" && c !in "mean" && c !in "en_word" && c !in "trans"
    ensures c !in "part" && c !in "other" && c !in "item_rus" && c !in "ex" && c !in "ex_en"
    ensures c !in "ex_rus" && c !in "en_simple" && c !in "rus_simple"
  {
  }

  lemma LabelledAvoids(name: string, cls: string, text: string, c: char)
    requires c !in name && c !in cls && c !in Escape(text)
    ensures Avoids(Labelled(name, cls, text), c)
  {
    assert Labelled(name, cls, text).children[0] == Chars(text);
  }

  lemma ExampleDivAvoids(e: Example, c: char)
    requires !MarkupChar(c) && ExampleAvoids(e, c)
    ensures Avoids(ExampleDiv(e), c)
  {
    FixedLabels(c);
    LabelledAvoids("span", "ex_en", e.en, c);
    LabelledAvoids("span", "ex_rus", e.rus, c);
  }

  lemma {:induction false} ExampleDivsAvoid(es: seq<Example>, c: char)
    requires !MarkupChar(c) && forall e :: e in es ==> ExampleAvoids(e, c)
    ensures AllAvoid(ExampleDivs(es), c)
  {
    if |es| > 0 {
      ExampleDivsAvoid(es[..|es| - 1], c);
      ExampleDivAvoids(es[|es| - 1], c);
      AllAvoidAppend(ExampleDivs(es[..|es| - 1]), [ExampleDiv(es[|es| - 1])], c);
    }
  }

  lemma ItemMarkupAvoids(it: Item, c: char)
    requires !MarkupChar(c) && ItemAvoids(it, c)
    ensures AllAvoid(ItemMarkup(it), c)
  {
    FixedLabels(c);
    LabelledAvoids("div", "item_rus", it.rus, c);
    ExampleDivsAvoid(it.ex, c);
    AllAvoidAppend([Labelled("div", "item_rus", it.rus)], ExampleDivs(it.ex), c);
  }

  lemma {:induction false} ItemsMarkupAvoid(its: seq<Item>, c: char)
    requires !MarkupChar(c) && forall it :: it in its ==> ItemAvoids(it, c)
    ensures AllAvoid(ItemsMarkup(its), c)
  {
    if |its| > 0 {
      ItemsMarkupAvoid(its[..|its| - 1], c);
      ItemMarkupAvoids(its[|its| - 1], c);
      AllAvoidAppend(ItemsMarkup(its[..|its| - 1]), ItemMarkup(its[|its| - 1]), c);
    }
  }

  lemma MeanDivAvoids(m: Meaning, c: char)
    requires !MarkupChar(c) && MeaningAvoids(m, c)
    ensures Avoids(MeanDiv(m), c)
  {
    FixedLabels(c);
    LabelledAvoids("span", "en_word", m.enWord, c);
    LabelledAvoids("span", "trans", m.trans, c);
    LabelledAvoids("span", "part", m.part, c);
    LabelledAvoids("div", "other", m.other, c);
    ItemsMarkupAvoid(m.items, c);
    AllAvoidAppend(MeanHead(m), ItemsMarkup(m.items), c);
  }

  lemma {:induction false} MeanDivsAvoid(ms: seq<Meaning>, c: char)
    requires !MarkupChar(c) && forall m :: m in ms ==> MeaningAvoids(m, c)
    ensures AllAvoid(MeanDivs(ms), c)
  {
    if |ms| > 0 {
      MeanDivsAvoid(ms[..|ms| - 1], c);
      MeanDivAvoids(ms[|ms| - 1], c);
      AllAvoidAppend(MeanDivs(ms[..|ms| - 1]), [MeanDiv(ms[|ms| - 1])], c);
    }
  }

  /** `c` occurs in no escaped text field of the record. */
  predicate DataAvoids(d: Data, c: char) {
    c !in Escape(d.en) && c !in Escape(d.simple) && forall m :: m in d.meanings ==> MeaningAvoids(m, c)
  }

  /** A character outside the fixed markup that no escaped field holds is
      nowhere in the three cells of the record. */
  lemma CellsAvoid(d: Data, c: char)
    requires !MarkupChar(c) && DataAvoids(d, c)
    ensures c !in Serialize(EnDiv(d)) && c !in Serialize(RusDiv(d)) && c !in SerializeAll(MeanDivs(d.meanings))
  {
    FixedLabels(c);
    LabelledAvoids("div", "en_simple", d.en, c);
    SerializeAvoids(EnDiv(d), c);
    LabelledAvoids("div", "rus_simple", d.simple, c);
    SerializeAvoids(RusDiv(d), c);
    MeanDivsAvoid(d.meanings, c);
    SerializeAllAvoids(MeanDivs(d.meanings), c);
  }

  /** Splitting a line at every `;`, as a `;`-separated importer reads it. */
  function Split(s: string): (fields: seq<string>)
    ensures |fields| >= 1
  {
    if |s| == 0 then [""]
    else
      var rest := Split(s[1..]);
      if s[0] == ';' then [""] + rest else [[s[0]] + rest[0]] + rest[1..]
  }

  lemma {:induction false} SplitJoin(a: string, b: string)
    requires ';' !in a
    ensures Split(a + ";" + b) == [a] + Split(b)
  {
    if |a| > 0 {
      assert (a + ";" + b)[1..] == a[1..] + ";" + b;
      SplitJoin(a[1..], b);
      assert [a[0]] + a[1..] == a;
    } else {
      assert a + ";" + b == [';'] + b;
    }
  }

  lemma {:induction false} SplitPlain(a: string)
    requires ';' !in a
    ensures Split(a) == [a]
  {
    if |a| > 0 {
      SplitPlain(a[1..]);
      assert [a[0]] + a[1..] == a;
    }
  }

  /** Text with no `;`, `&`, `<` or `>`. */
  predicate Plain(s: string) {
    ';' !in s && '&' !in s && '<' !in s && '>' !in s
  }

  /** When no field holds `;`, `&`, `<` or `>`, the importer reads exactly
      three fields: the word div, the simple-translation div and the
      meanings. */
  lemma RecordFields(d: Data)
    requires Plain(d.en) && Plain(d.simple)
    requires forall m :: m in d.meanings ==>
      && Plain(m.enWord) && Plain(m.trans) && Plain(m.part) && Plain(m.other)
      && forall it :: it in m.items ==> Plain(it.rus) && forall e :: e in it.ex ==> Plain(e.en) && Plain(e.rus)
    ensures Split(RecordOf(d)) == [Serialize(EnDiv(d)), Serialize(RusDiv(d)), SerializeAll(MeanDivs(d.meanings))]
  {
    forall s: string | Plain(s) ensures ';' !in Escape(s) {
      EscapeSemicolon(s);
    }
    assert DataAvoids(d, ';');
    CellsAvoid(d, ';');
    var a, b, c := Serialize(EnDiv(d)), Serialize(RusDiv(d)), SerializeAll(MeanDivs(d.meanings));
    assert RecordOf(d) == a + ";" + (b + ";" + c);
    SplitJoin(a, b + ";" + c);
    SplitJoin(b, c);
    SplitPlain(c);
  }

  /** A tab, line break or carriage return is nowhere in the record when
      the word and the simple translation have none and every meaning is
      normalised text. */
  lemma RecordAvoidsControl(d: Data, c: char)
    requires IsControl(c) && c !in d.en && c !in d.simple
    requires forall m :: m in d.meanings ==> MeaningNormal(m)
    ensures c !in RecordOf(d)
  {
    forall s: string | c !in s ensures c !in Escape(s) {
      EscapeKeeps(s, c);
    }
    assert DataAvoids(d, c);
    CellsAvoid(d, c);
  }

  /** Normalised text has no line break or carriage return, so the record
      fits on one line as long as the word and the simple translation have
      none. */
  lemma RecordOneLine(d: Data)
    requires '\n' !in d.en && '\n' !in d.simple && '\r' !in d.en && '\r' !in d.simple
    requires forall m :: m in d.meanings ==> MeaningNormal(m)
    ensures '\n' !in RecordOf(d) && '\r' !in RecordOf(d)
  {
    RecordAvoidsControl(d, '\n');
    RecordAvoidsControl(d, '\r');
  }
}
