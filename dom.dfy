/** The parsed dictionary page, seen only through the two operations the
    extractor uses: `find_all` (matches below a node, in document order) and
    `getText` (a node's text). Both are given as finite tables, so they are
    left uninterpreted: nothing is assumed about how bs4 matches selectors. */
module Dom {

  /** A node of the parsed page, identified by its position in the document. */
  datatype Node = Node(position: nat)

  /** The two kinds of lookup the extractor performs: `find_all(id=…)` and
      `find_all(attrs={"class": …})`. */
  datatype Selector = ById(id: string) | ByClass(cls: string)

  datatype Document = Document(
    root: Node,
    matches: map<(Node, Selector), seq<Node>>,
    texts: map<Node, string>)
  {
    /** `node.find_all(selector)`: the matches in document order, none if the
        table has no entry. */
    function FindAll(n: Node, sel: Selector): seq<Node> {
      if (n, sel) in matches then matches[(n, sel)] else []
    }

    /** `node.getText()` */
    function GetText(n: Node): string {
      if n in texts then texts[n] else ""
    }
  }

  // The markup contract with the dictionary service.
  const TranslationText: Selector := ById("tText")
  const ResultBlock: Selector := ByClass("cforms_result")
  const Headword: Selector := ByClass("source_only sayWord")
  const Transcription: Selector := ByClass("transcription")
  const PartOfSpeech: Selector := ByClass("ref_psp")
  const OtherForms: Selector := ByClass("otherImportantForms")
  const TranslationItem: Selector := ByClass("translation-item")
  const Gloss: Selector := ByClass("result_only sayWord")
  const SamplesList: Selector := ByClass("samplesList")
  const SampleSource: Selector := ByClass("samSource")
  const SampleTranslation: Selector := ByClass("samTranslation")
}
