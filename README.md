# PromptTranslator in Dafny

A model of `PromptTranslator`, a word-list-to-flashcard pipeline. It reads a
list of words, looks each one up on a dictionary web page, and extracts a
nested record from the page: a simple translation, and meanings with their
items and examples. It renders each valid record as one `;`-separated line of
markup for a flashcard importer. A word without usable data goes to a
not-found file.

The model has six modules, one per part of `src/PromptTranslator.py`:

- `Text` models the normalisation in the field-lookup helper `_search_value`:
  - delete `[\t\n\r]`;
  - collapse each run of two or more spaces into one space;
  - apply Python's argument-less `str.strip()`.

  Python's `str.isspace()` character set is written out in full.
- `Dom` models the parsed page as the two operations the extractor uses:
  - `find_all`, as a finite table of matches in document order;
  - `getText`, as a finite table of texts.

  It also holds the selectors used by the code.
- `Extractor` models the chain from `_get_word_from_prompt` down to
  `_get_example`, both ways:
  - as functions, which form the specification;
  - as the imperative loops and the in-place `data` dict of the source, proved
    equal to those functions.
- `WordList` models the line-cleaning rule of `_get_words` and its loop.
- `Record` models `_make_record` and `_make_mean_for_anki` over a heap `Tag`
  class.
- `Translator` models the loop of `make_record`:
  - each output file is a `Sink` whose text only grows;
  - the run is specified step by step by `Step`, `Continue` and `Run`.

## Behaviour worth noting

- **The simple translation is stored raw.** It is the `getText()` of the first
  `id="tText"` element, taken as it is (line 36). Only the fields read through
  `_search_value` are normalised.
- **A missing `tText` element raises.** With no such element, the `[0]` at
  line 36 raises `IndexError`. The model returns
  `Err(MissingSimpleTranslation)`.
- **An error ends the run.** Nothing catches an exception around the lookup
  at line 97. So a missing `tText` element, or a failed fetch or parse at
  lines 25-29, ends the whole run, with the files holding what was written
  before it.
- **The not-found file gets no line break.** A valid word's record is written
  with a `"\n"` after it (lines 100-101). An invalid word is written to the
  not-found file bare (line 104), so successive words run together.
- **Everything appended to `tag_mean` ends up inside it.** The `mean` div is
  put into the soup at line 146, before its `other`, `item_rus` and `ex`
  children are appended (lines 148-167). The soup holds a reference to the
  tag, so every child is inside the `mean` div, in append order.
- **Escaping can add `;`.** The serialiser writes `&`, `<` and `>` in a text
  body as entities, and each entity ends in `;`. So a field holding one of
  them adds `;` characters to the `;`-joined record (line 127).
  `Record.RecordFields` states when the record splits into exactly its three
  cells.

## Model

| member | source | states |
|---|---|---|
| `Text.RemoveControl` | src/PromptTranslator.py:69 | definition of `re.sub("[\t\n\r]", "", s)`; properties in `RemoveControlClean`, `RemoveControlMembers`, `RemoveControlChar`, `RemoveControlAppend` |
| `Text.CollapseSpaces` | src/PromptTranslator.py:70 | definition of `re.sub("[ ]{2,}", " ", s)` as the regex engine's left-to-right greedy scan; properties in `CollapseSpacesNoDouble` and `CollapseIsSqueeze` |
| `Text.IsSpace` | src/PromptTranslator.py:71 | the characters `str.isspace()` accepts, which the argument-less `strip()` removes |
| `Text.Strip` | src/PromptTranslator.py:71 | definition of the argument-less `str.strip()`; properties in `StripSpec` and `StripChars` |
| `Text.Normalize` | src/PromptTranslator.py:69-71 | the normalised text has no tab, newline or carriage return, no two adjacent spaces, and no whitespace at either end |
| `Text.NormalizeFixesNormal` | src/PromptTranslator.py:69-71 | text that is already normal is returned unchanged |
| `Text.NormalizeIdempotent` | src/PromptTranslator.py:69-71 | normalising twice gives the same as normalising once |
| `Text.RemoveControlClean` | src/PromptTranslator.py:69 | after `re.sub("[\t\n\r]", "", s)` none of the three characters is left, and the text is no longer than before |
| `Text.RemoveControlMembers` | src/PromptTranslator.py:69 | a character is in the result exactly when it is in the text and is not `\t`, `\n` or `\r` |
| `Text.RemoveControlChar` | src/PromptTranslator.py:69 | a single character is deleted when it is `\t`, `\n` or `\r`, and kept otherwise; with `RemoveControlAppend` this pins the deletion down character by character |
| `Text.RemoveControlFixes` | src/PromptTranslator.py:69 | text without those characters is left as it is |
| `Text.RemoveControlSpec` | src/PromptTranslator.py:69 | `RemoveControlClean` and `RemoveControlFixes` together |
| `Text.RemoveControlAppend` | src/PromptTranslator.py:69 | the deletion is done piecewise: deleting from `a + b` is deleting from `a` then from `b`, so the kept characters keep their order |
| `Text.CollapseSpacesHead` | src/PromptTranslator.py:70 | collapsing keeps the first character and never makes the text longer |
| `Text.CollapseSpacesNoDouble` | src/PromptTranslator.py:70 | after `re.sub("[ ]{2,}", " ", s)` no two spaces are adjacent |
| `Text.CollapseSpacesNoControl` | src/PromptTranslator.py:70 | collapsing adds no tab, newline or carriage return |
| `Text.CollapseSpacesFixes` | src/PromptTranslator.py:70 | text without a double space is left as it is |
| `Text.CollapseIsSqueeze` | src/PromptTranslator.py:70 | the greedy left-to-right regex scan equals the reference definition "delete every space that is followed by another space" |
| `Text.TrimLeftSpec` | src/PromptTranslator.py:71 | the left trim removes a prefix made only of whitespace, and what is left does not start with whitespace |
| `Text.TrimRightSpec` | src/PromptTranslator.py:71 | the right trim removes a suffix made only of whitespace, and what is left does not end with whitespace |
| `Text.StripSpec` | src/PromptTranslator.py:71 | `strip()` returns a trimmed infix of the input, with whitespace only on each side of it |
| `Text.StripChars` | src/PromptTranslator.py:71 | `strip()` only removes characters, and returns `""` only for all-whitespace input |
| `Text.StripKeepsNormal` | src/PromptTranslator.py:71 | stripping keeps the absence of control characters and of double spaces |
| `Text.StripTrimmed` | src/PromptTranslator.py:71 | stripping a trimmed string returns it unchanged |
| `Extractor.SearchValue` | src/PromptTranslator.py:65-74 | definition of `_search_value`: the normalised text of the first match, `""` without one; properties in the four lemmas below |
| `Extractor.SearchValueNoMatch` | src/PromptTranslator.py:66-73 | when nothing matches, the helper returns `""` |
| `Extractor.SearchValueFirstMatchOnly` | src/PromptTranslator.py:66-68 | only the text of the first match matters: two lookups whose first matches have the same text give the same value, whatever else matched |
| `Extractor.SearchValueNormal` | src/PromptTranslator.py:65-74 | every value the helper returns, the `""` of no match included, is normal text |
| `Extractor.SearchValueStable` | src/PromptTranslator.py:65-74 | normalising a returned value again changes nothing |
| `Dom.Document.FindAll` | src/PromptTranslator.py:66 | `find_all` below a node, as an uninterpreted table of matches in document order |
| `Dom.Document.GetText` | src/PromptTranslator.py:68 | `getText()` of a node, as an uninterpreted table |
| `Extractor.ExtractExample` | src/PromptTranslator.py:85-89 | definition of `_get_example`: both fields through `_search_value`; properties in `ExtractExamplesNormal` |
| `Extractor.ExtractItem` | src/PromptTranslator.py:76-83 | definition of `_get_one_mean`: the gloss, then one example per `samplesList` match; properties in `ExtractItemNormal`, `ExtractExamplesAt`, and `GetOneMean` as its loop |
| `Extractor.ExtractMeaning` | src/PromptTranslator.py:49-62 | definition of `_get_word_mean`: four scalar fields, then one item per `translation-item` match; properties in `ExtractMeaningNormal`, `ExtractItemsAt`, and `GetWordMean` as its loop |
| `Extractor.ExtractExamples` | src/PromptTranslator.py:80-82 | one example per `samplesList` match |
| `Extractor.ExtractItems` | src/PromptTranslator.py:59-61 | one item per `translation-item` match |
| `Extractor.ExtractMeanings` | src/PromptTranslator.py:43-45 | one meaning per `cforms_result` match |
| `Extractor.ExtractExamplesAt` | src/PromptTranslator.py:80-82 | the k-th example comes from the k-th `samplesList` match |
| `Extractor.ExtractItemsAt` | src/PromptTranslator.py:59-61 | the k-th item comes from the k-th `translation-item` match |
| `Extractor.ExtractMeaningsAt` | src/PromptTranslator.py:43-45 | the k-th meaning comes from the k-th `cforms_result` match |
| `Extractor.WordFromPage` | src/PromptTranslator.py:8-14 | the page gives an error exactly when it has no `id="tText"` element, and that error is `MissingSimpleTranslation`; otherwise `en` is the word, `simple` is the raw text of the first `tText` element, and there is one meaning per result block |
| `Extractor.Lookup` | src/PromptTranslator.py:8-14 | definition of `_get_word_from_prompt` with the fetch as a table: a word without a page fails with `FetchFailed`, one with a page gives `WordFromPage`; properties in `WordFromPage`, `GetWordFromPrompt` and `Translator.FailureEndsRun` |
| `Extractor.IsValidData` | src/PromptTranslator.py:17-18 | definition of `_is_valid_data`; properties in `ValidOnPage`, `NoResultBlockIsInvalid`, `EmptySimpleIsInvalid` |
| `Extractor.WordFromPageMirrorsBlocks` | src/PromptTranslator.py:43-45 | `meanings[i]` is extracted from the i-th result block |
| `Extractor.ValidOnPage` | src/PromptTranslator.py:17-18 | a looked-up word is valid exactly when its first `tText` element has some text and its page has a result block |
| `Extractor.NoResultBlockIsInvalid` | src/PromptTranslator.py:17-18 | a page without a result block gives an invalid record, whatever its simple translation |
| `Extractor.EmptySimpleIsInvalid` | src/PromptTranslator.py:17-18 | an empty simple translation makes the record invalid, whatever its meanings |
| `Extractor.ExtractExamplesNormal` | src/PromptTranslator.py:85-89 | both fields of each example are normal text |
| `Extractor.ExtractItemNormal` | src/PromptTranslator.py:76-83 | an item's gloss, and each of its examples, are normal text |
| `Extractor.ExtractItemsNormal` | src/PromptTranslator.py:59-61 | every extracted item is normal text |
| `Extractor.ExtractMeaningNormal` | src/PromptTranslator.py:49-62 | the four scalar fields of a meaning, and its items, are normal text |
| `Extractor.ExtractMeaningsNormal` | src/PromptTranslator.py:43-45 | every extracted meaning is normal text |
| `Extractor.WordFromPageNormal` | src/PromptTranslator.py:31-62 | every meaning, item and example of an extracted record is normal text |
| `Extractor.GetOneMean` | src/PromptTranslator.py:76-83 | the loop over `samplesList` matches builds exactly the specified item |
| `Extractor.GetWordMean` | src/PromptTranslator.py:49-62 | the loop over `translation-item` matches builds exactly the specified meaning |
| `Extractor.CollectMeanings` | src/PromptTranslator.py:42-45 | the loop over result blocks builds exactly the specified meanings, in match order |
| `Extractor.DataDict.constructor` | src/PromptTranslator.py:9-10 | a fresh dict holds the word, with no simple translation and no meanings yet |
| `Extractor.DataDict.AddSimpleWord` | src/PromptTranslator.py:31-36 | succeeds exactly when there is a `tText` element, stores that element's raw text, and changes no other key |
| `Extractor.DataDict.AddMeanings` | src/PromptTranslator.py:38-47 | replaces `meanings` by the extracted meanings and changes no other key |
| `Extractor.GetWordFromPrompt` | src/PromptTranslator.py:8-14 | fetching, then filling the dict in place, returns exactly `Lookup(word, service)` |
| `WordList.RemoveCommas` | src/PromptTranslator.py:111 | definition of `line.replace(",", "")`; properties in `RemoveCommasChar` and `RemoveCommasAppend`, which pin the deletion down character by character, and `RemoveCommasMembers`, `RemoveCommasNoComma` |
| `WordList.CleanLine` | src/PromptTranslator.py:111 | definition of `line.replace(",", "").strip()`: the line with exactly its commas deleted (`RemoveCommasChar`, `RemoveCommasAppend`), then stripped (`Text.StripSpec`, which fixes the result uniquely); shape in `CleanLineSpec` and `CleanLineIdempotent` |
| `WordList.CleanLines` | src/PromptTranslator.py:110-113 | definition of the words of `_get_words`, in line order, empty lines skipped; properties in the `CleanLines…` lemmas, and `GetWords` as its loop |
| `WordList.ReadLine` | src/PromptTranslator.py:109-110 | what iterating over a file opened in text mode yields: no `\r`, and a `\n` only at the end |
| `WordList.RemoveCommasChar` | src/PromptTranslator.py:111 | a single character is deleted when it is a comma, and kept otherwise |
| `WordList.RemoveCommasAppend` | src/PromptTranslator.py:111 | deleting commas from `a + b` is deleting them from `a` then from `b`, so the kept characters keep their order and count |
| `WordList.RemoveCommasMembers` | src/PromptTranslator.py:111 | a character survives `replace(",", "")` exactly when it is in the line and is not a comma, so every comma goes, not only trailing ones |
| `WordList.RemoveCommasNoComma` | src/PromptTranslator.py:111 | a line without commas is left as it is |
| `WordList.CleanLineShape` | src/PromptTranslator.py:111 | a cleaned line is trimmed and has no comma |
| `WordList.CleanLineEmpty` | src/PromptTranslator.py:111-112 | a cleaned line is non-empty exactly when the line had a character that is neither a comma nor whitespace |
| `WordList.CleanLineSpec` | src/PromptTranslator.py:111-112 | `CleanLineShape` and `CleanLineEmpty` together |
| `WordList.CleanLineIdempotent` | src/PromptTranslator.py:111 | cleaning a cleaned line changes nothing |
| `WordList.RemoveCommasBreak` | src/PromptTranslator.py:110-111 | removing commas keeps a line's line break at its end |
| `WordList.CleanLineNoNewline` | src/PromptTranslator.py:110-111 | a word read from a line whose `\n` can only come last has no `\n` |
| `WordList.CleanLineNoBreak` | src/PromptTranslator.py:110-111 | a word read from a line, as line iteration yields it, has no `\n` and no `\r` |
| `WordList.CleanLinesWords` | src/PromptTranslator.py:110-113 | every word is non-empty, trimmed and comma-free |
| `WordList.CleanLinesNoBreak` | src/PromptTranslator.py:110-113 | no word holds a `\n` or a `\r` |
| `WordList.CleanLinesAppend` | src/PromptTranslator.py:110-113 | the words of `a + b` are the words of `a` followed by the words of `b`, so input line order is kept |
| `WordList.CleanLinesSingle` | src/PromptTranslator.py:110-113 | one line gives its cleaned form if it has a word character, and nothing otherwise, so blank lines are dropped |
| `WordList.CleanLinesIdempotent` | src/PromptTranslator.py:110-113 | cleaning the cleaned words again, taken as lines, changes nothing |
| `WordList.GetWords` | src/PromptTranslator.py:106-114 | the loop returns exactly `CleanLines(lines)`, and every word is non-empty, trimmed and comma-free |
| `Record.Escape` | src/PromptTranslator.py:120-127 | definition of how a text body set through `.string` is written by `str()`: `&`, `<`, `>` as entities; properties in `EscapeRoundTrip`, `EscapeNoAngle`, `EscapeKeeps`, `EscapeSemicolon` |
| `Record.Serialize` | src/PromptTranslator.py:127 | definition of `str(tag)` as `<name class="cls">`, the serialised children, `</name>`; properties in `SerializeAllAppend` and `SerializeAvoids` |
| `Record.MeanDiv` | src/PromptTranslator.py:134-167 | definition of the complete `mean` div: `en_word`, `trans`, `part`, `other`, then per item its `item_rus` div and its `ex` divs; `AddMean` proves the aliased `tag_mean` ends up as this |
| `Record.RecordOf` | src/PromptTranslator.py:116-128 | definition of the record: `en_simple` div, `;`, `rus_simple` div, `;`, the `mean` divs; properties in `RecordMeaningsInOrder`, `RecordFields`, `RecordOneLine`, and `MakeRecord` as the imperative code |
| `Record.Tag.constructor` | src/PromptTranslator.py:134 | `new_tag` makes a tag with the given name and class and no children |
| `Record.Tag.Append` | src/PromptTranslator.py:137 | `append` adds the child at the end |
| `Record.AppendExamples` | src/PromptTranslator.py:157-167 | the example loop appends one `ex` div (`ex_en` then `ex_rus`) per example to `tag_mean` |
| `Record.AppendItems` | src/PromptTranslator.py:152-167 | the item loop appends, per item, its `item_rus` div and then its example divs |
| `Record.AddMean` | src/PromptTranslator.py:133-167 | one pass of the loop adds one tag to the soup, and in the final heap that tag is the complete `mean` div: `en_word`, `trans`, `part`, `other`, then the items; the earlier tags are unchanged |
| `Record.MakeMeanForAnki` | src/PromptTranslator.py:130-168 | the soup renders as one complete `mean` div per meaning, in meaning order |
| `Record.MakeRecord` | src/PromptTranslator.py:116-128 | the record is the `en_simple` div, `;`, the `rus_simple` div, `;`, then the concatenated `mean` divs |
| `Record.EscapeRoundTrip` | src/PromptTranslator.py:120-127 | a text body is escaped without loss: unescaping the serialised text gives it back |
| `Record.EscapeNoAngle` | src/PromptTranslator.py:127 | an escaped text body has no `<` or `>`, so it cannot open or close a tag |
| `Record.EscapeKeeps` | src/PromptTranslator.py:127 | a character outside the escaped set and outside the entity letters is in the escaped text exactly when it is in the text |
| `Record.EscapeSemicolon` | src/PromptTranslator.py:127 | an escaped body has a `;` exactly when the text has `;`, `&`, `<` or `>` |
| `Record.SerializeAllAppend` | src/PromptTranslator.py:127 | rendering `a + b` is rendering `a` then `b` |
| `Record.MeanDivsAppend` | src/PromptTranslator.py:133-146 | the `mean` divs of `a + b` are those of `a`, then those of `b` |
| `Record.MeanDivsAt` | src/PromptTranslator.py:133-146 | there is one `mean` div per meaning, and the k-th comes from the k-th meaning |
| `Record.RecordMeaningsInOrder` | src/PromptTranslator.py:125-127 | the meanings render in their own order after the two `;`-separated divs |
| `Record.SerializeAvoids` | src/PromptTranslator.py:127 | a character outside the fixed markup that no name, class or escaped text holds is not in the serialised tag |
| `Record.CellsAvoid` | src/PromptTranslator.py:119-127 | such a character, when no escaped field holds it, is in none of the three cells of the record |
| `Record.Split` | src/PromptTranslator.py:127 | splitting at `;` always gives at least one field |
| `Record.SplitJoin` | src/PromptTranslator.py:127 | splitting `a + ";" + b`, when `a` has no `;`, gives `a` and then the fields of `b` |
| `Record.RecordFields` | src/PromptTranslator.py:119-127 | when no field holds `;`, `&`, `<` or `>`, the `;`-join splits back into exactly its three cells |
| `Record.RecordAvoidsControl` | src/PromptTranslator.py:99-101 | a `\t`, `\n` or `\r` that is neither in the word nor in the simple translation is nowhere in the record when the meanings are normalised |
| `Record.RecordOneLine` | src/PromptTranslator.py:99-101 | with normalised meanings, and a word and simple translation holding no `\n` or `\r`, the record has no `\n` or `\r`: it is one line |
| `Translator.Step` | src/PromptTranslator.py:97-104 | definition of one pass of the loop; properties in `StepCases`, and `RouteWord` as the imperative body |
| `Translator.Continue` | src/PromptTranslator.py:95-104 | definition of the loop going on from a given state over more words; properties in `ContinueAppend`, `ContinueGrows`, `HaltedStays` |
| `Translator.Run` | src/PromptTranslator.py:91-104 | definition of the whole run from two empty files; properties in `RunStep`, `RunStops`, `FailureEndsRun`, and `MakeRecord` as the imperative loop |
| `Translator.StepCases` | src/PromptTranslator.py:97-104 | a valid word appends its record and `"\n"` to the output only; an invalid word appends the bare word, with no newline, to the not-found file only; a failed lookup writes nothing and stops the run |
| `Translator.HaltedStays` | src/PromptTranslator.py:95-97 | once a lookup has failed, later words change nothing |
| `Translator.ContinueAppend` | src/PromptTranslator.py:95 | running over `a + b` is running over `a` and then going on over `b` |
| `Translator.ContinueGrows` | src/PromptTranslator.py:93-104 | both files only grow: what was written stays at the front, and a stop is kept |
| `Translator.RunStep` | src/PromptTranslator.py:95-104 | the run over one more word is one more step |
| `Translator.RunStops` | src/PromptTranslator.py:95-97 | a run that has stopped after the first i words is the whole run |
| `Translator.FailureEndsRun` | src/PromptTranslator.py:97 | a failed lookup records its error, and the words after it change nothing |
| `Translator.RecordIsOneLine` | src/PromptTranslator.py:99-101 | the record written for a word of the list has no `\n` or `\r`, unless the raw simple translation has one |
| `Translator.Sink.constructor` | src/PromptTranslator.py:93-94 | a file opened with `"w+"` starts empty |
| `Translator.Sink.Write` | src/PromptTranslator.py:100-104 | a write appends to the file's text |
| `Translator.RouteWord` | src/PromptTranslator.py:96-104 | the loop body writes to the two files exactly what `Step` specifies, and reports a failed lookup |
| `Translator.MakeRecord` | src/PromptTranslator.py:91-104 | the two files are distinct and fresh, and at the end hold exactly `Run(CleanLines(lines), service)`, the error that stopped the run included |

## Left out

- `_get_root` (src/PromptTranslator.py:20-29), the network fetch and the
  parsing with lxml: these are I/O and a foreign library. The dictionary
  service is a table from word to parsed page. A word with no page stands for
  a fetch, decode or parse failure, and all of these become `FetchFailed`.
- The URL prefix and the file paths imported from `src.config`
  (src/PromptTranslator.py:4): `src/config.py` is not part of this model.
- How bs4 matches `find_all(id=…)` and `find_all(attrs={"class": …})`,
  including multi-word class strings: foreign library behaviour. `FindAll`
  and `GetText` are uninterpreted tables, so nothing about them is assumed.
- bs4's serialiser is reduced to the tag form `<name class="cls">…</name>`,
  and its escaping to the minimal formatter's entities for `&`, `<` and `>`.
  Attribute quoting and other formatter options are not modelled.
- Opening, reading and writing the files: file contents are modelled as
  strings; encodings and the splitting of the input file into lines are not.
  The input file is given as its sequence of lines, each as line iteration
  yields it, with the terminator included and no carriage return (`WordList.ReadLine`).
- The two progress `print` calls (src/PromptTranslator.py:96, 103): console
  output only.
- The key-by-key filling of the `result` dicts in `_get_word_mean`,
  `_get_one_mean` and `_get_example`: the datatypes hold the same fields.
- `Extractor.GetWordMean`: the four scalar lookups are taken after the item
  loop rather than before it. They are pure, so the value is the same, and
  the contract states the full result.
- `Extractor.GetOneMean`: the gloss lookup is taken after the example loop,
  for the same reason.
- `Extractor.DataDict`: the keys are modelled as fields that start empty.
  The source's dict has no `simple` or `meanings` key until the code sets it.
  One is never read before it is set, so this changes no result.
- `Record.MakeRecord`: the record is tied to the `RecordOf` function, which
  is built from tag trees; the fully spelled-out literal line is not restated
  as a separate reference string.
- `Record.MakeMeanForAnki`: every tag's class attribute is a single string;
  bs4's handling of multi-valued class attributes is not modelled.
