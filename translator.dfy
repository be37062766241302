/** The run over the word list: each word is looked up; a valid record goes
    to the output file as one line, an invalid word goes to the not-found
    file as it is, and a failed lookup stops the run. */
module Translator {
  import opened Dom
  import opened Extractor
  import opened WordList
  import Record

  datatype Option<T> = None | Some(value: T)

  /** What the run has produced so far: the text of the output file, the text
      of the not-found file, and the error that stopped the run, if any. */
  datatype Outcome = Outcome(out: string, notFound: string, halted: Option<Error>)

  const Start: Outcome := Outcome("", "", None)

  /** One pass of the loop of `make_record`. */
  function Step(o: Outcome, word: string, service: map<string, Document>): Outcome {
    if o.halted.Some? then o
    else
      match Lookup(word, service)
      case Err(e) => Outcome(o.out, o.notFound, Some(e))
      case Ok(d) =>
        if IsValidData(d) then Outcome(o.out + Record.RecordOf(d) + "\n", o.notFound, None)
        else Outcome(o.out, o.notFound + word, None)
  }

  /** The loop continued from `o` over `words`. */
  function Continue(o: Outcome, words: seq<string>, service: map<string, Document>): Outcome {
    if |words| == 0 then o
    else Step(Continue(o, words[..|words| - 1], service), words[|words| - 1], service)
  }

  /** The whole run over `words`, both files starting empty. */
  function Run(words: seq<string>, service: map<string, Document>): Outcome {
    Continue(Start, words, service)
  }

  // ---------------------------------------------------------------------------
  // Properties of the run

  /** What one word does: a valid record adds itself and a line break to the
      output only; an invalid one adds the bare word, with no line break, to
      the not-found file only; a failed lookup writes nothing and stops the
      run. */
  lemma StepCases(o: Outcome, word: string, service: map<string, Document>)
    requires o.halted.None?
    ensures Lookup(word, service).Err? ==>
      Step(o, word, service) == Outcome(o.out, o.notFound, Some(Lookup(word, service).error))
    ensures Lookup(word, service).Ok? && IsValidData(Lookup(word, service).value) ==>
      Step(o, word, service) == Outcome(o.out + Record.RecordOf(Lookup(word, service).value) + "\n", o.notFound, None)
    ensures Lookup(word, service).Ok? && !IsValidData(Lookup(word, service).value) ==>
      Step(o, word, service) == Outcome(o.out, o.notFound + word, None)
  {
  }

  /** Once stopped, the run stays stopped and writes nothing more. */
  lemma {:induction false} HaltedStays(o: Outcome, words: seq<string>, service: map<string, Document>)
    requires o.halted.Some?
    ensures Continue(o, words, service) == o
  {
    if |words| > 0 {
      HaltedStays(o, words[..|words| - 1], service);
    }
  }

  /** Running over `a + b` is running over `a`, then going on over `b`. */
  lemma {:induction false} ContinueAppend(o: Outcome, a: seq<string>, b: seq<string>, service: map<string, Document>)
    ensures Continue(o, a + b, service) == Continue(Continue(o, a, service), b, service)
    decreases |b|
  {
    if |b| == 0 {
      assert a + b == a;
    } else {
      assert (a + b)[..|a + b| - 1] == a + b[..|b| - 1];
      ContinueAppend(o, a, b[..|b| - 1], service);
    }
  }

  /** Both files only grow: what was written for the first words stays at the
      front of each file. */
  lemma {:induction false} ContinueGrows(o: Outcome, words: seq<string>, service: map<string, Document>)
    ensures o.out <= Continue(o, words, service).out
    ensures o.notFound <= Continue(o, words, service).notFound
    ensures o.halted.Some? ==> Continue(o, words, service).halted == o.halted
  {
    if |words| > 0 {
      ContinueGrows(o, words[..|words| - 1], service);
    }
  }

  /** The run over one more word is one more step. */
  lemma RunStep(words: seq<string>, i: nat, service: map<string, Document>)
    requires i < |words|
    ensures Run(words[..i + 1], service) == Step(Run(words[..i], service), words[i], service)
  {
    assert words[..i + 1][..i] == words[..i];
  }

  /** A run that has stopped after the first `i` words is the whole run. */
  lemma RunStops(words: seq<string>, i: nat, service: map<string, Document>)
    requires i <= |words| && Run(words[..i], service).halted.Some?
    ensures Run(words, service) == Run(words[..i], service)
  {
    ContinueAppend(Start, words[..i], words[i..], service);
    HaltedStays(Run(words[..i], service), words[i..], service);
    assert words[..i] + words[i..] == words;
  }

  /** A failed lookup ends the run: the words after it change nothing. */
  lemma FailureEndsRun(before: seq<string>, word: string, after: seq<string>, service: map<string, Document>)
    requires Run(before, service).halted.None? && Lookup(word, service).Err?
    ensures Run(before + [word] + after, service) == Run(before + [word], service)
    ensures Run(before + [word], service).halted == Some(Lookup(word, service).error)
  {
    ContinueAppend(Start, before + [word], after, service);
    HaltedStays(Continue(Start, before + [word], service), after, service);
    assert (before + [word])[..|before + [word]| - 1] == before;
  }

  /** The record written for a word of the list is a single line, with no
      line break or carriage return, unless the page's simple translation,
      which is stored as the page has it, holds one. */
  lemma RecordIsOneLine(lines: seq<string>, word: string, service: map<string, Document>)
    requires forall k :: 0 <= k < |lines| ==> ReadLine(lines[k])
    requires word in CleanLines(lines)
    requires Lookup(word, service).Ok?
    requires '\n' !in Lookup(word, service).value.simple && '\r' !in Lookup(word, service).value.simple
    ensures '\n' !in Record.RecordOf(Lookup(word, service).value)
    ensures '\r' !in Record.RecordOf(Lookup(word, service).value)
  {
    CleanLinesNoBreak(lines);
    WordFromPageNormal(word, service[word]);
    Record.RecordOneLine(Lookup(word, service).value);
  }

  // ---------------------------------------------------------------------------
  // The imperative run

  /** An open output file, seen as the text written to it so far. */
  class Sink {
    var text: string

    constructor ()
      ensures text == ""
    {
      text := "";
    }

    method Write(s: string)
      modifies this
      ensures text == old(text) + s
    {
      text := text + s;
    }
  }

  /** The body of the loop of `make_record` for one word. */
  method RouteWord(word: string, service: map<string, Document>, fileOut: Sink, fileNotFound: Sink)
    returns (halted: Option<Error>)
    requires fileOut != fileNotFound
    modifies fileOut, fileNotFound
    ensures Outcome(fileOut.text, fileNotFound.text, halted)
         == Step(Outcome(old(fileOut.text), old(fileNotFound.text), None), word, service)
  {
    halted := None;
    var data := GetWordFromPrompt(word, service);
    match data {
      case Err(e) =>
        halted := Some(e);
      case Ok(d) =>
        if IsValidData(d) {
          var record := Record.MakeRecord(d);
          fileOut.Write(record);
          fileOut.Write("\n");
        } else {
          fileNotFound.Write(word);
        }
    }
  }

  /** `make_record`: read the words, open both files, and route each word
      until one lookup fails. */
  method MakeRecord(lines: seq<string>, service: map<string, Document>)
    returns (fileOut: Sink, fileNotFound: Sink, halted: Option<Error>)
    ensures fresh(fileOut) && fresh(fileNotFound) && fileOut != fileNotFound
    ensures Outcome(fileOut.text, fileNotFound.text, halted) == Run(CleanLines(lines), service)
  {
    var words := GetWords(lines);
    fileOut := new Sink();
    fileNotFound := new Sink();
    halted := None;
    var i := 0;
    while i < |words| && halted.None?
      invariant 0 <= i <= |words|
      invariant Outcome(fileOut.text, fileNotFound.text, halted) == Run(words[..i], service)
      decreases |words| - i
    {
      RunStep(words, i, service);
      halted := RouteWord(words[i], service, fileOut, fileNotFound);
      i := i + 1;
    }
    if i < |words| {
      RunStops(words, i, service);
    } else {
      assert words[..i] == words;
    }
  }
}
