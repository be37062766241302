/** Reading the word list: each input line loses its commas and its
    surrounding whitespace, and the lines left empty are skipped. The file
    is given as its sequence of lines, each as Python's line iteration
    yields it (line terminator included). */
module WordList {
  import opened Text

  /** `line.replace(",", "")` */
  function RemoveCommas(s: string): string {
    if |s| == 0 then []
    else (if s[0] == ',' then [] else [s[0]]) + RemoveCommas(s[1..])
  }

  /** A character survives exactly when it occurs in the line and is not a comma. */
  lemma {:induction false} RemoveCommasMembers(s: string, c: char)
    ensures c in RemoveCommas(s) <==> c in s && c != ','
  {
    if |s| > 0 {
      RemoveCommasMembers(s[1..], c);
      assert s == [s[0]] + s[1..];
    }
  }

  /** A single character is deleted exactly when it is a comma, and kept as it
      is otherwise. */
  lemma RemoveCommasChar(c: char)
    ensures RemoveCommas([c]) == if c == ',' then [] else [c]
  {
    assert [c][1..] == [];
  }

  /** Deleting commas works piecewise, so the kept characters keep their
      order and each appears once; with `RemoveCommasChar` this pins the
      deletion down character by character. */
  lemma {:induction false} RemoveCommasAppend(a: string, b: string)
    ensures RemoveCommas(a + b) == RemoveCommas(a) + RemoveCommas(b)
  {
    if |a| > 0 {
      assert (a + b)[1..] == a[1..] + b;
      RemoveCommasAppend(a[1..], b);
    } else {
      assert a + b == b;
    }
  }

  /** A line without commas is left as it is. */
  lemma {:induction false} RemoveCommasNoComma(s: string)
    requires ',' !in s
    ensures RemoveCommas(s) == s
  {
    if |s| > 0 {
      assert ',' !in s[1..] by {
        assert forall k :: 0 <= k < |s[1..]| ==> s[1..][k] == s[k + 1];
      }
      RemoveCommasNoComma(s[1..]);
    }
  }

  /** The cleaning of one line: `line.replace(",", "").strip()` */
  function CleanLine(line: string): string {
    Strip(RemoveCommas(line))
  }

  /** The line holds something other than commas and whitespace. */
  predicate HasWordChar(line: string) {
    exists i :: 0 <= i < |line| && line[i] != ',' && !IsSpace(line[i])
  }

  /** A cleaned line is trimmed and free of commas. */
  lemma CleanLineShape(line: string)
    ensures Trimmed(CleanLine(line))
    ensures ',' !in CleanLine(line)
  {
    StripSpec(RemoveCommas(line));
    StripChars(RemoveCommas(line));
    RemoveCommasMembers(line, ',');
  }

  /** A cleaned line is empty exactly when the line held nothing but commas
      and whitespace. */
  lemma CleanLineEmpty(line: string)
    ensures CleanLine(line) != "" <==> HasWordChar(line)
  {
    var t := RemoveCommas(line);
    var r := Strip(t);
    StripChars(t);
    if r != "" {
      StripSpec(t);
      RemoveCommasMembers(line, r[0]);
      var i :| 0 <= i < |line| && line[i] == r[0];
      assert line[i] != ',' && !IsSpace(line[i]);
    } else if HasWordChar(line) {
      var i :| 0 <= i < |line| && line[i] != ',' && !IsSpace(line[i]);
      RemoveCommasMembers(line, line[i]);
      assert false;
    }
  }

  /** What a cleaned line is: trimmed, free of commas, and empty exactly when
      the line held nothing but commas and whitespace. */
  lemma CleanLineSpec(line: string)
    ensures Trimmed(CleanLine(line))
    ensures ',' !in CleanLine(line)
    ensures CleanLine(line) != "" <==> HasWordChar(line)
  {
    CleanLineShape(line);
    CleanLineEmpty(line);
  }

  /** Cleaning a cleaned line changes nothing. */
  lemma CleanLineIdempotent(line: string)
    ensures CleanLine(CleanLine(line)) == CleanLine(line)
  {
    CleanLineSpec(line);
    RemoveCommasNoComma(CleanLine(line));
    StripTrimmed(CleanLine(line));
  }

  /** A line as line iteration yields it: a line break, if any, comes last. */
  predicate BreakOnlyAtEnd(line: string) {
    forall k :: 0 <= k < |line| - 1 ==> line[k] != '\n'
  }

  lemma {:induction false} RemoveCommasBreak(s: string)
    requires BreakOnlyAtEnd(s)
    ensures BreakOnlyAtEnd(RemoveCommas(s))
  {
    if |s| > 0 {
      assert BreakOnlyAtEnd(s[1..]) by {
        forall k | 0 <= k < |s[1..]| - 1 ensures s[1..][k] != '\n' {
          assert s[1..][k] == s[k + 1];
        }
      }
      RemoveCommasBreak(s[1..]);
      var r := RemoveCommas(s);
      var tail := RemoveCommas(s[1..]);
      if s[0] != ',' {
        forall k | 0 <= k < |r| - 1 ensures r[k] != '\n' {
          if k > 0 {
            assert r[k] == tail[k - 1];
          }
        }
      }
    }
  }

  /** A line as text-mode line iteration yields it: universal newlines turn
      every carriage return into a line break, so there is none left, and the
      line break, if any, comes last. */
  predicate ReadLine(line: string) {
    '\r' !in line && BreakOnlyAtEnd(line)
  }

  /** A word read from such a line holds no line break. */
  lemma CleanLineNoNewline(line: string)
    requires BreakOnlyAtEnd(line)
    ensures '\n' !in CleanLine(line)
  {
    var t := RemoveCommas(line);
    var r := Strip(t);
    RemoveCommasBreak(line);
    // A line break inside the word would sit before the end of `t`, and
    // one at its end is whitespace that strip() removes.
    StripSpec(t);
  }

  /** A word read from a line as line iteration yields it holds neither a line
      break nor a carriage return. */
  lemma CleanLineNoBreak(line: string)
    requires ReadLine(line)
    ensures '\n' !in CleanLine(line) && '\r' !in CleanLine(line)
  {
    CleanLineNoNewline(line);
    RemoveCommasMembers(line, '\r');
    StripChars(RemoveCommas(line));
  }

  /** The words `_get_words` returns for the given lines, in line order. */
  function CleanLines(lines: seq<string>): seq<string> {
    if |lines| == 0 then []
    else
      var w := CleanLine(lines[|lines| - 1]);
      CleanLines(lines[..|lines| - 1]) + (if w != "" then [w] else [])
  }

  /** Every word is non-empty, trimmed and free of commas. */
  lemma {:induction false} CleanLinesWords(lines: seq<string>)
    ensures forall w :: w in CleanLines(lines) ==> w != "" && Trimmed(w) && ',' !in w
  {
    if |lines| > 0 {
      CleanLinesWords(lines[..|lines| - 1]);
      CleanLineSpec(lines[|lines| - 1]);
    }
  }

  /** No word read from lines as line iteration yields them holds a line
      break or a carriage return. */
  lemma {:induction false} CleanLinesNoBreak(lines: seq<string>)
    requires forall k :: 0 <= k < |lines| ==> ReadLine(lines[k])
    ensures forall w :: w in CleanLines(lines) ==> '\n' !in w && '\r' !in w
  {
    if |lines| > 0 {
      CleanLinesNoBreak(lines[..|lines| - 1]);
      CleanLineNoBreak(lines[|lines| - 1]);
    }
  }

  /** The word list of two files back to back is the two word lists back to back. */
  lemma {:induction false} CleanLinesAppend(a: seq<string>, b: seq<string>)
    ensures CleanLines(a + b) == CleanLines(a) + CleanLines(b)
    decreases |b|
  {
    if |b| == 0 {
      assert a + b == a;
    } else {
      assert (a + b)[..|a + b| - 1] == a + b[..|b| - 1];
      CleanLinesAppend(a, b[..|b| - 1]);
    }
  }

  /** A single line contributes its cleaned form exactly when it has a word
      character. */
  lemma CleanLinesSingle(line: string)
    ensures CleanLines([line]) == if HasWordChar(line) then [CleanLine(line)] else []
  {
    CleanLineSpec(line);
    assert [line][..0] == [];
  }

  /** Cleaning the cleaned words again, each taken as a line, changes nothing. */
  lemma {:induction false} CleanLinesIdempotent(lines: seq<string>)
    ensures CleanLines(CleanLines(lines)) == CleanLines(lines)
  {
    if |lines| > 0 {
      var front := lines[..|lines| - 1];
      var w := CleanLine(lines[|lines| - 1]);
      CleanLinesIdempotent(front);
      var tail: seq<string> := if w != "" then [w] else [];
      CleanLinesAppend(CleanLines(front), tail);
      if w != "" {
        CleanLineIdempotent(lines[|lines| - 1]);
        assert [w][..0] == [];
      }
    }
  }

  /** `_get_words`: the loop over the lines of the input file. */
  method GetWords(lines: seq<string>) returns (words: seq<string>)
    ensures words == CleanLines(lines)
    ensures forall w :: w in words ==> w != "" && Trimmed(w) && ',' !in w
  {
    words := [];
    for i := 0 to |lines|
      invariant words == CleanLines(lines[..i])
    {
      assert lines[..i + 1][..i] == lines[..i];
      var line := Strip(RemoveCommas(lines[i]));
      if line != "" {
        words := words + [line];
      }
    }
    assert lines[..|lines|] == lines;
    CleanLinesWords(lines);
  }
}
