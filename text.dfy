/** The string operations that the field-lookup helper chains together:
    deleting tab/newline/carriage-return, collapsing runs of spaces, and
    Python's argument-less `str.strip()`.

    The recursive functions here carry no postconditions: what they
    guarantee is proved in the lemma beside each one, so that the facts are
    brought in only where a proof asks for them. */
module Text {

  /** Python's `str.isspace()` set, which `str.strip()` with no argument removes. */
  predicate IsSpace(c: char) {
    || c == ' '
    || ('\t' <= c <= '\r')
    || ('\U{1C}' <= c <= '\U{1F}')
    || c == '\U{85}' || c == '\U{A0}' || c == '\U{1680}'
    || ('\U{2000}' <= c <= '\U{200A}')
    || c == '\U{2028}' || c == '\U{2029}' || c == '\U{202F}'
    || c == '\U{205F}' || c == '\U{3000}'
  }

  /** The characters of the character class `[\t\n\r]`. */
  predicate IsControl(c: char) {
    c == '\t' || c == '\n' || c == '\r'
  }

  predicate NoControl(s: string) {
    forall i :: 0 <= i < |s| ==> !IsControl(s[i])
  }

  predicate NoDoubleSpace(s: string) {
    forall i, j {:trigger s[i], s[j]} :: 0 <= i < |s| && 0 <= j < |s| && j == i + 1 ==> !(s[i] == ' ' && s[j] == ' ')
  }

  predicate AllSpace(s: string) {
    forall i :: 0 <= i < |s| ==> IsSpace(s[i])
  }

  /** Neither end of `s` is whitespace. */
  predicate Trimmed(s: string) {
    |s| == 0 || (!IsSpace(s[0]) && !IsSpace(s[|s| - 1]))
  }

  /** What the field-lookup helper promises of every value it returns. */
  predicate IsNormal(s: string) {
    NoControl(s) && NoDoubleSpace(s) && Trimmed(s)
  }

  // ---------------------------------------------------------------------------
  // re.sub("[\t\n\r]", "", s)

  function RemoveControl(s: string): string {
    if |s| == 0 then []
    else (if IsControl(s[0]) then [] else [s[0]]) + RemoveControl(s[1..])
  }

  /** Every tab, newline and carriage return is gone, and the text gets no longer. */
  lemma {:induction false} RemoveControlClean(s: string)
    ensures NoControl(RemoveControl(s))
    ensures |RemoveControl(s)| <= |s|
  {
    if |s| > 0 {
      RemoveControlClean(s[1..]);
      var tail := RemoveControl(s[1..]);
      var r := RemoveControl(s);
      if !IsControl(s[0]) {
        assert r == [s[0]] + tail;
        forall i | 0 <= i < |r| ensures !IsControl(r[i]) {
          if i > 0 {
            assert r[i] == tail[i - 1];
          }
        }
      }
    }
  }

  /** Text without such characters is left as it is. */
  lemma {:induction false} RemoveControlFixes(s: string)
    requires NoControl(s)
    ensures RemoveControl(s) == s
  {
    if |s| > 0 {
      assert !IsControl(s[0]);
      assert NoControl(s[1..]) by {
        forall i | 0 <= i < |s[1..]| ensures !IsControl(s[1..][i]) {
          assert s[1..][i] == s[i + 1];
        }
      }
      RemoveControlFixes(s[1..]);
    }
  }

  lemma RemoveControlSpec(s: string)
    ensures NoControl(RemoveControl(s))
    ensures |RemoveControl(s)| <= |s|
    ensures NoControl(s) ==> RemoveControl(s) == s
  {
    RemoveControlClean(s);
    if NoControl(s) {
      RemoveControlFixes(s);
    }
  }

  /** A character is in the result exactly when it is in the text and is not
      a tab, newline or carriage return. */
  lemma {:induction false} RemoveControlMembers(s: string, c: char)
    ensures c in RemoveControl(s) <==> c in s && !IsControl(c)
  {
    if |s| > 0 {
      RemoveControlMembers(s[1..], c);
      assert s == [s[0]] + s[1..];
    }
  }

  /** A single character is deleted exactly when it is one of the three, and
      kept as it is otherwise. */
  lemma RemoveControlChar(c: char)
    ensures RemoveControl([c]) == if IsControl(c) then [] else [c]
  {
    assert [c][1..] == [];
  }

  /** Deleting characters works piecewise, so what is kept keeps its order. */
  lemma {:induction false} RemoveControlAppend(a: string, b: string)
    ensures RemoveControl(a + b) == RemoveControl(a) + RemoveControl(b)
  {
    if |a| > 0 {
      assert (a + b)[1..] == a[1..] + b;
      RemoveControlAppend(a[1..], b);
    } else {
      assert a + b == b;
    }
  }

  // ---------------------------------------------------------------------------
  // re.sub("[ ]{2,}", " ", s)

  /** Length of the run of spaces that starts `s`. */
  function LeadingSpaces(s: string): (n: nat)
    ensures n <= |s|
    ensures forall i :: 0 <= i < n ==> s[i] == ' '
    ensures n < |s| ==> s[n] != ' '
  {
    if |s| > 0 && s[0] == ' ' then 1 + LeadingSpaces(s[1..]) else 0
  }

  /** The regular-expression scan: at each position, a run of two or more
      spaces (taken greedily) is replaced by one space; otherwise one
      character is copied and the scan moves on. */
  function CollapseSpaces(s: string): string
    decreases |s|
  {
    if |s| == 0 then []
    else if LeadingSpaces(s) >= 2 then [' '] + CollapseSpaces(s[LeadingSpaces(s)..])
    else [s[0]] + CollapseSpaces(s[1..])
  }

  /** Collapsing keeps the first character and never lengthens the text. */
  lemma {:induction false} CollapseSpacesHead(s: string)
    ensures |s| > 0 ==> |CollapseSpaces(s)| > 0 && CollapseSpaces(s)[0] == s[0]
    ensures |CollapseSpaces(s)| <= |s|
    decreases |s|
  {
    if |s| > 0 {
      var k := LeadingSpaces(s);
      CollapseSpacesHead(if k >= 2 then s[k..] else s[1..]);
    }
  }

  /** After collapsing, no two spaces are adjacent. */
  lemma {:induction false} CollapseSpacesNoDouble(s: string)
    ensures NoDoubleSpace(CollapseSpaces(s))
    decreases |s|
  {
    if |s| > 0 {
      var k := LeadingSpaces(s);
      var rest := if k >= 2 then s[k..] else s[1..];
      var head := if k >= 2 then ' ' else s[0];
      var tail := CollapseSpaces(rest);
      CollapseSpacesNoDouble(rest);
      CollapseSpacesHead(rest);
      // The tail never starts with a space that would pair with the head.
      assert head == ' ' && |rest| > 0 ==> tail[0] != ' ';
      var r := [head] + tail;
      assert CollapseSpaces(s) == r;
      forall i, j | 0 <= i < |r| && 0 <= j < |r| && j == i + 1 ensures !(r[i] == ' ' && r[j] == ' ') {
        if i > 0 {
          assert r[i] == tail[i - 1] && r[j] == tail[j - 1];
        }
      }
    }
  }

  /** Collapsing adds no tab, newline or carriage return. */
  lemma {:induction false} CollapseSpacesNoControl(s: string)
    requires NoControl(s)
    ensures NoControl(CollapseSpaces(s))
    decreases |s|
  {
    if |s| > 0 {
      var k := LeadingSpaces(s);
      var rest := if k >= 2 then s[k..] else s[1..];
      InfixKeepsNormal(s, |s| - |rest|, |s|);
      assert s[|s| - |rest|..] == rest;
      CollapseSpacesNoControl(rest);
      var tail := CollapseSpaces(rest);
      var r := CollapseSpaces(s);
      forall i | 0 <= i < |r| ensures !IsControl(r[i]) {
        if i > 0 {
          assert r[i] == tail[i - 1];
        }
      }
    }
  }

  /** Text without a double space is left as it is. */
  lemma {:induction false} CollapseSpacesFixes(s: string)
    requires NoDoubleSpace(s)
    ensures CollapseSpaces(s) == s
    decreases |s|
  {
    if |s| > 0 {
      if |s| > 1 {
        assert !(s[0] == ' ' && s[1] == ' ');
      }
      InfixKeepsNormal(s, 1, |s|);
      CollapseSpacesFixes(s[1..]);
    }
  }

  /** Reference definition: delete every space that is immediately followed by
      another space. */
  function SqueezeSpaces(s: string): string {
    if |s| == 0 then []
    else if |s| >= 2 && s[0] == ' ' && s[1] == ' ' then SqueezeSpaces(s[1..])
    else [s[0]] + SqueezeSpaces(s[1..])
  }

  lemma {:induction false} SqueezeRun(s: string, k: nat)
    requires 1 <= k <= LeadingSpaces(s)
    ensures SqueezeSpaces(s) == SqueezeSpaces(s[k - 1..])
  {
    if k > 1 {
      assert s[0] == ' ' && s[1] == ' ';
      assert LeadingSpaces(s[1..]) == LeadingSpaces(s) - 1;
      SqueezeRun(s[1..], k - 1);
      assert s[1..][k - 2..] == s[k - 1..];
    }
  }

  /** The regular-expression scan agrees with the reference definition. */
  lemma {:induction false} CollapseIsSqueeze(s: string)
    ensures CollapseSpaces(s) == SqueezeSpaces(s)
    decreases |s|
  {
    if |s| > 0 {
      var k := LeadingSpaces(s);
      if k >= 2 {
        SqueezeRun(s, k);
        var t := s[k - 1..];
        assert t[0] == ' ' && (|t| == 1 || t[1] != ' ');
        assert t[1..] == s[k..];
        CollapseIsSqueeze(s[k..]);
      } else {
        CollapseIsSqueeze(s[1..]);
      }
    }
  }

  // ---------------------------------------------------------------------------
  // str.strip()

  function TrimLeft(s: string): string {
    if |s| > 0 && IsSpace(s[0]) then TrimLeft(s[1..]) else s
  }

  /** TrimLeft drops whitespace from the front, and only whitespace. */
  lemma {:induction false} TrimLeftSpec(s: string)
    ensures |TrimLeft(s)| <= |s| && TrimLeft(s) == s[|s| - |TrimLeft(s)|..]
    ensures AllSpace(s[..|s| - |TrimLeft(s)|])
    ensures |TrimLeft(s)| == 0 || !IsSpace(TrimLeft(s)[0])
  {
    if |s| > 0 && IsSpace(s[0]) {
      TrimLeftSpec(s[1..]);
      var d := |s| - |TrimLeft(s)|;
      assert s[1..][..d - 1] == s[1..d];
      assert s[1..][d - 1..] == s[d..];
    }
  }

  function TrimRight(s: string): string {
    if |s| > 0 && IsSpace(s[|s| - 1]) then TrimRight(s[..|s| - 1]) else s
  }

  /** TrimRight drops whitespace from the back, and only whitespace. */
  lemma {:induction false} TrimRightSpec(s: string)
    ensures |TrimRight(s)| <= |s| && TrimRight(s) == s[..|TrimRight(s)|]
    ensures AllSpace(s[|TrimRight(s)|..])
    ensures |TrimRight(s)| == 0 || !IsSpace(TrimRight(s)[|TrimRight(s)| - 1])
  {
    if |s| > 0 && IsSpace(s[|s| - 1]) {
      var p := s[..|s| - 1];
      TrimRightSpec(p);
      var n := |TrimRight(s)|;
      assert p[..n] == s[..n];
      assert s[n..] == p[n..] + [s[|s| - 1]];
    }
  }

  function Strip(s: string): string {
    TrimRight(TrimLeft(s))
  }

  /** `r` is `s` with whitespace padding removed from both ends, and no more. */
  predicate IsStripOf(r: string, s: string) {
    exists i :: 0 <= i <= |s| - |r| && r == s[i..i + |r|] && AllSpace(s[..i]) && AllSpace(s[i + |r|..])
  }

  /** strip() leaves a trimmed string that sits in the input between two runs
      of whitespace. */
  lemma StripSpec(s: string)
    ensures Trimmed(Strip(s))
    ensures IsStripOf(Strip(s), s)
  {
    var t := TrimLeft(s);
    TrimLeftSpec(s);
    TrimRightSpec(t);
    var r := TrimRight(t);
    var i := |s| - |t|;
    assert r == s[i..i + |r|];
    assert s[i + |r|..] == t[|r|..];
    if |r| > 0 {
      assert r[0] == t[0];
    }
  }

  /** strip() only removes characters, and it leaves nothing only when the
      text was all whitespace. */
  lemma StripChars(s: string)
    ensures forall c :: c in Strip(s) ==> c in s
    ensures Strip(s) == "" ==> AllSpace(s)
  {
    var t := TrimLeft(s);
    TrimLeftSpec(s);
    TrimRightSpec(t);
    var r := TrimRight(t);
    var d := |s| - |t|;
    assert forall k :: 0 <= k < |r| ==> r[k] == s[d + k];
    if r == "" {
      // Then nothing was left after TrimLeft, so all of `s` was its prefix.
      assert s[..d] == s;
    }
  }

  /** A substring keeps the absence of control characters and of double spaces. */
  lemma InfixKeepsNormal(s: string, i: nat, j: nat)
    requires i <= j <= |s|
    ensures NoControl(s) ==> NoControl(s[i..j])
    ensures NoDoubleSpace(s) ==> NoDoubleSpace(s[i..j])
  {
    var r := s[i..j];
    if NoControl(s) {
      forall k | 0 <= k < |r| ensures !IsControl(r[k]) {
        assert r[k] == s[i + k];
      }
    }
    if NoDoubleSpace(s) {
      forall k, l | 0 <= k < |r| && 0 <= l < |r| && l == k + 1 ensures !(r[k] == ' ' && r[l] == ' ') {
        assert r[k] == s[i + k] && r[l] == s[i + l];
      }
    }
  }

  lemma StripKeepsNormal(s: string)
    ensures NoControl(s) ==> NoControl(Strip(s))
    ensures NoDoubleSpace(s) ==> NoDoubleSpace(Strip(s))
  {
    var t := TrimLeft(s);
    TrimLeftSpec(s);
    TrimRightSpec(t);
    InfixKeepsNormal(s, |s| - |t|, |s|);
    InfixKeepsNormal(t, 0, |TrimRight(t)|);
  }

  /** Stripping a trimmed string returns it unchanged. */
  lemma StripTrimmed(s: string)
    requires Trimmed(s)
    ensures Strip(s) == s
  {
    if |s| > 0 {
      assert TrimLeft(s) == s;
    }
  }

  // ---------------------------------------------------------------------------
  // The whole normalisation applied to a matched element's text.

  /** Delete `[\t\n\r]`, collapse runs of spaces, then strip. */
  function Normalize(text: string): (r: string)
    ensures IsNormal(r)
  {
    var t := CollapseSpaces(RemoveControl(text));
    RemoveControlSpec(text);
    CollapseSpacesNoDouble(RemoveControl(text));
    CollapseSpacesNoControl(RemoveControl(text));
    StripSpec(t);
    StripKeepsNormal(t);
    Strip(t)
  }

  /** Normal text is a fixed point of the normalisation. */
  lemma NormalizeFixesNormal(s: string)
    requires IsNormal(s)
    ensures Normalize(s) == s
  {
    RemoveControlSpec(s);
    CollapseSpacesFixes(s);
    StripTrimmed(s);
  }

  /** Normalising twice is normalising once. */
  lemma NormalizeIdempotent(s: string)
    ensures Normalize(Normalize(s)) == Normalize(s)
  {
    NormalizeFixesNormal(Normalize(s));
  }
}
