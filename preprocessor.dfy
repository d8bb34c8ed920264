/** parser/preprocessor.py: text cleaning, section segmentation and contact
    extraction, and the `preprocess_resume_text` entry point composing them. */
module Preprocessor {
  import opened Text
  import opened Patterns
  import opened Contact

  // ===========================================================================
  // clean_text, normalize_whitespace, remove_urls

  /** Whitespace at `i` and at `i + 1`. */
  predicate DoubleSpaceAt(s: string, i: nat)
    requires i + 1 < |s|
  {
    IsSpace(s[i]) && IsSpace(s[i + 1])
  }

  /** No two whitespace characters are adjacent. */
  predicate SingleSpaced(s: string) {
    forall i :: 0 <= i < |s| - 1 ==> !DoubleSpaceAt(s, i)
  }

  /** The only whitespace character that occurs is the ASCII space. */
  predicate OnlyPlainSpaces(s: string) {
    forall i :: 0 <= i < |s| ==> IsSpace(s[i]) ==> s[i] == ' '
  }

  /** No whitespace at either end. */
  predicate Trimmed(s: string) {
    s == [] || (!IsSpace(s[0]) && !IsSpace(s[|s| - 1]))
  }

  predicate AllPrintable(s: string) {
    forall i :: 0 <= i < |s| ==> IsPrintable(s[i])
  }

  /** Every character is printable or whitespace: nothing for the filter of
      clean_text to remove once whitespace is collapsed. */
  predicate PrintableOrSpace(s: string) {
    forall i :: 0 <= i < |s| ==> IsPrintable(s[i]) || IsSpace(s[i])
  }

  /** A slice keeps the character-level properties of the text it comes from. */
  lemma SliceKeeps(c: string, a: nat, t: string)
    requires a + |t| <= |c| && t == c[a..a + |t|]
    ensures SingleSpaced(c) ==> SingleSpaced(t)
    ensures OnlyPlainSpaces(c) ==> OnlyPlainSpaces(t)
    ensures AllPrintable(c) ==> AllPrintable(t)
  {
    assert forall i :: 0 <= i < |t| ==> t[i] == c[a + i];
    assert SingleSpaced(c) ==> SingleSpaced(t) by {
      if SingleSpaced(c) {
        forall i | 0 <= i < |t| - 1 ensures !DoubleSpaceAt(t, i) {
          assert !DoubleSpaceAt(c, a + i);
        }
      }
    }
  }

  /** `re.sub(r'\s+', ' ', s)`: every maximal run of whitespace, newlines
      included, becomes one space. */
  function CollapseWhitespace(s: string): (r: string)
    decreases |s|
    ensures SingleSpaced(r) && OnlyPlainSpaces(r)
    ensures |r| == 0 <==> |s| == 0
  {
    if |s| == 0 then ""
    else
      var t := if IsSpace(s[0]) then s[RunEnd(s, 0, IsSpace)..] else s[1..];
      var rest := CollapseWhitespace(t);
      var r := (if IsSpace(s[0]) then " " else [s[0]]) + rest;
      assert forall i :: 0 <= i < |rest| ==> r[i + 1] == rest[i];
      assert SingleSpaced(r) by {
        forall i | 0 <= i < |r| - 1 ensures !DoubleSpaceAt(r, i) {
          if i > 0 {
            assert !DoubleSpaceAt(rest, i - 1);
          }
        }
      }
      r
  }

  /** Collapsing rewrites whitespace only: every other character of the text
      survives, in order. */
  lemma {:induction false} CollapseKeepsText(s: string)
    decreases |s|
    ensures NonSpace(CollapseWhitespace(s)) == NonSpace(s)
  {
    if |s| > 0 {
      if IsSpace(s[0]) {
        var e := RunEnd(s, 0, IsSpace);
        CollapseKeepsText(s[e..]);
        NonSpaceAfterSpaces(s, e);
        NonSpaceAppend(" ", CollapseWhitespace(s[e..]));
      } else {
        CollapseKeepsText(s[1..]);
        NonSpaceAppend([s[0]], CollapseWhitespace(s[1..]));
      }
    }
  }

  /** Collapsing keeps whitespace at an end of the text as a space there, and
      a non-whitespace character there as it is. */
  lemma {:induction false} CollapseEnds(s: string)
    requires |s| > 0
    ensures var r := CollapseWhitespace(s);
      IsSpace(r[0]) == IsSpace(s[0]) && IsSpace(r[|r| - 1]) == IsSpace(s[|s| - 1])
  {
    var t := if IsSpace(s[0]) then s[RunEnd(s, 0, IsSpace)..] else s[1..];
    if |t| > 0 {
      CollapseEnds(t);
      assert t[|t| - 1] == s[|s| - 1];
    }
  }

  /** Once whitespace is collapsed to plain spaces, text that held only
      printable characters and whitespace is all printable. */
  lemma {:induction false} CollapseMakesPrintable(s: string)
    requires PrintableOrSpace(s)
    ensures AllPrintable(CollapseWhitespace(s))
  {
    if |s| > 0 {
      var t := if IsSpace(s[0]) then s[RunEnd(s, 0, IsSpace)..] else s[1..];
      assert forall i :: 0 <= i < |t| ==> t[i] == s[i + |s| - |t|];
      CollapseMakesPrintable(t);
      var rest := CollapseWhitespace(t);
      var r := CollapseWhitespace(s);
      assert forall i :: 0 <= i < |rest| ==> r[i + 1] == rest[i];
    }
  }

  /** Text that is single-spaced with plain spaces is its own collapse. */
  lemma {:induction false} CollapseSingleSpaced(s: string)
    requires SingleSpaced(s) && OnlyPlainSpaces(s)
    ensures CollapseWhitespace(s) == s
  {
    if |s| > 0 {
      assert SingleSpaced(s[1..]) && OnlyPlainSpaces(s[1..]) by {
        forall i | 0 <= i < |s[1..]| - 1 ensures !DoubleSpaceAt(s[1..], i) {
          assert !DoubleSpaceAt(s, i + 1);
        }
      }
      CollapseSingleSpaced(s[1..]);
      if IsSpace(s[0]) {
        assert |s| > 1 ==> !DoubleSpaceAt(s, 0);
        assert RunEnd(s, 1, IsSpace) == 1;
        assert RunEnd(s, 0, IsSpace) == 1;
        assert s == [' '] + s[1..];
      } else {
        assert s == [s[0]] + s[1..];
      }
    }
  }

  /** `''.join(c for c in s if c.isprintable() or c == '\n')` */
  function KeepPrintable(s: string): string {
    if |s| == 0 then ""
    else (if IsPrintable(s[0]) || s[0] == '\n' then [s[0]] else []) + KeepPrintable(s[1..])
  }

  /** The filter keeps only printable characters and newlines. */
  lemma {:induction false} KeepOnlyPrintable(s: string)
    ensures forall i :: 0 <= i < |KeepPrintable(s)| ==> IsPrintable(KeepPrintable(s)[i]) || KeepPrintable(s)[i] == '\n'
  {
    if |s| > 0 {
      KeepOnlyPrintable(s[1..]);
      KeepStep(s);
    }
  }

  /** Without a newline in the text, the filter keeps only printable
      characters. */
  lemma {:induction false} KeepWithoutNewline(s: string)
    requires '\n' !in s
    ensures AllPrintable(KeepPrintable(s)) && '\n' !in KeepPrintable(s)
  {
    if |s| > 0 {
      assert s[0] != '\n' && '\n' !in s[1..];
      KeepWithoutNewline(s[1..]);
      KeepStep(s);
    }
  }

  /** Printable text passes the filter whole. */
  lemma {:induction false} KeepAllPrintable(s: string)
    requires AllPrintable(s)
    ensures KeepPrintable(s) == s
  {
    if |s| > 0 {
      assert AllPrintable(s[1..]) by {
        assert forall i :: 0 <= i < |s| - 1 ==> s[1..][i] == s[i + 1];
      }
      KeepAllPrintable(s[1..]);
      assert s == [s[0]] + s[1..];
    }
  }

  /** One character of the filter: the kept head, then the rest. */
  lemma KeepStep(s: string)
    requires |s| > 0
    ensures var h := if IsPrintable(s[0]) || s[0] == '\n' then [s[0]] else [];
      KeepPrintable(s) == h + KeepPrintable(s[1..])
      && forall i :: 0 <= i < |KeepPrintable(s)| ==>
        KeepPrintable(s)[i] == if i < |h| then s[0] else KeepPrintable(s[1..])[i - |h|]
  {
  }

  /** The position of the last newline of `t`. */
  function LastNewline(t: string): (r: Option<nat>)
    ensures r.Some? ==> r.value < |t| && t[r.value] == '\n'
    ensures r.None? ==> '\n' !in t
  {
    if |t| == 0 then None
    else if t[|t| - 1] == '\n' then Some(|t| - 1)
    else
      assert t == t[..|t| - 1] + [t[|t| - 1]];
      LastNewline(t[..|t| - 1])
  }

  /** `re.sub(r'\n\s*\n', '\n\n', s)`: from a newline the greedy `\s*` runs to
      the end of the whitespace and backs off to its last newline; that whole
      stretch becomes one blank line. */
  function NormalizeBreaks(s: string): (r: string)
    decreases |s|
    ensures '\n' !in s ==> r == s
  {
    if |s| == 0 then ""
    else if s[0] == '\n' then
      match LastNewline(s[1..RunEnd(s, 1, IsSpace)])
      case Some(j) => "\n\n" + NormalizeBreaks(s[j + 2..])
      case None => "\n" + NormalizeBreaks(s[1..])
    else
      assert s == [s[0]] + s[1..];
      [s[0]] + NormalizeBreaks(s[1..])
  }

  /** Collapsed text holds no newline, so the filter keeps only printable
      characters and the line-break normalisation has nothing to do. */
  lemma CollapsedHasNoNewline(text: string)
    ensures '\n' !in CollapseWhitespace(text)
  {
    var c := CollapseWhitespace(text);
    assert forall i :: 0 <= i < |c| ==> c[i] != '\n';
  }

  /** clean_text. Because the first substitution already turns every newline
      into a space, the newline exception of the filter and the line-break
      normalisation never apply: cleaned text is one printable line. */
  function CleanText(text: string): (r: string)
    ensures text == [] ==> r == []
    ensures AllPrintable(r) && OnlyPlainSpaces(r) && Trimmed(r)
    ensures '\n' !in r
  {
    if |text| == 0 then ""
    else
      var kept := KeepPrintable(CollapseWhitespace(text));
      CleanedLine(text, kept);
      Strip(NormalizeBreaks(kept))
  }

  /** What is left after the filter is one printable line, which the
      line-break normalisation keeps and stripping keeps printable. */
  lemma CleanedLine(text: string, kept: string)
    requires kept == KeepPrintable(CollapseWhitespace(text))
    ensures NormalizeBreaks(kept) == kept
    ensures AllPrintable(Strip(kept)) && OnlyPlainSpaces(Strip(kept)) && '\n' !in Strip(kept)
  {
    CollapsedHasNoNewline(text);
    KeepWithoutNewline(CollapseWhitespace(text));
    assert AllPrintable(kept) && '\n' !in kept;
    StripPrintable(kept);
  }

  lemma StripPrintable(s: string)
    requires AllPrintable(s)
    ensures AllPrintable(Strip(s)) && OnlyPlainSpaces(Strip(s)) && '\n' !in Strip(s)
  {
    var t := Strip(s);
    SliceKeeps(s, |s| - |TrimStart(s)|, t);
    PrintableIsPlain(t);
  }

  /** Printable text holds no whitespace but the plain space. */
  lemma PrintableIsPlain(s: string)
    requires AllPrintable(s)
    ensures OnlyPlainSpaces(s) && '\n' !in s
  {
    assert forall i :: 0 <= i < |s| ==> s[i] != '\n';
  }

  /** The characters of `s` that are printable and not whitespace, in order:
      the text clean_text is meant to keep. */
  function PrintableText(s: string): string {
    if |s| == 0 then ""
    else (if IsPrintable(s[0]) && !IsSpace(s[0]) then [s[0]] else []) + PrintableText(s[1..])
  }

  lemma {:induction false} PrintableTextAppend(x: string, y: string)
    ensures PrintableText(x + y) == PrintableText(x) + PrintableText(y)
  {
    if x == [] {
      assert x + y == y;
    } else {
      assert (x + y)[1..] == x[1..] + y;
      PrintableTextAppend(x[1..], y);
    }
  }

  /** Dropping whitespace first changes nothing about the printable text. */
  lemma {:induction false} PrintableTextOfNonSpace(s: string)
    ensures PrintableText(NonSpace(s)) == PrintableText(s)
  {
    if |s| > 0 {
      PrintableTextOfNonSpace(s[1..]);
      PrintableTextAppend(if IsSpace(s[0]) then "" else [s[0]], NonSpace(s[1..]));
    }
  }

  /** The non-whitespace characters the filter keeps are the printable ones. */
  lemma {:induction false} NonSpaceOfKept(s: string)
    ensures NonSpace(KeepPrintable(s)) == PrintableText(s)
  {
    if |s| > 0 {
      NonSpaceOfKept(s[1..]);
      NonSpaceAppend(if IsPrintable(s[0]) || s[0] == '\n' then [s[0]] else [], KeepPrintable(s[1..]));
    }
  }

  /** clean_text changes whitespace and drops unprintable characters, nothing
      more: the printable non-whitespace characters of the input are exactly
      those of the result, in order. */
  lemma CleanTextKeepsText(text: string)
    ensures NonSpace(CleanText(text)) == PrintableText(text)
  {
    if |text| > 0 {
      var c := CollapseWhitespace(text);
      var kept := KeepPrintable(c);
      CleanedLine(text, kept);
      assert CleanText(text) == Strip(kept);
      StripKeepsNonSpace(kept);
      NonSpaceOfKept(c);
      PrintableTextOfNonSpace(c);
      CollapseKeepsText(text);
      PrintableTextOfNonSpace(text);
    }
  }

  /** Text that a cleaning pass leaves as it is. */
  predicate Canonical(s: string) {
    AllPrintable(s) && SingleSpaced(s) && Trimmed(s)
  }

  lemma CleanCanonical(s: string)
    requires Canonical(s)
    ensures CleanText(s) == s
  {
    if |s| > 0 {
      assert OnlyPlainSpaces(s);
      CollapseSingleSpaced(s);
      KeepAllPrintable(s);
      assert '\n' !in s by {
        assert forall i :: 0 <= i < |s| ==> s[i] != '\n';
      }
    }
  }

  /** A second pass only collapses the double spaces that removing control
      characters left behind; after it the text is canonical. */
  lemma CleanTwiceCanonical(x: string)
    ensures Canonical(CleanText(CleanText(x)))
  {
    var y := CleanText(x);
    if |y| > 0 {
      var c := CollapseWhitespace(y);
      assert PrintableOrSpace(y);
      CollapseMakesPrintable(y);
      KeepAllPrintable(c);
      CollapseEnds(y);
      CleanCanonical(c);
      assert CleanText(y) == c;
    }
  }

  /** Cleaning reaches a fixed point after two passes. */
  lemma CleanTextFixedPoint(x: string)
    ensures CleanText(CleanText(CleanText(x))) == CleanText(CleanText(x))
  {
    CleanTwiceCanonical(x);
    CleanCanonical(CleanText(CleanText(x)));
  }

  /** Cleaning is idempotent on text whose every character is printable or
      whitespace. */
  lemma CleanTextIdempotent(x: string)
    requires PrintableOrSpace(x)
    ensures CleanText(CleanText(x)) == CleanText(x)
  {
    if |x| > 0 {
      var c := CollapseWhitespace(x);
      CollapseMakesPrintable(x);
      CollapsedHasNoNewline(x);
      KeepAllPrintable(c);
      assert KeepPrintable(c) == c;
      assert NormalizeBreaks(c) == c;
      var y := Strip(c);
      assert CleanText(x) == y;
      SliceKeeps(c, |c| - |TrimStart(c)|, y);
      assert Canonical(y);
      CleanCanonical(y);
    }
  }

  /** Without the printable-or-whitespace premise idempotence fails: removing
      a control character between two spaces leaves a double space that only
      the second pass collapses. */
  lemma CleanTextNotIdempotent()
    ensures CleanText("a \U{0} b") == "a  b"
    ensures CleanText("a  b") == "a b"
  {
    CleanFirstPass();
    CleanSecondPass();
  }

  lemma CleanFirstPass()
    ensures CleanText("a \U{0} b") == "a  b"
  {
    CollapseExample();
    KeepExample();
    var line := "a  b";
    assert '\n' !in line by {
      assert line[0] != '\n' && line[1] != '\n' && line[2] != '\n' && line[3] != '\n';
    }
    assert !IsSpace(line[0]) && !IsSpace(line[3]);
    CleanOfLine("a \U{0} b", line);
  }

  /** Text whose filtered collapse is a single trimmed line cleans to that
      line. */
  lemma CleanOfLine(text: string, line: string)
    requires |text| > 0 && KeepPrintable(CollapseWhitespace(text)) == line
    requires '\n' !in line && (line == [] || (!IsSpace(line[0]) && !IsSpace(line[|line| - 1])))
    ensures CleanText(text) == line
  {
  }

  lemma CleanSecondPass()
    ensures CleanText("a  b") == "a b"
  {
    CollapseExampleTwice();
    var t := "a b";
    assert AllPrintable(t) by {
      assert IsPrintable(t[0]) && IsPrintable(t[1]) && IsPrintable(t[2]);
    }
    assert '\n' !in t by {
      assert t[0] != '\n' && t[1] != '\n' && t[2] != '\n';
    }
    assert Strip(t) == t;
  }

  lemma CollapseTail()
    ensures CollapseWhitespace(" b") == " b"
  {
    assert CollapseWhitespace("b") == "b" by { assert "b"[1..] == ""; }
    assert RunEnd(" b", 1, IsSpace) == 1;
    assert " b"[1..] == "b";
  }

  lemma CollapseMiddle()
    ensures CollapseWhitespace(" \U{0} b") == " \U{0} b"
  {
    CollapseTail();
    var t := "\U{0} b";
    assert !IsSpace(t[0]) && t[1..] == " b";
    assert CollapseWhitespace(t) == [t[0]] + " b";
    assert RunEnd(" \U{0} b", 1, IsSpace) == 1;
    assert " \U{0} b"[1..] == t;
  }

  lemma CollapseExample()
    ensures CollapseWhitespace("a \U{0} b") == "a \U{0} b"
  {
    CollapseMiddle();
    assert "a \U{0} b"[1..] == " \U{0} b";
  }

  lemma CollapseExampleTwice()
    ensures CollapseWhitespace("a  b") == "a b"
  {
    CollapseTail();
    assert RunEnd("  b", 2, IsSpace) == 2;
    assert "  b"[2..] == "b";
    assert CollapseWhitespace("  b") == " b";
    assert "a  b"[1..] == "  b";
  }

  lemma KeepExample()
    ensures KeepPrintable("a \U{0} b") == "a  b"
  {
    var x, y := "a ", " b";
    assert AllPrintable(x) by { assert IsPrintable(x[0]) && IsPrintable(x[1]); }
    assert AllPrintable(y) by { assert IsPrintable(y[0]) && IsPrintable(y[1]); }
    KeepDropsBetween(x, '\U{0}', y);
    assert x + ['\U{0}'] + y == "a \U{0} b";
    assert x + y == "a  b";
  }

  /** A character the filter drops between two printable texts leaves them
      side by side. */
  lemma KeepDropsBetween(x: string, z: char, y: string)
    requires AllPrintable(x) && AllPrintable(y) && !IsPrintable(z) && z != '\n'
    ensures KeepPrintable(x + [z] + y) == x + y
  {
    KeepAppend(x + [z], y);
    KeepAppend(x, [z]);
    assert KeepPrintable([z]) == [] by {
      assert [z][1..] == [];
    }
    KeepAllPrintable(x);
    KeepAllPrintable(y);
    assert x + [] == x;
  }

  /** The filter works character by character. */
  lemma {:induction false} KeepAppend(x: string, y: string)
    ensures KeepPrintable(x + y) == KeepPrintable(x) + KeepPrintable(y)
  {
    if x != [] {
      KeepAppend(x[1..], y);
      assert x + y == [x[0]] + (x[1..] + y);
      KeepCons(x[0], x[1..] + y);
      KeepCons(x[0], x[1..]);
      assert [x[0]] + x[1..] == x;
    } else {
      assert x + y == y;
    }
  }

  lemma KeepCons(c: char, rest: string)
    ensures KeepPrintable([c] + rest)
      == (if IsPrintable(c) || c == '\n' then [c] else []) + KeepPrintable(rest)
  {
    assert ([c] + rest)[1..] == rest;
  }

  /** normalize_whitespace */
  function NormalizeWhitespace(s: string): (r: string)
    ensures Trimmed(r) && SingleSpaced(r) && OnlyPlainSpaces(r)
  {
    var c := CollapseWhitespace(s);
    SliceKeeps(c, |c| - |TrimStart(c)|, Strip(c));
    Strip(c)
  }

  /** normalize_whitespace changes whitespace only: the text's other
      characters are kept, in order. */
  lemma NormalizeWhitespaceKeepsText(s: string)
    ensures NonSpace(NormalizeWhitespace(s)) == NonSpace(s)
  {
    CollapseKeepsText(s);
    StripKeepsNonSpace(CollapseWhitespace(s));
  }

  lemma NormalizeWhitespaceIdempotent(s: string)
    ensures NormalizeWhitespace(NormalizeWhitespace(s)) == NormalizeWhitespace(s)
  {
    CollapseSingleSpaced(NormalizeWhitespace(s));
  }

  /** A character the URL pattern's repeated class accepts: letters, digits,
      the range `$-_` (which takes in `@ . & +` as well), and `! * \ ( ) ,`.
      The `%XX` escape alternative adds nothing, as `%` and hexadecimal digits
      are accepted one by one. */
  predicate IsUrlChar(c: char) {
    IsLetter(c) || IsDigit(c) || '$' <= c <= '_' || c == '!' || c == '*'
    || c == '\\' || c == '(' || c == ')' || c == ','
  }

  /** `http[s]?://` at `k` with at least one URL character after it. */
  predicate UrlStarts(s: string, k: nat) {
    (LitAt(s, "https://", k) && k + 8 < |s| && IsUrlChar(s[k + 8]))
    || (LitAt(s, "http://", k) && k + 7 < |s| && IsUrlChar(s[k + 7]))
  }

  /** `http[s]?://(?:[a-zA-Z]|[0-9]|[$-_@.&+]|[!*\(\),]|(?:%[0-9a-fA-F][0-9a-fA-F]))+`
      at `k`: the scheme, then the greedy run of URL characters. */
  function UrlAt(s: string, k: nat): (r: Option<string>)
    ensures r.Some? <==> UrlStarts(s, k)
    ensures r.Some? ==> k + |r.value| <= |s| && r.value == s[k..k + |r.value|] && |r.value| >= 8
    ensures r.Some? ==> k + |r.value| == |s| || !IsUrlChar(s[k + |r.value|])
  {
    if LitAt(s, "https://", k) then
      assert !LitAt(s, "http://", k) by {
        assert s[k..k + 8][4] == s[k + 4] == 's';
        assert k + 7 <= |s| ==> s[k..k + 7][4] == s[k + 4];
      }
      if k + 8 < |s| && IsUrlChar(s[k + 8]) then Some(s[k..RunEnd(s, k + 8, IsUrlChar)]) else None
    else if LitAt(s, "http://", k) && k + 7 < |s| && IsUrlChar(s[k + 7]) then
      Some(s[k..RunEnd(s, k + 7, IsUrlChar)])
    else None
  }

  /** remove_urls, from position `k` on: every URL is deleted, nothing else
      changes. */
  function RemoveUrlsFrom(s: string, k: nat): string
    requires k <= |s|
    decreases |s| - k
  {
    if k == |s| then ""
    else match UrlAt(s, k)
      case Some(u) => RemoveUrlsFrom(s, k + |u|)
      case None => [s[k]] + RemoveUrlsFrom(s, k + 1)
  }

  /** remove_urls */
  function RemoveUrls(s: string): string {
    RemoveUrlsFrom(s, 0)
  }

  predicate UrlFree(t: string) {
    forall j :: 0 <= j <= |t| ==> !UrlStarts(t, j)
  }

  predicate AllUrlChars(t: string) {
    forall i :: 0 <= i < |t| ==> IsUrlChar(t[i])
  }

  /** Whether a URL starts at `j` depends only on the characters from `j` on. */
  lemma UrlStartsShift(c: char, t: string, j: nat)
    ensures UrlStarts([c] + t, j + 1) <==> UrlStarts(t, j)
  {
    var u := [c] + t;
    if j + 8 <= |t| { assert u[j + 1..j + 9] == t[j..j + 8]; }
    if j + 7 <= |t| { assert u[j + 1..j + 8] == t[j..j + 7]; }
  }

  /** Whether a URL starts at the front depends only on the first nine
      characters, all of which are URL characters when it does. */
  lemma UrlStartsPrefix(t: string, u: string)
    requires UrlStarts(t, 0)
    ensures var n := if LitAt(t, "https://", 0) then 9 else 8;
      n <= |t| && AllUrlChars(t[..n])
      && (n <= |u| && u[..n] == t[..n] ==> UrlStarts(u, 0))
  {
    var w: string;
    if LitAt(t, "https://", 0) {
      w := "https://";
      assert t[..8][4] == t[4] == 's';
      assert !LitAt(t, "http://", 0) by {
        if 7 <= |t| { assert t[..7][4] == t[4]; }
      }
      assert |w| == 8 && 8 < |t| && IsUrlChar(t[8]);
    } else {
      w := "http://";
      assert |w| == 7 && 7 < |t| && IsUrlChar(t[7]);
    }
    SchemesAreUrlChars();
    SchemeUrlChars(t, w);
    if |w| + 1 <= |u| && u[..|w| + 1] == t[..|w| + 1] {
      SchemeAgrees(t, u, w);
    }
  }

  lemma SchemesAreUrlChars()
    ensures AllUrlChars("https://") && AllUrlChars("http://")
  {
    var w := "https://";
    assert IsUrlChar(w[0]) && IsUrlChar(w[1]) && IsUrlChar(w[2]) && IsUrlChar(w[3]);
    assert IsUrlChar(w[4]) && IsUrlChar(w[5]) && IsUrlChar(w[6]) && IsUrlChar(w[7]);
  }

  /** A scheme made of URL characters followed by one more URL character. */
  lemma SchemeUrlChars(t: string, w: string)
    requires LitAt(t, w, 0) && |w| < |t| && AllUrlChars(w) && IsUrlChar(t[|w|])
    ensures AllUrlChars(t[..|w| + 1])
  {
    assert forall i :: 0 <= i < |w| ==> t[..|w| + 1][i] == w[i];
  }

  /** Two texts that share their first `|w| + 1` characters agree on the
      scheme `w` and on the character after it. */
  lemma SchemeAgrees(t: string, u: string, w: string)
    requires LitAt(t, w, 0) && |w| < |t| && |w| < |u| && u[..|w| + 1] == t[..|w| + 1]
    ensures LitAt(u, w, 0) && u[|w|] == t[|w|]
  {
    assert u[..|w|] == u[..|w| + 1][..|w|];
    assert t[..|w|] == t[..|w| + 1][..|w|];
    assert u[|w|] == u[..|w| + 1][|w|];
  }

  /** Every prefix of `r` made of URL characters is copied from `s` at `k`. */
  predicate CopiesUrlPrefixes(r: string, s: string, k: nat) {
    forall m :: 0 <= m <= |r| && AllUrlChars(r[..m]) ==> k + m <= |s| && r[..m] == s[k..k + m]
  }

  /** What `RemoveUrlsFrom(s, k)` yields holds no URL, and each of its
      prefixes made of URL characters is copied unchanged from `s` at `k`. */
  lemma {:induction false} RemoveUrlsFromSound(s: string, k: nat)
    requires k <= |s|
    decreases |s| - k
    ensures UrlFree(RemoveUrlsFrom(s, k))
    ensures CopiesUrlPrefixes(RemoveUrlsFrom(s, k), s, k)
  {
    var r := RemoveUrlsFrom(s, k);
    if k < |s| {
      match UrlAt(s, k)
      case Some(u) =>
        RemoveUrlsFromSound(s, k + |u|);
        AfterUrl(s, k, k + |u|, r);
      case None =>
        RemoveUrlsFromSound(s, k + 1);
        var rest := RemoveUrlsFrom(s, k + 1);
        assert r == [s[k]] + rest;
        KeptCharSound(s, k, rest);
    }
  }

  /** A character where no URL starts, put before a sound remainder, gives a
      sound result. */
  lemma KeptCharSound(s: string, k: nat, rest: string)
    requires k < |s| && !UrlStarts(s, k)
    requires UrlFree(rest) && CopiesUrlPrefixes(rest, s, k + 1)
    ensures UrlFree([s[k]] + rest) && CopiesUrlPrefixes([s[k]] + rest, s, k)
  {
    var r := [s[k]] + rest;
    forall j | 0 <= j <= |r| ensures !UrlStarts(r, j) {
      if j == 0 {
        NoUrlAtFront(s, k, rest);
      } else {
        UrlStartsShift(s[k], rest, j - 1);
      }
    }
    ConsCopies(s, k, rest);
  }

  /** The character after a deleted URL is not a URL character, so nothing
      that follows a deletion can be mistaken for a continuation of it. */
  lemma AfterUrl(s: string, k: nat, e: nat, r: string)
    requires k <= e <= |s| && (e == |s| || !IsUrlChar(s[e]))
    requires CopiesUrlPrefixes(r, s, e)
    ensures CopiesUrlPrefixes(r, s, k)
  {
    forall m | 0 <= m <= |r| && AllUrlChars(r[..m]) ensures k + m <= |s| && r[..m] == s[k..k + m] {
      if m > 0 {
        assert false;
      }
    }
  }

  lemma ConsCopies(s: string, k: nat, rest: string)
    requires k < |s| && CopiesUrlPrefixes(rest, s, k + 1)
    ensures CopiesUrlPrefixes([s[k]] + rest, s, k)
  {
    var r := [s[k]] + rest;
    forall m | 0 <= m <= |r| && AllUrlChars(r[..m]) ensures k + m <= |s| && r[..m] == s[k..k + m] {
      if m > 0 {
        assert r[..m] == [s[k]] + rest[..m - 1];
        var p := rest[..m - 1];
        assert AllUrlChars(p) by {
          forall i | 0 <= i < |p| ensures IsUrlChar(p[i]) {
            assert p[i] == r[..m][i + 1];
          }
        }
      }
    }
  }

  /** A kept character does not start a URL in the output either: the URL
      characters after it were copied from the input, where no URL started. */
  lemma NoUrlAtFront(s: string, k: nat, rest: string)
    requires k < |s| && UrlAt(s, k).None? && CopiesUrlPrefixes(rest, s, k + 1)
    ensures !UrlStarts([s[k]] + rest, 0)
  {
    var r := [s[k]] + rest;
    UrlStartsAt(s, k);
    if UrlStarts(r, 0) {
      UrlStartsPrefix(r, s[k..]);
      ConsUrlPrefix(s[k], rest, if LitAt(r, "https://", 0) then 9 else 8);
    }
  }

  lemma ConsUrlPrefix(c: char, rest: string, n: nat)
    requires 1 <= n <= 1 + |rest| && AllUrlChars(([c] + rest)[..n])
    ensures AllUrlChars(rest[..n - 1]) && ([c] + rest)[..n] == [c] + rest[..n - 1]
  {
    var r := [c] + rest;
    var p := rest[..n - 1];
    forall i | 0 <= i < |p| ensures IsUrlChar(p[i]) {
      assert p[i] == r[..n][i + 1];
    }
  }

  /** A URL starts at `k` exactly when one starts at the front of `s[k..]`. */
  lemma UrlStartsAt(s: string, k: nat)
    requires k <= |s|
    ensures UrlStarts(s[k..], 0) <==> UrlStarts(s, k)
  {
    if k + 8 <= |s| { assert s[k..][..8] == s[k..k + 8]; }
    if k + 7 <= |s| { assert s[k..][..7] == s[k..k + 7]; }
  }

  /** No URL is left once remove_urls has run. */
  lemma RemoveUrlsLeavesNoUrl(s: string)
    ensures UrlFree(RemoveUrls(s))
  {
    RemoveUrlsFromSound(s, 0);
  }

  /** Text without a URL passes through unchanged. */
  lemma {:induction false} RemoveUrlsFromUrlFree(t: string, k: nat)
    requires UrlFree(t) && k <= |t|
    decreases |t| - k
    ensures RemoveUrlsFrom(t, k) == t[k..]
  {
    if k < |t| {
      assert !UrlStarts(t, k);
      RemoveUrlsFromUrlFree(t, k + 1);
      assert t[k..] == [t[k]] + t[k + 1..];
    }
  }

  /** remove_urls is idempotent. */
  lemma RemoveUrlsIdempotent(s: string)
    ensures RemoveUrls(RemoveUrls(s)) == RemoveUrls(s)
  {
    RemoveUrlsLeavesNoUrl(s);
    RemoveUrlsFromUrlFree(RemoveUrls(s), 0);
  }

  // ===========================================================================
  // extract_sections

  datatype SectionKind =
    | Header | PersonalInfo | Summary | Experience | Education | Skills
    | Projects | Certifications | Languages

  /** One alternative of a header pattern: a word, or two words with `\s+`
      between them. A trailing `s?` adds nothing to a search and is left off. */
  datatype Phrase = Word(w: string) | Spaced(first: string, second: string)

  /** The phrase matches at position `k`. */
  predicate PhraseAt(p: Phrase, s: string, k: nat) {
    match p
    case Word(w) => WordAt(s, w, k)
    case Spaced(a, b) =>
      WordAt(s, a, k) && var e := SpaceRunEnd(s, k + |a|); e > k + |a| && WordAt(s, b, e)
  }

  /** The end of the run of whitespace starting at `i` (the greedy `\s+`). */
  function SpaceRunEnd(s: string, i: nat): (e: nat)
    requires i <= |s|
    decreases |s| - i
    ensures i <= e <= |s|
  {
    if i < |s| && IsSpace(s[i]) then SpaceRunEnd(s, i + 1) else i
  }

  /** `re.search(p, s)` for one phrase, scanning from position `k`. */
  predicate PhraseOccursFrom(p: Phrase, s: string, k: nat)
    decreases |s| + 1 - k
  {
    k <= |s| && (PhraseAt(p, s, k) || PhraseOccursFrom(p, s, k + 1))
  }

  /** `re.search` of an alternation succeeds when one of its alternatives
      occurs somewhere. */
  predicate PatternOccurs(ps: seq<Phrase>, s: string) {
    |ps| > 0 && (PhraseOccursFrom(ps[0], s, 0) || PatternOccurs(ps[1..], s))
  }

  /** The sections that have a header pattern, in the order the loop tries
      them. */
  const SectionOrder: seq<SectionKind> :=
    [PersonalInfo, Summary, Experience, Education, Skills, Projects, Certifications, Languages]

  /** The alternatives of each section's header pattern; the implicit
      `header` section has none. */
  function PatternOf(k: SectionKind): seq<Phrase> {
    match k
    case Header => []
    case PersonalInfo => [Spaced("personal", "information"), Spaced("personal", "details"),
                          Word("contact"), Word("profile")]
    case Summary => [Word("summary"), Word("objective"), Word("profile"), Word("about")]
    case Experience => [Word("experience"), Word("employment"), Spaced("work", "history"),
                        Spaced("professional", "experience")]
    case Education => [Word("education"), Word("academic"), Word("qualification")]
    case Skills => [Word("skills"), Spaced("technical", "skills"), Word("competencies"),
                    Word("expertise")]
    case Projects => [Word("projects"), Word("portfolio")]
    case Certifications => [Word("certification"), Word("license"), Word("award")]
    case Languages => [Word("language")]
  }

  /** Section `k`'s pattern opens a section at `line`: it occurs in the
      lower-cased, stripped line, and the line has at most five words. */
  predicate Opens(line: string, k: SectionKind) {
    PatternOccurs(PatternOf(k), Strip(Lower(line))) && WordCount(line) <= 5
  }

  /** The section the line opens, trying the patterns from the `i`-th on. */
  function HeaderKindFrom(line: string, i: nat): Option<SectionKind>
    requires i <= |SectionOrder|
    decreases |SectionOrder| - i
  {
    if i == |SectionOrder| then None
    else if Opens(line, SectionOrder[i]) then Some(SectionOrder[i])
    else HeaderKindFrom(line, i + 1)
  }

  /** The first pattern, from the `i`-th on, that opens a section at the line
      decides its kind. */
  lemma {:induction false} HeaderKindFromFirst(line: string, i: nat, j: nat)
    requires i <= j < |SectionOrder| && Opens(line, SectionOrder[j])
    requires forall j' :: i <= j' < j ==> !Opens(line, SectionOrder[j'])
    decreases j - i
    ensures HeaderKindFrom(line, i) == Some(SectionOrder[j])
  {
    if i < j {
      HeaderKindFromFirst(line, i + 1, j);
    }
  }

  /** A line that no pattern from the `i`-th on opens gets no kind. */
  lemma {:induction false} HeaderKindFromNone(line: string, i: nat)
    requires i <= |SectionOrder|
    requires forall j :: i <= j < |SectionOrder| ==> !Opens(line, SectionOrder[j])
    decreases |SectionOrder| - i
    ensures HeaderKindFrom(line, i) == None
  {
    if i < |SectionOrder| {
      HeaderKindFromNone(line, i + 1);
    }
  }

  /** A kind found is one whose pattern opens a section at the line. */
  lemma {:induction false} HeaderKindFromOpens(line: string, i: nat)
    requires i <= |SectionOrder| && HeaderKindFrom(line, i).Some?
    decreases |SectionOrder| - i
    ensures Opens(line, HeaderKindFrom(line, i).value)
    ensures HeaderKindFrom(line, i).value != Header
  {
    if !Opens(line, SectionOrder[i]) {
      HeaderKindFromOpens(line, i + 1);
    }
  }

  /** The section a line opens: the first kind, in table order, whose pattern
      occurs in the line; None for a line that is not a header. */
  function HeaderKind(line: string): Option<SectionKind> {
    HeaderKindFrom(line, 0)
  }

  /** A line that holds no whitespace is at most one word. */
  lemma {:induction false} NoSpaceOneWord(s: string)
    requires forall i :: 0 <= i < |s| ==> !IsSpace(s[i])
    ensures WordCount(s) <= 1
  {
    if |s| > 1 {
      NoSpaceOneWord(s[..|s| - 1]);
    }
  }

  /** An alternation matches when one of its alternatives occurs. */
  lemma {:induction false} AlternativeOccurs(ps: seq<Phrase>, s: string, q: nat)
    requires q < |ps| && PhraseOccursFrom(ps[q], s, 0)
    ensures PatternOccurs(ps, s)
  {
    if q > 0 {
      AlternativeOccurs(ps[1..], s, q - 1);
    }
  }

  /** A word that is the whole text occurs in it. */
  lemma WordOccursInItself(w: string)
    ensures PhraseOccursFrom(Word(w), w, 0)
  {
    WordAtIsLit(w, w, 0);
  }

  lemma LowerProfile()
    ensures Lower("Profile") == "profile"
  {
    var l := Lower("Profile");
    assert l[0] == 'p' && l[1] == 'r' && l[2] == 'o' && l[3] == 'f' && l[4] == 'i' && l[5] == 'l' && l[6] == 'e';
  }

  lemma StripLowerProfile(line: string)
    requires line == "Profile"
    ensures Strip(Lower(line)) == "profile"
  {
    LowerProfile();
    StripUnspaced("profile");
  }

  lemma StripUnspaced(s: string)
    requires s == "profile"
    ensures Strip(s) == s
  {
    assert s[0] == 'p' && s[|s| - 1] == 'e';
  }

  lemma ProfileOccurs(s: string)
    requires s == "profile"
    ensures PatternOccurs(PatternOf(PersonalInfo), s)
  {
    WordOccursInItself(s);
    AlternativeOccurs(PatternOf(PersonalInfo), s, 3);
  }

  lemma ProfileOneWord(line: string)
    requires line == "Profile"
    ensures WordCount(line) <= 1
  {
    NoSpaceOneWord(line);
  }

  lemma ProfileOpens(line: string)
    requires line == "Profile"
    ensures Opens(line, PersonalInfo)
  {
    StripLowerProfile(line);
    ProfileOccurs(Strip(Lower(line)));
    ProfileOneWord(line);
  }

  /** "profile" is in both the personal-information and the summary pattern;
      personal information comes first in the table, so a "Profile" line
      opens it. */
  lemma ProfileOpensPersonalInfo(line: string)
    requires line == "Profile"
    ensures HeaderKind(line) == Some(PersonalInfo)
  {
    ProfileOpens(line);
    HeaderKindFromFirst(line, 0, 0);
  }

  /** A header line never opens the implicit `header` section, which has no
      pattern of its own. */
  lemma HeaderKindNotHeader(line: string)
    ensures HeaderKind(line) != Some(Header)
  {
    if HeaderKind(line).Some? {
      HeaderKindFromOpens(line, 0);
    }
  }

  /** What the header test says of each line. */
  function Kinds(lines: seq<string>): (ks: seq<Option<SectionKind>>)
    ensures |ks| == |lines|
  {
    seq(|lines|, i requires 0 <= i < |lines| => HeaderKind(lines[i]))
  }

  /** The state of the loop of extract_sections: the current section, the
      dictionary's keys in insertion order, and the lines under each key. */
  datatype ScanState = ScanState(
    current: SectionKind, order: seq<SectionKind>, content: map<SectionKind, seq<string>>)

  predicate Distinct(order: seq<SectionKind>) {
    forall p, q :: 0 <= p < q < |order| ==> order[p] != order[q]
  }

  /** The current section is a key, the keys are listed once each in
      insertion order, and `header` comes first. */
  predicate WellFormed(st: ScanState) {
    && st.current in st.content
    && (forall k :: k in st.order <==> k in st.content)
    && Distinct(st.order)
    && |st.order| > 0 && st.order[0] == Header
  }

  /** One iteration of the loop, for a line the header test classifies as
      `hk`: a header line switches the current section, making it a key with
      no lines if it is new; any other line is appended to the current
      section. */
  function Step(st: ScanState, line: string, hk: Option<SectionKind>): (r: ScanState)
    requires WellFormed(st)
    ensures WellFormed(r)
  {
    match hk
    case Some(k) =>
      if k in st.content then st.(current := k)
      else ScanState(k, st.order + [k], st.content[k := []])
    case None => st.(content := st.content[st.current := st.content[st.current] + [line]])
  }

  /** The loop over `lines`, each classified by `ks`. */
  function ScanWith(lines: seq<string>, ks: seq<Option<SectionKind>>): (st: ScanState)
    requires |ks| == |lines|
    ensures WellFormed(st)
  {
    if |lines| == 0 then ScanState(Header, [Header], map[Header := []])
    else Step(ScanWith(lines[..|lines| - 1], ks[..|lines| - 1]), lines[|lines| - 1], ks[|lines| - 1])
  }

  function Scan(lines: seq<string>): ScanState {
    ScanWith(lines, Kinds(lines))
  }

  datatype Section = Section(kind: SectionKind, body: string)

  /** The keys that hold some line, in insertion order: the filter of the
      dictionary comprehension that ends extract_sections. */
  function KeysWithLines(order: seq<SectionKind>, content: map<SectionKind, seq<string>>): (keys: seq<SectionKind>)
    requires forall k :: k in order ==> k in content
    ensures forall p :: 0 <= p < |keys| ==> keys[p] in order && content[keys[p]] != []
  {
    if |order| == 0 then []
    else (if content[order[0]] != [] then [order[0]] else []) + KeysWithLines(order[1..], content)
  }

  /** The dictionary comprehension that ends extract_sections: one section
      per key that holds some line, its body the stripped newline-join of
      those lines. */
  function Assemble(order: seq<SectionKind>, content: map<SectionKind, seq<string>>): seq<Section>
    requires forall k :: k in order ==> k in content
  {
    var keys := KeysWithLines(order, content);
    seq(|keys|, p requires 0 <= p < |keys| => Section(keys[p], Strip(JoinWith("\n", content[keys[p]]))))
  }

  /** The sections extract_sections builds from `lines`, each classified by
      `ks`. */
  function SectionsWith(lines: seq<string>, ks: seq<Option<SectionKind>>): seq<Section>
    requires |ks| == |lines|
  {
    var st := ScanWith(lines, ks);
    Assemble(st.order, st.content)
  }

  /** What extract_sections returns for the lines of a text, as a list of
      sections in the dictionary's order. */
  function SectionsOf(lines: seq<string>): seq<Section> {
    SectionsWith(lines, Kinds(lines))
  }

  // ---------------------------------------------------------------------------
  // What the scan computes, line by line

  /** The section in force after lines classified by `ks`: the kind of the
      last header line, or `header` when there is none. */
  function SectionAfter(ks: seq<Option<SectionKind>>): SectionKind {
    if |ks| == 0 then Header
    else match ks[|ks| - 1]
      case Some(k) => k
      case None => SectionAfter(ks[..|ks| - 1])
  }

  /** The lines that fall under section `k`: in order, each line that is not
      a header and comes while `k` is in force. */
  function LinesUnder(lines: seq<string>, ks: seq<Option<SectionKind>>, k: SectionKind): seq<string>
    requires |ks| == |lines|
  {
    if |lines| == 0 then []
    else
      var n := |lines| - 1;
      LinesUnder(lines[..n], ks[..n], k)
      + if ks[n].None? && SectionAfter(ks[..n]) == k then [lines[n]] else []
  }

  /** The index of the first header line that opens `k`. */
  function FirstOpening(ks: seq<Option<SectionKind>>, k: SectionKind): Option<nat> {
    if |ks| == 0 then None
    else match FirstOpening(ks[..|ks| - 1], k)
      case Some(i) => Some(i)
      case None => if ks[|ks| - 1] == Some(k) then Some(|ks| - 1) else None
  }

  /** When `k` became a key of the dictionary: `header` before any line, any
      other section at its first header line, and never (past the end) for a
      section that no line opens. */
  function OpenRank(ks: seq<Option<SectionKind>>, k: SectionKind): int {
    if k == Header then -1
    else match FirstOpening(ks, k)
      case Some(i) => i
      case None => |ks|
  }

  /** The scan state in terms of the lines: the current section is the one in
      force, the keys are `header` and the sections some line opens, in the
      order they were opened, and each key holds the lines under it. */
  predicate Explains(st: ScanState, lines: seq<string>, ks: seq<Option<SectionKind>>)
    requires |ks| == |lines|
  {
    st.current == SectionAfter(ks) && KeysExplained(st, ks)
    && ContentExplained(st, lines, ks) && OrderExplained(st, ks)
  }

  predicate KeysExplained(st: ScanState, ks: seq<Option<SectionKind>>) {
    forall k :: k in st.content <==> k == Header || FirstOpening(ks, k).Some?
  }

  predicate ContentExplained(st: ScanState, lines: seq<string>, ks: seq<Option<SectionKind>>)
    requires |ks| == |lines|
  {
    && (forall k :: k in st.content ==> st.content[k] == LinesUnder(lines, ks, k))
    && (forall k :: k !in st.content ==> LinesUnder(lines, ks, k) == [])
  }

  predicate OrderExplained(st: ScanState, ks: seq<Option<SectionKind>>) {
    && (forall k :: k in st.content ==> OpenRank(ks, k) < |ks|)
    && RankAscending(ks, st.order)
  }

  lemma {:induction false} ScanExplained(lines: seq<string>, ks: seq<Option<SectionKind>>)
    requires |ks| == |lines|
    ensures Explains(ScanWith(lines, ks), lines, ks)
  {
    if |lines| > 0 {
      var n := |lines| - 1;
      var st := ScanWith(lines[..n], ks[..n]);
      ScanExplained(lines[..n], ks[..n]);
      StepExplained(st, lines, ks);
    }
  }

  /** One line keeps the scan state explained. */
  lemma StepExplained(st: ScanState, lines: seq<string>, ks: seq<Option<SectionKind>>)
    requires |ks| == |lines| > 0 && WellFormed(st)
    requires Explains(st, lines[..|lines| - 1], ks[..|lines| - 1])
    ensures Explains(Step(st, lines[|lines| - 1], ks[|lines| - 1]), lines, ks)
  {
    var n := |lines| - 1;
    StepKeys(st, lines[n], ks);
    StepContent(st, lines, ks);
    StepOrder(st, lines[n], ks);
  }

  lemma StepKeys(st: ScanState, line: string, ks: seq<Option<SectionKind>>)
    requires |ks| > 0 && WellFormed(st) && KeysExplained(st, ks[..|ks| - 1])
    ensures KeysExplained(Step(st, line, ks[|ks| - 1]), ks)
  {
  }

  lemma StepContent(st: ScanState, lines: seq<string>, ks: seq<Option<SectionKind>>)
    requires |ks| == |lines| > 0 && WellFormed(st)
    requires st.current == SectionAfter(ks[..|ks| - 1])
    requires ContentExplained(st, lines[..|lines| - 1], ks[..|lines| - 1])
    ensures ContentExplained(Step(st, lines[|lines| - 1], ks[|lines| - 1]), lines, ks)
  {
    var n := |lines| - 1;
    var st' := Step(st, lines[n], ks[n]);
    forall k
      ensures k in st'.content ==> st'.content[k] == LinesUnder(lines, ks, k)
      ensures k !in st'.content ==> LinesUnder(lines, ks, k) == []
    {
      LinesUnderStep(lines, ks, k);
    }
  }

  /** One more line joins the lines under `k` exactly when it is no header
      and `k` is in force. */
  lemma LinesUnderStep(lines: seq<string>, ks: seq<Option<SectionKind>>, k: SectionKind)
    requires |ks| == |lines| > 0
    ensures var n := |lines| - 1;
      LinesUnder(lines, ks, k) == LinesUnder(lines[..n], ks[..n], k)
        + if ks[n].None? && SectionAfter(ks[..n]) == k then [lines[n]] else []
  {
  }

  /** How one more line moves the rank at which each section was opened. */
  lemma OpenRankStep(ks: seq<Option<SectionKind>>, k: SectionKind)
    requires |ks| > 0
    ensures var n := |ks| - 1;
      OpenRank(ks, k) == if k == Header || FirstOpening(ks[..n], k).Some? then OpenRank(ks[..n], k)
                         else if ks[n] == Some(k) then n else n + 1
  {
  }

  lemma StepOrder(st: ScanState, line: string, ks: seq<Option<SectionKind>>)
    requires |ks| > 0 && WellFormed(st)
    requires KeysExplained(st, ks[..|ks| - 1]) && OrderExplained(st, ks[..|ks| - 1])
    ensures OrderExplained(Step(st, line, ks[|ks| - 1]), ks)
  {
    var n := |ks| - 1;
    var st' := Step(st, line, ks[n]);
    forall k | k in st'.content ensures OpenRank(ks, k) < |ks| {
      OpenRankStep(ks, k);
    }
    forall p, q | 0 <= p < q < |st'.order| ensures OpenRank(ks, st'.order[p]) < OpenRank(ks, st'.order[q]) {
      OpenRankStep(ks, st'.order[p]);
      OpenRankStep(ks, st'.order[q]);
      assert st'.order[p] == st.order[p] && st.order[p] in st.content;
      if q < |st.order| {
        assert st'.order[q] == st.order[q];
        assert OpenRank(ks[..n], st.order[p]) < OpenRank(ks[..n], st.order[q]);
      }
    }
    assert RankAscending(ks, st'.order);
  }

  /** Every key that holds some line is kept. */
  lemma {:induction false} KeysWithLinesCover(order: seq<SectionKind>, content: map<SectionKind, seq<string>>, k: SectionKind)
    requires forall k :: k in order ==> k in content
    requires k in order && content[k] != []
    ensures k in KeysWithLines(order, content)
  {
    if order[0] != k {
      assert k in order[1..];
      KeysWithLinesCover(order[1..], content, k);
    }
  }

  /** `keys` are listed in the order their sections were opened. */
  predicate RankAscending(ks: seq<Option<SectionKind>>, keys: seq<SectionKind>) {
    forall p, q :: 0 <= p < q < |keys| ==> OpenRank(ks, keys[p]) < OpenRank(ks, keys[q])
  }

  /** The kept keys keep their order, for the ranking by opening line. */
  lemma KeysWithLinesOrdered(order: seq<SectionKind>, content: map<SectionKind, seq<string>>, ks: seq<Option<SectionKind>>)
    requires forall k :: k in order ==> k in content
    requires RankAscending(ks, order)
    ensures RankAscending(ks, KeysWithLines(order, content))
  {
    var rank := (k: SectionKind) => OpenRank(ks, k);
    assert AscendingBy(rank, order) by {
      forall p, q | 0 <= p < q < |order| ensures rank(order[p]) < rank(order[q]) {
        assert OpenRank(ks, order[p]) < OpenRank(ks, order[q]);
      }
    }
    KeptAscending(order, content, rank);
    var keys := KeysWithLines(order, content);
    forall p, q | 0 <= p < q < |keys| ensures OpenRank(ks, keys[p]) < OpenRank(ks, keys[q]) {
      assert rank(keys[p]) < rank(keys[q]);
    }
  }

  /** `keys` ascend by `rank`. */
  predicate AscendingBy(rank: SectionKind -> int, keys: seq<SectionKind>) {
    forall p, q :: 0 <= p < q < |keys| ==> rank(keys[p]) < rank(keys[q])
  }

  /** The kept keys keep their order, for any ranking the keys ascend in. */
  lemma {:induction false} KeptAscending(order: seq<SectionKind>, content: map<SectionKind, seq<string>>, rank: SectionKind -> int)
    requires forall k :: k in order ==> k in content
    requires AscendingBy(rank, order)
    ensures AscendingBy(rank, KeysWithLines(order, content))
  {
    if |order| > 0 {
      var rest := KeysWithLines(order[1..], content);
      KeptAscending(order[1..], content, rank);
      HeadBelowKept(order, content, rank);
      var keys := KeysWithLines(order, content);
      if content[order[0]] != [] {
        forall p, q | 0 <= p < q < |keys| ensures rank(keys[p]) < rank(keys[q]) {
          assert keys[q] == rest[q - 1];
          if p > 0 {
            assert keys[p] == rest[p - 1];
          } else {
            assert keys[0] == order[0];
          }
        }
      } else {
        assert keys == rest;
      }
    }
  }

  /** The first key ranks below every key kept from the others. */
  lemma HeadBelowKept(order: seq<SectionKind>, content: map<SectionKind, seq<string>>, rank: SectionKind -> int)
    requires |order| > 0 && forall k :: k in order ==> k in content
    requires AscendingBy(rank, order)
    ensures forall q :: 0 <= q < |KeysWithLines(order[1..], content)| ==>
      rank(order[0]) < rank(KeysWithLines(order[1..], content)[q])
  {
    var rest := KeysWithLines(order[1..], content);
    forall q | 0 <= q < |rest| ensures rank(order[0]) < rank(rest[q]) {
      var i :| 0 <= i < |order[1..]| && order[1..][i] == rest[q];
      assert order[i + 1] == rest[q];
    }
  }

  /** The lines under a section are lines of the text that are not headers. */
  lemma {:induction false} LinesUnderAreBodyLines(lines: seq<string>, ks: seq<Option<SectionKind>>, k: SectionKind)
    requires |ks| == |lines|
    ensures forall x :: x in LinesUnder(lines, ks, k) ==> exists j :: 0 <= j < |lines| && lines[j] == x && ks[j].None?
  {
    if |lines| > 0 {
      var n := |lines| - 1;
      LinesUnderAreBodyLines(lines[..n], ks[..n], k);
      forall x | x in LinesUnder(lines, ks, k) ensures exists j :: 0 <= j < |lines| && lines[j] == x && ks[j].None? {
        if x in LinesUnder(lines[..n], ks[..n], k) {
          var j :| 0 <= j < n && lines[..n][j] == x && ks[..n][j].None?;
          assert lines[j] == x && ks[j].None?;
        } else {
          assert lines[n] == x && ks[n].None?;
        }
      }
    }
  }

  /** For any classification of the lines: a section is produced for each
      section some line falls under, and its body is the stripped join of
      those lines. */
  lemma SectionsWithLinesUnder(lines: seq<string>, ks: seq<Option<SectionKind>>)
    requires |ks| == |lines|
    ensures var r := SectionsWith(lines, ks);
      && (forall p :: 0 <= p < |r| ==>
            LinesUnder(lines, ks, r[p].kind) != [] && r[p].body == Strip(JoinWith("\n", LinesUnder(lines, ks, r[p].kind))))
      && (forall k :: LinesUnder(lines, ks, k) != [] ==> exists p :: 0 <= p < |r| && r[p].kind == k)
  {
    var st := ScanWith(lines, ks);
    var keys := KeysWithLines(st.order, st.content);
    var r := SectionsWith(lines, ks);
    ScanExplained(lines, ks);
    forall k | LinesUnder(lines, ks, k) != [] ensures exists p :: 0 <= p < |r| && r[p].kind == k {
      KeysWithLinesCover(st.order, st.content, k);
      var p :| 0 <= p < |keys| && keys[p] == k;
      assert r[p].kind == k;
    }
  }

  /** For any classification of the lines: sections come in the order their
      first header lines appear, with `header` first. */
  lemma SectionsWithOrdered(lines: seq<string>, ks: seq<Option<SectionKind>>)
    requires |ks| == |lines|
    ensures var r := SectionsWith(lines, ks);
      forall p, q :: 0 <= p < q < |r| ==> OpenRank(ks, r[p].kind) < OpenRank(ks, r[q].kind)
  {
    var st := ScanWith(lines, ks);
    var keys := KeysWithLines(st.order, st.content);
    var r := SectionsWith(lines, ks);
    ScanExplained(lines, ks);
    assert OrderExplained(st, ks);
    KeysWithLinesOrdered(st.order, st.content, ks);
    forall p, q | 0 <= p < q < |r| ensures OpenRank(ks, r[p].kind) < OpenRank(ks, r[q].kind) {
      assert r[p].kind == keys[p] && r[q].kind == keys[q];
    }
  }

  /** extract_sections yields, for each section that some line falls under,
      the stripped join of those lines, and nothing for a section no line
      falls under. */
  lemma SectionsAreTheLinesUnder(lines: seq<string>)
    ensures var r := SectionsOf(lines); var ks := Kinds(lines);
      && (forall p :: 0 <= p < |r| ==>
            LinesUnder(lines, ks, r[p].kind) != [] && r[p].body == Strip(JoinWith("\n", LinesUnder(lines, ks, r[p].kind))))
      && (forall k :: LinesUnder(lines, ks, k) != [] ==> exists p :: 0 <= p < |r| && r[p].kind == k)
  {
    var ks := Kinds(lines);
    assert SectionsOf(lines) == SectionsWith(lines, ks);
    SectionsWithLinesUnder(lines, ks);
  }

  /** Sections come in the order their first header lines appear, with the
      implicit `header` section (if it holds any line) first. */
  lemma SectionsInOpeningOrder(lines: seq<string>)
    ensures var r := SectionsOf(lines); var ks := Kinds(lines);
      forall p, q :: 0 <= p < q < |r| ==> OpenRank(ks, r[p].kind) < OpenRank(ks, r[q].kind)
  {
    var ks := Kinds(lines);
    assert SectionsOf(lines) == SectionsWith(lines, ks);
    SectionsWithOrdered(lines, ks);
  }

  /** No header line is part of the body of any section. */
  lemma HeaderLinesInNoBody(lines: seq<string>, k: SectionKind)
    ensures forall x :: x in LinesUnder(lines, Kinds(lines), k) ==> HeaderKind(x).None?
  {
    LinesUnderAreBodyLines(lines, Kinds(lines), k);
  }

  /** The first word of a phrase is not empty. */
  predicate Nonblank(p: Phrase) {
    match p
    case Word(w) => w != []
    case Spaced(a, _) => a != []
  }

  /** Every alternative of the header patterns starts with a non-empty
      word. */
  lemma PatternsNonblank(k: SectionKind)
    ensures forall i :: 0 <= i < |PatternOf(k)| ==> Nonblank(PatternOf(k)[i])
  {
  }

  lemma PhraseNotInEmpty(p: Phrase, s: string)
    requires Nonblank(p) && s == []
    ensures !PhraseOccursFrom(p, s, 0)
  {
    assert !PhraseOccursFrom(p, s, 1);
  }

  lemma {:induction false} NoPatternInEmpty(ps: seq<Phrase>, s: string)
    requires s == [] && forall i :: 0 <= i < |ps| ==> Nonblank(ps[i])
    ensures !PatternOccurs(ps, s)
  {
    if |ps| > 0 {
      PhraseNotInEmpty(ps[0], s);
      NoPatternInEmpty(ps[1..], s);
    }
  }

  /** An empty line opens no section. */
  lemma EmptyLineNoHeader(line: string)
    requires line == []
    ensures HeaderKind(line) == None
  {
    assert Strip(Lower(line)) == line;
    forall j | 0 <= j < |SectionOrder| ensures !Opens(line, SectionOrder[j]) {
      PatternsNonblank(SectionOrder[j]);
      NoPatternInEmpty(PatternOf(SectionOrder[j]), line);
    }
    HeaderKindFromNone(line, 0);
  }

  /** An empty text is one empty line under `header`. */
  lemma SectionsOfEmptyText(text: string)
    requires text == []
    ensures SectionsOf(Split(text, '\n')) == [Section(Header, text)]
  {
    assert Split(text, '\n') == [text];
    EmptyLineNoHeader(text);
    SectionsOfOneLine(text);
    assert Strip(text) == text;
  }

  /** A single line that is no header makes one section, `header`. */
  lemma SectionsOfOneLine(line: string)
    requires HeaderKind(line) == None
    ensures SectionsOf([line]) == [Section(Header, Strip(line))]
  {
    KindsOfOne(line);
    SingleLineSections(line, HeaderKind(line));
    assert SectionsOf([line]) == SectionsWith([line], [HeaderKind(line)]);
  }

  lemma KindsOfOne(line: string)
    ensures Kinds([line]) == [HeaderKind(line)]
  {
  }

  lemma {:induction false} ScanExtend(lines: seq<string>, ks: seq<Option<SectionKind>>, i: nat)
    requires |ks| == |lines| && i < |lines|
    ensures ScanWith(lines[..i + 1], ks[..i + 1]) == Step(ScanWith(lines[..i], ks[..i]), lines[i], ks[i])
  {
    assert lines[..i + 1][..i] == lines[..i];
    assert ks[..i + 1][..i] == ks[..i];
  }

  /** The inner loop of extract_sections: the first section, in table order,
      whose pattern occurs in the lowered and stripped line, provided the line
      has at most five words. */
  method MatchHeader(line: string) returns (matched: Option<SectionKind>)
    ensures matched == HeaderKind(line)
  {
    var lowered := Strip(Lower(line));
    var short := WordCount(line) <= 5;
    var p := 0;
    while p < |SectionOrder|
      invariant p <= |SectionOrder|
      invariant HeaderKind(line) == HeaderKindFrom(line, p)
    {
      if PatternOccurs(PatternOf(SectionOrder[p]), lowered) && short {
        return Some(SectionOrder[p]);
      }
      p := p + 1;
    }
    return None;
  }

  /** One iteration of the outer loop, on the dictionary's fields. */
  method ScanLine(current: SectionKind, order: seq<SectionKind>, content: map<SectionKind, seq<string>>, line: string)
    returns (current': SectionKind, order': seq<SectionKind>, content': map<SectionKind, seq<string>>)
    requires WellFormed(ScanState(current, order, content))
    ensures ScanState(current', order', content') == Step(ScanState(current, order, content), line, HeaderKind(line))
  {
    var matched := MatchHeader(line);
    current', order', content' := current, order, content;
    if matched.Some? {
      current' := matched.value;
      if current' !in content' {
        order' := order' + [current'];
        content' := content'[current' := []];
      }
    } else {
      content' := content'[current' := content'[current'] + [line]];
    }
  }

  /** extract_sections: scans the lines, then keeps the sections that hold
      some line. */
  method ExtractSections(text: string) returns (sections: seq<Section>)
    ensures sections == SectionsOf(Split(text, '\n'))
  {
    var lines := Split(text, '\n');
    ghost var ks := Kinds(lines);
    var current, order, content := Header, [Header], map[Header := []];
    assert lines[..0] == [] && ks[..0] == [];
    for i := 0 to |lines|
      invariant ScanWith(lines[..i], ks[..i]) == ScanState(current, order, content)
    {
      current, order, content := ScanLine(current, order, content, lines[i]);
      ScanExtend(lines, ks, i);
    }
    ScanComplete(lines, ks, ScanState(current, order, content));
    sections := Assemble(order, content);
  }

  /** The scan of every line, assembled, gives the sections of the lines. */
  lemma ScanComplete(lines: seq<string>, ks: seq<Option<SectionKind>>, st: ScanState)
    requires ks == Kinds(lines) && ScanWith(lines[..|lines|], ks[..|lines|]) == st
    ensures WellFormed(st) && SectionsOf(lines) == Assemble(st.order, st.content)
  {
    assert lines[..|lines|] == lines && ks[..|lines|] == ks;
  }

  /** A single line makes one section, `header`, holding the stripped line,
      unless the line is a header, which leaves every section empty. */
  lemma SingleLineSections(line: string, hk: Option<SectionKind>)
    ensures SectionsWith([line], [hk]) == if hk.Some? then [] else [Section(Header, Strip(line))]
  {
    assert [line][..0] == [] && [hk][..0] == [];
    var st0 := ScanWith([], []);
    assert st0 == ScanState(Header, [Header], map[Header := []]);
    var st := ScanWith([line], [hk]);
    assert st == Step(st0, line, hk);
    if hk.Some? {
      assert forall k :: k in st.content ==> st.content[k] == [];
      assert KeysWithLines(st.order, st.content) == [] by {
        KeysWithLinesEmpty(st.order, st.content);
      }
    } else {
      assert st.order == [Header] && st.content[Header] == [line];
      assert KeysWithLines(st.order, st.content) == [Header];
      assert JoinWith("\n", [line]) == line;
      var r := SectionsWith([line], [hk]);
      assert |r| == 1 && r[0] == Section(Header, Strip(line));
    }
  }

  lemma {:induction false} KeysWithLinesEmpty(order: seq<SectionKind>, content: map<SectionKind, seq<string>>)
    requires forall k :: k in order ==> k in content && content[k] == []
    ensures KeysWithLines(order, content) == []
  {
    if |order| > 0 {
      KeysWithLinesEmpty(order[1..], content);
    }
  }

  // ===========================================================================
  // preprocess_resume_text

  /** The dictionary preprocess_resume_text returns. */
  datatype Preprocessed = Preprocessed(cleaned: string, sections: seq<Section>, contact: ContactInfo)

  /** Cleans the text, then splits the cleaned text into sections and
      extracts contact details from it. */
  function PreprocessResumeText(text: string): Preprocessed {
    var cleaned := CleanText(text);
    Preprocessed(cleaned, SectionsOf(Split(cleaned, '\n')), ExtractContactInfo(cleaned))
  }

  /** A trimmed line without line breaks makes no section when it is a
      header line, and otherwise the single `header` section holding it. */
  lemma OneLineSections(line: string)
    requires '\n' !in line && Trimmed(line)
    ensures SectionsOf(Split(line, '\n')) == if HeaderKind(line).Some? then [] else [Section(Header, line)]
  {
    if HeaderKind(line).Some? {
      HeaderLineAlone(line);
    } else {
      PlainLineAlone(line);
    }
  }

  /** A header line without line breaks makes no section. */
  lemma HeaderLineAlone(line: string)
    requires '\n' !in line && HeaderKind(line).Some?
    ensures SectionsOf(Split(line, '\n')) == []
  {
    SplitWithoutSeparator(line, '\n');
    HeaderLineSections(line);
  }

  /** A trimmed non-header line without line breaks makes one `header`
      section holding it. */
  lemma PlainLineAlone(line: string)
    requires '\n' !in line && Trimmed(line) && HeaderKind(line).None?
    ensures SectionsOf(Split(line, '\n')) == [Section(Header, line)]
  {
    SplitWithoutSeparator(line, '\n');
    PlainLineSection(line);
  }

  /** A trimmed non-header line alone makes one `header` section holding
      it. */
  lemma PlainLineSection(line: string)
    requires Trimmed(line) && HeaderKind(line).None?
    ensures SectionsOf([line]) == [Section(Header, line)]
  {
    SectionsOfOneLine(line);
    StripTrimmed(line);
  }

  /** Stripping a trimmed line leaves it unchanged. */
  lemma StripTrimmed(line: string)
    requires Trimmed(line)
    ensures Strip(line) == line
  {
  }

  /** A header line alone makes no section. */
  lemma HeaderLineSections(line: string)
    requires HeaderKind(line).Some?
    ensures SectionsOf([line]) == []
  {
    KindsOfOne(line);
    SingleLineSections(line, HeaderKind(line));
    assert SectionsOf([line]) == SectionsWith([line], [HeaderKind(line)]);
  }

  /** Cleaning turns every line break into a space, so the sections see one
      line: either it is a header line and no section holds anything, or it
      all lands under `header`. */
  lemma PreprocessedSections(text: string)
    ensures var r := PreprocessResumeText(text);
      r.sections == if HeaderKind(r.cleaned).Some? then [] else [Section(Header, r.cleaned)]
  {
    OneLineSections(CleanText(text));
  }

  /** Only `header` can appear among the preprocessed sections. */
  lemma PreprocessedSectionsAreHeader(text: string)
    ensures |PreprocessResumeText(text).sections| <= 1
    ensures forall p :: 0 <= p < |PreprocessResumeText(text).sections| ==>
      PreprocessResumeText(text).sections[p].kind == Header
  {
    var r := PreprocessResumeText(text);
    PreprocessedSections(text);
    AtMostHeader(r.sections, HeaderKind(r.cleaned).Some?, r.cleaned);
  }

  lemma AtMostHeader(sections: seq<Section>, isHeader: bool, cleaned: string)
    requires sections == if isHeader then [] else [Section(Header, cleaned)]
    ensures |sections| <= 1 && forall p :: 0 <= p < |sections| ==> sections[p].kind == Header
  {
  }
}
