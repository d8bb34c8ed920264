/** The pieces of Python's `re` engine that the pipeline's fixed regular
    expressions are built from. Each expression is written by hand, in the
    module that uses it, as a function giving what the engine matches at a
    position (trying alternatives and quantifiers in the engine's order);
    `re.search` is then the first position, scanning left to right, where
    that function yields something. */
module Patterns {
  import opened Text

  /** `w` occurs in `s` at position `k`. */
  predicate LitAt(s: string, w: string, k: nat) {
    k + |w| <= |s| && s[k..k + |w|] == w
  }

  /** The end of the run of characters satisfying `p` that starts at `i`: a
      greedy `[...]*` stops exactly there. */
  function RunEnd(s: string, i: nat, p: char -> bool): (e: nat)
    requires i <= |s|
    decreases |s| - i
    ensures i <= e <= |s|
    ensures forall j :: i <= j < e ==> p(s[j])
    ensures e == |s| || !p(s[e])
  {
    if i < |s| && p(s[i]) then RunEnd(s, i + 1, p) else i
  }

  /** Where an optional `[...]?` of class `p` leaves off when it is tried at
      `i`: past `s[i]` when that character is of the class, at `i` otherwise. */
  function SkipOptional(s: string, i: nat, p: char -> bool): (j: nat)
    requires i <= |s|
    ensures j == i || (j == i + 1 && i < |s| && p(s[i]))
    ensures j == i ==> i == |s| || !p(s[i])
  {
    if i < |s| && p(s[i]) then i + 1 else i
  }

  predicate AllDigits(t: string) {
    forall i :: 0 <= i < |t| ==> IsDigit(t[i])
  }

  /** `\d{n}` at position `i`. */
  predicate DigitsAt(s: string, i: nat, n: nat) {
    i + n <= |s| && AllDigits(s[i..i + n])
  }

  /** `\b` at position `i`: a word character on exactly one side of it. */
  predicate BoundaryAt(s: string, i: nat)
    requires i <= |s|
  {
    (i > 0 && IsWordChar(s[i - 1])) != (i < |s| && IsWordChar(s[i]))
  }

  /** `w` occurs in `s` at position `k`, compared character by character. */
  predicate WordAt(s: string, w: string, k: nat)
    decreases |w|
  {
    k + |w| <= |s| && (|w| == 0 || (s[k] == w[0] && WordAt(s, w[1..], k + 1)))
  }

  /** The lower-case text `w` occurs at position `k` of `s`, ignoring case. */
  predicate WordAtIgnoringCase(s: string, w: string, k: nat)
    decreases |w|
  {
    k + |w| <= |s| && (|w| == 0 || (LowerChar(s[k]) == w[0] && WordAtIgnoringCase(s, w[1..], k + 1)))
  }

  lemma {:induction false} WordAtIgnoringCaseLower(s: string, w: string, k: nat)
    requires WordAtIgnoringCase(s, w, k)
    decreases |w|
    ensures k + |w| <= |s| && Lower(s[k..k + |w|]) == w
  {
    if |w| > 0 {
      WordAtIgnoringCaseLower(s, w[1..], k + 1);
      assert Lower(s[k..k + |w|]) == [LowerChar(s[k])] + Lower(s[k + 1..k + |w|]);
    }
  }

  /** `WordAt` is slice equality, stated without the slice. */
  lemma {:induction false} WordAtIsLit(s: string, w: string, k: nat)
    decreases |w|
    ensures WordAt(s, w, k) <==> LitAt(s, w, k)
  {
    if |w| > 0 && k + |w| <= |s| {
      WordAtIsLit(s, w[1..], k + 1);
      assert s[k..k + |w|] == [s[k]] + s[k + 1..k + |w|];
      assert w == [w[0]] + w[1..];
    }
  }

  /** `w in s` for strings, scanning for `w` from position `k`. */
  predicate OccursFrom(s: string, w: string, k: nat)
    decreases |s| - k
  {
    k + |w| <= |s| && (WordAt(s, w, k) || (k < |s| && OccursFrom(s, w, k + 1)))
  }

  /** The scan finds `w` exactly when `w` sits at some position from `k` on. */
  lemma {:induction false} OccursFromExists(s: string, w: string, k: nat)
    decreases |s| - k
    ensures OccursFrom(s, w, k) <==> exists j :: k <= j && j + |w| <= |s| && WordAt(s, w, j)
  {
    if k + |w| <= |s| {
      if WordAt(s, w, k) {
        assert OccursFrom(s, w, k);
        assert exists j :: k <= j && j + |w| <= |s| && WordAt(s, w, j);
      } else {
        OccursFromExists(s, w, k + 1);
        forall j | k <= j && j + |w| <= |s| && WordAt(s, w, j) ensures k + 1 <= j { }
      }
    }
  }
}
