/** parser/analyzer.py: the ResumeAnalyzer, which pulls a name, a skill list,
    education entries and work-experience entries out of resume text by
    fixed keyword tables and line windows. */
module Analyzer {
  import opened Text
  import opened Patterns
  import Preprocessor

  // ===========================================================================
  // Vocabulary

  /** The skill table, category by category in the dictionary's order:
      programming, web, database, cloud, ml_ai, tools, soft_skills. */
  const CommonSkills: seq<seq<string>> := [
    ["python", "java", "javascript", "c++", "c#", "ruby", "php",
     "swift", "kotlin", "go", "rust", "typescript", "r", "matlab"],
    ["html", "css", "react", "angular", "vue", "node.js", "django",
     "flask", "fastapi", "express", "spring", "asp.net", "rest api"],
    ["sql", "mysql", "postgresql", "mongodb", "redis", "oracle",
     "sqlite", "cassandra", "dynamodb"],
    ["aws", "azure", "gcp", "docker", "kubernetes", "terraform",
     "jenkins", "ci/cd"],
    ["machine learning", "deep learning", "tensorflow", "pytorch",
     "scikit-learn", "keras", "nlp", "computer vision", "opencv"],
    ["git", "github", "gitlab", "jira", "confluence", "slack",
     "visual studio", "vscode", "intellij"],
    ["leadership", "communication", "teamwork", "problem solving",
     "critical thinking", "time management", "agile", "scrum"]
  ]

  /** The categories' lists one after the other, as `extend` builds them. */
  function Flatten(groups: seq<seq<string>>): seq<string> {
    if |groups| == 0 then [] else Flatten(groups[..|groups| - 1]) + groups[|groups| - 1]
  }

  /** A skill is in the flattened list exactly when some category holds it. */
  lemma {:induction false} FlattenMembers(groups: seq<seq<string>>, x: string)
    ensures x in Flatten(groups) <==> exists g :: 0 <= g < |groups| && x in groups[g]
  {
    if |groups| > 0 {
      var init := groups[..|groups| - 1];
      FlattenMembers(init, x);
      if exists g :: 0 <= g < |init| && x in init[g] {
        var g :| 0 <= g < |init| && x in init[g];
        assert groups[g] == init[g];
      }
      if exists g :: 0 <= g < |groups| && x in groups[g] {
        var g :| 0 <= g < |groups| && x in groups[g];
        if g < |init| { assert init[g] == groups[g]; }
      }
    }
  }

  /** The flattened skill list has seventy entries. */
  lemma VocabularySize()
    ensures |Flatten(CommonSkills)| == 70
  {
    var g := CommonSkills;
    assert g[..0] == [];
    assert g[..1][..0] == [] && g[..2][..1] == g[..1] && g[..3][..2] == g[..2];
    assert g[..4][..3] == g[..3] && g[..5][..4] == g[..4] && g[..6][..5] == g[..5];
    assert g[..7][..6] == g[..6] && g[..7] == g;
    assert |Flatten(g[..1])| == 14;
    assert |Flatten(g[..2])| == 27;
    assert |Flatten(g[..3])| == 36;
    assert |Flatten(g[..4])| == 44;
    assert |Flatten(g[..5])| == 53;
    assert |Flatten(g[..6])| == 62;
  }

  // ===========================================================================
  // extract_skills: `\b` + re.escape(skill.lower()) + `\b`, searched in the
  // lowered text

  /** The bounded pattern for `w` matches at `k` of `t`. */
  predicate BoundedAt(t: string, w: string, k: nat) {
    k + |w| <= |t| && BoundaryAt(t, k) && WordAt(t, w, k) && BoundaryAt(t, k + |w|)
  }

  /** `re.search` of the bounded pattern for `w`, scanning from `k`. */
  predicate BoundedFrom(t: string, w: string, k: nat)
    decreases |t| - k
  {
    k <= |t| && (BoundedAt(t, w, k) || (k < |t| && BoundedFrom(t, w, k + 1)))
  }

  /** The search succeeds exactly when the pattern matches at some position. */
  lemma {:induction false} BoundedFromExists(t: string, w: string, k: nat)
    decreases |t| - k
    ensures BoundedFrom(t, w, k) <==> exists j :: k <= j <= |t| && BoundedAt(t, w, j)
  {
    if k <= |t| {
      if BoundedAt(t, w, k) {
        assert exists j :: k <= j <= |t| && BoundedAt(t, w, j);
      } else if k < |t| {
        BoundedFromExists(t, w, k + 1);
        forall j | k <= j <= |t| && BoundedAt(t, w, j) ensures k + 1 <= j { }
      }
    }
  }

  /** The skill is found in the lowered text `t`. */
  predicate SkillMatches(t: string, skill: string) {
    BoundedFrom(t, Lower(skill), 0)
  }

  /** The title-cased skills of `skills` that match in `t`, in list order,
      repeats included. */
  function Matched(skills: seq<string>, t: string): seq<string> {
    if |skills| == 0 then []
    else
      var last := skills[|skills| - 1];
      Matched(skills[..|skills| - 1], t) + if SkillMatches(t, last) then [Title(last)] else []
  }

  /** The skill list extract_skills returns for `text`: the matches, then
      `sorted(set(...))`. */
  function SkillsIn(vocabulary: seq<string>, text: string): seq<string> {
    SortedSet(Matched(vocabulary, Lower(text)))
  }

  lemma {:induction false} MatchedLength(skills: seq<string>, t: string)
    ensures |Matched(skills, t)| <= |skills|
  {
    if |skills| > 0 { MatchedLength(skills[..|skills| - 1], t); }
  }

  lemma {:induction false} MatchedMembers(skills: seq<string>, t: string, y: string)
    ensures y in Matched(skills, t) <==>
      exists i :: 0 <= i < |skills| && y == Title(skills[i]) && SkillMatches(t, skills[i])
  {
    if |skills| > 0 {
      var init := skills[..|skills| - 1];
      MatchedMembers(init, t, y);
      if exists i :: 0 <= i < |init| && y == Title(init[i]) && SkillMatches(t, init[i]) {
        var i :| 0 <= i < |init| && y == Title(init[i]) && SkillMatches(t, init[i]);
        assert skills[i] == init[i];
      }
      if exists i :: 0 <= i < |skills| && y == Title(skills[i]) && SkillMatches(t, skills[i]) {
        var i :| 0 <= i < |skills| && y == Title(skills[i]) && SkillMatches(t, skills[i]);
        if i < |init| { assert init[i] == skills[i]; }
      }
    }
  }

  /** The result is strictly ascending, hence free of repeats, and has at
      most one element per vocabulary entry. */
  lemma SkillsAscending(vocabulary: seq<string>, text: string)
    ensures StrictlyAscending(SkillsIn(vocabulary, text))
    ensures |SkillsIn(vocabulary, text)| <= |vocabulary|
  {
    MatchedLength(vocabulary, Lower(text));
  }

  /** With the analyzer's vocabulary: at most seventy skills. */
  lemma SkillsAtMostSeventy(text: string)
    ensures |SkillsIn(Flatten(CommonSkills), text)| <= 70
  {
    SkillsAscending(Flatten(CommonSkills), text);
    VocabularySize();
  }

  /** A string is reported exactly when it is the title case of a vocabulary
      entry whose lowered form matches, between word boundaries, somewhere in
      the lowered text. */
  lemma SkillsMembers(vocabulary: seq<string>, text: string, y: string)
    ensures y in SkillsIn(vocabulary, text) <==>
      exists i, k :: 0 <= i < |vocabulary| && y == Title(vocabulary[i])
        && 0 <= k <= |Lower(text)| && BoundedAt(Lower(text), Lower(vocabulary[i]), k)
  {
    var t := Lower(text);
    MatchedMembers(vocabulary, t, y);
    forall i | 0 <= i < |vocabulary|
      ensures SkillMatches(t, vocabulary[i]) <==> exists k :: 0 <= k <= |t| && BoundedAt(t, Lower(vocabulary[i]), k)
    {
      BoundedFromExists(t, Lower(vocabulary[i]), 0);
    }
  }

  /** The text is lowered before the search, so its case does not matter. */
  lemma SkillsIgnoreCase(vocabulary: seq<string>, text: string)
    ensures SkillsIn(vocabulary, Lower(text)) == SkillsIn(vocabulary, text)
  {
    LowerIdempotent(text);
  }

  /** A `\b` after an entry that ends in a non-word character, such as `c++`
      or `c#`, needs a word character right after the entry in the text. */
  lemma SymbolEndNeedsWordAfter(t: string, w: string, k: nat)
    requires |w| > 0 && !IsWordChar(w[|w| - 1])
    requires BoundedAt(t, w, k)
    ensures k + |w| < |t| && IsWordChar(t[k + |w|])
  {
    WordAtIsLit(t, w, k);
    assert t[k + |w| - 1] == t[k..k + |w|][|w| - 1];
  }

  /** `str.title()` starts a new capital after every non-letter. */
  lemma TitleNodeJs()
    ensures Title("node.js") == "Node.Js"
  {
  }

  /** `str.title()` of a lower-case word capitalises its first letter. */
  lemma TitleWord(w: string, t: string)
    requires |w| > 0 && IsLowerLetter(w[0]) && |t| == |w| && t[0] == UpperChar(w[0])
    requires forall i :: 1 <= i < |w| ==> IsLowerLetter(w[i]) && t[i] == w[i]
    ensures Title(w) == t
  {
  }

  /** The search from `k` reaches a match further on. */
  lemma {:induction false} BoundedFromReach(t: string, w: string, k: nat, j: nat)
    requires k <= j <= |t| && BoundedFrom(t, w, j)
    decreases j - k
    ensures BoundedFrom(t, w, k)
  {
    if k < j {
      BoundedFromReach(t, w, k + 1, j);
    }
  }

  /** Two entries that both match are reported in vocabulary order. */
  lemma MatchedTwo(vocabulary: seq<string>, t: string)
    requires |vocabulary| == 2 && SkillMatches(t, vocabulary[0]) && SkillMatches(t, vocabulary[1])
    ensures Matched(vocabulary, t) == [Title(vocabulary[0]), Title(vocabulary[1])]
  {
    var first := vocabulary[..1];
    assert first[..0] == [] && first[0] == vocabulary[0];
    assert Matched(first, t) == [Title(vocabulary[0])];
    assert vocabulary[..|vocabulary| - 1] == first;
  }

  lemma LowerSkillsText(text: string)
    requires text == "Python, React, python"
    ensures Lower(text) == "python, react, python"
  {
    var l := Lower(text);
    assert forall i :: 0 <= i < |l| ==> l[i] == LowerChar(text[i]);
  }

  lemma PythonFound(t: string)
    requires t == "python, react, python"
    ensures SkillMatches(t, "python")
  {
    assert Lower("python") == "python";
    WordAtIsLit(t, "python", 0);
    assert t[0..6] == "python";
    assert BoundedAt(t, "python", 0);
  }

  lemma ReactFound(t: string)
    requires t == "python, react, python"
    ensures SkillMatches(t, "react")
  {
    assert Lower("react") == "react";
    WordAtIsLit(t, "react", 8);
    assert t[8..13] == "react";
    assert BoundedAt(t, "react", 8);
    BoundedFromReach(t, "react", 0, 8);
  }

  /** Each entry is searched for once, so a skill named twice in the text is
      reported once: with the entries "python" and "react", the text
      "Python, React, python" gives ["Python", "React"]. */
  lemma SkillsExample(text: string, vocabulary: seq<string>)
    requires text == "Python, React, python" && vocabulary == ["python", "react"]
    ensures SkillsIn(vocabulary, text) == ["Python", "React"]
  {
    LowerSkillsText(text);
    PythonFound(Lower(text));
    ReactFound(Lower(text));
    TitleWord("python", "Python");
    TitleWord("react", "React");
    MatchedTwo(vocabulary, Lower(text));
    SortedPair("Python", "React");
  }

  // ===========================================================================
  // extract_name

  predicate IsDashOrDot(c: char) { c == '-' || c == '.' }

  /** `\d{3}[-.]?\d{3}[-.]?\d{4}` at `k`. A separator is taken exactly when
      present: a digit never matches `[-.]`, and `\d` never matches a
      separator, so backtracking offers nothing else. */
  predicate PhoneRunAt(s: string, k: nat) {
    DigitsAt(s, k, 3) &&
    var a := SkipOptional(s, k + 3, IsDashOrDot);
    DigitsAt(s, a, 3) &&
    var b := SkipOptional(s, a + 3, IsDashOrDot);
    DigitsAt(s, b, 4)
  }

  /** `@|http|www|\d{3}[-.]?\d{3}[-.]?\d{4}` at `k`. */
  predicate ContactMarkAt(s: string, k: nat) {
    (k < |s| && s[k] == '@') || WordAt(s, "http", k) || WordAt(s, "www", k) || PhoneRunAt(s, k)
  }

  /** `re.search` of that pattern, scanning from `k`. */
  predicate ContactMarkFrom(s: string, k: nat)
    decreases |s| - k
  {
    k < |s| && (ContactMarkAt(s, k) || ContactMarkFrom(s, k + 1))
  }

  /** The test one stripped line must pass to be taken as the name. */
  predicate NameLike(line: string) {
    line != [] && WordCount(line) <= 4 && |line| < 50 && !ContactMarkFrom(Lower(line), 0)
  }

  /** The stripped line, when it passes the test. */
  function NameCandidate(line: string): Option<string> {
    var s := Strip(line);
    if NameLike(s) then Some(s) else None
  }

  /** The candidates of the first five lines, `lines[:5]`. */
  function NameCandidates(lines: seq<string>): (cs: seq<Option<string>>)
    ensures |cs| == if |lines| < 5 then |lines| else 5
  {
    seq(if |lines| < 5 then |lines| else 5, i requires 0 <= i < |lines| && i < 5 => NameCandidate(lines[i]))
  }

  /** The first 500 characters of a text, `text[:500]`. */
  function Head500(text: string): (r: string)
    ensures |r| <= 500 && |r| <= |text| && r == text[..|r|]
    ensures |text| <= 500 ==> r == text
  {
    if |text| <= 500 then text else text[..500]
  }

  /** extract_name: the first line among the first five whose stripped form
      passes the test, else the entity recogniser `nlp` on the first 500
      characters. */
  function NameOf(text: string, nlp: string -> Option<string>): Option<string> {
    match FirstSome(NameCandidates(Split(text, '\n')), 0)
    case Some(name) => Some(name)
    case None => nlp(Head500(text))
  }

  /** When none of the first five stripped lines passes, the name is whatever
      the recogniser reports. */
  lemma NameFallsBack(text: string, nlp: string -> Option<string>)
    requires forall j :: 0 <= j < |Split(text, '\n')| && j < 5 ==> !NameLike(Strip(Split(text, '\n')[j]))
    ensures NameOf(text, nlp) == nlp(Head500(text))
  {
    var cs := NameCandidates(Split(text, '\n'));
    assert forall j :: 0 <= j < |cs| ==> cs[j].None?;
    FirstSomeNone(cs, 0);
  }

  /** Otherwise the name is the first stripped line among the first five that
      passes the test. */
  lemma NamePicksFirstLine(text: string, nlp: string -> Option<string>, j: nat)
    requires j < |Split(text, '\n')| && j < 5 && NameLike(Strip(Split(text, '\n')[j]))
    requires forall q :: 0 <= q < j ==> !NameLike(Strip(Split(text, '\n')[q]))
    ensures NameOf(text, nlp) == Some(Strip(Split(text, '\n')[j]))
  {
    var cs := NameCandidates(Split(text, '\n'));
    assert cs[j].Some?;
    assert forall q :: 0 <= q < j ==> cs[q].None?;
    FirstSomeAt(cs, 0, j);
  }

  // ===========================================================================
  // The first present value in a list of options

  /** The first present value among `xs[i..]`. */
  function FirstSome<T>(xs: seq<Option<T>>, i: nat): Option<T>
    decreases |xs| - i
  {
    if i >= |xs| then None else if xs[i].Some? then xs[i] else FirstSome(xs, i + 1)
  }

  /** Nothing is found exactly when every value is absent. */
  lemma {:induction false} FirstSomeNone<T>(xs: seq<Option<T>>, i: nat)
    decreases |xs| - i
    ensures FirstSome(xs, i).None? <==> forall j :: i <= j < |xs| ==> xs[j].None?
  {
    if i < |xs| && xs[i].None? { FirstSomeNone(xs, i + 1); }
  }

  /** The value at `j` is found when `j` holds the first present value. */
  lemma {:induction false} FirstSomeAt<T>(xs: seq<Option<T>>, i: nat, j: nat)
    requires i <= j < |xs| && xs[j].Some?
    requires forall q :: i <= q < j ==> xs[q].None?
    decreases j - i
    ensures FirstSome(xs, i) == xs[j]
  {
    if i < j { FirstSomeAt(xs, i + 1, j); }
  }

  /** What is found is some present value with only absent ones before it. */
  lemma {:induction false} FirstSomeFirst<T>(xs: seq<Option<T>>, i: nat)
    decreases |xs| - i
    ensures FirstSome(xs, i).Some? ==>
      exists j :: i <= j < |xs| && FirstSome(xs, i) == xs[j] && forall q :: i <= q < j ==> xs[q].None?
  {
    if i < |xs| {
      if xs[i].Some? {
        assert FirstSome(xs, i) == xs[i];
      } else if FirstSome(xs, i + 1).Some? {
        FirstSomeFirst(xs, i + 1);
        var j :| i + 1 <= j < |xs| && FirstSome(xs, i + 1) == xs[j] && forall q :: i + 1 <= q < j ==> xs[q].None?;
        assert forall q :: i <= q < j ==> xs[q].None?;
      }
    }
  }

  // ===========================================================================
  // One entry per trigger line

  /** The positions of the set flags, in increasing order. */
  function TrueIndices(flags: seq<bool>): (r: seq<nat>)
    ensures |r| <= |flags|
    ensures forall p :: 0 <= p < |r| ==> r[p] < |flags| && flags[r[p]]
    ensures forall p, q :: 0 <= p < q < |r| ==> r[p] < r[q]
    ensures forall i :: 0 <= i < |flags| && flags[i] ==> i in r
  {
    if |flags| == 0 then []
    else
      var r := TrueIndices(flags[..|flags| - 1]);
      IndicesAppend(flags, r);
      r + if flags[|flags| - 1] then [|flags| - 1] else []
  }

  /** The step of TrueIndices: the positions of the flags before the last
      one, then the last position when its flag is set. */
  lemma IndicesAppend(flags: seq<bool>, r: seq<nat>)
    requires |flags| > 0
    requires var init := flags[..|flags| - 1];
      && |r| <= |init|
      && (forall p :: 0 <= p < |r| ==> r[p] < |init| && init[r[p]])
      && (forall p, q :: 0 <= p < q < |r| ==> r[p] < r[q])
      && (forall i :: 0 <= i < |init| && init[i] ==> i in r)
    ensures var r' := r + if flags[|flags| - 1] then [|flags| - 1] else [];
      && |r'| <= |flags|
      && (forall p :: 0 <= p < |r'| ==> r'[p] < |flags| && flags[r'[p]])
      && (forall p, q :: 0 <= p < q < |r'| ==> r'[p] < r'[q])
      && (forall i :: 0 <= i < |flags| && flags[i] ==> i in r')
  {
    var init := flags[..|flags| - 1];
    assert forall p :: 0 <= p < |r| ==> flags[r[p]] == init[r[p]];
  }

  /** The elements of `xs` whose flag is set, in order: the entries an
      extractor appends, one per trigger line. */
  function Select<T>(flags: seq<bool>, xs: seq<T>): seq<T>
    requires |flags| == |xs|
  {
    if |flags| == 0 then []
    else
      var n := |flags| - 1;
      Select(flags[..n], xs[..n]) + if flags[n] then [xs[n]] else []
  }

  /** The selected elements are exactly the elements at the flagged
      positions, in order. */
  lemma {:induction false} SelectByIndices<T>(flags: seq<bool>, xs: seq<T>)
    requires |flags| == |xs|
    ensures |Select(flags, xs)| == |TrueIndices(flags)|
    ensures forall p :: 0 <= p < |TrueIndices(flags)| ==> Select(flags, xs)[p] == xs[TrueIndices(flags)[p]]
  {
    if |flags| > 0 {
      var n := |flags| - 1;
      SelectByIndices(flags[..n], xs[..n]);
      var r := TrueIndices(flags[..n]);
      assert forall p :: 0 <= p < |r| ==> xs[..n][r[p]] == xs[r[p]];
    }
  }

  /** Selecting over all the lines is selecting over the whole lists. */
  lemma SelectWhole<T>(flags: seq<bool>, xs: seq<T>)
    requires |flags| == |xs|
    ensures Select(flags[..|flags|], xs[..|xs|]) == Select(flags, xs)
  {
    assert flags[..|flags|] == flags && xs[..|xs|] == xs;
  }

  /** Appending one more line appends its entry when its flag is set. */
  lemma SelectExtend<T>(flags: seq<bool>, xs: seq<T>, i: nat, x: Option<T>)
    requires |flags| == |xs| && i < |flags|
    requires x == if flags[i] then Some(xs[i]) else None
    ensures Select(flags[..i + 1], xs[..i + 1]) == Select(flags[..i], xs[..i]) + if x.Some? then [x.value] else []
  {
    assert flags[..i + 1][..i] == flags[..i];
    assert xs[..i + 1][..i] == xs[..i];
  }

  // ===========================================================================
  // extract_education

  /** One alternative of a degree pattern, written with each character
      standing for itself and `?` making the character before it optional
      (`b.?s.?` stands for `b\.?s\.?`): it matches at `k` along some way of
      taking or skipping the optional characters. */
  predicate AltAt(s: string, a: string, k: nat)
    decreases |a|
  {
    if |a| == 0 then true
    else if |a| >= 2 && a[1] == '?' then
      (k < |s| && s[k] == a[0] && AltAt(s, a[2..], k + 1)) || AltAt(s, a[2..], k)
    else k < |s| && s[k] == a[0] && AltAt(s, a[1..], k + 1)
  }

  /** Some alternative of the pattern matches at `k`. */
  predicate AnyAltAt(s: string, alts: seq<string>, k: nat) {
    exists p :: 0 <= p < |alts| && AltAt(s, alts[p], k)
  }

  /** `re.search` of an alternation, scanning from `k`. */
  predicate SearchFrom(s: string, alts: seq<string>, k: nat)
    decreases |s| - k
  {
    k <= |s| && (AnyAltAt(s, alts, k) || (k < |s| && SearchFrom(s, alts, k + 1)))
  }

  /** The search succeeds when an alternative matches at any position from
      `k` on. */
  lemma {:induction false} SearchFromReaches(s: string, alts: seq<string>, k: nat, j: nat)
    requires k <= j <= |s| && AnyAltAt(s, alts, j)
    decreases j - k
    ensures SearchFrom(s, alts, k)
  {
    if k < j { SearchFromReaches(s, alts, k + 1, j); }
  }

  /** The five degree patterns, none of them anchored to word boundaries. */
  const DegreePatterns: seq<seq<string>> := [
    ["bachelor", "b.?s.?", "b.?a.?", "b.?tech", "b.?e.?"],
    ["master", "m.?s.?", "m.?a.?", "m.?tech", "m.?e.?", "mba"],
    ["phd", "ph.?d.?", "doctorate"],
    ["associate", "a.?s.?", "a.?a.?"],
    ["diploma", "certificate"]
  ]

  /** Some degree pattern occurs in the lowered line. */
  predicate IsDegreeLine(line: string) {
    exists p :: 0 <= p < |DegreePatterns| && SearchFrom(Lower(line), DegreePatterns[p], 0)
  }

  /** The patterns are not anchored: a lowered line holding `b` then `a`
      anywhere, as in "Database Administrator", is a degree line. */
  lemma BaIsADegree(line: string, k: nat)
    requires k + 2 <= |line| && Lower(line)[k] == 'b' && Lower(line)[k + 1] == 'a'
    ensures IsDegreeLine(line)
  {
    var s := Lower(line);
    var alts := DegreePatterns[0];
    assert AltAt(s, "b.?a.?", k) by {
      assert "b.?a.?"[1..] == ".?a.?" && ".?a.?"[2..] == "a.?";
      assert "a.?"[1..] == ".?" && ".?"[2..] == "";
      assert AltAt(s, ".?", k + 2);
      assert AltAt(s, "a.?", k + 1);
      assert AltAt(s, ".?a.?", k + 1);
    }
    assert alts[2] == "b.?a.?";
    SearchFromReaches(s, alts, 0, k);
  }

  /** The fields pattern's alternatives, in order. */
  const FieldWords: seq<string> := [
    "computer science", "engineering", "business", "arts", "science", "mathematics",
    "physics", "chemistry", "biology", "economics", "finance", "marketing", "management"
  ]

  /** The first of the words `ws` that occurs at `k`. */
  function WordChoiceAt(s: string, ws: seq<string>, k: nat): (r: Option<string>)
    ensures r.Some? ==> r.value in ws && WordAt(s, r.value, k)
    ensures r.None? ==> forall p :: 0 <= p < |ws| ==> !WordAt(s, ws[p], k)
  {
    if |ws| == 0 then None
    else if WordAt(s, ws[0], k) then Some(ws[0])
    else
      var r := WordChoiceAt(s, ws[1..], k);
      assert forall p :: 1 <= p < |ws| ==> ws[p] == ws[1..][p - 1];
      r
  }

  /** The leftmost position from `k` on where one of the words `ws` occurs. */
  function FirstWordFrom(s: string, ws: seq<string>, k: nat): (r: Option<nat>)
    decreases |s| + 1 - k
    ensures r.Some? ==> k <= r.value <= |s| && WordChoiceAt(s, ws, r.value).Some?
    ensures r.Some? ==> forall j :: k <= j < r.value ==> WordChoiceAt(s, ws, j).None?
    ensures r.None? ==> forall j :: k <= j <= |s| ==> WordChoiceAt(s, ws, j).None?
  {
    if k > |s| then None
    else if WordChoiceAt(s, ws, k).Some? then Some(k)
    else FirstWordFrom(s, ws, k + 1)
  }

  /** `re.search` of an alternation of words: the first word, in list order,
      at the leftmost position where any of them occurs. */
  function SearchWords(s: string, ws: seq<string>): Option<string> {
    match FirstWordFrom(s, ws, 0)
    case Some(j) => WordChoiceAt(s, ws, j)
    case None => None
  }

  /** The search yields one of the words, occurring at a position before
      which none of them starts; it yields nothing when none occurs. */
  lemma SearchWordsLeftmost(s: string, ws: seq<string>)
    ensures SearchWords(s, ws).Some? ==>
      exists j, p :: 0 <= j <= |s| && 0 <= p < |ws| && SearchWords(s, ws) == Some(ws[p])
        && WordAt(s, ws[p], j)
        && forall i, q :: 0 <= i < j && 0 <= q < |ws| ==> !WordAt(s, ws[q], i)
    ensures SearchWords(s, ws).None? ==>
      forall i, q :: 0 <= i <= |s| && 0 <= q < |ws| ==> !WordAt(s, ws[q], i)
  {
    var r := FirstWordFrom(s, ws, 0);
    var bound := if r.Some? then r.value else |s| + 1;
    forall i, q | 0 <= i < bound && 0 <= q < |ws| ensures !WordAt(s, ws[q], i) {
      assert WordChoiceAt(s, ws, i).None?;
    }
    if r.Some? {
      var w := WordChoiceAt(s, ws, r.value).value;
      var p :| 0 <= p < |ws| && ws[p] == w;
      assert 0 <= r.value <= |s| && 0 <= p < |ws| && SearchWords(s, ws) == Some(ws[p]) && WordAt(s, ws[p], r.value);
    }
  }

  /** The `field` of an entry: the leftmost field word in the lowered line,
      title-cased. */
  function FieldOf(line: string): Option<string> {
    match SearchWords(Lower(line), FieldWords)
    case Some(w) => Some(Title(w))
    case None => None
  }

  /** `(?:19|20)\d{2}` at `k`. */
  predicate YearAt(s: string, k: nat) {
    k + 4 <= |s| && ((s[k] == '1' && s[k + 1] == '9') || (s[k] == '2' && s[k + 1] == '0'))
    && IsDigit(s[k + 2]) && IsDigit(s[k + 3])
  }

  /** The leftmost position from `k` on where a year starts. */
  function YearFrom(s: string, k: nat): (r: Option<nat>)
    decreases |s| - k
    ensures r.Some? ==> k <= r.value && YearAt(s, r.value)
    ensures r.Some? ==> forall j :: k <= j < r.value ==> !YearAt(s, j)
    ensures r.None? ==> forall j :: k <= j ==> !YearAt(s, j)
  {
    if k + 4 > |s| then None
    else if YearAt(s, k) then Some(k)
    else YearFrom(s, k + 1)
  }

  /** `re.search(year_pattern, s).group(0)`: four characters, `19` or `20`
      and two digits. */
  function FirstYear(s: string): (r: Option<string>)
    ensures r.Some? ==> |r.value| == 4 && YearAt(r.value, 0)
  {
    match YearFrom(s, 0)
    case Some(j) => Some(s[j..j + 4])
    case None => None
  }

  /** The first year in each of the lines `i`..`min(i+3, n)-1`. */
  function YearCandidates(lines: seq<string>, i: nat): (cs: seq<Option<string>>)
    requires i < |lines|
    ensures |cs| == if i + 3 <= |lines| then 3 else |lines| - i
  {
    var end := if i + 3 <= |lines| then i + 3 else |lines|;
    seq(end - i, d requires 0 <= d < end - i => FirstYear(lines[i + d]))
  }

  /** The `year` of an entry: the first year in the first line of the window
      that has one. */
  function YearNear(lines: seq<string>, i: nat): Option<string>
    requires i < |lines|
  {
    FirstSome(YearCandidates(lines, i), 0)
  }

  /** The year comes from the first line of the window holding one, and is
      absent when none of the three lines holds one. */
  lemma YearFromWindow(lines: seq<string>, i: nat)
    requires i < |lines|
    ensures YearNear(lines, i).None? <==>
      forall j :: i <= j < |lines| && j < i + 3 ==> FirstYear(lines[j]).None?
    ensures YearNear(lines, i).Some? ==>
      exists j :: i <= j < |lines| && j < i + 3 && YearNear(lines, i) == FirstYear(lines[j])
        && forall q :: i <= q < j ==> FirstYear(lines[q]).None?
  {
    var cs := YearCandidates(lines, i);
    FirstSomeNone(cs, 0);
    FirstSomeFirst(cs, 0);
    assert forall j :: i <= j < |lines| && j < i + 3 ==> cs[j - i] == FirstYear(lines[j]);
    if YearNear(lines, i).Some? {
      var d :| 0 <= d < |cs| && FirstSome(cs, 0) == cs[d] && forall q :: 0 <= q < d ==> cs[q].None?;
      assert forall q :: i <= q < i + d ==> cs[q - i] == FirstYear(lines[q]);
      assert i <= i + d < |lines| && i + d < i + 3 && YearNear(lines, i) == FirstYear(lines[i + d]);
    }
  }

  /** The `institution` of an entry: the stripped previous line when it has
      more than five characters; only on the first line, the stripped next
      line under the same length rule and holding no year. */
  function InstitutionAt(lines: seq<string>, i: nat): Option<string>
    requires i < |lines|
  {
    if i > 0 then
      var prev := Strip(lines[i - 1]);
      if prev != [] && |prev| > 5 then Some(prev) else None
    else if i < |lines| - 1 then
      var next := Strip(lines[i + 1]);
      if next != [] && |next| > 5 && FirstYear(next).None? then Some(next) else None
    else None
  }

  /** Past the first line the next line is never consulted: changing it
      leaves the institution as it was. */
  lemma InstitutionIgnoresNext(lines: seq<string>, i: nat, other: string)
    requires 0 < i && i + 1 < |lines|
    ensures InstitutionAt(lines[i + 1 := other], i) == InstitutionAt(lines, i)
  {
    assert lines[i + 1 := other][i - 1] == lines[i - 1];
  }

  /** The institution is a stripped neighbouring line of more than five
      characters: the previous one past the first line, else the next one,
      which then holds no year. */
  lemma InstitutionIsNeighbour(lines: seq<string>, i: nat)
    requires i < |lines| && InstitutionAt(lines, i).Some?
    ensures |InstitutionAt(lines, i).value| > 5
    ensures i > 0 ==> InstitutionAt(lines, i).value == Strip(lines[i - 1])
    ensures i == 0 ==>
      && 1 < |lines| && InstitutionAt(lines, i).value == Strip(lines[1])
      && FirstYear(InstitutionAt(lines, i).value).None?
  {
  }

  /** An entry of extract_education's result. */
  datatype Education = Education(degree: string, field: Option<string>, year: Option<string>, institution: Option<string>)

  /** The entry a degree line at `i` yields; which pattern fired plays no
      part. */
  function EducationAt(lines: seq<string>, i: nat): Education
    requires i < |lines|
  {
    Education(Strip(lines[i]), FieldOf(lines[i]), YearNear(lines, i), InstitutionAt(lines, i))
  }

  function DegreeFlags(lines: seq<string>): (flags: seq<bool>)
    ensures |flags| == |lines|
  {
    seq(|lines|, i requires 0 <= i < |lines| => IsDegreeLine(lines[i]))
  }

  function EducationEntries(lines: seq<string>): (es: seq<Education>)
    ensures |es| == |lines|
  {
    seq(|lines|, i requires 0 <= i < |lines| => EducationAt(lines, i))
  }

  /** extract_education: one entry per degree line, in line order. */
  function EducationOf(text: string): seq<Education> {
    var lines := Split(text, '\n');
    Select(DegreeFlags(lines), EducationEntries(lines))
  }

  /** The entries are those of the degree lines, one each, in line order. */
  lemma EducationPerDegreeLine(text: string)
    ensures |EducationOf(text)| == |TrueIndices(DegreeFlags(Split(text, '\n')))|
    ensures forall p :: 0 <= p < |EducationOf(text)| ==>
      EducationOf(text)[p] == EducationAt(Split(text, '\n'), TrueIndices(DegreeFlags(Split(text, '\n')))[p])
  {
    var lines := Split(text, '\n');
    SelectByIndices(DegreeFlags(lines), EducationEntries(lines));
  }

  // ===========================================================================
  // extract_experience

  /** The job keywords, matched as plain substrings of the lowered line. */
  const JobTitles: seq<string> := [
    "engineer", "developer", "programmer", "analyst", "scientist",
    "manager", "director", "consultant", "specialist", "architect",
    "lead", "senior", "junior", "intern", "associate", "coordinator"
  ]

  predicate HasJobKeyword(line: string) {
    exists p :: 0 <= p < |JobTitles| && OccursFrom(Lower(line), JobTitles[p], 0)
  }

  const Months: seq<string> := ["jan", "feb", "mar", "apr", "may", "jun", "jul", "aug", "sep", "oct", "nov", "dec"]

  /** A month abbreviation at `k`; under IGNORECASE in either case. */
  predicate MonthAt(s: string, k: nat, ignoreCase: bool) {
    exists m :: 0 <= m < |Months| &&
      if ignoreCase then WordAtIgnoringCase(s, Months[m], k) else WordAt(s, Months[m], k)
  }

  predicate IsDot(c: char) { c == '.' }

  /** The end of a match of `(?:jan|...|dec)[a-z]*\.?\s+\d{4}` at `k`.
      Backtracking changes nothing: giving back letters of `[a-z]*` leaves a
      letter where `\.?\s+` needs a dot or whitespace, leaving a present dot
      leaves it where `\s+` needs whitespace, and giving back whitespace
      leaves it where `\d` needs a digit. Under IGNORECASE `[a-z]` takes
      letters of either case. */
  function MonthDateAt(s: string, k: nat, ignoreCase: bool): (r: Option<nat>)
    ensures r.Some? ==> k + 4 <= r.value <= |s| && DigitsAt(s, r.value - 4, 4)
  {
    if k + 3 <= |s| && MonthAt(s, k, ignoreCase) then
      var e := RunEnd(s, k + 3, if ignoreCase then IsLetter else IsLowerLetter);
      var d := SkipOptional(s, e, IsDot);
      var f := RunEnd(s, d, IsSpace);
      if f > d && DigitsAt(s, f, 4) then Some(f + 4) else None
    else None
  }

  /** The end of a match of the date pattern at `k`: the month form, else a
      year `(?:19|20)\d{2}`. Every match ends in four digits. */
  function DateAt(s: string, k: nat, ignoreCase: bool): (r: Option<nat>)
    ensures r.Some? ==> k + 4 <= r.value <= |s| && DigitsAt(s, r.value - 4, 4)
  {
    var m := MonthDateAt(s, k, ignoreCase);
    if m.Some? then m
    else if YearAt(s, k) then
      assert s[k..k + 4] == [s[k], s[k + 1], s[k + 2], s[k + 3]];
      Some(k + 4)
    else None
  }

  /** `re.findall(date_pattern, s)` from position `k`: the matches, left to
      right, each search resuming where the previous match ended. */
  function DatesFrom(s: string, k: nat, ignoreCase: bool): seq<string>
    requires k <= |s|
    decreases |s| - k
  {
    if k == |s| then []
    else
      match DateAt(s, k, ignoreCase)
      case Some(e) => [s[k..e]] + DatesFrom(s, e, ignoreCase)
      case None => DatesFrom(s, k + 1, ignoreCase)
  }

  /** `re.search(date_pattern, s)` as the source writes it for the company
      and description checks: without IGNORECASE. */
  predicate ContainsDate(s: string) {
    exists k :: 0 <= k < |s| && DateAt(s, k, false).Some?
  }

  /** `findall` returns something exactly when `search` finds something. */
  lemma {:induction false} DatesFromNonEmpty(s: string, k: nat, ignoreCase: bool)
    requires k <= |s|
    decreases |s| - k
    ensures DatesFrom(s, k, ignoreCase) != [] <==> exists j :: k <= j < |s| && DateAt(s, j, ignoreCase).Some?
  {
    if k < |s| {
      if DateAt(s, k, ignoreCase).Some? {
        assert DatesFrom(s, k, ignoreCase) != [];
        assert k <= k < |s| && DateAt(s, k, ignoreCase).Some?;
      } else {
        assert DatesFrom(s, k, ignoreCase) == DatesFrom(s, k + 1, ignoreCase);
        DatesFromNonEmpty(s, k + 1, ignoreCase);
        forall j | k <= j < |s| && DateAt(s, j, ignoreCase).Some? ensures k + 1 <= j { }
      }
    }
  }

  /** Every token `findall` returns ends in four digits. */
  lemma {:induction false} DateTokensEndInDigits(s: string, k: nat, ignoreCase: bool)
    requires k <= |s|
    decreases |s| - k
    ensures forall x :: x in DatesFrom(s, k, ignoreCase) ==> |x| >= 4 && AllDigits(x[|x| - 4..])
  {
    if k < |s| {
      match DateAt(s, k, ignoreCase)
      case Some(e) =>
        DateTokensEndInDigits(s, e, ignoreCase);
        assert s[k..e][e - k - 4..] == s[e - 4..e];
      case None =>
        DateTokensEndInDigits(s, k + 1, ignoreCase);
    }
  }

  /** The dates of lines `a`..`b-1`, line after line. */
  function DatesIn(lines: seq<string>, a: nat, b: nat): seq<string>
    requires a <= b <= |lines|
    decreases b - a
  {
    if a == b then [] else DatesIn(lines, a, b - 1) + DatesFrom(lines[b - 1], 0, true)
  }

  /** The dates of lines `max(0, i-1)`..`min(i+3, n)-1`, found with IGNORECASE. */
  function DateWindow(lines: seq<string>, i: nat): seq<string>
    requires i < |lines|
  {
    DatesIn(lines, if i > 0 then i - 1 else 0, if i + 3 <= |lines| then i + 3 else |lines|)
  }

  /** A stripped neighbouring line is taken as the company when it has more
      than three characters and no date. */
  function CompanyCandidate(c: string): Option<string> {
    if c != [] && |c| > 3 && !ContainsDate(c) then Some(c) else None
  }

  /** The `company` of an entry: the previous line's candidate; only on the
      first line, the next line's. */
  function CompanyAt(lines: seq<string>, i: nat): Option<string>
    requires i < |lines|
  {
    if i > 0 then CompanyCandidate(Strip(lines[i - 1]))
    else if i < |lines| - 1 then CompanyCandidate(Strip(lines[i + 1]))
    else None
  }

  /** Past the first line the next line is never consulted for the company. */
  lemma CompanyIgnoresNext(lines: seq<string>, i: nat, other: string)
    requires 0 < i && i + 1 < |lines|
    ensures CompanyAt(lines[i + 1 := other], i) == CompanyAt(lines, i)
  {
    assert lines[i + 1 := other][i - 1] == lines[i - 1];
  }

  /** The company is a stripped neighbouring line of more than three
      characters holding no date: the previous one past the first line, else
      the next one. */
  lemma CompanyIsNeighbour(lines: seq<string>, i: nat)
    requires i < |lines| && CompanyAt(lines, i).Some?
    ensures |CompanyAt(lines, i).value| > 3 && !ContainsDate(CompanyAt(lines, i).value)
    ensures i > 0 ==> CompanyAt(lines, i).value == Strip(lines[i - 1])
    ensures i == 0 ==> 1 < |lines| && CompanyAt(lines, i).value == Strip(lines[1])
  {
  }

  /** What the description loop does with one line of its window: stop at
      a blank line or one with a job keyword, skip one with a date, keep the
      stripped line otherwise. */
  datatype DescriptionLine = Stop | Skip | Keep(text: string)

  function DescriptionLineOf(line: string): DescriptionLine {
    var d := Strip(line);
    if d == [] || HasJobKeyword(d) then Stop
    else if ContainsDate(d) then Skip
    else Keep(d)
  }

  /** A kept line is the stripped line, non-blank, with no job keyword and no
      date. */
  lemma KeptLineClean(line: string)
    requires DescriptionLineOf(line).Keep?
    ensures var d := DescriptionLineOf(line).text;
      d == Strip(line) && d != [] && !HasJobKeyword(d) && !ContainsDate(d)
  {
  }

  /** The last line, exclusive, of the description window of line `i`:
      `min(i + 10, len(lines))`. */
  function WindowEnd(lines: seq<string>, i: nat): (end: nat)
    requires i < |lines|
    ensures i < end <= |lines| && end <= i + 10
  {
    if i + 10 <= |lines| then i + 10 else |lines|
  }

  /** What the description loop would do with each line. */
  function Classified(lines: seq<string>): (cls: seq<DescriptionLine>)
    ensures |cls| == |lines|
  {
    MapAll(DescriptionLineOf, lines)
  }

  /** `f` applied to each element, built from the front. */
  function MapAll<A, B>(f: A -> B, xs: seq<A>): (ys: seq<B>)
    ensures |ys| == |xs|
  {
    if |xs| == 0 then [] else MapAll(f, xs[..|xs| - 1]) + [f(xs[|xs| - 1])]
  }

  lemma {:induction false} MapAllAt<A, B>(f: A -> B, xs: seq<A>, q: nat)
    requires q < |xs|
    ensures MapAll(f, xs)[q] == f(xs[q])
  {
    var init := xs[..|xs| - 1];
    if q < |init| {
      MapAllAt(f, init, q);
      assert init[q] == xs[q];
    }
  }

  /** `cls` classifies `lines`; the link is used only where a line's
      classification is at hand. */
  predicate Classifies(cls: seq<DescriptionLine>, lines: seq<string>) {
    |cls| == |lines| &&
    forall q {:trigger DescriptionLineOf(lines[q])} :: 0 <= q < |lines| ==> cls[q] == DescriptionLineOf(lines[q])
  }

  lemma ClassifiedClassifies(lines: seq<string>)
    ensures Classifies(Classified(lines), lines)
  {
    forall q | 0 <= q < |lines| ensures Classified(lines)[q] == DescriptionLineOf(lines[q]) {
      MapAllAt(DescriptionLineOf, lines, q);
    }
  }

  /** The texts of the lines `cls[j..end]` classified as kept, in order, up
      to the first stop. */
  function KeptFrom(cls: seq<DescriptionLine>, j: nat, end: nat): seq<string>
    requires end <= |cls|
    decreases end - j
  {
    if j >= end then []
    else
      match cls[j]
      case Stop => []
      case Skip => KeptFrom(cls, j + 1, end)
      case Keep(d) => [d] + KeptFrom(cls, j + 1, end)
  }

  /** At most one kept line per line looked at. */
  lemma {:induction false} KeptBound(cls: seq<DescriptionLine>, j: nat, end: nat)
    requires j <= end <= |cls|
    decreases end - j
    ensures |KeptFrom(cls, j, end)| <= end - j
  {
    if j < end {
      KeptBound(cls, j + 1, end);
    }
  }

  /** Nothing after a stop is looked at. */
  lemma {:induction false} KeptStops(cls: seq<DescriptionLine>, j: nat, end: nat, b: nat)
    requires j <= b < end <= |cls| && cls[b].Stop?
    decreases b - j
    ensures KeptFrom(cls, j, end) == KeptFrom(cls, j, b)
  {
    if j < b {
      KeptStops(cls, j + 1, end, b);
    }
  }

  /** Each kept text is that of a line classified as kept. */
  lemma {:induction false} KeptComesFrom(cls: seq<DescriptionLine>, j: nat, end: nat)
    requires end <= |cls|
    decreases end - j
    ensures forall d :: d in KeptFrom(cls, j, end) ==> exists q :: j <= q < end && cls[q] == Keep(d)
  {
    if j < end {
      KeptComesFrom(cls, j + 1, end);
      forall d | d in KeptFrom(cls, j, end) ensures exists q :: j <= q < end && cls[q] == Keep(d) {
        if cls[j] != Keep(d) {
          assert d in KeptFrom(cls, j + 1, end);
        }
      }
    }
  }

  /** The lines of the description of the entry at line `i`. */
  function DescriptionKept(lines: seq<string>, i: nat): seq<string>
    requires i < |lines|
  {
    KeptFrom(Classified(lines), i + 1, WindowEnd(lines, i))
  }

  /** The `description` of an entry: the kept lines joined by single
      spaces, absent when none is kept. */
  function DescriptionAt(lines: seq<string>, i: nat): Option<string>
    requires i < |lines|
  {
    var ds := DescriptionKept(lines, i);
    if ds == [] then None else Some(JoinWith(" ", ds))
  }

  /** The description holds at most nine lines. */
  lemma DescriptionBound(lines: seq<string>, i: nat)
    requires i < |lines|
    ensures |DescriptionKept(lines, i)| <= 9
  {
    var cls, end := Classified(lines), WindowEnd(lines, i);
    KeptBound(cls, i + 1, end);
    assert DescriptionKept(lines, i) == KeptFrom(cls, i + 1, end);
  }

  /** The description ends before the first blank line or line with a job
      keyword after line `i`. */
  lemma DescriptionStops(lines: seq<string>, i: nat, b: nat)
    requires i < b < |lines| && b < i + 10
    requires Strip(lines[b]) == [] || HasJobKeyword(Strip(lines[b]))
    ensures DescriptionKept(lines, i) == KeptFrom(Classified(lines), i + 1, b)
  {
    var cls := Classified(lines);
    ClassifiedClassifies(lines);
    assert DescriptionLineOf(lines[b]).Stop?;
    KeptStops(cls, i + 1, WindowEnd(lines, i), b);
  }

  /** Each line of the description is a stripped line of the window that is
      non-blank and has no job keyword and no date. */
  lemma DescriptionClean(lines: seq<string>, i: nat)
    requires i < |lines|
    ensures forall d :: d in DescriptionKept(lines, i) ==>
      d != [] && !HasJobKeyword(d) && !ContainsDate(d) && exists q :: i + 1 <= q < WindowEnd(lines, i) && d == Strip(lines[q])
  {
    KeptClean(lines, i + 1, WindowEnd(lines, i));
  }

  lemma KeptClean(lines: seq<string>, start: nat, end: nat)
    requires end <= |lines|
    ensures forall d :: d in KeptFrom(Classified(lines), start, end) ==>
      d != [] && !HasJobKeyword(d) && !ContainsDate(d) && exists q :: start <= q < end && d == Strip(lines[q])
  {
    var cls := Classified(lines);
    ClassifiedClassifies(lines);
    KeptComesFrom(cls, start, end);
    forall d | d in KeptFrom(cls, start, end)
      ensures d != [] && !HasJobKeyword(d) && !ContainsDate(d) && exists q :: start <= q < end && d == Strip(lines[q])
    {
      var q :| start <= q < end && cls[q] == Keep(d);
      assert cls[q] == DescriptionLineOf(lines[q]);
      KeptLineClean(lines[q]);
    }
  }

  /** An entry of extract_experience's result. */
  datatype Experience = Experience(
    title: string, startDate: Option<string>, endDate: Option<string>, date: Option<string>,
    company: Option<string>, description: Option<string>)

  /** The entry a line with a job keyword at `i` yields: two or more dates in
      the window give a start and an end, exactly one gives a date. */
  function ExperienceAt(lines: seq<string>, i: nat): Experience
    requires i < |lines|
  {
    var dates := DateWindow(lines, i);
    Experience(
      Strip(lines[i]),
      if |dates| >= 2 then Some(dates[0]) else None,
      if |dates| >= 2 then Some(dates[1]) else None,
      if |dates| == 1 then Some(dates[0]) else None,
      CompanyAt(lines, i),
      DescriptionAt(lines, i))
  }

  /** Start and end come together, never with a single date, and some date
      is present exactly when the window holds a date token. */
  lemma ExperienceDateShape(lines: seq<string>, i: nat)
    requires i < |lines|
    ensures ExperienceAt(lines, i).startDate.Some? <==> ExperienceAt(lines, i).endDate.Some?
    ensures !(ExperienceAt(lines, i).date.Some? && ExperienceAt(lines, i).startDate.Some?)
    ensures ExperienceAt(lines, i).date.Some? || ExperienceAt(lines, i).startDate.Some? <==> DateWindow(lines, i) != []
    ensures ExperienceAt(lines, i).startDate.Some? ==>
      ExperienceAt(lines, i).startDate.value == DateWindow(lines, i)[0] && ExperienceAt(lines, i).endDate.value == DateWindow(lines, i)[1]
  {
  }

  function JobFlags(lines: seq<string>): (flags: seq<bool>)
    ensures |flags| == |lines|
  {
    seq(|lines|, i requires 0 <= i < |lines| => HasJobKeyword(lines[i]))
  }

  function ExperienceEntries(lines: seq<string>): (es: seq<Experience>)
    ensures |es| == |lines|
  {
    seq(|lines|, i requires 0 <= i < |lines| => ExperienceAt(lines, i))
  }

  /** extract_experience: one entry per line with a job keyword, in line
      order. */
  function ExperienceOf(text: string): seq<Experience> {
    var lines := Split(text, '\n');
    Select(JobFlags(lines), ExperienceEntries(lines))
  }

  /** The entries are those of the lines with a job keyword, one each, in
      line order. */
  lemma ExperiencePerJobLine(text: string)
    ensures |ExperienceOf(text)| == |TrueIndices(JobFlags(Split(text, '\n')))|
    ensures forall p :: 0 <= p < |ExperienceOf(text)| ==>
      ExperienceOf(text)[p] == ExperienceAt(Split(text, '\n'), TrueIndices(JobFlags(Split(text, '\n')))[p])
  {
    var lines := Split(text, '\n');
    SelectByIndices(JobFlags(lines), ExperienceEntries(lines));
  }

  /** A month name in any case starts a date token for the IGNORECASE
      `findall`: "JAN 1850" is one. */
  lemma MonthIgnoringCase()
    ensures DateAt("JAN 1850", 0, true) == Some(8)
  {
    var s := "JAN 1850";
    assert WordAtIgnoringCase(s, Months[0], 0);
    assert RunEnd(s, 3, IsLetter) == 3;
    assert RunEnd(s, 3, IsSpace) == 4;
    assert DigitsAt(s, 4, 4) by {
      assert s[4..8] == "1850";
    }
  }

  /** Without IGNORECASE a month name starts with a lower-case letter. */
  lemma MonthNeedsLowerCase(s: string, k: nat)
    requires MonthAt(s, k, false)
    ensures k < |s| && IsLowerLetter(s[k])
  {
    var m :| 0 <= m < |Months| && WordAt(s, Months[m], k);
    assert forall x :: 0 <= x < |Months| ==> IsLowerLetter(Months[x][0]);
  }

  /** The company and description checks search case-sensitively, and see
      no date in "JAN 1850", which the `findall` above does count. */
  lemma MonthCaseSensitive()
    ensures !ContainsDate("JAN 1850")
  {
    var s := "JAN 1850";
    assert forall k :: 0 <= k < |s| ==> !IsLowerLetter(s[k]);
    assert !YearAt(s, 4);
    NoDateIn(s);
  }

  /** Text without lower-case letters and without a year holds no date for
      the case-sensitive search. */
  lemma NoDateIn(s: string)
    requires forall k :: 0 <= k < |s| ==> !IsLowerLetter(s[k]) && !YearAt(s, k)
    ensures !ContainsDate(s)
  {
    forall k | 0 <= k < |s| ensures DateAt(s, k, false).None? {
      NoDateWithoutLowerOrYear(s, k);
    }
  }

  /** Without IGNORECASE no date starts at a character that is neither a
      lower-case letter nor the start of a year. */
  lemma NoDateWithoutLowerOrYear(s: string, k: nat)
    requires k < |s| && !IsLowerLetter(s[k]) && !YearAt(s, k)
    ensures DateAt(s, k, false).None?
  {
    if MonthAt(s, k, false) {
      MonthNeedsLowerCase(s, k);
    }
  }

  /** Text without digits holds no date token: every token ends in four
      digits. */
  lemma {:induction false} NoDigitsNoDates(s: string, k: nat, ignoreCase: bool)
    requires k <= |s| && forall j :: k <= j < |s| ==> !IsDigit(s[j])
    decreases |s| - k
    ensures DatesFrom(s, k, ignoreCase) == []
  {
    if k < |s| {
      if DateAt(s, k, ignoreCase).Some? {
        DateEndsInDigit(s, k, ignoreCase);
      }
      NoDigitsNoDates(s, k + 1, ignoreCase);
    }
  }

  lemma DateEndsInDigit(s: string, k: nat, ignoreCase: bool)
    requires DateAt(s, k, ignoreCase).Some?
    ensures var e := DateAt(s, k, ignoreCase).value; k <= e - 4 && e <= |s| && IsDigit(s[e - 4])
  {
    var e := DateAt(s, k, ignoreCase).value;
    assert s[e - 4..e][0] == s[e - 4];
  }

  /** A window of four lines yields their date tokens one line after
      another. */
  lemma DatesInFour(lines: seq<string>)
    requires |lines| >= 4
    ensures DatesIn(lines, 0, 4)
      == DatesFrom(lines[0], 0, true) + DatesFrom(lines[1], 0, true)
         + DatesFrom(lines[2], 0, true) + DatesFrom(lines[3], 0, true)
  {
    assert DatesIn(lines, 0, 1) == DatesFrom(lines[0], 0, true);
  }

  /** The window of a job line on the second of four lines is all four. */
  lemma WindowOfSecond(lines: seq<string>, x: string)
    requires |lines| == 4 && DatesFrom(lines[0], 0, true) == [] && DatesFrom(lines[1], 0, true) == []
    requires DatesFrom(lines[2], 0, true) == [x] && DatesFrom(lines[3], 0, true) == []
    ensures DateWindow(lines, 1) == [x]
  {
    DatesInFour(lines);
  }

  /** A window with exactly one date token fills `date` alone. */
  lemma SingleDate(lines: seq<string>, i: nat)
    requires i < |lines| && |DateWindow(lines, i)| == 1
    ensures ExperienceAt(lines, i).date == Some(DateWindow(lines, i)[0])
    ensures ExperienceAt(lines, i).startDate.None? && ExperienceAt(lines, i).endDate.None?
  {
  }

  lemma CompanyLineNoDates(s: string)
    requires s == "Tech Company Inc."
    ensures DatesFrom(s, 0, true) == []
  {
    NoDigitsNoDates(s, 0, true);
  }

  lemma TitleLineNoDates(s: string)
    requires s == "Senior Software Engineer"
    ensures DatesFrom(s, 0, true) == []
  {
    NoDigitsNoDates(s, 0, true);
  }

  lemma DescriptionLineNoDates(s: string)
    requires s == "Led development of web apps"
    ensures DatesFrom(s, 0, true) == []
  {
    NoDigitsNoDates(s, 0, true);
  }

  lemma JanAtStart(s: string)
    requires s == "Jan 2020 - Present"
    ensures DateAt(s, 0, true) == Some(8)
  {
    assert WordAtIgnoringCase(s, Months[0], 0);
    assert RunEnd(s, 3, IsLetter) == 3;
    assert RunEnd(s, 3, IsSpace) == 4;
    assert DigitsAt(s, 4, 4) by {
      assert s[4..8] == "2020";
    }
  }

  /** "Present" is no date: the line holds the one token "Jan 2020". */
  lemma DateLineOneDate(s: string)
    requires s == "Jan 2020 - Present"
    ensures DatesFrom(s, 0, true) == ["Jan 2020"]
  {
    JanAtStart(s);
    NoDigitsNoDates(s, 8, true);
    assert s[0..8] == "Jan 2020";
  }

  /** A job line whose window holds "Jan 2020 - Present" gets the one token
      "Jan 2020" as its `date` and no start or end date, since "Present" is
      not a date. */
  lemma PresentIsNoEndDate(lines: seq<string>)
    requires |lines| == 4 && lines[0] == "Tech Company Inc." && lines[1] == "Senior Software Engineer"
    requires lines[2] == "Jan 2020 - Present" && lines[3] == "Led development of web apps"
    ensures DateWindow(lines, 1) == ["Jan 2020"]
    ensures ExperienceAt(lines, 1).date == Some("Jan 2020")
    ensures ExperienceAt(lines, 1).startDate.None? && ExperienceAt(lines, 1).endDate.None?
  {
    CompanyLineNoDates(lines[0]);
    TitleLineNoDates(lines[1]);
    DateLineOneDate(lines[2]);
    DescriptionLineNoDates(lines[3]);
    WindowOfSecond(lines, "Jan 2020");
    SingleDate(lines, 1);
  }

  // ===========================================================================
  // analyze

  /** The dictionary analyze returns. */
  datatype Analysis = Analysis(
    name: Option<string>, skills: seq<string>, education: seq<Education>, experience: seq<Experience>)

  /** The body under `k` in a list of sections with distinct kinds, the
      dictionary preprocess_resume_text builds. */
  function LookupSection(sections: seq<Preprocessor.Section>, k: Preprocessor.SectionKind): (r: Option<string>)
    ensures r.Some? <==> exists p :: 0 <= p < |sections| && sections[p].kind == k
  {
    if |sections| == 0 then None
    else if sections[0].kind == k then Some(sections[0].body)
    else
      var r := LookupSection(sections[1..], k);
      assert forall p :: 1 <= p < |sections| ==> sections[p] == sections[1..][p - 1];
      r
  }

  /** `sections[k]` when `sections` was passed, is non-empty and has the key;
      nothing otherwise. */
  function SectionBody(sections: Option<seq<Preprocessor.Section>>, k: Preprocessor.SectionKind): Option<string> {
    if sections.Some? && |sections.value| > 0 then LookupSection(sections.value, k) else None
  }

  /** The text an extractor runs on: its own section when there is one, the
      whole text otherwise. */
  function Scope(text: string, sections: Option<seq<Preprocessor.Section>>, k: Preprocessor.SectionKind): string {
    match SectionBody(sections, k)
    case Some(body) => body
    case None => text
  }

  /** analyze: the name from the whole text, and skills, education and
      experience each from its own section or from the whole text. */
  function AnalysisOf(text: string, sections: Option<seq<Preprocessor.Section>>,
                      vocabulary: seq<string>, nlp: string -> Option<string>): Analysis {
    Analysis(
      NameOf(text, nlp),
      SkillsIn(vocabulary, Scope(text, sections, Preprocessor.Skills)),
      EducationOf(Scope(text, sections, Preprocessor.Education)),
      ExperienceOf(Scope(text, sections, Preprocessor.Experience)))
  }

  /** An extractor runs on a section body exactly when the sections were
      passed and hold a section of its kind; otherwise on the whole text. */
  lemma ScopeRule(text: string, sections: Option<seq<Preprocessor.Section>>, k: Preprocessor.SectionKind)
    ensures (sections.Some? && exists p :: 0 <= p < |sections.value| && sections.value[p].kind == k) ==>
      exists p :: 0 <= p < |sections.value| && sections.value[p].kind == k && Scope(text, sections, k) == sections.value[p].body
    ensures !(sections.Some? && exists p :: 0 <= p < |sections.value| && sections.value[p].kind == k) ==>
      Scope(text, sections, k) == text
  {
    if sections.Some? && exists p :: 0 <= p < |sections.value| && sections.value[p].kind == k {
      LookupFinds(sections.value, k);
    }
  }

  /** The body found is that of a section of the kind. */
  lemma {:induction false} LookupFinds(sections: seq<Preprocessor.Section>, k: Preprocessor.SectionKind)
    requires LookupSection(sections, k).Some?
    ensures exists p :: 0 <= p < |sections| && sections[p].kind == k && LookupSection(sections, k) == Some(sections[p].body)
  {
    if sections[0].kind != k {
      LookupFinds(sections[1..], k);
      var p :| 0 <= p < |sections[1..]| && sections[1..][p].kind == k && LookupSection(sections[1..], k) == Some(sections[1..][p].body);
      assert sections[p + 1] == sections[1..][p];
    } else {
      assert sections[0].kind == k && LookupSection(sections, k) == Some(sections[0].body);
    }
  }

  /** With sections that are all `header`, every extractor runs on the whole
      text. */
  lemma HeaderOnlyScope(text: string, sections: seq<Preprocessor.Section>, k: Preprocessor.SectionKind)
    requires forall p :: 0 <= p < |sections| ==> sections[p].kind == Preprocessor.Header
    requires k != Preprocessor.Header
    ensures Scope(text, Some(sections), k) == text
  {
  }

  /** Fed by preprocess_resume_text, whose sections hold at most `header`,
      analyze runs every extractor on the whole cleaned text, as if no
      sections had been passed. */
  lemma PipelineUsesCleanedText(raw: string, vocabulary: seq<string>, nlp: string -> Option<string>)
    ensures AnalysisOf(Preprocessor.PreprocessResumeText(raw).cleaned, Some(Preprocessor.PreprocessResumeText(raw).sections), vocabulary, nlp)
      == AnalysisOf(Preprocessor.PreprocessResumeText(raw).cleaned, None, vocabulary, nlp)
  {
    var pp := Preprocessor.PreprocessResumeText(raw);
    Preprocessor.PreprocessedSectionsAreHeader(raw);
    HeaderOnlyAnalysis(pp.cleaned, pp.sections, vocabulary, nlp);
  }

  /** With only `header` sections, analyze gives what it gives without
      sections. */
  lemma HeaderOnlyAnalysis(text: string, sections: seq<Preprocessor.Section>,
                           vocabulary: seq<string>, nlp: string -> Option<string>)
    requires forall p :: 0 <= p < |sections| ==> sections[p].kind == Preprocessor.Header
    ensures AnalysisOf(text, Some(sections), vocabulary, nlp) == AnalysisOf(text, None, vocabulary, nlp)
  {
    HeaderOnlyScope(text, sections, Preprocessor.Skills);
    HeaderOnlyScope(text, sections, Preprocessor.Education);
    HeaderOnlyScope(text, sections, Preprocessor.Experience);
  }

  /** The cleaned text is a single line, so the line-based extractors find
      at most one education entry and one experience entry in it. */
  lemma PipelineAtMostOneEntry(raw: string)
    ensures |EducationOf(Preprocessor.PreprocessResumeText(raw).cleaned)| <= 1
    ensures |ExperienceOf(Preprocessor.PreprocessResumeText(raw).cleaned)| <= 1
  {
    var c := Preprocessor.PreprocessResumeText(raw).cleaned;
    SplitWithoutSeparator(c, '\n');
    EducationPerDegreeLine(c);
    ExperiencePerJobLine(c);
  }

  // ===========================================================================
  // The analyzer object and its methods

  /** The year search over lines `i`..`min(i+3, n)-1`, stopping at the first
      line that has a year. */
  method FindYear(lines: seq<string>, i: nat) returns (year: Option<string>)
    requires i < |lines|
    ensures year == YearNear(lines, i)
  {
    ghost var cs := YearCandidates(lines, i);
    var end := if i + 3 <= |lines| then i + 3 else |lines|;
    var j := i;
    while j < end
      invariant i <= j <= end
      invariant FirstSome(cs, 0) == FirstSome(cs, j - i)
    {
      var found := FirstYear(lines[j]);
      if found.Some? {
        assert cs[j - i] == found;
        return found;
      }
      assert cs[j - i].None?;
      j := j + 1;
    }
    return None;
  }

  /** The degree patterns tried in order until one occurs in the lowered
      line. */
  method MatchesDegree(line: string) returns (found: bool)
    ensures found == IsDegreeLine(line)
  {
    var lineLower := Lower(line);
    for p := 0 to |DegreePatterns|
      invariant forall q :: 0 <= q < p ==> !SearchFrom(lineLower, DegreePatterns[q], 0)
    {
      if SearchFrom(lineLower, DegreePatterns[p], 0) {
        return true;
      }
    }
    return false;
  }

  /** The institution rule of extract_education. */
  method FindInstitution(lines: seq<string>, i: nat) returns (institution: Option<string>)
    requires i < |lines|
    ensures institution == InstitutionAt(lines, i)
  {
    institution := None;
    if i > 0 {
      var prevLine := Strip(lines[i - 1]);
      if prevLine != [] && |prevLine| > 5 {
        institution := Some(prevLine);
      }
    } else if i < |lines| - 1 {
      var nextLine := Strip(lines[i + 1]);
      if nextLine != [] && |nextLine| > 5 && FirstYear(nextLine).None? {
        institution := Some(nextLine);
      }
    }
  }

  /** The body of extract_education's loop for line `i`: on the first degree
      pattern that occurs, the entry. */
  method EducationEntry(lines: seq<string>, i: nat) returns (entry: Option<Education>)
    requires i < |lines|
    ensures entry == if IsDegreeLine(lines[i]) then Some(EducationAt(lines, i)) else None
  {
    var found := MatchesDegree(lines[i]);
    if !found {
      return None;
    }
    var degree := Strip(lines[i]);
    var field: Option<string> := None;
    var fieldMatch := SearchWords(Lower(lines[i]), FieldWords);
    if fieldMatch.Some? {
      field := Some(Title(fieldMatch.value));
    }
    var year := FindYear(lines, i);
    var institution := FindInstitution(lines, i);
    return Some(Education(degree, field, year, institution));
  }

  /** The dates of lines `max(0, i-1)`..`min(i+3, n)-1`, collected line by
      line. */
  method CollectDates(lines: seq<string>, i: nat) returns (dates: seq<string>)
    requires i < |lines|
    ensures dates == DateWindow(lines, i)
  {
    var start := if i > 0 then i - 1 else 0;
    var end := if i + 3 <= |lines| then i + 3 else |lines|;
    dates := [];
    for j := start to end
      invariant dates == DatesIn(lines, start, j)
    {
      dates := dates + DatesFrom(lines[j], 0, true);
    }
  }

  /** What the description loop does with one stripped line. */
  method ClassifyLine(line: string) returns (c: DescriptionLine)
    ensures c == DescriptionLineOf(line)
  {
    var descLine := Strip(line);
    if descLine == [] {
      return Stop;
    }
    var keyword := MatchesJob(descLine);
    if keyword {
      return Stop;
    }
    if ContainsDate(descLine) {
      return Skip;
    }
    return Keep(descLine);
  }

  /** The description loop over lines `i+1`..`min(i+10, n)-1`. */
  method CollectDescription(lines: seq<string>, i: nat) returns (description: Option<string>)
    requires i < |lines|
    ensures description == DescriptionAt(lines, i)
  {
    ClassifiedClassifies(lines);
    var descriptionLines := KeptLines(lines, i, Classified(lines));
    if descriptionLines != [] {
      description := Some(JoinWith(" ", descriptionLines));
    } else {
      description := None;
    }
  }

  /** The loop of the description: the kept lines of the window, up to the
      first stop. */
  method KeptLines(lines: seq<string>, i: nat, ghost cls: seq<DescriptionLine>) returns (descriptionLines: seq<string>)
    requires i < |lines| && Classifies(cls, lines)
    ensures descriptionLines == KeptFrom(cls, i + 1, WindowEnd(lines, i))
  {
    var end := if i + 10 <= |lines| then i + 10 else |lines|;
    descriptionLines := [];
    for j := i + 1 to end
      invariant descriptionLines + KeptFrom(cls, j, end) == KeptFrom(cls, i + 1, end)
    {
      var c := ClassifyLine(lines[j]);
      assert cls[j] == c;
      if c.Stop? {
        assert KeptFrom(cls, j, end) == [];
        break;
      }
      if c.Keep? {
        AppendKept(descriptionLines, c.text, KeptFrom(cls, j + 1, end), KeptFrom(cls, j, end));
        descriptionLines := descriptionLines + [c.text];
      }
    }
  }

  lemma AppendKept(acc: seq<string>, d: string, rest: seq<string>, all: seq<string>)
    requires all == [d] + rest
    ensures acc + all == (acc + [d]) + rest
  {
  }

  /** The job keywords tried in order until one occurs in the lowered
      line. */
  method MatchesJob(line: string) returns (found: bool)
    ensures found == HasJobKeyword(line)
  {
    var lineLower := Lower(line);
    for p := 0 to |JobTitles|
      invariant forall q :: 0 <= q < p ==> !OccursFrom(lineLower, JobTitles[q], 0)
    {
      if OccursFrom(lineLower, JobTitles[p], 0) {
        return true;
      }
    }
    return false;
  }

  /** The company rule of extract_experience. */
  method FindCompany(lines: seq<string>, i: nat) returns (company: Option<string>)
    requires i < |lines|
    ensures company == CompanyAt(lines, i)
  {
    company := None;
    if i > 0 {
      var prevLine := Strip(lines[i - 1]);
      if prevLine != [] && |prevLine| > 3 && !ContainsDate(prevLine) {
        company := Some(prevLine);
      }
    } else if i < |lines| - 1 {
      var nextLine := Strip(lines[i + 1]);
      if nextLine != [] && |nextLine| > 3 && !ContainsDate(nextLine) {
        company := Some(nextLine);
      }
    }
  }

  /** The body of extract_experience's loop for line `i`: on the first job
      keyword that occurs, the entry. */
  method ExperienceEntry(lines: seq<string>, i: nat) returns (entry: Option<Experience>)
    requires i < |lines|
    ensures entry == if HasJobKeyword(lines[i]) then Some(ExperienceAt(lines, i)) else None
  {
    var found := MatchesJob(lines[i]);
    if !found {
      return None;
    }
    var title := Strip(lines[i]);
    var dates := CollectDates(lines, i);
    var startDate: Option<string>, endDate: Option<string>, date: Option<string> := None, None, None;
    if |dates| >= 2 {
      startDate, endDate := Some(dates[0]), Some(dates[1]);
    } else if |dates| == 1 {
      date := Some(dates[0]);
    }
    var company := FindCompany(lines, i);
    var description := CollectDescription(lines, i);
    return Some(Experience(title, startDate, endDate, date, company, description));
  }

  /** One line of extract_name's loop: the stripped line when it passes the
      name test. */
  method CheckNameLine(line: string) returns (candidate: Option<string>)
    ensures candidate == NameCandidate(line)
  {
    var stripped := Strip(line);
    candidate := None;
    if stripped != [] && WordCount(stripped) <= 4 && |stripped| < 50 {
      if !ContactMarkFrom(Lower(stripped), 0) {
        candidate := Some(stripped);
      }
    }
  }

  /** ResumeAnalyzer: the skill table and its flattened list, built once and
      read-only afterwards, and the entity recogniser standing for the spaCy
      pipeline, reduced to what extract_name asks of it: the text of the
      first PERSON entity in a text, if any. */
  class ResumeAnalyzer {
    const nlp: string -> Option<string>
    const commonSkills: seq<seq<string>>
    const allSkills: seq<string>

    predicate Valid() {
      commonSkills == CommonSkills && allSkills == Flatten(commonSkills)
    }

    /** Flattens the table category by category. */
    constructor(nlp: string -> Option<string>)
      ensures Valid() && this.nlp == nlp
    {
      this.nlp := nlp;
      commonSkills := CommonSkills;
      var flat: seq<string> := [];
      for g := 0 to |CommonSkills|
        invariant flat == Flatten(CommonSkills[..g])
      {
        assert CommonSkills[..g + 1][..g] == CommonSkills[..g];
        flat := flat + CommonSkills[g];
      }
      assert CommonSkills[..|CommonSkills|] == CommonSkills;
      allSkills := flat;
    }

    /** extract_name: the first five lines, else the recogniser. */
    method ExtractName(text: string) returns (name: Option<string>)
      ensures name == NameOf(text, nlp)
    {
      var lines := Split(text, '\n');
      ghost var cs := NameCandidates(lines);
      var i := 0;
      while i < |lines| && i < 5
        invariant i <= |cs|
        invariant FirstSome(cs, 0) == FirstSome(cs, i)
      {
        var candidate := CheckNameLine(lines[i]);
        assert cs[i] == candidate;
        if candidate.Some? {
          return candidate;
        }
        i := i + 1;
      }
      name := nlp(Head500(text));
    }

    /** extract_skills: each entry of the flattened list searched in the
        lowered text, the hits title-cased, then `sorted(set(...))`. */
    method ExtractSkills(text: string) returns (skills: seq<string>)
      requires Valid()
      ensures skills == SkillsIn(Flatten(CommonSkills), text)
    {
      var textLower := Lower(text);
      var found: seq<string> := [];
      for i := 0 to |allSkills|
        invariant found == Matched(allSkills[..i], textLower)
      {
        var skill := allSkills[i];
        if BoundedFrom(textLower, Lower(skill), 0) {
          found := found + [Title(skill)];
        }
        assert allSkills[..i + 1][..i] == allSkills[..i];
      }
      assert allSkills[..|allSkills|] == allSkills;
      skills := SortedSet(found);
    }

    /** extract_education: the entries of the degree lines, line by line. */
    method ExtractEducation(text: string) returns (education: seq<Education>)
      ensures education == EducationOf(text)
    {
      var lines := Split(text, '\n');
      ghost var flags := DegreeFlags(lines);
      ghost var entries := EducationEntries(lines);
      education := [];
      for i := 0 to |lines|
        invariant education == Select(flags[..i], entries[..i])
      {
        var entry := EducationEntry(lines, i);
        assert flags[i] == IsDegreeLine(lines[i]) && entries[i] == EducationAt(lines, i);
        SelectExtend(flags, entries, i, entry);
        if entry.Some? {
          education := education + [entry.value];
        }
      }
      SelectWhole(flags, entries);
    }

    /** extract_experience: the entries of the lines with a job keyword,
        line by line. */
    method ExtractExperience(text: string) returns (experience: seq<Experience>)
      ensures experience == ExperienceOf(text)
    {
      var lines := Split(text, '\n');
      ghost var flags := JobFlags(lines);
      ghost var entries := ExperienceEntries(lines);
      experience := [];
      for i := 0 to |lines|
        invariant experience == Select(flags[..i], entries[..i])
      {
        var entry := ExperienceEntry(lines, i);
        assert flags[i] == HasJobKeyword(lines[i]) && entries[i] == ExperienceAt(lines, i);
        SelectExtend(flags, entries, i, entry);
        if entry.Some? {
          experience := experience + [entry.value];
        }
      }
      SelectWhole(flags, entries);
    }

    /** analyze: the four extractions, each on its section when there is
        one. */
    method Analyze(text: string, sections: Option<seq<Preprocessor.Section>>) returns (result: Analysis)
      requires Valid()
      ensures result == AnalysisOf(text, sections, Flatten(CommonSkills), nlp)
    {
      var name := ExtractName(text);
      var skills: seq<string>;
      var skillsBody := SectionBody(sections, Preprocessor.Skills);
      if skillsBody.Some? {
        skills := ExtractSkills(skillsBody.value);
      } else {
        skills := ExtractSkills(text);
      }
      var education: seq<Education>;
      var educationBody := SectionBody(sections, Preprocessor.Education);
      if educationBody.Some? {
        education := ExtractEducation(educationBody.value);
      } else {
        education := ExtractEducation(text);
      }
      var experience: seq<Experience>;
      var experienceBody := SectionBody(sections, Preprocessor.Experience);
      if experienceBody.Some? {
        experience := ExtractExperience(experienceBody.value);
      } else {
        experience := ExtractExperience(text);
      }
      result := Analysis(name, skills, education, experience);
    }
  }
}
